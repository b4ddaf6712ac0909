/** The lexical path functions of Go's `path/filepath` on a Unix host, as
    the file manager uses them: `strings.Split` on the separator, `Clean`,
    `Join`, `strings.HasPrefix` and `strings.TrimPrefix`. `Clean` is
    modelled by its documented meaning on path components rather than by
    its byte loop: empty and `.` components go, `..` cancels the component
    before it, a rooted path cannot climb above `/`, and a relative path
    keeps the `..` it cannot cancel at its front. */
module GoPath {

  predicate SlashFree(s: string) {
    forall i :: 0 <= i < |s| ==> s[i] != '/'
  }

  /** `strings.Split(s, "/")`: the pieces between separators, at least one. */
  function Segments(s: string): (r: seq<string>)
    ensures |r| >= 1
    ensures forall i :: 0 <= i < |r| ==> SlashFree(r[i])
    decreases |s|
  {
    if |s| == 0 then [""]
    else if s[0] == '/' then [""] + Segments(s[1..])
    else
      var rest := Segments(s[1..]);
      [[s[0]] + rest[0]] + rest[1..]
  }

  /** `strings.Join(cs, "/")`. */
  function JoinSegs(cs: seq<string>): string
    decreases |cs|
  {
    if |cs| == 0 then "" else if |cs| == 1 then cs[0] else cs[0] + "/" + JoinSegs(cs[1..])
  }

  predicate Rooted(p: string) {
    |p| > 0 && p[0] == '/'
  }

  /** A component that `Clean` keeps as it is. */
  predicate Plain(c: string) {
    c != "" && c != "." && c != ".." && SlashFree(c)
  }

  /** The shape of a cleaned path's components: no empty or `.` component,
      and `..` only at the front of a relative path. */
  predicate Canonical(rooted: bool, cs: seq<string>) {
    (forall i :: 0 <= i < |cs| ==> (Plain(cs[i]) || (cs[i] == ".." && !rooted)))
    && (forall i, j :: 0 <= i < j < |cs| && cs[j] == ".." ==> cs[i] == "..")
  }

  /** One component of `Clean`'s scan, applied to the components kept so far. */
  function Step(rooted: bool, st: seq<string>, seg: string): seq<string> {
    if seg == "" || seg == "." then st
    else if seg == ".." then
      if |st| > 0 && st[|st| - 1] != ".." then st[..|st| - 1]
      else if rooted then st
      else st + [".."]
    else st + [seg]
  }

  function Resolve(rooted: bool, st: seq<string>, segs: seq<string>): seq<string>
    decreases |segs|
  {
    if |segs| == 0 then st else Resolve(rooted, Step(rooted, st, segs[0]), segs[1..])
  }

  /** The components `Clean` keeps of `p`. */
  function Components(p: string): seq<string> {
    Resolve(Rooted(p), [], Segments(p))
  }

  /** Writes kept components back as a path; no components is `/` or `.`. */
  function Render(rooted: bool, cs: seq<string>): string {
    if rooted then "/" + JoinSegs(cs) else if |cs| == 0 then "." else JoinSegs(cs)
  }

  /** `filepath.Clean`. */
  function Clean(p: string): (c: string)
    ensures c != ""
    ensures Rooted(c) == Rooted(p)
    ensures Components(c) == Components(p)
  {
    CleanCanonical(p);
    RenderComponents(Rooted(p), Components(p));
    Render(Rooted(p), Components(p))
  }

  /** `filepath.Join(a, b)`: empty elements are skipped, the rest joined with
      the separator and cleaned; two empty elements give the empty path. */
  function Join(a: string, b: string): string {
    if a != "" then Clean(a + "/" + b) else if b != "" then Clean(b) else ""
  }

  predicate HasPrefix(s: string, prefix: string) {
    |prefix| <= |s| && s[..|prefix|] == prefix
  }

  /** `strings.TrimPrefix`. */
  function TrimPrefix(s: string, prefix: string): (r: string)
    ensures HasPrefix(s, prefix) ==> s == prefix + r
    ensures !HasPrefix(s, prefix) ==> r == s
  {
    if HasPrefix(s, prefix) then s[|prefix|..] else s
  }

  /** `p` is at the level of or below `base`, component by component. */
  predicate Within(p: string, base: string) {
    Rooted(p) == Rooted(base)
    && |Components(base)| <= |Components(p)|
    && Components(p)[..|Components(base)|] == Components(base)
  }

  // ---- Segments and JoinSegs

  lemma {:induction false} SegmentsSlashFree(s: string)
    requires SlashFree(s)
    ensures Segments(s) == [s]
    decreases |s|
  {
    if |s| > 0 {
      SegmentsSlashFree(s[1..]);
      assert [s[0]] + s[1..] == s;
    }
  }

  lemma {:induction false} SegmentsAppend(a: string, b: string)
    ensures Segments(a + "/" + b) == Segments(a) + Segments(b)
    decreases |a|
  {
    var s := a + "/" + b;
    if |a| == 0 {
      assert s[1..] == b;
    } else {
      assert s[0] == a[0];
      assert s[1..] == a[1..] + "/" + b;
      SegmentsAppend(a[1..], b);
    }
  }

  lemma {:induction false} SegmentsJoin(cs: seq<string>)
    requires |cs| >= 1 && forall i :: 0 <= i < |cs| ==> SlashFree(cs[i])
    ensures Segments(JoinSegs(cs)) == cs
    decreases |cs|
  {
    if |cs| == 1 {
      SegmentsSlashFree(cs[0]);
    } else {
      SegmentsAppend(cs[0], JoinSegs(cs[1..]));
      SegmentsSlashFree(cs[0]);
      SegmentsJoin(cs[1..]);
      assert cs == [cs[0]] + cs[1..];
    }
  }

  lemma {:induction false} JoinSegsAppend(a: seq<string>, b: seq<string>)
    requires |a| >= 1 && |b| >= 1
    ensures JoinSegs(a + b) == JoinSegs(a) + "/" + JoinSegs(b)
    decreases |a|
  {
    if |a| == 1 {
      assert (a + b)[1..] == b;
    } else {
      assert (a + b)[1..] == a[1..] + b;
      JoinSegsAppend(a[1..], b);
    }
  }

  lemma {:induction false} JoinSegsHead(cs: seq<string>)
    requires |cs| >= 1 && |cs[0]| >= 1
    ensures |JoinSegs(cs)| >= 1 && JoinSegs(cs)[0] == cs[0][0]
    decreases |cs|
  {
  }

  // ---- Resolve

  lemma {:induction false} ResolveAppend(rooted: bool, st: seq<string>, a: seq<string>, b: seq<string>)
    ensures Resolve(rooted, st, a + b) == Resolve(rooted, Resolve(rooted, st, a), b)
    decreases |a|
  {
    if |a| == 0 {
      assert a + b == b;
    } else {
      assert (a + b)[0] == a[0];
      assert (a + b)[1..] == a[1..] + b;
      ResolveAppend(rooted, Step(rooted, st, a[0]), a[1..], b);
    }
  }

  /** Plain components are kept, in order. */
  lemma {:induction false} ResolvePlain(rooted: bool, st: seq<string>, cs: seq<string>)
    requires forall i :: 0 <= i < |cs| ==> Plain(cs[i])
    ensures Resolve(rooted, st, cs) == st + cs
    decreases |cs|
  {
    if |cs| == 0 {
      assert st + cs == st;
    } else {
      ResolvePlain(rooted, st + [cs[0]], cs[1..]);
      assert st + [cs[0]] + cs[1..] == st + cs;
    }
  }

  /** Resolving already canonical components changes nothing. */
  lemma {:induction false} ResolveIdentity(rooted: bool, st: seq<string>, rest: seq<string>)
    requires Canonical(rooted, st + rest)
    ensures Resolve(rooted, st, rest) == st + rest
    decreases |rest|
  {
    if |rest| == 0 {
      assert st + rest == st;
    } else {
      var x := rest[0];
      assert x == (st + rest)[|st|];
      if x == ".." {
        assert forall i :: 0 <= i < |st| ==> st[i] == (st + rest)[i];
        assert Step(rooted, st, x) == st + [x];
      } else {
        assert Step(rooted, st, x) == st + [x];
      }
      assert st + [x] + rest[1..] == st + rest;
      ResolveIdentity(rooted, st + [x], rest[1..]);
    }
  }

  lemma StepCanonical(rooted: bool, st: seq<string>, seg: string)
    requires Canonical(rooted, st) && SlashFree(seg)
    ensures Canonical(rooted, Step(rooted, st, seg))
  {
    if seg == ".." && |st| > 0 && st[|st| - 1] != ".." {
      var r := st[..|st| - 1];
      assert forall i :: 0 <= i < |r| ==> r[i] == st[i];
    } else if seg == ".." && !rooted {
      var r := st + [".."];
      assert forall i :: 0 <= i < |st| ==> st[i] == "..";
      assert forall i :: 0 <= i < |r| ==> r[i] == "..";
    }
  }

  lemma {:induction false} ResolveCanonical(rooted: bool, st: seq<string>, segs: seq<string>)
    requires Canonical(rooted, st) && forall i :: 0 <= i < |segs| ==> SlashFree(segs[i])
    ensures Canonical(rooted, Resolve(rooted, st, segs))
    decreases |segs|
  {
    if |segs| > 0 {
      StepCanonical(rooted, st, segs[0]);
      ResolveCanonical(rooted, Step(rooted, st, segs[0]), segs[1..]);
    }
  }

  // ---- Clean

  /** What `Clean` keeps is canonical. */
  lemma CleanCanonical(p: string)
    ensures Canonical(Rooted(p), Components(p))
  {
    ResolveCanonical(Rooted(p), [], Segments(p));
  }

  /** Rendering canonical components and reading them back is the identity. */
  lemma RenderComponents(rooted: bool, cs: seq<string>)
    requires Canonical(rooted, cs)
    ensures Rooted(Render(rooted, cs)) == rooted
    ensures Components(Render(rooted, cs)) == cs
    ensures Render(rooted, cs) != ""
  {
    if rooted {
      RenderRooted(cs);
    } else if |cs| == 0 {
      SegmentsSlashFree(".");
    } else {
      JoinSegsHead(cs);
      SegmentsJoin(cs);
      ResolveIdentity(rooted, [], cs);
      assert [] + cs == cs;
    }
  }

  lemma RenderRooted(cs: seq<string>)
    requires Canonical(true, cs)
    ensures Components(Render(true, cs)) == cs
  {
    var p := Render(true, cs);
    assert p == "" + "/" + JoinSegs(cs);
    assert Rooted(p);
    SegmentsAppend("", JoinSegs(cs));
    if |cs| == 0 {
      assert Segments(p) == ["", ""];
      assert Resolve(true, [], [""]) == [];
      assert Components(p) == Resolve(true, [], ["", ""]);
    } else {
      SegmentsJoin(cs);
      assert Segments(p) == [""] + cs;
      assert Resolve(true, [], [""] + cs) == Resolve(true, [], cs);
      ResolveIdentity(true, [], cs);
      assert [] + cs == cs;
    }
  }

  /** `Clean` is idempotent. */
  lemma CleanIdempotent(p: string)
    ensures Clean(Clean(p)) == Clean(p)
  {
  }

  /** Two paths with the same root and components clean to the same path. */
  lemma CleanDeterminedByComponents(p: string, q: string)
    requires Rooted(p) == Rooted(q) && Components(p) == Components(q)
    ensures Clean(p) == Clean(q)
  {
  }

  /** A path cleaned is the path of its components, and `Clean` of a path
      is the same as the path exactly when it was already canonical. */
  lemma CleanFixedPoint(p: string)
    ensures Clean(p) == p <==> Canonical(Rooted(p), Components(p)) && p == Render(Rooted(p), Components(p))
  {
    CleanCanonical(p);
  }

  // ---- Join

  /** `Join(a, b)` with a non-empty first element resolves `b`'s pieces on
      top of what `a` cleans to. */
  lemma JoinComponents(a: string, b: string)
    requires a != ""
    ensures Rooted(Join(a, b)) == Rooted(a)
    ensures Components(Join(a, b)) == Resolve(Rooted(a), Components(a), Segments(b))
  {
    var s := a + "/" + b;
    assert s[0] == a[0];
    SegmentsAppend(a, b);
    ResolveAppend(Rooted(a), [], Segments(a), Segments(b));
  }

  /** The pieces of a rooted clean path: a leading empty piece, then its
      components (or one more empty piece for `/`). */
  lemma SegmentsOfRootedClean(p: string)
    requires Rooted(p)
    ensures var cs := Components(p);
      Segments(Clean(p)) == (if |cs| == 0 then ["", ""] else [""] + cs)
  {
    var cs := Components(p);
    CleanCanonical(p);
    assert Clean(p) == "" + "/" + JoinSegs(cs);
    SegmentsAppend("", JoinSegs(cs));
    if |cs| > 0 {
      SegmentsJoin(cs);
    }
  }

  /** The components of a path given by its pieces. */
  lemma ComponentsOf(p: string, parts: seq<string>)
    requires |parts| >= 1 && (forall i :: 0 <= i < |parts| ==> SlashFree(parts[i])) && p == JoinSegs(parts)
    ensures Components(p) == Resolve(Rooted(p), [], parts)
  {
    SegmentsJoin(parts);
  }

  lemma JoinCons(a: string, cs: seq<string>)
    requires |cs| >= 1
    ensures JoinSegs([a] + cs) == a + "/" + JoinSegs(cs)
  {
    assert ([a] + cs)[1..] == cs;
  }

  lemma SlashAssoc(x: string, y: string)
    ensures "/" + x + "/" + y == "" + "/" + (x + "/" + y)
    ensures "/" + (x + "/" + y) == "/" + x + "/" + y
  {
  }

  /** A rooted path of two plain components is clean, and has exactly those
      components. */
  lemma RootedPair(a: string, b: string)
    requires Plain(a) && Plain(b)
    ensures Components("/" + a + "/" + b) == [a, b]
    ensures Clean("/" + a + "/" + b) == "/" + a + "/" + b
  {
    var p := "/" + a + "/" + b;
    SlashAssoc(a, b);
    SegmentsAppend("", a + "/" + b);
    SegmentsAppend(a, b);
    SegmentsSlashFree(a);
    SegmentsSlashFree(b);
    assert Segments(p) == [""] + [a, b];
    ResolvePlain(true, [], [a, b]);
    assert Components(p) == [a, b];
    assert JoinSegs([a, b]) == a + "/" + b;
  }

  /** Every component of a rooted path is plain. */
  lemma RootedPlain(p: string)
    requires Rooted(p)
    ensures forall i :: 0 <= i < |Components(p)| ==> Plain(Components(p)[i])
  {
    CleanCanonical(p);
  }
}
