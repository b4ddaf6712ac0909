/** The file manager (`filemanager/filemanager.go`): confines request paths
    to a base directory and bounds how deep below it they may reach. */
module FileManager {
  import opened Errors
  import opened GoPath

  datatype FileManager = FileManager(baseDir: string, maxDepth: int)

  /** `New`: the configured base directory and depth, taken as they are. */
  function New(path: string, maxDepth: int): (f: FileManager)
    ensures f.baseDir == path && f.maxDepth == maxDepth
  {
    FileManager(path, maxDepth)
  }

  /** `CleanPath` as written: clean the name, join it to the base, and panic
      unless the result starts with the base as a string. A relative name
      can still climb out of the base into a sibling whose name extends the
      base's last component. */
  function CleanPathAsWritten(f: FileManager, name: string): (r: Result<string>)
    ensures !r.Err?
    ensures r.Ok? ==> HasPrefix(r.value, f.baseDir) && r.value == Join(f.baseDir, Clean(name))
    ensures r.Panic? <==> !HasPrefix(Join(f.baseDir, Clean(name)), f.baseDir)
  {
    var cleaned := Join(f.baseDir, Clean(name));
    if !HasPrefix(cleaned, f.baseDir) then Panic("input was not properly cleaned")
    else Ok(cleaned)
  }

  /** `CleanPath` as intended: the name is cleaned as a rooted path first, so
      that no `..` survives to be joined to the base. */
  function CleanPath(f: FileManager, name: string): (p: string)
    ensures f.baseDir != "" ==> Rooted(p) == Rooted(f.baseDir)
  {
    if f.baseDir != "" then JoinComponents(f.baseDir, Clean("/" + name)); Join(f.baseDir, Clean("/" + name))
    else Join(f.baseDir, Clean("/" + name))
  }

  /** The cleaned path is the base's components followed by the name's own
      components once `.` and `..` are resolved against the root: it is
      always at the level of or below the base. */
  lemma CleanPathConfined(f: FileManager, name: string)
    requires f.baseDir != ""
    ensures Components(CleanPath(f, name)) == Components(f.baseDir) + Components("/" + name)
    ensures Within(CleanPath(f, name), f.baseDir)
  {
    var n := "/" + name;
    var c := Clean(n);
    var cs := Components(n);
    var b := Components(f.baseDir);
    var rb := Rooted(f.baseDir);
    JoinComponents(f.baseDir, c);
    SegmentsOfRootedClean(n);
    RootedPlain(n);
    if |cs| == 0 {
      assert Segments(c) == ["", ""];
      assert Resolve(rb, b, ["", ""]) == b;
      assert b + cs == b;
    } else {
      assert Resolve(rb, b, [""] + cs) == Resolve(rb, b, cs);
      ResolvePlain(rb, b, cs);
    }
    assert (b + cs)[..|b|] == b;
  }

  /** For a rooted name, the code as written and as intended agree. */
  lemma CleanPathAgreesOnRooted(f: FileManager, name: string)
    requires Rooted(name)
    ensures Join(f.baseDir, Clean(name)) == CleanPath(f, name)
  {
    SegmentsAppend("", name);
    assert "" + "/" + name == "/" + name;
    assert Resolve(true, [], [""] + Segments(name)) == Resolve(true, [], Segments(name));
    CleanDeterminedByComponents(name, "/" + name);
  }

  /** The path of base components `b` followed by `cs`, when both are
      rooted, extends the path of `b` alone by a separator and `cs`. */
  lemma RenderAppend(b: seq<string>, cs: seq<string>)
    requires |b| >= 1 && |cs| >= 1
    ensures Render(true, b + cs) == Render(true, b) + "/" + JoinSegs(cs)
  {
    JoinSegsAppend(b, cs);
    SlashAssoc(JoinSegs(b), JoinSegs(cs));
  }

  lemma RenderPrefix(b: seq<string>, cs: seq<string>)
    ensures HasPrefix(Render(true, b + cs), Render(true, b))
  {
    var p := Render(true, b + cs);
    var q := Render(true, b);
    if |cs| == 0 {
      assert b + cs == b;
    } else if |b| == 0 {
      assert b + cs == cs;
      assert p[..1] == "/";
    } else {
      RenderAppend(b, cs);
      assert p[..|q|] == q;
    }
  }

  /** With a clean rooted base, the intended `CleanPath` never trips the
      prefix panic, and agrees with the code as written on rooted names. */
  lemma CleanPathNoPanic(f: FileManager, name: string)
    requires Rooted(f.baseDir) && Clean(f.baseDir) == f.baseDir
    ensures HasPrefix(CleanPath(f, name), f.baseDir)
    ensures Rooted(name) ==> CleanPathAsWritten(f, name) == Ok(CleanPath(f, name))
  {
    var p := CleanPath(f, name);
    var b := Components(f.baseDir);
    var cs := Components("/" + name);
    CleanPathConfined(f, name);
    assert p == Clean(p);
    assert p == Render(true, b + cs);
    assert f.baseDir == Render(true, b);
    RenderPrefix(b, cs);
    if Rooted(name) {
      CleanPathAgreesOnRooted(f, name);
    }
  }

  /** The depth limit as written: clean, strip the base and a leading
      separator, and count the pieces left. The guard meant to catch a path
      outside the base compares the stripped length with the length of the
      name as given, so any rooted name passes it. */
  function CheckDepthAsWritten(f: FileManager, name: string): (r: Result<bool>)
    ensures !r.Err?
    ensures var raw := TrimPrefix(TrimPrefix(Clean(name), f.baseDir), "/");
      (r.Panic? <==> |name| == |raw|) && (r.Ok? ==> (r.value <==> |Segments(raw)| <= f.maxDepth))
  {
    var raw := TrimPrefix(TrimPrefix(Clean(name), f.baseDir), "/");
    if |name| == |raw| then Panic("path must begin with base dir")
    else Ok(|Segments(raw)| <= f.maxDepth)
  }

  /** The depth of a path below the base: its components past the base's,
      counting the base itself as one level, as splitting an empty remainder
      does. */
  function Depth(f: FileManager, p: string): nat {
    var d := |Components(p)| - |Components(f.baseDir)|;
    if d < 1 then 1 else d
  }

  /** The depth limit as intended: a path that does not lie within the base
      is refused, and the others are measured by their components. */
  function CheckDepth(f: FileManager, name: string): (r: Result<bool>)
    ensures !r.Err?
    ensures r.Panic? <==> !Within(Clean(name), f.baseDir)
    ensures r.Ok? ==> (r.value <==> Depth(f, name) <= f.maxDepth)
  {
    if !Within(Clean(name), f.baseDir) then Panic("path must begin with base dir")
    else Ok(Depth(f, name) <= f.maxDepth)
  }

  /** Stripping `base` and then a separator from `base/x` leaves `x`. */
  lemma StripBaseSlash(base: string, x: string)
    requires |x| >= 1 && x[0] != '/'
    ensures TrimPrefix(TrimPrefix(base + "/" + x, base), "/") == x
  {
    var p := base + "/" + x;
    assert p[..|base|] == base;
    assert p[|base|..] == "/" + x;
    assert ("/" + x)[..1] == "/";
    assert !HasPrefix(x, "/");
  }

  /** Stripping a separator twice from `/x` leaves `x`. */
  lemma StripRoot(x: string)
    requires |x| >= 1 && x[0] != '/'
    ensures TrimPrefix(TrimPrefix("/" + x, "/"), "/") == x
  {
    assert ("/" + x)[..1] == "/";
    assert !HasPrefix(x, "/");
  }

  /** Stripping the rooted path of `b`, then a separator, from the rooted
      path of `b + cs` leaves the path of `cs`. */
  lemma RemainderAfterBase(b: seq<string>, cs: seq<string>)
    requires forall k :: 0 <= k < |cs| ==> Plain(cs[k])
    ensures TrimPrefix(TrimPrefix(Render(true, b + cs), Render(true, b)), "/")
      == (if |cs| == 0 then "" else JoinSegs(cs))
  {
    if |cs| == 0 {
      assert b + cs == b;
      StripAll(Render(true, b));
    } else {
      JoinSegsHead(cs);
      var x := JoinSegs(cs);
      if |b| == 0 {
        assert b + cs == cs;
        assert Render(true, b + cs) == "/" + x;
        StripRoot(x);
      } else {
        RenderAppend(b, cs);
        StripBaseSlash(Render(true, b), x);
      }
    }
  }

  /** Stripping a string from itself, then a separator, leaves nothing. */
  lemma StripAll(q: string)
    ensures TrimPrefix(TrimPrefix(q, q), "/") == ""
  {
    assert q[..|q|] == q;
  }

  /** On a path `CleanPath` produced under a clean rooted base, the code as
      written and as intended agree, and both compare the number of the
      name's own components (at least one) with the maximum depth. */
  lemma DepthOfCleanedPath(f: FileManager, name: string)
    requires Rooted(f.baseDir) && Clean(f.baseDir) == f.baseDir
    ensures var p := CleanPath(f, name);
      var n := |Components("/" + name)|;
      CheckDepthAsWritten(f, p) == CheckDepth(f, p) == Ok((if n < 1 then 1 else n) <= f.maxDepth)
  {
    var p := CleanPath(f, name);
    var b := Components(f.baseDir);
    var cs := Components("/" + name);
    CleanPathConfined(f, name);
    RootedPlain("/" + name);
    CleanCanonical("/" + name);
    assert p == Clean(p);
    assert p == Render(true, b + cs);
    assert f.baseDir == Render(true, b);
    RemainderAfterBase(b, cs);
    if |cs| > 0 {
      SegmentsJoin(cs);
    }
  }
}
