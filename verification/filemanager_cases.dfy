/** Concrete paths under the base `/home/fsrv`: a case from the
    repository's tests of `CleanPath`, and the inputs that show where the
    code as written lets a path outside the base through. Each fact about a
    concrete string is its own small lemma. */
module FileManagerCases {
  import opened Errors
  import opened GoPath
  import opened FileManager

  lemma HomeFsrv()
    ensures Components("/home/fsrv") == ["home", "fsrv"]
  {
    RootedPair("home", "fsrv");
    assert "/" + "home" + "/" + "fsrv" == "/home/fsrv";
  }

  /** A path that `CleanPath` puts below `/home/fsrv` with the name's
      components `cs` is written out as the base's components and `cs`. */
  lemma BelowHomeFsrv(name: string, cs: seq<string>)
    requires Components("/" + name) == cs
    ensures CleanPath(New("/home/fsrv", 5), name) == Render(true, ["home", "fsrv"] + cs)
  {
    HomeFsrv();
    CleanPathConfined(New("/home/fsrv", 5), name);
    var p := CleanPath(New("/home/fsrv", 5), name);
    assert p == Clean(p);
  }

  /** Four components written out as a rooted path. */
  lemma RenderFour(a: string, b: string, c: string, d: string)
    ensures Render(true, [a, b] + [c, d]) == "/" + (a + "/" + (b + "/" + (c + "/" + d)))
  {
    assert [a, b] + [c, d] == [a] + ([b] + ([c] + [d]));
    JoinCons(c, [d]);
    JoinCons(b, [c] + [d]);
    JoinCons(a, [b] + ([c] + [d]));
  }

  lemma DirFileText()
    ensures "/" + ("home" + "/" + ("fsrv" + "/" + ("dir" + "/" + "file"))) == "/home/fsrv/dir/file"
  {
  }

  lemma DirFile()
    ensures Render(true, ["home", "fsrv"] + ["dir", "file"]) == "/home/fsrv/dir/file"
  {
    RenderFour("home", "fsrv", "dir", "file");
    DirFileText();
  }

  lemma DotDotTail()
    ensures JoinSegs(["ignored", "..", "file"]) == "ignored/../file"
  {
    JoinCons("..", ["file"]);
    JoinCons("ignored", ["..", "file"]);
    assert "ignored" + "/" + (".." + "/" + "file") == "ignored/../file";
  }

  lemma DotDotDir()
    ensures JoinSegs(["dir", "ignored", "..", "file"]) == "dir/ignored/../file"
  {
    DotDotTail();
    JoinCons("dir", ["ignored", "..", "file"]);
    assert "dir" + "/" + "ignored/../file" == "dir/ignored/../file";
  }

  lemma DotDotText()
    ensures JoinSegs(["", "", "dir", "ignored", "..", "file"]) == "/" + "/dir/ignored/../file"
  {
    DotDotDir();
    JoinCons("", ["dir", "ignored", "..", "file"]);
    JoinCons("", ["", "dir", "ignored", "..", "file"]);
    var d := "dir/ignored/../file";
    assert "" + "/" + ("" + "/" + d) == "/" + "/" + d;
    assert "/" + "/" + d == "/" + "/dir/ignored/../file";
  }

  lemma DotDotResolve()
    ensures Resolve(true, [], ["", "", "dir", "ignored", "..", "file"]) == ["dir", "file"]
  {
    var segs: seq<string> := ["", "", "dir", "ignored", "..", "file"];
    assert segs[1..][1..] == ["dir", "ignored", "..", "file"];
    assert Resolve(true, [], segs) == Resolve(true, [], ["dir", "ignored", "..", "file"]);
    ResolveAppend(true, [], ["dir", "ignored"], ["..", "file"]);
    assert ["dir", "ignored"] + ["..", "file"] == ["dir", "ignored", "..", "file"];
    ResolvePlain(true, [], ["dir", "ignored"]);
    assert Step(true, ["dir", "ignored"], "..") == ["dir"];
  }

  lemma DotDotName()
    ensures Components("/" + "/dir/ignored/../file") == ["dir", "file"]
  {
    DotDotText();
    ComponentsOf("/" + "/dir/ignored/../file", ["", "", "dir", "ignored", "..", "file"]);
    DotDotResolve();
  }

  /** The first case in the repository's tests of `CleanPath`. */
  lemma ExpectedPathDotDot()
    ensures CleanPath(New("/home/fsrv", 5), "/dir/ignored/../file") == "/home/fsrv/dir/file"
  {
    DotDotName();
    BelowHomeFsrv("/dir/ignored/../file", ["dir", "file"]);
    DirFile();
  }

  /** The pieces of `../c`. */
  lemma UpPieces(c: string)
    requires SlashFree(c)
    ensures Segments(".." + "/" + c) == ["..", c]
  {
    SegmentsAppend("..", c);
    SegmentsSlashFree("..");
    SegmentsSlashFree(c);
  }

  /** `../c` is already clean. */
  lemma RelativeUp(c: string)
    requires Plain(c)
    ensures Clean(".." + "/" + c) == ".." + "/" + c
  {
    var p := ".." + "/" + c;
    UpPieces(c);
    assert p[0] == '.';
    assert Step(false, [], "..") == [".."];
    assert Resolve(false, [".."], [c]) == ["..", c];
    assert Components(p) == ["..", c];
    JoinCons("..", [c]);
  }

  /** `../c` cleaned as a rooted path is the single component `c`. */
  lemma RootedUp(c: string)
    requires Plain(c)
    ensures Components("/" + (".." + "/" + c)) == [c]
  {
    var y := ".." + "/" + c;
    UpPieces(c);
    assert "" + "/" + y == "/" + y;
    SegmentsAppend("", y);
    assert Segments("/" + y) == ["", "..", c];
    assert Resolve(true, [], ["", "..", c]) == Resolve(true, [], ["..", c]);
    assert Step(true, [], "..") == [];
    assert Resolve(true, [], [c]) == [c];
  }

  /** Three components written out as a rooted path. */
  lemma RenderThree(a: string, b: string, c: string)
    ensures Render(true, [a, b] + [c]) == "/" + (a + "/" + (b + "/" + c))
  {
    assert [a, b] + [c] == [a] + ([b] + [c]);
    JoinCons(b, [c]);
    JoinCons(a, [b] + [c]);
  }

  lemma RelativeSibling()
    ensures Clean("../fsrv2") == "../fsrv2"
  {
    RelativeUp("fsrv2");
    SiblingTexts();
  }

  /** Joining `../c` to the rooted path `/a/b` replaces its last component. */
  lemma JoinUp(a: string, b: string, c: string)
    requires Plain(a) && Plain(b) && Plain(c)
    ensures Join("/" + a + "/" + b, ".." + "/" + c) == "/" + a + "/" + c
  {
    var x, y := "/" + a + "/" + b, ".." + "/" + c;
    JoinComponents(x, y);
    RootedPair(a, b);
    RootedPair(a, c);
    SegmentsAppend("..", c);
    SegmentsSlashFree("..");
    SegmentsSlashFree(c);
    assert Segments(y) == ["..", c];
    assert Step(true, [a, b], "..") == [a];
    assert Resolve(true, [a], [c]) == [a, c];
    assert Components(Join(x, y)) == [a, c];
    CleanFixedPoint(Join(x, y));
    CleanDeterminedByComponents(Join(x, y), "/" + a + "/" + c);
  }

  lemma SiblingTexts()
    ensures "/" + "home" + "/" + "fsrv" == "/home/fsrv"
    ensures ".." + "/" + "fsrv2" == "../fsrv2"
    ensures "/" + "home" + "/" + "fsrv2" == "/home/fsrv2"
  {
  }

  lemma JoinSibling()
    ensures Join("/home/fsrv", "../fsrv2") == "/home/fsrv2"
  {
    JoinUp("home", "fsrv", "fsrv2");
    SiblingTexts();
  }

  lemma SiblingPrefix()
    ensures HasPrefix("/home/fsrv2", "/home/fsrv")
  {
  }

  /** The code as written joins `../fsrv2` to `/home/fsrv` as the sibling
      `/home/fsrv2`, and its string prefix test lets that through. */
  lemma CleanPathEscapes()
    ensures CleanPathAsWritten(New("/home/fsrv", 5), "../fsrv2") == Ok("/home/fsrv2")
  {
    RelativeSibling();
    JoinSibling();
    SiblingPrefix();
  }

  /** `/home/fsrv2` is not within `/home/fsrv`. */
  lemma SiblingComponents()
    ensures Components("/home/fsrv2") == ["home", "fsrv2"]
  {
    RootedPair("home", "fsrv2");
    assert "/" + "home" + "/" + "fsrv2" == "/home/fsrv2";
  }

  /** Paths whose components differ within the base's length are not
      within one another. */
  lemma DiffersAt(p: string, base: string, i: nat)
    requires i < |Components(base)| && i < |Components(p)| && Components(p)[i] != Components(base)[i]
    ensures !Within(p, base)
  {
  }

  lemma SiblingOutside()
    ensures !Within("/home/fsrv2", "/home/fsrv")
  {
    HomeFsrv();
    SiblingComponents();
    assert "fsrv2" != "fsrv" by { assert |"fsrv2"| != |"fsrv"|; }
    DiffersAt("/home/fsrv2", "/home/fsrv", 1);
  }

  lemma SiblingName()
    ensures Components("/" + "../fsrv2") == ["fsrv2"]
  {
    RootedUp("fsrv2");
    SiblingTexts();
  }

  lemma SiblingInsideText()
    ensures "/" + ("home" + "/" + ("fsrv" + "/" + "fsrv2")) == "/home/fsrv/fsrv2"
  {
  }

  /** The intended `CleanPath` keeps `../fsrv2` inside the base. */
  lemma CleanPathKeepsSiblingInside()
    ensures CleanPath(New("/home/fsrv", 5), "../fsrv2") == "/home/fsrv/fsrv2"
  {
    SiblingName();
    BelowHomeFsrv("../fsrv2", ["fsrv2"]);
    RenderThree("home", "fsrv", "fsrv2");
    SiblingInsideText();
  }

  lemma EtcPasswd()
    ensures Components("/etc/passwd") == ["etc", "passwd"]
    ensures Clean("/etc/passwd") == "/etc/passwd"
  {
    RootedPair("etc", "passwd");
    assert "/" + "etc" + "/" + "passwd" == "/etc/passwd";
  }

  lemma EtcPasswdNotUnderBase()
    ensures TrimPrefix("/etc/passwd", "/home/fsrv") == "/etc/passwd"
  {
    var p := "/etc/passwd";
    var base := "/home/fsrv";
    assert p[1] != base[1];
  }

  lemma EtcPasswdUnrooted()
    ensures TrimPrefix("/etc/passwd", "/") == "etc/passwd"
  {
  }

  lemma EtcPasswdPieces()
    ensures Segments("etc/passwd") == ["etc", "passwd"]
  {
    assert "etc/passwd" == JoinSegs(["etc", "passwd"]);
    SegmentsJoin(["etc", "passwd"]);
  }

  /** `CheckDepth` as written measures `/etc/passwd` against a base of
      `/home/fsrv` as a path two levels deep instead of refusing it. */
  lemma CheckDepthAcceptsOutsider()
    ensures CheckDepthAsWritten(New("/home/fsrv", 5), "/etc/passwd") == Ok(true)
  {
    EtcPasswd();
    EtcPasswdNotUnderBase();
    EtcPasswdUnrooted();
    EtcPasswdPieces();
  }

  /** The intended `CheckDepth` refuses `/etc/passwd` under `/home/fsrv`. */
  lemma CheckDepthRefusesOutsider()
    ensures CheckDepth(New("/home/fsrv", 5), "/etc/passwd").Panic?
  {
    EtcPasswd();
    HomeFsrv();
    var a: seq<string> := ["etc", "passwd"];
    var b: seq<string> := ["home", "fsrv"];
    assert a[0] != b[0] by { assert a[0][0] != b[0][0]; }
    assert a[..2] != b;
  }
}
