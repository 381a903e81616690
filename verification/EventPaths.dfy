/** Where an event plug-in puts a file: the destination option of the configured path, in
    the place of that path. */
module EventPaths {
  import opened Outcomes
  import opened Paths
  import opened PathIndex

  /** str.lstrip('/') */
  function StripLeading(s: string): string {
    if s != "" && s[0] == '/' then StripLeading(s[1..]) else s
  }

  /** os.path.join of two texts: an absolute second one replaces the first. */
  function Join(a: string, b: string): string {
    if b != "" && b[0] == '/' then b else JoinPath(a, b)
  }

  /** `options` is None when neither the plug-in nor the path has any; its `dest` and the
      prefix are empty when absent. */
  function RealDstPath(options: Option<string>, cfgPath: string, filepath: string, prefix: string): string {
    match options
    case None => filepath
    case Some(dest) =>
      var r := if dest != "" && cfgPath <= filepath then Join(dest, StripLeading(filepath[|cfgPath|..])) else filepath;
      if prefix == "" then r else Join(Join("/", prefix), StripLeading(r))
  }

  lemma StripPlain(s: string)
    ensures s == "" || s[0] != '/' ==> StripLeading(s) == s && StripLeading("/" + s) == s
  {
    assert ("/" + s)[1..] == s;
  }

  /** The text of a path, relative to the root. */
  function Relative(p: seq<string>): string {
    if p == [] then "" else Slashed(p)[1..]
  }

  lemma RelativeStep(p: seq<string>)
    requires p != [] && ValidPath(p)
    ensures Relative(p) == p[0] + Slashed(p[1..])
    ensures Relative(p) != "" && Relative(p)[0] != '/'
  {
    SlashedShape(p);
    assert ValidName(p[0]);
  }

  lemma {:induction false} ResolveOnto(at: seq<string>, part: string, p: seq<string>)
    requires ValidPath(p)
    ensures Resolve(at, [part] + p) == Enter(at, part) + p
  {
    assert ([part] + p)[1..] == p;
    ResolvePlain(Enter(at, part), p);
  }

  lemma SplitOnto(part: string, p: seq<string>)
    requires SlashFree(part) && ValidPath(p)
    ensures Split(part + Slashed(p)) == [part] + p
  {
    if p == [] {
      SplitStep(part, "");
      assert part + "" == part;
    } else {
      hide Split, Slashed, ValidName;
      SlashedShape(p);
      SplitSlashed(p);
      SplitStep("", p[0] + Slashed(p[1..]));
      assert Slashed(p) == "" + ("/" + (p[0] + Slashed(p[1..])));
      SplitStep(part, p[0] + Slashed(p[1..]));
      assert [""] + p == [""] + Split(p[0] + Slashed(p[1..]));
      assert p == ([""] + p)[1..] == Split(p[0] + Slashed(p[1..]));
      assert part + Slashed(p) == part + ("/" + (p[0] + Slashed(p[1..])));
    }
  }

  /** What a part followed by plain components adds to a root. */
  lemma JoinOnto(root: string, part: string, p: seq<string>)
    requires SlashFree(part) && ValidPath(p)
    ensures Components(JoinPath(root, part + Slashed(p))) == Enter(Components(root), part) + p
  {
    hide Components, Split, Resolve, Slashed, ValidName;
    JoinResolves(root, part + Slashed(p));
    SplitOnto(part, p);
    ResolveOnto(Components(root), part, p);
  }

  lemma JoinRelative(root: string, p: seq<string>)
    requires ValidPath(p)
    ensures Components(Join(root, Relative(p))) == Components(root) + p
  {
    hide Components, Slashed;
    if p == [] {
      NoSlashed();
      assert "" + "" == "";
      JoinOnto(root, "", []);
    } else {
      RelativeStep(p);
      assert ValidName(p[0]) && p == [p[0]] + p[1..];
      JoinOnto(root, p[0], p[1..]);
    }
  }

  lemma NoSlashed()
    ensures Slashed([]) == ""
  {
  }

  lemma {:induction false} SlashedConcat(p: seq<string>, q: seq<string>)
    ensures Slashed(p + q) == Slashed(p) + Slashed(q)
    decreases |p|
  {
    if p == [] {
      assert p + q == q;
    } else {
      assert (p + q)[1..] == p[1..] + q;
      SlashedConcat(p[1..], q);
    }
  }

  /** The two ways to write a directory with which the cut comes out right: its normalised
      text, with or without a slash at the end. For the root these are "" and "/". */
  predicate PlainSpelling(text: string, c: seq<string>) {
    text == Slashed(c) || text == Slashed(c) + "/"
  }

  /** What is left of a path text once an ancestor's text, and the slash after it, are cut off. */
  lemma CutPlain(text: string, c: seq<string>, rel: seq<string>)
    requires ValidPath(c + rel) && PlainSpelling(text, c) && text <= PathText(c + rel)
    ensures StripLeading(PathText(c + rel)[|text|..]) == Relative(rel)
  {
    hide Slashed;
    NoSlashed();
    assert forall i :: 0 <= i < |rel| ==> rel[i] == (c + rel)[|c| + i];
    SlashedConcat(c, rel);
    if rel == [] {
      assert c + rel == c;
      assert PathText(c)[|text|..] == "" || PathText(c)[|text|..] == "/";
      StripPlain("");
    } else {
      RelativeStep(rel);
      SlashedShape(rel);
      StripPlain(Relative(rel));
      assert Slashed(rel) == "/" + Relative(rel);
      assert PathText(c + rel) == Slashed(c) + ("/" + Relative(rel));
      assert text == Slashed(c) ==> PathText(c + rel)[|text|..] == "/" + Relative(rel);
      assert text == Slashed(c) + "/" ==> PathText(c + rel)[|text|..] == Relative(rel);
    }
  }

  lemma PrefixSplit<T>(text: seq<T>, a: seq<T>, below: seq<T>)
    requires text <= a + below
    ensures |text| <= |a| ==> text <= a
    ensures |a| < |text| ==> text == a + text[|a|..] && text[|a|..] <= below
  {
    assert text == (a + below)[..|text|];
    if |a| < |text| {
      assert (a + below)[|a|..] == below;
    }
  }

  lemma HeadPart(text: string, first: string) returns (part: string)
    requires text != "" && text <= "/" + first
    ensures part <= first && text == "/" + part
  {
    part := text[1..];
    assert text[0] == '/' && ("/" + first)[1..] == first;
  }

  lemma DeeperPart(first: string, rest: string, a: seq<string>, part: string)
    requires rest == Slashed(a) + "/" + part
    ensures "/" + first + rest == Slashed([first] + a) + "/" + part
  {
    assert ([first] + a)[1..] == a;
  }

  /** A text prefix of a path text ends within one of its components, or is empty. */
  lemma {:induction false} PrefixShape(text: string, file: seq<string>) returns (k: nat, part: string)
    requires text != "" && text <= Slashed(file)
    ensures k < |file| && part <= file[k]
    ensures text == Slashed(file[..k]) + "/" + part
    decreases |file|
  {
    NoSlashed();
    assert file != [];
    var first := file[0];
    assert Slashed(file) == "/" + first + Slashed(file[1..]);
    hide Slashed;
    PrefixSplit(text, "/" + first, Slashed(file[1..]));
    if |text| <= 1 + |first| {
      part := HeadPart(text, first);
      k := 0;
      assert file[..0] == [];
      assert "" + "/" + part == "/" + part;
    } else {
      var j, p := PrefixShape(text[1 + |first|..], file[1..]);
      k, part := j + 1, p;
      DeeperPart(first, text[1 + |first|..], file[1..][..j], part);
      assert file[..k] == [first] + file[1..][..j];
    }
  }

  lemma ShapeComponents(a: seq<string>, part: string)
    requires ValidPath(a) && SlashFree(part)
    ensures Components(Slashed(a) + "/" + part) == Enter(a, part)
  {
    assert [part][1..] == [];
    assert Resolve(a, [part]) == Enter(a, part);
    hide Split, Resolve;
    assert Components(Slashed(a)) == a by {
      if a == [] { NoRoot(); } else { ComponentsOfText(a); }
    }
    assert Slashed(a) + "/" + part == Slashed(a) + ("/" + part);
    SlashResolves(Slashed(a), part);
    SplitStep(part, "");
  }

  /** A component that has lost its first letters is not the component. */
  lemma ShortOf(at: seq<string>, part: string, front: seq<string>, name: string, rest: seq<string>)
    requires part != name
    ensures Enter(at, part) + rest != at + (front + [name] + rest)
  {
    var short, full := Enter(at, part) + rest, at + (front + [name] + rest);
    if |short| == |full| {
      assert front == [] && short[|at|] == part && full[|at|] == name;
    }
  }

  /** What is left when a text prefix ends inside a component: the rest of it, and all below. */
  lemma CutInside(file: seq<string>, k: nat, part: string)
    requires ValidPath(file) && k < |file| && part < file[k]
    ensures Slashed(file[..k]) + "/" + part <= PathText(file)
    ensures var left := file[k][|part|..];
            && left != "" && left[0] != '/' && SlashFree(left)
            && StripLeading(PathText(file)[|Slashed(file[..k]) + "/" + part|..]) == left + Slashed(file[k + 1..])
  {
    var left := file[k][|part|..];
    assert ValidName(file[k]);
    SlashedConcat(file[..k], file[k..]);
    assert file == file[..k] + file[k..] && file[k..][0] == file[k] && file[k..][1..] == file[k + 1..];
    hide Slashed;
    SlashedShape(file[k..]);
    assert file[k] == part + left;
    assert PathText(file) == (Slashed(file[..k]) + "/" + part) + (left + Slashed(file[k + 1..]));
    assert left != "" && left[0] != '/';
    StripPlain(left + Slashed(file[k + 1..]));
  }

  /** A prefix that ends inside a component leads to an ancestor only by way of dots. */
  lemma DotsOnly(file: seq<string>, k: nat, part: string)
    requires ValidPath(file) && k < |file| && part != "" && part < file[k]
    requires Enter(file[..k], part) <= file
    ensures |Enter(file[..k], part)| <= k
  {
    assert (file[..k] + [part])[k] == part;
  }

  lemma PartSlashFree(part: string, name: string)
    requires part <= name && SlashFree(name)
    ensures SlashFree(part)
  {
  }

  lemma UnplainInside(a: seq<string>, part: string, name: string)
    requires ValidName(name) && !PlainSpelling(Slashed(a) + "/" + part, Enter(a, part))
    ensures part != "" && part != name
  {
    hide Slashed;
    assert Slashed(a) + "/" + "" == Slashed(a) + "/";
    SlashedSnoc(a, part);
  }

  /** A prefix of the file's text that resolves to an ancestor, but does not spell it plainly,
      ends in "." or ".."; then the cut takes letters off the file's own components. */
  lemma CutAskew(dest: string, text: string, file: seq<string>)
    requires ValidPath(file) && text <= PathText(file)
    requires Components(text) <= file && !PlainSpelling(text, Components(text))
    ensures Components(Join(dest, StripLeading(PathText(file)[|text|..])))
            != Components(dest) + file[|Components(text)|..]
  {
    hide Components, Slashed, ValidName, Enter, SlashFree;
    NoSlashed();
    NoRoot();
    ComponentsOfText([]);
    var c := Components(text);
    assert text != "" && file != [];
    var k, part := PrefixShape(text, file);
    NameSlashFree(file[k]);
    PartSlashFree(part, file[k]);
    ShapeComponents(file[..k], part);
    UnplainInside(file[..k], part, file[k]);
    var left, rest := file[k][|part|..], file[k + 1..];
    CutInside(file, k, part);
    DotsOnly(file, k, part);
    assert file[|c|..] == file[|c|..k] + [file[k]] + rest;
    assert left + Slashed(rest) != "" && (left + Slashed(rest))[0] != '/';
    JoinOnto(dest, left, rest);
    ShortOf(Components(dest), left, file[|c|..k], file[k], rest);
  }

  lemma CutStraight(dest: string, text: string, file: seq<string>)
    requires ValidPath(file) && text <= PathText(file)
    requires Components(text) <= file && PlainSpelling(text, Components(text))
    ensures Components(Join(dest, StripLeading(PathText(file)[|text|..])))
            == Components(dest) + file[|Components(text)|..]
  {
    hide Components, PlainSpelling;
    var c := Components(text);
    var rel := file[|c|..];
    assert file == c + rel;
    CutPlain(text, c, rel);
    JoinRelative(dest, rel);
  }

  lemma OwnDestination(at: seq<string>, c: seq<string>, file: seq<string>)
    requires c <= file
    ensures file == at + file[|c|..] <==> at == c
  {
    assert file == c + file[|c|..];
    if file == at + file[|c|..] {
      assert |at| == |c|;
      assert at == file[..|at|] == c;
    }
  }

  /** A file that an event reports in directory `dir` is handled by the nearest configured
      ancestor of `dir`, and lies below the path of that configuration. It goes to its path
      relative to the configured one, below `dest`, exactly if the configured path, as it is
      written, is a text prefix of the file's that spells its directory plainly; or if it is
      no text prefix, so that the file stays, and stays where it should go. */
  lemma DispatchedDestination(m: Index, dir: string, cfg: CfgPath, file: seq<string>, dest: string)
    requires KeysBelow(m) && Nearest(m, dir, Some(cfg))
    requires ValidPath(file) && Components(dir) <= file && dest != ""
    ensures var c := Components(cfg.path);
            && c <= file
            && (Components(RealDstPath(Some(dest), cfg.path, PathText(file), "")) == Components(dest) + file[|c|..]
                <==> if cfg.path <= PathText(file) then cfg.path == Slashed(c) || cfg.path == Slashed(c) + "/"
                     else Components(dest) == c)
  {
    hide Components, StripLeading, Join, Slashed;
    var k :| NearestKey(m, dir, k) && m[k] == cfg;
    var c := Components(cfg.path);
    assert c <= Components(k) && Components(k) <= Components(dir);
    if cfg.path <= PathText(file) {
      if PlainSpelling(cfg.path, c) {
        CutStraight(dest, cfg.path, file);
      } else {
        CutAskew(dest, cfg.path, file);
      }
    } else {
      ComponentsOfText(file);
      OwnDestination(Components(dest), c, file);
    }
  }

  // ---- spellings that go wrong

  /** The one key of an index answers for its own directory. */
  lemma OnlyKey(cfg: CfgPath, dir: string)
    requires Components(dir) == Components(cfg.path)
    ensures KeysBelow(map[cfg.path := cfg]) && Nearest(map[cfg.path := cfg], dir, Some(cfg))
  {
    SpellingAnswers(map[cfg.path := cfg], dir, cfg.path);
  }

  lemma TwoNames(name: string)
    ensures PathText(["a", name]) == "/a/" + name
  {
    assert ["a", name][1..] == [name];
    assert Slashed([name]) == "/" + name + "";
    assert Slashed(["a", name]) == "/" + "a" + ("/" + name + "");
    assert "/" + "a" + ("/" + name + "") == "/a/" + name;
  }

  /** The plug-in compares texts: outside dispatch, a path that merely starts with the same
      letters is taken for a file below the configured one. */
  lemma TextPrefixSlips()
    ensures !(Components("/a") <= Components("/ab"))
    ensures RealDstPath(Some("/d"), "/a", "/ab", "") == "/d/b"
  {
    assert ValidName("a") && ValidName("ab");
    assert Slashed(["a"]) == "/a" by { assert "/" + "a" + "" == "/a"; }
    assert Slashed(["ab"]) == "/ab" by { assert "/" + "ab" + "" == "/ab"; }
    ComponentsOfText(["a"]);
    ComponentsOfText(["ab"]);
    assert "/ab"[2..] == "b" && "/a" <= "/ab";
    assert "/d" + "/" + "b" == "/d/b";
  }

  /** Both of these are configured, dispatched, and not where they should be: a path written
      with two slashes at the end keeps its file where it is, whatever the destination says... */
  lemma DoubledSlashStays(cfg: CfgPath)
    requires cfg.path == "/a//"
    ensures Components(cfg.path) == ["a"]
    ensures KeysBelow(map[cfg.path := cfg]) && Nearest(map[cfg.path := cfg], "/a", Some(cfg))
    ensures PathText(["a", "f"]) == "/a/f" && RealDstPath(Some("/d"), cfg.path, "/a/f", "") == "/a/f"
  {
    hide Components;
    TwoSpellings();
    SlashAtEnd("/a/");
    assert "/a/" + "/" == "/a//";
    OnlyKey(cfg, "/a");
    TwoNames("f");
    assert "/a/" + "f" == "/a/f";
    assert "/a//"[3] == '/' && "/a/f"[3] == 'f';
  }

  /** ... and one written with a dot at the end takes the dot off the file's name. */
  lemma TrailingDotSwallows(cfg: CfgPath)
    requires cfg.path == "/a/."
    ensures Components(cfg.path) == ["a"]
    ensures KeysBelow(map[cfg.path := cfg]) && Nearest(map[cfg.path := cfg], "/a", Some(cfg))
    ensures PathText(["a", ".x"]) == "/a/.x" && RealDstPath(Some("/d"), cfg.path, "/a/.x", "") == "/d/x"
  {
    hide Components;
    TwoSpellings();
    SlashResolves("/a", ".");
    SplitStep(".", "");
    assert "/a" + ("/" + ".") == "/a/.";
    assert ["."][1..] == [];
    OnlyKey(cfg, "/a");
    TwoNames(".x");
    assert "/a/" + ".x" == "/a/.x";
    assert "/a/.x"[4..] == "x" && "/a/." <= "/a/.x";
    assert "/d" + "/" + "x" == "/d/x";
  }

  // ---- the prefix

  /** How many levels the parts go up above the one they started from, at `depth` below which
      they are now. */
  function Height(depth: nat, parts: seq<string>): nat
    decreases |parts|
  {
    if parts == [] then 0
    else if parts[0] == "" || parts[0] == "." then Height(depth, parts[1..])
    else if parts[0] != ".." then Height(depth + 1, parts[1..])
    else if depth == 0 then 1 + Height(0, parts[1..])
    else Height(depth - 1, parts[1..])
  }

  /** What is left of a base when its last `n` components are gone, if it has so many. */
  function Without(base: seq<string>, n: nat): seq<string> {
    if n <= |base| then base[..|base| - n] else []
  }

  /** Below a base, the parts lead where they lead by themselves, below what their climb leaves
      of the base. */
  lemma {:induction false} ResolveUnder(base: seq<string>, at: seq<string>, parts: seq<string>)
    ensures Resolve(base + at, parts) == Without(base, Height(|at|, parts)) + Resolve(at, parts)
    decreases |parts|
  {
    if parts != [] {
      var part, rest := parts[0], parts[1..];
      if part == ".." && at == [] {
        var above := Without(base, 1);
        assert base + [] == base && above + [] == above;
        assert Enter(base, part) == above && Enter([], part) == [];
        ResolveUnder(above, [], rest);
        assert Without(above, Height(0, rest)) == Without(base, 1 + Height(0, rest));
      } else {
        assert Enter(base + at, part) == base + Enter(at, part);
        ResolveUnder(base, Enter(at, part), rest);
      }
    }
  }

  /** Slashes in front lead nowhere. */
  lemma {:induction false} StripSame(at: seq<string>, s: string)
    ensures Resolve(at, Split(StripLeading(s))) == Resolve(at, Split(s))
  {
    if s != "" && s[0] == '/' {
      StripSame(at, s[1..]);
      SplitStep("", s[1..]);
      assert "" + ("/" + s[1..]) == s;
      assert ([""] + Split(s[1..]))[1..] == Split(s[1..]);
    }
  }

  lemma {:induction false} StripsAll(s: string)
    ensures StripLeading(s) == "" || StripLeading(s)[0] != '/'
  {
    if s != "" && s[0] == '/' { StripsAll(s[1..]); }
  }

  lemma BelowIffBack(base: seq<string>, n: nat, x: seq<string>)
    requires n <= |base|
    ensures base <= base[..|base| - n] + x <==> base[|base| - n..] <= x
    ensures base[..|base| - n] + x == base + x <==> n == 0
  {
    var kept, gone := base[..|base| - n], base[|base| - n..];
    assert base == kept + gone;
    var full := kept + x;
    assert full[..|kept|] == kept && full[|kept|..] == x;
    if base <= full {
      assert gone == full[|kept|..|base|] == x[..n];
    }
  }

  lemma Placement(base: seq<string>, height: nat, x: seq<string>)
    ensures var placed := Without(base, height) + x;
            var lost := if height < |base| then height else |base|;
            && placed == base[..|base| - lost] + x
            && (base <= placed <==> base[|base| - lost..] <= x)
            && (placed == base + x <==> base == [] || height == 0)
  {
    var lost := if height < |base| then height else |base|;
    assert Without(base, height) == base[..|base| - lost];
    BelowIffBack(base, lost, x);
  }

  lemma ComponentsResolve(s: string)
    ensures Components(s) == Resolve([], Split(s))
  {
  }

  lemma PrefixResolves(dest: string, cfgPath: string, filepath: string, prefix: string)
    requires prefix != ""
    ensures Components(RealDstPath(Some(dest), cfgPath, filepath, prefix))
            == Resolve(Components(Join("/", prefix)), Split(RealDstPath(Some(dest), cfgPath, filepath, "")))
  {
    hide Split, Components, Resolve;
    var r, root := RealDstPath(Some(dest), cfgPath, filepath, ""), Join("/", prefix);
    StripsAll(r);
    assert Join(root, StripLeading(r)) == JoinPath(root, StripLeading(r));
    JoinResolves(root, StripLeading(r));
    StripSame(Components(root), r);
  }

  /** With a prefix, the destination is the one without it, below what its climb leaves of the
      prefix. So it is below the prefix exactly if it comes back down the way it climbed; and
      where it would be without one, but below the prefix, exactly if the prefix is the root or
      it never climbs. */
  lemma PrefixedDestination(dest: string, cfgPath: string, filepath: string, prefix: string)
    requires prefix != ""
    ensures var r := RealDstPath(Some(dest), cfgPath, filepath, "");
            var base := Components(Join("/", prefix));
            var placed := Components(RealDstPath(Some(dest), cfgPath, filepath, prefix));
            var height := Height(0, Split(r));
            var lost := if height < |base| then height else |base|;
            && placed == base[..|base| - lost] + Components(r)
            && (base <= placed <==> base[|base| - lost..] <= Components(r))
            && (placed == base + Components(r) <==> base == [] || height == 0)
  {
    hide Split, Components, Resolve, Height, Without, Join, RealDstPath;
    var r, base := RealDstPath(Some(dest), cfgPath, filepath, ""), Components(Join("/", prefix));
    ComponentsResolve(r);
    PrefixResolves(dest, cfgPath, filepath, prefix);
    ResolveUnder(base, [], Split(r));
    assert base + [] == base;
    Placement(base, Height(0, Split(r)), Components(r));
  }

  lemma {:induction false} PlainHeight(depth: nat, p: seq<string>)
    requires ValidPath(p)
    ensures Height(depth, p) == 0
    decreases |p|
  {
    if p != [] {
      assert ValidName(p[0]);
      PlainHeight(depth + 1, p[1..]);
    }
  }

  lemma TextHeight(p: seq<string>)
    requires ValidPath(p)
    ensures Height(0, Split(PathText(p))) == 0
  {
    if p == [] {
      assert Split("/") == ["", ""] by { assert "/"[1..] == ""; }
      assert ["", ""][1..] == [""] && [""][1..] == [];
    } else {
      SplitSlashed(p);
      assert ([""] + p)[1..] == p;
      PlainHeight(0, p);
    }
  }

  /** Without options a file stays where it is, whatever the prefix. With options it keeps its
      own path if they name no destination, or if the configured text is no prefix of the
      file's: unmoved without a prefix, and below the prefix with one. */
  lemma StaysWithout(dest: string, cfgPath: string, file: seq<string>, prefix: string)
    requires ValidPath(file)
    ensures RealDstPath(None, cfgPath, PathText(file), prefix) == PathText(file)
    ensures dest == "" || !(cfgPath <= PathText(file)) ==>
              var placed := RealDstPath(Some(dest), cfgPath, PathText(file), prefix);
              && (prefix == "" ==> placed == PathText(file))
              && (prefix != "" ==> Components(placed) == Components(Join("/", prefix)) + file)
  {
    if prefix != "" {
      hide Split, Components, Resolve, Height, Join;
      ComponentsOfText(file);
      TextHeight(file);
      PrefixedDestination(dest, cfgPath, PathText(file), prefix);
    }
  }

  /** So a prefix confines nothing: a dispatched file whose destination climbs leaves it. */
  lemma PrefixEscaped(cfg: CfgPath)
    requires cfg.path == "/a"
    ensures KeysBelow(map[cfg.path := cfg]) && Nearest(map[cfg.path := cfg], "/a", Some(cfg))
    ensures PathText(["a", "f"]) == "/a/f" && RealDstPath(Some("/.."), cfg.path, "/a/f", "/p") == "/p/../f"
    ensures Components(Join("/", "/p")) == ["p"] && Components("/p/../f") == ["f"]
    ensures !(["p"] <= Components("/p/../f"))
  {
    hide Components, RealDstPath;
    OnlyKey(cfg, "/a");
    TwoNames("f");
    assert "/a/" + "f" == "/a/f";
    EscapeText();
    EscapeComponents();
  }

  lemma EscapeText()
    ensures RealDstPath(Some("/.."), "/a", "/a/f", "/p") == "/p/../f"
  {
    StripPlain("f");
    StripPlain("../f");
    assert "/f" == "/" + "f" && "/a/f"[2..] == "/f" && "/a" <= "/a/f";
    assert "/.." + "/" + "f" == "/" + "../f" && "/p" + "/" + "../f" == "/p/../f";
  }

  lemma EscapeComponents()
    ensures Components("/p") == ["p"] && Components("/p/../f") == ["f"]
  {
    hide Split, Components;
    assert "/" + "p" == "/p";
    ComponentsOfOne("p");
    SlashResolves("/p", "..");
    SplitStep("..", "");
    assert "/p" + ("/" + "..") == "/p/.." && [".."][1..] == [];
    SlashResolves("/p/..", "f");
    SplitStep("f", "");
    assert "/p/.." + ("/" + "f") == "/p/../f" && ["f"][1..] == [];
  }

  lemma ComponentsOfOne(name: string)
    requires ValidName(name)
    ensures Components("/" + name) == [name]
  {
    assert Slashed([name]) == "/" + name + "";
    assert "/" + name + "" == "/" + name;
    ComponentsOfText([name]);
  }
}
