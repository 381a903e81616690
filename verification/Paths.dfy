/** Absolute POSIX paths: as text, and as the list of their components. */
module Paths {

  /** A component of a normalised path. */
  predicate ValidName(c: string) {
    c != "" && c != "." && c != ".." && SlashFree(c)
  }

  predicate SlashFree(s: string) {
    forall i :: 0 <= i < |s| ==> s[i] != '/'
  }

  predicate ValidPath(p: seq<string>) {
    forall i :: 0 <= i < |p| ==> ValidName(p[i])
  }

  function Slashed(p: seq<string>): string {
    if p == [] then "" else "/" + p[0] + Slashed(p[1..])
  }

  function PathText(p: seq<string>): string {
    if p == [] then "/" else Slashed(p)
  }

  // ---- normalisation: os.path.abspath of an absolute path

  /** The text up to the next slash. */
  function Head(s: string): (h: string)
    ensures SlashFree(h) && |h| <= |s| && s[..|h|] == h
    ensures |h| < |s| ==> s[|h|] == '/'
  {
    if s == "" || s[0] == '/' then "" else [s[0]] + Head(s[1..])
  }

  /** str.split('/') */
  function Split(s: string): (parts: seq<string>)
    ensures parts != [] && forall i :: 0 <= i < |parts| ==> SlashFree(parts[i])
    decreases |s|
  {
    var h := Head(s);
    if |h| == |s| then [h] else [h] + Split(s[|h| + 1..])
  }

  /** One step of normpath on an absolute path: `..` at the root is dropped. */
  function Enter(at: seq<string>, part: string): seq<string> {
    if part == "" || part == "." then at
    else if part == ".." then (if at == [] then [] else at[..|at| - 1])
    else at + [part]
  }

  function Resolve(at: seq<string>, parts: seq<string>): seq<string>
    decreases |parts|
  {
    if parts == [] then at else Resolve(Enter(at, parts[0]), parts[1..])
  }

  function Components(s: string): seq<string> {
    Resolve([], Split(s))
  }

  function AbsPath(s: string): string {
    PathText(Components(s))
  }

  lemma {:induction false} ResolveValid(at: seq<string>, parts: seq<string>)
    requires ValidPath(at) && forall i :: 0 <= i < |parts| ==> SlashFree(parts[i])
    ensures ValidPath(Resolve(at, parts))
    decreases |parts|
  {
    if parts != [] { ResolveValid(Enter(at, parts[0]), parts[1..]); }
  }

  lemma ComponentsValid(s: string)
    ensures ValidPath(Components(s))
  {
    ResolveValid([], Split(s));
  }

  // ---- text prefixes and component prefixes

  /** str.rstrip('/') */
  function StripSlashes(s: string): string {
    if s != "" && s[|s| - 1] == '/' then StripSlashes(s[..|s| - 1]) else s
  }

  /** The test both the lookup and the removal make, on normalised texts. */
  predicate TextUnder(root: string, path: string) {
    path == root || StripSlashes(root) + "/" <= path
  }

  lemma InHead(a: string, x: string)
    requires SlashFree(a)
    ensures forall i :: 0 <= i < |a| ==> (a + x)[i] != '/'
  {
  }

  lemma AfterHead(b: string, y: string)
    requires y != "" && y[0] == '/'
    ensures (b + y)[|b|] == '/'
  {
  }

  /** Up to the first slash, a prefix must agree in full. */
  lemma HeadPrefix(a: string, x: string, b: string, y: string)
    requires SlashFree(a) && SlashFree(b)
    requires x != "" && x[0] == '/' && (y == "" || y[0] == '/')
    ensures a + x <= b + y <==> a == b && x <= y
  {
    if a + x <= b + y {
      InHead(a, x);
      InHead(b, y);
      AfterHead(a, x);
      if y != "" { AfterHead(b, y); }
      assert |a| == |b|;
      assert a == (a + x)[..|a|] == (b + y)[..|a|] == b;
      assert x == (a + x)[|a|..] && y == (b + y)[|a|..];
    }
  }

  lemma ConsPrefix<T>(c: T, u: seq<T>, v: seq<T>)
    ensures [c] + u <= [c] + v <==> u <= v
    ensures [c] + u < [c] + v <==> u < v
  {
    assert ([c] + u)[1..] == u && ([c] + v)[1..] == v;
  }

  lemma SlashedShape(p: seq<string>)
    ensures Slashed(p) == "" || Slashed(p)[0] == '/'
    ensures p != [] ==> Slashed(p) == ['/'] + (p[0] + Slashed(p[1..]))
  {
  }

  lemma {:induction false} SlashedPrefix(r: seq<string>, p: seq<string>)
    requires ValidPath(r) && ValidPath(p)
    ensures Slashed(r) + "/" <= Slashed(p) <==> r < p
    decreases |r|
  {
    SlashedShape(p);
    if r == [] {
      assert Slashed(r) + "/" == "/";
    } else if p == [] {
      SlashedShape(r);
    } else {
      hide Slashed, ValidName;
      var r', p' := r[1..], p[1..];
      var x, y := Slashed(r') + "/", Slashed(p');
      SlashedShape(r);
      SlashedShape(r');
      SlashedShape(p');
      assert Slashed(r) + "/" == ['/'] + (r[0] + x);
      ConsPrefix('/', r[0] + x, p[0] + y);
      NameSlashFree(r[0]);
      NameSlashFree(p[0]);
      HeadPrefix(r[0], x, p[0], y);
      SlashedPrefix(r', p');
      assert r == [r[0]] + r' && p == [p[0]] + p';
      if r[0] == p[0] { ConsPrefix(r[0], r', p'); }
    }
  }

  lemma NameSlashFree(c: string)
    requires ValidName(c)
    ensures SlashFree(c)
  {
  }

  lemma {:induction false} SlashedEnd(p: seq<string>)
    requires ValidPath(p) && p != []
    ensures Slashed(p) != "" && Slashed(p)[|Slashed(p)| - 1] != '/'
    decreases |p|
  {
    assert ValidName(p[0]);
    if |p| == 1 {
      assert Slashed(p) == "/" + p[0];
    } else {
      SlashedEnd(p[1..]);
    }
  }

  /** Stripped of its trailing slashes and given one back, a root is a text prefix of exactly
      the paths whose component list extends its own. */
  lemma UnderExact(r: seq<string>, p: seq<string>)
    requires ValidPath(r) && ValidPath(p)
    ensures TextUnder(PathText(r), PathText(p)) <==> r <= p
  {
    SlashedPrefix(r, p);
    if PathText(p) == PathText(r) {
      TextInjective(r, p);
    }
    if r == [] {
      assert StripSlashes("/") == "" by { assert "/"[..0] == ""; }
      assert "" + "/" == "/";
      assert p != [] ==> r < p;
    } else {
      SlashedEnd(r);
      assert StripSlashes(PathText(r)) == Slashed(r);
      assert PathText(p) == "/" ==> !(Slashed(r) + "/" <= "/");
      assert r <= p <==> r == p || r < p;
    }
  }

  lemma SlashedInjective(r: seq<string>, p: seq<string>)
    requires ValidPath(r) && ValidPath(p) && Slashed(r) == Slashed(p) && r != [] && p != []
    ensures r == p
  {
    // r with any further component extends p, so p is a prefix of r; and conversely
    var longer := r + ["x"];
    assert ValidPath(longer) by { assert ValidName("x"); }
    SlashedSnoc(r, "x");
    SlashedPrefix(p, longer);
    assert Slashed(p) + "/" <= Slashed(longer);
    var longer' := p + ["x"];
    assert ValidPath(longer') by { assert ValidName("x"); }
    SlashedSnoc(p, "x");
    SlashedPrefix(r, longer');
    assert Slashed(r) + "/" <= Slashed(longer');
    assert p <= r && r <= p;
  }

  lemma {:induction false} SlashedSnoc(p: seq<string>, c: string)
    ensures Slashed(p + [c]) == Slashed(p) + "/" + c
    decreases |p|
  {
    if p == [] {
      assert p + [c] == [c];
    } else {
      assert (p + [c])[1..] == p[1..] + [c];
      SlashedSnoc(p[1..], c);
    }
  }

  lemma TextInjective(r: seq<string>, p: seq<string>)
    requires ValidPath(r) && ValidPath(p) && PathText(r) == PathText(p)
    ensures r == p
  {
    if r != [] && p != [] {
      SlashedInjective(r, p);
    } else if r != [] {
      SlashedEnd(r);
    } else if p != [] {
      SlashedEnd(p);
    }
  }

  lemma {:induction false} SlashedLonger(r: seq<string>, p: seq<string>)
    requires ValidPath(p) && r <= p
    ensures |Slashed(r)| + 2 * (|p| - |r|) <= |Slashed(p)|
    decreases |p|
  {
    if p != [] {
      assert ValidName(p[0]);
      SlashedLonger(if r == [] then [] else r[1..], p[1..]);
    }
  }

  /** Of two ancestors of one path, the longer text is the deeper one. */
  lemma DeeperIsLonger(r: seq<string>, s: seq<string>, p: seq<string>)
    requires ValidPath(p) && r <= p && s <= p
    ensures |PathText(r)| <= |PathText(s)| <==> |r| <= |s|
  {
    assert ValidPath(r) && ValidPath(s);
    if |r| < |s| {
      assert r <= s;
      SlashedLonger(r, s);
    } else {
      assert s <= r;
      SlashedLonger(s, r);
      if |r| == |s| { assert r == s; }
    }
  }

  // ---- joining

  /** os.path.join of a directory and a relative name. */
  function JoinPath(root: string, name: string): string {
    if root == "" || root[|root| - 1] == '/' then root + name else root + "/" + name
  }

  lemma {:induction false} HeadOf(a: string, rest: string)
    requires SlashFree(a) && (rest == "" || rest[0] == '/')
    ensures Head(a + rest) == a
  {
    if a == "" {
      assert a + rest == rest;
    } else {
      assert (a + rest)[1..] == a[1..] + rest;
      HeadOf(a[1..], rest);
    }
  }

  lemma SplitStep(h: string, rest: string)
    requires SlashFree(h)
    ensures Split(h + ("/" + rest)) == [h] + Split(rest)
    ensures Split(h) == [h]
  {
    HeadOf(h, "/" + rest);
    assert (h + ("/" + rest))[|h| + 1..] == rest;
    HeadOf(h, "");
    assert h + "" == h;
  }

  lemma SplitParts(s: string)
    ensures var h := Head(s); |h| < |s| ==> s == h + ("/" + s[|h| + 1..])
    ensures |Head(s)| == |s| ==> s == Head(s)
  {
    hide Head;
    var h := Head(s);
    assert s == s[..|h|] + s[|h|..];
    if |h| < |s| {
      assert s[|h|..] == "/" + s[|h| + 1..];
    } else {
      assert s[|h|..] == "";
    }
  }

  lemma {:induction false} SplitConcat(s: string, t: string)
    ensures Split(s + ("/" + t)) == Split(s) + Split(t)
    decreases |s|
  {
    hide Split;
    var h := Head(s);
    SplitParts(s);
    if |h| == |s| {
      SplitStep(s, t);
    } else {
      var u := s[|h| + 1..];
      SplitConcat(u, t);
      SplitStep(h, u);
      SplitStep(h, u + ("/" + t));
      assert s + ("/" + t) == h + ("/" + (u + ("/" + t)));
    }
  }

  lemma SplitSnoc(s: string, name: string)
    requires SlashFree(name)
    ensures Split(s + ("/" + name)) == Split(s) + [name]
  {
    hide Split;
    SplitConcat(s, name);
    SplitStep(name, "");
  }

  lemma {:induction false} ResolveSnoc(at: seq<string>, parts: seq<string>, part: string)
    ensures Resolve(at, parts + [part]) == Enter(Resolve(at, parts), part)
    decreases |parts|
  {
    if parts == [] {
      assert parts + [part] == [part];
    } else {
      assert (parts + [part])[1..] == parts[1..] + [part];
      ResolveSnoc(Enter(at, parts[0]), parts[1..], part);
    }
  }

  lemma {:induction false} ResolveConcat(at: seq<string>, a: seq<string>, b: seq<string>)
    ensures Resolve(at, a + b) == Resolve(Resolve(at, a), b)
    decreases |a|
  {
    if a == [] {
      assert a + b == b;
    } else {
      assert (a + b)[1..] == a[1..] + b;
      ResolveConcat(Enter(at, a[0]), a[1..], b);
    }
  }

  lemma SlashResolves(root: string, text: string)
    ensures Components(root + ("/" + text)) == Resolve(Components(root), Split(text))
  {
    hide Split, Resolve;
    SplitConcat(root, text);
    ResolveConcat([], Split(root), Split(text));
  }

  lemma SlashAtEnd(root: string)
    ensures Components(root + "/") == Components(root)
  {
    hide Split;
    SplitStep("", "");
    SlashResolves(root, "");
    assert "/" + "" == "/";
    assert [""][1..] == [];
  }

  lemma NoRoot()
    ensures Components("") == []
  {
    SplitStep("", "");
    assert [""][1..] == [];
  }

  /** Joining a text goes on from where the root leads. */
  lemma JoinResolves(root: string, text: string)
    ensures Components(JoinPath(root, text)) == Resolve(Components(root), Split(text))
  {
    if root == "" {
      NoRoot();
      assert root + text == text;
    } else {
      hide Components, Split, Resolve;
      if root[|root| - 1] == '/' {
        var u := root[..|root| - 1];
        assert root == u + "/" && root + text == u + ("/" + text);
        SlashAtEnd(u);
        SlashResolves(u, text);
      } else {
        assert JoinPath(root, text) == root + ("/" + text);
        SlashResolves(root, text);
      }
    }
  }

  /** Joining a name adds one component. */
  lemma JoinComponents(root: string, name: string)
    requires ValidName(name)
    ensures Components(JoinPath(root, name)) == Components(root) + [name]
  {
    hide Components;
    SplitStep(name, "");
    JoinResolves(root, name);
  }

  lemma {:induction false} SplitSlashed(p: seq<string>)
    requires ValidPath(p) && p != []
    ensures Split(Slashed(p)) == [""] + p
    decreases |p|
  {
    hide Split, ValidName;
    var front, last := p[..|p| - 1], p[|p| - 1];
    assert p == front + [last];
    NameSlashFree(last);
    SlashedSnoc(front, last);
    assert Slashed(p) == Slashed(front) + ("/" + last);
    SplitSnoc(Slashed(front), last);
    if front == [] {
      SplitStep("", "");
    } else {
      SplitSlashed(front);
    }
  }

  lemma {:induction false} ResolvePlain(at: seq<string>, p: seq<string>)
    requires ValidPath(p)
    ensures Resolve(at, p) == at + p
    decreases |p|
  {
    if p != [] {
      assert ValidName(p[0]);
      ResolvePlain(at + [p[0]], p[1..]);
    }
  }

  lemma ComponentsOfText(p: seq<string>)
    requires ValidPath(p)
    ensures Components(PathText(p)) == p
  {
    if p == [] {
      assert Split("/") == ["", ""] by { assert "/"[1..] == ""; }
    } else {
      SplitSlashed(p);
      assert ([""] + p)[1..] == p;
      ResolvePlain([], p);
    }
  }
}
