/** LIKE with an escape character, and the escaping of search terms by three replacements. */
module SqlLike {

  /** The matcher of section 8.5 of ISO/IEC 9075:1992: `%` takes any run of characters, `_`
      any one, an escaped special stands for itself, anything else must be equal. A pattern
      whose escape character precedes no special character matches nothing. */
  ghost predicate LikeMatch(p: string, s: string, escape: char)
    decreases |p|
  {
    if p == "" then s == ""
    else if p[0] == escape then
      && 1 < |p| && p[1] in {escape, '%', '_'}
      && s != "" && s[0] == p[1] && LikeMatch(p[2..], s[1..], escape)
    else if p[0] == '%' then exists k :: 0 <= k <= |s| && LikeMatch(p[1..], s[k..], escape)
    else s != "" && (p[0] == '_' || s[0] == p[0]) && LikeMatch(p[1..], s[1..], escape)
  }

  /** str.replace for a one-character pattern. */
  function Replace(s: string, c: char, to: string): string {
    if s == "" then ""
    else (if s[0] == c then to else [s[0]]) + Replace(s[1..], c, to)
  }

  function Escaped(v: string): string {
    Replace(Replace(Replace(v, '!', "!!"), '%', "!%"), '_', "!_")
  }

  function LikePattern(v: string): string {
    "%" + Escaped(v) + "%"
  }

  /** Some occurrence of `v` in `s`, at any position. */
  ghost predicate Contains(s: string, v: string) {
    exists k :: 0 <= k <= |s| && v <= s[k..]
  }

  function EscapeChar(c: char): string {
    if c == '!' || c == '%' || c == '_' then ['!', c] else [c]
  }

  lemma {:induction false} ReplaceConcat(a: string, b: string, c: char, to: string)
    ensures Replace(a + b, c, to) == Replace(a, c, to) + Replace(b, c, to)
  {
    if a == "" {
      assert a + b == b;
    } else {
      assert (a + b)[1..] == a[1..] + b;
      ReplaceConcat(a[1..], b, c, to);
    }
  }

  lemma ReplaceOne(x: char, c: char, to: string)
    ensures Replace([x], c, to) == if x == c then to else [x]
  {
  }

  lemma ReplaceTwo(x: char, y: char, c: char, to: string)
    ensures Replace([x, y], c, to) == Replace([x], c, to) + Replace([y], c, to)
  {
    assert [x, y] == [x] + [y];
    ReplaceConcat([x], [y], c, to);
  }

  lemma EscapedOne(x: char)
    ensures Escaped([x]) == EscapeChar(x)
  {
    ReplaceOne(x, '!', "!!");
    ReplaceOne(x, '%', "!%");
    ReplaceOne(x, '_', "!_");
    ReplaceOne('!', '%', "!%");
    ReplaceOne('!', '_', "!_");
    ReplaceOne('%', '_', "!_");
    ReplaceTwo('!', '!', '%', "!%");
    ReplaceTwo('!', '!', '_', "!_");
    ReplaceTwo('!', '%', '_', "!_");
    assert "!!" == ['!', '!'] && "!%" == ['!', '%'] && "!_" == ['!', '_'];
    assert ['!'] + ['!'] == "!!" && ['!'] + ['%'] == "!%";
  }

  /** The three passes do not disturb each other: they escape character by character. */
  lemma EscapedStep(v: string)
    requires v != ""
    ensures Escaped(v) == EscapeChar(v[0]) + Escaped(v[1..])
  {
    var h, t := [v[0]], v[1..];
    assert v == h + t;
    ReplaceConcat(h, t, '!', "!!");
    var h1, t1 := Replace(h, '!', "!!"), Replace(t, '!', "!!");
    ReplaceConcat(h1, t1, '%', "!%");
    ReplaceConcat(Replace(h1, '%', "!%"), Replace(t1, '%', "!%"), '_', "!_");
    EscapedOne(v[0]);
  }

  /** One escaped character consumes exactly that character. */
  lemma EscapedCharMatches(c: char, tail: string, s: string)
    ensures LikeMatch(EscapeChar(c) + tail, s, '!') <==> s != "" && s[0] == c && LikeMatch(tail, s[1..], '!')
  {
    var p := EscapeChar(c) + tail;
    if c == '!' || c == '%' || c == '_' {
      assert p[0] == '!' && p[1] == c && p[2..] == tail;
    } else {
      assert p[0] == c && p[1..] == tail;
    }
  }

  lemma PrefixStep(v: string, s: string)
    requires v != ""
    ensures v <= s <==> s != "" && s[0] == v[0] && v[1..] <= s[1..]
    ensures v <= s ==> s[1..][|v[1..]|..] == s[|v|..]
  {
    if s != "" && s[0] == v[0] && v[1..] <= s[1..] {
      assert v == [v[0]] + v[1..] && s == [s[0]] + s[1..];
    }
  }

  /** An escaped term matches itself and only itself, up to what follows. */
  lemma {:induction false} EscapedMatches(v: string, rest: string, s: string)
    ensures LikeMatch(Escaped(v) + rest, s, '!') <==> v <= s && LikeMatch(rest, s[|v|..], '!')
    decreases |v|
  {
    hide LikeMatch;
    if v == "" {
      assert Escaped(v) == "" && s[0..] == s;
      assert Escaped(v) + rest == rest;
    } else {
      var tail := Escaped(v[1..]) + rest;
      EscapedStep(v);
      assert Escaped(v) + rest == EscapeChar(v[0]) + tail;
      EscapedCharMatches(v[0], tail, s);
      PrefixStep(v, s);
      if s != "" {
        EscapedMatches(v[1..], rest, s[1..]);
      }
    }
  }

  lemma PercentMatchesAll(s: string)
    ensures LikeMatch("%", s, '!')
  {
    assert "%"[1..] == "" && s[|s|..] == "";
    assert LikeMatch("%"[1..], s[|s|..], '!');
  }

  /** The pattern built for a search term matches exactly the texts that contain it. */
  lemma LikePatternCorrect(v: string, s: string)
    ensures LikeMatch(LikePattern(v), s, '!') <==> Contains(s, v)
  {
    var p := Escaped(v) + "%";
    assert LikePattern(v) == "%" + p && ("%" + p)[1..] == p;
    forall k | 0 <= k <= |s| ensures LikeMatch(p, s[k..], '!') <==> v <= s[k..] {
      EscapedMatches(v, "%", s[k..]);
      if v <= s[k..] { PercentMatchesAll(s[k..][|v|..]); }
    }
    if Contains(s, v) {
      var k :| 0 <= k <= |s| && v <= s[k..];
      assert LikeMatch(p, s[k..], '!');
    }
  }
}
