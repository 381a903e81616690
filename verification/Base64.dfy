/** Base64 (section 4 of RFC 4648): the encoder, the lenient decoder of the Python standard
    library, which skips foreign characters and stops at the first complete padding, and the
    unpadded URL-safe form (section 5) used for session tokens. */
module Base64 {
  import opened Outcomes

  type byte = x: int | 0 <= x < 256
  type sextet = x: int | 0 <= x < 64

  function Symbol(i: sextet): char {
    if i < 26 then ('A' as int + i) as char
    else if i < 52 then ('a' as int + (i - 26)) as char
    else if i < 62 then ('0' as int + (i - 52)) as char
    else if i == 62 then '+' else '/'
  }

  function SymbolValue(c: char): Option<sextet> {
    if 'A' <= c <= 'Z' then Some(c as int - 'A' as int)
    else if 'a' <= c <= 'z' then Some(c as int - 'a' as int + 26)
    else if '0' <= c <= '9' then Some(c as int - '0' as int + 52)
    else if c == '+' then Some(62)
    else if c == '/' then Some(63)
    else None
  }

  /** Three bytes as four characters. */
  function Group(a: byte, b: byte, c: byte): string {
    [Symbol(a / 4), Symbol(a % 4 * 16 + b / 16), Symbol(b % 16 * 4 + c / 64), Symbol(c % 64)]
  }

  /** The data characters of an encoding, without its padding. */
  function Body(b: seq<byte>): string {
    if |b| == 0 then ""
    else if |b| == 1 then [Symbol(b[0] / 4), Symbol(b[0] % 4 * 16)]
    else if |b| == 2 then [Symbol(b[0] / 4), Symbol(b[0] % 4 * 16 + b[1] / 16), Symbol(b[1] % 16 * 4)]
    else Group(b[0], b[1], b[2]) + Body(b[3..])
  }

  function Padding(n: nat): string {
    if n % 3 == 0 then "" else if n % 3 == 1 then "==" else "="
  }

  function Encode(b: seq<byte>): string {
    Body(b) + Padding(|b|)
  }

  function Push(x: byte, rest: Option<seq<byte>>): Option<seq<byte>> {
    match rest
    case None => None
    case Some(b) => Some([x] + b)
  }

  /** The bits carried over at each position within a group of four. */
  predicate Carried(quad: nat, left: int) {
    && quad < 4 && (quad == 0 ==> left == 0) && (quad == 1 ==> 0 <= left < 64)
    && (quad == 2 ==> 0 <= left < 16) && (quad == 3 ==> 0 <= left < 4)
  }

  /** The decoder's scan: `quad` is the position within the current group of four, `left`
      the bits carried over, `pads` the padding seen since the last data character. */
  function Scan(s: string, quad: nat, left: int, pads: nat): Option<seq<byte>>
    requires Carried(quad, left)
  {
    if s == "" then (if quad == 0 then Some([]) else None)
    else if s[0] == '=' then
      if 2 <= quad then (if 4 <= quad + pads + 1 then Some([]) else Scan(s[1..], quad, left, pads + 1))
      else Scan(s[1..], quad, left, pads)
    else match SymbolValue(s[0])
      case None => Scan(s[1..], quad, left, pads)
      case Some(v) =>
        if quad == 0 then Scan(s[1..], 1, v, 0)
        else if quad == 1 then Push(left * 4 + v / 16, Scan(s[1..], 2, v % 16, 0))
        else if quad == 2 then Push(left * 16 + v / 4, Scan(s[1..], 3, v % 4, 0))
        else Push(left * 64 + v, Scan(s[1..], 0, 0, 0))
  }

  /** base64.b64decode: None stands for binascii.Error. */
  function Decode(s: string): Option<seq<byte>> {
    Scan(s, 0, 0, 0)
  }

  /** A character the decoder skips. */
  predicate Foreign(x: char) {
    x != '=' && SymbolValue(x) == None
  }

  /** Two texts the scan cannot tell apart, wherever it has got to. */
  ghost predicate ScanAlike(s: string, t: string) {
    forall quad: nat, left: int, pads: nat ::
      Carried(quad, left) ==> Scan(s, quad, left, pads) == Scan(t, quad, left, pads)
  }

  lemma AlikeBehind(c: char, s: string, t: string)
    requires ScanAlike(s, t)
    ensures ScanAlike([c] + s, [c] + t)
  {
    forall quad: nat, left: int, pads: nat | Carried(quad, left)
      ensures Scan([c] + s, quad, left, pads) == Scan([c] + t, quad, left, pads)
    {
      AlikeStep(c, s, t, quad, left, pads);
    }
  }

  lemma AlikeStep(c: char, s: string, t: string, quad: nat, left: int, pads: nat)
    requires ScanAlike(s, t) && Carried(quad, left)
    ensures Scan([c] + s, quad, left, pads) == Scan([c] + t, quad, left, pads)
  {
    hide SymbolValue;
    assert ([c] + s)[1..] == s && ([c] + t)[1..] == t;
    assert Scan(s, quad, left, pads) == Scan(t, quad, left, pads);
    assert Scan(s, quad, left, pads + 1) == Scan(t, quad, left, pads + 1);
    if SymbolValue(c).Some? {
      var v := SymbolValue(c).value;
      assert Carried(1, v) && Carried(2, v % 16) && Carried(3, v % 4) && Carried(0, 0);
      if quad == 0 {
        assert Scan(s, 1, v, 0) == Scan(t, 1, v, 0);
      } else if quad == 1 {
        assert Scan(s, 2, v % 16, 0) == Scan(t, 2, v % 16, 0);
      } else if quad == 2 {
        assert Scan(s, 3, v % 4, 0) == Scan(t, 3, v % 4, 0);
      } else {
        assert Scan(s, 0, 0, 0) == Scan(t, 0, 0, 0);
      }
    }
  }

  lemma {:induction false} ScanSkips(a: string, x: char, b: string)
    requires Foreign(x)
    ensures ScanAlike(a + [x] + b, a + b)
    decreases |a|
  {
    if a == "" {
      assert ([x] + b)[1..] == b && a + [x] + b == [x] + b && a + b == b;
    } else {
      hide ScanAlike;
      ScanSkips(a[1..], x, b);
      AlikeBehind(a[0], a[1..] + [x] + b, a[1..] + b);
      assert [a[0]] + (a[1..] + [x] + b) == a + [x] + b && [a[0]] + (a[1..] + b) == a + b;
    }
  }

  lemma SymbolRoundTrip(i: sextet)
    ensures SymbolValue(Symbol(i)) == Some(i)
    ensures Symbol(i) != '='
  {
  }

  lemma ScanSymbol(i: sextet, rest: string, quad: nat, left: int, pads: nat)
    requires Carried(quad, left)
    ensures Scan([Symbol(i)] + rest, quad, left, pads) ==
            if quad == 0 then Scan(rest, 1, i, 0)
            else if quad == 1 then Push(left * 4 + i / 16, Scan(rest, 2, i % 16, 0))
            else if quad == 2 then Push(left * 16 + i / 4, Scan(rest, 3, i % 4, 0))
            else Push(left * 64 + i, Scan(rest, 0, 0, 0))
  {
    SymbolRoundTrip(i);
    assert ([Symbol(i)] + rest)[1..] == rest;
  }

  lemma ScanPair(a: byte, high: int, rest: string)
    requires 0 <= high < 16
    ensures Scan([Symbol(a / 4), Symbol(a % 4 * 16 + high)] + rest, 0, 0, 0) == Push(a, Scan(rest, 2, high, 0))
  {
    var i: sextet, j: sextet := a / 4, a % 4 * 16 + high;
    assert j / 16 == a % 4 && j % 16 == high;
    assert i * 4 + j / 16 == a;
    assert [Symbol(i), Symbol(j)] + rest == [Symbol(i)] + ([Symbol(j)] + rest);
    ScanSymbol(i, [Symbol(j)] + rest, 0, 0, 0);
    ScanSymbol(j, rest, 1, i, 0);
  }

  lemma ScanTriple(a: byte, b: byte, high: int, rest: string)
    requires 0 <= high < 4
    ensures Scan([Symbol(a / 4), Symbol(a % 4 * 16 + b / 16), Symbol(b % 16 * 4 + high)] + rest, 0, 0, 0)
            == Push(a, Push(b, Scan(rest, 3, high, 0)))
  {
    var k: sextet := b % 16 * 4 + high;
    assert k / 4 == b % 16 && k % 4 == high;
    assert b / 16 * 16 + k / 4 == b;
    var two := [Symbol(a / 4), Symbol(a % 4 * 16 + b / 16)];
    assert [Symbol(a / 4), Symbol(a % 4 * 16 + b / 16), Symbol(k)] + rest == two + ([Symbol(k)] + rest);
    ScanPair(a, b / 16, [Symbol(k)] + rest);
    ScanSymbol(k, rest, 2, b / 16, 0);
  }

  lemma ScanGroup(a: byte, b: byte, c: byte, rest: string)
    ensures Scan(Group(a, b, c) + rest, 0, 0, 0) == Push(a, Push(b, Push(c, Scan(rest, 0, 0, 0))))
  {
    var k: sextet := c % 64;
    assert c / 64 * 64 + k == c;
    var three := [Symbol(a / 4), Symbol(a % 4 * 16 + b / 16), Symbol(b % 16 * 4 + c / 64)];
    assert Group(a, b, c) + rest == three + ([Symbol(k)] + rest);
    ScanTriple(a, b, c / 64, [Symbol(k)] + rest);
    ScanSymbol(k, rest, 3, c / 64, 0);
  }

  lemma ScanPadding()
    ensures Scan("==", 2, 0, 0) == Some([]) && Scan("=", 3, 0, 0) == Some([])
  {
    assert "=="[1..] == "=";
  }

  lemma DecodeOne(a: byte)
    ensures Decode(Encode([a])) == Some([a])
  {
    ScanPadding();
    ScanPair(a, 0, "==");
    assert [a] == [a] + [];
  }

  lemma DecodeTwo(a: byte, b: byte)
    ensures Decode(Encode([a, b])) == Some([a, b])
  {
    ScanPadding();
    ScanTriple(a, b, 0, "=");
    assert [a, b] == [a] + ([b] + []);
  }

  lemma BodyGroup(a: byte, b: byte, c: byte, rest: seq<byte>)
    ensures Body([a, b, c] + rest) == Group(a, b, c) + Body(rest)
  {
    hide Group, Symbol;
    assert ([a, b, c] + rest)[3..] == rest;
  }

  lemma EncodeGroup(a: byte, b: byte, c: byte, rest: seq<byte>)
    ensures Encode([a, b, c] + rest) == Group(a, b, c) + Encode(rest)
  {
    hide Body, Group, Symbol;
    BodyGroup(a, b, c, rest);
    assert Padding(3 + |rest|) == Padding(|rest|);
    assert Group(a, b, c) + Body(rest) + Padding(|rest|) == Group(a, b, c) + (Body(rest) + Padding(|rest|));
  }

  /** Decoding undoes encoding. */
  lemma {:induction false} DecodeEncode(b: seq<byte>)
    ensures Decode(Encode(b)) == Some(b)
  {
    if |b| == 0 {
    } else if |b| == 1 {
      assert b == [b[0]];
      DecodeOne(b[0]);
    } else if |b| == 2 {
      assert b == [b[0], b[1]];
      DecodeTwo(b[0], b[1]);
    } else {
      DecodeEncode(b[3..]);
      assert b == [b[0], b[1], b[2]] + b[3..];
      DecodeMore(b[0], b[1], b[2], b[3..]);
    }
  }

  lemma DecodeMore(a: byte, b: byte, c: byte, rest: seq<byte>)
    requires Decode(Encode(rest)) == Some(rest)
    ensures Decode(Encode([a, b, c] + rest)) == Some([a, b, c] + rest)
  {
    EncodeGroup(a, b, c, rest);
    ScanGroup(a, b, c, Encode(rest));
    assert [a, b, c] + rest == [a] + ([b] + ([c] + rest));
  }

  predicate IsSymbol(c: char) {
    SymbolValue(c).Some?
  }

  lemma GroupShape(a: byte, b: byte, c: byte)
    ensures |Group(a, b, c)| == 4 && forall x :: x in Group(a, b, c) ==> IsSymbol(x)
  {
    SymbolRoundTrip(a / 4);
    SymbolRoundTrip(a % 4 * 16 + b / 16);
    SymbolRoundTrip(b % 16 * 4 + c / 64);
    SymbolRoundTrip(c % 64);
  }

  lemma ShortShape(b: seq<byte>)
    requires |b| < 3
    ensures |Body(b)| == (4 * |b| + 2) / 3
    ensures forall c :: c in Body(b) ==> IsSymbol(c)
  {
    if |b| == 1 {
      GroupShape(b[0], 0, 0);
      assert forall c :: c in Body(b) ==> c in Group(b[0], 0, 0);
    } else if |b| == 2 {
      GroupShape(b[0], b[1], 0);
      assert forall c :: c in Body(b) ==> c in Group(b[0], b[1], 0);
    }
  }

  // ---- the code itself

  /** Table 1 of RFC 4648: letters in their two cases, then digits, then the two signs. */
  lemma Alphabet(i: sextet)
    ensures Symbol(0) == 'A' && Symbol(26) == 'a' && Symbol(52) == '0' && Symbol(62) == '+' && Symbol(63) == '/'
    ensures i < 61 && i != 25 && i != 51 ==> Symbol(i + 1) as int == Symbol(i) as int + 1
    ensures forall c :: SymbolValue(c) == Some(i) <==> c == Symbol(i)
  {
  }

  /** Three bytes and their four characters are one number, in base 256 and in base 64, */
  lemma GroupDigits(a: byte, b: byte, c: byte) returns (i: sextet, j: sextet, k: sextet, l: sextet)
    ensures Group(a, b, c) == [Symbol(i), Symbol(j), Symbol(k), Symbol(l)]
    ensures ((i * 64 + j) * 64 + k) * 64 + l == (a * 256 + b) * 256 + c
  {
    i, j, k, l := a / 4, a % 4 * 16 + b / 16, b % 16 * 4 + c / 64, c % 64;
  }

  /** and a last two bytes, or a last one, are filled up with zero bits, and the text with
      padding. */
  lemma TailDigits(a: byte, b: byte) returns (i: sextet, j: sextet, k: sextet, l: sextet)
    ensures Encode([a, b]) == [Symbol(i), Symbol(j), Symbol(k), '='] && (i * 64 + j) * 64 + k == (a * 256 + b) * 4
    ensures Encode([a]) == [Symbol(i), Symbol(l), '=', '='] && i * 64 + l == a * 16
  {
    hide Symbol;
    i, j, k, l := a / 4, a % 4 * 16 + b / 16, b % 16 * 4, a % 4 * 16;
    assert Encode([a, b]) == [Symbol(i), Symbol(j), Symbol(k)] + "=";
    assert Encode([a]) == [Symbol(i), Symbol(l)] + "==";
  }

  function Equals(n: nat): string {
    seq(n, _ => '=')
  }

  lemma {:induction false} ScanEquals(p: nat, quad: nat, left: int, pads: nat)
    requires Carried(quad, left) && (2 <= quad ==> quad + pads < 4)
    ensures Scan(Equals(p), quad, left, pads).Some? <==> quad == 0 || (2 <= quad && 4 <= quad + pads + p)
    decreases p
  {
    if 0 < p {
      assert Equals(p)[1..] == Equals(p - 1);
      if quad < 2 {
        ScanEquals(p - 1, quad, left, pads);
      } else if quad + pads + 1 < 4 {
        ScanEquals(p - 1, quad, left, pads + 1);
      }
    }
  }

  lemma {:induction false} ScanLengths(s: string, p: nat, quad: nat, left: int)
    requires Carried(quad, left) && forall i :: 0 <= i < |s| ==> IsSymbol(s[i])
    ensures var k := (quad + |s|) % 4;
            Scan(s + Equals(p), quad, left, 0).Some? <==> k == 0 || (2 <= k && 4 <= k + p)
    decreases |s|
  {
    hide SymbolValue, Equals, Scan;
    if s == "" {
      assert s + Equals(p) == Equals(p);
      ScanEquals(p, quad, left, 0);
    } else {
      var c, rest := s[0], s[1..] + Equals(p);
      assert IsSymbol(c) && s + Equals(p) == [c] + rest;
      var next := SymbolNext(c, rest, quad, left);
      ScanLengths(s[1..], p, (quad + 1) % 4, next);
    }
  }

  /** A character of the alphabet moves the scan on by one place. */
  lemma SymbolNext(c: char, rest: string, quad: nat, left: int) returns (next: int)
    requires Carried(quad, left) && IsSymbol(c)
    ensures Carried((quad + 1) % 4, next)
    ensures Scan([c] + rest, quad, left, 0).Some? <==> Scan(rest, (quad + 1) % 4, next, 0).Some?
  {
    hide SymbolValue;
    NoSymbol();
    assert ([c] + rest)[1..] == rest;
    var v := SymbolValue(c).value;
    next := if quad == 0 then v else if quad == 1 then v % 16 else if quad == 2 then v % 4 else 0;
  }

  lemma NoSymbol()
    ensures !IsSymbol('=')
  {
  }

  /** Of text in the alphabet with `p` padding characters behind it, the decoder accepts just
      what ends on a whole byte: no character left over from the groups of four, or two or
      three and enough padding. */
  lemma DecodeLengths(s: string, p: nat)
    requires forall i :: 0 <= i < |s| ==> IsSymbol(s[i])
    ensures var k := |s| % 4;
            Decode(s + Equals(p)).Some? <==> k == 0 || (2 <= k && 4 <= k + p)
  {
    hide Scan, Equals;
    ScanLengths(s, p, 0, 0);
  }

  lemma {:induction false} BodyShape(b: seq<byte>)
    ensures |Body(b)| == (4 * |b| + 2) / 3
    ensures forall c :: c in Body(b) ==> IsSymbol(c)
  {
    hide IsSymbol, Group, Symbol;
    if |b| < 3 {
      ShortShape(b);
    } else {
      GroupShape(b[0], b[1], b[2]);
      BodyShape(b[3..]);
    }
  }

  // ---- session tokens

  function UrlChar(c: char): char {
    if c == '+' then '-' else if c == '/' then '_' else c
  }

  function UrlSafe(s: string): string {
    seq(|s|, i requires 0 <= i < |s| => UrlChar(s[i]))
  }

  function StripPadding(s: string): string {
    if s != "" && s[|s| - 1] == '=' then StripPadding(s[..|s| - 1]) else s
  }

  function Token(b: seq<byte>): string {
    StripPadding(UrlSafe(Encode(b)))
  }

  predicate TokenChar(c: char) {
    'A' <= c <= 'Z' || 'a' <= c <= 'z' || '0' <= c <= '9' || c == '_' || c == '-'
  }

  predicate TokenPattern(t: string) {
    |t| == 43 && forall c :: c in t ==> TokenChar(c)
  }

  lemma {:induction false} StripsPadding(s: string, n: nat)
    requires n <= 2
    requires s == "" || s[|s| - 1] != '='
    ensures StripPadding(s + "=="[..n]) == s
  {
    if n == 0 {
      assert s + "=="[..0] == s;
    } else {
      var padded := s + "=="[..n];
      assert padded[|padded| - 1] == '=';
      assert padded[..|padded| - 1] == s + "=="[..n - 1];
      StripsPadding(s, n - 1);
    }
  }

  lemma TokenIsUrlSafeBody(b: seq<byte>)
    ensures Token(b) == UrlSafe(Body(b))
    ensures forall c :: c in Token(b) ==> TokenChar(c)
  {
    var body := UrlSafe(Body(b));
    BodyShape(b);
    forall i | 0 <= i < |body| ensures TokenChar(body[i]) {
      assert IsSymbol(Body(b)[i]);
    }
    var n := |Padding(|b|)|;
    assert UrlSafe(Encode(b)) == body + "=="[..n];
    StripsPadding(body, n);
  }

  /** The token pattern admits just the 43-character texts in the URL-safe alphabet of section
      5 of RFC 4648, which has '-' for '+' and '_' for '/'. */
  lemma TokenPatternExact(t: string)
    ensures TokenPattern(t) <==>
              |t| == 43 && forall i :: 0 <= i < |t| ==> t[i] == '-' || t[i] == '_'
                                                        || (IsSymbol(t[i]) && t[i] != '+' && t[i] != '/')
  {
    forall c ensures TokenChar(c) <==> c == '-' || c == '_' || (IsSymbol(c) && c != '+' && c != '/') {
    }
    assert forall i :: 0 <= i < |t| ==> t[i] in t;
  }

  /** A token is the encoding in that alphabet, without its padding. */
  lemma TokenAlphabet(b: seq<byte>)
    ensures |Token(b)| == |Body(b)| && Encode(b) == Body(b) + Encode(b)[|Body(b)|..]
    ensures forall c :: c in Encode(b)[|Body(b)|..] ==> c == '='
    ensures forall i :: 0 <= i < |Token(b)| ==>
                          var c := Body(b)[i];
                          Token(b)[i] == if c == '+' then '-' else if c == '/' then '_' else c
  {
    hide Body;
    TokenIsUrlSafeBody(b);
    assert Encode(b)[|Body(b)|..] == Padding(|b|);
  }

  /** Every generated token passes the pattern that guards the other operations. */
  lemma GeneratedTokenMatches(b: seq<byte>)
    requires |b| == 32
    ensures TokenPattern(Token(b))
  {
    BodyShape(b);
    TokenIsUrlSafeBody(b);
  }

  /** And no two draws of the same length share a token. */
  lemma TokenInjective(a: seq<byte>, b: seq<byte>)
    requires |a| == |b| && Token(a) == Token(b)
    ensures a == b
  {
    TokenIsUrlSafeBody(a);
    TokenIsUrlSafeBody(b);
    BodyShape(a);
    BodyShape(b);
    forall i | 0 <= i < |Body(a)| ensures Body(a)[i] == Body(b)[i] {
      assert IsSymbol(Body(a)[i]) && IsSymbol(Body(b)[i]);
      assert UrlSafe(Body(a))[i] == UrlSafe(Body(b))[i];
    }
    assert Encode(a) == Encode(b);
    DecodeEncode(a);
    DecodeEncode(b);
  }
}
