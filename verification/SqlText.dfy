/** How a database reads a condition: tokens, and the grammar of section 8.12 of
    ISO/IEC 9075:1992 for the predicates the query builder uses. Placeholders are numbered
    from left to right. `reserved` is the dialect's list of reserved words, in capitals. */
module SqlText {
  import opened Outcomes

  datatype Token = Word(text: string) | Sym(c: char) | Str(text: string)

  predicate WordChar(c: char) {
    'A' <= c <= 'Z' || 'a' <= c <= 'z' || '0' <= c <= '9' || c == '_'
  }

  function WordLength(s: string): (n: nat)
    ensures n <= |s|
    ensures forall i :: 0 <= i < n ==> WordChar(s[i])
  {
    if s != "" && WordChar(s[0]) then 1 + WordLength(s[1..]) else 0
  }

  /** Position of the next quote, or the length. */
  function QuoteAt(s: string): (n: nat)
    ensures n <= |s|
  {
    if s == "" || s[0] == '\'' then 0 else 1 + QuoteAt(s[1..])
  }

  function Lex(s: string): seq<Token>
    decreases |s|
  {
    if s == "" then []
    else if s[0] == ' ' then Lex(s[1..])
    else if WordChar(s[0]) then [Word(s[..WordLength(s)])] + Lex(s[WordLength(s)..])
    else
      var n := QuoteAt(s[1..]);
      if s[0] == '\'' && n < |s| - 1 then [Str(s[1..n + 1])] + Lex(s[n + 2..])
      else [Sym(s[0])] + Lex(s[1..])
  }

  datatype Operand = Column(name: string) | Param(index: nat) | Number(digits: string)

  datatype Cond =
    | Eq(l: Operand, r: Operand)
    | InList(item: Operand, options: seq<Operand>)
    | IsNull(item: Operand)
    | Like(item: Operand, pattern: Operand, escape: char)
    | And(a: Cond, b: Cond)
    | Or(a: Cond, b: Cond)

  datatype Parsed<+T> = Fail | Parsed(value: T, rest: seq<Token>, next: nat)

  const KEYWORDS: set<string> := {"AND", "OR", "IN", "IS", "NULL", "LIKE", "ESCAPE", "SET", "WHERE"}

  function Capital(c: char): char {
    if 'a' <= c <= 'z' then (c as int - 32) as char else c
  }

  function Capitals(s: string): string {
    seq(|s|, i requires 0 <= i < |s| => Capital(s[i]))
  }

  predicate Keyword(ts: seq<Token>, word: string) {
    ts != [] && ts[0].Word? && Capitals(ts[0].text) == word
  }

  predicate Symbol(ts: seq<Token>, c: char) {
    ts != [] && ts[0] == Sym(c)
  }

  predicate Digit(c: char) {
    '0' <= c <= '9'
  }

  /** A word that may stand for a column or a table. */
  predicate NameWord(reserved: set<string>, t: Token) {
    t.Word? && t.text != "" && !Digit(t.text[0]) && Capitals(t.text) !in reserved
  }

  /** `name` has been read; a dot asks for another component. */
  function ColumnTail(reserved: set<string>, name: string, ts: seq<Token>, n: nat): (p: Parsed<Operand>)
    ensures p.Parsed? ==> |p.rest| <= |ts|
    decreases |ts|
  {
    if !Symbol(ts, '.') then Parsed(Column(name), ts, n)
    else if 1 < |ts| && NameWord(reserved, ts[1]) then ColumnTail(reserved, name + "." + ts[1].text, ts[2..], n)
    else Fail
  }

  function ParseOperand(reserved: set<string>, ts: seq<Token>, n: nat): (p: Parsed<Operand>)
    ensures p.Parsed? ==> |p.rest| < |ts|
  {
    if ts == [] then Fail
    else if ts[0] == Sym('?') then Parsed(Param(n), ts[1..], n + 1)
    else if ts[0].Word? && ts[0].text != "" && Digit(ts[0].text[0]) then Parsed(Number(ts[0].text), ts[1..], n)
    else if NameWord(reserved, ts[0]) then ColumnTail(reserved, ts[0].text, ts[1..], n)
    else Fail
  }

  /** One or more operands separated by commas and closed by a parenthesis. */
  function ParseOptions(reserved: set<string>, ts: seq<Token>, n: nat): (p: Parsed<seq<Operand>>)
    ensures p.Parsed? ==> |p.rest| < |ts|
    decreases |ts|
  {
    match ParseOperand(reserved, ts, n)
    case Fail => Fail
    case Parsed(x, rest, m) =>
      if Symbol(rest, ')') then Parsed([x], rest[1..], m)
      else if Symbol(rest, ',') then
        match ParseOptions(reserved, rest[1..], m)
        case Fail => Fail
        case Parsed(xs, rest', m') => Parsed([x] + xs, rest', m')
      else Fail
  }

  function ParsePredicate(reserved: set<string>, ts: seq<Token>, n: nat): (p: Parsed<Cond>)
    ensures p.Parsed? ==> |p.rest| < |ts|
  {
    match ParseOperand(reserved, ts, n)
    case Fail => Fail
    case Parsed(x, rest, m) =>
      if Symbol(rest, '=') then
        match ParseOperand(reserved, rest[1..], m)
        case Fail => Fail
        case Parsed(y, rest', m') => Parsed(Eq(x, y), rest', m')
      else if Keyword(rest, "IN") && Symbol(rest[1..], '(') then
        match ParseOptions(reserved, rest[2..], m)
        case Fail => Fail
        case Parsed(ys, rest', m') => Parsed(InList(x, ys), rest', m')
      else if Keyword(rest, "IS") && Keyword(rest[1..], "NULL") then Parsed(IsNull(x), rest[2..], m)
      else if Keyword(rest, "LIKE") then
        match ParseOperand(reserved, rest[1..], m)
        case Fail => Fail
        case Parsed(y, rest', m') =>
          if Keyword(rest', "ESCAPE") && 1 < |rest'| && rest'[1].Str? && |rest'[1].text| == 1
          then Parsed(Like(x, y, rest'[1].text[0]), rest'[2..], m')
          else Fail
      else Fail
  }

  function ParseFactor(reserved: set<string>, ts: seq<Token>, n: nat): (p: Parsed<Cond>)
    ensures p.Parsed? ==> |p.rest| < |ts|
    decreases |ts|, 0
  {
    if !Symbol(ts, '(') then ParsePredicate(reserved, ts, n)
    else match ParseOr(reserved, ts[1..], n)
      case Fail => Fail
      case Parsed(c, rest, m) => if Symbol(rest, ')') then Parsed(c, rest[1..], m) else Fail
  }

  function AndTail(reserved: set<string>, acc: Cond, ts: seq<Token>, n: nat): (p: Parsed<Cond>)
    ensures p.Parsed? ==> |p.rest| <= |ts|
    decreases |ts|, 1
  {
    if !Keyword(ts, "AND") then Parsed(acc, ts, n)
    else match ParseFactor(reserved, ts[1..], n)
      case Fail => Fail
      case Parsed(c, rest, m) => AndTail(reserved, And(acc, c), rest, m)
  }

  function ParseAnd(reserved: set<string>, ts: seq<Token>, n: nat): (p: Parsed<Cond>)
    ensures p.Parsed? ==> |p.rest| < |ts|
    decreases |ts|, 2
  {
    match ParseFactor(reserved, ts, n)
    case Fail => Fail
    case Parsed(c, rest, m) => AndTail(reserved, c, rest, m)
  }

  function OrTail(reserved: set<string>, acc: Cond, ts: seq<Token>, n: nat): (p: Parsed<Cond>)
    ensures p.Parsed? ==> |p.rest| <= |ts|
    decreases |ts|, 3
  {
    if !Keyword(ts, "OR") then Parsed(acc, ts, n)
    else match ParseAnd(reserved, ts[1..], n)
      case Fail => Fail
      case Parsed(c, rest, m) => OrTail(reserved, Or(acc, c), rest, m)
  }

  function ParseOr(reserved: set<string>, ts: seq<Token>, n: nat): (p: Parsed<Cond>)
    ensures p.Parsed? ==> |p.rest| < |ts|
    decreases |ts|, 4
  {
    match ParseAnd(reserved, ts, n)
    case Fail => Fail
    case Parsed(c, rest, m) => OrTail(reserved, c, rest, m)
  }

  /** A whole search condition, with the number of placeholders it contains. */
  function ParseWhere(reserved: set<string>, text: string): Option<(Cond, nat)> {
    match ParseOr(reserved, Lex(text), 0)
    case Fail => None
    case Parsed(c, rest, m) => if rest == [] then Some((c, m)) else None
  }

  /** SET column = ?, column = ? ... as (column, value) pairs. */
  function ParseAssignments(reserved: set<string>, ts: seq<Token>, n: nat): (p: Parsed<seq<(Operand, Operand)>>)
    ensures p.Parsed? ==> |p.rest| < |ts|
    decreases |ts|
  {
    match ParseOperand(reserved, ts, n)
    case Fail => Fail
    case Parsed(x, rest, m) =>
      if !x.Column? || !Symbol(rest, '=') then Fail
      else match ParseOperand(reserved, rest[1..], m)
        case Fail => Fail
        case Parsed(y, rest', m') =>
          if !Symbol(rest', ',') then Parsed([(x, y)], rest', m')
          else match ParseAssignments(reserved, rest'[1..], m')
            case Fail => Fail
            case Parsed(more, rest'', m'') => Parsed([(x, y)] + more, rest'', m'')
  }

  /** The part of an UPDATE after the table name: assignments and an optional condition. */
  function ParseUpdate(reserved: set<string>, text: string): Option<(seq<(Operand, Operand)>, Option<Cond>, nat)> {
    var ts := Lex(text);
    if !Keyword(ts, "SET") then None
    else match ParseAssignments(reserved, ts[1..], 0)
      case Fail => None
      case Parsed(sets, rest, m) =>
        if rest == [] then Some((sets, None, m))
        else if !Keyword(rest, "WHERE") then None
        else match ParseOr(reserved, rest[1..], m)
          case Fail => None
          case Parsed(c, rest', m') => if rest' == [] then Some((sets, Some(c), m')) else None
  }

  // ---- reading text from the left

  predicate Boundary(rest: string) {
    rest == "" || !WordChar(rest[0])
  }

  lemma {:induction false} WordLengthOf(w: string, rest: string)
    requires forall i :: 0 <= i < |w| ==> WordChar(w[i])
    requires Boundary(rest)
    ensures WordLength(w + rest) == |w|
  {
    if w == "" {
      assert w + rest == rest;
    } else {
      assert (w + rest)[1..] == w[1..] + rest;
      WordLengthOf(w[1..], rest);
    }
  }

  lemma LexWord(w: string, rest: string)
    requires w != "" && forall i :: 0 <= i < |w| ==> WordChar(w[i])
    requires Boundary(rest)
    ensures Lex(w + rest) == [Word(w)] + Lex(rest)
  {
    WordLengthOf(w, rest);
    assert (w + rest)[0] == w[0] && (w + rest)[..|w|] == w && (w + rest)[|w|..] == rest;
  }

  lemma LexSpace(rest: string)
    ensures Lex(" " + rest) == Lex(rest)
  {
    assert (" " + rest)[1..] == rest;
  }

  lemma LexSym(c: char, rest: string)
    requires !WordChar(c) && c != ' ' && c != '\''
    ensures Lex([c] + rest) == [Sym(c)] + Lex(rest)
  {
    assert ([c] + rest)[1..] == rest;
  }

  lemma LexQuoted(c: char, rest: string)
    requires c != '\''
    ensures Lex("'" + [c] + "'" + rest) == [Str([c])] + Lex(rest)
  {
    var s := "'" + [c] + "'" + rest;
    assert s[1..] == [c] + ("'" + rest);
    assert s[1..][1..] == "'" + rest;
    assert QuoteAt(s[1..]) == 1;
    assert s[1..2] == [c] && s[3..] == rest;
  }

  /** A word between spaces. */
  lemma LexSpacedWord(w: string, rest: string)
    requires w != "" && forall i :: 0 <= i < |w| ==> WordChar(w[i])
    requires Boundary(rest)
    ensures Lex(" " + w + rest) == [Word(w)] + Lex(rest)
  {
    assert " " + w + rest == " " + (w + rest);
    LexSpace(w + rest);
    LexWord(w, rest);
  }
}
