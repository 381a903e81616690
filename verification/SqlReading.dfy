/** The built text, read back: every clause is parsed as the tree it was meant to be, or is
    rejected because a column in it has a reserved component. */
module SqlReading {
  import opened SqlText
  import opened SqlClauses

  // ---- which texts are read back at all

  /** No component of the name is a reserved word. */
  predicate Unreserved(reserved: set<string>, s: string)
    requires Identifier(s)
    decreases |s|
  {
    var n := WordLength(s);
    Capitals(s[..n]) !in reserved && (n == |s| || Unreserved(reserved, s[n + 1..]))
  }

  /** An empty list leaves its column out of the text. */
  predicate Usable(reserved: set<string>, key: string, cond: Condition)
    requires Identifier(key)
  {
    cond == OneOf([]) || Unreserved(reserved, key)
  }

  predicate AllUsable(reserved: set<string>, es: Elements)
    requires ValidKeys(es)
  {
    forall i :: 0 <= i < |es| ==> Usable(reserved, es[i].0, es[i].1)
  }

  predicate AllUnreserved(reserved: set<string>, names: seq<string>)
    requires Identifiers(names)
  {
    forall i :: 0 <= i < |names| ==> Unreserved(reserved, names[i])
  }

  // ---- names

  function NameTokens(s: string): (ts: seq<Token>)
    requires Identifier(s)
    ensures ts != []
    decreases |s|
  {
    var n := WordLength(s);
    [Word(s[..n])] + if n == |s| then [] else [Sym('.')] + NameTokens(s[n + 1..])
  }

  lemma DotBoundary(rest: string)
    ensures Boundary("." + rest)
  {
  }

  lemma LexDot(rest: string)
    ensures Lex("." + rest) == [Sym('.')] + Lex(rest)
  {
    LexSym('.', rest);
  }

  lemma NameSplit(s: string, n: nat, rest: string)
    requires n < |s| && s[n] == '.'
    ensures s + rest == s[..n] + ("." + (s[n + 1..] + rest))
  {
    assert s == s[..n] + ("." + s[n + 1..]);
  }

  lemma {:induction false} LexName(s: string, rest: string)
    requires Identifier(s) && Boundary(rest)
    ensures Lex(s + rest) == NameTokens(s) + Lex(rest)
    decreases |s|
  {
    hide Lex, WordChar, Digit, Boundary;
    var n := WordLength(s);
    if n == |s| {
      assert s == s[..n];
      LexWord(s, rest);
    } else {
      var t := s[n + 1..];
      NameSplit(s, n, rest);
      DotBoundary(t + rest);
      LexWord(s[..n], "." + (t + rest));
      LexDot(t + rest);
      LexName(t, rest);
    }
  }

  lemma {:induction false} ParseNameTail(reserved: set<string>, name: string, s: string, ts: seq<Token>, n: nat)
    requires Identifier(s) && !Symbol(ts, '.')
    ensures ColumnTail(reserved, name, [Sym('.')] + NameTokens(s) + ts, n)
            == if Unreserved(reserved, s) then Parsed(Column(name + "." + s), ts, n) else Fail
    decreases |s|
  {
    var k := WordLength(s);
    var w := s[..k];
    var all := [Sym('.')] + NameTokens(s) + ts;
    assert all[1] == Word(w);
    if k == |s| {
      assert s == w && all[2..] == ts;
    } else {
      var t := s[k + 1..];
      assert all[2..] == [Sym('.')] + NameTokens(t) + ts;
      assert name + "." + w + "." + t == name + "." + s;
      ParseNameTail(reserved, name + "." + w, t, ts, n);
    }
  }

  lemma ParseName(reserved: set<string>, s: string, ts: seq<Token>, n: nat)
    requires Identifier(s) && !Symbol(ts, '.')
    ensures ParseOperand(reserved, NameTokens(s) + ts, n)
            == if Unreserved(reserved, s) then Parsed(Column(s), ts, n) else Fail
  {
    var k := WordLength(s);
    var w := s[..k];
    var all := NameTokens(s) + ts;
    assert all[0] == Word(w);
    if k == |s| {
      assert s == w && all[1..] == ts;
    } else {
      var t := s[k + 1..];
      assert all[1..] == [Sym('.')] + NameTokens(t) + ts;
      assert w + "." + t == s;
      ParseNameTail(reserved, w, t, ts, n);
    }
  }

  // ---- one condition

  function MarkTokens(n: nat): seq<Token>
    requires 1 <= n
  {
    if n == 1 then [Sym('?')] else [Sym('?'), Sym(',')] + MarkTokens(n - 1)
  }

  function CondTokens(key: string, cond: Condition): (ts: seq<Token>)
    requires Identifier(key)
    ensures ts != []
  {
    match cond
    case OneOf(values) =>
      if values == [] then [Word("1"), Sym('='), Word("0")]
      else NameTokens(key) + ([Word("IN"), Sym('(')] + (MarkTokens(|values|) + [Sym(')')]))
    case Is(Null) => NameTokens(key) + [Word("IS"), Word("NULL")]
    case Is(_) => NameTokens(key) + [Sym('='), Sym('?')]
  }

  /** The condition to be read back, its placeholders numbered from `n`. */
  function Meant(key: string, cond: Condition, n: nat): Cond {
    match cond
    case OneOf(values) =>
      if values == [] then Eq(Number("1"), Number("0")) else InList(Column(key), ParamsFrom(n, |values|))
    case Is(Null) => IsNull(Column(key))
    case Is(_) => Eq(Column(key), Param(n))
  }

  function ParamsFrom(n: nat, count: nat): seq<Operand> {
    seq(count, i requires 0 <= i => Param(n + i))
  }

  lemma {:induction false} LexMarks(n: nat, rest: string)
    requires 1 <= n
    ensures Lex(Join(", ", Marks(n)) + rest) == MarkTokens(n) + Lex(rest)
  {
    hide Lex;
    if n == 1 {
      assert Join(", ", Marks(1)) == "?";
      LexSym('?', rest);
    } else {
      var more := Join(", ", Marks(n - 1)) + rest;
      assert Marks(n)[1..] == Marks(n - 1);
      assert Join(", ", Marks(n)) + rest == "?" + ("," + (" " + more));
      LexSym('?', "," + (" " + more));
      LexSym(',', " " + more);
      LexSpace(more);
      LexMarks(n - 1, rest);
      assert MarkTokens(n) + Lex(rest) == [Sym('?')] + ([Sym(',')] + (MarkTokens(n - 1) + Lex(rest)));
    }
  }

  lemma {:induction false} ParseMarks(reserved: set<string>, n: nat, ts: seq<Token>, k: nat)
    requires 1 <= n
    ensures ParseOptions(reserved, MarkTokens(n) + ([Sym(')')] + ts), k) == Parsed(ParamsFrom(k, n), ts, k + n)
  {
    if n == 1 {
      var all := [Sym('?')] + ([Sym(')')] + ts);
      assert MarkTokens(1) + ([Sym(')')] + ts) == all;
      assert all[1..] == [Sym(')')] + ts && all[1..][1..] == ts;
      assert ParamsFrom(k, 1) == [Param(k)];
    } else {
      hide ParamsFrom;
      var more := MarkTokens(n - 1) + ([Sym(')')] + ts);
      var all := [Sym('?')] + ([Sym(',')] + more);
      assert MarkTokens(n) + ([Sym(')')] + ts) == all;
      assert all[1..] == [Sym(',')] + more && all[1..][1..] == more;
      ParseMarks(reserved, n - 1, ts, k + 1);
      ParamsStep(k, n);
    }
  }

  lemma ParamsStep(k: nat, n: nat)
    requires 1 <= n
    ensures [Param(k)] + ParamsFrom(k + 1, n - 1) == ParamsFrom(k, n)
  {
  }

  lemma LexIn(key: string, n: nat, rest: string)
    requires Identifier(key) && 1 <= n
    ensures Lex(key + " IN(" + Join(", ", Marks(n)) + ") " + rest)
            == NameTokens(key) + ([Word("IN"), Sym('(')] + (MarkTokens(n) + [Sym(')')])) + Lex(rest)
  {
    hide Lex, NameTokens, MarkTokens, Join;
    var closed := ")" + (" " + rest);
    var marks := Join(", ", Marks(n)) + closed;
    assert key + " IN(" + Join(", ", Marks(n)) + ") " + rest == key + (" " + "IN" + ("(" + marks));
    LexName(key, " " + "IN" + ("(" + marks));
    LexSpacedWord("IN", "(" + marks);
    LexSym('(', marks);
    LexMarks(n, closed);
    LexSym(')', " " + rest);
    LexSpace(rest);
    assert NameTokens(key) + ([Word("IN")] + ([Sym('(')] + (MarkTokens(n) + ([Sym(')')] + Lex(rest)))))
        == NameTokens(key) + ([Word("IN"), Sym('(')] + (MarkTokens(n) + [Sym(')')])) + Lex(rest);
  }

  lemma LexNothing(rest: string)
    requires Boundary(rest)
    ensures Lex("1 = 0" + rest) == [Word("1"), Sym('='), Word("0")] + Lex(rest)
  {
    hide Lex;
    var zero := " " + "0" + rest;
    assert "1 = 0" + rest == "1" + (" " + ("=" + zero));
    LexWord("1", " " + ("=" + zero));
    LexSpace("=" + zero);
    LexSym('=', zero);
    LexSpacedWord("0", rest);
  }

  lemma LexIsNull(key: string, rest: string)
    requires Identifier(key) && Boundary(rest)
    ensures Lex(key + " IS NULL" + rest) == NameTokens(key) + [Word("IS"), Word("NULL")] + Lex(rest)
  {
    hide Lex, NameTokens;
    var tail := " " + "NULL" + rest;
    assert key + " IS NULL" + rest == key + (" " + "IS" + tail);
    LexName(key, " " + "IS" + tail);
    LexSpacedWord("IS", tail);
    LexSpacedWord("NULL", rest);
    assert NameTokens(key) + [Word("IS"), Word("NULL")] + Lex(rest)
        == NameTokens(key) + ([Word("IS")] + ([Word("NULL")] + Lex(rest)));
  }

  lemma LexCond(key: string, cond: Condition, rest: string)
    requires Identifier(key) && Boundary(rest)
    ensures Lex(Render(key, cond) + rest) == CondTokens(key, cond) + Lex(rest)
  {
    hide Lex, NameTokens, MarkTokens, Join;
    match cond
    case OneOf(values) =>
      if values == [] { LexNothing(rest); } else { LexIn(key, |values|, rest); }
    case Is(Null) => LexIsNull(key, rest);
    case Is(_) => LexEquals(key, rest);
  }

  lemma LexEquals(key: string, rest: string)
    requires Identifier(key)
    ensures Lex(key + " = ?" + rest) == NameTokens(key) + [Sym('='), Sym('?')] + Lex(rest)
  {
    hide Lex, NameTokens;
    var mark := " " + ("?" + rest);
    assert key + " = ?" + rest == key + (" " + ("=" + mark));
    LexName(key, " " + ("=" + mark));
    LexSpace("=" + mark);
    LexSym('=', mark);
    LexSpace("?" + rest);
    LexSym('?', rest);
    assert NameTokens(key) + [Sym('='), Sym('?')] + Lex(rest)
           == NameTokens(key) + ([Sym('=')] + ([Sym('?')] + Lex(rest)));
  }

  lemma CapitalsKeep(w: string)
    requires forall i :: 0 <= i < |w| ==> !('a' <= w[i] <= 'z')
    ensures Capitals(w) == w
  {
  }

  lemma Keywords()
    ensures forall w :: w in KEYWORDS ==> Capitals(w) == w
  {
    forall w | w in KEYWORDS ensures Capitals(w) == w { CapitalsKeep(w); }
  }

  lemma ParseNothing(reserved: set<string>, ts: seq<Token>, n: nat)
    ensures ParsePredicate(reserved, [Word("1"), Sym('='), Word("0")] + ts, n)
            == Parsed(Eq(Number("1"), Number("0")), ts, n)
  {
    var all := [Word("1"), Sym('='), Word("0")] + ts;
    assert all[1..] == [Sym('='), Word("0")] + ts;
    assert all[1..][1..] == [Word("0")] + ts && all[1..][1..][1..] == ts;
  }

  lemma ParseIn(reserved: set<string>, key: string, count: nat, ts: seq<Token>, n: nat)
    requires Identifier(key) && 1 <= count
    ensures ParsePredicate(reserved,
                           NameTokens(key) + ([Word("IN"), Sym('(')] + (MarkTokens(count) + [Sym(')')])) + ts, n)
            == if Unreserved(reserved, key)
               then Parsed(InList(Column(key), ParamsFrom(n, count)), ts, n + count) else Fail
  {
    hide NameTokens, MarkTokens, ParseOptions, ParseOperand, Unreserved, ParamsFrom;
    Keywords();
    var after := [Word("IN"), Sym('(')] + (MarkTokens(count) + ([Sym(')')] + ts));
    assert NameTokens(key) + ([Word("IN"), Sym('(')] + (MarkTokens(count) + [Sym(')')])) + ts
           == NameTokens(key) + after;
    ParseName(reserved, key, after, n);
    assert after[1..] == [Sym('(')] + (MarkTokens(count) + ([Sym(')')] + ts));
    assert after[2..] == MarkTokens(count) + ([Sym(')')] + ts);
    ParseMarks(reserved, count, ts, n);
  }

  lemma ParseIsNull(reserved: set<string>, key: string, ts: seq<Token>, n: nat)
    requires Identifier(key)
    ensures ParsePredicate(reserved, NameTokens(key) + [Word("IS"), Word("NULL")] + ts, n)
            == if Unreserved(reserved, key) then Parsed(IsNull(Column(key)), ts, n) else Fail
  {
    hide NameTokens, ParseOptions, ParseOperand, Unreserved;
    Keywords();
    var after := [Word("IS"), Word("NULL")] + ts;
    assert NameTokens(key) + [Word("IS"), Word("NULL")] + ts == NameTokens(key) + after;
    ParseName(reserved, key, after, n);
    assert after[1..] == [Word("NULL")] + ts && after[2..] == ts;
  }

  lemma ParseEquals(reserved: set<string>, key: string, ts: seq<Token>, n: nat)
    requires Identifier(key)
    ensures ParsePredicate(reserved, NameTokens(key) + [Sym('='), Sym('?')] + ts, n)
            == if Unreserved(reserved, key) then Parsed(Eq(Column(key), Param(n)), ts, n + 1) else Fail
  {
    hide NameTokens, ParseOptions, Unreserved;
    var after := [Sym('='), Sym('?')] + ts;
    assert NameTokens(key) + [Sym('='), Sym('?')] + ts == NameTokens(key) + after;
    ParseName(reserved, key, after, n);
    assert after[1..] == [Sym('?')] + ts && after[1..][1..] == ts;
  }

  /** A condition is read back as meant, whatever follows it; or rejected if its column is
      in the text and has a reserved component. */
  lemma ParseCond(reserved: set<string>, key: string, cond: Condition, ts: seq<Token>, n: nat)
    requires Identifier(key)
    ensures ParsePredicate(reserved, CondTokens(key, cond) + ts, n)
            == if Usable(reserved, key, cond) then Parsed(Meant(key, cond, n), ts, n + |Params(cond)|) else Fail
    ensures CondTokens(key, cond)[0].Word?
  {
    hide ParsePredicate, MarkTokens;
    match cond
    case OneOf(values) =>
      if values == [] { ParseNothing(reserved, ts, n); } else { ParseIn(reserved, key, |values|, ts, n); }
    case Is(Null) => ParseIsNull(reserved, key, ts, n);
    case Is(_) => ParseEquals(reserved, key, ts, n);
  }

  // ---- joined parts

  function SepTokens(t: Token, parts: seq<seq<Token>>): seq<Token> {
    if parts == [] then [] else [t] + (parts[0] + SepTokens(t, parts[1..]))
  }

  function JoinTokens(t: Token, parts: seq<seq<Token>>): seq<Token>
    requires parts != []
  {
    parts[0] + SepTokens(t, parts[1..])
  }

  /** `text` is read as `tokens` whatever follows, short of running into its last word. */
  ghost predicate ReadAs(text: string, tokens: seq<Token>) {
    forall rest {:trigger Lex(text + rest)} :: Boundary(rest) ==> Lex(text + rest) == tokens + Lex(rest)
  }

  ghost predicate Separator(sep: string, t: Token) {
    sep != "" && !WordChar(sep[0]) && forall rest {:trigger Lex(sep + rest)} :: Lex(sep + rest) == [t] + Lex(rest)
  }

  lemma {:induction false} LexJoin(sep: string, t: Token, texts: seq<string>, parts: seq<seq<Token>>, rest: string)
    requires Separator(sep, t) && |texts| == |parts| && texts != []
    requires forall i :: 0 <= i < |texts| ==> ReadAs(texts[i], parts[i])
    requires Boundary(rest)
    ensures Lex(Join(sep, texts) + rest) == JoinTokens(t, parts) + Lex(rest)
    decreases |texts|
  {
    hide Lex;
    assert ReadAs(texts[0], parts[0]);
    if |texts| == 1 {
      assert JoinTokens(t, parts) == parts[0];
    } else {
      var more := Join(sep, texts[1..]) + rest;
      LexJoin(sep, t, texts[1..], parts[1..], rest);
      assert Join(sep, texts) + rest == texts[0] + (sep + more);
      assert Boundary(sep + more);
      assert JoinTokens(t, parts) + Lex(rest) == parts[0] + ([t] + (JoinTokens(t, parts[1..]) + Lex(rest)));
    }
  }

  lemma WordSeparator(w: string)
    requires w != "" && forall i :: 0 <= i < |w| ==> WordChar(w[i])
    ensures Separator(" " + w + " ", Word(w))
  {
    hide Lex;
    forall rest: string
      ensures Lex(" " + w + " " + rest) == [Word(w)] + Lex(rest)
    {
      assert " " + w + " " + rest == " " + w + (" " + rest);
      LexSpacedWord(w, " " + rest);
      LexSpace(rest);
    }
  }

  lemma CommaSeparator()
    ensures Separator(", ", Sym(','))
  {
    hide Lex;
    forall rest: string
      ensures Lex(", " + rest) == [Sym(',')] + Lex(rest)
    {
      assert ", " + rest == "," + (" " + rest);
      LexSym(',', " " + rest);
      LexSpace(rest);
    }
  }

  // ---- conjunctions of conditions

  function CondParts(es: Elements): (parts: seq<seq<Token>>)
    requires ValidKeys(es)
    ensures |parts| == |es|
  {
    seq(|es|, i requires 0 <= i < |es| => CondTokens(es[i].0, es[i].1))
  }

  function ConjFrom(acc: Cond, es: Elements, n: nat): Cond
    decreases |es|
  {
    if es == [] then acc
    else ConjFrom(And(acc, Meant(es[0].0, es[0].1, n)), es[1..], n + |Params(es[0].1)|)
  }

  function Conj(es: Elements, n: nat): Cond
    requires es != []
  {
    ConjFrom(Meant(es[0].0, es[0].1, n), es[1..], n + |Params(es[0].1)|)
  }

  lemma LexConj(es: Elements, rest: string)
    requires es != [] && ValidKeys(es) && Boundary(rest)
    ensures Lex(Join(" AND ", Rendered(es)) + rest) == JoinTokens(Word("AND"), CondParts(es)) + Lex(rest)
  {
    hide Lex, CondTokens, Render;
    WordSeparator("AND");
    assert " " + "AND" + " " == " AND ";
    forall i | 0 <= i < |es| ensures ReadAs(Rendered(es)[i], CondParts(es)[i]) {
      forall r: string | Boundary(r) ensures Lex(Rendered(es)[i] + r) == CondParts(es)[i] + Lex(r) {
        LexCond(es[i].0, es[i].1, r);
      }
    }
    LexJoin(" AND ", Word("AND"), Rendered(es), CondParts(es), rest);
  }

  lemma FactorOfCond(reserved: set<string>, key: string, cond: Condition, ts: seq<Token>, n: nat)
    requires Identifier(key)
    ensures ParseFactor(reserved, CondTokens(key, cond) + ts, n)
            == if Usable(reserved, key, cond) then Parsed(Meant(key, cond, n), ts, n + |Params(cond)|) else Fail
  {
    hide ParsePredicate, CondTokens, Usable;
    ParseCond(reserved, key, cond, ts, n);
    assert (CondTokens(key, cond) + ts)[0] == CondTokens(key, cond)[0];
  }

  lemma AllUsableSplit(reserved: set<string>, es: Elements)
    requires es != [] && ValidKeys(es)
    ensures AllUsable(reserved, es) <==> Usable(reserved, es[0].0, es[0].1) && AllUsable(reserved, es[1..])
  {
    hide Usable;
  }

  lemma CondPartsStep(es: Elements)
    requires es != [] && ValidKeys(es)
    ensures CondParts(es) == [CondTokens(es[0].0, es[0].1)] + CondParts(es[1..])
  {
    hide CondTokens;
  }

  lemma SepStep(t: Token, first: seq<Token>, more: seq<seq<Token>>, ts: seq<Token>)
    ensures var all := SepTokens(t, [first] + more) + ts;
            all != [] && all[0] == t && all[1..] == first + (SepTokens(t, more) + ts)
  {
    assert ([first] + more)[1..] == more;
    assert SepTokens(t, [first] + more) + ts == [t] + (first + (SepTokens(t, more) + ts));
  }

  lemma AndTailStep(reserved: set<string>, acc: Cond, ts: seq<Token>, n: nat)
    requires ts != [] && ts[0] == Word("AND")
    ensures AndTail(reserved, acc, ts, n)
            == var p := ParseFactor(reserved, ts[1..], n);
               if p.Fail? then Fail else AndTail(reserved, And(acc, p.value), p.rest, p.next)
  {
    hide ParseFactor;
    Keywords();
  }

  lemma AndTailEnd(reserved: set<string>, acc: Cond, ts: seq<Token>, n: nat)
    requires !Keyword(ts, "AND")
    ensures AndTail(reserved, acc, SepTokens(Word("AND"), []) + ts, n) == Parsed(acc, ts, n)
  {
    assert SepTokens(Word("AND"), []) + ts == ts;
  }

  lemma NoConditions(reserved: set<string>)
    ensures CondParts([]) == [] && AllUsable(reserved, []) && AllParams([]) == []
  {
  }

  lemma {:induction false} ParseConjTail(reserved: set<string>, acc: Cond, es: Elements, ts: seq<Token>, n: nat)
    requires ValidKeys(es) && !Keyword(ts, "AND")
    ensures AndTail(reserved, acc, SepTokens(Word("AND"), CondParts(es)) + ts, n)
            == if AllUsable(reserved, es) then Parsed(ConjFrom(acc, es, n), ts, n + |AllParams(es)|) else Fail
    decreases |es|
  {
    hide AndTail, ParseFactor, Keyword, CondTokens, CondParts, Usable, AllUsable, Meant, SepTokens, Params;
    if es == [] {
      NoConditions(reserved);
      AndTailEnd(reserved, acc, ts, n);
    } else {
      var (key, cond) := es[0];
      CondPartsStep(es);
      SepStep(Word("AND"), CondTokens(key, cond), CondParts(es[1..]), ts);
      AndTailStep(reserved, acc, SepTokens(Word("AND"), CondParts(es)) + ts, n);
      FactorOfCond(reserved, key, cond, SepTokens(Word("AND"), CondParts(es[1..])) + ts, n);
      ParseConjTail(reserved, And(acc, Meant(key, cond, n)), es[1..], ts, n + |Params(cond)|);
      AllUsableSplit(reserved, es);
    }
  }

  /** The rendered conditions are read back as their left-to-right conjunction, and only if
      every rendered column is free of reserved words. */
  lemma ParseConj(reserved: set<string>, es: Elements, ts: seq<Token>, n: nat)
    requires es != [] && ValidKeys(es) && !Keyword(ts, "AND") && !Keyword(ts, "OR")
    ensures ParseOr(reserved, JoinTokens(Word("AND"), CondParts(es)) + ts, n)
            == if AllUsable(reserved, es) then Parsed(Conj(es, n), ts, n + |AllParams(es)|) else Fail
  {
    hide ParseFactor, AndTail, CondTokens, Usable, AllUsable, Meant, ConjFrom, SepTokens;
    var (key, cond) := es[0];
    var more := SepTokens(Word("AND"), CondParts(es[1..])) + ts;
    assert CondParts(es)[1..] == CondParts(es[1..]);
    assert JoinTokens(Word("AND"), CondParts(es)) + ts == CondTokens(key, cond) + more;
    FactorOfCond(reserved, key, cond, more, n);
    ParseConjTail(reserved, Meant(key, cond, n), es[1..], ts, n + |Params(cond)|);
    AllUsableSplit(reserved, es);
  }

  // ---- disjunctions of LIKE tests

  function LikeTokens(column: string): (ts: seq<Token>)
    requires Identifier(column)
    ensures ts != []
  {
    NameTokens(column) + [Word("LIKE"), Sym('?'), Word("ESCAPE"), Str("!")]
  }

  function LikeTests(columns: seq<string>): (parts: seq<seq<Token>>)
    requires Identifiers(columns)
    ensures |parts| == |columns|
  {
    seq(|columns|, i requires 0 <= i < |columns| => LikeTokens(columns[i]))
  }

  function MeantLike(column: string, n: nat): Cond {
    Like(Column(column), Param(n), '!')
  }

  function DisjFrom(acc: Cond, columns: seq<string>, n: nat): Cond
    decreases |columns|
  {
    if columns == [] then acc else DisjFrom(Or(acc, MeantLike(columns[0], n)), columns[1..], n + 1)
  }

  function Disj(columns: seq<string>, n: nat): Cond
    requires columns != []
  {
    DisjFrom(MeantLike(columns[0], n), columns[1..], n + 1)
  }

  lemma LexLike(column: string, rest: string)
    requires Identifier(column)
    ensures Lex(column + " LIKE ? ESCAPE '!'" + rest) == LikeTokens(column) + Lex(rest)
  {
    hide Lex, NameTokens;
    var quoted := " " + ("'" + ['!'] + "'" + rest);
    var escape := " " + "ESCAPE" + quoted;
    var mark := " " + ("?" + escape);
    assert column + " LIKE ? ESCAPE '!'" + rest == column + (" " + "LIKE" + mark);
    LexName(column, " " + "LIKE" + mark);
    LexSpacedWord("LIKE", mark);
    LexSpace("?" + escape);
    LexSym('?', escape);
    LexSpacedWord("ESCAPE", quoted);
    LexSpace("'" + ['!'] + "'" + rest);
    LexQuoted('!', rest);
    assert LikeTokens(column) + Lex(rest)
        == NameTokens(column) + ([Word("LIKE")] + ([Sym('?')] + ([Word("ESCAPE")] + ([Str("!")] + Lex(rest)))));
  }

  lemma LexDisj(columns: seq<string>, rest: string)
    requires columns != [] && Identifiers(columns) && Boundary(rest)
    ensures Lex(Join(" OR ", LikeParts(columns)) + rest) == JoinTokens(Word("OR"), LikeTests(columns)) + Lex(rest)
  {
    hide Lex, LikeTokens;
    WordSeparator("OR");
    assert " " + "OR" + " " == " OR ";
    forall i | 0 <= i < |columns| ensures ReadAs(LikeParts(columns)[i], LikeTests(columns)[i]) {
      forall r: string | Boundary(r) ensures Lex(LikeParts(columns)[i] + r) == LikeTests(columns)[i] + Lex(r) {
        LexLike(columns[i], r);
      }
    }
    LexJoin(" OR ", Word("OR"), LikeParts(columns), LikeTests(columns), rest);
  }

  lemma FactorOfLike(reserved: set<string>, column: string, ts: seq<Token>, n: nat)
    requires Identifier(column)
    ensures ParseFactor(reserved, LikeTokens(column) + ts, n)
            == if Unreserved(reserved, column) then Parsed(MeantLike(column, n), ts, n + 1) else Fail
  {
    hide NameTokens, Unreserved, ParseOptions, Identifier;
    Keywords();
    var after := [Word("LIKE"), Sym('?'), Word("ESCAPE"), Str("!")] + ts;
    var all := LikeTokens(column) + ts;
    assert all == NameTokens(column) + after;
    ParseName(reserved, column, after, n);
    NameStarts(column);
    assert all[0] == NameTokens(column)[0];
    assert after[1..] == [Sym('?'), Word("ESCAPE"), Str("!")] + ts;
    assert after[1..][1..] == [Word("ESCAPE"), Str("!")] + ts;
    assert after[1..][1..][2..] == ts;
  }

  lemma NameStarts(s: string)
    requires Identifier(s)
    ensures NameTokens(s)[0].Word?
  {
  }

  lemma AndOfLike(reserved: set<string>, column: string, ts: seq<Token>, n: nat)
    requires Identifier(column) && !Keyword(ts, "AND")
    ensures ParseAnd(reserved, LikeTokens(column) + ts, n)
            == if Unreserved(reserved, column) then Parsed(MeantLike(column, n), ts, n + 1) else Fail
  {
    hide ParseFactor, LikeTokens, Unreserved;
    FactorOfLike(reserved, column, ts, n);
  }

  lemma NotAnd(reserved: set<string>, columns: seq<string>, ts: seq<Token>)
    requires Identifiers(columns) && !Keyword(ts, "AND")
    ensures !Keyword(SepTokens(Word("OR"), LikeTests(columns)) + ts, "AND")
  {
    Keywords();
    if columns == [] {
      assert SepTokens(Word("OR"), LikeTests(columns)) + ts == ts;
    }
  }

  lemma {:induction false} ParseDisjTail(reserved: set<string>, acc: Cond, columns: seq<string>, ts: seq<Token>, n: nat)
    requires Identifiers(columns) && !Keyword(ts, "AND") && !Keyword(ts, "OR")
    ensures OrTail(reserved, acc, SepTokens(Word("OR"), LikeTests(columns)) + ts, n)
            == if AllUnreserved(reserved, columns) then Parsed(DisjFrom(acc, columns, n), ts, n + |columns|) else Fail
    decreases |columns|
  {
    Keywords();
    if columns == [] {
      assert SepTokens(Word("OR"), LikeTests(columns)) + ts == ts;
    } else {
      hide ParseAnd, LikeTokens, Unreserved, MeantLike, SepTokens;
      var more := SepTokens(Word("OR"), LikeTests(columns[1..])) + ts;
      assert LikeTests(columns) == [LikeTokens(columns[0])] + LikeTests(columns[1..]);
      SepStep(Word("OR"), LikeTokens(columns[0]), LikeTests(columns[1..]), ts);
      NotAnd(reserved, columns[1..], ts);
      AndOfLike(reserved, columns[0], more, n);
      ParseDisjTail(reserved, Or(acc, MeantLike(columns[0], n)), columns[1..], ts, n + 1);
      assert AllUnreserved(reserved, columns)
             <==> Unreserved(reserved, columns[0]) && AllUnreserved(reserved, columns[1..]);
    }
  }

  lemma ParseDisj(reserved: set<string>, columns: seq<string>, ts: seq<Token>, n: nat)
    requires columns != [] && Identifiers(columns) && !Keyword(ts, "AND") && !Keyword(ts, "OR")
    ensures ParseOr(reserved, JoinTokens(Word("OR"), LikeTests(columns)) + ts, n)
            == if AllUnreserved(reserved, columns) then Parsed(Disj(columns, n), ts, n + |columns|) else Fail
  {
    hide ParseAnd, OrTail, LikeTokens, Unreserved, MeantLike, SepTokens, DisjFrom;
    var more := SepTokens(Word("OR"), LikeTests(columns[1..])) + ts;
    assert LikeTests(columns)[1..] == LikeTests(columns[1..]);
    assert JoinTokens(Word("OR"), LikeTests(columns)) + ts == LikeTokens(columns[0]) + more;
    NotAnd(reserved, columns[1..], ts);
    AndOfLike(reserved, columns[0], more, n);
    ParseDisjTail(reserved, MeantLike(columns[0], n), columns[1..], ts, n + 1);
    assert AllUnreserved(reserved, columns)
           <==> Unreserved(reserved, columns[0]) && AllUnreserved(reserved, columns[1..]);
  }

  // ---- assignments

  function SetTokens(column: string): (ts: seq<Token>)
    requires Identifier(column)
    ensures ts != []
  {
    NameTokens(column) + [Sym('='), Sym('?')]
  }

  function SetTests(columns: seq<string>): (parts: seq<seq<Token>>)
    requires Identifiers(columns)
    ensures |parts| == |columns|
  {
    seq(|columns|, i requires 0 <= i < |columns| => SetTokens(columns[i]))
  }

  /** Column after column, each with the next placeholder. */
  function MeantSets(columns: seq<string>, n: nat): seq<(Operand, Operand)> {
    seq(|columns|, i requires 0 <= i < |columns| => (Column(columns[i]), Param(n + i)))
  }

  lemma LexSets(columns: seq<string>, rest: string)
    requires columns != [] && Identifiers(columns) && Boundary(rest)
    ensures Lex(Join(", ", SetParts(columns)) + rest) == JoinTokens(Sym(','), SetTests(columns)) + Lex(rest)
  {
    hide Lex, NameTokens;
    CommaSeparator();
    forall i | 0 <= i < |columns| ensures ReadAs(SetParts(columns)[i], SetTests(columns)[i]) {
      forall r: string | Boundary(r) ensures Lex(SetParts(columns)[i] + r) == SetTests(columns)[i] + Lex(r) {
        LexEquals(columns[i], r);
      }
    }
    LexJoin(", ", Sym(','), SetParts(columns), SetTests(columns), rest);
  }

  lemma ParseSet(reserved: set<string>, column: string, ts: seq<Token>, n: nat)
    requires Identifier(column)
    ensures ParseAssignments(reserved, SetTokens(column) + ts, n)
            == if !Unreserved(reserved, column) then Fail
               else if !Symbol(ts, ',') then Parsed([(Column(column), Param(n))], ts, n + 1)
               else
                 var more := ParseAssignments(reserved, ts[1..], n + 1);
                 if more.Fail? then Fail else Parsed([(Column(column), Param(n))] + more.value, more.rest, more.next)
  {
    hide NameTokens, Unreserved, Identifier;
    var after := [Sym('='), Sym('?')] + ts;
    assert SetTokens(column) + ts == NameTokens(column) + after;
    ParseName(reserved, column, after, n);
    assert after[1..] == [Sym('?')] + ts && after[1..][1..] == ts;
  }

  lemma {:induction false} ParseSets(reserved: set<string>, columns: seq<string>, ts: seq<Token>, n: nat)
    requires columns != [] && Identifiers(columns) && !Symbol(ts, ',')
    ensures ParseAssignments(reserved, JoinTokens(Sym(','), SetTests(columns)) + ts, n)
            == if AllUnreserved(reserved, columns) then Parsed(MeantSets(columns, n), ts, n + |columns|) else Fail
    decreases |columns|
  {
    hide ParseAssignments, SetTokens, Unreserved;
    var rest := columns[1..];
    assert SetTests(columns)[1..] == SetTests(rest);
    if rest == [] {
      assert JoinTokens(Sym(','), SetTests(columns)) + ts == SetTokens(columns[0]) + ts;
      ParseSet(reserved, columns[0], ts, n);
      assert MeantSets(columns, n) == [(Column(columns[0]), Param(n))];
    } else {
      var tail := JoinTokens(Sym(','), SetTests(rest)) + ts;
      assert JoinTokens(Sym(','), SetTests(columns)) + ts == SetTokens(columns[0]) + ([Sym(',')] + tail);
      ParseSet(reserved, columns[0], [Sym(',')] + tail, n);
      assert ([Sym(',')] + tail)[1..] == tail;
      ParseSets(reserved, rest, ts, n + 1);
      assert MeantSets(columns, n) == [(Column(columns[0]), Param(n))] + MeantSets(rest, n + 1);
      assert AllUnreserved(reserved, columns) <==> Unreserved(reserved, columns[0]) && AllUnreserved(reserved, rest);
    }
  }
}
