/** What the built text means to a database that parses it, binds its placeholders from left
    to right and evaluates it in three-valued logic. */
module SqlMeaning {
  import opened Outcomes
  import opened SqlText
  import opened SqlLike
  import opened SqlClauses
  import opened SqlReading

  // ---- three-valued evaluation

  datatype Truth = True | False | Unknown

  type Row = string -> Value

  function Decide(b: bool): Truth {
    if b then True else False
  }

  function TruthAnd(a: Truth, b: Truth): Truth {
    if a == False || b == False then False else if a == True && b == True then True else Unknown
  }

  function TruthOr(a: Truth, b: Truth): Truth {
    if a == True || b == True then True else if a == False && b == False then False else Unknown
  }

  function Equals(a: Value, b: Value): Truth {
    if a == Null || b == Null then Unknown else Decide(a == b)
  }

  function Decimal(digits: string): int {
    if digits == "" then 0 else 10 * Decimal(digits[..|digits| - 1]) + (digits[|digits| - 1] as int - '0' as int)
  }

  /** A placeholder stands for the parameter of its number. */
  function Bound(x: Operand, row: Row, params: seq<Value>): Value {
    match x
    case Column(name) => row(name)
    case Param(i) => if i < |params| then params[i] else Null
    case Number(digits) => Num(Decimal(digits))
  }

  function AmongTruth(v: Value, options: seq<Operand>, row: Row, params: seq<Value>): Truth {
    if options == [] then False
    else TruthOr(Equals(v, Bound(options[0], row, params)), AmongTruth(v, options[1..], row, params))
  }

  ghost function Eval(c: Cond, row: Row, params: seq<Value>): Truth {
    match c
    case Eq(l, r) => Equals(Bound(l, row, params), Bound(r, row, params))
    case InList(item, options) => AmongTruth(Bound(item, row, params), options, row, params)
    case IsNull(item) => Decide(Bound(item, row, params) == Null)
    case Like(item, pattern, escape) =>
      var s, p := Bound(item, row, params), Bound(pattern, row, params);
      if s == Null || p == Null then Unknown
      else Decide(s.Text? && p.Text? && LikeMatch(p.text, s.text, escape))
    case And(a, b) => TruthAnd(Eval(a, row, params), Eval(b, row, params))
    case Or(a, b) => TruthOr(Eval(a, row, params), Eval(b, row, params))
  }

  /** WHERE keeps the rows for which the condition is true, not merely unknown. */
  ghost predicate Selects(c: Cond, row: Row, params: seq<Value>) {
    Eval(c, row, params) == True
  }

  // ---- what the caller asked for

  /** Membership never holds through a None in the list, equality never with NULL; an empty
      list matches nothing, and None asks for NULL. */
  ghost predicate Holds(row: Row, key: string, cond: Condition) {
    match cond
    case OneOf(values) => row(key) != Null && row(key) in values
    case Is(value) => row(key) == value
  }

  ghost predicate AllHold(row: Row, es: Elements) {
    forall i :: 0 <= i < |es| ==> Holds(row, es[i].0, es[i].1)
  }

  ghost predicate SomeContains(row: Row, columns: seq<string>, term: string) {
    exists i :: 0 <= i < |columns| && row(columns[i]).Text? && Contains(row(columns[i]).text, term)
  }

  // ---- a condition, a conjunction, a disjunction

  /** The values for the placeholders from `n` on start with `vs`. */
  predicate BoundAt(params: seq<Value>, n: nat, vs: seq<Value>) {
    n + |vs| <= |params| && params[n..n + |vs|] == vs
  }

  lemma BoundSplit(params: seq<Value>, n: nat, a: seq<Value>, b: seq<Value>)
    requires BoundAt(params, n, a + b)
    ensures BoundAt(params, n, a) && BoundAt(params, n + |a|, b)
  {
    assert params[n..n + |a|] == params[n..n + |a + b|][..|a|];
    assert params[n + |a|..n + |a| + |b|] == params[n..n + |a + b|][|a|..];
  }

  lemma {:induction false} AmongParams(v: Value, row: Row, params: seq<Value>, n: nat, values: seq<Value>)
    requires BoundAt(params, n, values)
    ensures AmongTruth(v, ParamsFrom(n, |values|), row, params) == True <==> v != Null && v in values
    decreases |values|
  {
    if values != [] {
      BoundSplit(params, n, values[..1], values[1..]);
      assert values == values[..1] + values[1..];
      assert params[n] == params[n..n + |values|][0];
      assert ParamsFrom(n, |values|)[1..] == ParamsFrom(n + 1, |values| - 1);
      AmongParams(v, row, params, n + 1, values[1..]);
      assert v in values <==> v == values[0] || v in values[1..];
    }
  }

  lemma EvalCond(key: string, cond: Condition, row: Row, params: seq<Value>, n: nat)
    requires BoundAt(params, n, Params(cond))
    ensures Selects(Meant(key, cond, n), row, params) <==> Holds(row, key, cond)
  {
    match cond
    case OneOf(values) =>
      if values == [] {
        assert "1"[..0] == "" && "0"[..0] == "";
        assert Decimal("1") == 1 && Decimal("0") == 0;
      } else {
        AmongParams(row(key), row, params, n, values);
      }
    case Is(Null) =>
    case Is(v) =>
      assert params[n] == params[n..n + 1][0];
  }

  lemma SelectsAnd(a: Cond, b: Cond, row: Row, params: seq<Value>)
    ensures Selects(And(a, b), row, params) <==> Selects(a, row, params) && Selects(b, row, params)
  {
  }

  lemma AllHoldSplit(row: Row, es: Elements)
    requires es != []
    ensures AllHold(row, es) <==> Holds(row, es[0].0, es[0].1) && AllHold(row, es[1..])
  {
    hide Holds;
  }

  lemma {:induction false} EvalConjFrom(acc: Cond, es: Elements, row: Row, params: seq<Value>, n: nat)
    requires BoundAt(params, n, AllParams(es))
    ensures Selects(ConjFrom(acc, es, n), row, params) <==> Selects(acc, row, params) && AllHold(row, es)
    decreases |es|
  {
    hide Selects, Meant, Holds, BoundAt, AllHold, Params;
    if es != [] {
      var (key, cond) := es[0];
      BoundSplit(params, n, Params(cond), AllParams(es[1..]));
      EvalCond(key, cond, row, params, n);
      SelectsAnd(acc, Meant(key, cond, n), row, params);
      EvalConjFrom(And(acc, Meant(key, cond, n)), es[1..], row, params, n + |Params(cond)|);
      AllHoldSplit(row, es);
    } else {
      NothingHeld(row);
    }
  }

  lemma NothingHeld(row: Row)
    ensures AllHold(row, [])
  {
  }

  lemma EvalConj(es: Elements, row: Row, params: seq<Value>, n: nat)
    requires es != [] && BoundAt(params, n, AllParams(es))
    ensures Selects(Conj(es, n), row, params) <==> AllHold(row, es)
  {
    hide Selects, Meant, Holds, BoundAt, AllHold;
    var (key, cond) := es[0];
    BoundSplit(params, n, Params(cond), AllParams(es[1..]));
    EvalCond(key, cond, row, params, n);
    EvalConjFrom(Meant(key, cond, n), es[1..], row, params, n + |Params(cond)|);
    AllHoldSplit(row, es);
  }

  ghost predicate ColumnContains(row: Row, column: string, term: string) {
    row(column).Text? && Contains(row(column).text, term)
  }

  lemma EvalLike(column: string, term: string, row: Row, params: seq<Value>, n: nat)
    requires n < |params| && params[n] == Text(LikePattern(term))
    ensures Selects(MeantLike(column, n), row, params) <==> ColumnContains(row, column, term)
  {
    if row(column).Text? {
      LikePatternCorrect(term, row(column).text);
    }
  }

  lemma {:induction false} EvalDisjFrom(acc: Cond, columns: seq<string>, term: string,
                                        row: Row, params: seq<Value>, n: nat)
    requires n + |columns| <= |params|
    requires forall i :: n <= i < n + |columns| ==> params[i] == Text(LikePattern(term))
    ensures Selects(DisjFrom(acc, columns, n), row, params) <==>
            Selects(acc, row, params) || SomeContains(row, columns, term)
    decreases |columns|
  {
    if columns != [] {
      EvalLike(columns[0], term, row, params, n);
      EvalDisjFrom(Or(acc, MeantLike(columns[0], n)), columns[1..], term, row, params, n + 1);
      SomeContainsSplit(row, columns, term);
    }
  }

  lemma SomeContainsSplit(row: Row, columns: seq<string>, term: string)
    requires columns != []
    ensures SomeContains(row, columns, term) <==>
            ColumnContains(row, columns[0], term) || SomeContains(row, columns[1..], term)
  {
    if SomeContains(row, columns[1..], term) {
      var i :| 0 <= i < |columns[1..]| && ColumnContains(row, columns[1..][i], term);
      assert ColumnContains(row, columns[i + 1], term);
    }
    if SomeContains(row, columns, term) && !ColumnContains(row, columns[0], term) {
      var i :| 0 <= i < |columns| && ColumnContains(row, columns[i], term);
      assert ColumnContains(row, columns[1..][i - 1], term);
    }
  }

  lemma EvalDisj(columns: seq<string>, term: string, row: Row, params: seq<Value>, n: nat)
    requires columns != [] && n + |columns| <= |params|
    requires forall i :: n <= i < n + |columns| ==> params[i] == Text(LikePattern(term))
    ensures Selects(Disj(columns, n), row, params) <==> SomeContains(row, columns, term)
  {
    EvalLike(columns[0], term, row, params, n);
    EvalDisjFrom(MeantLike(columns[0], n), columns[1..], term, row, params, n + 1);
    SomeContainsSplit(row, columns, term);
  }

  // ---- the clauses as a whole

  /** A condition clause is accepted exactly when no column in it is reserved; it then uses
      each value once, and selects exactly the rows for which every condition holds. */
  lemma ConditionMeaning(reserved: set<string>, es: Elements)
    requires es != [] && ValidKeys(es)
    ensures var clause := ConditionClause(es);
            var parsed := ParseWhere(reserved, clause.text);
            && (parsed.Some? <==> AllUsable(reserved, es))
            && (parsed.Some? ==>
                  && parsed.value.1 == |clause.params|
                  && forall row: Row :: Selects(parsed.value.0, row, clause.params) <==> AllHold(row, es))
  {
    hide Lex, ParseOr, AllUsable, Selects, AllHold, Conj;
    var clause := ConditionClause(es);
    var tokens := JoinTokens(Word("AND"), CondParts(es));
    LexConj(es, "");
    LexEmpty();
    assert clause.text + "" == clause.text;
    assert Lex(clause.text) == tokens == tokens + [];
    ParseConj(reserved, es, [], 0);
    forall row: Row ensures Selects(Conj(es, 0), row, clause.params) <==> AllHold(row, es) {
      EvalConj(es, row, clause.params, 0);
    }
  }

  lemma LexEmpty()
    ensures Lex("") == []
  {
  }

  /** The tree a search is meant to be. */
  function MeantSearch(columns: seq<string>, es: Elements): Cond
    requires columns != []
  {
    if es == [] then Disj(columns, 0) else And(Disj(columns, 0), Conj(es, |columns|))
  }

  function SearchTokens(columns: seq<string>, es: Elements): seq<Token>
    requires columns != [] && Identifiers(columns) && ValidKeys(es)
  {
    [Sym('(')] + (JoinTokens(Word("OR"), LikeTests(columns)) + ([Sym(')')] +
      if es == [] then [] else [Word("AND"), Sym('(')] + (JoinTokens(Word("AND"), CondParts(es)) + [Sym(')')])))
  }

  lemma LexAndGroup(es: Elements)
    requires es != [] && ValidKeys(es)
    ensures Lex(" AND (" + Join(" AND ", Rendered(es)) + ")")
            == [Word("AND"), Sym('(')] + (JoinTokens(Word("AND"), CondParts(es)) + [Sym(')')])
  {
    hide Lex, JoinTokens, Join, CondParts;
    var conj := Join(" AND ", Rendered(es));
    var group := "(" + (conj + (")" + ""));
    assert " AND (" + conj + ")" == " " + "AND" + (" " + group);
    LexSpacedWord("AND", " " + group);
    LexSpace(group);
    LexSym('(', conj + (")" + ""));
    LexConj(es, ")" + "");
    LexSym(')', "");
    LexEmpty();
  }

  lemma LexSearch(columns: seq<string>, term: string, es: Elements)
    requires columns != [] && Identifiers(columns) && ValidKeys(es)
    ensures Lex(SearchClause(columns, term, es).text) == SearchTokens(columns, es)
  {
    hide Lex, JoinTokens, Join, LikeTests, CondParts;
    var like := Join(" OR ", LikeParts(columns));
    var tail := if es == [] then "" else " AND (" + Join(" AND ", Rendered(es)) + ")";
    assert SearchClause(columns, term, es).text == "(" + (like + (")" + tail));
    LexSym('(', like + (")" + tail));
    LexDisj(columns, ")" + tail);
    LexSym(')', tail);
    if es == [] { LexEmpty(); } else { LexAndGroup(es); }
  }

  lemma ParseGroup(reserved: set<string>, inner: seq<Token>, ts: seq<Token>, n: nat)
    ensures var group := ParseOr(reserved, inner + ([Sym(')')] + ts), n);
            ParseFactor(reserved, [Sym('(')] + (inner + ([Sym(')')] + ts)), n)
            == if group.Parsed? && Symbol(group.rest, ')')
               then Parsed(group.value, group.rest[1..], group.next) else Fail
  {
    var all := [Sym('(')] + (inner + ([Sym(')')] + ts));
    assert all[1..] == inner + ([Sym(')')] + ts);
  }

  /** A group with nothing after it is the whole condition. */
  lemma ParseAlone(reserved: set<string>, ts: seq<Token>, n: nat)
    requires var p := ParseFactor(reserved, ts, n); p.Parsed? ==> p.rest == []
    ensures ParseOr(reserved, ts, n) == ParseAnd(reserved, ts, n) == ParseFactor(reserved, ts, n)
  {
  }

  /** One group AND another. */
  lemma ParseBoth(reserved: set<string>, ts: seq<Token>, more: seq<Token>, n: nat)
    requires var p := ParseFactor(reserved, ts, n);
             p.Parsed? ==>
               && p.rest == [Word("AND")] + more
               && var q := ParseFactor(reserved, more, p.next); q.Parsed? ==> q.rest == []
    ensures ParseOr(reserved, ts, n)
            == var p := ParseFactor(reserved, ts, n);
               if p.Fail? then Fail else
               var q := ParseFactor(reserved, more, p.next);
               if q.Fail? then Fail else Parsed(And(p.value, q.value), [], q.next)
  {
    hide ParseFactor;
    Keywords();
    var p := ParseFactor(reserved, ts, n);
    if p.Parsed? {
      assert Keyword(p.rest, "AND") && p.rest[1..] == more;
      var q := ParseFactor(reserved, more, p.next);
      if q.Parsed? {
        assert AndTail(reserved, p.value, p.rest, p.next) == AndTail(reserved, And(p.value, q.value), [], q.next);
      }
    }
  }

  lemma ParseSearch(reserved: set<string>, columns: seq<string>, es: Elements)
    requires columns != [] && Identifiers(columns) && ValidKeys(es)
    ensures ParseOr(reserved, SearchTokens(columns, es), 0)
            == if AllUnreserved(reserved, columns) && AllUsable(reserved, es)
               then Parsed(MeantSearch(columns, es), [], |columns| + |AllParams(es)|) else Fail
  {
    hide ParseFactor, ParseOr, ParseAnd, JoinTokens, AllUnreserved, AllUsable, Disj, Conj, LikeTests, CondParts;
    Keywords();
    var likes, all := JoinTokens(Word("OR"), LikeTests(columns)), SearchTokens(columns, es);
    if es == [] {
      NothingUsable(reserved);
      assert all == [Sym('(')] + (likes + ([Sym(')')] + []));
      ParseGroup(reserved, likes, [], 0);
      ParseDisj(reserved, columns, [Sym(')')] + [], 0);
      assert ([Sym(')')] + [])[1..] == [];
      ParseAlone(reserved, all, 0);
    } else {
      var conds := JoinTokens(Word("AND"), CondParts(es));
      var second := [Sym('(')] + (conds + ([Sym(')')] + []));
      var tail := [Word("AND")] + second;
      assert all == [Sym('(')] + (likes + ([Sym(')')] + tail));
      ParseGroup(reserved, likes, tail, 0);
      ParseDisj(reserved, columns, [Sym(')')] + tail, 0);
      assert ([Sym(')')] + tail)[1..] == tail;
      ParseGroup(reserved, conds, [], |columns|);
      ParseConj(reserved, es, [Sym(')')] + [], |columns|);
      assert ([Sym(')')] + [])[1..] == [];
      ParseBoth(reserved, all, second, 0);
    }
  }

  lemma NothingUsable(reserved: set<string>)
    ensures AllUsable(reserved, []) && AllParams([]) == []
  {
  }

  /** The rows a search asks for. */
  ghost predicate Sought(row: Row, columns: seq<string>, term: string, es: Elements) {
    SomeContains(row, columns, term) && AllHold(row, es)
  }

  lemma EvalSearch(columns: seq<string>, term: string, es: Elements, row: Row)
    requires columns != []
    ensures Selects(MeantSearch(columns, es), row, SearchClause(columns, term, es).params)
            <==> Sought(row, columns, term, es)
  {
    hide SomeContains, Disj, Conj, LikePattern, AllParams;
    var params := SearchClause(columns, term, es).params;
    EvalDisj(columns, term, row, params, 0);
    if es != [] {
      EvalConj(es, row, params, |columns|);
    }
  }

  /** Compiling a search preserves its meaning. The text is accepted exactly when no column
      in it is reserved; its placeholders are as many as the values; and the rows it selects
      are exactly those where some column contains the term and every condition holds. */
  lemma SearchMeaning(reserved: set<string>, columns: seq<string>, term: string, es: Elements)
    requires columns != [] && Identifiers(columns) && ValidKeys(es)
    ensures var clause := SearchClause(columns, term, es);
            var parsed := ParseWhere(reserved, clause.text);
            && (parsed.Some? <==> AllUnreserved(reserved, columns) && AllUsable(reserved, es))
            && (parsed.Some? ==>
                  && parsed.value.1 == |clause.params|
                  && forall row: Row :: Selects(parsed.value.0, row, clause.params) <==> Sought(row, columns, term, es))
  {
    hide Lex, ParseOr, AllUnreserved, AllUsable, Selects, Sought, MeantSearch, SearchTokens;
    LexSearch(columns, term, es);
    ParseSearch(reserved, columns, es);
    NothingUsable(reserved);
    var clause := SearchClause(columns, term, es);
    forall row: Row ensures Selects(MeantSearch(columns, es), row, clause.params) <==> Sought(row, columns, term, es) {
      EvalSearch(columns, term, es, row);
    }
  }

  /** Without columns to search the text is not even a condition. */
  lemma SearchNeedsColumns(reserved: set<string>, term: string, es: Elements)
    ensures ParseWhere(reserved, SearchClause([], term, es).text) == None
  {
    hide Lex;
    var text := SearchClause([], term, es).text;
    assert Join(" OR ", LikeParts([])) == "";
    assert text[0] == '(' && text[1] == ')';
    var tail := text[2..];
    assert text == "(" + (")" + tail);
    LexSym('(', ")" + tail);
    LexSym(')', tail);
    var ts := Lex(text);
    assert ts[1..] == [Sym(')')] + Lex(tail);
    assert ParseOr(reserved, ts[1..], 0) == ParseAnd(reserved, ts[1..], 0) == ParseFactor(reserved, ts[1..], 0) == Fail;
    assert ParseFactor(reserved, ts, 0) == Fail;
    assert ParseAnd(reserved, ts, 0) == Fail;
    assert ParseOr(reserved, ts, 0) == Fail;
  }

  // ---- updates

  function UpdateTokens(columns: seq<string>, es: Elements): seq<Token>
    requires columns != [] && Identifiers(columns) && ValidKeys(es)
  {
    [Word("SET")] + (JoinTokens(Sym(','), SetTests(columns)) +
      if es == [] then [] else [Word("WHERE")] + JoinTokens(Word("AND"), CondParts(es)))
  }

  lemma LexWhere(es: Elements)
    requires es != [] && ValidKeys(es)
    ensures Lex(" WHERE " + Join(" AND ", Rendered(es))) == [Word("WHERE")] + JoinTokens(Word("AND"), CondParts(es))
  {
    hide Lex, JoinTokens, Join, CondParts;
    var conj := Join(" AND ", Rendered(es)) + "";
    assert " WHERE " + Join(" AND ", Rendered(es)) == " " + "WHERE" + (" " + conj);
    LexSpacedWord("WHERE", " " + conj);
    LexSpace(conj);
    LexConj(es, "");
    LexEmpty();
  }

  lemma LexUpdate(columns: seq<string>, values: seq<Value>, es: Elements)
    requires columns != [] && Identifiers(columns) && ValidKeys(es)
    ensures Lex(UpdateClause(columns, values, es).text) == UpdateTokens(columns, es)
  {
    hide Lex, JoinTokens, Join, SetTests, CondParts;
    var sets := Join(", ", SetParts(columns));
    var tail := if es == [] then "" else " WHERE " + Join(" AND ", Rendered(es));
    assert UpdateClause(columns, values, es).text == "SET" + (" " + (sets + tail));
    LexWord("SET", " " + (sets + tail));
    LexSpace(sets + tail);
    LexSets(columns, tail);
    if es == [] { LexEmpty(); } else { LexWhere(es); }
  }

  /** Compiling an update preserves its meaning: accepted exactly when no column in it is
      reserved, it sets each listed column to its own value, on exactly the rows for which
      every condition holds (all rows if there is none), and uses each parameter once. */
  lemma UpdateMeaning(reserved: set<string>, columns: seq<string>, values: seq<Value>, es: Elements)
    requires columns != [] && |columns| == |values| && Identifiers(columns) && ValidKeys(es)
    ensures var clause := UpdateClause(columns, values, es);
            var parsed := ParseUpdate(reserved, clause.text);
            && (parsed.Some? <==> AllUnreserved(reserved, columns) && AllUsable(reserved, es))
            && (parsed.Some? ==>
                  var (sets, where, count) := parsed.value;
                  && count == |clause.params|
                  && |sets| == |columns|
                  && (forall i, row: Row :: 0 <= i < |sets| ==>
                        sets[i].0 == Column(columns[i]) && Bound(sets[i].1, row, clause.params) == values[i])
                  && (where.None? <==> es == [])
                  && (where.Some? ==>
                        forall row: Row :: Selects(where.value, row, clause.params) <==> AllHold(row, es)))
  {
    hide Lex, ParseOr, ParseAssignments, JoinTokens, AllUnreserved, AllUsable;
    hide Selects, AllHold, Conj, SetTests, CondParts;
    Keywords();
    LexUpdate(columns, values, es);
    var clause := UpdateClause(columns, values, es);
    var sets := JoinTokens(Sym(','), SetTests(columns));
    var ts := UpdateTokens(columns, es);
    assert Lex(clause.text) == ts;
    if es == [] {
      NothingUsable(reserved);
      assert ts[1..] == sets + [];
      ParseSets(reserved, columns, [], 0);
    } else {
      var conds := JoinTokens(Word("AND"), CondParts(es));
      assert ts[1..] == sets + ([Word("WHERE")] + conds);
      ParseSets(reserved, columns, [Word("WHERE")] + conds, 0);
      assert ([Word("WHERE")] + conds)[1..] == conds + [];
      ParseConj(reserved, es, [], |columns|);
      forall row: Row ensures Selects(Conj(es, |columns|), row, clause.params) <==> AllHold(row, es) {
        EvalConj(es, row, clause.params, |columns|);
      }
    }
  }

  /** The identifier grammar lets reserved words through, and such a text is not what was
      meant: in a dialect that reserves ORDER, a condition on a column `order` is rejected. */
  lemma ReservedColumn(reserved: set<string>)
    requires "ORDER" in reserved
    ensures var es: Elements := [("order", Is(Text("x")))];
            ValidKeys(es) && ParseWhere(reserved, ConditionClause(es).text) == None
  {
    var es: Elements := [("order", Is(Text("x")))];
    WordLengthOf("order", "");
    assert "order" + "" == "order" && "order"[..5] == "order";
    assert Identifier("order");
    assert Capitals("order") == "ORDER";
    ConditionMeaning(reserved, es);
    assert !Usable(reserved, es[0].0, es[0].1);
  }
}
