/** Placeholders and values, character by character: they agree in number for every text the
    builder produces, reserved columns included, because no identifier contains a `?`. */
module SqlPlaceholders {
  import opened SqlText
  import opened SqlClauses

  function Count(s: string): nat {
    if s == "" then 0 else (if s[0] == '?' then 1 else 0) + Count(s[1..])
  }

  lemma {:induction false} CountConcat(a: string, b: string)
    ensures Count(a + b) == Count(a) + Count(b)
  {
    if a == "" {
      assert a + b == b;
    } else {
      assert (a + b)[1..] == a[1..] + b;
      CountConcat(a[1..], b);
    }
  }

  lemma {:induction false} CountNone(s: string)
    requires forall i :: 0 <= i < |s| ==> s[i] != '?'
    ensures Count(s) == 0
  {
    if s != "" { CountNone(s[1..]); }
  }

  lemma {:induction false} CountIdentifier(s: string)
    requires Identifier(s)
    ensures Count(s) == 0
    decreases |s|
  {
    var n := WordLength(s);
    CountNone(s[..n]);
    if n == |s| {
      assert s == s[..n];
    } else {
      CountIdentifier(s[n + 1..]);
      CountNone(".");
      CountConcat(".", s[n + 1..]);
      CountConcat(s[..n], "." + s[n + 1..]);
      assert s == s[..n] + ("." + s[n + 1..]);
    }
  }

  function Total(parts: seq<string>): nat {
    if parts == [] then 0 else Count(parts[0]) + Total(parts[1..])
  }

  lemma {:induction false} CountJoin(sep: string, parts: seq<string>)
    requires Count(sep) == 0
    ensures Count(Join(sep, parts)) == Total(parts)
    decreases |parts|
  {
    if 1 < |parts| {
      CountJoin(sep, parts[1..]);
      CountConcat(parts[0] + sep, Join(sep, parts[1..]));
      CountConcat(parts[0], sep);
    }
  }

  lemma {:induction false} TotalEach(parts: seq<string>)
    requires forall i :: 0 <= i < |parts| ==> Count(parts[i]) == 1
    ensures Total(parts) == |parts|
    decreases |parts|
  {
    if parts != [] { TotalEach(parts[1..]); }
  }

  lemma CountOne(key: string, tail: string)
    requires Identifier(key)
    ensures Count(key + tail) == Count(tail)
  {
    CountIdentifier(key);
    CountConcat(key, tail);
  }

  lemma CountMark()
    ensures Count("?") == 1
  {
  }

  lemma Literals()
    ensures Count(" = ?") == 1 && Count(" IS NULL") == 0 && Count("1 = 0") == 0
    ensures Count(" IN(") == 0 && Count(") ") == 0
    ensures Count(" LIKE ? ESCAPE '!'") == 1 && Count(", ") == 0 && Count(" AND ") == 0 && Count(" OR ") == 0
    ensures Count("?") == 1 && Count("(") == 0 && Count(")") == 0 && Count(" AND (") == 0
    ensures Count("SET ") == 0 && Count(" WHERE ") == 0
  {
    hide Count;
    assert Count("?") == 1 by { CountMark(); }
    CountNone(" = "); CountConcat(" = ", "?"); assert " = ?" == " = " + "?";
    CountNone(" IS NULL"); CountNone("1 = 0"); CountNone(" IN("); CountNone(") ");
    CountNone(" LIKE ");
    CountNone(" ESCAPE '!'");
    CountConcat(" LIKE ", "?" + " ESCAPE '!'");
    CountConcat("?", " ESCAPE '!'");
    assert " LIKE ? ESCAPE '!'" == " LIKE " + ("?" + " ESCAPE '!'");
    CountNone(", "); CountNone(" AND "); CountNone(" OR "); CountNone("("); CountNone(")");
    CountNone(" AND ("); CountNone("SET "); CountNone(" WHERE ");
  }

  lemma CountRender(key: string, cond: Condition)
    requires Identifier(key)
    ensures Count(Render(key, cond)) == |Params(cond)|
  {
    hide Count, Identifier;
    Literals();
    match cond
    case OneOf(values) =>
      if values != [] {
        var marks := Join(", ", Marks(|values|));
        TotalEach(Marks(|values|));
        CountJoin(", ", Marks(|values|));
        CountConcat(key + " IN(" + marks, ") ");
        CountConcat(key + " IN(", marks);
        CountOne(key, " IN(");
      }
    case Is(Null) => CountOne(key, " IS NULL");
    case Is(_) => CountOne(key, " = ?");
  }

  lemma {:induction false} TotalRendered(es: Elements)
    requires ValidKeys(es)
    ensures Total(Rendered(es)) == |AllParams(es)|
    decreases |es|
  {
    hide Count, Render, Identifier;
    if es != [] {
      CountRender(es[0].0, es[0].1);
      assert Rendered(es)[1..] == Rendered(es[1..]);
      TotalRendered(es[1..]);
    }
  }

  /** As many placeholders as values, in conditions, */
  lemma ConditionPlaceholders(es: Elements)
    requires ValidKeys(es)
    ensures Count(ConditionClause(es).text) == |ConditionClause(es).params|
  {
    Literals();
    CountJoin(" AND ", Rendered(es));
    TotalRendered(es);
  }

  /** in searches, */
  lemma SearchPlaceholders(columns: seq<string>, term: string, es: Elements)
    requires Identifiers(columns) && ValidKeys(es)
    ensures Count(SearchClause(columns, term, es).text) == |SearchClause(columns, term, es).params|
  {
    hide Count, Identifier;
    Literals();
    forall i | 0 <= i < |columns| ensures Count(LikeParts(columns)[i]) == 1 {
      CountOne(columns[i], " LIKE ? ESCAPE '!'");
    }
    TotalEach(LikeParts(columns));
    CountJoin(" OR ", LikeParts(columns));
    var like, cond := LikeClause(columns, term).text, ConditionClause(es).text;
    CountConcat("(", like);
    CountConcat("(" + like, ")");
    ConditionPlaceholders(es);
    CountConcat("(" + like + ")" + " AND (" + cond, ")");
    CountConcat("(" + like + ")" + " AND (", cond);
    CountConcat("(" + like + ")", " AND (");
    assert "(" + like + ")" + " AND (" + cond + ")" == ("(" + like + ")") + (" AND (" + cond + ")");
  }

  /** and in updates. */
  lemma UpdatePlaceholders(columns: seq<string>, values: seq<Value>, es: Elements)
    requires |columns| == |values| && Identifiers(columns) && ValidKeys(es)
    ensures Count(UpdateClause(columns, values, es).text) == |UpdateClause(columns, values, es).params|
  {
    hide Count, Identifier;
    Literals();
    forall i | 0 <= i < |columns| ensures Count(SetParts(columns)[i]) == 1 { CountOne(columns[i], " = ?"); }
    TotalEach(SetParts(columns));
    CountJoin(", ", SetParts(columns));
    var sets, cond := Join(", ", SetParts(columns)), ConditionClause(es).text;
    CountConcat("SET ", sets);
    ConditionPlaceholders(es);
    CountConcat("SET " + sets + " WHERE ", cond);
    CountConcat("SET " + sets, " WHERE ");
  }
}
