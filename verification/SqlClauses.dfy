/** The query builder: conditions and search terms become SQL text with `?` placeholders
    and the list of values to bind to them. */
module SqlClauses {
  import opened Outcomes
  import opened SqlText
  import opened SqlLike

  datatype Value = Null | Text(text: string) | Num(n: int)

  /** What a caller asks of a column: one of a list or tuple, or a single value (None is Null). */
  datatype Condition = OneOf(values: seq<Value>) | Is(value: Value)

  /** A dictionary of conditions in its iteration order. */
  type Elements = seq<(string, Condition)>

  /** Query text and the values for its placeholders. */
  datatype Clause = Clause(text: string, params: seq<Value>)

  datatype Error = ValueError

  /** Letters, digits and underscores, not starting with a digit; dots between components. */
  predicate Identifier(s: string)
    decreases |s|
  {
    var n := WordLength(s);
    0 < n && !Digit(s[0]) && (n == |s| || (s[n] == '.' && Identifier(s[n + 1..])))
  }

  function Join(sep: string, parts: seq<string>): string {
    if |parts| == 0 then "" else if |parts| == 1 then parts[0] else parts[0] + sep + Join(sep, parts[1..])
  }

  function Marks(n: nat): seq<string> {
    seq(n, _ => "?")
  }

  function Render(key: string, cond: Condition): string {
    match cond
    case OneOf(values) => if values == [] then "1 = 0" else key + " IN(" + Join(", ", Marks(|values|)) + ") "
    case Is(Null) => key + " IS NULL"
    case Is(_) => key + " = ?"
  }

  function Params(cond: Condition): seq<Value> {
    match cond
    case OneOf(values) => values
    case Is(value) => if value == Null then [] else [value]
  }

  function Rendered(es: Elements): seq<string> {
    seq(|es|, i requires 0 <= i < |es| => Render(es[i].0, es[i].1))
  }

  function AllParams(es: Elements): seq<Value> {
    if es == [] then [] else Params(es[0].1) + AllParams(es[1..])
  }

  predicate Identifiers(names: seq<string>) {
    forall i :: 0 <= i < |names| ==> Identifier(names[i])
  }

  predicate ValidKeys(es: Elements) {
    forall i :: 0 <= i < |es| ==> Identifier(es[i].0)
  }

  function ConditionClause(es: Elements): Clause {
    Clause(Join(" AND ", Rendered(es)), AllParams(es))
  }

  function LikeParts(columns: seq<string>): seq<string> {
    seq(|columns|, i requires 0 <= i < |columns| => columns[i] + " LIKE ? ESCAPE '!'")
  }

  function LikeClause(columns: seq<string>, term: string): Clause {
    Clause(Join(" OR ", LikeParts(columns)), seq(|columns|, _ => Text(LikePattern(term))))
  }

  function SearchClause(columns: seq<string>, term: string, es: Elements): Clause {
    var like := LikeClause(columns, term);
    if es == [] then Clause("(" + like.text + ")", like.params)
    else
      var cond := ConditionClause(es);
      Clause("(" + like.text + ")" + " AND (" + cond.text + ")", like.params + cond.params)
  }

  function SetParts(columns: seq<string>): seq<string> {
    seq(|columns|, i requires 0 <= i < |columns| => columns[i] + " = ?")
  }

  function UpdateClause(columns: seq<string>, values: seq<Value>, es: Elements): Clause {
    var sets := "SET " + Join(", ", SetParts(columns));
    if es == [] then Clause(sets, values)
    else
      var cond := ConditionClause(es);
      Clause(sets + " WHERE " + cond.text, values + cond.params)
  }

  // ---- which names are identifiers

  /** [A-Za-z_][A-Za-z0-9_]* */
  predicate NamePart(p: string) {
    && p != ""
    && forall i :: 0 <= i < |p| ==>
         'A' <= p[i] <= 'Z' || 'a' <= p[i] <= 'z' || p[i] == '_' || (0 < i && '0' <= p[i] <= '9')
  }

  predicate Dotted(s: string, parts: seq<string>) {
    parts != [] && s == Join(".", parts) && forall i :: 0 <= i < |parts| ==> NamePart(parts[i])
  }

  lemma {:induction false} IdentifierParts(s: string) returns (parts: seq<string>)
    requires Identifier(s)
    ensures Dotted(s, parts)
    decreases |s|
  {
    var n := WordLength(s);
    assert NamePart(s[..n]) by {
      assert forall i :: 0 <= i < n ==> WordChar(s[..n][i]);
    }
    if n == |s| {
      parts := [s];
      assert s[..n] == s;
    } else {
      var rest := IdentifierParts(s[n + 1..]);
      parts := [s[..n]] + rest;
      assert parts[1..] == rest;
      assert s == s[..n] + "." + s[n + 1..];
    }
  }

  lemma {:induction false} DottedIdentifier(s: string, parts: seq<string>)
    requires Dotted(s, parts)
    ensures Identifier(s)
    decreases |parts|
  {
    var p := parts[0];
    assert NamePart(p);
    if |parts| == 1 {
      WordLengthOf(p, "");
      assert p + "" == p;
    } else {
      var rest := Join(".", parts[1..]);
      DottedIdentifier(rest, parts[1..]);
      WordLengthOf(p, "." + rest);
      assert s == p + ("." + rest);
      assert s[|p| + 1..] == rest;
    }
  }

  /** A name is accepted exactly if it is one or more parts of letters, digits and underscores,
      none of them empty or starting with a digit, with a dot between each two. */
  lemma IdentifierExact(s: string)
    ensures Identifier(s) <==> exists parts :: Dotted(s, parts)
  {
    hide Identifier, Dotted;
    if Identifier(s) {
      var _ := IdentifierParts(s);
    }
    forall parts | Dotted(s, parts) ensures Identifier(s) {
      DottedIdentifier(s, parts);
    }
  }

  // ---- the builder's own loops

  lemma {:induction false} AllParamsSnoc(es: Elements, e: (string, Condition))
    ensures AllParams(es + [e]) == AllParams(es) + Params(e.1)
  {
    if es == [] {
      assert es + [e] == [e];
    } else {
      assert (es + [e])[1..] == es[1..] + [e];
      AllParamsSnoc(es[1..], e);
    }
  }

  lemma RenderedNothing()
    ensures Rendered([]) == [] && AllParams([]) == []
  {
  }

  lemma RenderedSnoc(es: Elements, e: (string, Condition))
    ensures Rendered(es + [e]) == Rendered(es) + [Render(e.0, e.1)]
  {
    hide Render;
  }

  method PrepareCondition(elements: Elements) returns (r: Result<Clause, Error>)
    ensures r == if ValidKeys(elements) then Ok(ConditionClause(elements)) else Err(ValueError)
  {
    hide Identifier, Join, Rendered, AllParams;
    RenderedNothing();
    var q: seq<string>, v: seq<Value> := [], [];
    for i := 0 to |elements|
      invariant ValidKeys(elements[..i])
      invariant q == Rendered(elements[..i])
      invariant v == AllParams(elements[..i])
    {
      var (key, cond) := elements[i];
      if !Identifier(key) {
        return Err(ValueError);
      }
      assert elements[..i + 1] == elements[..i] + [elements[i]];
      RenderedSnoc(elements[..i], elements[i]);
      AllParamsSnoc(elements[..i], elements[i]);
      match cond
      case OneOf(values) =>
        if values == [] {
          q := q + ["1 = 0"];
          continue;
        }
        q := q + [key + " IN(" + Join(", ", Marks(|values|)) + ") "];
        v := v + values;
      case Is(value) =>
        if value != Null {
          q := q + [key + " = ?"];
          v := v + [value];
        } else {
          q := q + [key + " IS NULL"];
        }
    }
    assert elements[..|elements|] == elements;
    return Ok(Clause(Join(" AND ", q), v));
  }

  method PrepareCondLike(columns: seq<string>, value: string) returns (r: Result<Clause, Error>)
    ensures r == if Identifiers(columns) then Ok(LikeClause(columns, value)) else Err(ValueError)
  {
    var q: seq<string>, v: seq<Value> := [], [];
    for i := 0 to |columns|
      invariant Identifiers(columns[..i])
      invariant q == LikeParts(columns[..i])
      invariant v == seq(i, _ => Text(LikePattern(value)))
    {
      if !Identifier(columns[i]) {
        return Err(ValueError);
      }
      assert columns[..i + 1] == columns[..i] + [columns[i]];
      q := q + [columns[i] + " LIKE ? ESCAPE '!'"];
      v := v + [Text("%" + Replace(Replace(Replace(value, '!', "!!"), '%', "!%"), '_', "!_") + "%")];
    }
    assert columns[..|columns|] == columns;
    return Ok(Clause(Join(" OR ", q), v));
  }

  /** The WHERE part of `search`. */
  method Search(scolumns: seq<string>, svalue: string, conditions: Elements) returns (r: Result<Clause, Error>)
    ensures r == if Identifiers(scolumns) && ValidKeys(conditions)
                 then Ok(SearchClause(scolumns, svalue, conditions)) else Err(ValueError)
  {
    var like := PrepareCondLike(scolumns, svalue);
    if like.Err? {
      return like;
    }
    var query := "(" + like.value.text + ")";
    var condValues := like.value.params;
    if conditions != [] {
      var cond := PrepareCondition(conditions);
      if cond.Err? {
        return cond;
      }
      query := query + " AND (" + cond.value.text + ")";
      condValues := condValues + cond.value.params;
    }
    assert conditions != [] ==>
             query == "(" + like.value.text + ")" + " AND (" + ConditionClause(conditions).text + ")";
    return Ok(Clause(query, condValues));
  }

  /** The part of `update` after the table name. */
  method Update(columns: seq<string>, values: seq<Value>, conditions: Elements) returns (r: Result<Clause, Error>)
    ensures r == if columns != [] && |columns| == |values| && Identifiers(columns) && ValidKeys(conditions)
                 then Ok(UpdateClause(columns, values, conditions)) else Err(ValueError)
  {
    if |columns| != |values| || |columns| == 0 {
      return Err(ValueError);
    }
    for i := 0 to |columns|
      invariant Identifiers(columns[..i])
    {
      if !Identifier(columns[i]) {
        return Err(ValueError);
      }
    }
    assert columns[..|columns|] == columns;
    var query := "SET " + Join(", ", SetParts(columns));
    var condValues := [];
    if conditions != [] {
      var cond := PrepareCondition(conditions);
      if cond.Err? {
        return cond;
      }
      query := query + " WHERE " + cond.value.text;
      condValues := cond.value.params;
    }
    assert values + [] == values;
    return Ok(Clause(query, values + condValues));
  }
}
