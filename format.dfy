/**
 * The clause formatter (`FORMAT` in src/server/functions/FORMAT.ts): turns a
 * column mapping into an SQL fragment with `?` placeholders and the parameter
 * list that goes with it. Every function here is pure; in particular none of
 * them changes the mapping it is given, and each result depends only on the
 * table name and the mapping.
 */
module Format {
  import opened Wrappers
  import opened Strings
  import opened JsValues
  import opened Placeholders

  /** The `[string, any[]]` pair every formatter returns. */
  datatype Fragment = Fragment(sql: string, params: seq<Value>)

  /** An optional mapping read as its entries; an absent one has none. */
  function Entries(m: Option<Mapping>): Mapping
  {
    if m.Some? then m.value else []
  }

  /** `${tableName}.${key}${op}?`, one condition on a column of the table. */
  function Condition(table: string, key: string, op: string): string
  {
    table + "." + key + op + "?"
  }

  function Conditions(table: string, keys: seq<string>, op: string): (r: seq<string>)
    ensures |r| == |keys|
    ensures forall i :: 0 <= i < |keys| ==> r[i] == Condition(table, keys[i], op)
  {
    seq(|keys|, i requires 0 <= i < |keys| => Condition(table, keys[i], op))
  }

  /** A condition with its placeholder already holding `v`. */
  function BoundCondition(table: string, key: string, op: string, v: Value): string
  {
    table + "." + key + op + Literal(v)
  }

  function BoundConditions(table: string, keys: seq<string>, vs: seq<Value>, op: string): (r: seq<string>)
    requires |vs| == |keys|
    ensures |r| == |keys|
    ensures forall i :: 0 <= i < |keys| ==> r[i] == BoundCondition(table, keys[i], op, vs[i])
  {
    seq(|keys|, i requires 0 <= i < |keys| => BoundCondition(table, keys[i], op, vs[i]))
  }

  /** `whereClause`: equality conditions joined by ` AND `, parameters the mapping's values. */
  function WhereClause(table: string, where: Option<Mapping>): (r: Fragment)
    ensures r.params == Values(Entries(where))
    ensures r.sql == "" <==> Entries(where) == []
  {
    match where
    case None => Fragment("", [])
    case Some(m) =>
      var conds := Conditions(table, Keys(m), " = ");
      Fragment(Join(conds, " AND "), Values(m))
  }

  /** `${key} = ?`, one assignment of a SET list. */
  function Assignment(key: string): string
  {
    key + " = ?"
  }

  function Assignments(keys: seq<string>): (r: seq<string>)
    ensures |r| == |keys|
    ensures forall i :: 0 <= i < |keys| ==> r[i] == Assignment(keys[i])
  {
    seq(|keys|, i requires 0 <= i < |keys| => Assignment(keys[i]))
  }

  /** An assignment with its placeholder already holding `v`. */
  function BoundAssignment(key: string, v: Value): string
  {
    key + " = " + Literal(v)
  }

  function BoundAssignments(m: Mapping): (r: seq<string>)
    ensures |r| == |m|
    ensures forall i :: 0 <= i < |m| ==> r[i] == BoundAssignment(m[i].0, m[i].1)
  {
    seq(|m|, i requires 0 <= i < |m| => BoundAssignment(m[i].0, m[i].1))
  }

  /** `setClause`: `k = ?` assignments joined by `, `, parameters the mapping's values. */
  function SetClause(values: Mapping): (r: Fragment)
    ensures r.params == Values(values)
    ensures r.sql == "" <==> values == []
  {
    var assigns := Assignments(Keys(values));
    Fragment(Join(assigns, ", "), Values(values))
  }

  /** `%${value}%`: the parameter `likeClause` pushes for each value. */
  function Pattern(v: Value): Value
  {
    Str("%" + Text(v) + "%")
  }

  function Patterns(vs: seq<Value>): (r: seq<Value>)
    ensures |r| == |vs|
    ensures forall i :: 0 <= i < |vs| ==> r[i] == Pattern(vs[i])
  {
    seq(|vs|, i requires 0 <= i < |vs| => Pattern(vs[i]))
  }

  /**
   * The `map` callback of `likeClause` from position `index` on, joined with
   * `''`: the condition at index 0 opens the group with `(`, every later one
   * is preceded by ` OR `. So the output is the opening `(` or ` OR `
   * followed by the conditions joined by ` OR `.
   */
  function LikeGroup(table: string, keys: seq<string>, index: nat): (r: string)
    ensures keys == [] ==> r == ""
    ensures keys != [] ==> r == (if index == 0 then "(" else " OR ") + Join(Conditions(table, keys, " LIKE "), " OR ")
  {
    if keys == [] then ""
    else
      var cond := table + "." + keys[0] + " LIKE ?";
      var rest := LikeGroup(table, keys[1..], index + 1);
      var conds := Conditions(table, keys, " LIKE ");
      assert cond == conds[0];
      if |keys| > 1 then
        assert conds[1..] == Conditions(table, keys[1..], " LIKE ");
        assert Join(conds, " OR ") == cond + " OR " + Join(conds[1..], " OR ");
        (if index == 0 then "(" + cond else " OR " + cond) + rest
      else
        (if index == 0 then "(" + cond else " OR " + cond) + rest
  }

  /**
   * `likeClause`: an absent mapping gives nothing; a present one gives the
   * group followed by `)`, even when the mapping is empty, and one pattern
   * parameter per value.
   */
  function LikeClause(table: string, like: Option<Mapping>): (r: Fragment)
    ensures r.params == Patterns(Values(Entries(like)))
    ensures like.None? ==> r.sql == ""
    ensures like == Some([]) ==> r.sql == ")"
    ensures r.sql == "" <==> like.None?
  {
    match like
    case None => Fragment("", [])
    case Some(m) => Fragment(LikeGroup(table, Keys(m), 0) + ")", Patterns(Values(m)))
  }

  // ---------------------------------------------------------------------
  // Properties

  /** Names that cannot be mistaken for placeholders. */
  predicate PlainNames(table: string, m: Mapping)
  {
    '?' !in table && PlainKeys(m)
  }

  lemma ConditionsEndInHole(table: string, keys: seq<string>, op: string)
    requires '?' !in table && '?' !in op
    requires forall i :: 0 <= i < |keys| ==> '?' !in keys[i]
    ensures AllEndInHole(Conditions(table, keys, op))
  {
    var conds := Conditions(table, keys, op);
    forall i | 0 <= i < |keys|
      ensures EndsInHole(conds[i])
    {
      var pre := table + "." + keys[i] + op;
      assert conds[i] == pre + "?";
      assert conds[i][..|conds[i]| - 1] == pre;
    }
  }

  lemma FilledConditions(table: string, keys: seq<string>, vs: seq<Value>, op: string)
    requires '?' !in table && '?' !in op && |vs| == |keys|
    requires forall i :: 0 <= i < |keys| ==> '?' !in keys[i]
    ensures AllEndInHole(Conditions(table, keys, op))
    ensures Filled(Conditions(table, keys, op), vs) == BoundConditions(table, keys, vs, op)
  {
    ConditionsEndInHole(table, keys, op);
    var conds := Conditions(table, keys, op);
    forall i | 0 <= i < |keys|
      ensures conds[i][..|conds[i]| - 1] == table + "." + keys[i] + op
    {
      assert conds[i] == (table + "." + keys[i] + op) + "?";
    }
  }

  /**
   * The WHERE fragment and its parameters line up: there are as many
   * placeholders as parameters, and filling them in gives, in key order,
   * `<table>.<key> = <value>` for each entry, joined by ` AND `.
   */
  lemma WhereClauseAligned(table: string, where: Option<Mapping>)
    requires PlainNames(table, Entries(where))
    ensures PlaceholderCount(WhereClause(table, where).sql) == |WhereClause(table, where).params|
    ensures Spliced(WhereClause(table, where).sql, WhereClause(table, where).params)
         == Join(BoundConditions(table, Keys(Entries(where)), Values(Entries(where)), " = "), " AND ")
  {
    var m := Entries(where);
    FilledConditions(table, Keys(m), Values(m), " = ");
    var conds := Conditions(table, Keys(m), " = ");
    if where.Some? {
      JoinHolesCount(conds, " AND ");
      JoinHolesSpliced(conds, " AND ", Values(m));
    }
  }

  lemma AssignmentHole(key: string)
    requires '?' !in key
    ensures EndsInHole(Assignment(key))
    ensures Assignment(key)[..|Assignment(key)| - 1] == key + " = "
  {
    var pre := key + " = ";
    assert Assignment(key) == pre + "?";
    assert Assignment(key)[..|Assignment(key)| - 1] == pre;
  }

  lemma AssignmentsEndInHole(m: Mapping)
    requires PlainKeys(m)
    ensures AllEndInHole(Assignments(Keys(m)))
    ensures Filled(Assignments(Keys(m)), Values(m)) == BoundAssignments(m)
  {
    var assigns := Assignments(Keys(m));
    forall i | 0 <= i < |m|
      ensures EndsInHole(assigns[i])
      ensures assigns[i][..|assigns[i]| - 1] == m[i].0 + " = "
    {
      AssignmentHole(m[i].0);
    }
  }

  /**
   * The SET fragment and its parameters line up: as many placeholders as
   * parameters, and filling them in gives `<key> = <value>` per entry, in order.
   */
  lemma SetClauseAligned(values: Mapping)
    requires PlainKeys(values)
    ensures PlaceholderCount(SetClause(values).sql) == |SetClause(values).params|
    ensures Spliced(SetClause(values).sql, SetClause(values).params) == Join(BoundAssignments(values), ", ")
  {
    AssignmentsEndInHole(values);
    JoinHolesCount(Assignments(Keys(values)), ", ");
    JoinHolesSpliced(Assignments(Keys(values)), ", ", Values(values));
  }

  /** `setClause({a: 1, b: "x"})` is `["a = ?, b = ?", [1, "x"]]`. */
  lemma SetClauseExample()
    ensures SetClause([("a", Num(1)), ("b", Str("x"))]) == Fragment("a = ?, b = ?", [Num(1), Str("x")])
  {
    var m := [("a", Num(1)), ("b", Str("x"))];
    assert Keys(m) == ["a", "b"];
    assert Values(m) == [Num(1), Str("x")];
  }

  /**
   * A present, non-empty mapping gives `(c1 OR c2 OR … )` with
   * `ci = <table>.<key_i> LIKE ?`.
   */
  lemma LikeClauseShape(table: string, m: Mapping)
    requires m != []
    ensures LikeClause(table, Some(m)).sql == "(" + Join(Conditions(table, Keys(m), " LIKE "), " OR ") + ")"
  {
    assert LikeGroup(table, Keys(m), 0) == "(" + Join(Conditions(table, Keys(m), " LIKE "), " OR ");
  }

  /** Parentheses around a fragment hold no placeholder of their own. */
  lemma ParenthesisedSpliced(inner: string, ps: seq<Value>)
    requires PlaceholderCount(inner) == |ps|
    ensures PlaceholderCount("(" + inner + ")") == |ps|
    ensures Spliced("(" + inner + ")", ps) == "(" + Spliced(inner, ps) + ")"
  {
    assert "(" + inner + ")" == "(" + (inner + ")");
    SplicedAfterPlain("(", inner + ")", ps);
    CountAbsent(")", '?');
    SplicedSequence(inner, ")", ps, []);
    SplicedPlain(")", []);
    assert ps + [] == ps;
  }

  /**
   * The LIKE fragment and its parameters line up: as many placeholders as
   * parameters (also for the lone `)` of an empty mapping), and for a
   * non-empty mapping filling them in gives `(<table>.<key> LIKE '%<value>%' OR …)`.
   */
  lemma LikeClauseAligned(table: string, like: Option<Mapping>)
    requires PlainNames(table, Entries(like))
    ensures PlaceholderCount(LikeClause(table, like).sql) == |LikeClause(table, like).params|
    ensures Entries(like) != [] ==>
      Spliced(LikeClause(table, like).sql, LikeClause(table, like).params)
      == "(" + Join(BoundConditions(table, Keys(Entries(like)), Patterns(Values(Entries(like))), " LIKE "), " OR ") + ")"
  {
    var m := Entries(like);
    var r := LikeClause(table, like);
    if like == Some([]) {
      assert r.sql == ")";
      CountAbsent(")", '?');
    } else if like.Some? {
      var ps := Patterns(Values(m));
      var conds := Conditions(table, Keys(m), " LIKE ");
      LikeClauseShape(table, m);
      FilledConditions(table, Keys(m), ps, " LIKE ");
      JoinHolesCount(conds, " OR ");
      JoinHolesSpliced(conds, " OR ", ps);
      ParenthesisedSpliced(Join(conds, " OR "), ps);
    }
  }
}
