/** The query builder of the postgres middleware: fixed arrays of conditions and values, filled by its blocks. */
module QueryBuilder {
  import opened QueryText
  import opened Concatenation

  const LIMIT: nat := 100

  /** pgParamCount. */
  method PgParamCount(query: string) returns (count: nat)
    ensures count == ParamCount(query)
  {
    count := 0;
    assert query[0..] == query;
    for i := 0 to |query|
      invariant count + ParamCount(query[i..]) == ParamCount(query)
    {
      assert query[i..][1..] == query[i + 1..];
      if query[i] == '$' {
        count := count + 1;
      }
    }
  }

  lemma {:induction false} ReplacedStep(s: string, i: nat, with: string)
    requires i < |s|
    ensures Replaced(s[i..], with) == (if s[i] == '$' then with else [s[i]]) + Replaced(s[i + 1..], with)
    ensures ParamCount(s[i..]) == (if s[i] == '$' then 1 else 0) + ParamCount(s[i + 1..])
  {
    assert s[i..][1..] == s[i + 1..];
  }

  /** What string_t's replace has written, `j` characters of it, and what is still to come. */
  ghost predicate Replacing(s: string, with: string, i: nat, newStr: array<char>, j: nat)
    reads newStr
  {
    && i <= |s| && j <= newStr.Length
    && newStr[..j] + Replaced(s[i..], with) == Replaced(s, with)
  }

  lemma ReplacingStart(s: string, with: string, newStr: array<char>)
    ensures Replacing(s, with, 0, newStr, 0)
  {
    assert s[0..] == s && newStr[..0] + Replaced(s, with) == Replaced(s, with);
  }

  /** strlcpy into the new string: the replacement and a NUL. */
  method Paste(newStr: array<char>, j: nat, with: string)
    requires j + |with| < newStr.Length
    modifies newStr
    ensures newStr[..j + |with|] == old(newStr[..j]) + with
  {
    for k := 0 to |with|
      invariant newStr[..j] == old(newStr[..j])
      invariant forall l :: 0 <= l < k ==> newStr[j + l] == with[l]
    {
      newStr[j + k] := with[k];
    }
    newStr[j + |with|] := '\0';
  }

  /** One turn of replace's loop. */
  method ReplaceTurn(s: string, with: string, i: nat, newStr: array<char>, j: nat) returns (next: nat)
    requires i < |s| && Replacing(s, with, i, newStr, j)
    requires j + (if s[i] == '$' then |with| else 1) < newStr.Length
    modifies newStr
    ensures next == j + (if s[i] == '$' then |with| else 1) && Replacing(s, with, i + 1, newStr, next)
  {
    ghost var before := newStr[..j];
    ReplacedStep(s, i, with);
    hide Replaced;
    if s[i] == '$' {
      Paste(newStr, j, with);
      next := j + |with|;
      Associate(before, with, Replaced(s[i + 1..], with));
    } else {
      newStr[j] := s[i];
      next := j + 1;
      assert newStr[..next] == before + [s[i]];
      Associate(before, [s[i]], Replaced(s[i + 1..], with));
    }
  }

  /** string_t's replace of "$". The new string has room for one replacement. */
  method Replace(s: string, with: string) returns (value: string)
    requires ParamCount(s) <= 1 && |with| >= 1
    ensures value == Replaced(s, with)
  {
    var newStr := new char[|s| + |with|];
    var j: nat := 0;
    ReplacingStart(s, with, newStr);
    assert s[0..] == s;
    for i := 0 to |s|
      invariant Replacing(s, with, i, newStr, j)
      invariant ParamCount(s[i..]) <= ParamCount(s) <= 1
      invariant j == if ParamCount(s[i..]) == ParamCount(s) then i else i + |with| - 1
    {
      ReplacedStep(s, i, with);
      hide Replacing, Replaced, ParamCount;
      j := ReplaceTurn(s, with, i, newStr, j);
    }
    assert s[|s|..] == "" && newStr[..j] + "" == newStr[..j];
    newStr[j] := '\0';
    value := newStr[..j];
  }

  /** A fixed array of strings and how many of them are in use. */
  class Strings {
    const items: array<string>
    var count: nat

    constructor ()
      ensures Valid() && Contents() == [] && fresh(items)
    {
      items := new string[LIMIT](i => "");
      count := 0;
    }

    ghost predicate Valid()
      reads this
    {
      count <= items.Length == LIMIT
    }

    ghost function Contents(): seq<string>
      requires Valid()
      reads this, items
    {
      items[..count]
    }

    method Add(item: string)
      requires Valid() && count < LIMIT
      modifies this`count, items
      ensures Valid() && Contents() == old(Contents()) + [item]
    {
      items[count] := item;
      count := count + 1;
    }

    /** The loop that joins the conditions. */
    method Join(intro: string, separator: string) returns (text: string)
      requires Valid()
      ensures text == Joined(intro, separator, Contents())
    {
      text := "";
      for i := 0 to count
        invariant text == Joined(intro, separator, items[..i])
      {
        assert items[..i + 1][..i] == items[..i];
        if i == 0 {
          text := intro + items[i];
        } else {
          text := text + separator + items[i];
        }
      }
    }
  }

  /** One of the optional parts that toSql puts behind the table's name. */
  function Part(intro: string, text: string): string {
    if text == "" then "" else intro + text
  }

  /** The order of the parts of a statement. */
  function Statement(select: string, table: string, joins: string, where: string, group: string, having: string,
                     limit: string, offset: string, order: string): string {
    select + " FROM " + table + Part(" ", joins) + where + Part(" GROUP BY ", group) + having
    + Part(" LIMIT ", limit) + Part(" OFFSET ", offset) + order
  }

  class QueryBuilder {
    const tableName: string
    const paramValues: Strings
    const whereConditions: Strings
    const havingConditions: Strings
    var selectConditions: seq<string>
    var orderConditions: seq<string>
    var limitCondition: string
    var offsetCondition: string
    var groupConditions: string
    var joinsConditions: string
    var distinctCondition: bool

    ghost predicate Valid()
      reads this, paramValues, whereConditions, havingConditions
    {
      && paramValues.Valid() && whereConditions.Valid() && havingConditions.Valid()
      && paramValues != whereConditions && paramValues != havingConditions && whereConditions != havingConditions
      && paramValues.items != whereConditions.items && paramValues.items != havingConditions.items
      && whereConditions.items != havingConditions.items
    }

    /** The conditions and values so far. */
    ghost function Value(): Query
      requires Valid()
      reads this, paramValues, whereConditions, havingConditions, paramValues.items, whereConditions.items,
          havingConditions.items
    {
      Query(whereConditions.Contents(), havingConditions.Contents(), paramValues.Contents())
    }

    constructor (tableName: string)
      ensures Valid() && Value() == EMPTY && this.tableName == tableName
      ensures selectConditions == [] && orderConditions == [] && !distinctCondition
      ensures limitCondition == "" && offsetCondition == "" && groupConditions == "" && joinsConditions == ""
      ensures fresh(paramValues) && fresh(whereConditions) && fresh(havingConditions)
      ensures fresh(paramValues.items) && fresh(whereConditions.items) && fresh(havingConditions.items)
    {
      this.tableName := tableName;
      paramValues := new Strings();
      whereConditions := new Strings();
      havingConditions := new Strings();
      selectConditions, orderConditions := [], [];
      limitCondition, offsetCondition, groupConditions, joinsConditions, distinctCondition := "", "", "", "", false;
    }

    /** The loop of where and having over their arguments. */
    method AddValues(args: seq<string>)
      requires Valid() && paramValues.count + |args| <= LIMIT
      modifies paramValues, paramValues.items
      ensures Valid() && Value() == old(Value()).(values := old(Value()).values + args)
    {
      ghost var before := Value();
      assert args[..0] == [] && before.values + [] == before.values;
      for j := 0 to |args|
        invariant Valid() && paramValues.count == |before.values| + j
        invariant Value() == before.(values := before.values + args[..j])
      {
        paramValues.Add(args[j]);
        assert before.values + args[..j] + [args[j]] == before.values + args[..j + 1];
      }
      assert args[..|args|] == args;
    }

    /** where: `args` are the variable arguments, one for each `$`. */
    method Where(condition: string, args: seq<string>)
      requires Valid() && |args| == ParamCount(condition) <= 1
      requires paramValues.count + |args| <= LIMIT && whereConditions.count < LIMIT
      modifies paramValues, paramValues.items, whereConditions, whereConditions.items
      ensures Valid() && Value() == Added(old(Value()), Call.Where(condition, args))
    {
      var nParams := PgParamCount(condition);
      var sequential := Replace(condition, Placeholder(paramValues.count + 1));
      hide Replaced, Placeholder;
      whereConditions.Add(sequential);
      AddValues(args[..nParams]);
      assert args[..nParams] == args;
    }

    /** having. */
    method Having(condition: string, args: seq<string>)
      requires Valid() && |args| == ParamCount(condition) <= 1
      requires paramValues.count + |args| <= LIMIT && havingConditions.count < LIMIT
      modifies paramValues, paramValues.items, havingConditions, havingConditions.items
      ensures Valid() && Value() == Added(old(Value()), Call.Having(condition, args))
    {
      var nParams := PgParamCount(condition);
      var sequential := Replace(condition, Placeholder(paramValues.count + 1));
      hide Replaced, Placeholder;
      havingConditions.Add(sequential);
      AddValues(args[..nParams]);
      assert args[..nParams] == args;
    }

    /** What whereIn has written so far, `i` placeholders of its list and their values, and what is still to come. */
    ghost predicate Listing(before: Query, open: string, values: seq<string>, i: nat, text: string)
      requires Valid()
      reads this, paramValues, whereConditions, havingConditions, paramValues.items, whereConditions.items,
          havingConditions.items
    {
      && i <= |values| && Value() == before.(values := before.values + values[..i])
      && text + InList(values[i..], |before.values| + i) == open + InList(values, |before.values|)
    }

    /** One turn of whereIn's loop. */
    method ListTurn(values: seq<string>, i: nat, text: string, ghost before: Query, ghost open: string)
      returns (next: string)
      requires Valid() && i < |values| && paramValues.count < LIMIT && Listing(before, open, values, i, text)
      modifies paramValues, paramValues.items
      ensures Valid() && Listing(before, open, values, i + 1, next) && paramValues.count == old(paramValues.count) + 1
    {
      InListStep(values, i, |before.values|, text);
      hide InList, Placeholder;
      next := text + Placeholder(paramValues.count + 1);
      if i != |values| - 1 {
        next := next + ",";
      }
      paramValues.Add(values[i]);
      assert before.values + values[..i] + [values[i]] == before.values + values[..i + 1];
    }

    /** whereIn. */
    method WhereIn(column: string, isIn: bool, values: seq<string>)
      requires Valid() && paramValues.count + |values| <= LIMIT && whereConditions.count < LIMIT
      modifies paramValues, paramValues.items, whereConditions, whereConditions.items
      ensures Valid() && Value() == Added(old(Value()), Call.WhereIn(column, isIn, values))
    {
      ghost var before := Value();
      var text := column + (if isIn then " IN (" else " NOT IN (");
      ghost var open := text;
      ListStart(before, values, text);
      for i := 0 to |values|
        invariant Valid() && paramValues.count == old(paramValues.count) + i
        invariant whereConditions.count == old(whereConditions.count)
        invariant Listing(before, open, values, i, text)
      {
        hide Listing;
        text := ListTurn(values, i, text, before, open);
      }
      ListEnd(before, open, values, text);
      hide Listing, InList;
      whereConditions.Add(text + ")");
    }

    lemma ListStart(before: Query, values: seq<string>, text: string)
      requires Valid() && before == Value()
      ensures Listing(before, text, values, 0, text)
    {
      hide InList;
      assert values[..0] == [] && values[0..] == values && before.values + [] == before.values;
    }

    lemma ListEnd(before: Query, open: string, values: seq<string>, text: string)
      requires Valid() && Listing(before, open, values, |values|, text)
      ensures Value() == before.(values := before.values + values) && text == open + InList(values, |before.values|)
    {
      assert values[..|values|] == values && text + "" == text;
    }

    /** The columns of the statement. */
    method SelectClause() returns (select: string)
      ensures select == (if distinctCondition then "SELECT DISTINCT " else "SELECT ")
                        + (if selectConditions == [] then "*" else Joined("", ",", selectConditions))
    {
      var columns := JoinAll("", ",", selectConditions);
      if selectConditions == [] {
        columns := "*";
      }
      select := (if distinctCondition then "SELECT DISTINCT " else "SELECT ") + columns;
    }

    /** The WHERE and HAVING parts. */
    method Conditions() returns (where: string, having: string)
      requires Valid()
      ensures where == WhereText(Value()) && having == HavingText(Value())
    {
      where := whereConditions.Join(" WHERE ", " AND ");
      having := havingConditions.Join(" HAVING ", " AND ");
    }

    /** toSql. strlcat leaves out the blank after the comma between the selected columns. */
    method ToSql() returns (sql: string)
      requires Valid()
      ensures sql == Statement(
                (if distinctCondition then "SELECT DISTINCT " else "SELECT ")
                + (if selectConditions == [] then "*" else Joined("", ",", selectConditions)),
                tableName, joinsConditions, WhereText(Value()), groupConditions, HavingText(Value()),
                limitCondition, offsetCondition, Joined(" ORDER BY ", ", ", orderConditions))
    {
      hide Joined, WhereText, HavingText;
      var select := SelectClause();
      var from := " FROM " + tableName;
      var joins := if |joinsConditions| > 0 then " " + joinsConditions else "";
      var where, having := Conditions();
      var group := if |groupConditions| > 0 then " GROUP BY " + groupConditions else "";
      var limit := if |limitCondition| > 0 then " LIMIT " + limitCondition else "";
      var offset := if |offsetCondition| > 0 then " OFFSET " + offsetCondition else "";
      var order := JoinAll(" ORDER BY ", ", ", orderConditions);
      sql := select + from + joins + where + group + having + limit + offset + order;
      Associate(select, " FROM ", tableName);
    }
  }

  /** The loop over the selected columns, and the one over the orders. */
  method JoinAll(intro: string, separator: string, conditions: seq<string>) returns (text: string)
    ensures text == Joined(intro, separator, conditions)
  {
    text := "";
    for i := 0 to |conditions|
      invariant text == Joined(intro, separator, conditions[..i])
    {
      assert conditions[..i + 1][..i] == conditions[..i];
      text := if i == 0 then intro + conditions[i] else text + separator + conditions[i];
    }
    assert conditions[..|conditions|] == conditions;
  }

  lemma {:induction false} InListStep(values: seq<string>, i: nat, n: nat, text: string)
    requires i < |values|
    ensures text + InList(values[i..], n + i)
         == (if i + 1 == |values| then text + Placeholder(n + i + 1) else text + Placeholder(n + i + 1) + ",")
            + InList(values[i + 1..], n + i + 1)
  {
    hide Placeholder;
    assert values[i..][1..] == values[i + 1..];
    if i + 1 == |values| {
      assert InList(values[i + 1..], n + i + 1) == "";
    }
  }

  /** The arrays have room for what some calls make. */
  predicate Fits(q: Query) {
    |q.where| <= LIMIT && |q.having| <= LIMIT && |q.values| <= LIMIT
  }

  /** One call of the builder's blocks. */
  method Do(builder: QueryBuilder, call: Call)
    requires builder.Valid() && Numberable(call) && Single(call) && Fits(Added(builder.Value(), call))
    modifies builder.paramValues, builder.paramValues.items, builder.whereConditions, builder.whereConditions.items
    modifies builder.havingConditions, builder.havingConditions.items
    ensures builder.Valid() && builder.Value() == Added(old(builder.Value()), call)
  {
    hide Replaced, InCondition, ParamCount, Plain;
    match call
    case Where(condition, args) => builder.Where(condition, args);
    case WhereIn(column, isIn, values) => builder.WhereIn(column, isIn, values);
    case Having(condition, args) => builder.Having(condition, args);
  }

  /** The text of a statement with conditions only. */
  function Select(table: string, q: Query): string {
    Statement("SELECT *", table, "", WhereText(q), "", HavingText(q), "", "", "")
  }

  lemma {:induction false} SelectPlaceholders(table: string, q: Query)
    requires '$' !in table
    ensures Placeholders(Select(table, q)) == Placeholders(WhereText(q)) + Placeholders(HavingText(q))
  {
    var head, where, having := "SELECT *" + " FROM " + table, WhereText(q), HavingText(q);
    HavingStart(q);
    SelectParts(table, q);
    hide Placeholders, WhereText, HavingText, Select;
    PlaceholdersAfter(head, where + having);
    PlaceholdersJoin(where, having);
  }

  lemma SelectParts(table: string, q: Query)
    ensures Select(table, q) == "SELECT *" + " FROM " + table + (WhereText(q) + HavingText(q))
    ensures '$' !in "SELECT *" + " FROM "
  {
    hide WhereText, HavingText;
    var head, where, having := "SELECT *" + " FROM " + table, WhereText(q), HavingText(q);
    assert head + "" + where + "" + having + "" + "" + "" == head + (where + having);
  }

  lemma {:induction false} JoinedStart(intro: string, separator: string, conditions: seq<string>)
    requires intro != ""
    ensures var s := Joined(intro, separator, conditions);
            if conditions == [] then s == "" else s != "" && s[0] == intro[0]
    decreases |conditions|
  {
    if |conditions| > 1 {
      JoinedStart(intro, separator, conditions[..|conditions| - 1]);
    }
  }

  lemma HavingStart(q: Query)
    ensures !StartsDigit(HavingText(q))
  {
    JoinedStart(" HAVING ", " AND ", q.having);
    hide Joined;
  }

  /** Makes some calls on a new builder. */
  method Make(table: string, calls: seq<Call>) returns (builder: QueryBuilder)
    requires Fits(Built(calls)) && forall c :: c in calls ==> Numberable(c) && Single(c)
    ensures builder.Valid() && builder.Value() == Built(calls) && builder.tableName == table
    ensures builder.selectConditions == [] && builder.orderConditions == [] && !builder.distinctCondition
    ensures builder.limitCondition == "" && builder.offsetCondition == ""
    ensures builder.groupConditions == "" && builder.joinsConditions == ""
  {
    builder := new QueryBuilder(table);
    assert calls[..0] == [] && calls[..|calls|] == calls;
    hide Numberable, Single, Added;
    for i := 0 to |calls|
      invariant builder.Valid() && builder.Value() == Built(calls[..i])
      invariant fresh(builder.paramValues) && fresh(builder.whereConditions) && fresh(builder.havingConditions)
      invariant fresh(builder.paramValues.items) && fresh(builder.whereConditions.items)
      invariant fresh(builder.havingConditions.items)
      modifies builder.paramValues, builder.paramValues.items, builder.whereConditions, builder.whereConditions.items
      modifies builder.havingConditions, builder.havingConditions.items
    {
      BuiltLess(calls, i + 1);
      BuiltNext(calls, i);
      hide Built;
      Do(builder, calls[i]);
    }
  }

  /**
   * A select that some calls made: each number from 1 to the number of values stands in its text exactly
   * once, and the value at the place of a number is the one given with it.
   */
  method Run(table: string, calls: seq<Call>) returns (sql: string, values: seq<string>)
    requires Fits(Built(calls)) && forall c :: c in calls ==> Numberable(c) && Single(c)
    ensures sql == Select(table, Built(calls)) && values == Built(calls).values
    ensures '$' !in table ==> Exact(multiset(Placeholders(sql)), |values|)
    ensures forall i, j :: 0 <= i < |calls| && 0 <= j < |Values(calls[i])| ==> Answers(calls, i, j, values)
  {
    hide Numberable, Single, Built, Placeholders, Exact, Values, Joined, WhereText, HavingText, Answers;
    var builder := Make(table, calls);
    sql := builder.ToSql();
    NoParts();
    values := builder.paramValues.items[..builder.paramValues.count];
    if '$' !in table {
      SelectExact(table, calls);
    }
    forall i, j | 0 <= i < |calls| && 0 <= j < |Values(calls[i])| ensures Answers(calls, i, j, values) {
      AnswersAt(calls, i, j);
    }
  }

  lemma NoParts()
    ensures "SELECT " + "*" == "SELECT *" && Joined(" ORDER BY ", ", ", []) == ""
  {
  }

  lemma SelectExact(table: string, calls: seq<Call>)
    requires '$' !in table && forall c :: c in calls ==> Numberable(c) && Single(c)
    ensures Exact(multiset(Placeholders(Select(table, Built(calls)))), |Built(calls).values|)
  {
    hide *;
    SelectPlaceholders(table, Built(calls));
    PlaceholdersExact(calls);
  }

  lemma AnswersAt(calls: seq<Call>, i: nat, j: nat)
    requires i < |calls| && j < |Values(calls[i])| && forall c :: c in calls ==> Numberable(c) && Single(c)
    ensures Answers(calls, i, j, Built(calls).values)
  {
    hide Numberable, Single, Built, Numbers, Values;
    ValueOfPlaceholder(calls, i, j);
  }

  /** The number that the `i`-th call wrote for its `j`-th value leads to that value. */
  predicate Answers(calls: seq<Call>, i: nat, j: nat, values: seq<string>)
    requires i < |calls| && j < |Values(calls[i])|
  {
    var numbers := Numbers(calls[i], |Built(calls[..i]).values|);
    j < |numbers| && 1 <= numbers[j] <= |values| && values[numbers[j] - 1] == Values(calls[i])[j]
  }
}
