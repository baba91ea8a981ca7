/** The text of a statement, part by part and place by place. */
module QuerySpelling {
  import opened QueryText
  import opened QueryBuilder

  /** `part` is the text at `p`. */
  predicate Stands(text: string, p: nat, part: string) {
    p + |part| <= |text| && text[p..p + |part|] == part
  }

  /** Where the condition at `i` stands, when each takes its own length and that of a separator. */
  function Place(intro: nat, separator: nat, conditions: seq<string>, i: nat): nat
    requires i <= |conditions|
  {
    if i == 0 then intro else Place(intro, separator, conditions, i - 1) + |conditions[i - 1]| + separator
  }

  lemma {:induction false} PlaceFront(intro: nat, separator: nat, conditions: seq<string>, n: nat, i: nat)
    requires i <= n <= |conditions|
    ensures Place(intro, separator, conditions[..n], i) == Place(intro, separator, conditions, i)
  {
    if i > 0 {
      PlaceFront(intro, separator, conditions, n, i - 1);
    }
  }

  lemma {:induction false} JoinedLength(intro: string, separator: string, conditions: seq<string>)
    requires conditions != []
    ensures |Joined(intro, separator, conditions)| + |separator|
         == Place(|intro|, |separator|, conditions, |conditions|)
    decreases |conditions|
  {
    var n := |conditions| - 1;
    if n > 0 {
      JoinedLength(intro, separator, conditions[..n]);
      PlaceFront(|intro|, |separator|, conditions, n, n);
    } else {
      assert Place(|intro|, |separator|, conditions, 0) == |intro|;
    }
  }

  lemma StandsBefore(text: string, p: nat, part: string, more: string)
    requires Stands(text, p, part)
    ensures Stands(text + more, p, part)
  {
  }

  lemma StandsLast(front: string, part: string)
    ensures Stands(front + part, |front|, part)
  {
  }

  /**
   * The joined conditions: the introduction, then each condition in its place, with the separator and nothing
   * else between it and the one before.
   */
  lemma {:induction false} JoinedStands(intro: string, separator: string, conditions: seq<string>, i: nat)
    requires i < |conditions|
    ensures var text, p := Joined(intro, separator, conditions), Place(|intro|, |separator|, conditions, i);
            && Stands(text, p, conditions[i])
            && (if i == 0 then Stands(text, 0, intro) && p == |intro|
                else p >= |separator| && Stands(text, p - |separator|, separator))
            && |text| + |separator| == Place(|intro|, |separator|, conditions, |conditions|)
    decreases |conditions|
  {
    hide Joined, Stands, Place;
    var n := |conditions| - 1;
    JoinedLength(intro, separator, conditions);
    PlaceStart(|intro|, |separator|, conditions);
    if n == 0 {
      JoinedSingle(intro, separator, conditions);
    } else {
      var front := Joined(intro, separator, conditions[..n]);
      JoinedMore(intro, separator, conditions);
      JoinedLength(intro, separator, conditions[..n]);
      PlaceFront(|intro|, |separator|, conditions, n, n);
      PlaceFront(|intro|, |separator|, conditions, n, i);
      if i < n {
        JoinedStands(intro, separator, conditions[..n], i);
        StandsFurther(front, separator, conditions[n]);
      } else {
        StandsLast(front + separator, conditions[n]);
        StandsLast(front, separator);
        StandsBefore(front + separator, |front|, separator, conditions[n]);
      }
    }
  }

  lemma PlaceStart(intro: nat, separator: nat, conditions: seq<string>)
    ensures Place(intro, separator, conditions, 0) == intro
  {
  }

  lemma {:induction false} JoinedMore(intro: string, separator: string, conditions: seq<string>)
    requires |conditions| > 1
    ensures Joined(intro, separator, conditions)
         == Joined(intro, separator, conditions[..|conditions| - 1]) + separator + conditions[|conditions| - 1]
  {
  }

  lemma {:induction false} JoinedSingle(intro: string, separator: string, conditions: seq<string>)
    requires |conditions| == 1
    ensures Stands(Joined(intro, separator, conditions), 0, intro)
    ensures Stands(Joined(intro, separator, conditions), |intro|, conditions[0])
  {
  }

  lemma StandsFurther(front: string, separator: string, last: string)
    ensures forall p, part :: Stands(front, p, part) ==> Stands((front + separator) + last, p, part)
  {
    forall p, part | Stands(front, p, part) ensures Stands((front + separator) + last, p, part) {
      StandsBefore(front, p, part, separator);
      StandsBefore(front + separator, p, part, last);
    }
  }

  /** The conditions of the WHERE part, each behind " WHERE " or " AND ". */
  lemma {:induction false} WhereStands(q: Query, i: nat)
    requires i < |q.where|
    ensures var p := Place(7, 5, q.where, i);
            && p >= 7 && Stands(WhereText(q), p, q.where[i])
            && (if i == 0 then Stands(WhereText(q), 0, " WHERE ") && p == 7 else Stands(WhereText(q), p - 5, " AND "))
            && |WhereText(q)| + 5 == Place(7, 5, q.where, |q.where|)
  {
    JoinedStands(" WHERE ", " AND ", q.where, i);
    PlaceLow(7, 5, q.where, i);
    hide Joined;
  }

  lemma {:induction false} HavingStands(q: Query, i: nat)
    requires i < |q.having|
    ensures var p := Place(8, 5, q.having, i);
            && p >= 8 && Stands(HavingText(q), p, q.having[i])
            && (if i == 0 then Stands(HavingText(q), 0, " HAVING ") && p == 8
                else Stands(HavingText(q), p - 5, " AND "))
            && |HavingText(q)| + 5 == Place(8, 5, q.having, |q.having|)
  {
    JoinedStands(" HAVING ", " AND ", q.having, i);
    PlaceLow(8, 5, q.having, i);
    hide Joined;
  }

  lemma {:induction false} PlaceLow(intro: nat, separator: nat, conditions: seq<string>, i: nat)
    requires i <= |conditions|
    ensures Place(intro, separator, conditions, i) >= intro
  {
    if i > 0 {
      PlaceLow(intro, separator, conditions, i - 1);
    }
  }

  /** The placeholders numbered on from `n`, with commas between. */
  lemma {:induction false} InListJoined(values: seq<string>, n: nat)
    ensures InList(values, n) == Joined("", ",", seq(|values|, i requires 0 <= i < |values| => Placeholder(n + 1 + i)))
    decreases |values|
  {
    var all := seq(|values|, i requires 0 <= i < |values| => Placeholder(n + 1 + i));
    hide Placeholder;
    if |values| > 1 {
      var rest := seq(|values| - 1, i requires 0 <= i < |values| - 1 => Placeholder(n + 2 + i));
      InListJoined(values[1..], n + 1);
      assert all == [Placeholder(n + 1)] + rest;
      assert rest == seq(|values[1..]|, i requires 0 <= i < |values[1..]| => Placeholder(n + 1 + 1 + i));
      JoinedFirst(",", Placeholder(n + 1), rest);
    }
  }

  lemma {:induction false} JoinedFirst(separator: string, first: string, rest: seq<string>)
    requires rest != []
    ensures Joined("", separator, [first] + rest) == first + (separator + Joined("", separator, rest))
    decreases |rest|
  {
    var k := |rest| - 1;
    JoinedLast(separator, [first] + rest);
    assert ([first] + rest)[..k + 1] == [first] + rest[..k] && ([first] + rest)[k + 1] == rest[k];
    if k > 0 {
      JoinedFirst(separator, first, rest[..k]);
      JoinedLast(separator, rest);
      Four(first, separator, Joined("", separator, rest[..k]), separator, rest[k]);
    } else {
      assert [first] + rest[..0] == [first] && rest == [rest[0]];
      JoinedOne(separator, first);
      JoinedOne(separator, rest[0]);
      hide Joined;
    }
  }

  lemma {:induction false} JoinedLast(separator: string, list: seq<string>)
    requires |list| > 1
    ensures Joined("", separator, list)
         == Joined("", separator, list[..|list| - 1]) + separator + list[|list| - 1]
  {
  }

  lemma JoinedOne(separator: string, s: string)
    ensures Joined("", separator, [s]) == s
  {
  }

  lemma Four(a: string, b: string, c: string, d: string, e: string)
    ensures (a + (b + c)) + d + e == a + (b + (c + d + e))
  {
  }

  /** One `$` in a condition: the number stands in its place, and the rest of the condition is kept. */
  lemma {:induction false} ReplacedOne(before: string, after: string, with: string)
    requires '$' !in before && '$' !in after
    ensures Replaced(before + "$" + after, with) == before + with + after
    decreases |before|
  {
    if before == "" {
      assert ("" + "$" + after)[1..] == after && "" + with + after == with + after;
      ReplacedNone(after, with);
    } else {
      ReplacedOne(before[1..], after, with);
      KeptFirst(before, "$" + after, with);
      hide Replaced;
      Regrouped(before, "$", after);
      Regrouped(before[1..], "$", after);
      Regrouped(before, with, after);
      Regrouped(before[1..], with, after);
      assert [before[0]] + (before[1..] + (with + after)) == before + (with + after);
    }
  }

  lemma Regrouped(a: string, b: string, c: string)
    ensures a + b + c == a + (b + c)
  {
  }

  lemma {:induction false} KeptFirst(before: string, s: string, with: string)
    requires before != "" && before[0] != '$'
    ensures Replaced(before + s, with) == [before[0]] + Replaced(before[1..] + s, with)
  {
    assert (before + s)[1..] == before[1..] + s;
  }

  lemma {:induction false} ReplacedNone(s: string, with: string)
    requires '$' !in s
    ensures Replaced(s, with) == s
  {
    if s != "" {
      ReplacedNone(s[1..], with);
    }
  }

  function Concat(parts: seq<string>): string {
    if parts == [] then "" else parts[0] + Concat(parts[1..])
  }

  lemma {:induction false} ConcatAdd(a: seq<string>, b: seq<string>)
    ensures Concat(a + b) == Concat(a) + Concat(b)
    decreases |a|
  {
    if a == [] {
      assert a + b == b;
    } else {
      assert (a + b)[1..] == a[1..] + b;
      ConcatAdd(a[1..], b);
    }
  }

  lemma ConcatOne(a: seq<string>, s: string)
    ensures Concat(a) + s == Concat(a + [s])
  {
    ConcatAdd(a, [s]);
    assert Concat([s]) == s + Concat([s][1..]);
  }

  lemma ConcatTwo(a: seq<string>, s: string, t: string)
    ensures Concat(a) + (s + t) == Concat(a + [s, t])
  {
    ConcatOne(a, s);
    ConcatOne(a + [s], t);
    assert a + [s] + [t] == a + [s, t];
  }

  lemma PartText(a: seq<string>, intro: string, text: string)
    ensures Concat(a) + Part(intro, text) == Concat(a + if text == "" then [] else [intro, text])
  {
    if text == "" {
      assert a + [] == a && Concat(a) + "" == Concat(a);
    } else {
      ConcatTwo(a, intro, text);
    }
  }

  lemma {:induction false} TwoJoined(intro: string, separator: string, first: string, second: string)
    ensures Joined(intro, separator, [first, second]) == Concat([intro, first, separator, second])
  {
    assert [first, second][..1] == [first];
    assert Concat([]) == "";
    ConcatTwo([], intro, first);
    ConcatOne([intro, first], separator);
    ConcatOne([intro, first, separator], second);
    hide Concat;
    assert [] + [intro, first] == [intro, first];
    assert "" + (intro + first) == intro + first;
    assert [intro, first] + [separator] == [intro, first, separator];
    assert [intro, first, separator] + [second] == [intro, first, separator, second];
  }

  /** A list of two at the end of a text. */
  lemma {:induction false} TwoBehind(a: seq<string>, intro: string, separator: string, list: seq<string>)
    requires |list| == 2
    ensures Concat(a) + Joined(intro, separator, list) == Concat(a + [intro, list[0], separator, list[1]])
  {
    hide Joined, Concat;
    assert list == [list[0], list[1]];
    TwoJoined(intro, separator, list[0], list[1]);
    ConcatAdd(a, [intro, list[0], separator, list[1]]);
  }

  /** A statement up to its WHERE part, with two selected columns and joins. */
  lemma {:induction false} FrontText(columns: seq<string>, table: string, joins: string)
    requires |columns| == 2 && joins != ""
    ensures "SELECT DISTINCT " + Joined("", ",", columns) + " FROM " + table + Part(" ", joins)
         == Concat(["SELECT DISTINCT ", "", columns[0], ",", columns[1], " FROM ", table, " ", joins])
  {
    hide Joined, Concat, Part;
    var a := ["SELECT DISTINCT "];
    assert "SELECT DISTINCT " == Concat(a) by { Alone("SELECT DISTINCT "); }
    TwoBehind(a, "", ",", columns);
    var b := ["SELECT DISTINCT ", "", columns[0], ",", columns[1]];
    assert a + ["", columns[0], ",", columns[1]] == b;
    ConcatOne(b, " FROM ");
    ConcatOne(b + [" FROM "], table);
    PartText(b + [" FROM "] + [table], " ", joins);
    assert b + [" FROM "] + [table] + [" ", joins]
        == ["SELECT DISTINCT ", "", columns[0], ",", columns[1], " FROM ", table, " ", joins];
  }

  lemma Alone(s: string)
    ensures Concat([s]) == s
  {
    assert [s][1..] == [];
  }

  /** Two conditions in front of a GROUP BY part and two in front of what ends a statement. */
  lemma {:induction false} MiddleText(a: seq<string>, q: Query, group: string)
    requires |q.where| == 2 && |q.having| == 2 && group != ""
    ensures Concat(a) + WhereText(q) + Part(" GROUP BY ", group) + HavingText(q)
         == Concat(a + [" WHERE ", q.where[0], " AND ", q.where[1], " GROUP BY ", group,
                        " HAVING ", q.having[0], " AND ", q.having[1]])
  {
    hide Joined, Concat, Part;
    TwoBehind(a, " WHERE ", " AND ", q.where);
    var b := a + [" WHERE ", q.where[0], " AND ", q.where[1]];
    PartText(b, " GROUP BY ", group);
    var c := b + [" GROUP BY ", group];
    TwoBehind(c, " HAVING ", " AND ", q.having);
    assert c + [" HAVING ", q.having[0], " AND ", q.having[1]]
        == a + [" WHERE ", q.where[0], " AND ", q.where[1], " GROUP BY ", group,
                " HAVING ", q.having[0], " AND ", q.having[1]];
  }

  lemma {:induction false} BackText(a: seq<string>, limit: string, offset: string, orders: seq<string>)
    requires limit != "" && offset != "" && |orders| == 2
    ensures Concat(a) + Part(" LIMIT ", limit) + Part(" OFFSET ", offset) + Joined(" ORDER BY ", ", ", orders)
         == Concat(a + [" LIMIT ", limit, " OFFSET ", offset, " ORDER BY ", orders[0], ", ", orders[1]])
  {
    hide Joined, Concat, Part;
    PartText(a, " LIMIT ", limit);
    var b := a + [" LIMIT ", limit];
    PartText(b, " OFFSET ", offset);
    var c := b + [" OFFSET ", offset];
    TwoBehind(c, " ORDER BY ", ", ", orders);
    assert c + [" ORDER BY ", orders[0], ", ", orders[1]]
        == a + [" LIMIT ", limit, " OFFSET ", offset, " ORDER BY ", orders[0], ", ", orders[1]];
  }

  /** A statement with every part, and two of each that there may be more of: what toSql gives. */
  lemma {:induction false} EveryPart(columns: seq<string>, table: string, joins: string, q: Query, group: string,
                                     limit: string, offset: string, orders: seq<string>)
    requires |columns| == |q.where| == |q.having| == |orders| == 2
    requires joins != "" && group != "" && limit != "" && offset != ""
    ensures Statement("SELECT DISTINCT " + Joined("", ",", columns), table, joins, WhereText(q), group,
                      HavingText(q), limit, offset, Joined(" ORDER BY ", ", ", orders))
         == Concat(["SELECT DISTINCT ", "", columns[0], ",", columns[1], " FROM ", table, " ", joins,
                    " WHERE ", q.where[0], " AND ", q.where[1], " GROUP BY ", group,
                    " HAVING ", q.having[0], " AND ", q.having[1], " LIMIT ", limit, " OFFSET ", offset,
                    " ORDER BY ", orders[0], ", ", orders[1]])
  {
    hide Joined, Concat, Part, WhereText, HavingText;
    FrontText(columns, table, joins);
    var a := ["SELECT DISTINCT ", "", columns[0], ",", columns[1], " FROM ", table, " ", joins];
    MiddleText(a, q, group);
    var b := [" WHERE ", q.where[0], " AND ", q.where[1], " GROUP BY ", group,
              " HAVING ", q.having[0], " AND ", q.having[1]];
    BackText(a + b, limit, offset, orders);
    var c := [" LIMIT ", limit, " OFFSET ", offset, " ORDER BY ", orders[0], ", ", orders[1]];
    assert a + b + c == ["SELECT DISTINCT ", "", columns[0], ",", columns[1], " FROM ", table, " ", joins,
                    " WHERE ", q.where[0], " AND ", q.where[1], " GROUP BY ", group,
                    " HAVING ", q.having[0], " AND ", q.having[1], " LIMIT ", limit, " OFFSET ", offset,
                    " ORDER BY ", orders[0], ", ", orders[1]];
  }

  /** A statement without any: the columns and the table. */
  lemma BareStatement(table: string)
    ensures Statement("SELECT " + "*", table, "", WhereText(EMPTY), "", HavingText(EMPTY), "", "",
                      Joined(" ORDER BY ", ", ", []))
         == "SELECT * FROM " + table
  {
  }
}
