/** The numbered placeholders in the conditions of a query. */
module QueryText {

  predicate Digit(c: char) {
    '0' <= c <= '9'
  }

  /** pgParamCount. */
  function ParamCount(s: string): (n: nat)
    ensures n <= |s|
  {
    if s == "" then 0 else (if s[0] == '$' then 1 else 0) + ParamCount(s[1..])
  }

  /** string_t's replace of "$". */
  function Replaced(s: string, with: string): string {
    if s == "" then "" else (if s[0] == '$' then with else [s[0]]) + Replaced(s[1..], with)
  }

  function Decimal(n: nat): (s: string)
    ensures s != "" && forall i :: 0 <= i < |s| ==> Digit(s[i])
  {
    if n < 10 then ['0' + n as char] else Decimal(n / 10) + ['0' + (n % 10) as char]
  }

  function Placeholder(n: nat): (s: string)
    ensures |s| >= 2
  {
    "$" + Decimal(n)
  }

  /** A number read on from `before`: the digits at the start of `s`. */
  function NumberFrom(s: string, before: nat): nat {
    if s == "" || !Digit(s[0]) then before else NumberFrom(s[1..], before * 10 + (s[0] as nat - '0' as nat))
  }

  /** The numbers of the placeholders in a text, as postgres reads them. */
  function Placeholders(s: string): seq<nat> {
    if s == "" then []
    else (if s[0] == '$' then [NumberFrom(s[1..], 0)] else []) + Placeholders(s[1..])
  }

  /** No `$` stands in front of a digit: a number put behind it ends where it should. */
  predicate Plain(s: string) {
    forall i :: 0 <= i < |s| - 1 && s[i] == '$' ==> !Digit(s[i + 1])
  }

  predicate StartsDigit(s: string) {
    s != "" && Digit(s[0])
  }

  lemma {:induction false} DecimalRead(n: nat, rest: string)
    ensures NumberFrom(Decimal(n) + rest, 0) == NumberFrom(rest, n)
    decreases n
  {
    var d := ['0' + (n % 10) as char];
    if n < 10 {
      assert (Decimal(n) + rest)[1..] == rest;
    } else {
      assert Decimal(n) + rest == Decimal(n / 10) + (d + rest);
      DecimalRead(n / 10, d + rest);
      assert (d + rest)[1..] == rest;
    }
  }

  /** Text without placeholders in front changes nothing. */
  lemma {:induction false} PlaceholdersAfter(a: string, b: string)
    requires '$' !in a
    ensures Placeholders(a + b) == Placeholders(b)
    decreases |a|
  {
    if a == "" {
      assert a + b == b;
    } else {
      assert (a + b)[1..] == a[1..] + b;
      PlaceholdersAfter(a[1..], b);
    }
  }

  lemma {:induction false} NumberBefore(a: string, b: string, before: nat)
    requires !StartsDigit(b)
    ensures NumberFrom(a + b, before) == NumberFrom(a, before)
    decreases |a|
  {
    if a == "" {
      assert a + b == b;
    } else {
      assert (a + b)[1..] == a[1..] + b;
      if Digit(a[0]) {
        NumberBefore(a[1..], b, before * 10 + (a[0] as nat - '0' as nat));
      }
    }
  }

  /** The placeholder at the start of a text, if it starts with one. */
  function First(s: string): seq<nat>
    requires s != ""
  {
    if s[0] == '$' then [NumberFrom(s[1..], 0)] else []
  }

  lemma {:induction false} FirstJoin(a: string, b: string)
    requires a != "" && !StartsDigit(b)
    ensures First(a + b) == First(a)
  {
    assert (a + b)[1..] == a[1..] + b;
    NumberBefore(a[1..], b, 0);
    hide NumberFrom;
  }

  lemma {:induction false} PlaceholdersStep(s: string)
    requires s != ""
    ensures Placeholders(s) == First(s) + Placeholders(s[1..])
  {
  }

  lemma Regroup(a: seq<nat>, b: seq<nat>, c: seq<nat>)
    ensures a + (b + c) == a + b + c
  {
  }

  lemma {:induction false} PlaceholdersJoin(a: string, b: string)
    requires !StartsDigit(b)
    ensures Placeholders(a + b) == Placeholders(a) + Placeholders(b)
    decreases |a|
  {
    if a == "" {
      assert a + b == b;
    } else {
      hide Placeholders, First;
      assert (a + b)[1..] == a[1..] + b;
      PlaceholdersStep(a);
      PlaceholdersStep(a + b);
      FirstJoin(a, b);
      PlaceholdersJoin(a[1..], b);
      Regroup(First(a), Placeholders(a[1..]), Placeholders(b));
    }
  }

  function Copies(k: nat, n: nat): (s: seq<nat>)
    ensures |s| == k
  {
    seq(k, i => n)
  }

  lemma OnePlaceholder(n: nat, rest: string)
    requires !StartsDigit(rest)
    ensures Placeholders(Placeholder(n) + rest) == [n] + Placeholders(rest)
  {
    var s := Placeholder(n) + rest;
    assert s[1..] == Decimal(n) + rest;
    DecimalRead(n, rest);
    PlaceholdersAfter(Decimal(n), rest);
    hide Decimal;
  }

  lemma {:induction false} ReplacedStart(s: string, n: nat)
    ensures StartsDigit(Replaced(s, Placeholder(n))) <==> StartsDigit(s)
  {
    hide Decimal;
  }

  lemma PlainRest(s: string)
    requires s != "" && Plain(s)
    ensures Plain(s[1..])
  {
    var t := s[1..];
    forall i | 0 <= i < |t| - 1 && t[i] == '$' ensures !Digit(t[i + 1]) {
      assert s[i + 1] == '$';
    }
  }

  /** Every `$` of a condition gets the same number. */
  lemma {:induction false} ReplacedPlaceholders(s: string, n: nat)
    requires Plain(s)
    ensures Placeholders(Replaced(s, Placeholder(n))) == Copies(ParamCount(s), n)
    decreases |s|
  {
    if s != "" {
      var rest := Replaced(s[1..], Placeholder(n));
      PlainRest(s);
      ReplacedPlaceholders(s[1..], n);
      ReplacedStart(s[1..], n);
      hide Placeholder, NumberFrom;
      if s[0] == '$' {
        OnePlaceholder(n, rest);
      } else {
        PlaceholdersAfter([s[0]], rest);
      }
    }
  }

  lemma {:induction false} ReplacedLength(s: string, with: string)
    ensures |Replaced(s, with)| + ParamCount(s) == |s| + ParamCount(s) * |with|
    decreases |s|
  {
    if s != "" {
      ReplacedLength(s[1..], with);
      if s[0] == '$' {
        OneMore(ParamCount(s[1..]), |with|);
      }
    }
  }

  lemma OneMore(k: nat, m: nat)
    ensures (k + 1) * m == k * m + m
  {
  }

  /** replace allocates for one replacement: the result and its NUL fit exactly when there is no more than one `$`. */
  lemma {:induction false} ReplaceFits(s: string, n: nat)
    ensures |Replaced(s, Placeholder(n))| + 1 <= |s| + |Placeholder(n)| <==> ParamCount(s) <= 1
  {
    ReplacedLength(s, Placeholder(n));
    TimesFits(ParamCount(s), |Placeholder(n)|);
    hide *;
  }

  lemma TimesFits(k: nat, m: nat)
    requires m >= 2
    ensures k * m + 1 <= k + m <==> k <= 1
  {
    if k >= 2 {
      Product(k - 1, m - 1);
      assert k * m == (k - 1) * (m - 1) + k + m - 1;
    }
  }

  lemma Product(a: nat, b: nat)
    requires a >= 1 && b >= 1
    ensures a * b >= 1
  {
  }

  /** A list of conditions as toSql writes it. */
  function Joined(intro: string, separator: string, conditions: seq<string>): string {
    if conditions == [] then ""
    else if |conditions| == 1 then intro + conditions[0]
    else Joined(intro, separator, conditions[..|conditions| - 1]) + separator + conditions[|conditions| - 1]
  }

  function AllPlaceholders(conditions: seq<string>): seq<nat> {
    if conditions == [] then []
    else AllPlaceholders(conditions[..|conditions| - 1]) + Placeholders(conditions[|conditions| - 1])
  }

  lemma {:induction false} JoinedPlaceholders(intro: string, separator: string, conditions: seq<string>)
    requires '$' !in intro && '$' !in separator && separator != "" && !Digit(separator[0])
    ensures Placeholders(Joined(intro, separator, conditions)) == AllPlaceholders(conditions)
    decreases |conditions|
  {
    hide Placeholders;
    if conditions == [] {
      assert Placeholders("") == [] by { PlaceholdersNone(); }
    } else {
      var k := |conditions| - 1;
      var last := conditions[k];
      if k == 0 {
        PlaceholdersAfter(intro, last);
        assert conditions[..k] == [];
      } else {
        JoinedPlaceholders(intro, separator, conditions[..k]);
        var front := Joined(intro, separator, conditions[..k]);
        assert front + separator + last == front + (separator + last);
        PlaceholdersJoin(front, separator + last);
        PlaceholdersAfter(separator, last);
      }
    }
  }

  lemma PlaceholdersNone()
    ensures Placeholders("") == []
  {
  }

  /** A call that adds a condition: `where` and `having` take a value for each `$`, `whereIn` any number of values. */
  datatype Call =
    | Where(condition: string, args: seq<string>)
    | WhereIn(column: string, isIn: bool, values: seq<string>)
    | Having(condition: string, args: seq<string>)

  /** A query's conditions and the values for them. */
  datatype Query = Query(where: seq<string>, having: seq<string>, values: seq<string>)

  const EMPTY := Query([], [], [])

  /** The list of placeholders that whereIn writes for the values from the `i`-th on, numbered after `n`. */
  function InList(values: seq<string>, n: nat): string {
    if values == [] then ""
    else if |values| == 1 then Placeholder(n + 1)
    else Placeholder(n + 1) + ("," + InList(values[1..], n + 1))
  }

  function InCondition(column: string, isIn: bool, values: seq<string>, n: nat): string {
    column + (if isIn then " IN (" else " NOT IN (") + InList(values, n) + ")"
  }

  function Added(q: Query, call: Call): Query {
    var n := |q.values|;
    match call
    case Where(condition, args) =>
      Query(q.where + [Replaced(condition, Placeholder(n + 1))], q.having, q.values + args)
    case WhereIn(column, isIn, values) =>
      Query(q.where + [InCondition(column, isIn, values, n)], q.having, q.values + values)
    case Having(condition, args) =>
      Query(q.where, q.having + [Replaced(condition, Placeholder(n + 1))], q.values + args)
  }

  function Built(calls: seq<Call>): Query {
    if calls == [] then EMPTY else Added(Built(calls[..|calls| - 1]), calls[|calls| - 1])
  }

  /**
   * A call whose conditions can be numbered: a value for each `$`, no `$` in front of a digit nor in a
   * column's name.
   */
  predicate Numberable(call: Call) {
    match call
    case Where(condition, args) => |args| == ParamCount(condition) && Plain(condition)
    case WhereIn(column, _, _) => '$' !in column
    case Having(condition, args) => |args| == ParamCount(condition) && Plain(condition)
  }

  predicate Single(call: Call) {
    call.WhereIn? || ParamCount(call.condition) <= 1
  }

  /** The numbers from `low + 1` to `low + n`. */
  function Range(low: nat, n: nat): (s: seq<nat>)
    ensures |s| == n
  {
    seq(n, i requires 0 <= i < n => low + 1 + i)
  }

  /** The numbers that a call writes when `n` values were given before. */
  function Numbers(call: Call, n: nat): seq<nat> {
    match call
    case Where(condition, args) => Copies(ParamCount(condition), n + 1)
    case WhereIn(_, _, values) => Range(n, |values|)
    case Having(condition, args) => Copies(ParamCount(condition), n + 1)
  }

  function Values(call: Call): seq<string> {
    match call
    case Where(_, args) => args
    case WhereIn(_, _, values) => values
    case Having(_, args) => args
  }

  function AllNumbers(calls: seq<Call>): seq<nat> {
    if calls == [] then []
    else
      var front := calls[..|calls| - 1];
      AllNumbers(front) + Numbers(calls[|calls| - 1], |Built(front).values|)
  }

  lemma RangeStep(low: nat, n: nat, more: seq<nat>)
    requires n > 0
    ensures Range(low, n) + more == [low + 1] + (Range(low + 1, n - 1) + more)
  {
  }

  lemma {:induction false} InListPlaceholders(values: seq<string>, n: nat, rest: string)
    requires !StartsDigit(rest)
    ensures Placeholders(InList(values, n) + rest) == Range(n, |values|) + Placeholders(rest)
    decreases |values|
  {
    hide Placeholders, Placeholder;
    if values == [] {
      assert "" + rest == rest && Range(n, 0) + Placeholders(rest) == Placeholders(rest);
    } else if |values| == 1 {
      OnePlaceholder(n + 1, rest);
      assert Range(n, 1) == [n + 1];
    } else {
      var more := InList(values[1..], n + 1) + rest;
      assert InList(values, n) + rest == Placeholder(n + 1) + ("," + more);
      OnePlaceholder(n + 1, "," + more);
      PlaceholdersAfter(",", more);
      InListPlaceholders(values[1..], n + 1, rest);
      RangeStep(n, |values|, Placeholders(rest));
    }
  }

  lemma InConditionPlaceholders(column: string, isIn: bool, values: seq<string>, n: nat)
    requires '$' !in column
    ensures Placeholders(InCondition(column, isIn, values, n)) == Range(n, |values|)
  {
    var open := column + (if isIn then " IN (" else " NOT IN (");
    assert '$' !in open;
    assert InCondition(column, isIn, values, n) == open + (InList(values, n) + ")");
    PlaceholdersAfter(open, InList(values, n) + ")");
    InListPlaceholders(values, n, ")");
    PlaceholdersAfter(")", "");
    assert ")" + "" == ")" && Placeholders("") == [];
  }

  lemma AllPlaceholdersAdd(conditions: seq<string>, condition: string)
    ensures AllPlaceholders(conditions + [condition]) == AllPlaceholders(conditions) + Placeholders(condition)
  {
    assert (conditions + [condition])[..|conditions|] == conditions;
  }

  lemma AddedNumbers(q: Query, call: Call)
    requires Numberable(call)
    ensures multiset(AllPlaceholders(Added(q, call).where)) + multiset(AllPlaceholders(Added(q, call).having))
         == multiset(AllPlaceholders(q.where)) + multiset(AllPlaceholders(q.having))
             + multiset(Numbers(call, |q.values|))
  {
    var n := |q.values|;
    hide Placeholders, Placeholder, Replaced, InCondition, Plain, ParamCount, AllPlaceholders, Copies, Range;
    match call
    case Where(condition, args) =>
      ReplacedPlaceholders(condition, n + 1);
      AllPlaceholdersAdd(q.where, Replaced(condition, Placeholder(n + 1)));
    case WhereIn(column, isIn, values) =>
      InConditionPlaceholders(column, isIn, values, n);
      AllPlaceholdersAdd(q.where, InCondition(column, isIn, values, n));
    case Having(condition, args) =>
      ReplacedPlaceholders(condition, n + 1);
      AllPlaceholdersAdd(q.having, Replaced(condition, Placeholder(n + 1)));
  }

  /** The numbers in the conditions are those that the calls wrote. */
  lemma {:induction false} BuiltNumbers(calls: seq<Call>)
    requires forall c :: c in calls ==> Numberable(c)
    ensures multiset(AllPlaceholders(Built(calls).where)) + multiset(AllPlaceholders(Built(calls).having))
         == multiset(AllNumbers(calls))
    decreases |calls|
  {
    if calls != [] {
      var k := |calls| - 1;
      BuiltNumbers(calls[..k]);
      assert Numberable(calls[k]);
      AddedNumbers(Built(calls[..k]), calls[k]);
      hide AllPlaceholders, Numbers, Added;
    }
  }

  lemma AddedValues(q: Query, call: Call)
    requires Numberable(call)
    ensures Added(q, call).values == q.values + Values(call)
    ensures Single(call) ==> Numbers(call, |q.values|) == Range(|q.values|, |Values(call)|)
  {
  }

  lemma RangeJoin(a: nat, b: nat)
    ensures Range(0, a) + Range(a, b) == Range(0, a + b)
  {
  }

  /** With one `$` at most in each condition, the calls write the numbers in order. */
  lemma {:induction false} SingleNumbers(calls: seq<Call>)
    requires forall c :: c in calls ==> Numberable(c) && Single(c)
    ensures AllNumbers(calls) == Range(0, |Built(calls).values|)
    decreases |calls|
  {
    if calls != [] {
      var k := |calls| - 1;
      SingleNumbers(calls[..k]);
      assert calls[k] in calls;
      var q := Built(calls[..k]);
      AddedValues(q, calls[k]);
      RangeJoin(|q.values|, |Values(calls[k])|);
      hide Numbers, Added, Numberable, Single, Range;
    }
  }

  lemma CopiesTwice(k: nat, n: nat)
    requires k >= 2
    ensures multiset(Copies(k, n))[n] >= 2
  {
    assert Copies(k, n) == [n, n] + Copies(k - 2, n);
  }

  /** A condition with several `$` writes a number several times. */
  lemma {:induction false} DoubledNumber(calls: seq<Call>, c: Call) returns (x: nat)
    requires c in calls && !Single(c)
    ensures multiset(AllNumbers(calls))[x] >= 2
    decreases |calls|
  {
    var k := |calls| - 1;
    var front := AllNumbers(calls[..k]);
    var last := Numbers(calls[k], |Built(calls[..k]).values|);
    assert multiset(AllNumbers(calls)) == multiset(front) + multiset(last);
    if c == calls[k] {
      x := |Built(calls[..k]).values| + 1;
      CopiesTwice(ParamCount(c.condition), x);
    } else {
      assert calls == calls[..k] + [calls[k]];
      x := DoubledNumber(calls[..k], c);
    }
  }

  lemma {:induction false} RangeOnce(n: nat, x: nat)
    ensures multiset(Range(0, n))[x] == if 1 <= x <= n then 1 else 0
    decreases n
  {
    if n > 0 {
      assert Range(0, n) == Range(0, n - 1) + [n];
      RangeOnce(n - 1, x);
    }
  }

  /** The text of the WHERE and HAVING parts of a query. */
  function WhereText(q: Query): string {
    Joined(" WHERE ", " AND ", q.where)
  }

  function HavingText(q: Query): string {
    Joined(" HAVING ", " AND ", q.having)
  }

  lemma {:induction false} TextPlaceholders(q: Query)
    ensures Placeholders(WhereText(q)) == AllPlaceholders(q.where)
    ensures Placeholders(HavingText(q)) == AllPlaceholders(q.having)
  {
    hide Placeholders, AllPlaceholders, Joined;
    JoinedPlaceholders(" WHERE ", " AND ", q.where);
    JoinedPlaceholders(" HAVING ", " AND ", q.having);
  }

  /** Each number from 1 to `n` once, and no other. */
  ghost predicate Exact(numbers: multiset<nat>, n: nat) {
    forall x: nat :: numbers[x] == if 1 <= x <= n then 1 else 0
  }

  lemma NumbersExact(calls: seq<Call>)
    requires forall c :: c in calls ==> Numberable(c)
    ensures Exact(multiset(AllNumbers(calls)), |Built(calls).values|) <==> (forall c :: c in calls ==> Single(c))
  {
    var n := |Built(calls).values|;
    hide Numberable, Built, Single, AllNumbers, Range;
    if forall c :: c in calls ==> Single(c) {
      SingleNumbers(calls);
      forall x: nat ensures multiset(AllNumbers(calls))[x] == if 1 <= x <= n then 1 else 0 {
        RangeOnce(n, x);
      }
    } else {
      var c :| c in calls && !Single(c);
      var x := DoubledNumber(calls, c);
    }
  }

  /**
   * The numbers 1 to the number of values stand in the WHERE and HAVING parts once each, and no others do,
   * exactly when no condition holds more than one `$`.
   */
  lemma {:induction false} PlaceholdersExact(calls: seq<Call>)
    requires forall c :: c in calls ==> Numberable(c)
    ensures var q := Built(calls);
            Exact(multiset(Placeholders(WhereText(q))) + multiset(Placeholders(HavingText(q))), |q.values|)
            <==> (forall c :: c in calls ==> Single(c))
  {
    hide *;
    TextPlaceholders(Built(calls));
    BuiltNumbers(calls);
    NumbersExact(calls);
  }

  /** Two `$` in one condition: both become `$1`, and the second value has no placeholder. */
  lemma TwoInOneCondition(first: string, second: string)
    ensures WhereText(Built([Where("$=$", [first, second])])) == " WHERE $1=$1"
    ensures Built([Where("$=$", [first, second])]).values == [first, second]
  {
    var call := Where("$=$", [first, second]);
    assert [call][..0] == [];
    assert Decimal(1) == "1";
    var s := "$=$";
    assert s[1..] == "=$" && s[1..][1..] == "$" && s[1..][1..][1..] == "";
    assert Replaced("$", "$1") == "$1" + Replaced("", "$1");
    assert Replaced("=$", "$1") == "=" + Replaced("$", "$1");
    assert Replaced(s, "$1") == "$1" + Replaced("=$", "$1");
    assert Replaced(s, "$1") == "$1=$1" && Placeholder(1) == "$1";
    assert Built([call]).where == ["$1=$1"] && Built([call]).values == [first, second];
    hide Replaced, Placeholder;
    assert Joined(" WHERE ", " AND ", ["$1=$1"]) == " WHERE " + "$1=$1";
  }

  /** Fewer calls make no more of anything. */
  lemma {:induction false} BuiltLess(calls: seq<Call>, i: nat)
    requires i <= |calls|
    ensures |Built(calls[..i]).where| <= |Built(calls).where| && |Built(calls[..i]).having| <= |Built(calls).having|
    ensures |Built(calls[..i]).values| <= |Built(calls).values|
    decreases |calls|
  {
    if i < |calls| {
      BuiltLess(calls[..|calls| - 1], i);
      assert calls[..|calls| - 1][..i] == calls[..i];
    } else {
      assert calls[..i] == calls;
    }
  }

  lemma BuiltNext(calls: seq<Call>, i: nat)
    requires i < |calls|
    ensures Built(calls[..i + 1]) == Added(Built(calls[..i]), calls[i])
  {
    assert calls[..i + 1][..i] == calls[..i];
  }

  lemma {:induction false} BuiltFront(calls: seq<Call>, i: nat)
    requires i <= |calls| && forall c :: c in calls ==> Numberable(c)
    ensures Built(calls[..i]).values <= Built(calls).values
    decreases |calls| - i
  {
    if i < |calls| {
      hide Added, Numberable, Built;
      assert calls[i] in calls;
      BuiltFront(calls, i + 1);
      BuiltNext(calls, i);
      AddedValues(Built(calls[..i]), calls[i]);
    } else {
      assert calls[..i] == calls;
    }
  }

  /** The value for the placeholder numbered `x` is the one given with the call that wrote it. */
  lemma {:induction false} ValueOfPlaceholder(calls: seq<Call>, i: nat, j: nat)
    requires i < |calls| && forall c :: c in calls ==> Numberable(c) && Single(c)
    requires j < |Values(calls[i])|
    ensures var numbers := Numbers(calls[i], |Built(calls[..i]).values|);
            var values := Built(calls).values;
            |numbers| == |Values(calls[i])| && 1 <= numbers[j] <= |values|
                && values[numbers[j] - 1] == Values(calls[i])[j]
  {
    hide Added, Numberable, Single, Built, Numbers, Values;
    assert calls[i] in calls;
    BuiltFront(calls, i + 1);
    BuiltNext(calls, i);
    AddedValues(Built(calls[..i]), calls[i]);
  }
}
