/** Every text that the parser takes is a spelled tree: what it accepts, and so what it refuses. */
module JsonAccepted {
  import opened Json
  import opened JsonGrammar
  import opened JsonSpelling
  import opened JsonLayout
  import R = JsonRoundTrip

  /** What strtod reads of a text, it reads of it alone. */
  ghost predicate Steady(strtod: Strtod) {
    forall t: string :: strtod(t) <= |t| ==> strtod(t[..strtod(t)]) == strtod(t)
  }

  predicate AllNumber(s: string) {
    forall i :: 0 <= i < |s| ==> NumberChar(s[i])
  }

  lemma {:induction false} NumberTextChars(s: string, room: nat)
    ensures AllNumber(NumberText(s, room))
    decreases |s|
  {
    if room > 0 && s != "" && NumberChar(s[0]) {
      NumberTextChars(s[1..], room - 1);
    } else {
      assert NumberText(s, room) == "";
    }
    hide NumberChar;
  }

  lemma {:induction false} DigitsWritten(s: string, strtod: Strtod) returns (v: Spelled)
    requires Steady(strtod) && StartsNumber(s) && ParseNumber(s, strtod).Got?
    ensures Legal(v, strtod) && Starts(s, Text(v)) && ParseNumber(s, strtod) == Got(Tree(v), |Text(v)|)
  {
    NumberTextChars(s, 63);
    var run := NumberText(s, 63);
    var n := strtod(run);
    var text := run[..n];
    v := Digits(text);
    hide NumberText, NumberChar;
    assert strtod(text) == n;
    assert text == s[..n] && text[0] == s[0];
    assert AllNumber(text);
    assert StartsNumber(text);
    assert R.ReadableNumber(text, strtod);
  }

  /** What is skipped is blank. */
  lemma {:induction false} Skipped(s: string)
    ensures R.Blank(s[..Skip(s)])
  {
    BlanksAll(s);
    assert forall i :: 0 <= i < Skip(s) ==> s[i] == s[..Blanks(s)][i];
    hide Blanks;
  }

  lemma {:induction false} BlanksAll(s: string)
    ensures R.Blank(s[..Blanks(s)])
  {
    if s != "" && s[0] <= ' ' {
      BlanksAll(s[1..]);
      assert s[..Blanks(s)] == [s[0]] + s[1..][..Blanks(s[1..])];
    }
  }

  lemma {:induction false} StrTokenWritten(s: string, depth: nat, strtod: Strtod) returns (v: Spelled)
    requires ParseValue(s, depth, strtod).Got? && s != "" && s[0] == '\"'
    ensures Legal(v, strtod) && Starts(s, Text(v)) && ParseValue(s, depth, strtod) == Got(Tree(v), |Text(v)|)
  {
    hide ParseString, LegalStr, StrText, StrValue;
    var x := StrWritten(s);
    v := Token(x);
  }

  lemma {:induction false} NumberWritten(s: string, depth: nat, strtod: Strtod) returns (v: Spelled)
    requires Steady(strtod) && ParseValue(s, depth, strtod).Got? && StartsNumber(s)
    ensures Legal(v, strtod) && Starts(s, Text(v)) && ParseValue(s, depth, strtod) == Got(Tree(v), |Text(v)|)
  {
    hide ParseNumber, Legal, Text, Tree;
    v := DigitsWritten(s, strtod);
  }

  lemma {:induction false} WordWritten(s: string, depth: nat, strtod: Strtod) returns (v: Spelled)
    requires "null" <= s || "false" <= s || "true" <= s
    ensures Legal(v, strtod) && Starts(s, Text(v)) && ParseValue(s, depth, strtod) == Got(Tree(v), |Text(v)|)
  {
    v := if "null" <= s then NullWord else if "false" <= s then FalseWord else TrueWord;
    hide ParseString, ParseNumber, ParseItems, ParseMembers, Skip, StartsNumber;
  }

  /** What a value that is read starts with. */
  lemma {:induction false} ValueStarts(s: string, depth: nat, strtod: Strtod)
    requires ParseValue(s, depth, strtod).Got?
    ensures s != "" && s[0] > ' ' && s[0] != ']' && s[0] != '}'
    ensures "null" <= s || "false" <= s || "true" <= s || s[0] == '\"' || StartsNumber(s) || s[0] == '[' || s[0] == '{'
    ensures (s[0] == '[' || s[0] == '{') ==> depth < NESTING_LIMIT
  {
    hide ParseString, ParseNumber, ParseItems, ParseMembers, Skip;
  }

  /** A word, number or string that is read. */
  lemma {:induction false} PlainWritten(s: string, depth: nat, strtod: Strtod) returns (v: Spelled)
    requires Steady(strtod) && ParseValue(s, depth, strtod).Got? && s != "" && s[0] != '[' && s[0] != '{'
    ensures Legal(v, strtod) && Starts(s, Text(v)) && ParseValue(s, depth, strtod) == Got(Tree(v), |Text(v)|)
  {
    ValueStarts(s, depth, strtod);
    hide *;
    if "null" <= s || "false" <= s || "true" <= s {
      v := WordWritten(s, depth, strtod);
    } else if s[0] == '\"' {
      v := StrTokenWritten(s, depth, strtod);
    } else {
      v := NumberWritten(s, depth, strtod);
    }
  }

  /** A value that is read, at the front of `s`. */
  ghost predicate Written(s: string, v: Spelled, depth: nat, strtod: Strtod) {
    Legal(v, strtod) && Starts(s, Text(v)) && ParseValue(s, depth, strtod) == Got(Tree(v), |Text(v)|)
  }

  /** Items that are read, and the bracket behind them. */
  ghost predicate ItemsHere(s: string, items: seq<Item>, depth: nat, strtod: Strtod) {
    && items != [] && LegalItems(items, strtod) && Starts(s, ItemsText(items) + "]")
    && ParseItems(s, depth, strtod) == Got(TreeItems(items), |ItemsText(items)| + 1)
  }

  function Tail(more: seq<Item>): string {
    if more == [] then "]" else "," + (ItemsText(more) + "]")
  }

  /** What is read behind an item. */
  ghost predicate AfterHere(item: Json, s: string, after: string, more: seq<Item>, depth: nat, strtod: Strtod) {
    && R.Blank(after) && LegalItems(more, strtod) && Starts(s, after + Tail(more))
    && ParseItemsAfter(item, s, depth, strtod) == Got([item] + TreeItems(more), |after| + |Tail(more)|)
  }

  /** Every value that is read is spelled. */
  lemma {:induction false} ValueWritten(s: string, depth: nat, strtod: Strtod) returns (v: Spelled)
    requires Steady(strtod) && ParseValue(s, depth, strtod).Got?
    ensures Written(s, v, depth, strtod)
    decreases |s|, 1
  {
    ValueStarts(s, depth, strtod);
    hide *;
    if s[0] == '[' {
      v := ArrayWritten(s, depth, strtod);
    } else if s[0] == '{' {
      v := ObjectWritten(s, depth, strtod);
    } else {
      v := PlainWritten(s, depth, strtod);
      assert Written(s, v, depth, strtod) by { IsWritten(s, v, depth, strtod); }
    }
  }

  lemma IsWritten(s: string, v: Spelled, depth: nat, strtod: Strtod)
    requires Legal(v, strtod) && Starts(s, Text(v)) && ParseValue(s, depth, strtod) == Got(Tree(v), |Text(v)|)
    ensures Written(s, v, depth, strtod)
  {
  }

  /** What an array that is read consists of. */
  lemma {:induction false} ArrayParse(s: string, depth: nat, strtod: Strtod)
    requires ParseValue(s, depth, strtod).Got? && s != "" && s[0] == '['
    ensures var k := 1 + Skip(s[1..]);
            && k < |s|
            && (s[k] == ']' ==> ParseValue(s, depth, strtod) == Got(Array([]), k + 1))
            && (s[k] != ']' ==>
                  var r := ParseItems(s[k..], depth + 1, strtod);
                  r.Got? && ParseValue(s, depth, strtod) == Got(Array(r.value), k + r.used))
  {
    hide Skip, ParseItems, ParseString, ParseNumber;
  }

  lemma {:induction false} ArrayWritten(s: string, depth: nat, strtod: Strtod) returns (v: Spelled)
    requires Steady(strtod) && ParseValue(s, depth, strtod).Got? && s != "" && s[0] == '['
    ensures Written(s, v, depth, strtod)
    decreases |s|, 0
  {
    hide *;
    ArrayParse(s, depth, strtod);
    var k := 1 + Skip(s[1..]);
    var blanks := s[1..][..k - 1];
    Skipped(s[1..]);
    if s[k] == ']' {
      v := Bracketed(blanks, []);
      EmptyWritten(s, k, blanks, depth, strtod);
    } else {
      var items := ItemsWritten(s[k..], depth + 1, strtod);
      v := Bracketed(blanks, items);
      ArrayJoined(s, k, blanks, items, depth, strtod);
    }
  }

  lemma Opened(s: string, k: nat, open: char, inner: string, close: string)
    requires 1 <= k < |s| && s[0] == open && Starts(s[k..], inner + close)
    ensures Starts(s, [open] + (s[1..][..k - 1] + inner) + close)
  {
    var t := inner + close;
    assert s[..k + |t|] == [s[0]] + s[1..][..k - 1] + s[k..][..|t|];
  }

  lemma {:induction false} EmptyWritten(s: string, k: nat, blanks: string, depth: nat, strtod: Strtod)
    requires 1 <= k < |s| && s[0] == '[' && blanks == s[1..][..k - 1] && R.Blank(blanks) && s[k] == ']'
    requires ParseValue(s, depth, strtod) == Got(Array([]), k + 1)
    ensures Written(s, Bracketed(blanks, []), depth, strtod)
  {
    hide ParseValue;
    NothingBetween("]");
    assert s[k..][..1] == "]";
    Opened(s, k, '[', ItemsText([]), "]");
    assert |blanks| == k - 1 && LegalItems([], strtod);
  }

  lemma {:induction false} ArrayJoined(s: string, k: nat, blanks: string, items: seq<Item>, depth: nat, strtod: Strtod)
    requires 1 <= k < |s| && s[0] == '[' && blanks == s[1..][..k - 1] && R.Blank(blanks)
    requires ItemsHere(s[k..], items, depth + 1, strtod)
    requires ParseValue(s, depth, strtod)
          == Got(Array(ParseItems(s[k..], depth + 1, strtod).value), k + ParseItems(s[k..], depth + 1, strtod).used)
    ensures Written(s, Bracketed(blanks, items), depth, strtod)
  {
    hide ParseValue, ParseItems, ItemsText, LegalItems, TreeItems, Starts;
    Opened(s, k, '[', ItemsText(items), "]");
  }

  /** The first of some items that are read, and what is read behind it from `t` on. */
  ghost predicate FirstItem(s: string, k: nat, n: nat, j: Json, t: string, depth: nat, strtod: Strtod) {
    && k == Skip(s) && 0 < n && k + n <= |s| && t == s[k..][n..]
    && ParseValue(s[k..], depth, strtod) == Got(j, n)
    && ParseItemsAfter(j, t, depth, strtod).Got?
    && ParseItems(s, depth, strtod)
       == Got(ParseItemsAfter(j, t, depth, strtod).value, k + n + ParseItemsAfter(j, t, depth, strtod).used)
  }

  lemma {:induction false} ItemsParse(s: string, depth: nat, strtod: Strtod)
    returns (k: nat, n: nat, j: Json, t: string)
    requires ParseItems(s, depth, strtod).Got?
    ensures FirstItem(s, k, n, j, t, depth, strtod)
  {
    hide Skip, ParseValue, ParseItemsAfter;
    k := Skip(s);
    var v := ParseValue(s[k..], depth, strtod);
    n, j := v.used, v.value;
    t := s[k..][n..];
    assert t == s[k + n..];
  }

  lemma FirstSmaller(s: string, k: nat, n: nat, j: Json, t: string, depth: nat, strtod: Strtod)
    requires FirstItem(s, k, n, j, t, depth, strtod)
    ensures k <= |s| && |s[k..]| <= |s| && |t| < |s| && R.Blank(s[..k])
    ensures ParseValue(s[k..], depth, strtod).Got? && ParseItemsAfter(j, t, depth, strtod).Got?
  {
    hide ParseItems, ParseItemsAfter, ParseValue, Skip;
    Skipped(s);
  }

  lemma {:induction false} ItemsWritten(s: string, depth: nat, strtod: Strtod) returns (items: seq<Item>)
    requires Steady(strtod) && ParseItems(s, depth, strtod).Got?
    ensures ItemsHere(s, items, depth, strtod)
    decreases |s|, 2
  {
    hide *;
    var k, n, j, t := ItemsParse(s, depth, strtod);
    FirstSmaller(s, k, n, j, t, depth, strtod);
    var v := ValueWritten(s[k..], depth, strtod);
    var after, more := AfterWritten(j, t, depth, strtod);
    items := [Item(s[..k], v, after)] + more;
    ItemsJoined(s, k, n, j, t, v, after, more, depth, strtod);
  }

  lemma {:induction false} ItemsJoined(s: string, k: nat, n: nat, j: Json, t: string, v: Spelled, after: string,
                                       more: seq<Item>, depth: nat, strtod: Strtod)
    requires FirstItem(s, k, n, j, t, depth, strtod) && k <= |s| && R.Blank(s[..k])
    requires Written(s[k..], v, depth, strtod) && AfterHere(j, t, after, more, depth, strtod)
    ensures ItemsHere(s, [Item(s[..k], v, after)] + more, depth, strtod)
  {
    hide ParseValue, ParseItems, ParseItemsAfter, Skip, R.Blank, Text, Tree, Legal, Starts, Tail, ItemsText, TreeItems;
    var items := [Item(s[..k], v, after)] + more;
    assert items[1..] == more;
    assert LegalItems(items, strtod);
    hide LegalItems;
    StartsBoth(s[k..], Text(v), after + Tail(more));
    WholeStarts(s, k);
    StartsBoth(s, s[..k], Text(v) + (after + Tail(more)));
    ItemsCons(s[..k], v, after, more);
  }

  lemma WholeStarts(s: string, k: nat)
    requires k <= |s|
    ensures Starts(s, s[..k])
  {
  }

  lemma {:induction false} ItemsCons(before: string, v: Spelled, after: string, more: seq<Item>)
    ensures var items := [Item(before, v, after)] + more;
            && ItemsText(items) + "]" == before + (Text(v) + (after + Tail(more)))
            && TreeItems(items) == [Tree(v)] + TreeItems(more)
            && |ItemsText(items)| + 1 == |before| + |Text(v)| + |after| + |Tail(more)|
  {
    var items := [Item(before, v, after)] + more;
    assert items[1..] == more && "]" + "" == "]";
    ItemsSplit(items, "");
    hide Text, Tree, ItemsText;
    assert AfterItem(items, "") == Tail(more);
  }

  lemma {:induction false} AfterParse(item: Json, s: string, depth: nat, strtod: Strtod)
    requires ParseItemsAfter(item, s, depth, strtod).Got?
    ensures var e := Skip(s);
            && e < |s| && (s[e] == ']' || s[e] == ',')
            && (s[e] == ']' ==> ParseItemsAfter(item, s, depth, strtod) == Got([item], e + 1))
            && (s[e] == ',' ==>
                  var r := ParseItems(s[e + 1..], depth, strtod);
                  r.Got? && ParseItemsAfter(item, s, depth, strtod) == Got([item] + r.value, e + 1 + r.used))
  {
    hide Skip, ParseItems;
  }

  lemma {:induction false} AfterWritten(item: Json, s: string, depth: nat, strtod: Strtod)
    returns (after: string, more: seq<Item>)
    requires Steady(strtod) && ParseItemsAfter(item, s, depth, strtod).Got?
    ensures AfterHere(item, s, after, more, depth, strtod)
    decreases |s|, 2
  {
    AfterParse(item, s, depth, strtod);
    hide *;
    var e := Skip(s);
    Skipped(s);
    after, more := s[..e], [];
    if s[e] == ',' {
      more := ItemsWritten(s[e + 1..], depth, strtod);
      AfterMany(item, s, e, more, depth, strtod);
    } else {
      AfterLast(item, s, e, depth, strtod);
    }
  }

  lemma {:induction false} AfterLast(item: Json, s: string, e: nat, depth: nat, strtod: Strtod)
    requires e < |s| && s[e] == ']' && R.Blank(s[..e])
    requires ParseItemsAfter(item, s, depth, strtod) == Got([item], e + 1)
    ensures AfterHere(item, s, s[..e], [], depth, strtod)
  {
    hide ParseItemsAfter;
    assert s[..e + 1] == s[..e] + "]";
    assert [item] + TreeItems([]) == [item];
  }

  lemma {:induction false} AfterMany(item: Json, s: string, e: nat, more: seq<Item>, depth: nat, strtod: Strtod)
    requires e < |s| && s[e] == ',' && R.Blank(s[..e]) && ItemsHere(s[e + 1..], more, depth, strtod)
    requires var r := ParseItems(s[e + 1..], depth, strtod);
             r.Got? && ParseItemsAfter(item, s, depth, strtod) == Got([item] + r.value, e + 1 + r.used)
    ensures AfterHere(item, s, s[..e], more, depth, strtod)
  {
    hide ParseItemsAfter, ParseItems, ItemsText, LegalItems, TreeItems;
    Comma(s, e, ItemsText(more) + "]");
  }

  lemma Comma(s: string, e: nat, t: string)
    requires e < |s| && s[e] == ',' && Starts(s[e + 1..], t)
    ensures Starts(s, s[..e] + ("," + t))
  {
    assert s[..e + 1 + |t|] == s[..e] + ([s[e]] + s[e + 1..][..|t|]);
  }

  // Objects.

  ghost predicate EntriesHere(s: string, members: seq<Entry>, depth: nat, strtod: Strtod) {
    && members != [] && LegalEntries(members, strtod) && Starts(s, EntriesText(members) + "}")
    && ParseMembers(s, depth, strtod) == Got(TreeEntries(members), |EntriesText(members)| + 1)
  }

  function EntryTail(more: seq<Entry>): string {
    if more == [] then "}" else "," + (EntriesText(more) + "}")
  }

  /** What is read behind a member. */
  ghost predicate BehindHere(m: Member, s: string, after: string, more: seq<Entry>, depth: nat, strtod: Strtod) {
    && R.Blank(after) && LegalEntries(more, strtod) && Starts(s, after + EntryTail(more))
    && ParseMembersAfter(m, s, depth, strtod) == Got([m] + TreeEntries(more), |after| + |EntryTail(more)|)
  }

  lemma {:induction false} ObjectParse(s: string, depth: nat, strtod: Strtod)
    requires ParseValue(s, depth, strtod).Got? && s != "" && s[0] == '{'
    ensures var k := 1 + Skip(s[1..]);
            && k < |s|
            && (s[k] == '}' ==> ParseValue(s, depth, strtod) == Got(Object([]), k + 1))
            && (s[k] != '}' ==>
                  var r := ParseMembers(s[k..], depth + 1, strtod);
                  r.Got? && ParseValue(s, depth, strtod) == Got(Object(r.value), k + r.used))
  {
    hide Skip, ParseMembers, ParseString, ParseNumber;
  }

  lemma {:induction false} ObjectWritten(s: string, depth: nat, strtod: Strtod) returns (v: Spelled)
    requires Steady(strtod) && ParseValue(s, depth, strtod).Got? && s != "" && s[0] == '{'
    ensures Written(s, v, depth, strtod)
    decreases |s|, 0
  {
    hide *;
    ObjectParse(s, depth, strtod);
    var k := 1 + Skip(s[1..]);
    var blanks := s[1..][..k - 1];
    Skipped(s[1..]);
    if s[k] == '}' {
      v := Braced(blanks, []);
      BareWritten(s, k, blanks, depth, strtod);
    } else {
      var members := EntriesWritten(s[k..], depth + 1, strtod);
      v := Braced(blanks, members);
      ObjectJoined(s, k, blanks, members, depth, strtod);
    }
  }

  lemma {:induction false} BareWritten(s: string, k: nat, blanks: string, depth: nat, strtod: Strtod)
    requires 1 <= k < |s| && s[0] == '{' && blanks == s[1..][..k - 1] && R.Blank(blanks) && s[k] == '}'
    requires ParseValue(s, depth, strtod) == Got(Object([]), k + 1)
    ensures Written(s, Braced(blanks, []), depth, strtod)
  {
    hide ParseValue;
    NothingBetween("}");
    assert s[k..][..1] == "}";
    Opened(s, k, '{', EntriesText([]), "}");
    assert |blanks| == k - 1 && LegalEntries([], strtod);
  }

  lemma {:induction false} ObjectJoined(s: string, k: nat, blanks: string, members: seq<Entry>, depth: nat,
                                        strtod: Strtod)
    requires 1 <= k < |s| && s[0] == '{' && blanks == s[1..][..k - 1] && R.Blank(blanks)
    requires EntriesHere(s[k..], members, depth + 1, strtod)
    requires ParseValue(s, depth, strtod)
          == Got(Object(ParseMembers(s[k..], depth + 1, strtod).value), k
                 + ParseMembers(s[k..], depth + 1, strtod).used)
    ensures Written(s, Braced(blanks, members), depth, strtod)
  {
    hide ParseValue, ParseMembers, EntriesText, LegalEntries, TreeEntries, Starts;
    Opened(s, k, '{', EntriesText(members), "}");
  }

  /** A name that is read, with the blanks around it and its colon. */
  ghost predicate NameHere(s: string, e: Entry) {
    && R.Blank(e.before) && LegalStr(e.name) && R.Blank(e.behind) && R.Blank(e.gap)
    && Starts(s, e.before + NameText(e)) && ParseName(s) == Got(StrValue(e.name), |e.before| + |NameText(e)|)
  }

  /** Where the parts of a name that is read stand: the name from `k` on, and its colon at `c`. */
  ghost predicate NameParts(s: string, k: nat, x: Str, c: nat, g: nat) {
    && k <= |s| && R.Blank(s[..k]) && LegalStr(x) && Starts(s[k..], StrText(x))
    && k + |StrText(x)| <= c < |s| && s[c] == ':' && c + 1 + g <= |s|
    && R.Blank(s[k + |StrText(x)|..][..c - k - |StrText(x)|]) && R.Blank(s[c + 1..][..g])
    && ParseName(s) == Got(StrValue(x), c + 1 + g)
  }

  lemma {:induction false} NameParse(s: string) returns (k: nat, x: Str, c: nat, g: nat)
    requires ParseName(s).Got?
    ensures NameParts(s, k, x, c, g)
  {
    k := Skip(s);
    Skipped(s);
    hide Skip, ParseString, R.Blank, LegalStr, StrText, StrValue;
    x := StrWritten(s[k..]);
    var m := k + |StrText(x)|;
    assert m <= |s|;
    c := m + Skip(s[m..]);
    Skipped(s[m..]);
    g := Skip(s[c + 1..]);
    Skipped(s[c + 1..]);
  }

  lemma {:induction false} NameWritten(s: string) returns (e: Entry)
    requires ParseName(s).Got?
    ensures NameHere(s, e)
  {
    hide *;
    var k, x, c, g := NameParse(s);
    e := NameJoined(s, k, x, c, g);
  }

  lemma {:induction false} NameJoined(s: string, k: nat, x: Str, c: nat, g: nat) returns (e: Entry)
    requires NameParts(s, k, x, c, g)
    ensures NameHere(s, e)
  {
    hide ParseName, StrText, LegalStr, R.Blank, StrValue;
    var n := StrText(x);
    var m := k + |n|;
    e := Entry(s[..k], x, s[m..][..c - m], s[c + 1..][..g], NullWord, "");
    assert s[..c + 1 + g] == s[..k] + (s[k..][..|n|] + (s[m..][..c - m] + ([s[c]] + s[c + 1..][..g])));
  }

  /** The first of some members that are read: its name, its value from `t` on, and what is read from `u` on. */
  ghost predicate FirstEntry(s: string, n: nat, key: string, t: string, l: nat, j: Json, u: string, depth: nat,
                             strtod: Strtod) {
    && 0 < n <= |s| && t == s[n..] && ParseName(s) == Got(key, n)
    && 0 < l <= |t| && u == t[l..] && ParseValue(t, depth, strtod) == Got(j, l)
    && ParseMembersAfter(Member(key, j), u, depth, strtod).Got?
    && ParseMembers(s, depth, strtod)
       == Got(ParseMembersAfter(Member(key, j), u, depth, strtod).value,
              n + l + ParseMembersAfter(Member(key, j), u, depth, strtod).used)
  }

  lemma {:induction false} EntriesParse(s: string, depth: nat, strtod: Strtod)
    returns (n: nat, key: string, t: string, l: nat, j: Json, u: string)
    requires ParseMembers(s, depth, strtod).Got?
    ensures FirstEntry(s, n, key, t, l, j, u, depth, strtod)
  {
    hide ParseName, ParseValue, ParseMembersAfter;
    var name := ParseName(s);
    n, key := name.used, name.value;
    t := s[n..];
    var v := ParseValue(t, depth, strtod);
    l, j := v.used, v.value;
    u := t[l..];
  }

  lemma FirstEntrySmaller(s: string, n: nat, key: string, t: string, l: nat, j: Json, u: string, depth: nat,
                          strtod: Strtod)
    requires FirstEntry(s, n, key, t, l, j, u, depth, strtod)
    ensures ParseName(s).Got? && ParseValue(t, depth, strtod).Got? && |t| < |s| && |u| < |s|
    ensures ParseMembersAfter(Member(key, j), u, depth, strtod).Got?
  {
    hide ParseName, ParseValue, ParseMembers, ParseMembersAfter;
  }

  lemma {:induction false} EntriesWritten(s: string, depth: nat, strtod: Strtod) returns (members: seq<Entry>)
    requires Steady(strtod) && ParseMembers(s, depth, strtod).Got?
    ensures EntriesHere(s, members, depth, strtod)
    decreases |s|, 2
  {
    hide *;
    var n, key, t, l, j, u := EntriesParse(s, depth, strtod);
    FirstEntrySmaller(s, n, key, t, l, j, u, depth, strtod);
    var name := NameWritten(s);
    var v := ValueWritten(t, depth, strtod);
    var after, more := BehindWritten(Member(key, j), u, depth, strtod);
    var e := name.(value := v, after := after);
    members := [e] + more;
    NameSame(s, name, e);
    EntriesJoined(s, n, key, t, l, j, u, e, more, depth, strtod);
  }

  lemma NameSame(s: string, name: Entry, e: Entry)
    requires NameHere(s, name) && e == name.(value := e.value, after := e.after)
    ensures NameHere(s, e)
  {
    hide ParseName, StrText, LegalStr, R.Blank, StrValue;
  }

  lemma {:induction false} EntriesJoined(s: string, n: nat, key: string, t: string, l: nat, j: Json, u: string,
                                         e: Entry, more: seq<Entry>, depth: nat, strtod: Strtod)
    requires FirstEntry(s, n, key, t, l, j, u, depth, strtod) && NameHere(s, e)
    requires Written(t, e.value, depth, strtod) && BehindHere(Member(key, j), u, e.after, more, depth, strtod)
    ensures EntriesHere(s, [e] + more, depth, strtod)
  {
    hide ParseName, ParseValue, ParseMembers, ParseMembersAfter, R.Blank, Text, Tree, Legal, Starts, EntryTail,
        StrValue,
         LegalStr, NameText, EntriesText, TreeEntries;
    var members := [e] + more;
    assert members[1..] == more;
    assert LegalEntries(members, strtod);
    hide LegalEntries;
    var front := e.before + NameText(e);
    assert |front| == n;
    StartsBoth(t, Text(e.value), e.after + EntryTail(more));
    StartsBoth(s, front, Text(e.value) + (e.after + EntryTail(more)));
    EntriesCons(e, more);
  }

  lemma {:induction false} EntriesCons(e: Entry, more: seq<Entry>)
    ensures var members := [e] + more;
            && EntriesText(members) + "}" == (e.before + NameText(e)) + (Text(e.value) + (e.after + EntryTail(more)))
            && TreeEntries(members) == [Member(StrValue(e.name), Tree(e.value))] + TreeEntries(more)
            && |EntriesText(members)| + 1
            == |e.before| + |NameText(e)| + |Text(e.value)| + |e.after| + |EntryTail(more)|
  {
    var members := [e] + more;
    assert members[1..] == more && "}" + "" == "}";
    EntriesSplit(members, "");
    hide Text, Tree, EntriesText, NameText, StrValue;
    assert AfterEntry(members, "") == EntryTail(more);
  }

  /** What follows a member that is read: a brace or a comma at `e`. */
  ghost predicate BehindStep(m: Member, s: string, e: nat, depth: nat, strtod: Strtod) {
    && e < |s| && R.Blank(s[..e]) && (s[e] == '}' || s[e] == ',')
    && (s[e] == '}' ==> ParseMembersAfter(m, s, depth, strtod) == Got([m], e + 1))
    && (s[e] == ',' ==>
          && ParseMembers(s[e + 1..], depth, strtod).Got?
          && ParseMembersAfter(m, s, depth, strtod)
             == Got([m] + ParseMembers(s[e + 1..], depth, strtod).value,
                    e + 1 + ParseMembers(s[e + 1..], depth, strtod).used))
  }

  lemma {:induction false} BehindParse(m: Member, s: string, depth: nat, strtod: Strtod) returns (e: nat)
    requires ParseMembersAfter(m, s, depth, strtod).Got?
    ensures BehindStep(m, s, e, depth, strtod)
    ensures e < |s| && (s[e] == ',' ==> ParseMembers(s[e + 1..], depth, strtod).Got?)
  {
    hide Skip, ParseMembers, R.Blank;
    e := Skip(s);
    Skipped(s);
  }

  lemma {:induction false} BehindWritten(m: Member, s: string, depth: nat, strtod: Strtod)
    returns (after: string, more: seq<Entry>)
    requires Steady(strtod) && ParseMembersAfter(m, s, depth, strtod).Got?
    ensures BehindHere(m, s, after, more, depth, strtod)
    decreases |s|, 2
  {
    hide *;
    var e := BehindParse(m, s, depth, strtod);
    after, more := s[..e], [];
    if s[e] == ',' {
      more := EntriesWritten(s[e + 1..], depth, strtod);
      BehindMany(m, s, e, more, depth, strtod);
    } else {
      BehindLast(m, s, e, depth, strtod);
    }
  }

  lemma {:induction false} BehindLast(m: Member, s: string, e: nat, depth: nat, strtod: Strtod)
    requires e < |s| && s[e] != ',' && BehindStep(m, s, e, depth, strtod)
    ensures BehindHere(m, s, s[..e], [], depth, strtod)
  {
    hide ParseMembersAfter, ParseMembers, R.Blank;
    assert s[..e + 1] == s[..e] + "}";
    assert [m] + TreeEntries([]) == [m];
  }

  lemma {:induction false} BehindMany(m: Member, s: string, e: nat, more: seq<Entry>, depth: nat, strtod: Strtod)
    requires e < |s| && s[e] == ',' && BehindStep(m, s, e, depth, strtod)
    requires EntriesHere(s[e + 1..], more, depth, strtod)
    ensures BehindHere(m, s, s[..e], more, depth, strtod)
  {
    hide ParseMembersAfter, ParseMembers, EntriesText, LegalEntries, TreeEntries, R.Blank;
    Comma(s, e, EntriesText(more) + "}");
  }

  /** A text the parser takes: perhaps a byte order mark, blanks, and a value nested no deeper than it goes. */
  ghost predicate Spells(text: string, mark: bool, before: string, v: Spelled, strtod: Strtod) {
    && R.Blank(before) && Legal(v, strtod) && Deep(v) <= 1000
    && Starts(text + "\0", (if mark then MARK else "") + (before + Text(v)))
  }

  lemma ParseIs(text: string, mark: bool, strtod: Strtod)
    requires mark == (|text + "\0"| > 4 && MARK <= text + "\0")
    ensures var content, bom := text + "\0", if mark then 3 else 0;
            Parse(text, strtod) == ParseValue(content[bom + Skip(content[bom..])..], 0, strtod)
  {
    hide ParseValue, Skip;
  }

  lemma TextJoined(content: string, mark: bool, bom: nat, k: nat, v: Spelled, strtod: Strtod)
    requires bom == (if mark then 3 else 0) && bom + k <= |content| && (mark ==> MARK <= content)
    requires Written(content[bom + k..], v, 0, strtod)
    ensures Legal(v, strtod) && ParseValue(content[bom + k..], 0, strtod) == Got(Tree(v), |Text(v)|)
    ensures Starts(content, (if mark then MARK else "") + (content[bom..][..k] + Text(v)))
  {
    hide Legal, Text, Tree, ParseValue;
    var head := if mark then MARK else "";
    var t := Text(v);
    assert content[..bom + k + |t|] == content[..bom] + (content[bom..][..k] + content[bom + k..][..|t|]);
    assert content[..bom] == head;
  }

  /** Every text that is parsed is spelled like that, and the tree is the one that is spelled. */
  lemma {:induction false} ParsedSpelled(text: string, strtod: Strtod) returns (mark: bool, before: string, v: Spelled)
    requires Steady(strtod) && Parse(text, strtod).Got?
    ensures Spells(text, mark, before, v, strtod) && Parse(text, strtod).value == Tree(v)
  {
    var content := text + "\0";
    mark := |content| > 4 && MARK <= content;
    var bom := if mark then 3 else 0;
    var s := content[bom..];
    var k := Skip(s);
    before := s[..k];
    hide *;
    ParseIs(text, mark, strtod);
    Skipped(s);
    v := ValueWritten(content[bom + k..], 0, strtod);
    R.ParsedNest(content[bom + k..], 0, strtod);
    DeepTree(v);
    TextJoined(content, mark, bom, k, v, strtod);
  }
}
