/**
 * Spelled trees: the tokens of a JSON text with any blanks around them, section 2 of RFC 8259. Whatever the
 * blanks and the spelling of the strings, the parser gives the tree that is spelled.
 */
module JsonLayout {
  import opened Json
  import opened JsonGrammar
  import opened JsonSpelling
  import opened JsonRoundTrip
  import opened Concatenation

  /** A value as it is spelled; an array or object without members may hold blanks. */
  datatype Spelled =
    | NullWord
    | FalseWord
    | TrueWord
    | Digits(text: string)
    | Token(str: Str)
    | Bracketed(blanks: string, items: seq<Item>)
    | Braced(blanks: string, members: seq<Entry>)

  /** An item of an array and the blanks around it. */
  datatype Item = Item(before: string, value: Spelled, after: string)

  /** A member of an object and the blanks around its name and its value. */
  datatype Entry = Entry(before: string, name: Str, behind: string, gap: string, value: Spelled, after: string)

  predicate Legal(v: Spelled, strtod: Strtod)
    decreases v, 0
  {
    match v
    case Digits(text) => ReadableNumber(text, strtod)
    case Token(str) => LegalStr(str)
    case Bracketed(blanks, items) => Blank(blanks) && LegalItems(items, strtod)
    case Braced(blanks, members) => Blank(blanks) && LegalEntries(members, strtod)
    case _ => true
  }

  predicate LegalItems(items: seq<Item>, strtod: Strtod)
    decreases items, 1
  {
    items != [] ==>
      Blank(items[0].before) && Legal(items[0].value, strtod) && Blank(items[0].after) && LegalItems(items[1..], strtod)
  }

  predicate LegalEntry(e: Entry, strtod: Strtod)
    decreases e, 1
  {
    && Blank(e.before) && LegalStr(e.name) && Blank(e.behind)
    && Blank(e.gap) && Legal(e.value, strtod) && Blank(e.after)
  }

  predicate LegalEntries(members: seq<Entry>, strtod: Strtod)
    decreases members, 2
  {
    members != [] ==> LegalEntry(members[0], strtod) && LegalEntries(members[1..], strtod)
  }

  /** The text of a value. */
  function Text(v: Spelled): string
    decreases v, 0
  {
    match v
    case NullWord => "null"
    case FalseWord => "false"
    case TrueWord => "true"
    case Digits(text) => text
    case Token(str) => StrText(str)
    case Bracketed(blanks, items) => "[" + (blanks + ItemsText(items)) + "]"
    case Braced(blanks, members) => "{" + (blanks + EntriesText(members)) + "}"
  }

  /** The items with a comma between each and the next. */
  function ItemsText(items: seq<Item>): string
    decreases items, 1
  {
    if items == [] then ""
    else
      items[0].before + Text(items[0].value) + items[0].after
      + (if |items| == 1 then "" else "," + ItemsText(items[1..]))
  }

  function EntryText(e: Entry): string
    decreases e, 1
  {
    e.before + StrText(e.name) + e.behind + ":" + e.gap + Text(e.value) + e.after
  }

  function EntriesText(members: seq<Entry>): string
    decreases members, 2
  {
    if members == [] then ""
    else
      EntryText(members[0])
      + (if |members| == 1 then "" else "," + EntriesText(members[1..]))
  }

  /** The tree that is spelled. */
  function Tree(v: Spelled): Json
    decreases v, 0
  {
    match v
    case NullWord => Null
    case FalseWord => False
    case TrueWord => True
    case Digits(text) => Number(text)
    case Token(str) => String(StrValue(str))
    case Bracketed(blanks, items) => Array(TreeItems(items))
    case Braced(blanks, members) => Object(TreeEntries(members))
  }

  function TreeItems(items: seq<Item>): (trees: seq<Json>)
    ensures |trees| == |items|
    decreases items, 1
  {
    if items == [] then [] else [Tree(items[0].value)] + TreeItems(items[1..])
  }

  function Named(e: Entry): Member
    decreases e, 1
  {
    Member(StrValue(e.name), Tree(e.value))
  }

  function TreeEntries(members: seq<Entry>): (trees: seq<Member>)
    ensures |trees| == |members|
    decreases members, 2
  {
    if members == [] then [] else [Named(members[0])] + TreeEntries(members[1..])
  }

  /** How many brackets and braces are open at once. */
  function Deep(v: Spelled): nat
    decreases v, 0
  {
    match v
    case Bracketed(blanks, items) => 1 + DeepItems(items)
    case Braced(blanks, members) => 1 + DeepEntries(members)
    case _ => 0
  }

  function DeepItems(items: seq<Item>): nat
    decreases items, 1
  {
    if items == [] then 0 else Max(Deep(items[0].value), DeepItems(items[1..]))
  }

  function DeepEntries(members: seq<Entry>): nat
    decreases members, 1
  {
    if members == [] then 0 else Max(Deep(members[0].value), DeepEntries(members[1..]))
  }

  /** The characters of a number, section 6 of RFC 8259, and those that may start one. */
  lemma NumberChars(c: char)
    ensures NumberChar(c) <==> c in "0123456789+-.eE"
    ensures StartsNumber([c]) <==> c in "-0123456789"
  {
  }

  /** What stands behind a value does not go on with its number. */
  predicate NumberEnds(rest: string) {
    rest != "" ==> !NumberChar(rest[0])
  }

  lemma {:induction false} DigitsTaken(text: string, rest: string, room: nat)
    requires |text| <= room && (forall i :: 0 <= i < |text| ==> NumberChar(text[i])) && NumberEnds(rest)
    ensures NumberText(text + rest, room) == text
    decreases |text|
  {
    if text == "" {
      assert text + rest == rest;
    } else {
      HeadOf(text, rest);
      DigitsTaken(text[1..], rest, room - 1);
    }
  }

  /** The words, numbers and strings. */
  lemma {:induction false} WordRead(v: Spelled, rest: string, depth: nat, strtod: Strtod)
    requires v.NullWord? || v.FalseWord? || v.TrueWord?
    ensures ParseValue(Text(v) + rest, depth, strtod) == Got(Tree(v), |Text(v)|)
  {
    assert (Text(v) + rest)[0] == Text(v)[0];
  }

  lemma {:induction false} DigitsRead(text: string, rest: string, depth: nat, strtod: Strtod)
    requires ReadableNumber(text, strtod) && NumberEnds(rest)
    ensures ParseValue(text + rest, depth, strtod) == Got(Number(text), |text|)
  {
    DigitsTaken(text, rest, 63);
    assert text[..|text|] == text;
  }

  lemma {:induction false} StrTokenRead(x: Str, rest: string, depth: nat, strtod: Strtod)
    requires LegalStr(x)
    ensures ParseValue(StrText(x) + rest, depth, strtod) == Got(String(StrValue(x)), |StrText(x)|)
  {
    StrRead(x, rest);
    assert (StrText(x) + rest)[0] == '\"';
    hide StrText, StrValue, ParseString, LegalStr;
  }

  lemma {:induction false} TextHead(v: Spelled, strtod: Strtod)
    requires Legal(v, strtod)
    ensures Text(v) != "" && ' ' < Text(v)[0] < '\U{007f}' && Text(v)[0] !in {']', '}'}
  {
    if v.Token? {
      StrRead(v.str, "");
    }
    hide LegalItems, LegalEntries, ItemsText, EntriesText, StrText, LegalStr;
  }

  lemma {:induction false} ArrayOpen(ws: string, more: string, depth: nat, strtod: Strtod)
    requires Blank(ws) && more != "" && more[0] > ' ' && depth < NESTING_LIMIT
    ensures more[0] == ']' ==> ParseValue("[" + (ws + more), depth, strtod) == Got(Array([]), |ws| + 2)
    ensures more[0] != ']' ==>
              ParseValue("[" + (ws + more), depth, strtod) ==
              (var r := ParseItems(more, depth + 1, strtod);
               if r.Got? then Got(Array(r.value), 1 + |ws| + r.used) else Fail)
  {
    hide Skip, ParseItems;
    var s := "[" + (ws + more);
    assert s[0] == '[' && s[1..] == ws + more;
    BlanksBefore(ws, more);
    assert s[1 + |ws|..] == more && s[1 + |ws|] == more[0];
  }

  lemma {:induction false} ObjectOpen(ws: string, more: string, depth: nat, strtod: Strtod)
    requires Blank(ws) && more != "" && more[0] > ' ' && depth < NESTING_LIMIT
    ensures more[0] == '}' ==> ParseValue("{" + (ws + more), depth, strtod) == Got(Object([]), |ws| + 2)
    ensures more[0] != '}' ==>
              ParseValue("{" + (ws + more), depth, strtod) ==
              (var r := ParseMembers(more, depth + 1, strtod);
               if r.Got? then Got(Object(r.value), 1 + |ws| + r.used) else Fail)
  {
    hide Skip, ParseMembers;
    var s := "{" + (ws + more);
    assert s[0] == '{' && s[1..] == ws + more;
    BlanksBefore(ws, more);
    assert s[1 + |ws|..] == more && s[1 + |ws|] == more[0];
  }

  /** What follows the blanks behind an item: the end of the array, or the other items. */
  function AfterItem(items: seq<Item>, rest: string): (s: string)
    requires items != []
    ensures s != "" && s[0] == (if |items| == 1 then ']' else ',')
  {
    if |items| == 1 then "]" + rest else "," + (ItemsText(items[1..]) + ("]" + rest))
  }

  /** The items from the first one's text on. */
  function FromItem(items: seq<Item>, rest: string): string
    requires items != []
  {
    Text(items[0].value) + (items[0].after + AfterItem(items, rest))
  }

  lemma {:induction false} ItemsSplit(items: seq<Item>, rest: string)
    requires items != []
    ensures ItemsText(items) + ("]" + rest) == items[0].before + FromItem(items, rest)
    ensures |ItemsText(items)|
         == |items[0].before| + |Text(items[0].value)| + |items[0].after|
            + (if |items| == 1 then 0 else 1 + |ItemsText(items[1..])|)
  {
    hide Text;
    var i := items[0];
    var more := if |items| == 1 then "" else "," + ItemsText(items[1..]);
    assert ItemsText(items) == i.before + Text(i.value) + i.after + more;
    hide ItemsText;
    assert AfterItem(items, rest) == more + ("]" + rest);
    Five(i.before, Text(i.value), i.after, more, "]" + rest);
  }

  lemma Five(a: string, b: string, c: string, d: string, e: string)
    ensures a + b + c + d + e == a + (b + (c + (d + e)))
  {
  }

  lemma {:induction false} FromFirst(items: seq<Item>, rest: string)
    requires items != []
    ensures FromItem(items, rest) == Text(items[0].value) + (items[0].after + AfterItem(items, rest))
    ensures |items| > 1 ==>
              AfterItem(items, rest)[1..] == ItemsText(items[1..]) + ("]" + rest) && items[1..][0] == items[1]
    ensures AfterItem(items, rest)[0] > ' '
  {
    hide Text, ItemsText;
  }

  /** Legal items inside the nesting limit. */
  predicate Ready(items: seq<Item>, depth: nat, strtod: Strtod) {
    items != [] && LegalItems(items, strtod) && depth + DeepItems(items) <= NESTING_LIMIT
  }

  lemma {:induction false} ReadyFirst(items: seq<Item>, rest: string, depth: nat, strtod: Strtod)
    requires Ready(items, depth, strtod)
    ensures Legal(items[0].value, strtod) && depth + Deep(items[0].value) <= NESTING_LIMIT
    ensures Blank(items[0].before) && Blank(items[0].after) && NumberEnds(items[0].after + AfterItem(items, rest))
    ensures TreeItems(items) == [Tree(items[0].value)] + TreeItems(items[1..])
    ensures |items| > 1 ==> Ready(items[1..], depth, strtod)
    ensures |items| == 1 ==> TreeItems(items) == [Tree(items[0].value)]
  {
    hide Legal, Deep, Text, Tree;
  }

  /** The items of an array are read, whatever the blanks around them. */
  lemma {:induction false} ItemsRead(ws: string, items: seq<Item>, rest: string, depth: nat, strtod: Strtod)
    requires Blank(ws) && Ready(items, depth, strtod)
    ensures ParseItems(ws + FromItem(items, rest), depth, strtod)
         == Got(TreeItems(items), |ws| + |ItemsText(items)| - |items[0].before| + 1)
    decreases items, 1
  {
    ReadyFirst(items, rest, depth, strtod);
    TextHead(items[0].value, strtod);
    hide *;
    ItemsSplit(items, rest);
    var text, after := Text(items[0].value), AfterItem(items, rest);
    var tree := Tree(items[0].value);
    ValueRead(items[0].value, items[0].after + after, depth, strtod);
    FromFirst(items, rest);
    ItemStep(ws, text, items[0].after + after, tree, depth, strtod);
    AfterItemStep(items[0].after, after, tree, depth, strtod);
    if |items| > 1 {
      ItemsSplit(items[1..], rest);
      ItemsRead(items[1].before, items[1..], rest, depth, strtod);
    }
  }

  lemma {:induction false} ArrayRead(blanks: string, items: seq<Item>, rest: string, depth: nat, strtod: Strtod)
    requires Blank(blanks) && LegalItems(items, strtod) && depth + 1 + DeepItems(items) <= NESTING_LIMIT
    ensures ParseValue(Text(Bracketed(blanks, items)) + rest, depth, strtod)
         == Got(Array(TreeItems(items)), |Text(Bracketed(blanks, items))|)
    decreases items, 2
  {
    ArrayText(blanks, items, rest);
    hide Text, ItemsText, ParseValue, ParseItems;
    if items == [] {
      NothingBetween("]" + rest);
      ArrayOpen(blanks, "]" + rest, depth, strtod);
    } else {
      ReadyFirst(items, rest, depth + 1, strtod);
      TextHead(items[0].value, strtod);
      hide *;
      ItemsSplit(items, rest);
      FromFirst(items, rest);
      ItemsRead("", items, rest, depth + 1, strtod);
      var more := FromItem(items, rest);
      assert "" + more == more;
      BlankBoth(blanks, items[0].before, more);
      ArrayOpen(blanks + items[0].before, more, depth, strtod);
    }
  }

  lemma BlankBoth(a: string, b: string, s: string)
    requires Blank(a) && Blank(b)
    ensures Blank(a + b) && a + (b + s) == (a + b) + s
  {
  }

  lemma {:induction false} ArrayText(blanks: string, items: seq<Item>, rest: string)
    ensures Text(Bracketed(blanks, items)) + rest == "[" + (blanks + (ItemsText(items) + ("]" + rest)))
    ensures |Text(Bracketed(blanks, items))| == |blanks| + |ItemsText(items)| + 2
  {
    hide ItemsText;
  }

  lemma NothingBetween(rest: string)
    ensures ItemsText([]) + rest == rest && EntriesText([]) + rest == rest
    ensures ItemsText([]) == "" && EntriesText([]) == ""
    ensures TreeItems([]) == [] && TreeEntries([]) == []
  {
  }

  lemma {:induction false} ValueRead(v: Spelled, rest: string, depth: nat, strtod: Strtod)
    requires Legal(v, strtod) && depth + Deep(v) <= NESTING_LIMIT && NumberEnds(rest)
    ensures ParseValue(Text(v) + rest, depth, strtod) == Got(Tree(v), |Text(v)|)
    decreases v, 5
  {
    hide ParseValue;
    match v
    case Digits(text) => DigitsRead(text, rest, depth, strtod);
    case Token(str) => StrTokenRead(str, rest, depth, strtod);
    case Bracketed(blanks, items) => ArrayRead(blanks, items, rest, depth, strtod);
    case Braced(blanks, members) => ObjectRead(blanks, members, rest, depth, strtod);
    case _ => WordRead(v, rest, depth, strtod);
  }

  /** What follows the blanks behind a member: the end of the object, or the other members. */
  function AfterEntry(members: seq<Entry>, rest: string): (s: string)
    requires members != []
    ensures s != "" && s[0] == (if |members| == 1 then '}' else ',')
  {
    if |members| == 1 then "}" + rest else "," + (EntriesText(members[1..]) + ("}" + rest))
  }

  /** The members from the first one's value on. */
  function FromValue(members: seq<Entry>, rest: string): string
    requires members != []
  {
    Text(members[0].value) + (members[0].after + AfterEntry(members, rest))
  }

  /** A name from its quote on, with its colon and the blanks around that. */
  function NameText(e: Entry): string {
    StrText(e.name) + (e.behind + (":" + e.gap))
  }

  lemma {:induction false} EntryParts(e: Entry)
    ensures EntryText(e) == e.before + NameText(e) + Text(e.value) + e.after
  {
    hide Text, StrText;
    var n := StrText(e.name);
    assert e.before + n + e.behind + ":" + e.gap == e.before + (n + (e.behind + (":" + e.gap)));
  }

  lemma {:induction false} EntriesSplit(members: seq<Entry>, rest: string)
    requires members != []
    ensures EntriesText(members) + ("}" + rest) == members[0].before + (NameText(members[0]) + FromValue(members, rest))
    ensures |EntriesText(members)|
         == |members[0].before| + |NameText(members[0])| + |Text(members[0].value)| + |members[0].after|
            + (if |members| == 1 then 0 else 1 + |EntriesText(members[1..])|)
  {
    hide Text, NameText, EntryText;
    var e := members[0];
    EntryParts(e);
    var more := if |members| == 1 then "" else "," + EntriesText(members[1..]);
    assert EntriesText(members) == EntryText(e) + more;
    hide EntriesText;
    assert AfterEntry(members, rest) == more + ("}" + rest);
    Six(e.before, NameText(e), Text(e.value), e.after, more, "}" + rest);
  }

  lemma Six(a: string, b: string, c: string, d: string, e: string, f: string)
    ensures a + b + c + d + e + f == a + (b + (c + (d + (e + f))))
  {
  }

  /** A name is read, whatever the blanks before and behind it and behind its colon. */
  lemma {:induction false} NameRead(ws: string, e: Entry, s: string, strtod: Strtod)
    requires Blank(ws) && LegalEntry(e, strtod) && s != "" && s[0] > ' '
    ensures ParseName((ws + NameText(e)) + s) == Got(StrValue(e.name), |ws| + |NameText(e)|)
  {
    hide *;
    LegalName(e, strtod);
    MoreStarts(e, s);
    NameAlone(e, s, strtod);
    NameShift(ws, NameText(e) + s);
    Associate(ws, NameText(e), s);
  }

  lemma {:induction false} NameAlone(e: Entry, s: string, strtod: Strtod)
    requires LegalEntry(e, strtod) && s != "" && s[0] > ' '
    ensures ParseName(NameText(e) + s) == Got(StrValue(e.name), |NameText(e)|)
  {
    hide *;
    NameUnfolded(e, s);
    NameAfter(e, s, strtod);
  }

  lemma LegalName(e: Entry, strtod: Strtod)
    requires LegalEntry(e, strtod)
    ensures LegalStr(e.name)
  {
    hide LegalStr, Legal;
  }

  lemma QuoteFirst(x: Str, rest: string)
    requires LegalStr(x)
    ensures StrText(x) + rest != "" && (StrText(x) + rest)[0] > ' '
  {
    StrRead(x, rest);
    hide StrText, LegalStr;
  }

  lemma {:induction false} NameUnfolded(e: Entry, s: string)
    ensures NameText(e) + s == StrText(e.name) + (e.behind + (":" + (e.gap + s)))
    ensures |NameText(e)| == |StrText(e.name)| + |e.behind| + 1 + |e.gap|
  {
    hide StrText;
  }

  lemma {:induction false} NameAfter(e: Entry, s: string, strtod: Strtod)
    requires LegalEntry(e, strtod) && s != "" && s[0] > ' '
    ensures ParseName(StrText(e.name) + (e.behind + (":" + (e.gap + s))))
         == Got(StrValue(e.name), |StrText(e.name)| + |e.behind| + 1 + |e.gap|)
  {
    hide Legal, Text, StrText, StrValue, LegalStr, ParseString, Skip;
    var quoted, colon := StrText(e.name), ":" + (e.gap + s);
    var t := quoted + (e.behind + colon);
    StrRead(e.name, e.behind + colon);
    QuoteFirst(e.name, e.behind + colon);
    SkipNone(t);
    assert t[0..] == t && t[|quoted|..] == e.behind + colon;
    BlanksBefore(e.behind, colon);
    var c := |quoted| + |e.behind|;
    assert t[c] == ':' && t[c + 1..] == e.gap + s;
    BlanksBefore(e.gap, s);
  }

  /** Legal members inside the nesting limit. */
  predicate ReadyEntries(members: seq<Entry>, depth: nat, strtod: Strtod) {
    members != [] && LegalEntries(members, strtod) && depth + DeepEntries(members) <= NESTING_LIMIT
  }

  lemma {:induction false} ReadyEntry(members: seq<Entry>, rest: string, depth: nat, strtod: Strtod)
    requires ReadyEntries(members, depth, strtod)
    ensures LegalEntry(members[0], strtod) && depth + Deep(members[0].value) <= NESTING_LIMIT
    ensures TreeEntries(members)
         == [Named(members[0])] + TreeEntries(members[1..])
    ensures |members| > 1 ==> ReadyEntries(members[1..], depth, strtod) && members[1..][0] == members[1]
    ensures |members| == 1 ==> TreeEntries(members) == [Named(members[0])]
  {
    hide LegalEntry, Deep, Text, Tree, StrValue;
  }

  lemma {:induction false} EntryParse(members: seq<Entry>, rest: string, strtod: Strtod)
    requires members != [] && LegalEntry(members[0], strtod)
    ensures Legal(members[0].value, strtod)
    ensures Blank(members[0].before) && Blank(members[0].after)
    ensures NumberEnds(members[0].after + AfterEntry(members, rest))
    ensures FromValue(members, rest) == Text(members[0].value) + (members[0].after + AfterEntry(members, rest))
    ensures |members| > 1 ==> AfterEntry(members, rest)[1..] == EntriesText(members[1..]) + ("}" + rest)
    ensures AfterEntry(members, rest)[0] > ' ' && FromValue(members, rest) != "" && FromValue(members, rest)[0] > ' '
  {
    TextHead(members[0].value, strtod);
    hide Legal, Text, EntriesText;
  }

  lemma ValueHead(e: Entry, s: string, strtod: Strtod)
    requires LegalEntry(e, strtod)
    ensures Text(e.value) + s != "" && (Text(e.value) + s)[0] > ' '
  {
    TextHead(e.value, strtod);
    hide Text, Legal;
  }

  lemma {:induction false} EntryName(ws: string, e: Entry, s: string, depth: nat, strtod: Strtod)
    requires Blank(ws) && LegalEntry(e, strtod) && s != "" && s[0] > ' '
    ensures ParseMembers(ws + (NameText(e) + s), depth, strtod)
         == (var r := ParseNamed(StrValue(e.name), s, depth, strtod);
             if r.Got? then Got(r.value, |ws| + |NameText(e)| + r.used) else Fail)
  {
    hide *;
    NameRead(ws, e, s, strtod);
    Associate(ws, NameText(e), s);
    MembersStep(ws + NameText(e), StrValue(e.name), s, depth, strtod);
  }

  /** The first member of an object is read. */
  lemma {:induction false} EntryStep(ws: string, e: Entry, s: string, depth: nat, strtod: Strtod)
    requires Blank(ws) && LegalEntry(e, strtod)
    requires ParseValue(Text(e.value) + s, depth, strtod) == Got(Tree(e.value), |Text(e.value)|)
    ensures ParseMembers(ws + (NameText(e) + (Text(e.value) + s)), depth, strtod)
         == (var r := ParseMembersAfter(Named(e), s, depth, strtod);
             if r.Got? then Got(r.value, |ws| + |NameText(e)| + |Text(e.value)| + r.used) else Fail)
  {
    ValueHead(e, s, strtod);
    assert Named(e) == Member(StrValue(e.name), Tree(e.value));
    hide *;
    EntryName(ws, e, Text(e.value) + s, depth, strtod);
    NamedStep(StrValue(e.name), Text(e.value), s, Tree(e.value), depth, strtod);
  }

  /** What the closing of the object, or the other members, give behind the first one. */
  lemma {:induction false} EntriesAfter(members: seq<Entry>, rest: string, depth: nat, strtod: Strtod)
    requires members != [] && ReadyEntries(members, depth, strtod)
    ensures var e := members[0];
            var r := ParseMembersAfter(Named(e), e.after + AfterEntry(members, rest), depth, strtod);
            && r.Got? && r.value == TreeEntries(members)
            && r.used + |e.before| + |NameText(e)| + |Text(e.value)| == |EntriesText(members)| + 1
    decreases members, 1
  {
    ReadyEntry(members, rest, depth, strtod);
    hide *;
    EntryParse(members, rest, strtod);
    EntriesSplit(members, rest);
    AfterMemberStep(Named(members[0]), members[0].after, AfterEntry(members, rest), depth, strtod);
    if |members| > 1 {
      EntriesSplit(members[1..], rest);
      ReadyEntry(members[1..], rest, depth, strtod);
      EntriesRead(members[1].before, members[1..], rest, depth, strtod);
    }
  }

  /** The members of an object are read, whatever the blanks around them. */
  lemma {:induction false} EntriesRead(ws: string, members: seq<Entry>, rest: string, depth: nat, strtod: Strtod)
    requires members != [] && Blank(ws) && ReadyEntries(members, depth, strtod)
    ensures var r := ParseMembers(ws + (NameText(members[0]) + FromValue(members, rest)), depth, strtod);
            && r.Got? && r.value == TreeEntries(members)
            && r.used + |members[0].before| == |ws| + |EntriesText(members)| + 1
    decreases members, 2
  {
    ReadyEntry(members, rest, depth, strtod);
    hide *;
    var e, after := members[0], AfterEntry(members, rest);
    EntryParse(members, rest, strtod);
    ValueRead(e.value, e.after + after, depth, strtod);
    EntryStep(ws, e, e.after + after, depth, strtod);
    EntriesAfter(members, rest, depth, strtod);
  }

  lemma {:induction false} ObjectText(blanks: string, members: seq<Entry>, rest: string)
    ensures Text(Braced(blanks, members)) + rest == "{" + (blanks + (EntriesText(members) + ("}" + rest)))
    ensures |Text(Braced(blanks, members))| == |blanks| + |EntriesText(members)| + 2
  {
    hide EntriesText;
  }

  lemma {:induction false} ObjectRead(blanks: string, members: seq<Entry>, rest: string, depth: nat, strtod: Strtod)
    requires Blank(blanks) && LegalEntries(members, strtod) && depth + 1 + DeepEntries(members) <= NESTING_LIMIT
    ensures ParseValue(Text(Braced(blanks, members)) + rest, depth, strtod)
         == Got(Object(TreeEntries(members)), |Text(Braced(blanks, members))|)
    decreases members, 4
  {
    ObjectText(blanks, members, rest);
    hide Text, EntriesText, ParseValue, ParseMembers;
    if members == [] {
      NothingBetween("}" + rest);
      ObjectOpen(blanks, "}" + rest, depth, strtod);
    } else {
      MembersRead(blanks, members, rest, depth, strtod);
    }
  }

  lemma {:induction false} MembersRead(blanks: string, members: seq<Entry>, rest: string, depth: nat, strtod: Strtod)
    requires members != [] && Blank(blanks) && ReadyEntries(members, depth + 1, strtod)
    ensures ParseValue("{" + (blanks + (EntriesText(members) + ("}" + rest))), depth, strtod)
         == Got(Object(TreeEntries(members)), |blanks| + |EntriesText(members)| + 2)
    decreases members, 3
  {
    hide *;
    ReadyInside(members, depth, strtod);
    var more := NameText(members[0]) + FromValue(members, rest);
    EntriesRead("", members, rest, depth + 1, strtod);
    assert "" + more == more;
    EntriesOpen(blanks, members, rest, depth, strtod);
  }

  lemma {:induction false} EntriesOpen(blanks: string, members: seq<Entry>, rest: string, depth: nat, strtod: Strtod)
    requires members != [] && Blank(blanks) && Blank(members[0].before) && depth < NESTING_LIMIT
    requires LegalStr(members[0].name)
    ensures ParseValue("{" + (blanks + (EntriesText(members) + ("}" + rest))), depth, strtod)
         == (var r := ParseMembers(NameText(members[0]) + FromValue(members, rest), depth + 1, strtod);
             if r.Got? then Got(Object(r.value), 1 + |blanks| + |members[0].before| + r.used) else Fail)
  {
    hide *;
    var e, more := members[0], NameText(members[0]) + FromValue(members, rest);
    MoreStarts(e, FromValue(members, rest));
    EntriesSplit(members, rest);
    BlankBoth(blanks, e.before, more);
    ObjectOpen(blanks + e.before, more, depth, strtod);
  }

  lemma ReadyInside(members: seq<Entry>, depth: nat, strtod: Strtod)
    requires members != [] && ReadyEntries(members, depth + 1, strtod)
    ensures depth < NESTING_LIMIT && Blank(members[0].before) && Blank("") && LegalStr(members[0].name)
  {
    ReadyEntry(members, "", depth + 1, strtod);
    hide Legal, LegalEntries, LegalStr;
  }

  lemma MoreStarts(e: Entry, s: string)
    requires LegalStr(e.name)
    ensures NameText(e) + s != "" && (NameText(e) + s)[0] > ' ' && (NameText(e) + s)[0] != '}'
  {
    StrRead(e.name, "");
    assert (NameText(e) + s)[0] == StrText(e.name)[0];
    hide StrText, LegalStr;
  }

  const MARK: string := "\U{00EF}\U{00BB}\U{00BF}"

  /** A text that starts with the value after its mark and blanks. */
  lemma {:induction false} ParseFrom(mark: bool, before: string, s: string, strtod: Strtod)
    requires Blank(before) && |s| > 0 && ' ' < s[0] < '\U{007f}'
    ensures Parse((if mark then MARK else "") + (before + s), strtod) == ParseValue(s + "\0", 0, strtod)
  {
    hide ParseValue, Skip, Blank;
    var text := (if mark then MARK else "") + (before + s);
    var content := text + "\0";
    var bom := if mark then 3 else 0;
    assert content[bom..] == before + (s + "\0");
    BlanksBefore(before, s + "\0");
    assert content[bom + |before|..] == s + "\0";
    MarkSeen(mark, before, s);
  }

  lemma MarkSeen(mark: bool, before: string, s: string)
    requires Blank(before) && |s| > 0 && ' ' < s[0] < '\U{007f}'
    ensures var content := (if mark then MARK else "") + (before + s) + "\0";
            |content| > 4 && MARK <= content <==> mark
  {
    var content := (if mark then MARK else "") + (before + s) + "\0";
    if mark {
      assert content[..3] == MARK;
    } else {
      assert content[0] == (before + s)[0] <= '\U{007f}';
    }
  }

  /** The tree is nested as deep as its text. */
  lemma {:induction false} DeepTree(v: Spelled)
    ensures Nest(Tree(v)) == Deep(v)
    decreases v, 0
  {
    match v
    case Bracketed(blanks, items) => DeepTrees(items);
    case Braced(blanks, members) => DeepMembers(members);
    case _ =>
  }

  lemma {:induction false} DeepTrees(items: seq<Item>)
    ensures NestItems(TreeItems(items)) == DeepItems(items)
    decreases items, 1
  {
    hide Tree, Nest, Deep;
    if items != [] {
      DeepTree(items[0].value);
      DeepTrees(items[1..]);
    }
  }

  lemma {:induction false} DeepMembers(members: seq<Entry>)
    ensures NestMembers(TreeEntries(members)) == DeepEntries(members)
    decreases members, 1
  {
    hide Tree, Nest, Deep, StrValue;
    if members != [] {
      DeepTree(members[0].value);
      DeepMembers(members[1..]);
    }
  }

  /**
   * A byte order mark or none, blanks, a spelled value and whatever does not go on with its number: the parser
   * gives the tree that is spelled exactly when no more than a thousand brackets and braces are open at once.
   */
  lemma {:induction false} SpelledParsed(mark: bool, before: string, v: Spelled, after: string, strtod: Strtod)
    requires Blank(before) && Legal(v, strtod) && NumberEnds(after)
    ensures var r := Parse((if mark then MARK else "") + (before + (Text(v) + after)), strtod);
            if Deep(v) <= 1000 then r == Got(Tree(v), |Text(v)|) else r.Got? ==> r.value != Tree(v)
  {
    assert NESTING_LIMIT == 1000;
    TextHead(v, strtod);
    assert NumberEnds(after + "\0");
    hide *;
    assert Text(v) + after + "\0" == Text(v) + (after + "\0");
    ParseFrom(mark, before, Text(v) + after, strtod);
    if Deep(v) <= NESTING_LIMIT {
      ValueRead(v, after + "\0", 0, strtod);
    } else {
      DeepTree(v);
      ParsedNest(Text(v) + (after + "\0"), 0, strtod);
    }
  }
}
