/** Parsing what was printed: exactly when it gives the same tree back. */
module JsonRoundTrip {
  import opened Json
  import opened JsonGrammar
  import opened Concatenation

  /** What follows a printed value or name. */
  predicate Delimited(rest: string) {
    rest != "" && rest[0] in {',', ']', '}', ':', '\n', '\0'}
  }

  predicate Blank(s: string) {
    forall i :: 0 <= i < |s| ==> s[i] <= ' '
  }

  lemma {:induction false} BlanksBefore(ws: string, s: string)
    requires Blank(ws) && s != "" && s[0] > ' '
    ensures Skip(ws + s) == |ws| && (ws + s)[|ws|..] == s
  {
    BlanksPrefix(ws, s);
  }

  lemma {:induction false} BlanksPrefix(ws: string, s: string)
    requires Blank(ws) && s != "" && s[0] > ' '
    ensures Blanks(ws + s) == |ws|
    decreases |ws|
  {
    if ws == "" {
      assert ws + s == s;
    } else {
      assert (ws + s)[1..] == ws[1..] + s;
      BlanksPrefix(ws[1..], s);
    }
  }

  /** How many characters of `x` come before its first control character without a short escape. */
  function CleanPrefix(x: string): (n: nat)
    ensures n <= |x| && (n == |x| <==> CleanString(x))
    ensures forall i :: 0 <= i < n ==> !Control(x[i])
  {
    if x == "" || Control(x[0]) then 0 else 1 + CleanPrefix(x[1..])
  }

  lemma TokenStep(c: char, s: string, left: nat)
    requires !Control(c) && |Token(c)| + left < |Token(c) + s|
    ensures StringEnd(Token(c) + s) ==
            (var r := StringEnd(s); if r.Got? then Got(r.value + |Token(c)|, 0) else Fail)
    ensures Decode(Token(c) + s, |Token(c)| + left) ==
            (var r := Decode(s, left); if r.Got? then Got([c] + r.value, 0) else Fail)
  {
    assert (Token(c) + s)[|Token(c)|..] == s;
    if ShortEscape(c) != "" {
      assert Unescaped(ShortEscape(c)[0]) == [c];
      if left == 0 {
        assert [c] + "" == [c];
      }
    }
  }

  lemma EscapedHead(x: string, rest: string)
    requires x != "" && !Control(x[0])
    ensures |Escaped(x)| == |Token(x[0])| + |Escaped(x[1..])|
    ensures Escaped(x) + rest == Token(x[0]) + (Escaped(x[1..]) + rest)
  {
    hide Token;
    Associate(Token(x[0]), Escaped(x[1..]), rest);
  }

  lemma StringEmpty(rest: string)
    ensures |Escaped("")| == 1
    ensures StringEnd(Escaped("") + rest) == Got(0, 0)
    ensures Decode(Escaped("") + rest, 0) == Got("", 0)
  {
  }

  /** The closing quote of a clean string is found, and its characters come back. */
  lemma {:induction false} StringBack(x: string, rest: string)
    requires CleanString(x)
    ensures |Escaped(x)| > 0
    ensures StringEnd(Escaped(x) + rest) == Got(|Escaped(x)| - 1, 0)
    ensures Decode(Escaped(x) + rest, |Escaped(x)| - 1) == Got(x, 0)
    decreases |x|
  {
    hide Escaped, StringEnd, Decode, Token;
    if x == "" {
      StringEmpty(rest);
    } else {
      StringBack(x[1..], rest);
      EscapedHead(x, rest);
      TokenStep(x[0], Escaped(x[1..]) + rest, |Escaped(x[1..])| - 1);
      assert x == [x[0]] + x[1..];
    }
  }

  /** What is read of a string that is not clean: the part before the bad character, then a NUL. */
  predicate Cut(s: string, before: string) {
    var end := StringEnd(s);
    end.Got? ==> var r := Decode(s, end.value); r.Got? ==> before + "\0" <= r.value
  }

  lemma CutStep(c: char, s: string, before: string)
    requires !Control(c) && Cut(s, before)
    ensures Cut(Token(c) + s, [c] + before)
  {
    hide StringEnd, Decode, Token;
    var end := StringEnd(s);
    if end.Got? {
      TokenStep(c, s, end.value);
      var r := Decode(s, end.value);
      if r.Got? {
        assert [c] + before + "\0" <= [c] + r.value;
      }
    } else {
      TokenStep(c, s + "x", 0);
      NoEnd(c, s);
    }
  }

  lemma NoEnd(c: char, s: string)
    requires !Control(c)
    ensures StringEnd(Token(c) + s).Got? ==> StringEnd(s).Got?
  {
    assert (Token(c) + s)[|Token(c)|..] == s;
  }

  lemma PrefixHead(x: string, n: nat)
    requires n < |x|
    ensures [x[0]] + x[1..][..n] == x[..n + 1]
  {
  }

  /** A string that is not clean is cut short. */
  lemma {:induction false} StringCut(x: string, rest: string)
    requires !CleanString(x) && Delimited(rest)
    ensures Cut(Escaped(x) + rest, x[..CleanPrefix(x)])
    decreases |x|
  {
    if Control(x[0]) {
      ControlCut(x, rest);
    } else {
      hide Escaped, Cut, Token;
      StringCut(x[1..], rest);
      EscapedHead(x, rest);
      CutStep(x[0], Escaped(x[1..]) + rest, x[1..][..CleanPrefix(x[1..])]);
      PrefixHead(x, CleanPrefix(x[1..]));
    }
  }

  lemma ControlCut(x: string, rest: string)
    requires x != "" && Control(x[0]) && Delimited(rest)
    ensures Cut(Escaped(x) + rest, "")
  {
    var s := Escaped(x) + rest;
    assert s[..5] == Escaped(x) && s[5] == rest[0];
    assert Hex4(s[2..]) == 0;
  }

  lemma {:induction false} CStringWhole(s: string, n: nat)
    requires n <= |s| && (forall i :: 0 <= i < n ==> s[i] != '\0') && (n == |s| || s[n] == '\0')
    ensures CString(s) == s[..n]
    decreases n
  {
    if n > 0 {
      CStringWhole(s[1..], n - 1);
      assert s[..n] == [s[0]] + s[1..][..n - 1];
    }
  }

  /** A printed string is read back exactly when it is clean. */
  lemma {:induction false} StringRoundTrip(x: string, rest: string)
    requires Delimited(rest)
    ensures var r := ParseString(Quoted(x) + rest);
            if CleanString(x) then r == Got(x, |Quoted(x)|) else r.Got? ==> r.value != x
  {
    hide Escaped, StringEnd, Decode, CString;
    var s := Quoted(x) + rest;
    assert s[1..] == Escaped(x) + rest;
    if CleanString(x) {
      StringBack(x, rest);
      CStringWhole(x, |x|);
      assert x[..|x|] == x;
    } else {
      StringCut(x, rest);
      var end := StringEnd(s[1..]);
      if end.Got? {
        var r := Decode(s[1..], end.value);
        if r.Got? {
          var n := CleanPrefix(x);
          var seen := x[..n] + "\0";
          assert forall i :: 0 <= i < n ==> r.value[i] == seen[i] == x[i];
          assert r.value[n] == seen[n];
          CStringWhole(r.value, n);
        }
      }
    }
  }

  /** Every string and name of the tree can be read back. */
  predicate Clean(j: Json)
    decreases j, 0
  {
    match j
    case String(str) => CleanString(str)
    case Array(items) => CleanItems(items)
    case Object(members) => CleanMembers(members)
    case _ => true
  }

  predicate CleanItems(items: seq<Json>)
    decreases items, 1
  {
    items == [] || (Clean(items[0]) && CleanItems(items[1..]))
  }

  predicate CleanMembers(members: seq<Member>)
    decreases members, 1
  {
    members == [] || (CleanString(members[0].key) && Clean(members[0].value) && CleanMembers(members[1..]))
  }

  /** How many arrays and objects are open at the deepest place of the tree. */
  function Nest(j: Json): nat
    decreases j, 0
  {
    match j
    case Array(items) => 1 + NestItems(items)
    case Object(members) => 1 + NestMembers(members)
    case _ => 0
  }

  function Max(a: nat, b: nat): nat {
    if a < b then b else a
  }

  function NestItems(items: seq<Json>): nat
    decreases items, 1
  {
    if items == [] then 0 else Max(Nest(items[0]), NestItems(items[1..]))
  }

  function NestMembers(members: seq<Member>): nat
    decreases members, 1
  {
    if members == [] then 0 else Max(Nest(members[0].value), NestMembers(members[1..]))
  }

  /** strtod reads the whole of a number's printed text, which fits the parser's buffer. */
  predicate ReadableNumber(text: string, strtod: Strtod) {
    && StartsNumber(text)
    && |text| <= 63
    && (forall i :: 0 <= i < |text| ==> NumberChar(text[i]))
    && strtod(text) == |text|
  }

  /** libc reads back every number of the tree. */
  predicate Readable(j: Json, strtod: Strtod)
    decreases j, 0
  {
    match j
    case Number(text) => ReadableNumber(text, strtod)
    case Array(items) => ReadableItems(items, strtod)
    case Object(members) => ReadableMembers(members, strtod)
    case _ => true
  }

  predicate ReadableItems(items: seq<Json>, strtod: Strtod)
    decreases items, 1
  {
    items == [] || (Readable(items[0], strtod) && ReadableItems(items[1..], strtod))
  }

  predicate ReadableMembers(members: seq<Member>, strtod: Strtod)
    decreases members, 1
  {
    members == [] || (Readable(members[0].value, strtod) && ReadableMembers(members[1..], strtod))
  }

  lemma {:induction false} NumberTextWhole(text: string, rest: string, room: nat)
    requires |text| <= room && (forall i :: 0 <= i < |text| ==> NumberChar(text[i]))
    requires Delimited(rest)
    ensures NumberText(text + rest, room) == text
    decreases |text|
  {
    if text == "" {
      assert text + rest == rest;
      NumberTextNone(rest, room);
    } else {
      HeadOf(text, rest);
      NumberTextWhole(text[1..], rest, room - 1);
    }
  }

  lemma NumberTextNone(rest: string, room: nat)
    requires Delimited(rest)
    ensures NumberText(rest, room) == ""
  {
  }

  lemma HeadOf(text: string, rest: string)
    requires text != ""
    ensures (text + rest)[0] == text[0] && (text + rest)[1..] == text[1..] + rest && text == [text[0]] + text[1..]
  {
  }

  lemma RenderHead(j: Json, format: bool, d: nat, strtod: Strtod)
    requires Readable(j, strtod)
    ensures Render(j, format, d) != "" && Render(j, format, d)[0] > ' ' && Render(j, format, d)[0] !in {']', '}'}
  {
    hide ReadableItems, ReadableMembers, RenderItems, RenderMembers, Escaped;
  }

  lemma NumberBack(text: string, rest: string, depth: nat, strtod: Strtod)
    requires ReadableNumber(text, strtod) && Delimited(rest)
    ensures ParseValue(text + rest, depth, strtod) == Got(Number(text), |text|)
  {
    NumberTextWhole(text, rest, 63);
    assert text[..|text|] == text;
  }

  lemma StringValueBack(x: string, rest: string, depth: nat, strtod: Strtod)
    requires Delimited(rest)
    ensures var r := ParseValue(Quoted(x) + rest, depth, strtod);
            if CleanString(x) then r == Got(String(x), |Quoted(x)|) else r.Got? ==> r.value != String(x)
  {
    StringRoundTrip(x, rest);
    assert (Quoted(x) + rest)[0] == '\"';
    hide Quoted, ParseString;
  }

  lemma {:induction false} SkipNone(s: string)
    requires s != "" && s[0] > ' '
    ensures Skip(s) == 0
  {
  }

  lemma {:induction false} AfterItemStep(ws: string, rest: string, item: Json, depth: nat, strtod: Strtod)
    requires Blank(ws) && rest != "" && rest[0] > ' '
    ensures rest[0] == ']' ==> ParseItemsAfter(item, ws + rest, depth, strtod) == Got([item], |ws| + 1)
    ensures rest[0] == ',' ==>
              ParseItemsAfter(item, ws + rest, depth, strtod) ==
              (var r := ParseItems(rest[1..], depth, strtod);
               if r.Got? then Got([item] + r.value, |ws| + 1 + r.used) else Fail)
  {
    hide Skip, ParseItems;
    BlanksBefore(ws, rest);
    assert (ws + rest)[|ws| + 1..] == rest[1..];
  }

  /** One item: what follows it decides between the end of the array and another item. */
  lemma {:induction false} ItemStep(ws: string, text: string, rest: string, v: Json, depth: nat, strtod: Strtod)
    requires Blank(ws) && text != "" && text[0] > ' '
    requires ParseValue(text + rest, depth, strtod) == Got(v, |text|)
    ensures ParseItems(ws + (text + rest), depth, strtod) ==
            (var r := ParseItemsAfter(v, rest, depth, strtod);
             if r.Got? then Got(r.value, |ws| + |text| + r.used) else Fail)
  {
    hide Skip, ParseValue, ParseItemsAfter;
    BlanksBefore(ws, text + rest);
    assert (ws + (text + rest))[|ws| + |text|..] == rest;
  }

  lemma {:induction false} FirstItem(ws: string, s: string, depth: nat, strtod: Strtod)
    requires Blank(ws) && s != "" && s[0] > ' '
    ensures var r := ParseItems(ws + s, depth, strtod);
            var v := ParseValue(s, depth, strtod);
            r.Got? ==> v.Got? && r.value != [] && r.value[0] == v.value
  {
    hide Skip, ParseValue, ParseItemsAfter;
    BlanksBefore(ws, s);
  }

  /** The text after an item: the rest of the array, and what of it another call of ParseItems starts with. */
  function AfterItem(items: seq<Json>, format: bool, d: nat, rest: string): (s: string)
    requires items != []
    ensures s != "" && s[0] == (if |items| == 1 then ']' else ',')
  {
    if |items| == 1 then "]" + rest
    else "," + (Gap(format) + (RenderItems(items[1..], format, d) + ("]" + rest)))
  }

  lemma {:induction false} ItemsText(items: seq<Json>, format: bool, d: nat, rest: string)
    requires items != []
    ensures RenderItems(items, format, d) + ("]" + rest)
         == Render(items[0], format, d) + AfterItem(items, format, d, rest)
    ensures |RenderItems(items, format, d)| == |Render(items[0], format, d)|
            + (if |items| == 1 then 0 else 1 + |Gap(format)| + |RenderItems(items[1..], format, d)|)
  {
    hide Render;
    var first := Render(items[0], format, d);
    if |items| == 1 {
      assert RenderItems(items, format, d) == first + "" + RenderItems([], format, d);
    } else {
      var more := RenderItems(items[1..], format, d);
      var separator := if format then ", " else ",";
      assert RenderItems(items, format, d) == first + separator + more;
      hide RenderItems;
      assert separator == "," + Gap(format);
      SeparatorText(first, separator, Gap(format), more, "]" + rest);
    }
  }

  lemma SeparatorText(first: string, separator: string, gap: string, more: string, tail: string)
    requires separator == "," + gap
    ensures first + separator + more + tail == first + ("," + (gap + (more + tail)))
  {
  }

  /** The rest of an array, once its first item is read back. */
  lemma {:induction false} ItemsAfterBack(items: seq<Json>, format: bool, d: nat, rest: string, depth: nat,
                                          strtod: Strtod)
    requires items != [] && Clean(items[0])
    requires ReadableItems(items, strtod) && depth + NestItems(items) <= NESTING_LIMIT
    ensures var r := ParseItemsAfter(items[0], AfterItem(items, format, d, rest), depth, strtod);
            if CleanItems(items)
                then r == Got(items, |RenderItems(items, format, d)| - |Render(items[0], format, d)| + 1)
            else r.Got? ==> r.value != items
    decreases items, 0, 2
  {
    hide *;
    AfterMore(items, format, d, rest);
    ItemsUnfold(items, strtod);
    ItemsText(items, format, d, rest);
    var after := AfterItem(items, format, d, rest);
    assert "" + after == after;
    AfterItemStep("", after, items[0], depth, strtod);
    if |items| > 1 {
      ItemsBack(Gap(format), items[1..], format, d, rest, depth, strtod);
    }
  }

  lemma {:induction false} ItemsRead(ws: string, items: seq<Json>, format: bool, d: nat, rest: string, depth: nat,
                                     strtod: Strtod)
    requires items != [] && Blank(ws)
    requires ReadableItems(items, strtod) && depth + NestItems(items) <= NESTING_LIMIT
    ensures var text, after := Render(items[0], format, d), AfterItem(items, format, d, rest);
            var r := ParseItems(ws + (text + after), depth, strtod);
            if CleanItems(items) then r == Got(items, |ws| + |RenderItems(items, format, d)| + 1)
            else r.Got? ==> r.value != items
    decreases items, 1, 0
  {
    RenderHead(items[0], format, d, strtod);
    AfterMore(items, format, d, rest);
    ItemsUnfold(items, strtod);
    hide *;
    ItemsText(items, format, d, rest);
    var text, after := Render(items[0], format, d), AfterItem(items, format, d, rest);
    ValueBack(items[0], format, d, after, depth, strtod);
    FirstItem(ws, text + after, depth, strtod);
    if Clean(items[0]) {
      ItemStep(ws, text, after, items[0], depth, strtod);
      ItemsAfterBack(items, format, d, rest, depth, strtod);
    }
  }

  lemma AfterMore(items: seq<Json>, format: bool, d: nat, rest: string)
    requires items != []
    ensures Delimited(AfterItem(items, format, d, rest)) && Blank("") && Blank(Gap(format))
    ensures |items| > 1 ==>
              AfterItem(items, format, d, rest)[1..] == Gap(format)
                  + (RenderItems(items[1..], format, d) + ("]" + rest))
  {
    hide RenderItems;
  }

  lemma ItemsUnfold(items: seq<Json>, strtod: Strtod)
    requires items != []
    ensures items == [items[0]] + items[1..] && (|items| == 1 ==> items == [items[0]])
    ensures CleanItems(items) <==> Clean(items[0]) && (|items| == 1 || CleanItems(items[1..]))
    ensures ReadableItems(items, strtod) ==> Readable(items[0], strtod) && ReadableItems(items[1..], strtod)
    ensures NestItems(items) >= Nest(items[0]) && (|items| > 1 ==> NestItems(items) >= NestItems(items[1..]))
  {
    hide Clean, Readable, Nest;
    if |items| == 1 {
      assert items[1..] == [];
    }
  }

  /** An array's items are read back exactly when they are clean. */
  lemma {:induction false} ItemsBack(ws: string, items: seq<Json>, format: bool, d: nat, rest: string, depth: nat,
                                     strtod: Strtod)
    requires items != [] && Blank(ws)
    requires ReadableItems(items, strtod) && depth + NestItems(items) <= NESTING_LIMIT
    ensures var r := ParseItems(ws + (RenderItems(items, format, d) + ("]" + rest)), depth, strtod);
            if CleanItems(items) then r == Got(items, |ws| + |RenderItems(items, format, d)| + 1)
            else r.Got? ==> r.value != items
    decreases items, 1, 1
  {
    ItemsText(items, format, d, rest);
    hide *;
    ItemsRead(ws, items, format, d, rest, depth, strtod);
  }

  /** An opening brace's blanks belong as well to the members after it. */
  lemma {:induction false} NameShift(ws: string, s: string)
    requires Blank(ws) && s != "" && s[0] > ' '
    ensures ParseName(ws + s) == (var r := ParseName(s); if r.Got? then Got(r.value, |ws| + r.used) else Fail)
  {
    hide Skip, ParseString;
    BlanksBefore(ws, s);
    SkipNone(s);
    assert s[0..] == s;
    var name := ParseString(s);
    if name.Got? {
      var t := ws + s;
      assert t[|ws| + name.used..] == s[name.used..];
      var c := name.used + Skip(s[name.used..]);
      if c < |s| {
        assert t[|ws| + c + 1..] == s[c + 1..];
      }
    }
  }

  lemma {:induction false} MembersShift(ws: string, s: string, depth: nat, strtod: Strtod)
    requires Blank(ws) && s != "" && s[0] > ' '
    ensures ParseMembers(ws + s, depth, strtod)
         == (var r := ParseMembers(s, depth, strtod); if r.Got? then Got(r.value, |ws| + r.used) else Fail)
  {
    hide ParseNamed, ParseName;
    NameShift(ws, s);
    var name := ParseName(s);
    if name.Got? {
      assert (ws + s)[|ws| + name.used..] == s[name.used..];
    }
  }

  lemma {:induction false} NameQuoted(key: string, colon: string, s: string)
    requires colon in {":", ":\t"} && s != "" && s[0] > ' '
    ensures var r := ParseName(Quoted(key) + (colon + s));
            if CleanString(key) then r == Got(key, |Quoted(key)| + |colon|)
            else r.Got? ==> r.value != key
  {
    assert Delimited(colon + s);
    hide ParseName, ParseString, Quoted, Skip, CleanString;
    StringRoundTrip(key, colon + s);
    SkipQuoted(key, colon + s);
    NameUnfold(Quoted(key) + (colon + s));
    if CleanString(key) {
      AfterColon(Quoted(key), colon, s);
      NameRest(Quoted(key) + (colon + s), |Quoted(key)|, key, colon, s);
    }
  }

  lemma {:induction false} NameRest(t: string, n: nat, key: string, colon: string, s: string)
    requires colon in {":", ":\t"} && s != "" && s[0] > ' ' && n < |t|
    requires t[n..] == colon + s && t[n + 1..] == colon[1..] + s
    requires ParseString(t) == Got(key, n) && Skip(t) == 0
    ensures ParseName(t) == Got(key, n + |colon|)
  {
    assert Blank(colon[1..]) && t[n..][0] == ':' && t[n] == t[n..][0];
    hide ParseName, ParseString, Skip, Blank;
    NameUnfold(t);
    SkipNone(colon + s);
    BlanksBefore(colon[1..], s);
  }

  lemma {:induction false} NameUnfold(t: string)
    requires Skip(t) == 0
    ensures ParseName(t).Got? ==> ParseString(t).Got? && ParseName(t).value == ParseString(t).value
    ensures ParseString(t).Got? ==>
              var n := ParseString(t).used;
              n < |t| && t[n] == ':' && Skip(t[n..]) == 0 ==>
                ParseName(t) == Got(ParseString(t).value, n + 1 + Skip(t[n + 1..]))
  {
    hide Skip, ParseString;
    assert t[0..] == t;
  }

  lemma AfterColon(quoted: string, colon: string, s: string)
    requires colon != ""
    ensures (quoted + (colon + s))[|quoted|..] == colon + s
    ensures (quoted + (colon + s))[|quoted| + 1..] == colon[1..] + s
  {
  }

  lemma SkipQuoted(key: string, rest: string)
    ensures Quoted(key) != "" && Quoted(key)[0] > ' ' && Skip(Quoted(key) + rest) == 0
  {
    hide Escaped;
    SkipNone(Quoted(key) + rest);
  }

  lemma {:induction false} NameBack(ws: string, key: string, colon: string, s: string)
    requires Blank(ws) && colon in {":", ":\t"} && s != "" && s[0] > ' '
    ensures var r := ParseName(ws + (Quoted(key) + (colon + s)));
            if CleanString(key) then r == Got(key, |ws| + |Quoted(key)| + |colon|)
            else r.Got? ==> r.value != key
  {
    hide ParseName, Quoted, Skip;
    NameQuoted(key, colon, s);
    SkipQuoted(key, colon + s);
    NameShift(ws, Quoted(key) + (colon + s));
  }

  lemma {:induction false} AfterMemberStep(member: Member, ws: string, rest: string, depth: nat, strtod: Strtod)
    requires Blank(ws) && rest != "" && rest[0] > ' '
    ensures rest[0] == '}' ==> ParseMembersAfter(member, ws + rest, depth, strtod) == Got([member], |ws| + 1)
    ensures rest[0] == ',' ==>
              ParseMembersAfter(member, ws + rest, depth, strtod) ==
              (var r := ParseMembers(rest[1..], depth, strtod);
               if r.Got? then Got([member] + r.value, |ws| + 1 + r.used) else Fail)
  {
    hide Skip, ParseMembers;
    BlanksBefore(ws, rest);
    assert (ws + rest)[|ws| + 1..] == rest[1..];
  }

  lemma {:induction false} NamedStep(key: string, text: string, rest: string, v: Json, depth: nat, strtod: Strtod)
    requires ParseValue(text + rest, depth, strtod) == Got(v, |text|)
    ensures ParseNamed(key, text + rest, depth, strtod) ==
            (var r := ParseMembersAfter(Member(key, v), rest, depth, strtod);
             if r.Got? then Got(r.value, |text| + r.used) else Fail)
  {
    hide ParseValue, ParseMembersAfter;
    assert (text + rest)[|text|..] == rest;
  }

  lemma {:induction false} MembersStep(name: string, key: string, s: string, depth: nat, strtod: Strtod)
    requires ParseName(name + s) == Got(key, |name|)
    ensures ParseMembers(name + s, depth, strtod)
         == (var r := ParseNamed(key, s, depth, strtod); if r.Got? then Got(r.value, |name| + r.used) else Fail)
  {
    hide ParseNamed, ParseName;
    assert (name + s)[|name|..] == s;
  }

  lemma {:induction false} FirstNamed(key: string, s: string, depth: nat, strtod: Strtod)
    ensures var r := ParseNamed(key, s, depth, strtod);
            var v := ParseValue(s, depth, strtod);
            r.Got? ==> v.Got? && r.value != [] && r.value[0] == Member(key, v.value)
  {
    hide ParseValue, ParseMembersAfter;
  }

  lemma {:induction false} FirstName(s: string, depth: nat, strtod: Strtod)
    ensures var r := ParseMembers(s, depth, strtod);
            var name := ParseName(s);
            r.Got? ==> name.Got? && r.value != [] && r.value[0].key == name.value
  {
    hide ParseNamed, ParseName;
  }

  /** The text after a member's value up to the next character that is not blank, and from there on. */
  function BlanksAfterMember(members: seq<Member>, format: bool, close: string): string
    requires members != []
  {
    if |members| == 1 then Newline(format) + close else ""
  }

  function AfterMember(members: seq<Member>, format: bool, d: nat, close: string, rest: string): (s: string)
    requires members != []
    ensures s != "" && s[0] == (if |members| == 1 then '}' else ',')
  {
    if |members| == 1 then "}" + rest
    else "," + (Newline(format) + (RenderMembers(members[1..], format, d) + (close + ("}" + rest))))
  }

  lemma Regroup(a: string, b: string, c: string, d: string, e: string, f: string)
    ensures a + b + c + d + e + f == a + (b + (c + (d + (e + f))))
  {
  }

  lemma Regroup4(a: string, b: string, c: string, d: string, e: string)
    ensures a + (b + (c + (d + e))) == ((a + b) + (c + d)) + e
    ensures a + (b + (c + (d + e))) == (a + b) + (c + (d + e))
  {
  }

  lemma ColonText(format: bool)
    ensures Colon(format) in {":", ":\t"}
  {
  }

  lemma {:induction false} MembersTail(members: seq<Member>, format: bool, d: nat, close: string, rest: string)
    requires members != []
    ensures (if |members| == 1 then Newline(format) else "," + Newline(format) + RenderMembers(members[1..], format, d))
            + (close + ("}" + rest))
         == BlanksAfterMember(members, format, close) + AfterMember(members, format, d, close, rest)
  {
    hide RenderMembers, Newline;
  }

  lemma {:induction false} MembersText(members: seq<Member>, format: bool, d: nat, close: string, rest: string)
    requires members != []
    ensures RenderMembers(members, format, d) + (close + ("}" + rest))
         == Lead(format, d) + (Quoted(members[0].key) + (Colon(format) + (Render(members[0].value, format, d)
            + (BlanksAfterMember(members, format, close) + AfterMember(members, format, d, close, rest)))))
  {
    MembersUnfold(members, format, d);
    hide Render, RenderMembers, Quoted, Lead, Colon, Newline;
    MembersTail(members, format, d, close, rest);
    hide BlanksAfterMember, AfterMember;
    var tail := close + ("}" + rest);
    var more := if |members| == 1 then Newline(format)
        else "," + Newline(format) + RenderMembers(members[1..], format, d);
    Regroup(Lead(format, d), Quoted(members[0].key), Colon(format), Render(members[0].value, format, d), more, tail);
  }

  lemma {:induction false} MembersLength(members: seq<Member>, format: bool, d: nat)
    requires members != []
    ensures |RenderMembers(members, format, d)|
         == |Lead(format, d)| + |Quoted(members[0].key)| + |Colon(format)| + |Render(members[0].value, format, d)|
            + |Newline(format)| + (if |members| == 1 then 0 else 1 + |RenderMembers(members[1..], format, d)|)
  {
    MembersUnfold(members, format, d);
    hide Render, RenderMembers, Quoted, Lead, Colon, Newline;
  }

  lemma {:induction false} MembersUnfold(members: seq<Member>, format: bool, d: nat)
    requires members != []
    ensures RenderMembers(members, format, d)
         == Lead(format, d) + Quoted(members[0].key) + Colon(format) + Render(members[0].value, format, d)
            + (if |members| == 1 then Newline(format)
               else "," + Newline(format) + RenderMembers(members[1..], format, d))
  {
    hide Render, Quoted, Tabs;
    if |members| == 1 {
      assert RenderMembers(members[1..], format, d) == "";
    }
  }

  lemma {:induction false} BlanksDelimit(members: seq<Member>, format: bool, d: nat, close: string, rest: string)
    requires members != [] && Blank(close) && (format || close == "")
    ensures Blank(BlanksAfterMember(members, format, close))
    ensures Delimited(BlanksAfterMember(members, format, close) + AfterMember(members, format, d, close, rest))
  {
    hide AfterMember;
  }

  /** The value of a member, once its name is read back, and the members after it. */
  lemma {:induction false} NamedBack(members: seq<Member>, format: bool, d: nat, close: string, rest: string,
                                     depth: nat, strtod: Strtod)
    requires members != [] && Blank(close) && (format || close == "") && CleanString(members[0].key)
    requires ReadableMembers(members, strtod) && depth + NestMembers(members) <= NESTING_LIMIT
    ensures var text := Render(members[0].value, format, d);
            var ws, after := BlanksAfterMember(members, format, close), AfterMember(members, format, d, close, rest);
            var r := ParseNamed(members[0].key, text + (ws + after), depth, strtod);
            if CleanMembers(members)
            then r == Got(members, |text| + |Newline(format)| + |close| + 1
                                   + if |members| == 1 then 0 else 1 + |RenderMembers(members[1..], format, d)|)
            else r.Got? ==> r.value != members
    decreases members, 2, 0
  {
    hide Render, RenderMembers, ParseValue, ParseMembers, ParseNamed, Readable, Clean, Nest;
    var first := members[0];
    var text := Render(first.value, format, d);
    var ws, after := BlanksAfterMember(members, format, close), AfterMember(members, format, d, close, rest);
    FirstNamed(first.key, text + (ws + after), depth, strtod);
    BlanksDelimit(members, format, d, close, rest);
    ValueBack(first.value, format, d, ws + after, depth, strtod);
    if Clean(first.value) {
      NamedStep(first.key, text, ws + after, first.value, depth, strtod);
      AfterMemberStep(first, ws, after, depth, strtod);
      if |members| == 1 {
        assert members == [first] && members[1..] == [];
        assert CleanMembers(members);
      } else {
        assert after[1..] == Newline(format) + (RenderMembers(members[1..], format, d) + (close + ("}" + rest)));
        MembersBack(members[1..], format, d, close, rest, depth, strtod);
        assert members == [first] + members[1..];
      }
    }
  }

  /** The text of a member's name with the blanks and the colon around it. */
  function NameText(key: string, format: bool, d: nat): string {
    (Newline(format) + Lead(format, d)) + (Quoted(key) + Colon(format))
  }

  function ValueText(members: seq<Member>, format: bool, d: nat, close: string, rest: string): string
    requires members != []
  {
    Render(members[0].value, format, d)
    + (BlanksAfterMember(members, format, close) + AfterMember(members, format, d, close, rest))
  }

  lemma {:induction false} NameThenValue(members: seq<Member>, format: bool, d: nat, close: string, rest: string)
    requires members != []
    ensures Newline(format) + (RenderMembers(members, format, d) + (close + ("}" + rest)))
         == NameText(members[0].key, format, d) + ValueText(members, format, d, close, rest)
    ensures NameText(members[0].key, format, d) + ValueText(members, format, d, close, rest)
         == (Newline(format) + Lead(format, d))
             + (Quoted(members[0].key) + (Colon(format) + ValueText(members, format, d, close, rest)))
    ensures |NameText(members[0].key, format, d)|
         == |Newline(format)| + |Lead(format, d)| + |Quoted(members[0].key)| + |Colon(format)|
  {
    hide Render, RenderMembers, Quoted, Lead, Colon, Newline, BlanksAfterMember, AfterMember;
    MembersText(members, format, d, close, rest);
    Regroup4(Newline(format), Lead(format, d), Quoted(members[0].key), Colon(format),
             ValueText(members, format, d, close, rest));
  }

  lemma {:induction false} ValueTextHead(members: seq<Member>, format: bool, d: nat, close: string, rest: string,
                                         strtod: Strtod)
    requires members != [] && ReadableMembers(members, strtod)
    ensures var v := ValueText(members, format, d, close, rest); v != "" && v[0] > ' '
  {
    RenderHead(members[0].value, format, d, strtod);
    hide Render, BlanksAfterMember, AfterMember;
  }

  lemma {:induction false} NameRead(key: string, format: bool, d: nat, value: string, depth: nat, strtod: Strtod)
    requires value != "" && value[0] > ' '
    ensures var name := NameText(key, format, d);
            var r := ParseMembers(name + value, depth, strtod);
            if CleanString(key) then
              var v := ParseNamed(key, value, depth, strtod);
              r == if v.Got? then Got(v.value, |name| + v.used) else Fail
            else r.Got? ==> r.value != [] && r.value[0].key != key
  {
    LeadBlank(format, d);
    ColonText(format);
    hide Blank, Newline, Lead, Colon, ParseMembers, ParseNamed, ParseName, Quoted, CleanString;
    var lead, name := Newline(format) + Lead(format, d), NameText(key, format, d);
    assert name + value == lead + (Quoted(key) + (Colon(format) + value));
    NameBack(lead, key, Colon(format), value);
    FirstName(name + value, depth, strtod);
    if CleanString(key) {
      MembersStep(name, key, value, depth, strtod);
    }
  }

  lemma {:induction false} ValueRead(members: seq<Member>, format: bool, d: nat, close: string, rest: string,
                                     depth: nat, strtod: Strtod)
    requires members != [] && Blank(close) && (format || close == "") && CleanString(members[0].key)
    requires ReadableMembers(members, strtod) && depth + NestMembers(members) <= NESTING_LIMIT
    ensures var r := ParseNamed(members[0].key, ValueText(members, format, d, close, rest), depth, strtod);
            if CleanMembers(members)
            then r == Got(members, |RenderMembers(members, format, d)| - |Lead(format, d)| - |Quoted(members[0].key)|
                                   - |Colon(format)| + |close| + 1)
            else r.Got? ==> r.value != members
    decreases members, 2, 1
  {
    hide Render, RenderMembers, Quoted, Lead, Colon, Newline, BlanksAfterMember, AfterMember, ParseNamed, CleanMembers;
    hide Clean, CleanString, ReadableMembers, NestMembers, Blank;
    MembersLength(members, format, d);
    NamedBack(members, format, d, close, rest, depth, strtod);
  }

  lemma {:induction false} MembersRead(members: seq<Member>, format: bool, d: nat, close: string, rest: string,
                                       depth: nat, strtod: Strtod)
    requires members != [] && Blank(close) && (format || close == "")
    requires ReadableMembers(members, strtod) && depth + NestMembers(members) <= NESTING_LIMIT
    ensures var name, value := NameText(members[0].key, format, d), ValueText(members, format, d, close, rest);
            var r := ParseMembers(name + value, depth, strtod);
            if CleanMembers(members)
                then r == Got(members, |Newline(format)| + |RenderMembers(members, format, d)| + |close| + 1)
            else r.Got? ==> r.value != members
    decreases members, 2, 2
  {
    var key := members[0].key;
    assert CleanMembers(members) ==> CleanString(key);
    ValueTextHead(members, format, d, close, rest, strtod);
    NameThenValue(members, format, d, close, rest);
    hide *;
    NameRead(key, format, d, ValueText(members, format, d, close, rest), depth, strtod);
    if CleanString(key) {
      ValueRead(members, format, d, close, rest, depth, strtod);
    }
  }

  /** An object's members are read back exactly when they are clean. */
  lemma {:induction false} MembersBack(members: seq<Member>, format: bool, d: nat, close: string, rest: string,
                                       depth: nat, strtod: Strtod)
    requires members != [] && Blank(close) && (format || close == "")
    requires ReadableMembers(members, strtod) && depth + NestMembers(members) <= NESTING_LIMIT
    ensures var r := ParseMembers(Newline(format) + (RenderMembers(members, format, d) + (close + ("}" + rest))),
                                  depth, strtod);
            if CleanMembers(members)
                then r == Got(members, |Newline(format)| + |RenderMembers(members, format, d)| + |close| + 1)
            else r.Got? ==> r.value != members
    decreases members, 3
  {
    NameThenValue(members, format, d, close, rest);
    hide *;
    MembersRead(members, format, d, close, rest, depth, strtod);
  }

  lemma {:induction false} ArrayStep(body: string, depth: nat, strtod: Strtod)
    requires body != "" && body[0] > ' '
    ensures ParseValue("[" + body, depth, strtod)
         == if depth >= NESTING_LIMIT then Fail
            else if body[0] == ']' then Got(Array([]), 2)
            else (var r := ParseItems(body, depth + 1, strtod); if r.Got? then Got(Array(r.value), 1 + r.used)
                  else Fail)
  {
    hide Skip, ParseItems;
    assert ("[" + body)[1..] == body;
    SkipNone(body);
  }

  lemma {:induction false} ObjectStep(ws: string, body: string, depth: nat, strtod: Strtod)
    requires Blank(ws) && body != "" && body[0] > ' '
    ensures ParseValue("{" + (ws + body), depth, strtod)
         == if depth >= NESTING_LIMIT then Fail
            else if body[0] == '}' then Got(Object([]), 2 + |ws|)
            else (var r := ParseMembers(ws + body, depth + 1, strtod);
                  if r.Got? then Got(Object(r.value), 1 + r.used) else Fail)
  {
    hide Skip, ParseMembers;
    var s := "{" + (ws + body);
    assert s[0] == '{' && s[1..] == ws + body;
    BlanksBefore(ws, body);
    assert s[1 + |ws|..] == body;
    MembersShift(ws, body, depth + 1, strtod);
  }

  lemma WordBack(j: Json, format: bool, d: nat, rest: string, depth: nat, strtod: Strtod)
    requires j.Null? || j.False? || j.True?
    ensures ParseValue(Render(j, format, d) + rest, depth, strtod) == Got(j, |Render(j, format, d)|)
  {
    assert (Render(j, format, d) + rest)[0] == Render(j, format, d)[0];
  }

  lemma {:induction false} ArrayBack(items: seq<Json>, format: bool, d: nat, rest: string, depth: nat, strtod: Strtod)
    requires ReadableItems(items, strtod) && depth + 1 + NestItems(items) <= NESTING_LIMIT
    ensures var r := ParseValue(Render(Array(items), format, d) + rest, depth, strtod);
            if CleanItems(items) then r == Got(Array(items), |Render(Array(items), format, d)|)
            else r.Got? ==> r.value != Array(items)
    decreases items, 2
  {
    hide ParseValue, Render, ParseItems, RenderItems, CleanItems;
    ArrayText(items, format, d, rest);
    var body := RenderItems(items, format, d + 1) + ("]" + rest);
    if items != [] {
      ItemsText(items, format, d + 1, rest);
      RenderHead(items[0], format, d + 1, strtod);
      ItemsBack("", items, format, d + 1, rest, depth + 1, strtod);
      assert "" + body == body;
    } else {
      EmptyText(format, d + 1);
    }
    ArrayStep(body, depth, strtod);
  }

  lemma EmptyText(format: bool, d: nat)
    ensures RenderItems([], format, d) == "" && RenderMembers([], format, d) == ""
    ensures CleanItems([]) && CleanMembers([])
  {
  }

  lemma {:induction false} ArrayText(items: seq<Json>, format: bool, d: nat, rest: string)
    ensures Render(Array(items), format, d) + rest == "[" + (RenderItems(items, format, d + 1) + ("]" + rest))
    ensures |Render(Array(items), format, d)| == 2 + |RenderItems(items, format, d + 1)|
  {
    hide RenderItems;
  }

  lemma {:induction false} ObjectText(members: seq<Member>, format: bool, d: nat, rest: string)
    ensures Render(Object(members), format, d) + rest
         == "{" + (Newline(format) + (RenderMembers(members, format, d + 1) + (Lead(format, d) + ("}" + rest))))
    ensures |Render(Object(members), format, d)|
         == 2 + |Newline(format)| + |RenderMembers(members, format, d + 1)| + |Lead(format, d)|
  {
    hide RenderMembers, Tabs;
  }

  lemma {:induction false} ObjectBack(members: seq<Member>, format: bool, d: nat, rest: string, depth: nat,
                                      strtod: Strtod)
    requires ReadableMembers(members, strtod) && depth + 1 + NestMembers(members) <= NESTING_LIMIT
    ensures var r := ParseValue(Render(Object(members), format, d) + rest, depth, strtod);
            if CleanMembers(members) then r == Got(Object(members), |Render(Object(members), format, d)|)
            else r.Got? ==> r.value != Object(members)
    decreases members, 4
  {
    hide ParseValue, Render, ParseMembers, RenderMembers, CleanMembers, Lead, Quoted;
    ObjectText(members, format, d, rest);
    var nl, close := Newline(format), Lead(format, d);
    LeadBlank(format, d);
    if members != [] {
      MembersText(members, format, d + 1, close, rest);
      MembersBack(members, format, d + 1, close, rest, depth + 1, strtod);
      LeadBlank(format, d + 1);
      var lead := Lead(format, d + 1);
      var body := Quoted(members[0].key) + (Colon(format) + (Render(members[0].value, format, d + 1)
                  + (BlanksAfterMember(members, format, close) + AfterMember(members, format, d + 1, close, rest))));
      assert nl + (lead + body) == (nl + lead) + body;
      QuotedHead(members[0].key);
      ObjectStep(nl + lead, body, depth, strtod);
    } else {
      EmptyText(format, d + 1);
      assert nl + ("" + (close + ("}" + rest))) == (nl + close) + ("}" + rest);
      ObjectStep(nl + close, "}" + rest, depth, strtod);
    }
  }

  lemma LeadBlank(format: bool, d: nat)
    ensures Blank(Newline(format)) && Blank(Lead(format, d)) && Blank(Newline(format) + Lead(format, d))
    ensures format || Lead(format, d) == ""
  {
  }

  lemma QuotedHead(key: string)
    ensures Quoted(key) != "" && Quoted(key)[0] == '\"'
  {
  }

  lemma {:induction false} ValueBack(j: Json, format: bool, d: nat, rest: string, depth: nat, strtod: Strtod)
    requires Readable(j, strtod) && depth + Nest(j) <= NESTING_LIMIT && Delimited(rest)
    ensures var r := ParseValue(Render(j, format, d) + rest, depth, strtod);
            if Clean(j) then r == Got(j, |Render(j, format, d)|) else r.Got? ==> r.value != j
    decreases j, 0
  {
    hide ParseValue;
    match j
    case Null => WordBack(j, format, d, rest, depth, strtod);
    case False => WordBack(j, format, d, rest, depth, strtod);
    case True => WordBack(j, format, d, rest, depth, strtod);
    case Number(text) => NumberBack(text, rest, depth, strtod);
    case String(x) => StringValueBack(x, rest, depth, strtod);
    case Array(items) => ArrayBack(items, format, d, rest, depth, strtod);
    case Object(members) => ObjectBack(members, format, d, rest, depth, strtod);
  }

  /** No tree that the parser builds is nested deeper than its limit. */
  lemma {:induction false} ParsedNest(s: string, depth: nat, strtod: Strtod)
    requires depth <= NESTING_LIMIT
    ensures var r := ParseValue(s, depth, strtod); r.Got? ==> depth + Nest(r.value) <= NESTING_LIMIT
    decreases |s|, 1
  {
    hide Skip, ParseString, ParseNumber, ParseItems, ParseMembers, NestItems, NestMembers;
    if s != "" && depth < NESTING_LIMIT {
      var k := 1 + Skip(s[1..]);
      if k < |s| {
        ItemsNest(s[k..], depth + 1, strtod);
        MembersNest(s[k..], depth + 1, strtod);
      }
    }
    EmptyNest();
  }

  lemma EmptyNest()
    ensures NestItems([]) == 0 && NestMembers([]) == 0
  {
  }

  lemma {:induction false} ItemsNest(s: string, depth: nat, strtod: Strtod)
    requires depth <= NESTING_LIMIT
    ensures var r := ParseItems(s, depth, strtod); r.Got? ==> depth + NestItems(r.value) <= NESTING_LIMIT
    decreases |s|, 2
  {
    hide Skip, ParseValue, Nest, NestItems, ParseItemsAfter;
    var k := Skip(s);
    ParsedNest(s[k..], depth, strtod);
    var v := ParseValue(s[k..], depth, strtod);
    if v.Got? {
      ItemsAfterNest(v.value, s[k + v.used..], depth, strtod);
    }
  }

  lemma {:induction false} ItemsAfterNest(item: Json, s: string, depth: nat, strtod: Strtod)
    requires depth + Nest(item) <= NESTING_LIMIT
    ensures var r := ParseItemsAfter(item, s, depth, strtod); r.Got? ==> depth + NestItems(r.value) <= NESTING_LIMIT
    decreases |s|, 2
  {
    hide Skip, ParseItems, Nest;
    EmptyNest();
    var e := Skip(s);
    if e < |s| && s[e] == ',' {
      ItemsNest(s[e + 1..], depth, strtod);
      var r := ParseItems(s[e + 1..], depth, strtod);
      if r.Got? {
        assert ([item] + r.value)[1..] == r.value;
      }
    } else {
      assert [item][1..] == [];
    }
  }

  lemma {:induction false} MembersNest(s: string, depth: nat, strtod: Strtod)
    requires depth <= NESTING_LIMIT
    ensures var r := ParseMembers(s, depth, strtod); r.Got? ==> depth + NestMembers(r.value) <= NESTING_LIMIT
    decreases |s|, 3
  {
    hide ParseName, ParseNamed, NestMembers;
    var name := ParseName(s);
    if name.Got? {
      NamedNest(name.value, s[name.used..], depth, strtod);
    }
  }

  lemma {:induction false} NamedNest(key: string, s: string, depth: nat, strtod: Strtod)
    requires depth <= NESTING_LIMIT
    ensures var r := ParseNamed(key, s, depth, strtod); r.Got? ==> depth + NestMembers(r.value) <= NESTING_LIMIT
    decreases |s|, 2
  {
    hide Skip, ParseValue, Nest, NestMembers, ParseMembersAfter;
    ParsedNest(s, depth, strtod);
    var v := ParseValue(s, depth, strtod);
    if v.Got? {
      MembersAfterNest(Member(key, v.value), s[v.used..], depth, strtod);
    }
  }

  lemma {:induction false} MembersAfterNest(member: Member, s: string, depth: nat, strtod: Strtod)
    requires depth + Nest(member.value) <= NESTING_LIMIT
    ensures var r := ParseMembersAfter(member, s, depth, strtod); r.Got? ==>
            depth + NestMembers(r.value) <= NESTING_LIMIT
    decreases |s|, 3
  {
    hide Skip, ParseMembers, Nest;
    EmptyNest();
    var e := Skip(s);
    if e < |s| && s[e] == ',' {
      MembersNest(s[e + 1..], depth, strtod);
      var r := ParseMembers(s[e + 1..], depth, strtod);
      if r.Got? {
        assert ([member] + r.value)[1..] == r.value;
      }
    } else {
      assert [member][1..] == [];
    }
  }

  lemma ParsePrinted(j: Json, format: bool, strtod: Strtod)
    requires Readable(j, strtod)
    ensures Parse(Render(j, format, 0), strtod) == ParseValue(Render(j, format, 0) + "\0", 0, strtod)
  {
    RenderAscii(j, format, 0, strtod);
    hide Render, ParseValue, Readable;
    var content := Render(j, format, 0) + "\0";
    assert content[0] == Render(j, format, 0)[0];
    SkipNone(content);
    assert content[0..] == content;
  }

  lemma RenderAscii(j: Json, format: bool, d: nat, strtod: Strtod)
    requires Readable(j, strtod)
    ensures Render(j, format, d) != "" && ' ' < Render(j, format, d)[0] < '\U{007f}'
  {
    hide ReadableItems, ReadableMembers, RenderItems, RenderMembers, Escaped;
  }

  /**
   * Parsing what was printed gives the same tree back exactly when every string of the tree is clean and
   * the tree is nested no deeper than the parser goes. It does not matter whether the text was formatted.
   */
  lemma {:induction false} RoundTrip(j: Json, format: bool, strtod: Strtod)
    requires Readable(j, strtod)
    ensures var r := Parse(Render(j, format, 0), strtod);
            (r.Got? && r.value == j) <==> (Clean(j) && Nest(j) <= NESTING_LIMIT)
  {
    ParsePrinted(j, format, strtod);
    hide Render, ParseValue, Readable, Clean, Nest;
    ParsedNest(Render(j, format, 0) + "\0", 0, strtod);
    if Nest(j) <= NESTING_LIMIT {
      ValueBack(j, format, 0, "\0", 0, strtod);
    }
  }

  /** A string that is not: a control character without a short escape is lost. */
  lemma ControlCharacterLost(format: bool, strtod: Strtod)
    ensures var j := String("\U{0001}"); var r := Parse(Render(j, format, 0), strtod); !(r.Got? && r.value == j)
  {
    var j := String("\U{0001}");
    assert Control(j.str[0]) && !CleanString(j.str);
    hide Render, Parse, Nest;
    RoundTrip(j, format, strtod);
  }
}
