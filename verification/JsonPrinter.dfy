/** The cJSON printer: a growing buffer whose offset is found again by looking for the NUL after the text. */
module JsonPrinter {
  import opened Json
  import opened Concatenation

  const INT_MAX: nat := 0x7FFF_FFFF

  /** The number texts of a tree are C strings: they hold no NUL. */
  predicate Held(j: Json)
    decreases j, 0
  {
    match j
    case Number(text) => '\0' !in text
    case Array(items) => HeldItems(items)
    case Object(members) => HeldMembers(members)
    case _ => true
  }

  predicate HeldItems(items: seq<Json>)
    decreases items, 1
  {
    items == [] || (Held(items[0]) && HeldItems(items[1..]))
  }

  predicate HeldMembers(members: seq<Member>)
    decreases members, 1
  {
    members == [] || (Held(members[0].value) && HeldMembers(members[1..]))
  }

  /** With `text` printed, the items from `i` on are missing from `whole`. */
  ghost predicate ItemsLeft(items: seq<Json>, i: nat, format: bool, d: nat, text: string, whole: string)
    requires i <= |items|
  {
    HeldItems(items[i..]) && text + RenderItems(items[i..], format, d) == whole
  }

  function ItemText(items: seq<Json>, i: nat, format: bool, d: nat): string
    requires i < |items|
  {
    Render(items[i], format, d) + if i + 1 == |items| then "" else "," + Gap(format)
  }

  lemma {:induction false} ItemsLeftStep(items: seq<Json>, i: nat, format: bool, d: nat, text: string, whole: string)
    requires i < |items| && ItemsLeft(items, i, format, d, text, whole)
    ensures Held(items[i])
    ensures ItemsLeft(items, i + 1, format, d, text + ItemText(items, i, format, d), whole)
  {
    assert items[i..][1..] == items[i + 1..];
    var rest := RenderItems(items[i + 1..], format, d);
    assert RenderItems(items[i..], format, d) == ItemText(items, i, format, d) + rest by {
      hide Render, HeldItems;
      if i + 1 == |items| {
        assert rest == "";
      }
    }
    hide Render, RenderItems, ItemText;
    Associate(text, ItemText(items, i, format, d), rest);
  }

  lemma ItemsLeftEnds(items: seq<Json>, format: bool, d: nat, before: string)
    ensures HeldItems(items) ==> ItemsLeft(items, 0, format, d, before, before + RenderItems(items, format, d))
    ensures forall text, whole :: ItemsLeft(items, |items|, format, d, text, whole) ==> text == whole
  {
    assert items[0..] == items && items[|items|..] == [];
    assert forall text: string :: text + "" == text;
  }

  lemma ItemTextIs(items: seq<Json>, i: nat, format: bool, d: nat, before: string)
    requires i < |items|
    ensures before + ItemText(items, i, format, d)
         == before + Render(items[i], format, d) + if i + 1 == |items| then "" else if format then ", " else ","
    ensures i + 1 == |items| ==> before + ItemText(items, i, format, d) == before + Render(items[i], format, d)
  {
    hide Render;
  }

  function Ending(last: bool, format: bool): string {
    (if last then "" else ",") + Newline(format)
  }

  function MemberText(members: seq<Member>, i: nat, format: bool, d: nat): string
    requires i < |members|
  {
    Lead(format, d) + Quoted(members[i].key) + Colon(format) + Render(members[i].value, format, d)
    + Ending(i + 1 == |members|, format)
  }

  /** With `text` printed, the members from `i` on are missing from `whole`. */
  ghost predicate MembersLeft(members: seq<Member>, i: nat, format: bool, d: nat, text: string, whole: string)
    requires i <= |members|
  {
    HeldMembers(members[i..]) && text + RenderMembers(members[i..], format, d) == whole
  }

  lemma {:induction false} MembersText(members: seq<Member>, i: nat, format: bool, d: nat)
    requires i < |members|
    ensures RenderMembers(members[i..], format, d) == MemberText(members, i, format, d)
            + RenderMembers(members[i + 1..], format, d)
  {
    hide Render, Quoted, Tabs;
    assert members[i..][1..] == members[i + 1..];
    var rest := RenderMembers(members[i + 1..], format, d);
    var nl := if format then "\n" else "";
    if i + 1 == |members| {
      assert Ending(true, format) == nl && rest == "";
    }
  }

  lemma {:induction false} MembersLeftStep(members: seq<Member>, i: nat, format: bool, d: nat, text: string,
                                           whole: string)
    requires i < |members| && MembersLeft(members, i, format, d, text, whole)
    ensures Held(members[i].value)
    ensures MembersLeft(members, i + 1, format, d, text + MemberText(members, i, format, d), whole)
  {
    assert members[i..][1..] == members[i + 1..];
    hide Render, RenderMembers, MemberText;
    MembersText(members, i, format, d);
    Associate(text, MemberText(members, i, format, d), RenderMembers(members[i + 1..], format, d));
  }

  lemma MembersLeftEnds(members: seq<Member>, format: bool, d: nat, before: string)
    ensures HeldMembers(members) ==>
            MembersLeft(members, 0, format, d, before, before + RenderMembers(members, format, d))
    ensures forall text, whole :: MembersLeft(members, |members|, format, d, text, whole) ==> text == whole
  {
    assert members[0..] == members && members[|members|..] == [];
    assert forall text: string :: text + "" == text;
  }

  lemma MemberTextIs(members: seq<Member>, i: nat, format: bool, d: nat, before: string)
    requires i < |members|
    ensures before + MemberText(members, i, format, d)
         == before + Lead(format, d) + Quoted(members[i].key) + Colon(format) + Render(members[i].value, format, d)
            + Ending(i + 1 == |members|, format)
  {
    hide Render, Quoted, Lead, Colon, Ending;
  }

  lemma ObjectText(members: seq<Member>, format: bool, d: nat, before: string)
    ensures before + Render(Object(members), format, d)
         == before + (if format then "{\n" else "{") + RenderMembers(members, format, d + 1) + (Lead(format, d) + "}")
    ensures Render(Object(members), format, d)
         == (if format then "{\n" else "{") + RenderMembers(members, format, d + 1) + (Lead(format, d) + "}")
  {
    hide RenderMembers, Tabs;
  }

  lemma LeadPlain(format: bool, d: nat)
    ensures '\0' !in Lead(format, d) + "}" && (!format ==> Lead(format, d) == "")
  {
  }

  lemma WordPlain()
    ensures '\0' !in "]" && '\0' !in "}"
  {
  }

  lemma ArrayText(items: seq<Json>, format: bool, d: nat)
    ensures Render(Array(items), format, d) == "[" + RenderItems(items, format, d + 1) + "]"
  {
  }

  /** How many characters a string's character takes between the quotes. */
  function WidthOf(c: char): nat {
    if Control(c) then 6 else if ShortEscape(c) != "" then 2 else 1
  }

  function Width(s: string): nat {
    if s == "" then 0 else WidthOf(s[0]) + Width(s[1..])
  }

  lemma {:induction false} EscapedNoNul(s: string)
    ensures '\0' !in Escaped(s)
    decreases |s|
  {
    if s != "" {
      EscapedNoNul(s[1..]);
    }
  }

  lemma {:induction false} WidthStep(s: string, i: nat)
    requires i < |s|
    ensures Width(s[i..]) == WidthOf(s[i]) + Width(s[i + 1..])
  {
    assert s[i..][1..] == s[i + 1..];
  }

  lemma EscapedStep(s: string, i: nat)
    requires i < |s|
    ensures WidthOf(s[i]) == if Control(s[i]) then 6 else |Token(s[i])|
    ensures CleanString(s[..i + 1]) <==> CleanString(s[..i]) && !Control(s[i])
    ensures Escaped(s[i..]) == if Control(s[i]) then ControlText(s[i]) else Token(s[i]) + Escaped(s[i + 1..])
  {
    hide Control, ShortEscape;
    assert s[i..][1..] == s[i + 1..];
    assert s[..i + 1] == s[..i] + [s[i]];
    if CleanString(s[..i + 1]) {
      forall k | 0 <= k < i ensures !Control(s[..i][k]) {
        assert s[..i + 1][k] == s[..i][k];
      }
      assert s[..i + 1][i] == s[i];
    }
  }

  /** `written` is what print_string_ptr's copying loop has written of the first `i` characters. */
  ghost predicate Escaping(input: string, i: nat, written: string)
    requires i <= |input|
  {
    var whole := Escaped(input);
    if CleanString(input[..i]) then written + Escaped(input[i..]) == whole
    else |whole| < |written| && written[..|whole|] == whole && written[|whole|] == '\0'
  }

  lemma EscapingStart(input: string)
    ensures Escaping(input, 0, "")
  {
    assert input[0..] == input;
    assert "" + Escaped(input) == Escaped(input);
  }

  lemma EscapingStep(input: string, i: nat, written: string, one: string)
    requires i < |input| && Escaping(input, i, written) && |one| == WidthOf(input[i])
    requires if Control(input[i]) then |one| == 6 && one[..5] == ControlText(input[i]) && one[5] == '\0'
             else one == Token(input[i])
    ensures Escaping(input, i + 1, written + one)
  {
    EscapedStep(input, i);
    hide Escaped, Control, ShortEscape, Token, ControlText, CleanString, WidthOf;
    if CleanString(input[..i]) {
      if Control(input[i]) {
        CutNow(written, one[..5], one[5..]);
        assert one == one[..5] + one[5..];
      } else {
        Associate(written, one, Escaped(input[i + 1..]));
      }
    } else {
      StillCut(Escaped(input), written, one);
    }
  }

  lemma WidthEnd(input: string)
    ensures Width(input[|input|..]) == 0 && input[0..] == input
  {
  }

  lemma EscapingPlain(input: string)
    requires Escaped(input) == input + "\"" && CleanString(input)
    ensures Escaping(input, |input|, input)
  {
    assert input[..|input|] == input && input[|input|..] == "";
  }

  /** With the closing quote and the NUL after what is written, the text is complete. */
  lemma EscapingEnd(input: string, written: string)
    requires Escaping(input, |input|, written)
    ensures var whole, all := Escaped(input), written + "\"\0";
            |whole| < |all| && all[..|whole|] == whole && all[|whole|] == '\0'
  {
    assert input[..|input|] == input && input[|input|..] == "";
    hide CleanString;
    if CleanString(input) {
      assert Escaped("") == "\"";
      assert written + "\"\0" == (written + "\"") + "\0";
    } else {
      StillCut(Escaped(input), written, "\"\0");
    }
  }

  lemma QuotedText(input: string)
    ensures |Quoted(input)| == 1 + |Escaped(input)| && Quoted(input)[0] == '\"'
    ensures forall i :: 0 < i < |Quoted(input)| ==> Quoted(input)[i] == Escaped(input)[i - 1]
    ensures '\0' !in Quoted(input)
  {
    EscapedNoNul(input);
  }

  /** A closed string, up to its first NUL. */
  lemma QuotedEnd(input: string, written: string)
    requires Escaping(input, |input|, written)
    ensures var text, tail := Quoted(input), "\"" + (written + "\"\0");
            |text| < |tail| && tail[..|text|] == text && tail[|text|] == '\0'
  {
    EscapingEnd(input, written);
    hide Escaped, Escaping;
    var whole, all := Escaped(input), written + "\"\0";
    assert ("\"" + all)[..|whole| + 1] == "\"" + all[..|whole|];
  }

  lemma CutNow(written: string, text: string, rest: string)
    requires rest != "" && rest[0] == '\0'
    ensures var n := |written + text|;
            (written + (text + rest))[..n] == written + text && (written + (text + rest))[n] == '\0'
  {
  }

  lemma StillCut(whole: string, written: string, one: string)
    requires |whole| < |written| && written[..|whole|] == whole && written[|whole|] == '\0'
    ensures (written + one)[..|whole|] == whole && (written + one)[|whole|] == '\0'
  {
  }

  lemma {:induction false} WidthPlain(s: string)
    ensures Width(s) >= |s|
    ensures Width(s) == |s| ==> Escaped(s) == s + "\"" && CleanString(s)
    decreases |s|
  {
    if s != "" {
      WidthPlain(s[1..]);
      if Width(s) == |s| {
        assert s == [s[0]] + s[1..];
        assert s + "\"" == [s[0]] + (s[1..] + "\"");
      }
    }
  }

  /** The first loop of print_string_ptr: how many characters escaping adds. */
  method CountEscapes(input: string) returns (escapeCharacters: nat)
    ensures escapeCharacters + |input| == Width(input)
  {
    escapeCharacters := 0;
    assert input[0..] == input;
    for i := 0 to |input|
      invariant i + escapeCharacters + Width(input[i..]) == Width(input)
    {
      WidthStep(input, i);
      hide Width;
      match input[i] {
        case '\"' => escapeCharacters := escapeCharacters + 1;
        case '\\' => escapeCharacters := escapeCharacters + 1;
        case '\U{0008}' => escapeCharacters := escapeCharacters + 1;
        case '\U{000c}' => escapeCharacters := escapeCharacters + 1;
        case '\n' => escapeCharacters := escapeCharacters + 1;
        case '\r' => escapeCharacters := escapeCharacters + 1;
        case '\t' => escapeCharacters := escapeCharacters + 1;
        case _ =>
          if input[i] < ' ' {
            escapeCharacters := escapeCharacters + 5;
          }
      }
    }
  }

  class PrintBuffer {
    var buffer: array<char>
    var offset: nat
    var depth: nat
    const format: bool
    const noalloc: bool
    const reallocate: bool
    /** The end of the region that the last successful call of Ensure reserved. */
    ghost var limit: nat

    constructor (size: nat, format: bool, reallocate: bool)
      ensures fresh(buffer) && buffer.Length == size && offset == 0 && depth == 0 && limit == 0
      ensures this.format == format && this.reallocate == reallocate && !noalloc
    {
      buffer := new char[size];
      offset, depth, limit := 0, 0, 0;
      this.format, this.reallocate, noalloc := format, reallocate, false;
    }

    /** The bytes before the offset are `text`. */
    ghost predicate Holds(text: string)
      reads this`offset, this`buffer, buffer
    {
      offset == |text| <= buffer.Length && buffer[..offset] == text
    }

    /**
     * Behind `before` the buffer holds `text` and a NUL, and the offset is somewhere in `text`, with no
     * NUL before its end.
     */
    ghost predicate Printed(before: string, text: string)
      reads this`offset, this`buffer, buffer
    {
      var end := |before| + |text|;
      && |before| <= offset <= end < buffer.Length
      && buffer[..end] == before + text
      && buffer[end] == '\0'
      && '\0' !in buffer[offset..end]
    }

    /** Makes room for `needed` more bytes and one: the bytes before the offset survive. */
    method Ensure(needed: nat) returns (ok: bool)
      requires offset <= buffer.Length
      modifies this`buffer, this`limit
      ensures buffer == old(buffer) || fresh(buffer)
      ensures ok ==> limit == offset + needed < buffer.Length
      ensures ok ==> forall i :: 0 <= i < offset ==> buffer[i] == old(buffer[i])
    {
      ok := false;
      if buffer.Length > 0 && offset >= buffer.Length {
        return;
      }
      if needed > INT_MAX {
        return;
      }
      var total: nat := needed + offset + 1;
      if total <= buffer.Length {
        limit := offset + needed;
        ok := true;
        return;
      }
      if noalloc {
        return;
      }
      var newSize: nat;
      if total > INT_MAX / 2 {
        if total > INT_MAX {
          return;
        }
        newSize := INT_MAX;
      } else {
        newSize := total * 2;
      }
      var failed: bool := *;
      if failed {
        return;
      }
      var newBuffer := new char[newSize];
      var kept := if reallocate || buffer.Length <= offset then buffer.Length else offset + 1;
      forall i | 0 <= i < kept {
        newBuffer[i] := buffer[i];
      }
      buffer := newBuffer;
      limit := offset + needed;
      ok := true;
    }

    /** update_offset. */
    method UpdateOffset(ghost before: string, ghost text: string)
      requires Printed(before, text)
      modifies this`offset
      ensures Holds(before + text) && offset < buffer.Length
    {
      ghost var end := |before| + |text|;
      while buffer[offset] != '\0'
        invariant offset <= end && '\0' !in buffer[offset..end]
        decreases end - offset
      {
        assert offset < end;
        offset := offset + 1;
      }
    }

    /** Writes some characters inside the reserved region. */
    method Emit(at: nat, text: string)
      requires at + |text| <= limit <= buffer.Length
      modifies buffer
      ensures forall i :: 0 <= i < |text| ==> buffer[at + i] == text[i]
      ensures forall i :: 0 <= i < buffer.Length && !(at <= i < at + |text|) ==> buffer[i] == old(buffer[i])
    {
      for i := 0 to |text|
        invariant forall k :: 0 <= k < i ==> buffer[at + k] == text[k]
        invariant forall k :: 0 <= k < buffer.Length && !(at <= k < at + i) ==> buffer[k] == old(buffer[k])
      {
        buffer[at + i] := text[i];
      }
    }

    lemma PrintedBy(before: string, text: string)
      requires |before| <= offset <= |before| + |text| < buffer.Length
      requires forall i :: 0 <= i < |before| ==> buffer[i] == before[i]
      requires forall i :: 0 <= i < |text| ==> buffer[|before| + i] == text[i]
      requires buffer[|before| + |text|] == '\0' && '\0' !in text
      ensures Printed(before, text)
    {
      var end := |before| + |text|;
      assert buffer[..end] == before + text;
      forall i | offset <= i < end ensures buffer[i] != '\0' {
        assert buffer[i] == text[i - |before|];
      }
    }

    /** Reserves room and writes a whole text with its NUL. */
    method PrintWord(word: string, ghost before: string) returns (ok: bool)
      requires Holds(before) && '\0' !in word
      modifies this`buffer, this`limit, buffer
      ensures buffer == old(buffer) || fresh(buffer)
      ensures ok ==> Printed(before, word)
    {
      ok := Ensure(|word| + 1);
      if ok {
        Emit(offset, word + "\0");
        ghost var bytes := word + "\0";
        assert forall i :: 0 <= i < |word| ==> buffer[offset + i] == bytes[i] == word[i];
        assert buffer[offset + |word|] == bytes[|word|];
        PrintedBy(before, word);
      }
    }

    /** Reserves room, writes some characters and moves the offset past them. */
    method PrintMark(mark: string, needed: nat, ghost before: string) returns (ok: bool)
      requires Holds(before) && |mark| <= needed
      modifies this`buffer, this`limit, this`offset, buffer
      ensures buffer == old(buffer) || fresh(buffer)
      ensures ok ==> Holds(before + mark)
    {
      ok := Ensure(needed);
      if ok {
        Emit(offset, mark);
        offset := offset + |mark|;
        assert buffer[..offset] == before + mark;
      }
    }

    /** print_number, from the text that printf gives. */
    method PrintNumber(text: string, ghost before: string) returns (ok: bool)
      requires Holds(before) && '\0' !in text
      modifies this`buffer, this`limit, this`offset, buffer
      ensures buffer == old(buffer) || fresh(buffer)
      ensures ok ==> Printed(before, text)
    {
      if |text| > 25 {
        ok := false;
        return;
      }
      ok := PrintWord(text, before);
      if ok {
        assert buffer[offset..|before| + |text|] == text;
        offset := offset + |text|;
      }
    }

    /** snprintf of a control character's code with room for four characters and a NUL: the last digit is lost. */
    method FormatUnicode(at: nat, c: char)
      requires at + 5 <= limit <= buffer.Length && c < ' '
      modifies buffer
      ensures forall i :: 0 <= i < buffer.Length && !(at <= i < at + 5) ==> buffer[i] == old(buffer[i])
      ensures buffer[at..at + 4] == ControlText(c)[1..] && buffer[at + 4] == '\0'
    {
      var printed := ControlText(c)[1..] + "\0";
      Emit(at, printed);
      assert forall i :: 0 <= i < 4 ==> buffer[at + i] == printed[i] == ControlText(c)[1..][i];
      assert buffer[at + 4] == printed[4];
    }

    /** One turn of print_string_ptr's copying loop: a character, or its escape, at `o`. */
    method EscapeOne(c: char, o: nat) returns (next: nat)
      requires o + WidthOf(c) <= limit <= buffer.Length
      modifies buffer
      ensures next == o + WidthOf(c)
      ensures forall i :: 0 <= i < buffer.Length && !(o <= i < next) ==> buffer[i] == old(buffer[i])
      ensures !Control(c) ==> buffer[o..next] == Token(c)
      ensures Control(c) ==> buffer[o..o + 5] == ControlText(c) && buffer[o + 5] == '\0'
    {
      next := o;
      if c >= ' ' && c != '\"' && c != '\\' {
        buffer[next] := c;
      } else {
        buffer[next] := '\\';
        next := next + 1;
        match c {
          case '\\' => buffer[next] := '\\';
          case '\"' => buffer[next] := '\"';
          case '\U{0008}' => buffer[next] := 'b';
          case '\U{000c}' => buffer[next] := 'f';
          case '\n' => buffer[next] := 'n';
          case '\r' => buffer[next] := 'r';
          case '\t' => buffer[next] := 't';
          case _ =>
            FormatUnicode(next, c);
            assert buffer[next..next + 4] == ControlText(c)[1..];
            assert buffer[o..o + 5] == ['\\'] + buffer[next..next + 4];
            next := next + 4;
        }
      }
      next := next + 1;
    }

    /**
     * One turn of the copying loop at the `i`-th character; the escaped text goes from `base` on, and `o`
     * is where it goes on.
     */
    method EscapeTurn(input: string, i: nat, base: nat, o: nat) returns (next: nat)
      requires i < |input| && base <= o && o + Width(input[i..]) <= limit <= buffer.Length
      requires Escaping(input, i, buffer[base..o])
      modifies buffer
      ensures base <= next && next + Width(input[i + 1..]) == o + Width(input[i..]) && next <= buffer.Length
      ensures Escaping(input, i + 1, buffer[base..next])
      ensures forall k :: 0 <= k < base || next <= k < buffer.Length ==> buffer[k] == old(buffer[k])
    {
      WidthStep(input, i);
      next := EscapeOne(input[i], o);
      hide *;
      ghost var before, one, all := old(buffer[base..o]), buffer[o..next], buffer[base..next];
      assert all == before + one by {
        assert buffer[base..o] == before;
      }
      assert Control(input[i]) ==> one[..5] == buffer[o..o + 5] && one[5] == buffer[o + 5];
      EscapingStep(input, i, before, one);
    }

    /** Copies the characters of a string to `base`, escaped where they have to be. */
    method CopyString(input: string, escapeCharacters: nat, base: nat)
      requires escapeCharacters + |input| == Width(input) && base + Width(input) <= limit <= buffer.Length
      modifies buffer
      ensures Escaping(input, |input|, buffer[base..base + Width(input)])
      ensures forall k :: 0 <= k < base || base + Width(input) <= k < buffer.Length ==> buffer[k] == old(buffer[k])
    {
      if escapeCharacters == 0 {
        WidthPlain(input);
        EscapingPlain(input);
        hide *;
        Emit(base, input);
        assert buffer[base..base + Width(input)] == input;
      } else {
        EscapeString(input, base);
      }
    }

    method EscapeString(input: string, base: nat)
      requires base + Width(input) <= limit <= buffer.Length
      modifies buffer
      ensures Escaping(input, |input|, buffer[base..base + Width(input)])
      ensures forall k :: 0 <= k < base || base + Width(input) <= k < buffer.Length ==> buffer[k] == old(buffer[k])
    {
      WidthEnd(input);
      EscapingStart(input);
      hide *;
      var o := base;
      assert buffer[base..o] == "";
      for i := 0 to |input|
        invariant base <= o && o + Width(input[i..]) == base + Width(input)
        invariant Escaping(input, i, buffer[base..o])
        invariant forall k :: 0 <= k < base || base + Width(input) <= k < buffer.Length ==> buffer[k] == old(buffer[k])
      {
        o := EscapeTurn(input, i, base, o);
      }
    }

    /** The closing quote and the NUL. */
    method CloseString(at: nat, ghost base: nat)
      requires base <= at && at + 2 <= limit <= buffer.Length
      modifies buffer
      ensures buffer[base..at + 2] == old(buffer[base..at]) + "\"\0"
      ensures forall k :: 0 <= k < base ==> buffer[k] == old(buffer[k])
    {
      buffer[at] := '\"';
      buffer[at + 1] := '\0';
    }

    /** The characters of a string, the closing quote and the NUL. */
    method CopyAndClose(input: string, escapeCharacters: nat, base: nat) returns (ghost written: string)
      requires escapeCharacters + |input| == Width(input) && base + Width(input) + 2 <= limit <= buffer.Length
      modifies buffer
      ensures |written| == Width(input) && Escaping(input, |input|, written)
      ensures buffer[base..base + |written| + 2] == written + "\"\0"
      ensures forall k :: 0 <= k < base ==> buffer[k] == old(buffer[k])
    {
      hide *;
      CopyString(input, escapeCharacters, base);
      written := buffer[base..base + Width(input)];
      CloseString(base + (|input| + escapeCharacters), base);
    }

    /** Writes a string, its quotes and a NUL into the room reserved for them. */
    method PutString(input: string, escapeCharacters: nat, ghost before: string)
      requires Holds(before) && escapeCharacters + |input| == Width(input)
      requires offset + Width(input) + 3 <= limit <= buffer.Length
      modifies buffer
      ensures Printed(before, Quoted(input))
    {
      assert buffer[..offset] == before && |before| == offset;
      hide *;
      buffer[offset] := '\"';
      ghost var written := CopyAndClose(input, escapeCharacters, offset + 1);
      assert buffer[..offset] == before;
      QuotedPrinted(input, before, written);
    }

    /** print_string_ptr. */
    method PrintStringPtr(input: string, ghost before: string) returns (ok: bool)
      requires Holds(before)
      modifies this`buffer, this`limit, buffer
      ensures buffer == old(buffer) || fresh(buffer)
      ensures ok ==> Printed(before, Quoted(input))
    {
      var escapeCharacters := CountEscapes(input);
      ok := Ensure(|input| + escapeCharacters + 3);
      if ok {
        assert Holds(before);
        PutString(input, escapeCharacters, before);
      }
    }

    lemma QuotedPrinted(input: string, before: string, written: string)
      requires |before| == offset && offset + |written| + 3 <= buffer.Length && buffer[..offset] == before
      requires buffer[offset] == '\"' && buffer[offset + 1..offset + |written| + 3] == written + "\"\0"
      requires Escaping(input, |input|, written)
      ensures Printed(before, Quoted(input))
    {
      QuotedEnd(input, written);
      QuotedText(input);
      hide *;
      var tail := written + "\"\0";
      Closed(tail);
      TailPrinted(before, "\"" + tail, Quoted(input));
    }

    lemma Closed(tail: string)
      requires offset + |tail| < buffer.Length
      requires buffer[offset] == '\"' && buffer[offset + 1..offset + |tail| + 1] == tail
      ensures buffer[offset..offset + |"\"" + tail|] == "\"" + tail
    {
    }

    /** Up to the first NUL of what was written. */
    lemma TailPrinted(before: string, tail: string, text: string)
      requires |before| == offset && offset + |tail| <= buffer.Length
      requires buffer[..offset] == before && buffer[offset..offset + |tail|] == tail
      requires |text| < |tail| && tail[..|text|] == text && tail[|text|] == '\0' && '\0' !in text
      ensures Printed(before, text)
    {
      hide Printed;
      Region(0, before);
      Region(offset, tail);
      forall i | 0 <= i < |text| ensures buffer[offset + i] == text[i] {
        assert tail[..|text|][i] == text[i];
      }
      PrintedBy(before, text);
    }

    lemma Region(at: nat, text: string)
      requires at + |text| <= buffer.Length && buffer[at..at + |text|] == text
      ensures forall i :: 0 <= i < |text| ==> buffer[at + i] == text[i]
    {
      forall i | 0 <= i < |text| ensures buffer[at + i] == text[i] {
        assert buffer[at..at + |text|][i] == text[i];
      }
    }

    /** Reserves room, writes some characters and a NUL, and moves the offset to the NUL. */
    method PrintTerminated(mark: string, ghost before: string) returns (ok: bool)
      requires Holds(before)
      modifies this`buffer, this`limit, this`offset, buffer
      ensures buffer == old(buffer) || fresh(buffer)
      ensures ok ==> Holds(before + mark)
    {
      ok := Ensure(|mark| + 1);
      if ok {
        Emit(offset, mark + "\0");
        ghost var bytes := mark + "\0";
        assert forall i :: 0 <= i < |mark| ==> buffer[offset + i] == bytes[i] == mark[i];
        offset := offset + |mark|;
        assert buffer[..offset] == before + mark;
      }
    }

    lemma PrintedShift(before: string, text: string, last: string)
      requires Printed(before + text, last)
      ensures Printed(before, text + last)
    {
      assert before + text + last == before + (text + last);
    }

    /** print_value. */
    method PrintValue(item: Json, ghost before: string) returns (ok: bool)
      requires Holds(before) && Held(item)
      modifies this`buffer, this`limit, this`offset, this`depth, buffer
      ensures buffer == old(buffer) || fresh(buffer)
      ensures ok ==> Printed(before, Render(item, format, old(depth))) && depth == old(depth)
      decreases item, 3
    {
      match item
      case Null => ok := PrintWord("null", before);
      case False => ok := PrintWord("false", before);
      case True => ok := PrintWord("true", before);
      case Number(text) => ok := PrintNumber(text, before);
      case String(str) => ok := PrintStringPtr(str, before);
      case Array(items) => ok := PrintArray(items, before);
      case Object(members) => ok := PrintObject(members, before);
    }

    /** One turn of print_array's loop. */
    method PrintItem(items: seq<Json>, i: nat, ghost before: string, ghost whole: string)
      returns (ok: bool, ghost after: string)
      requires i < |items| && Holds(before) && ItemsLeft(items, i, format, depth, before, whole)
      modifies this`buffer, this`limit, this`offset, this`depth, buffer
      ensures buffer == old(buffer) || fresh(buffer)
      ensures ok ==> depth == old(depth) && Holds(after) && ItemsLeft(items, i + 1, format, depth, after, whole)
      decreases items, 0
    {
      ItemsLeftStep(items, i, format, depth, before, whole);
      hide *;
      ghost var text := Render(items[i], format, depth);
      after := before + ItemText(items, i, format, depth);
      ItemTextIs(items, i, format, depth, before);
      ok := PrintValue(items[i], before);
      if !ok {
        return;
      }
      UpdateOffset(before, text);
      if i + 1 < |items| {
        ok := PrintTerminated(if format then ", " else ",", before + text);
      }
    }

    method PrintItems(items: seq<Json>, ghost before: string) returns (ok: bool)
      requires Holds(before) && HeldItems(items)
      modifies this`buffer, this`limit, this`offset, this`depth, buffer
      ensures buffer == old(buffer) || fresh(buffer)
      ensures ok ==> depth == old(depth) && Holds(before + RenderItems(items, format, depth))
      decreases items, 1
    {
      ok := true;
      ghost var text, d := before, depth;
      ItemsLeftEnds(items, format, d, before);
      hide *;
      ghost var whole := before + RenderItems(items, format, d);
      for i := 0 to |items|
        invariant buffer == old(buffer) || fresh(buffer)
        invariant depth == d && ok && Holds(text) && ItemsLeft(items, i, format, d, text, whole)
      {
        ok, text := PrintItem(items, i, text, whole);
        if !ok {
          return;
        }
      }
    }

    /** print_array. */
    method PrintArray(items: seq<Json>, ghost before: string) returns (ok: bool)
      requires Holds(before) && HeldItems(items)
      modifies this`buffer, this`limit, this`offset, this`depth, buffer
      ensures buffer == old(buffer) || fresh(buffer)
      ensures ok ==> Printed(before, Render(Array(items), format, old(depth))) && depth == old(depth)
      decreases items, 2
    {
      ArrayText(items, format, depth);
      WordPlain();
      hide Render, RenderItems, HeldItems, Holds, Printed;
      ok := PrintMark("[", 1, before);
      if !ok {
        return;
      }
      depth := depth + 1;
      ghost var inner := RenderItems(items, format, depth);
      ok := PrintItems(items, before + "[");
      if !ok {
        return;
      }
      ok := PrintWord("]", before + "[" + inner);
      if ok {
        Associate(before, "[", inner);
        PrintedShift(before, "[" + inner, "]");
      }
      depth := depth - 1;
    }

    /** One turn of print_object's loop. */
    method PrintMember(members: seq<Member>, i: nat, ghost before: string, ghost whole: string)
      returns (ok: bool, ghost after: string)
      requires i < |members| && Holds(before) && MembersLeft(members, i, format, depth, before, whole)
      modifies this`buffer, this`limit, this`offset, this`depth, buffer
      ensures buffer == old(buffer) || fresh(buffer)
      ensures ok ==> depth == old(depth) && Holds(after) && MembersLeft(members, i + 1, format, depth, after, whole)
      decreases members, 0, 1
    {
      MembersLeftStep(members, i, format, depth, before, whole);
      MemberTextIs(members, i, format, depth, before);
      hide *;
      after := before + MemberText(members, i, format, depth);
      ghost var d := depth;
      ok := PrintName(members[i].key, before);
      if !ok {
        return;
      }
      ghost var named := before + Lead(format, d) + Quoted(members[i].key) + Colon(format);
      ok := PrintValue(members[i].value, named);
      if !ok {
        return;
      }
      ghost var text := Render(members[i].value, format, d);
      UpdateOffset(named, text);
      ok := PrintEnding(i + 1 == |members|, named + text);
    }

    /** The indentation of a member, its name and the colon. */
    method PrintName(key: string, ghost before: string) returns (ok: bool)
      requires Holds(before)
      modifies this`buffer, this`limit, this`offset, buffer
      ensures buffer == old(buffer) || fresh(buffer)
      ensures ok ==> Holds(before + Lead(format, depth) + Quoted(key) + Colon(format))
    {
      ghost var lead := before + Lead(format, depth);
      LeadPlain(format, depth);
      if format {
        ok := PrintMark(Tabs(depth), depth, before);
        if !ok {
          return;
        }
      } else {
        assert lead == before;
      }
      hide Tabs, Quoted, Lead;
      ok := PrintStringPtr(key, lead);
      if !ok {
        return;
      }
      UpdateOffset(lead, Quoted(key));
      ok := PrintMark(if format then ":\t" else ":", if format then 2 else 1, lead + Quoted(key));
    }

    method PrintEnding(last: bool, ghost before: string) returns (ok: bool)
      requires Holds(before)
      modifies this`buffer, this`limit, this`offset, buffer
      ensures buffer == old(buffer) || fresh(buffer)
      ensures ok ==> Holds(before + Ending(last, format))
    {
      ok := PrintTerminated((if last then "" else ",") + (if format then "\n" else ""), before);
    }

    method PrintMembers(members: seq<Member>, ghost before: string) returns (ok: bool)
      requires Holds(before) && HeldMembers(members)
      modifies this`buffer, this`limit, this`offset, this`depth, buffer
      ensures buffer == old(buffer) || fresh(buffer)
      ensures ok ==> depth == old(depth) && Holds(before + RenderMembers(members, format, depth))
      decreases members, 1
    {
      ok := true;
      ghost var text, d := before, depth;
      MembersLeftEnds(members, format, d, before);
      hide *;
      ghost var whole := before + RenderMembers(members, format, d);
      for i := 0 to |members|
        invariant buffer == old(buffer) || fresh(buffer)
        invariant depth == d && ok && Holds(text) && MembersLeft(members, i, format, d, text, whole)
      {
        ok, text := PrintMember(members, i, text, whole);
        if !ok {
          return;
        }
      }
    }

    /** print_object. */
    method PrintObject(members: seq<Member>, ghost before: string) returns (ok: bool)
      requires Holds(before) && HeldMembers(members)
      modifies this`buffer, this`limit, this`offset, this`depth, buffer
      ensures buffer == old(buffer) || fresh(buffer)
      ensures ok ==> Printed(before, Render(Object(members), format, old(depth))) && depth == old(depth)
      decreases members, 2
    {
      ObjectText(members, format, depth, before);
      LeadPlain(format, depth);
      hide Render, RenderMembers, HeldMembers, Holds, Printed, Tabs;
      ghost var open := if format then "{\n" else "{";
      ok := PrintMark(if format then "{\n" else "{", if format then 3 else 2, before);
      if !ok {
        return;
      }
      depth := depth + 1;
      ghost var inner := RenderMembers(members, format, depth);
      ok := PrintMembers(members, before + open);
      if !ok {
        return;
      }
      ok := CloseObject(before, open, inner);
      depth := depth - 1;
    }

    /** The last line of an object: its indentation and the brace. */
    method CloseObject(ghost before: string, ghost open: string, ghost inner: string) returns (ok: bool)
      requires Holds(before + open + inner) && depth > 0
      modifies this`buffer, this`limit, this`offset, buffer
      ensures buffer == old(buffer) || fresh(buffer)
      ensures depth == old(depth)
      ensures ok ==> Printed(before, open + inner + (Lead(format, depth - 1) + "}"))
    {
      LeadPlain(format, depth - 1);
      hide Holds, Printed, Tabs;
      ok := PrintWord((if format then Tabs(depth - 1) else "") + "}", before + open + inner);
      if ok {
        Associate(before, open, inner);
        PrintedShift(before, open + inner, Lead(format, depth - 1) + "}");
      }
    }
  }

  /** The end of the text and its NUL, in an array of just that size. */
  method Shrink(buffer: array<char>, offset: nat) returns (printed: array<char>)
    requires offset < buffer.Length
    ensures fresh(printed) && printed[..] == buffer[..offset] + "\0"
  {
    printed := new char[offset + 1];
    forall i | 0 <= i < offset + 1 {
      printed[i] := buffer[i];
    }
    printed[offset] := '\0';
    assert printed[..] == printed[..offset] + [printed[offset]];
  }

  lemma NothingBefore(text: string)
    ensures "" + text == text
  {
  }

  /** print: the text of a tree as a C string, when every allocation succeeds. */
  method Print(item: Json, format: bool, reallocate: bool) returns (printed: array?<char>)
    requires Held(item)
    ensures printed != null ==> fresh(printed) && printed[..] == Render(item, format, 0) + "\0"
  {
    printed := null;
    var buffer := new PrintBuffer(256, format, reallocate);
    assert buffer.Holds("");
    ghost var text := Render(item, format, 0);
    NothingBefore(text);
    hide Render, Held, PrintBuffer.Printed;
    var ok := buffer.PrintValue(item, "");
    if !ok {
      return;
    }
    buffer.UpdateOffset("", text);
    var failed: bool := *;
    if failed {
      return;
    }
    printed := Shrink(buffer.buffer, buffer.offset);
  }
}
