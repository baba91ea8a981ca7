/** The cJSON parser: a buffer with an offset and a nesting depth that every call moves. */
module JsonParser {
  import opened Json
  import opened JsonGrammar
  import opened JsonString
  import opened Concatenation

  method ParseHex4(input: string) returns (h: nat)
    requires |input| >= 4
    ensures h == Hex4(input)
  {
    h := 0;
    var i := 0;
    while i < 4
      invariant 0 <= i <= 4
      invariant forall k :: 0 <= k < i ==> HexDigit(input[k]) >= 0
      invariant i == 0 ==> h == 0
      invariant i == 1 ==> h == HexDigit(input[0]) * 16
      invariant i == 2 ==> h == (HexDigit(input[0]) * 16 + HexDigit(input[1])) * 16
      invariant i == 3 ==> h == ((HexDigit(input[0]) * 16 + HexDigit(input[1])) * 16 + HexDigit(input[2])) * 16
      invariant i == 4 ==> h == Hex4(input)
    {
      if '0' <= input[i] <= '9' {
        h := h + (input[i] as nat - '0' as nat);
      } else if 'A' <= input[i] <= 'F' {
        h := h + 10 + (input[i] as nat - 'A' as nat);
      } else if 'a' <= input[i] <= 'f' {
        h := h + 10 + (input[i] as nat - 'a' as nat);
      } else {
        return 0;
      }
      if i < 3 {
        h := h * 16;
      }
      i := i + 1;
    }
  }

  /** What is left of a code point after `n` of its trailing bytes are written. */
  function Shifted(code: nat, n: nat): nat {
    if n == 0 then code else if n == 1 then code / 0x40 else if n == 2 then code / 0x1000 else code / 0x40000
  }

  lemma ShiftedStep(code: nat, n: nat)
    requires n < 3
    ensures Shifted(code, n) / 0x40 == Shifted(code, n + 1)
  {
  }

  lemma Utf8Octet(code: nat, position: nat)
    requires code <= 0x10FFFF && 0 < position < |Utf8(code)|
    ensures Utf8(code)[position] == Octet(0x80 + Shifted(code, |Utf8(code)| - 1 - position) % 0x40)
  {
  }

  /** Writes the UTF-8 form of a scalar value at `o`, from its last byte to its first. */
  method WriteUtf8(code: nat, output: array<char>, o: nat) returns (length: nat)
    requires Scalar(code) && o + |Utf8(code)| <= output.Length
    modifies output
    ensures length == |Utf8(code)|
    ensures forall i :: 0 <= i < length ==> output[o + i] == Utf8(code)[i]
    ensures forall i :: 0 <= i < output.Length && !(o <= i < o + length) ==> output[i] == old(output[i])
  {
    var codepoint := code;
    var mark := 0;
    if codepoint < 0x80 {
      length := 1;
    } else if codepoint < 0x800 {
      length := 2;
      mark := 0xC0;
    } else if codepoint < 0x10000 {
      length := 3;
      mark := 0xE0;
    } else {
      length := 4;
      mark := 0xF0;
    }
    ghost var bytes := Utf8(code);
    assert bytes[0] == Octet(mark + Shifted(code, length - 1));
    var position: nat := length - 1;
    while position > 0
      invariant position < length == |bytes|
      invariant codepoint == Shifted(code, length - 1 - position)
      invariant forall i :: position < i < length ==> output[o + i] == bytes[i]
      invariant forall i :: 0 <= i < output.Length && !(o < i < o + length) ==> output[i] == old(output[i])
    {
      Utf8Octet(code, position);
      ShiftedStep(code, length - 1 - position);
      hide Utf8, Shifted, Scalar;
      output[o + position] := Octet(0x80 + codepoint % 0x40);
      codepoint := codepoint / 0x40;
      position := position - 1;
    }
    output[o] := Octet(mark + codepoint);
  }

  /**
   * The escape at `p`, written at `o`: how much of the text it takes (0 if it is refused) and where
   * writing goes on.
   */
  method Utf16LiteralToUtf8(s: string, p: nat, end: nat, output: array<char>, o: nat)
    returns (sequenceLength: nat, next: nat)
    requires p <= end < |s|
    requires var u := Utf16Literal(s[p..], end - p); u.Got? ==> o + |Utf8(u.value)| <= output.Length
    modifies output
    ensures var u := Utf16Literal(s[p..], end - p);
            if u.Got? then
              && sequenceLength == u.used && next == o + |Utf8(u.value)|
              && (forall i :: 0 <= i < |Utf8(u.value)| ==> output[o + i] == Utf8(u.value)[i])
            else sequenceLength == 0 && next == o
    ensures forall i :: 0 <= i < output.Length && !(o <= i < next) ==> output[i] == old(output[i])
  {
    hide Utf8, Hex4;
    sequenceLength, next := 0, o;
    if end - p < 6 {
      return;
    }
    ghost var t := s[p..];
    assert t[2..] == s[p + 2..];
    var firstCode := ParseHex4(s[p + 2..]);
    if 0xDC00 <= firstCode <= 0xDFFF {
      return;
    }
    var codepoint := firstCode;
    var length := 6;
    if 0xD800 <= firstCode <= 0xDBFF {
      if end - p < 12 || s[p + 6] != '\\' || s[p + 7] != 'u' {
        return;
      }
      assert t[8..] == s[p + 8..];
      var secondCode := ParseHex4(s[p + 8..]);
      if secondCode < 0xDC00 || secondCode > 0xDFFF {
        return;
      }
      codepoint := 0x10000 + firstCode % 0x400 * 0x400 + secondCode % 0x400;
      length := 12;
    }
    hide Utf16Literal;
    assert Utf16Literal(t, end - p) == Got(codepoint, length);
    var n := WriteUtf8(codepoint, output, o);
    sequenceLength, next := length, o + n;
  }

  /** The escape sequence at `p`. */
  method DecodeEscape(s: string, p: nat, end: nat, output: array<char>, o: nat) returns (sequenceLength: nat, next: nat)
    requires p < end < |s| && s[p] == '\\'
    requires var one := DecodeOne(s[p..], end - p); one.Got? ==> o + |one.value| <= output.Length
    modifies output
    ensures var one := DecodeOne(s[p..], end - p);
            if one.Got? then
              && sequenceLength == one.used && next == o + |one.value|
              && (forall i :: 0 <= i < |one.value| ==> output[o + i] == one.value[i])
            else sequenceLength == 0 && next == o
    ensures forall i :: 0 <= i < output.Length && !(o <= i < next) ==> output[i] == old(output[i])
  {
    hide Utf8, Utf16Literal;
    assert s[p..][0] == s[p] && s[p..][1] == s[p + 1];
    sequenceLength, next := 2, o + 1;
    match s[p + 1] {
      case 'b' => output[o] := '\U{0008}';
      case 'f' => output[o] := '\U{000c}';
      case 'n' => output[o] := '\n';
      case 'r' => output[o] := '\r';
      case 't' => output[o] := '\t';
      case '\"' => output[o] := '\"';
      case '\\' => output[o] := '\\';
      case '/' => output[o] := '/';
      case 'u' => sequenceLength, next := Utf16LiteralToUtf8(s, p, end, output, o);
      case _ => sequenceLength, next := 0, o;
    }
  }

  /**
   * The measuring scan from a string's first character: where the closing quote is and how many escapes
   * come before it.
   */
  method MeasureString(s: string, start: nat) returns (end: nat, skippedBytes: nat, ok: bool)
    requires start <= |s|
    ensures ok == StringEnd(s[start..]).Got?
    ensures ok ==> end < |s| && end == start + StringEnd(s[start..]).value
    ensures ok ==> end - start - skippedBytes == Tokens(s[start..])
  {
    hide StringEnd, Tokens;
    end, skippedBytes := start, 0;
    while end < |s| && s[end] != '\"'
      invariant start <= end <= |s|
      invariant StringEnd(s[start..]).Got? == StringEnd(s[end..]).Got?
      invariant StringEnd(s[start..]).Got? ==>
                  && StringEnd(s[start..]).value == end - start + StringEnd(s[end..]).value
                  && Tokens(s[start..]) == end - start - skippedBytes + Tokens(s[end..])
    {
      MeasureStep(s, end);
      if s[end] == '\\' {
        if end + 1 >= |s| {
          ok := false;
          return;
        }
        skippedBytes := skippedBytes + 1;
        end := end + 1;
      }
      end := end + 1;
    }
    MeasureEnd(s, end);
    ok := end < |s|;
  }

  lemma {:induction false} MeasureEnd(s: string, b: nat)
    requires b == |s| || (b < |s| && s[b] == '\"')
    ensures b == |s| ==> StringEnd(s[b..]).Fail?
    ensures b < |s| ==> StringEnd(s[b..]).Got? && StringEnd(s[b..]).value == 0 && Tokens(s[b..]) == 0
  {
    assert b < |s| ==> s[b..][0] == s[b];
  }

  lemma {:induction false} MeasureStep(s: string, b: nat)
    requires b < |s| && s[b] != '\"'
    ensures s[b] == '\\' && b + 1 >= |s| ==> StringEnd(s[b..]).Fail?
    ensures s[b] == '\\' && b + 1 < |s| ==>
              && StringEnd(s[b..]) == (var r := StringEnd(s[b + 2..]); if r.Got? then Got(r.value + 2, 0) else Fail)
              && Tokens(s[b..]) == 1 + Tokens(s[b + 2..])
    ensures s[b] != '\\' ==>
              && StringEnd(s[b..]) == (var r := StringEnd(s[b + 1..]); if r.Got? then Got(r.value + 1, 0) else Fail)
              && Tokens(s[b..]) == 1 + Tokens(s[b + 1..])
  {
    var t := s[b..];
    assert t[1..] == s[b + 1..];
    if b + 1 < |s| {
      assert t[2..] == s[b + 2..];
    }
  }

  /** Bytes already written, and then what decoding the rest gives. */
  function Joined(before: string, rest: Parsed<string>): Parsed<string> {
    if rest.Got? then Got(before + rest.value, 0) else Fail
  }

  lemma {:induction false} DecodeStep(s: string, p: nat, end: nat, before: string)
    requires p < end < |s|
    ensures var one := DecodeOne(s[p..], end - p);
            Joined(before, Decode(s[p..], end - p))
            == if one.Got? then Joined(before + one.value, Decode(s[p + one.used..], end - p - one.used)) else Fail
  {
    hide DecodeOne;
    var one := DecodeOne(s[p..], end - p);
    if one.Got? {
      assert s[p..][one.used..] == s[p + one.used..];
      var r := Decode(s[p + one.used..], end - p - one.used);
      if r.Got? {
        Associate(before, one.value, r.value);
      }
    }
  }

  /** The first `o` characters of the output are `bytes`. */
  predicate Holds(output: array<char>, o: nat, bytes: string)
    reads output
  {
    o <= output.Length && output[..o] == bytes
  }

  lemma Written(output: array<char>, before: string, o: nat, bytes: string)
    requires |before| == o && o + |bytes| <= output.Length
    requires forall i :: 0 <= i < o ==> output[i] == before[i]
    requires forall i :: 0 <= i < |bytes| ==> output[o + i] == bytes[i]
    ensures Holds(output, o + |bytes|, before + bytes)
  {
  }

  lemma {:induction false} DecodeEnd(s: string, p: nat, end: nat, before: string)
    requires end <= p <= |s| && end < |s|
    ensures Joined(before, Decode(s[p..], end - p)) == Got(before, 0)
  {
    assert before + "" == before;
  }

  lemma {:induction false} StopHere(s: string, start: nat, end: nat)
    requires start <= |s| && StringEnd(s[start..]).Got? && end == start + StringEnd(s[start..]).value
    ensures Stop(s, start, end)
  {
    StringEndUsed(s[start..]);
  }

  /** One turn of the decoding loop: a character, or an escape sequence. */
  method DecodeNext(s: string, p: nat, end: nat, output: array<char>, o: nat, ghost bytes: string,
                    ghost one: Parsed<string>)
    returns (q: nat, next: nat, ok: bool)
    requires p < end < |s| && o < output.Length && Holds(output, o, bytes)
    requires one == DecodeOne(s[p..], end - p) && (one.Got? ==> o + |one.value| <= output.Length)
    modifies output
    ensures ok == one.Got?
    ensures ok ==> q == p + one.used && next == o + |one.value| && Holds(output, next, bytes + one.value)
  {
    assert |bytes| == o && forall i :: 0 <= i < o ==> output[i] == bytes[i];
    if s[p] != '\\' {
      PlainOne(s, p, end);
      hide *;
      output[o] := s[p];
      q, next, ok := p + 1, o + 1, true;
    } else {
      hide *;
      var sequenceLength;
      sequenceLength, next := DecodeEscape(s, p, end, output, o);
      q, ok := p + sequenceLength, sequenceLength != 0;
    }
    if ok {
      Written(output, bytes, o, one.value);
    }
  }

  /**
   * The decoding loop at `p`: what is written and what is still to come make up the whole string, and
   * there is room for it.
   */
  ghost predicate Decoding(s: string, start: nat, p: nat, b: nat, end: nat, bytes: string) {
    && start <= end < |s| && p <= end + 1
    && Room(s, p, b, end, |bytes|, TokensFrom(s, start))
    && Decode(s[start..], end - start) == Joined(bytes, Decode(s[p..], end - p))
  }

  lemma DecodingStart(s: string, start: nat, end: nat)
    requires start <= end < |s| && Stop(s, start, end)
    ensures Decoding(s, start, start, start, end, "")
  {
    hide Stop, TokensFrom, Decode;
    JoinedStart(Decode(s[start..], end - start));
  }

  lemma DecodingStep(s: string, start: nat, p: nat, b: nat, end: nat, bytes: string, one: Parsed<string>)
    returns (c: nat)
    requires p < end < |s| && start <= end && Decoding(s, start, p, b, end, bytes)
    requires one == DecodeOne(s[p..], end - p)
    ensures one.Got? ==> p + one.used <= end + 1 && |bytes| + |one.value| <= TokensFrom(s, start)
    ensures one.Got? ==> Decoding(s, start, p + one.used, c, end, bytes + one.value)
    ensures one.Fail? ==> Decode(s[start..], end - start).Fail?
  {
    hide Room, TokensFrom, Decode, DecodeOne, Stop, Joined;
    DecodeStep(s, p, end, bytes);
    c := b;
    if one.Got? {
      c := RoomStep(s, p, b, end, |bytes|, TokensFrom(s, start));
      RoomBound(s, p + one.used, c, end, |bytes + one.value|, TokensFrom(s, start));
    }
  }

  lemma DecodingEnd(s: string, start: nat, p: nat, b: nat, end: nat, bytes: string)
    requires start <= end <= p && Decoding(s, start, p, b, end, bytes)
    ensures end < |s| && |bytes| <= TokensFrom(s, start)
    ensures Decode(s[start..], end - start) == Got(bytes, 0)
  {
    hide TokensFrom, Decode, Stop;
    DecodeEnd(s, p, end, bytes);
    RoomBound(s, p, b, end, |bytes|, TokensFrom(s, start));
  }

  method DecodeTurn(s: string, start: nat, p: nat, ghost b: nat, end: nat, output: array<char>, o: nat,
                    ghost bytes: string)
    returns (q: nat, next: nat, ok: bool, ghost c: nat, ghost more: string)
    requires start <= end < |s| && p < end && Decoding(s, start, p, b, end, bytes)
    requires output.Length == TokensFrom(s, start) + 2 && o == |bytes| < output.Length - 1 && Holds(output, o, bytes)
    modifies output
    ensures ok ==> p < q <= |s| && Decoding(s, start, q, c, end, more)
    ensures ok ==> next == |more| < output.Length - 1 && Holds(output, next, more)
    ensures !ok ==> Decode(s[start..], end - start).Fail?
  {
    hide *;
    ghost var one := DecodeOne(s[p..], end - p);
    c := DecodingStep(s, start, p, b, end, bytes, one);
    q, next, ok := DecodeNext(s, p, end, output, o, bytes, one);
    more := if ok then bytes + one.value else "";
  }

  /** Decodes the text from `start` up to its closing quote at `end`, and puts a NUL after it. */
  method DecodeString(s: string, start: nat, end: nat, output: array<char>) returns (ok: bool, o: nat)
    requires start <= end < |s| && Stop(s, start, end) && output.Length == TokensFrom(s, start) + 2
    modifies output
    ensures ok == Decode(s[start..], end - start).Got?
    ensures ok ==> o < output.Length && output[o] == '\0' && Holds(output, o, Decode(s[start..], end - start).value)
  {
    ghost var b: nat := start;
    ghost var bytes: string := "";
    var p: nat := start;
    o := 0;
    DecodingStart(s, start, end);
    assert Holds(output, o, bytes);
    hide *;
    while p < end
      invariant p <= |s| && o == |bytes| < output.Length - 1
      invariant Decoding(s, start, p, b, end, bytes)
      invariant Holds(output, o, bytes)
    {
      p, o, ok, b, bytes := DecodeTurn(s, start, p, b, end, output, o, bytes);
      if !ok {
        return;
      }
    }
    DecodingEnd(s, start, p, b, end, bytes);
    PutNul(output, o, bytes);
    ok := true;
  }

  method PutNul(output: array<char>, o: nat, ghost bytes: string)
    requires o < output.Length && Holds(output, o, bytes)
    modifies output
    ensures Holds(output, o, bytes) && output[o] == '\0'
  {
    output[o] := '\0';
  }

  lemma PlainOne(s: string, p: nat, end: nat)
    requires p < end < |s| && s[p] != '\\'
    ensures DecodeOne(s[p..], end - p) == Got([s[p]], 1)
  {
  }

  lemma JoinedStart(r: Parsed<string>)
    requires r.Got? ==> r.used == 0
    ensures r == Joined("", r)
  {
    if r.Got? {
      assert "" + r.value == r.value;
    }
  }

  lemma RoomBound(s: string, p: nat, b: nat, end: nat, written: nat, total: nat)
    requires Room(s, p, b, end, written, total)
    ensures written <= total
  {
  }

  lemma {:induction false} CStringUpTo(output: array<char>, o: nat, bytes: string)
    requires o < output.Length && Holds(output, o, bytes) && output[o] == '\0'
    ensures CString(output[..]) == CString(bytes)
  {
    assert output[..] == bytes + ("\0" + output[o + 1..]);
    CStringNul(bytes, output[o + 1..]);
  }

  lemma {:induction false} CStringNul(bytes: string, junk: string)
    ensures CString(bytes + ("\0" + junk)) == CString(bytes)
    decreases |bytes|
  {
    var s := bytes + ("\0" + junk);
    if bytes != "" {
      assert s[1..] == bytes[1..] + ("\0" + junk);
      CStringNul(bytes[1..], junk);
    } else {
      assert s[0] == '\0';
    }
  }

  /** The grammar's verdict on the text from `k`, with where it ends in the whole content. */
  function From<T>(r: Parsed<T>, k: nat): Parsed<T> {
    if r.Got? then Got(r.value, k + r.used) else Fail
  }

  /** What a parse method returns is what the grammar says of the text from `k`. */
  predicate Agrees(r: Parsed<Json>, k: nat, ok: bool, item: Json, offset: nat) {
    if r.Got? then ok && item == r.value && offset == k + r.used else !ok
  }

  /** `i` is how much of `s` may be a number. */
  lemma {:induction false} NumberTextIs(s: string, room: nat, i: nat)
    requires i <= room && i <= |s| && forall k :: 0 <= k < i ==> NumberChar(s[k])
    requires i == room || i == |s| || !NumberChar(s[i])
    ensures NumberText(s, room) == s[..i]
    decreases i
  {
    if i > 0 {
      NumberTextIs(s[1..], room - 1, i - 1);
      assert s[..i] == [s[0]] + s[1..][..i - 1];
    }
  }

  /** The items of an array, read from `k`; `v` and `m` are where the first of them starts and ends. */
  lemma {:induction false} ItemsAt(content: string, k: nat, v: nat, m: nat, item: Json, depth: nat, strtod: Strtod)
    requires k <= |content| && v == k + Skip(content[k..]) && v <= m <= |content|
    requires ParseValue(content[v..], depth, strtod) == Got(item, m - v)
    ensures From(ParseItems(content[k..], depth, strtod), k)
         == From(ParseItemsAfter(item, content[m..], depth, strtod), m)
  {
    hide Skip, ParseValue, ParseItemsAfter;
    SuffixOf(content, k, v);
    SuffixOf(content, k, m);
  }

  lemma SuffixOf(s: string, k: nat, v: nat)
    requires k <= v <= |s|
    ensures s[k..][v - k..] == s[v..]
  {
  }

  lemma {:induction false} NoItemsAt(content: string, k: nat, v: nat, depth: nat, strtod: Strtod)
    requires k <= v <= |content| && v == k + Skip(content[k..])
    requires ParseValue(content[v..], depth, strtod).Fail?
    ensures ParseItems(content[k..], depth, strtod).Fail?
  {
    hide Skip, ParseValue, ParseItemsAfter;
    SuffixOf(content, k, v);
  }

  /** The rest of an array from `m`, where the next character that is not blank is at `e`. */
  lemma {:induction false} ItemsAfterAt(content: string, m: nat, e: nat, item: Json, depth: nat, strtod: Strtod)
    requires m <= |content| && e == m + Skip(content[m..]) && e <= |content|
    ensures From(ParseItemsAfter(item, content[m..], depth, strtod), m)
         == if e >= |content| then Fail
            else if content[e] == ']' then Got([item], e + 1)
            else if content[e] != ',' then Fail
            else Prepended([item], From(ParseItems(content[e + 1..], depth, strtod), e + 1))
  {
    hide Skip, ParseItems;
    var s := content[m..];
    if e < |content| {
      assert s[e - m] == content[e] && s[e - m + 1..] == content[e + 1..];
    }
  }

  /** What a turn of the loop over an array's items, from `k`, makes of them. */
  predicate ItemRead(content: string, k: nat, ok: bool, item: Json, e: nat, depth: nat, strtod: Strtod)
    requires k <= |content|
  {
    var r := From(ParseItems(content[k..], depth, strtod), k);
    if !ok || e >= |content| then r == Fail
    else if content[e] == ']' then r == Got([item], e + 1)
    else if content[e] != ',' then r == Fail
    else r == Prepended([item], From(ParseItems(content[e + 1..], depth, strtod), e + 1))
  }

  lemma {:induction false} ItemReadAt(content: string, k: nat, v: nat, m: nat, ok: bool, item: Json, e: nat,
                                      depth: nat, strtod: Strtod)
    requires k <= |content| && v == k + Skip(content[k..]) && v <= |content|
    requires Agrees(ParseValue(content[v..], depth, strtod), v, ok, item, m)
    requires ok ==> m <= |content| && e == m + Skip(content[m..]) && e <= |content|
    ensures ItemRead(content, k, ok, item, e, depth, strtod)
  {
    hide Skip, ParseValue, ParseItems, ParseItemsAfter;
    if ok {
      ItemsAt(content, k, v, m, item, depth, strtod);
      ItemsAfterAt(content, m, e, item, depth, strtod);
    } else {
      NoItemsAt(content, k, v, depth, strtod);
    }
  }

  function Prepended<T>(items: seq<T>, r: Parsed<seq<T>>): Parsed<seq<T>> {
    if r.Got? then Got(items + r.value, r.used) else Fail
  }

  /** The loop over an array's items at `e`, `items` of them done; `whole` is the verdict on all of them. */
  predicate ItemsSoFar(content: string, whole: Parsed<seq<Json>>, items: seq<Json>, more: bool, e: nat, depth: nat,
                       strtod: Strtod) {
    && e <= |content|
    && (more ==> e < |content| && whole == Prepended(items, From(ParseItems(content[e + 1..], depth, strtod), e + 1)))
    && (!more ==> whole == if e < |content| && content[e] == ']' then Got(items, e + 1) else Fail)
  }

  lemma ItemsStart(content: string, e: nat, depth: nat, strtod: Strtod)
    requires e < |content|
    ensures ItemsSoFar(content, From(ParseItems(content[e + 1..], depth, strtod), e + 1), [], true, e, depth, strtod)
  {
    hide ParseItems;
    PrependedTwice([], Null, From(ParseItems(content[e + 1..], depth, strtod), e + 1));
  }

  lemma ItemsTurn(content: string, whole: Parsed<seq<Json>>, items: seq<Json>, e: nat, ok: bool, item: Json, f: nat,
                  depth: nat, strtod: Strtod)
    requires ItemsSoFar(content, whole, items, true, e, depth, strtod) && f <= |content|
    requires ItemRead(content, e + 1, ok, item, f, depth, strtod)
    ensures !ok ==> whole.Fail?
    ensures ok ==> ItemsSoFar(content, whole, items + [item], f < |content| && content[f] == ',', f, depth, strtod)
  {
    hide ParseItems;
    if f < |content| {
      PrependedTwice(items, item, From(ParseItems(content[f + 1..], depth, strtod), f + 1));
    }
  }

  predicate MembersSoFar(content: string, whole: Parsed<seq<Member>>, members: seq<Member>, more: bool, e: nat,
                         depth: nat, strtod: Strtod) {
    && e <= |content|
    && (more ==>
          e < |content|
          && whole == Prepended(members, From(ParseMembers(content[e + 1..], depth, strtod), e + 1)))
    && (!more ==> whole == if e < |content| && content[e] == '}' then Got(members, e + 1) else Fail)
  }

  lemma MembersStart(content: string, e: nat, depth: nat, strtod: Strtod)
    requires e < |content|
    ensures MembersSoFar(content, From(ParseMembers(content[e + 1..], depth, strtod), e + 1), [], true, e, depth,
                         strtod)
  {
    hide ParseMembers;
    PrependedTwice([], Member("", Null), From(ParseMembers(content[e + 1..], depth, strtod), e + 1));
  }

  lemma MembersTurn(content: string, whole: Parsed<seq<Member>>, members: seq<Member>, e: nat, ok: bool,
                    member: Member, f: nat,
                    depth: nat, strtod: Strtod)
    requires MembersSoFar(content, whole, members, true, e, depth, strtod) && f <= |content|
    requires MemberRead(content, e + 1, ok, member, f, depth, strtod)
    ensures !ok ==> whole.Fail?
    ensures ok ==>
            MembersSoFar(content, whole, members + [member], f < |content| && content[f] == ',', f, depth, strtod)
  {
    hide ParseMembers;
    if f < |content| {
      PrependedTwice(members, member, From(ParseMembers(content[f + 1..], depth, strtod), f + 1));
    }
  }

  lemma ItemsDone(content: string, whole: Parsed<seq<Json>>, items: seq<Json>, e: nat, depth: nat, strtod: Strtod)
    requires ItemsSoFar(content, whole, items, false, e, depth, strtod)
    ensures if e < |content| && content[e] == ']' then whole == Got(items, e + 1) else whole.Fail?
  {
  }

  lemma MembersDone(content: string, whole: Parsed<seq<Member>>, members: seq<Member>, e: nat, depth: nat,
                    strtod: Strtod)
    requires MembersSoFar(content, whole, members, false, e, depth, strtod)
    ensures if e < |content| && content[e] == '}' then whole == Got(members, e + 1) else whole.Fail?
  {
  }

  lemma PrependedTwice<T>(items: seq<T>, item: T, r: Parsed<seq<T>>)
    ensures Prepended(items, Prepended([item], r)) == Prepended(items + [item], r)
    ensures Prepended([], r) == r
  {
    if r.Got? {
      assert items + ([item] + r.value) == items + [item] + r.value;
      assert [] + r.value == r.value;
    }
  }

  /** The name of a member, read from `k`: the name starts at `v`, ends at `m`, and its colon is at `c`. */
  lemma {:induction false} NameAt(content: string, k: nat, v: nat, m: nat, name: string, c: nat)
    requires k <= |content| && v == k + Skip(content[k..]) && v <= m <= |content|
    requires JsonGrammar.ParseString(content[v..]) == Got(name, m - v)
    requires c == m + Skip(content[m..]) && c <= |content|
    ensures From(ParseName(content[k..]), k)
         == if c >= |content| || content[c] != ':' then Fail
            else Got(name, c + 1 + Skip(content[c + 1..]))
  {
    hide Skip, JsonGrammar.ParseString;
    var s := content[k..];
    SuffixOf(content, k, v);
    SuffixOf(content, k, m);
    if c < |content| {
      assert s[c - k] == content[c] && s[c - k + 1..] == content[c + 1..];
    }
  }

  predicate NameFound(content: string, k: nat, ok: bool, name: string, e: nat)
    requires k <= |content|
  {
    if ok then From(ParseName(content[k..]), k) == Got(name, e) else ParseName(content[k..]).Fail?
  }

  /** The name starts at `v`, ends at `m`, and what follows it is at `c`. */
  predicate NameAndBlanks(content: string, k: nat, v: nat, m: nat, name: string, c: nat)
    requires k <= |content|
  {
    && v == k + Skip(content[k..]) && v <= m <= |content|
    && JsonGrammar.ParseString(content[v..]) == Got(name, m - v)
    && c == m + Skip(content[m..]) && c <= |content|
  }

  lemma {:induction false} NameRead(content: string, k: nat, v: nat, m: nat, name: string, c: nat)
    requires k <= |content| && NameAndBlanks(content, k, v, m, name, c)
    ensures k <= c
    ensures c >= |content| || content[c] != ':' ==> NameFound(content, k, false, name, c)
    ensures c < |content| && content[c] == ':' ==> NameFound(content, k, true, name, c + 1 + Skip(content[c + 1..]))
  {
    hide Skip, JsonGrammar.ParseString, ParseName;
    NameAt(content, k, v, m, name, c);
  }

  lemma {:induction false} NoNameAt(content: string, k: nat, v: nat, name: string, e: nat)
    requires k <= v <= |content| && v == k + Skip(content[k..]) && JsonGrammar.ParseString(content[v..]).Fail?
    ensures NameFound(content, k, false, name, e)
  {
    hide Skip, JsonGrammar.ParseString;
    SuffixOf(content, k, v);
  }

  lemma {:induction false} MembersAt(content: string, k: nat, v: nat, name: string, depth: nat, strtod: Strtod)
    requires k <= v <= |content|
    ensures ParseName(content[k..]) == Got(name, v - k) ==>
              From(ParseMembers(content[k..], depth, strtod), k)
              == From(ParseNamed(name, content[v..], depth, strtod), v)
  {
    hide ParseName, ParseNamed;
    SuffixOf(content, k, v);
  }

  lemma {:induction false} NoMembersAt(content: string, k: nat, depth: nat, strtod: Strtod)
    requires k <= |content| && ParseName(content[k..]).Fail?
    ensures ParseMembers(content[k..], depth, strtod).Fail?
  {
    hide ParseName, ParseNamed;
  }

  lemma {:induction false} NamedAt(content: string, v: nat, m: nat, name: string, item: Json, depth: nat,
                                   strtod: Strtod)
    requires v <= m <= |content| && ParseValue(content[v..], depth, strtod) == Got(item, m - v)
    ensures From(ParseNamed(name, content[v..], depth, strtod), v)
         == From(ParseMembersAfter(Member(name, item), content[m..], depth, strtod), m)
  {
    hide ParseValue, ParseMembersAfter;
    SuffixOf(content, v, m);
  }

  lemma {:induction false} NoNamedAt(content: string, v: nat, name: string, depth: nat, strtod: Strtod)
    requires v <= |content| && ParseValue(content[v..], depth, strtod).Fail?
    ensures ParseNamed(name, content[v..], depth, strtod).Fail?
  {
    hide ParseValue, ParseMembersAfter;
  }

  lemma {:induction false} MembersAfterAt(content: string, m: nat, e: nat, member: Member, depth: nat, strtod: Strtod)
    requires m <= |content| && e == m + Skip(content[m..]) && e <= |content|
    ensures From(ParseMembersAfter(member, content[m..], depth, strtod), m)
         == if e >= |content| then Fail
            else if content[e] == '}' then Got([member], e + 1)
            else if content[e] != ',' then Fail
            else Prepended([member], From(ParseMembers(content[e + 1..], depth, strtod), e + 1))
  {
    hide Skip, ParseMembers;
    var s := content[m..];
    if e < |content| {
      assert s[e - m] == content[e] && s[e - m + 1..] == content[e + 1..];
    }
  }

  /** What a turn of the loop over an object's members, from `k`, makes of them. */
  predicate MemberRead(content: string, k: nat, ok: bool, member: Member, e: nat, depth: nat, strtod: Strtod)
    requires k <= |content|
  {
    var r := From(ParseMembers(content[k..], depth, strtod), k);
    if !ok || e >= |content| then r == Fail
    else if content[e] == '}' then r == Got([member], e + 1)
    else if content[e] != ',' then r == Fail
    else r == Prepended([member], From(ParseMembers(content[e + 1..], depth, strtod), e + 1))
  }

  /** The name is read up to `v`; the value is read up to `m`, and what follows it is at `e`. */
  lemma {:induction false} MemberReadAt(content: string, k: nat, v: nat, m: nat, name: string, ok: bool, item: Json,
                                        e: nat, depth: nat, strtod: Strtod)
    requires k <= v <= |content|
    requires ok ==> m <= |content| && e == m + Skip(content[m..]) && e <= |content|
    ensures NameFound(content, k, true, name, v) && Agrees(ParseValue(content[v..], depth, strtod), v, ok, item, m) ==>
              MemberRead(content, k, ok, Member(name, item), e, depth, strtod)
  {
    hide Skip, ParseName, ParseValue, ParseMembers, ParseNamed, ParseMembersAfter;
    if !NameFound(content, k, true, name, v) || !Agrees(ParseValue(content[v..], depth, strtod), v, ok, item, m) {
      return;
    }
    MembersAt(content, k, v, name, depth, strtod);
    if ok {
      NamedAt(content, v, m, name, item, depth, strtod);
      MembersAfterAt(content, m, e, Member(name, item), depth, strtod);
    } else {
      NoNamedAt(content, v, name, depth, strtod);
    }
  }

  lemma NoMemberRead(content: string, k: nat, name: string, member: Member, e: nat, depth: nat, strtod: Strtod)
    requires k <= |content| && NameFound(content, k, false, name, e)
    ensures MemberRead(content, k, false, member, e, depth, strtod)
  {
    NoMembersAt(content, k, depth, strtod);
    hide ParseMembers;
  }

  lemma {:induction false} ObjectAt(content: string, o: nat, k: nat, depth: nat, strtod: Strtod)
    requires o < |content| && content[o] == '{' && k == o + 1 + Skip(content[o + 1..])
    ensures ParseValue(content[o..], depth, strtod)
         == if depth >= NESTING_LIMIT || k >= |content| then Fail
            else if content[k] == '}' then Got(Object([]), k + 1 - o)
            else
              var r := From(ParseMembers(content[k..], depth + 1, strtod), k);
              if r.Got? then Got(Object(r.value), r.used - o) else Fail
  {
    hide Skip, ParseMembers;
    var s := content[o..];
    assert s[0] == '{' && s[1..] == content[o + 1..];
    if k < |content| {
      assert s[k - o] == content[k] && s[k - o..] == content[k..];
    }
  }

  lemma {:induction false} ArrayAt(content: string, o: nat, k: nat, depth: nat, strtod: Strtod)
    requires o < |content| && content[o] == '[' && k == o + 1 + Skip(content[o + 1..])
    ensures ParseValue(content[o..], depth, strtod)
         == if depth >= NESTING_LIMIT || k >= |content| then Fail
            else if content[k] == ']' then Got(Array([]), k + 1 - o)
            else
              var r := From(ParseItems(content[k..], depth + 1, strtod), k);
              if r.Got? then Got(Array(r.value), r.used - o) else Fail
  {
    hide Skip, ParseItems;
    var s := content[o..];
    assert s[0] == '[' && s[1..] == content[o + 1..];
    if k < |content| {
      assert s[k - o] == content[k] && s[k - o..] == content[k..];
    }
  }

  /** What parse_array makes of the items it finds from `k`. */
  lemma {:induction false} ArrayAgrees(content: string, o: nat, k: nat, ok: bool, items: seq<Json>, e: nat, depth: nat,
                                       strtod: Strtod)
    requires o < |content| && content[o] == '[' && depth < NESTING_LIMIT
    requires k == o + 1 + Skip(content[o + 1..]) && k < |content|
    requires if content[k] == ']' then ok && items == [] && e == k + 1
             else
               var r := From(ParseItems(content[k..], depth + 1, strtod), k);
               if ok then r == Got(items, e) else r.Fail?
    ensures Agrees(ParseValue(content[o..], depth, strtod), o, ok, Array(items), e)
  {
    hide ParseItems, ParseValue, Skip;
    ArrayAt(content, o, k, depth, strtod);
  }

  lemma {:induction false} ArrayRefused(content: string, o: nat, item: Json, e: nat, depth: nat, strtod: Strtod)
    requires o < |content| && content[o] == '['
    requires depth >= NESTING_LIMIT || o + 1 + Skip(content[o + 1..]) >= |content|
    ensures Agrees(ParseValue(content[o..], depth, strtod), o, false, item, e)
  {
    hide ParseItems, ParseValue, Skip;
    ArrayAt(content, o, o + 1 + Skip(content[o + 1..]), depth, strtod);
  }

  lemma {:induction false} ObjectAgrees(content: string, o: nat, k: nat, ok: bool, members: seq<Member>, e: nat,
                                        depth: nat, strtod: Strtod)
    requires o < |content| && content[o] == '{' && depth < NESTING_LIMIT
    requires k == o + 1 + Skip(content[o + 1..]) && k < |content|
    requires if content[k] == '}' then ok && members == [] && e == k + 1
             else
               var r := From(ParseMembers(content[k..], depth + 1, strtod), k);
               if ok then r == Got(members, e) else r.Fail?
    ensures Agrees(ParseValue(content[o..], depth, strtod), o, ok, Object(members), e)
  {
    hide ParseMembers, ParseValue, Skip;
    ObjectAt(content, o, k, depth, strtod);
  }

  lemma {:induction false} ObjectRefused(content: string, o: nat, item: Json, e: nat, depth: nat, strtod: Strtod)
    requires o < |content| && content[o] == '{'
    requires depth >= NESTING_LIMIT || o + 1 + Skip(content[o + 1..]) >= |content|
    ensures Agrees(ParseValue(content[o..], depth, strtod), o, false, item, e)
  {
    hide ParseMembers, ParseValue, Skip;
    ObjectAt(content, o, o + 1 + Skip(content[o + 1..]), depth, strtod);
  }

  class ParseBuffer {
    const content: string
    var offset: nat
    var depth: nat

    constructor (content: string)
      ensures this.content == content && offset == 0 && depth == 0
    {
      this.content := content;
      offset, depth := 0, 0;
    }

    /** buffer_skip_whitespace. */
    method SkipWhitespace()
      requires offset <= |content|
      modifies this`offset
      ensures offset == old(offset) + Skip(content[old(offset)..]) <= |content|
    {
      if offset >= |content| {
        return;
      }
      while offset < |content| && content[offset] <= ' '
        invariant old(offset) <= offset <= |content|
        invariant Blanks(content[old(offset)..]) == offset - old(offset) + Blanks(content[offset..])
      {
        assert content[offset..][1..] == content[offset + 1..];
        offset := offset + 1;
      }
      if offset == |content| {
        offset := offset - 1;
      }
    }

    /** parse_string: on success a NUL-terminated buffer that holds the string. */
    method ParseString() returns (valuestring: array?<char>)
      requires offset <= |content|
      modifies this`offset
      ensures var r := JsonGrammar.ParseString(content[old(offset)..]);
              if r.Got? then
                valuestring != null && fresh(valuestring) && '\0' in valuestring[..]
                && CString(valuestring[..]) == r.value && offset == old(offset) + r.used
              else valuestring == null
      ensures offset <= |content|
    {
      ghost var s := content[offset..];
      valuestring := null;
      if offset >= |content| || content[offset] != '\"' {
        return;
      }
      var start: nat := offset + 1;
      assert s[1..] == content[start..];
      hide StringEnd, Decode, CString;
      var end, skippedBytes, ok := MeasureString(content, start);
      if !ok {
        return;
      }
      StopHere(content, start, end);
      hide Stop, Tokens;
      var allocationLength := end - offset - skippedBytes;
      var output := new char[allocationLength + 1];
      var o;
      ok, o := DecodeString(content, start, end, output);
      if !ok {
        return;
      }
      CStringUpTo(output, o, Decode(content[start..], end - start).value);
      assert output[..][o] == '\0';
      valuestring := output;
      offset := end + 1;
    }

    /** Copies what may be a number, as much as fits. */
    method CopyNumber(number: array<char>) returns (i: nat)
      requires offset <= |content| && number.Length == 64
      modifies number
      ensures i < 64 && number[..i] == NumberText(content[offset..], 63)
    {
      i := 0;
      ghost var s := content[offset..];
      hide NumberChar, NumberText;
      while i < 63 && offset + i < |content| && NumberChar(content[offset + i])
        invariant i <= 63 && offset + i <= |content|
        invariant forall k :: 0 <= k < i ==> number[k] == content[offset + k]
        invariant forall k :: 0 <= k < i ==> NumberChar(s[k])
      {
        assert s[i] == content[offset + i];
        number[i] := content[offset + i];
        i := i + 1;
      }
      assert i < |s| ==> s[i] == content[offset + i];
      NumberTextIs(s, 63, i);
      assert number[..i] == s[..i];
    }

    /** parse_number. */
    method ParseNumber(strtod: Strtod) returns (ok: bool, item: Json)
      requires offset <= |content|
      modifies this`offset
      ensures Agrees(JsonGrammar.ParseNumber(content[old(offset)..], strtod), old(offset), ok, item, offset)
      ensures offset <= |content|
    {
      ok, item := false, Null;
      var number := new char[64];
      var i := CopyNumber(number);
      var text := number[..i];
      hide NumberText;
      var after := strtod(text);
      if after == 0 || after > i {
        return;
      }
      ok, item := true, Number(text[..after]);
      offset := offset + after;
    }

    /** parse_value. */
    method ParseValue(strtod: Strtod) returns (ok: bool, item: Json)
      requires offset <= |content|
      modifies this`offset, this`depth
      ensures Agrees(JsonGrammar.ParseValue(content[old(offset)..], old(depth), strtod), old(offset), ok, item, offset)
      ensures offset <= |content| && (ok ==> depth == old(depth))
      decreases |content| - offset, 3
    {
      ok, item := true, Null;
      var s := content[offset..];
      if "null" <= s {
        offset := offset + 4;
      } else if "false" <= s {
        item := False;
        offset := offset + 5;
      } else if "true" <= s {
        item := True;
        offset := offset + 4;
      } else if offset < |content| && content[offset] == '\"' {
        var valuestring := ParseString();
        ok := valuestring != null;
        if ok {
          item := String(CString(valuestring[..]));
        }
      } else if offset < |content| && (content[offset] == '-' || '0' <= content[offset] <= '9') {
        ok, item := ParseNumber(strtod);
      } else if offset < |content| && content[offset] == '[' {
        ok, item := ParseArray(strtod);
      } else if offset < |content| && content[offset] == '{' {
        ok, item := ParseObject(strtod);
      } else {
        ok := false;
      }
    }

    /** One turn of parse_array's loop, from the bracket or comma before an item to what follows the item. */
    method ParseItem(strtod: Strtod, ghost whole: Parsed<seq<Json>>, ghost items: seq<Json>)
      returns (ok: bool, item: Json, more: bool)
      requires offset < |content| && ItemsSoFar(content, whole, items, true, offset, depth, strtod)
      modifies this`offset, this`depth
      ensures offset <= |content| && (more ==> offset < |content|)
      ensures if ok then ItemsSoFar(content, whole, items + [item], more, offset, depth, strtod) else whole.Fail?
      ensures ok ==> depth == old(depth) && old(offset) < offset
      decreases |content| - offset, 0
    {
      hide *;
      ghost var e, d: nat := offset, depth;
      offset := offset + 1;
      SkipWhitespace();
      ghost var v := offset;
      ok, item := ParseValue(strtod);
      ghost var m := offset;
      if ok {
        SkipWhitespace();
      }
      more := offset < |content| && content[offset] == ',';
      ItemReadAt(content, e + 1, v, m, ok, item, offset, d, strtod);
      ItemsTurn(content, whole, items, e, ok, item, offset, d, strtod);
    }

    /** The loop over an array's items, from in front of the first one to the closing bracket. */
    method ParseItemList(strtod: Strtod, ghost whole: Parsed<seq<Json>>) returns (ok: bool, items: seq<Json>)
      requires offset < |content| && ItemsSoFar(content, whole, [], true, offset, depth, strtod)
      modifies this`offset, this`depth
      ensures offset <= |content| && (ok ==> offset < |content| && depth == old(depth))
      ensures if ok then whole == Got(items, offset + 1) else whole.Fail?
      decreases |content| - offset, 1
    {
      hide *;
      ghost var d: nat := depth;
      items := [];
      var more := true;
      while more
        invariant offset <= |content| && old(offset) <= offset && depth == d && (more ==> offset < |content|)
        invariant ItemsSoFar(content, whole, items, more, offset, d, strtod)
        decreases |content| - offset, more
      {
        var item;
        ok, item, more := ParseItem(strtod, whole, items);
        if !ok {
          return;
        }
        items := items + [item];
      }
      ok := offset < |content| && content[offset] == ']';
      ItemsDone(content, whole, items, offset, d, strtod);
    }

    /** parse_array. */
    method ParseArray(strtod: Strtod) returns (ok: bool, item: Json)
      requires offset < |content| && content[offset] == '['
      modifies this`offset, this`depth
      ensures Agrees(JsonGrammar.ParseValue(content[old(offset)..], old(depth), strtod), old(offset), ok, item, offset)
      ensures offset <= |content| && (ok ==> depth == old(depth))
      decreases |content| - offset, 2
    {
      hide *;
      ok, item := false, Null;
      ghost var o, d: nat := offset, depth;
      if depth >= NESTING_LIMIT {
        ArrayRefused(content, o, item, offset, d, strtod);
        return;
      }
      depth := depth + 1;
      offset := offset + 1;
      SkipWhitespace();
      ghost var k := offset;
      var items := [];
      if offset < |content| && content[offset] == ']' {
        ok := true;
      } else if offset >= |content| {
        ArrayRefused(content, o, item, offset, d, strtod);
        return;
      } else {
        offset := offset - 1;
        ghost var whole := From(ParseItems(content[k..], d + 1, strtod), k);
        ItemsStart(content, offset, d + 1, strtod);
        ok, items := ParseItemList(strtod, whole);
      }
      item := Array(items);
      ArrayAgrees(content, o, k, ok, items, if ok then offset + 1 else offset, d, strtod);
      if ok {
        depth := depth - 1;
        offset := offset + 1;
      }
    }

    /** The name of a member, from the brace or comma before it to what follows the name. */
    method ParseKey() returns (ok: bool, name: string, ghost v: nat, ghost m: nat)
      requires offset < |content|
      modifies this`offset
      ensures offset <= |content|
      ensures !ok ==> NameFound(content, old(offset) + 1, false, name, offset)
      ensures ok ==> NameAndBlanks(content, old(offset) + 1, v, m, name, offset)
    {
      name, m := "", 0;
      offset := offset + 1;
      SkipWhitespace();
      v := offset;
      var valuestring := ParseString();
      ok := valuestring != null;
      hide JsonGrammar.ParseString, Skip, CString;
      if ok {
        name := CString(valuestring[..]);
        m := offset;
        SkipWhitespace();
      } else {
        NoNameAt(content, old(offset) + 1, v, name, offset);
      }
    }

    /** The name of a member with its colon, up to the value. */
    method ParseMemberName() returns (ok: bool, name: string)
      requires offset < |content|
      modifies this`offset
      ensures offset <= |content|
      ensures NameFound(content, old(offset) + 1, ok, name, offset) && (ok ==> old(offset) < offset)
    {
      hide *;
      ghost var k := offset + 1;
      ghost var v, m;
      ok, name, v, m := ParseKey();
      if ok {
        ghost var c := offset;
        NameRead(content, k, v, m, name, c);
        ok := offset < |content| && content[offset] == ':';
        if ok {
          offset := offset + 1;
          SkipWhitespace();
        }
      }
    }

    /** One turn of parse_object's loop, from the brace or comma before a member to what follows the member. */
    method ParseMember(strtod: Strtod, ghost whole: Parsed<seq<Member>>, ghost members: seq<Member>)
      returns (ok: bool, member: Member, more: bool)
      requires offset < |content| && MembersSoFar(content, whole, members, true, offset, depth, strtod)
      modifies this`offset, this`depth
      ensures offset <= |content| && (more ==> offset < |content|)
      ensures if ok then MembersSoFar(content, whole, members + [member], more, offset, depth, strtod) else whole.Fail?
      ensures ok ==> depth == old(depth) && old(offset) < offset
      decreases |content| - offset, 0
    {
      hide *;
      more, member := false, Member("", Null);
      ghost var e, d: nat := offset, depth;
      var name;
      ok, name := ParseMemberName();
      if !ok {
        NoMemberRead(content, e + 1, name, member, offset, d, strtod);
        MembersTurn(content, whole, members, e, ok, member, offset, d, strtod);
        return;
      }
      ghost var v := offset;
      var item;
      ok, item := ParseValue(strtod);
      ghost var m := offset;
      if ok {
        SkipWhitespace();
      }
      member, more := Member(name, item), offset < |content| && content[offset] == ',';
      MemberReadAt(content, e + 1, v, m, name, ok, item, offset, d, strtod);
      MembersTurn(content, whole, members, e, ok, member, offset, d, strtod);
    }

    /** The loop over an object's members, from in front of the first one to the closing brace. */
    method ParseMemberList(strtod: Strtod, ghost whole: Parsed<seq<Member>>) returns (ok: bool, members: seq<Member>)
      requires offset < |content| && MembersSoFar(content, whole, [], true, offset, depth, strtod)
      modifies this`offset, this`depth
      ensures offset <= |content| && (ok ==> offset < |content| && depth == old(depth))
      ensures if ok then whole == Got(members, offset + 1) else whole.Fail?
      decreases |content| - offset, 1
    {
      hide *;
      ghost var d: nat := depth;
      members := [];
      var more := true;
      while more
        invariant offset <= |content| && old(offset) <= offset && depth == d && (more ==> offset < |content|)
        invariant MembersSoFar(content, whole, members, more, offset, d, strtod)
        decreases |content| - offset, more
      {
        var member;
        ok, member, more := ParseMember(strtod, whole, members);
        if !ok {
          return;
        }
        members := members + [member];
      }
      ok := offset < |content| && content[offset] == '}';
      MembersDone(content, whole, members, offset, d, strtod);
    }

    /** parse_object. */
    method ParseObject(strtod: Strtod) returns (ok: bool, item: Json)
      requires offset < |content| && content[offset] == '{'
      modifies this`offset, this`depth
      ensures Agrees(JsonGrammar.ParseValue(content[old(offset)..], old(depth), strtod), old(offset), ok, item, offset)
      ensures offset <= |content| && (ok ==> depth == old(depth))
      decreases |content| - offset, 2
    {
      hide *;
      ok, item := false, Null;
      ghost var o, d: nat := offset, depth;
      if depth >= NESTING_LIMIT {
        ObjectRefused(content, o, item, offset, d, strtod);
        return;
      }
      depth := depth + 1;
      offset := offset + 1;
      SkipWhitespace();
      ghost var k := offset;
      var members := [];
      if offset < |content| && content[offset] == '}' {
        ok := true;
      } else if offset >= |content| {
        ObjectRefused(content, o, item, offset, d, strtod);
        return;
      } else {
        offset := offset - 1;
        ghost var whole := From(ParseMembers(content[k..], d + 1, strtod), k);
        MembersStart(content, offset, d + 1, strtod);
        ok, members := ParseMemberList(strtod, whole);
      }
      item := Object(members);
      ObjectAgrees(content, o, k, ok, members, if ok then offset + 1 else offset, d, strtod);
      if ok {
        depth := depth - 1;
        offset := offset + 1;
      }
    }
  }

  /** cJSON_Parse, from the characters of a C string. */
  method Parse(value: string, strtod: Strtod) returns (ok: bool, item: Json)
    ensures var r := JsonGrammar.Parse(value, strtod);
            if r.Got? then ok && item == r.value else !ok
  {
    var buffer := new ParseBuffer(value + "\0");
    ghost var content := buffer.content;
    if 4 < |buffer.content| && "\U{00EF}\U{00BB}\U{00BF}" <= buffer.content {
      buffer.offset := 3;
    }
    buffer.SkipWhitespace();
    hide Skip, JsonGrammar.ParseValue;
    ok, item := buffer.ParseValue(strtod);
  }
}
