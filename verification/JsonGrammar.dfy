/**
 * What the cJSON parser makes of a text. Every function takes the text from the current offset on, and
 * says how far the offset moves.
 */
module JsonGrammar {
  import opened Json

  const NESTING_LIMIT: nat := 1000

  datatype Parsed<T> = Fail | Got(value: T, used: nat)

  /** strtod: how many leading characters of a number text it reads (0 if it is none). */
  type Strtod = string -> nat

  function Blanks(s: string): (n: nat)
    ensures n <= |s| && (n < |s| ==> s[n] > ' ')
  {
    if s == "" || s[0] > ' ' then 0 else 1 + Blanks(s[1..])
  }

  /** buffer_skip_whitespace: stops on the last character when there is nothing else. */
  function Skip(s: string): (n: nat)
    ensures n <= |s| && (s != "" ==> n < |s|)
  {
    if s != "" && Blanks(s) == |s| then |s| - 1 else Blanks(s)
  }

  /** From a string's first character, the index of its closing quote. */
  function StringEnd(s: string): (r: Parsed<nat>)
    ensures r.Got? ==> r.value < |s| && s[r.value] == '\"'
  {
    if s == "" then Fail
    else if s[0] == '\"' then Got(0, 0)
    else if s[0] == '\\' then
      if |s| < 2 then Fail
      else var r := StringEnd(s[2..]); if r.Got? then Got(r.value + 2, 0) else Fail
    else var r := StringEnd(s[1..]); if r.Got? then Got(r.value + 1, 0) else Fail
  }

  function HexDigit(c: char): (v: int)
    ensures -1 <= v < 16
  {
    if '0' <= c <= '9' then c as int - '0' as int
    else if 'A' <= c <= 'F' then c as int - 'A' as int + 10
    else if 'a' <= c <= 'f' then c as int - 'a' as int + 10
    else -1
  }

  /** parse_hex4: 0 when a digit is invalid. */
  function Hex4(s: string): (v: nat)
    requires |s| >= 4
    ensures v < 0x10000
  {
    var a, b, c, d := HexDigit(s[0]), HexDigit(s[1]), HexDigit(s[2]), HexDigit(s[3]);
    if a < 0 || b < 0 || c < 0 || d < 0 then 0 else ((a * 16 + b) * 16 + c) * 16 + d
  }

  predicate HighSurrogate(code: nat) {
    0xD800 <= code <= 0xDBFF
  }

  predicate LowSurrogate(code: nat) {
    0xDC00 <= code <= 0xDFFF
  }

  /** A Unicode scalar value. */
  predicate Scalar(code: nat) {
    code <= 0x10FFFF && !HighSurrogate(code) && !LowSurrogate(code)
  }

  /**
   * The scalar value of a \u escape or surrogate pair at the start of `s`, with `left` characters before
   * the closing quote.
   */
  function Utf16Literal(s: string, left: nat): (r: Parsed<nat>)
    requires left <= |s|
    ensures r.Got? ==> Scalar(r.value) && (r.used == 6 || r.used == 12) && r.used <= left
    ensures r.Got? && r.used == 6 ==> r.value < 0x10000
  {
    if left < 6 then Fail
    else
      var first := Hex4(s[2..]);
      if LowSurrogate(first) then Fail
      else if !HighSurrogate(first) then Got(first, 6)
      else if left < 12 || s[6] != '\\' || s[7] != 'u' then Fail
      else
        var second := Hex4(s[8..]);
        if !LowSurrogate(second) then Fail
        else Got(0x10000 + (first % 0x400) * 0x400 + second % 0x400, 12)
  }

  function Octet(n: nat): char
    requires n < 256
  {
    n as char
  }

  /** The UTF-8 form of a scalar value, section 3 of RFC 3629. */
  function Utf8(code: nat): (s: string)
    requires code <= 0x10FFFF
    ensures 1 <= |s| <= 4 && (code < 0x10000 ==> |s| <= 3)
  {
    if code < 0x80 then [Octet(code)]
    else if code < 0x800 then [Octet(0xC0 + code / 0x40), Octet(0x80 + code % 0x40)]
    else if code < 0x10000 then
      [Octet(0xE0 + code / 0x1000), Octet(0x80 + code / 0x40 % 0x40), Octet(0x80 + code % 0x40)]
    else
      [Octet(0xF0 + code / 0x40000), Octet(0x80 + code / 0x1000 % 0x40),
       Octet(0x80 + code / 0x40 % 0x40), Octet(0x80 + code % 0x40)]
  }

  /** The character a two-character escape stands for. */
  function Unescaped(c: char): string {
    match c
    case 'b' => "\U{0008}"
    case 'f' => "\U{000c}"
    case 'n' => "\n"
    case 'r' => "\r"
    case 't' => "\t"
    case '\"' => "\""
    case '\\' => "\\"
    case '/' => "/"
    case _ => ""
  }

  /** The next character of a string, or escape: the bytes written for it, and how much of the text it takes. */
  function DecodeOne(s: string, left: nat): (r: Parsed<string>)
    requires 0 < left < |s|
    ensures r.Got? ==> 0 < r.used <= |s| && r.used <= left + 1
  {
    if s[0] != '\\' then Got([s[0]], 1)
    else if s[1] == 'u' then
      var u := Utf16Literal(s, left);
      if u.Got? then Got(Utf8(u.value), u.used) else Fail
    else if Unescaped(s[1]) == "" then Fail
    else Got(Unescaped(s[1]), 2)
  }

  /** The bytes of a string with `left` characters still before its closing quote. */
  function Decode(s: string, left: int): (r: Parsed<string>)
    requires left < |s|
    ensures r.Got? ==> r.used == 0
    decreases |s|
  {
    if left <= 0 then Got("", 0)
    else
      var one := DecodeOne(s, left);
      if !one.Got? then Fail
      else
        var r := Decode(s[one.used..], left - one.used);
        if r.Got? then Got(one.value + r.value, 0) else Fail
  }

  /** What a reader of a C string sees of some characters. */
  function CString(s: string): (r: string)
    ensures r <= s && '\0' !in r
  {
    if s == "" || s[0] == '\0' then "" else [s[0]] + CString(s[1..])
  }

  /** parse_string. */
  function ParseString(s: string): (r: Parsed<string>)
    ensures r.Got? ==> 0 < r.used <= |s|
  {
    if s == "" || s[0] != '\"' then Fail
    else
      var end := StringEnd(s[1..]);
      if !end.Got? then Fail
      else
        var chars := Decode(s[1..], end.value);
        if chars.Got? then Got(CString(chars.value), end.value + 2) else Fail
  }

  predicate NumberChar(c: char) {
    '0' <= c <= '9' || c == '+' || c == '-' || c == 'e' || c == 'E' || c == '.'
  }

  /** The text copied for strtod: at most `room` number characters. */
  function NumberText(s: string, room: nat): (n: string)
    ensures n <= s && |n| <= room
  {
    if room == 0 || s == "" || !NumberChar(s[0]) then "" else [s[0]] + NumberText(s[1..], room - 1)
  }

  function ParseNumber(s: string, strtod: Strtod): (r: Parsed<Json>)
    ensures r.Got? ==> r.value.Number? && 0 < r.used <= |s|
  {
    var text := NumberText(s, 63);
    var n := strtod(text);
    if n == 0 || n > |text| then Fail else Got(Number(text[..n]), n)
  }

  predicate StartsNumber(s: string) {
    s != "" && (s[0] == '-' || '0' <= s[0] <= '9')
  }

  /** parse_value, inside `depth` arrays and objects. */
  function ParseValue(s: string, depth: nat, strtod: Strtod): (r: Parsed<Json>)
    ensures r.Got? ==> 0 < r.used <= |s|
    decreases |s|, 1
  {
    if "null" <= s then Got(Null, 4)
    else if "false" <= s then Got(False, 5)
    else if "true" <= s then Got(True, 4)
    else if s == "" then Fail
    else if s[0] == '\"' then
      var r := ParseString(s);
      if r.Got? then Got(String(r.value), r.used) else Fail
    else if StartsNumber(s) then ParseNumber(s, strtod)
    else if s[0] == '[' then
      if depth >= NESTING_LIMIT then Fail
      else
        var k := 1 + Skip(s[1..]);
        if k >= |s| then Fail
        else if s[k] == ']' then Got(Array([]), k + 1)
        else
          var r := ParseItems(s[k..], depth + 1, strtod);
          if r.Got? then Got(Array(r.value), k + r.used) else Fail
    else if s[0] == '{' then
      if depth >= NESTING_LIMIT then Fail
      else
        var k := 1 + Skip(s[1..]);
        if k >= |s| then Fail
        else if s[k] == '}' then Got(Object([]), k + 1)
        else
          var r := ParseMembers(s[k..], depth + 1, strtod);
          if r.Got? then Got(Object(r.value), k + r.used) else Fail
    else Fail
  }

  /** The items of an array, up to and including its closing bracket. */
  function ParseItems(s: string, depth: nat, strtod: Strtod): (r: Parsed<seq<Json>>)
    ensures r.Got? ==> 0 < r.used <= |s|
    decreases |s|, 2
  {
    var k := Skip(s);
    var v := ParseValue(s[k..], depth, strtod);
    if !v.Got? then Fail
    else
      var r := ParseItemsAfter(v.value, s[k + v.used..], depth, strtod);
      if r.Got? then Got(r.value, k + v.used + r.used) else Fail
  }

  /** The rest of an array, once an item is read. */
  function ParseItemsAfter(item: Json, s: string, depth: nat, strtod: Strtod): (r: Parsed<seq<Json>>)
    ensures r.Got? ==> 0 < r.used <= |s| && r.value != [] && r.value[0] == item
    decreases |s|, 2
  {
    var e := Skip(s);
    if e >= |s| then Fail
    else if s[e] == ']' then Got([item], e + 1)
    else if s[e] != ',' then Fail
    else
      var r := ParseItems(s[e + 1..], depth, strtod);
      if r.Got? then Got([item] + r.value, e + 1 + r.used) else Fail
  }

  /** The name of a member, its colon and the blanks after it. */
  function ParseName(s: string): (r: Parsed<string>)
    ensures r.Got? ==> 0 < r.used <= |s|
  {
    var k := Skip(s);
    var name := ParseString(s[k..]);
    if !name.Got? then Fail
    else
      var m := k + name.used;
      var c := m + Skip(s[m..]);
      if c >= |s| || s[c] != ':' then Fail
      else Got(name.value, c + 1 + Skip(s[c + 1..]))
  }

  /** The members of an object, up to and including its closing brace. */
  function ParseMembers(s: string, depth: nat, strtod: Strtod): (r: Parsed<seq<Member>>)
    ensures r.Got? ==> 0 < r.used <= |s|
    decreases |s|, 2
  {
    var name := ParseName(s);
    if !name.Got? then Fail
    else
      var r := ParseNamed(name.value, s[name.used..], depth, strtod);
      if r.Got? then Got(r.value, name.used + r.used) else Fail
  }

  /** The value of a member, once its name is read, and the members after it. */
  function ParseNamed(key: string, s: string, depth: nat, strtod: Strtod): (r: Parsed<seq<Member>>)
    ensures r.Got? ==> 0 < r.used <= |s| && r.value != [] && r.value[0].key == key
    decreases |s|, 2
  {
    var v := ParseValue(s, depth, strtod);
    if !v.Got? then Fail
    else
      var r := ParseMembersAfter(Member(key, v.value), s[v.used..], depth, strtod);
      if r.Got? then Got(r.value, v.used + r.used) else Fail
  }

  /** The rest of an object, once a member is read. */
  function ParseMembersAfter(member: Member, s: string, depth: nat, strtod: Strtod): (r: Parsed<seq<Member>>)
    ensures r.Got? ==> 0 < r.used <= |s| && r.value != [] && r.value[0] == member
    decreases |s|, 3
  {
    var e := Skip(s);
    if e >= |s| then Fail
    else if s[e] == '}' then Got([member], e + 1)
    else if s[e] != ',' then Fail
    else
      var r := ParseMembers(s[e + 1..], depth, strtod);
      if r.Got? then Got([member] + r.value, e + 1 + r.used) else Fail
  }

  /** cJSON_Parse: a byte order mark and blanks are skipped; what follows the value is not looked at. */
  function Parse(text: string, strtod: Strtod): Parsed<Json> {
    var content := text + "\0";
    var bom := if |content| > 4 && "\U{00EF}\U{00BB}\U{00BF}" <= content then 3 else 0;
    ParseValue(content[bom + Skip(content[bom..])..], 0, strtod)
  }
}
