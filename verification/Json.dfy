/** JSON trees as cJSON holds them, and the text print_value gives for one. */
module Json {

  datatype Member = Member(key: string, value: Json)

  /** `Number` carries the text libc's printf gives for the double: number formatting is not modelled. */
  datatype Json =
    | Null
    | False
    | True
    | Number(text: string)
    | String(str: string)
    | Array(items: seq<Json>)
    | Object(members: seq<Member>)

  /** The character that follows the backslash in a two-character escape, if `c` has one. */
  function ShortEscape(c: char): (e: string)
    ensures |e| <= 1
  {
    match c
    case '\"' => "\""
    case '\\' => "\\"
    case '\U{0008}' => "b"
    case '\U{000c}' => "f"
    case '\n' => "n"
    case '\r' => "r"
    case '\t' => "t"
    case _ => ""
  }

  /** A control character with no short escape. */
  predicate Control(c: char) {
    c < ' ' && ShortEscape(c) == ""
  }

  predicate CleanString(s: string) {
    forall i :: 0 <= i < |s| ==> !Control(s[i])
  }

  /** A character as it is printed between the quotes: as it is, or escaped. */
  function Token(c: char): (t: string)
    ensures |t| == 1 || |t| == 2
  {
    if ShortEscape(c) == "" then [c] else ['\\', ShortEscape(c)[0]]
  }

  /**
   * What a reader sees of a control character, which is printed by snprintf with room for four characters
   * only: its last hex digit is replaced by the terminating NUL.
   */
  function ControlText(c: char): (t: string)
    ensures |t| == 5
  {
    "\\u00" + (if c < '\U{0010}' then "0" else "1")
  }

  /**
   * The body of a printed string with its closing quote, up to where a reader of the buffer stops: nothing
   * after a control character is seen, not even the closing quote.
   */
  function Escaped(s: string): string {
    if s == "" then "\""
    else if Control(s[0]) then ControlText(s[0])
    else Token(s[0]) + Escaped(s[1..])
  }

  function Quoted(s: string): string {
    "\"" + Escaped(s)
  }

  function Tabs(n: nat): (s: string)
    ensures |s| == n
  {
    seq(n, i => '\t')
  }

  function Newline(format: bool): string {
    if format then "\n" else ""
  }

  /** The indentation in front of a member, or of an object's closing brace. */
  function Lead(format: bool, depth: nat): string {
    if format then Tabs(depth) else ""
  }

  function Colon(format: bool): string {
    if format then ":\t" else ":"
  }

  /** What separates the items of an array, after the comma. */
  function Gap(format: bool): string {
    if format then " " else ""
  }

  /** The text printed for a tree at a nesting depth, formatted or not. */
  function Render(j: Json, format: bool, depth: nat): string
    decreases j, 0
  {
    match j
    case Null => "null"
    case False => "false"
    case True => "true"
    case Number(text) => text
    case String(s) => Quoted(s)
    case Array(items) => "[" + RenderItems(items, format, depth + 1) + "]"
    case Object(members) =>
      "{" + Newline(format) + RenderMembers(members, format, depth + 1) + Lead(format, depth) + "}"
  }

  function RenderItems(items: seq<Json>, format: bool, depth: nat): string
    decreases items, 1
  {
    if items == [] then ""
    else
      Render(items[0], format, depth)
      + (if |items| == 1 then "" else "," + Gap(format))
      + RenderItems(items[1..], format, depth)
  }

  function RenderMembers(members: seq<Member>, format: bool, depth: nat): string
    decreases members, 1
  {
    if members == [] then ""
    else
      Lead(format, depth) + Quoted(members[0].key) + Colon(format) + Render(members[0].value, format, depth)
      + (if |members| == 1 then "" else ",") + Newline(format)
      + RenderMembers(members[1..], format, depth)
  }
}
