/** How names are resolved against the stack of entered JSON values, innermost first. */
module MustacheContext {
  import opened Json
  import opened Options

  function SkipDots(s: string): (r: string)
    ensures |r| <= |s| && (s != "" && s[0] == '.' ==> |r| < |s|)
  {
    if s != "" && s[0] == '.' then SkipDots(s[1..]) else s
  }

  /** The first key of a dotted name, with `\.` and `\\` unescaped, and what follows its dots. */
  function SplitKey(s: string): (r: (string, string))
    ensures |r.1| <= |s| && (s != "" ==> |r.1| < |s|)
  {
    if s == "" then ("", "")
    else if s[0] == '.' then ("", SkipDots(s))
    else if s[0] == '\\' && |s| > 1 && (s[1] == '.' || s[1] == '\\') then
      var (key, rest) := SplitKey(s[2..]);
      ([s[1]] + key, rest)
    else
      var (key, rest) := SplitKey(s[1..]);
      ([s[0]] + key, rest)
  }

  function GetMember(members: seq<Member>, key: string): Option<Json> {
    if members == [] then None
    else if members[0].key == key then Some(members[0].value)
    else GetMember(members[1..], key)
  }

  /** cJSON_GetObjectItemCaseSensitive: only the children of an object have names. */
  function GetItem(j: Json, key: string): Option<Json> {
    if j.Object? then GetMember(j.members, key) else None
  }

  function FindInnermost(ctx: seq<Json>, key: string): Option<Json> {
    if ctx == [] then None
    else
      var v := GetItem(ctx[|ctx| - 1], key);
      if v.Some? then v else FindInnermost(ctx[..|ctx| - 1], key)
  }

  function Walk(j: Json, path: string): Option<Json>
    decreases |path|
  {
    if path == "" then Some(j)
    else
      var (key, rest) := SplitKey(path);
      var v := GetItem(j, key);
      if v.None? then None else Walk(v.value, rest)
  }

  /** The value a name selects. */
  function Select(ctx: seq<Json>, name: string): Option<Json>
    requires ctx != []
  {
    if name == "." then Some(ctx[|ctx| - 1])
    else if name == "" then None
    else
      var (key, rest) := SplitKey(name);
      var v := FindInnermost(ctx, key);
      if v.None? then None else Walk(v.value, rest)
  }

  /** The values a section over `j` runs for: none means the section is not entered. */
  function Items(j: Json): seq<Json> {
    match j
    case Array(items) => items
    case False => []
    case Null => []
    case _ => [j]
  }

  function Entered(ctx: seq<Json>, name: string): seq<Json>
    requires ctx != []
  {
    var v := Select(ctx, name);
    if v.None? then [] else Items(v.value)
  }

  /** The text a selected value is replaced by. */
  function TextOf(j: Json): string {
    match j
    case String(s) => s
    case Null => ""
    case _ => Render(j, false, 0)
  }

  function Escape(s: string): string {
    if s == "" then ""
    else EscapeChar(s[0]) + Escape(s[1..])
  }

  function EscapeChar(c: char): string {
    match c
    case '<' => "&lt;"
    case '>' => "&gt;"
    case '&' => "&amp;"
    case '\"' => "&quot;"
    case _ => [c]
  }

  function Replacement(ctx: seq<Json>, name: string, escape: bool): string
    requires ctx != []
  {
    var v := Select(ctx, name);
    var text := if v.None? then "" else TextOf(v.value);
    if escape then Escape(text) else text
  }
}
