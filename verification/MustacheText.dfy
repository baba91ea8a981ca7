/** What `process` reads in a template: text up to an opening delimiter, then one tag. */
module MustacheText {

  const MAX_DEPTH: nat := 256
  const MAX_LENGTH: nat := 4096
  const MAX_DELIM_LENGTH: nat := 8

  /** Error codes, and `PartialReached` for an enabled partial tag, which this model stops at. */
  datatype Verdict =
    | Ok
    | UnexpectedEnd
    | EmptyTag
    | TagTooLong
    | BadSeparators
    | TooDeep
    | Closing
    | BadUnescapeTag
    | PartialReached

  /**
   * The three values of `stdalone`: the current line holds other text or a variable (0), only
   * blanks so far (1), only blanks and tags that may stand alone (2).
   */
  datatype Line = Mixed | Blank | Lone

  /** isspace in the C locale. */
  predicate IsSpace(c: char) {
    c == ' ' || '\t' <= c <= '\r'
  }

  predicate Matches(t: string, at: nat, delim: string) {
    at + |delim| <= |t| && t[at..at + |delim|] == delim
  }

  /** The first place at or after `from` where `delim` occurs, or |t|. */
  function Find(t: string, from: nat, delim: string): (k: nat)
    requires from <= |t| && delim != ""
    ensures from <= k <= |t|
    ensures k < |t| ==> Matches(t, k, delim)
    ensures forall j :: from <= j < k ==> !Matches(t, j, delim)
    decreases |t| - from
  {
    if from == |t| || Matches(t, from, delim) then from else Find(t, from + 1, delim)
  }

  function TrimLeft(s: string): (r: string)
    ensures forall c :: c in r ==> c in s
  {
    if s != "" && IsSpace(s[0]) then TrimLeft(s[1..]) else s
  }

  function TrimRight(s: string): (r: string)
    ensures forall c :: c in r ==> c in s
  {
    if s != "" && IsSpace(s[|s| - 1]) then TrimRight(s[..|s| - 1]) else s
  }

  function Trim(s: string): string {
    TrimRight(TrimLeft(s))
  }

  /** What is written for the line piece that starts at `start` and whose line break (or the end) is at `brk`. */
  function Piece(t: string, start: nat, brk: nat, line: Line, prefix: string, enabled: bool): string
    requires start <= brk <= |t|
  {
    if line == Lone || !enabled then ""
    else (if brk == start then "" else prefix) + t[start..if brk == |t| then brk else brk + 1]
  }

  datatype Scanned =
    | AtEnd(out: string)
    | AtTag(start: nat, beg: nat, line: Line, out: string)

  /**
   * Scans text from `beg` to the next opening delimiter, writing each whole line; `start` is where the
   * line piece begins.
   */
  function Scan(t: string, start: nat, beg: nat, line: Line, prefix: string, enabled: bool, op: string,
                out: string): (r: Scanned)
    requires start <= beg <= |t| && op != ""
    ensures r.AtTag? ==> start <= r.start <= r.beg < |t| && beg <= r.beg && Matches(t, r.beg, op)
    decreases |t| - beg
  {
    if beg == |t| then
      AtEnd(out + Piece(t, start, beg, line, prefix, enabled))
    else if t[beg] == '\n' then
      Scan(t, beg + 1, beg + 1, Blank, "", enabled, op,
           out + Piece(t, start, beg, line, prefix, enabled))
    else if IsSpace(t[beg]) then
      Scan(t, start, beg + 1, line, prefix, enabled, op, out)
    else
      var flush := line == Lone && enabled;
      var line1 := if flush then Mixed else line;
      var prefix1 := if flush then "" else prefix;
      var out1 := if flush then out + prefix else out;
      if Matches(t, beg, op) then AtTag(start, beg, line1, out1)
      else Scan(t, start, beg + 1, Mixed, prefix1, enabled, op, out1)
  }

  datatype Kind = Comment | Delimiters(op: string,
                                       cl: string) | Section(inverted: bool) | Close | Partial | Variable(escape: bool)

  datatype Tag =
    | BadTag(code: Verdict)
    | Tag(kind: Kind, name: string, next: nat, alone: bool)

  /** The name of a tag whose text is `s`. */
  function Named(kind: Kind, s: string, next: nat, alone: bool): (r: Tag)
    ensures r.Tag? ==> r.name != "" && forall c :: c in r.name ==> c in s
    ensures r.BadTag? ==> r.code != Ok
  {
    var name := Trim(s);
    if name == "" then BadTag(EmptyTag)
    else if |name| > MAX_LENGTH then BadTag(TagTooLong)
    else Tag(kind, name, next, alone)
  }

  /**
   * A tag with its first character dropped. With no character to drop, `len` wraps round to
   * SIZE_MAX and the tag is refused as too long.
   */
  function NamedAfterFirst(kind: Kind, s: string, next: nat, alone: bool): (r: Tag)
    ensures r.Tag? ==> r.name != "" && forall c :: c in r.name ==> c in s
    ensures r.BadTag? ==> r.code != Ok
  {
    if s == "" then BadTag(TagTooLong) else Named(kind, s[1..], next, alone)
  }

  /** How many leading characters of `s` are not blank. */
  function WordLength(s: string): (n: nat)
    ensures n <= |s|
    ensures n < |s| ==> IsSpace(s[n])
    ensures forall i :: 0 <= i < n ==> !IsSpace(s[i])
  {
    if s == "" || IsSpace(s[0]) then 0 else 1 + WordLength(s[1..])
  }

  /** The two delimiters in the text of a set-delimiter tag `=op cl=`. */
  function ReadDelimiters(s: string): (r: Tag)
    ensures r.Tag? ==> r.kind.Delimiters? && r.kind.op != "" && r.kind.cl != "" && !IsSpace(r.kind.op[0])
    ensures r.BadTag? ==> r.code != Ok
  {
    if |s| < 5 || s[|s| - 1] != '=' then BadTag(BadSeparators)
    else
      var inner := Trim(s[1..|s| - 1]);
      var l := WordLength(inner);
      if l == |inner| || l > MAX_DELIM_LENGTH then BadTag(BadSeparators)
      else
        var second := TrimLeft(inner[l..]);
        if l == 0 || second == "" || |second| > MAX_DELIM_LENGTH then BadTag(BadSeparators)
        else Tag(Delimiters(inner[..l], second), "", 0, true)
  }

  predicate AllBraces(s: string) {
    forall i :: 0 <= i < |s| ==> s[i] == '}'
  }

  /**
   * The tag whose text starts at `beg`, just after an opening delimiter. `Tag.alone` says that this
   * kind of tag may stand alone on its line. A set-delimiter tag is returned with its raw text as
   * the name, since its text is checked only after the pending blanks have been written.
   */
  function ReadTag(t: string, beg: nat, cl: string): (r: Tag)
    requires beg <= |t| && cl != ""
    ensures r.Tag? ==> beg < r.next <= |t|
    ensures r.BadTag? ==> r.code != Ok
    ensures r.Tag? && !r.kind.Comment? && !r.kind.Delimiters? ==> r.name != "" && forall c :: c in r.name ==> c in t
  {
    var term := Find(t, beg, cl);
    if term == |t| then BadTag(UnexpectedEnd)
    else
      var next := term + |cl|;
      var s := t[beg..term];
      match t[beg]
      case '!' => Tag(Comment, "", next, true)
      case '=' => Tag(Delimiters("", ""), s, next, true)
      case '{' =>
        if AllBraces(cl) then
          if next < |t| && t[next] == '}'
          then NamedAfterFirst(Variable(false), s, next + 1, false)
          else BadTag(BadUnescapeTag)
        else if s == "" || s[|s| - 1] != '}' then BadTag(BadUnescapeTag)
        else NamedAfterFirst(Variable(false), s[..|s| - 1], next, false)
      case '&' => NamedAfterFirst(Variable(false), s, next, false)
      case '^' => NamedAfterFirst(Section(true), s, next, true)
      case '#' => NamedAfterFirst(Section(false), s, next, true)
      case '/' => NamedAfterFirst(Close, s, next, true)
      case '>' => NamedAfterFirst(Partial, s, next, true)
      case _ => Named(Variable(true), s, next, false)
  }
}
