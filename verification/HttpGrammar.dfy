/**
 * What the request parser accepts, read one byte at a time. Every function looks at `buf` only below
 * `end`, the length received so far, so one byte string can stand for every stage of its arrival.
 */
module HttpGrammar {
  import opened Bytes

  /** Where a scan stops: out of input (-2), refused (-1), or at an index. */
  datatype Scan = More | Bad | At(pos: nat)

  function Byte(buf: seq<byte>, end: nat, i: nat): byte
    requires i < end <= |buf|
  {
    buf[i]
  }

  predicate Printable(c: byte) {
    SP <= c < DEL
  }

  /** A control character other than HT. */
  predicate Ctl(c: byte) {
    (c < SP && c != HT) || c == DEL
  }

  /** tchar of section 3.2.6 of RFC 7230. */
  predicate TokenChar(c: byte) {
    || c == '!' as byte || '#' as byte <= c <= '\'' as byte
    || c == '*' as byte || c == '+' as byte || c == '-' as byte || c == '.' as byte
    || '0' as byte <= c <= '9' as byte || 'A' as byte <= c <= 'Z' as byte
    || '^' as byte <= c <= 'z' as byte || c == '|' as byte || c == '~' as byte
  }

  const COLON: byte := ':' as byte

  /** A token up to its delimiter. */
  function Token(buf: seq<byte>, i: nat, end: nat, next: byte): (r: Scan)
    requires i <= end <= |buf|
    ensures r.At? ==> i <= r.pos < end && buf[r.pos] == next && forall k :: i <= k < r.pos ==> TokenChar(buf[k])
    decreases end - i
  {
    if i == end then More
    else if Byte(buf, end, i) == next then At(i)
    else if !TokenChar(Byte(buf, end, i)) then Bad
    else Token(buf, i + 1, end, next)
  }

  /** The request target, up to a space. */
  function Target(buf: seq<byte>, i: nat, end: nat): (r: Scan)
    requires i <= end <= |buf|
    ensures r.At? ==>
              i <= r.pos < end && buf[r.pos] == SP && forall k :: i <= k < r.pos ==> buf[k] >= SP && buf[k] != DEL
    decreases end - i
  {
    if i == end then More
    else if Byte(buf, end, i) == SP then At(i)
    else if Byte(buf, end, i) < SP || Byte(buf, end, i) == DEL then Bad
    else Target(buf, i + 1, end)
  }

  /** Spaces, or spaces and tabs. */
  function SkipBlanks(buf: seq<byte>, i: nat, end: nat, tabs: bool): (r: Scan)
    requires i <= end <= |buf|
    ensures r.At? ==> i <= r.pos < end && forall k :: i <= k < r.pos ==> buf[k] == SP || buf[k] == HT
    ensures r != Bad
    decreases end - i
  {
    if i == end then More
    else if Byte(buf, end, i) == SP || (tabs && Byte(buf, end, i) == HT) then SkipBlanks(buf, i + 1, end, tabs)
    else At(i)
  }

  /** The first control character at or after `i`. */
  function FindCtl(buf: seq<byte>, i: nat, end: nat): (r: Scan)
    requires i <= end <= |buf|
    ensures r.At? ==> i <= r.pos < end && Ctl(buf[r.pos]) && forall k :: i <= k < r.pos ==> !Ctl(buf[k])
    ensures r != Bad
    decreases end - i
  {
    if i == end then More
    else if Ctl(Byte(buf, end, i)) then At(i)
    else FindCtl(buf, i + 1, end)
  }

  /** A line break at `i`: CR LF or a bare LF. */
  function LineBreak(buf: seq<byte>, i: nat, end: nat): (r: Scan)
    requires i < end <= |buf|
    ensures r.At? ==> i < r.pos <= end && IsBreak(buf, i, r.pos)
  {
    if Byte(buf, end, i) == LF then At(i + 1)
    else if Byte(buf, end, i) != CR then Bad
    else if i + 1 == end then More
    else if Byte(buf, end, i + 1) == LF then At(i + 2)
    else Bad
  }

  predicate IsBreak(buf: seq<byte>, i: nat, j: nat)
    requires i <= |buf| && j <= |buf|
  {
    (j == i + 1 && buf[i] == LF) || (j == i + 2 && buf[i] == CR && buf[i + 1] == LF)
  }

  datatype Span = Span(start: nat, len: nat)

  /** A header field; a folded line has no name. */
  datatype Header = Header(named: bool, name: Span, value: Span)

  /** The end of a value once the blanks before `to` are dropped. */
  function TrimEnd(buf: seq<byte>, from: nat, to: nat): (r: nat)
    requires from <= to <= |buf|
    ensures from <= r <= to
  {
    if to > from && (buf[to - 1] == SP || buf[to - 1] == HT) then TrimEnd(buf, from, to - 1) else to
  }

  datatype Parsed<T> = Partial | Invalid | Done(pos: nat, value: T)

  function Fail<T>(s: Scan): Parsed<T> {
    if s == Bad then Invalid else Partial
  }

  /** The value of a header field and its line break. */
  function Value(buf: seq<byte>, i: nat, end: nat): (r: Parsed<Span>)
    requires i <= end <= |buf|
    ensures r.Done? ==> i < r.pos <= end
  {
    var ctl := FindCtl(buf, i, end);
    if !ctl.At? then Fail(ctl)
    else
      var brk := LineBreak(buf, ctl.pos, end);
      if !brk.At? then Fail(brk)
      else Done(brk.pos, Span(i, TrimEnd(buf, i, ctl.pos) - i))
  }

  /** The name of a header field, its colon and the blanks after it: where the value starts. */
  function Name(buf: seq<byte>, i: nat, end: nat): (r: Parsed<Span>)
    requires i <= end <= |buf|
    ensures r.Done? ==> i < r.pos < end
  {
    var colon := Token(buf, i, end, COLON);
    if !colon.At? then Fail(colon)
    else if colon.pos == i then Invalid
    else
      var start := SkipBlanks(buf, colon.pos + 1, end, true);
      if !start.At? then Fail(start)
      else Done(start.pos, Span(i, colon.pos - i))
  }

  /** One header field; a line that starts with a blank continues the field before it. */
  function Field(buf: seq<byte>, i: nat, end: nat, first: bool): (r: Parsed<Header>)
    requires i < end <= |buf|
    ensures r.Done? ==> i < r.pos <= end
  {
    if !first && (Byte(buf, end, i) == SP || Byte(buf, end, i) == HT) then
      var v := Value(buf, i, end);
      if v.Done? then Done(v.pos, Header(false, Span(0, 0), v.value)) else if v.Partial? then Partial else Invalid
    else
      var n := Name(buf, i, end);
      if !n.Done? then (if n.Partial? then Partial else Invalid)
      else
        var v := Value(buf, n.pos, end);
        if v.Done? then Done(v.pos, Header(true, n.value, v.value)) else if v.Partial? then Partial else Invalid
  }

  /** Header fields up to and including the blank line. */
  function Headers(buf: seq<byte>, i: nat, end: nat, max: nat, sofar: seq<Header>): (r: Parsed<seq<Header>>)
    requires i <= end <= |buf|
    ensures r.Done? ==> i < r.pos <= end
    decreases end - i
  {
    if i == end then Partial
    else if Byte(buf, end, i) == CR || Byte(buf, end, i) == LF then
      var brk := LineBreak(buf, i, end);
      if brk.At? then Done(brk.pos, sofar) else Fail(brk)
    else if |sofar| == max then Invalid
    else
      var f := Field(buf, i, end, sofar == []);
      if f.Done? then Headers(buf, f.pos, end, max, sofar + [f.value])
      else if f.Partial? then Partial
      else Invalid
  }

  const HTTP: seq<byte> := ['H' as byte, 'T' as byte, 'T' as byte, 'P' as byte, '/' as byte, '1' as byte, '.' as byte]

  /** The version: nothing is looked at before nine bytes are there. */
  function Version(buf: seq<byte>, i: nat, end: nat): (r: Parsed<nat>)
    requires i <= end <= |buf|
    ensures r.Done? ==> r.pos == i + 8 < end
  {
    if end - i < 9 then Partial
    else if buf[i..i + 7] != HTTP then Invalid
    else if '0' as byte <= Byte(buf, end, i + 7) <= '9' as byte then
      Done(i + 8, Byte(buf, end, i + 7) as nat - '0' as nat)
    else Invalid
  }

  datatype Request = Request(verb: Span, target: Span, minorVersion: nat, headers: seq<Header>)

  /** Method and request target, each followed by spaces: where the version starts. */
  function Words(buf: seq<byte>, i: nat, end: nat): (r: Parsed<(Span, Span)>)
    requires i <= end <= |buf|
    ensures r.Done? ==> i < r.pos < end
  {
    var m := Token(buf, i, end, SP);
    if !m.At? then Fail(m)
    else
      var t := SkipBlanks(buf, m.pos + 1, end, false);
      if !t.At? then Fail(t)
      else
        var u := Target(buf, t.pos, end);
        if !u.At? then Fail(u)
        else
          var v := SkipBlanks(buf, u.pos + 1, end, false);
          if !v.At? then Fail(v)
          else if m.pos == i || u.pos == t.pos then Invalid
          else Done(v.pos, (Span(i, m.pos - i), Span(t.pos, u.pos - t.pos)))
  }

  /** The request line: method, target and version, and its line break. */
  function RequestLine(buf: seq<byte>, i: nat, end: nat): (r: Parsed<Request>)
    requires i <= end <= |buf|
    ensures r.Done? ==> i + 8 < r.pos <= end
  {
    var w := Words(buf, i, end);
    if !w.Done? then (if w.Partial? then Partial else Invalid)
    else
      var minor := Version(buf, w.pos, end);
      if !minor.Done? then (if minor.Partial? then Partial else Invalid)
      else
        var brk := LineBreak(buf, minor.pos, end);
        if !brk.At? then Fail(brk)
        else Done(brk.pos, Request(w.value.0, w.value.1, minor.value, []))
  }

  /** A line break some clients send before the request line. */
  function LeadingBreak(buf: seq<byte>, end: nat): Scan
    requires end <= |buf|
  {
    if end == 0 then More
    else if Byte(buf, end, 0) == CR || Byte(buf, end, 0) == LF then LineBreak(buf, 0, end)
    else At(0)
  }

  /** A whole request: the spans of its parts and the length of its head. */
  function ParseRequest(buf: seq<byte>, end: nat, max: nat): (r: Parsed<Request>)
    requires end <= |buf|
    ensures r.Done? ==> 0 < r.pos <= end
  {
    var start := LeadingBreak(buf, end);
    if !start.At? then Fail(start)
    else
      var line := RequestLine(buf, start.pos, end);
      if !line.Done? then line
      else
        var h := Headers(buf, line.pos, end, max, []);
        if h.Done? then Done(h.pos, line.value.(headers := h.value)) else if h.Partial? then Partial else Invalid
  }

  /** The quick check for a blank line, resumed at `i` after `breaks` line breaks in a row. */
  function BlankLine(buf: seq<byte>, i: nat, end: nat, breaks: nat): (r: Scan)
    requires i <= end <= |buf| && breaks < 2
    decreases end - i
  {
    if i == end then More
    else if Byte(buf, end, i) != CR && Byte(buf, end, i) != LF then BlankLine(buf, i + 1, end, 0)
    else
      var brk := LineBreak(buf, i, end);
      if !brk.At? then brk
      else if breaks == 1 then brk
      else BlankLine(buf, brk.pos, end, 1)
  }

  /** `phr_parse_request` on the first `end` bytes when `last` of them had been tried before. */
  function Attempt(buf: seq<byte>, last: nat, end: nat, max: nat): Parsed<Request>
    requires last <= end <= |buf|
  {
    if last != 0 && !BlankLine(buf, if last < 3 then 0 else last - 3, end, 0).At? then
      Fail(BlankLine(buf, if last < 3 then 0 else last - 3, end, 0))
    else ParseRequest(buf, end, max)
  }
}
