/** `phr_parse_request` and what it calls, with both forms of its fast scans. */
module HttpParser {
  import opened Bytes
  import opened HttpGrammar

  /** Byte ranges, as the vector instruction takes them. */
  type Ranges = seq<(byte, byte)>

  predicate InRanges(c: byte, ranges: Ranges) {
    exists r :: 0 <= r < |ranges| && ranges[r].0 <= c <= ranges[r].1
  }

  const TOKEN_RANGES: Ranges :=
    [(0, 32), (0x22, 0x22), (0x28, 0x29), (0x2c, 0x2c), (0x2f, 0x2f), (0x3a, 0x40), (0x5b, 0x5d), (0x7b, 0xff)]
  const TARGET_RANGES: Ranges := [(0, 32), (0x7f, 0x7f)]
  const EOL_RANGES: Ranges := [(0, 8), (10, 31), (0x7f, 0x7f)]

  /** Outside the eight ranges there are only token characters; `|` and `~` are left to the slow loop. */
  lemma TokenRangesCover(c: byte)
    ensures !InRanges(c, TOKEN_RANGES) ==> TokenChar(c) && c != SP && c != COLON
  {
    assert forall r :: 0 <= r < 8 ==> TOKEN_RANGES[r].0 <= c <= TOKEN_RANGES[r].1 ==> InRanges(c, TOKEN_RANGES);
    assert TOKEN_RANGES[0] == (0, 32) && TOKEN_RANGES[1] == (0x22, 0x22) && TOKEN_RANGES[2] == (0x28, 0x29);
    assert TOKEN_RANGES[3] == (0x2c, 0x2c) && TOKEN_RANGES[4] == (0x2f, 0x2f) && TOKEN_RANGES[5] == (0x3a, 0x40);
    assert TOKEN_RANGES[6] == (0x5b, 0x5d) && TOKEN_RANGES[7] == (0x7b, 0xff);
  }

  lemma TargetRangesCover(c: byte)
    ensures InRanges(c, TARGET_RANGES) <==> c <= SP || c == DEL
  {
    assert TARGET_RANGES[0] == (0, 32) && TARGET_RANGES[1] == (0x7f, 0x7f);
  }

  lemma EolRangesCover(c: byte)
    ensures InRanges(c, EOL_RANGES) <==> Ctl(c)
  {
    assert EOL_RANGES[0] == (0, 8) && EOL_RANGES[1] == (10, 31) && EOL_RANGES[2] == (0x7f, 0x7f);
  }

  /** The vector comparison: the index of the first of sixteen bytes that lies in a range, or sixteen. */
  method FirstInBlock(block: seq<byte>, ranges: Ranges) returns (r: nat)
    requires |block| == 16
    ensures r <= 16 && (r < 16 ==> InRanges(block[r], ranges))
    ensures forall k :: 0 <= k < r ==> !InRanges(block[k], ranges)
  {
    r := 0;
    while r < 16 && !InRanges(block[r], ranges)
      invariant r <= 16 && forall k :: 0 <= k < r ==> !InRanges(block[k], ranges)
    {
      r := r + 1;
    }
  }

  /** `findchar_fast`: skips whole blocks of sixteen, or nothing when built without the instruction. */
  method FindCharFast(buf: seq<byte>, i: nat, end: nat, ranges: Ranges, sse: bool) returns (j: nat, found: bool)
    requires i <= end <= |buf|
    ensures i <= j <= end && (found ==> j < end && InRanges(buf[j], ranges))
    ensures forall k :: i <= k < j ==> !InRanges(buf[k], ranges)
  {
    j, found := i, false;
    if sse && end - i >= 16 {
      var left := (end - i) - (end - i) % 16;
      while left != 0
        invariant 0 <= left && left % 16 == 0 && i <= j && j + left <= end
        invariant forall k :: i <= k < j ==> !InRanges(buf[k], ranges)
        decreases left
      {
        var r := FirstInBlock(buf[j..j + 16], ranges);
        assert forall k :: j <= k < j + r ==> buf[k] == buf[j..j + 16][k - j];
        if r != 16 {
          return j + r, true;
        }
        j := j + 16;
        left := left - 16;
      }
    }
  }

  lemma {:induction false} TokenSkip(buf: seq<byte>, i: nat, j: nat, end: nat, next: byte)
    requires i <= j <= end <= |buf| && forall k :: i <= k < j ==> TokenChar(buf[k]) && buf[k] != next
    ensures Token(buf, i, end, next) == Token(buf, j, end, next)
    decreases j - i
  {
    if i < j {
      TokenSkip(buf, i + 1, j, end, next);
    }
  }

  lemma {:induction false} TargetSkip(buf: seq<byte>, i: nat, j: nat, end: nat)
    requires i <= j <= end <= |buf| && forall k :: i <= k < j ==> buf[k] > SP && buf[k] != DEL
    ensures Target(buf, i, end) == Target(buf, j, end)
    decreases j - i
  {
    if i < j {
      TargetSkip(buf, i + 1, j, end);
    }
  }

  lemma {:induction false} CtlSkip(buf: seq<byte>, i: nat, j: nat, end: nat)
    requires i <= j <= end <= |buf| && forall k :: i <= k < j ==> !Ctl(buf[k])
    ensures FindCtl(buf, i, end) == FindCtl(buf, j, end)
    decreases j - i
  {
    if i < j {
      CtlSkip(buf, i + 1, j, end);
    }
  }

  /** `parse_token`. */
  method ParseToken(buf: seq<byte>, i: nat, end: nat, next: byte, sse: bool) returns (r: Scan)
    requires i <= end <= |buf| && (next == SP || next == COLON)
    ensures r == Token(buf, i, end, next)
  {
    var j, found := FindCharFast(buf, i, end, TOKEN_RANGES, sse);
    forall k | i <= k < j
      ensures TokenChar(buf[k]) && buf[k] != next
    {
      TokenRangesCover(buf[k]);
    }
    TokenSkip(buf, i, j, end, next);
    if !found && j == end {
      return More;
    }
    while true
      invariant i <= j < end && Token(buf, j, end, next) == Token(buf, i, end, next)
      decreases end - j
    {
      if buf[j] == next {
        return At(j);
      } else if !TokenChar(buf[j]) {
        return Bad;
      }
      j := j + 1;
      if j == end {
        return More;
      }
    }
  }

  /** `ADVANCE_TOKEN`. */
  method AdvanceToken(buf: seq<byte>, i: nat, end: nat, sse: bool) returns (r: Scan)
    requires i <= end <= |buf|
    ensures r == Target(buf, i, end)
  {
    var j, found := FindCharFast(buf, i, end, TARGET_RANGES, sse);
    forall k | i <= k < j
      ensures buf[k] > SP && buf[k] != DEL
    {
      TargetRangesCover(buf[k]);
    }
    TargetSkip(buf, i, j, end);
    if !found && j == end {
      return More;
    }
    while true
      invariant i <= j < end && Target(buf, j, end) == Target(buf, i, end)
      decreases end - j
    {
      if buf[j] == SP {
        return At(j);
      } else if !Printable(buf[j]) {
        if buf[j] < SP || buf[j] == DEL {
          return Bad;
        }
      }
      j := j + 1;
      if j == end {
        return More;
      }
    }
  }

  /** The scan of `get_token_to_eol` built without the vector instruction: eight bytes a round. */
  method FindCtlUnrolled(buf: seq<byte>, i: nat, end: nat) returns (r: Scan)
    requires i <= end <= |buf|
    ensures r == FindCtl(buf, i, end)
  {
    var j := i;
    while end - j >= 8
      invariant i <= j <= end && FindCtl(buf, j, end) == FindCtl(buf, i, end)
      decreases end - j
    {
      var round := j;
      while j < round + 8 && Printable(buf[j])
        invariant round <= j <= round + 8 && FindCtl(buf, j, end) == FindCtl(buf, i, end)
      {
        j := j + 1;
      }
      if j < round + 8 {
        if (buf[j] < SP && buf[j] != HT) || buf[j] == DEL {
          return At(j);
        }
        j := j + 1;
      }
    }
    r := FindCtlSlowly(buf, j, end);
  }

  /** The byte-at-a-time scan both builds end with. */
  method FindCtlSlowly(buf: seq<byte>, i: nat, end: nat) returns (r: Scan)
    requires i <= end <= |buf|
    ensures r == FindCtl(buf, i, end)
  {
    var j := i;
    while true
      invariant i <= j <= end && FindCtl(buf, j, end) == FindCtl(buf, i, end)
      decreases end - j
    {
      if j == end {
        return More;
      }
      if !Printable(buf[j]) {
        if (buf[j] < SP && buf[j] != HT) || buf[j] == DEL {
          return At(j);
        }
      }
      j := j + 1;
    }
  }

  /** The scan of `get_token_to_eol` built with it. */
  method FindCtlBlocks(buf: seq<byte>, i: nat, end: nat) returns (r: Scan)
    requires i <= end <= |buf|
    ensures r == FindCtl(buf, i, end)
  {
    var j, found := FindCharFast(buf, i, end, EOL_RANGES, true);
    forall k | i <= k < j
      ensures !Ctl(buf[k])
    {
      EolRangesCover(buf[k]);
    }
    CtlSkip(buf, i, j, end);
    if found {
      EolRangesCover(buf[j]);
      return At(j);
    }
    r := FindCtlSlowly(buf, j, end);
  }

  method ParseLineBreak(buf: seq<byte>, i: nat, end: nat) returns (r: Scan)
    requires i < end <= |buf|
    ensures r == LineBreak(buf, i, end)
  {
    if buf[i] == CR {
      if i + 1 == end {
        return More;
      }
      return if buf[i + 1] == LF then At(i + 2) else Bad;
    } else if buf[i] == LF {
      return At(i + 1);
    }
    return Bad;
  }

  /** `get_token_to_eol`, and the trimming `parse_headers` does on its result. */
  method ParseValue(buf: seq<byte>, i: nat, end: nat, sse: bool) returns (r: Parsed<Span>)
    requires i <= end <= |buf|
    ensures r == Value(buf, i, end)
  {
    var ctl;
    if sse {
      ctl := FindCtlBlocks(buf, i, end);
    } else {
      ctl := FindCtlUnrolled(buf, i, end);
    }
    if !ctl.At? {
      return Partial;
    }
    var brk := ParseLineBreak(buf, ctl.pos, end);
    if !brk.At? {
      return Fail(brk);
    }
    var to := ctl.pos;
    while to != i && (buf[to - 1] == SP || buf[to - 1] == HT)
      invariant i <= to <= ctl.pos && TrimEnd(buf, i, to) == TrimEnd(buf, i, ctl.pos)
    {
      to := to - 1;
    }
    return Done(brk.pos, Span(i, to - i));
  }

  method ParseBlanks(buf: seq<byte>, i: nat, end: nat, tabs: bool) returns (r: Scan)
    requires i <= end <= |buf|
    ensures r == SkipBlanks(buf, i, end, tabs)
  {
    var j := i;
    while true
      invariant i <= j <= end && SkipBlanks(buf, j, end, tabs) == SkipBlanks(buf, i, end, tabs)
      decreases end - j
    {
      if j == end {
        return More;
      }
      if !(buf[j] == SP || (tabs && buf[j] == HT)) {
        return At(j);
      }
      j := j + 1;
    }
  }

  method ParseName(buf: seq<byte>, i: nat, end: nat, sse: bool) returns (r: Parsed<Span>)
    requires i <= end <= |buf|
    ensures r == Name(buf, i, end)
  {
    var colon := ParseToken(buf, i, end, COLON, sse);
    if !colon.At? {
      return Fail(colon);
    }
    if colon.pos == i {
      return Invalid;
    }
    var start := ParseBlanks(buf, colon.pos + 1, end, true);
    if !start.At? {
      return Fail(start);
    }
    return Done(start.pos, Span(i, colon.pos - i));
  }

  method ParseField(buf: seq<byte>, i: nat, end: nat, first: bool, sse: bool) returns (r: Parsed<Header>)
    requires i < end <= |buf|
    ensures r == Field(buf, i, end, first)
  {
    var named := first || !(buf[i] == SP || buf[i] == HT);
    var at, name := i, Span(0, 0);
    if named {
      var n := ParseName(buf, i, end, sse);
      if !n.Done? {
        return if n.Partial? then Partial else Invalid;
      }
      at, name := n.pos, n.value;
    }
    var v := ParseValue(buf, at, end, sse);
    if !v.Done? {
      return if v.Partial? then Partial else Invalid;
    }
    return Done(v.pos, Header(named, name, v.value));
  }

  /** `parse_headers`. */
  method ParseHeaders(buf: seq<byte>, i: nat, end: nat, max: nat, sse: bool) returns (r: Parsed<seq<Header>>)
    requires i <= end <= |buf|
    ensures r == Headers(buf, i, end, max, [])
  {
    hide Field, LineBreak;
    var j, headers := i, [];
    while true
      invariant i <= j <= end && Headers(buf, j, end, max, headers) == Headers(buf, i, end, max, [])
      decreases end - j
    {
      if j == end {
        return Partial;
      }
      if buf[j] == CR || buf[j] == LF {
        var brk := ParseLineBreak(buf, j, end);
        return if brk.At? then Done(brk.pos, headers) else Fail(brk);
      }
      if |headers| == max {
        return Invalid;
      }
      var f := ParseField(buf, j, end, headers == [], sse);
      if !f.Done? {
        return if f.Partial? then Partial else Invalid;
      }
      j, headers := f.pos, headers + [f.value];
    }
  }

  /** `parse_http_version`. */
  method ParseVersion(buf: seq<byte>, i: nat, end: nat) returns (r: Parsed<nat>)
    requires i <= end <= |buf|
    ensures r == Version(buf, i, end)
  {
    if end - i < 9 {
      return Partial;
    }
    var k := 0;
    while k < 7
      invariant 0 <= k <= 7 && forall m :: 0 <= m < k ==> buf[i..i + 7][m] == HTTP[m]
    {
      if buf[i + k] != HTTP[k] {
        assert buf[i..i + 7][k] != HTTP[k];
        return Invalid;
      }
      k := k + 1;
    }
    if buf[i + 7] < '0' as byte || '9' as byte < buf[i + 7] {
      return Invalid;
    }
    return Done(i + 8, buf[i + 7] as nat - '0' as nat);
  }

  method ParseWords(buf: seq<byte>, i: nat, end: nat, sse: bool) returns (r: Parsed<(Span, Span)>)
    requires i <= end <= |buf|
    ensures r == Words(buf, i, end)
  {
    hide Token, Target, SkipBlanks;
    var m := ParseToken(buf, i, end, SP, sse);
    if !m.At? {
      return Fail(m);
    }
    var t := ParseBlanks(buf, m.pos + 1, end, false);
    if !t.At? {
      return Fail(t);
    }
    var u := AdvanceToken(buf, t.pos, end, sse);
    if !u.At? {
      return Fail(u);
    }
    var v := ParseBlanks(buf, u.pos + 1, end, false);
    if !v.At? {
      return Fail(v);
    }
    if m.pos == i || u.pos == t.pos {
      return Invalid;
    }
    return Done(v.pos, (Span(i, m.pos - i), Span(t.pos, u.pos - t.pos)));
  }

  /** `parse_request`. */
  method ParseWhole(buf: seq<byte>, end: nat, max: nat, sse: bool) returns (r: Parsed<Request>)
    requires end <= |buf|
    ensures r == ParseRequest(buf, end, max)
  {
    hide Words, Version, Headers, LineBreak;
    if end == 0 {
      return Partial;
    }
    var start := At(0);
    if buf[0] == CR || buf[0] == LF {
      start := ParseLineBreak(buf, 0, end);
      if !start.At? {
        return Fail(start);
      }
    }
    var w := ParseWords(buf, start.pos, end, sse);
    if !w.Done? {
      return if w.Partial? then Partial else Invalid;
    }
    var minor := ParseVersion(buf, w.pos, end);
    if !minor.Done? {
      return if minor.Partial? then Partial else Invalid;
    }
    var brk := ParseLineBreak(buf, minor.pos, end);
    if !brk.At? {
      return Fail(brk);
    }
    var h := ParseHeaders(buf, brk.pos, end, max, sse);
    if !h.Done? {
      return if h.Partial? then Partial else Invalid;
    }
    return Done(h.pos, Request(w.value.0, w.value.1, minor.value, h.value));
  }

  /** `is_complete`. */
  method IsComplete(buf: seq<byte>, end: nat, last: nat) returns (r: Scan)
    requires last <= end <= |buf|
    ensures r == BlankLine(buf, if last < 3 then 0 else last - 3, end, 0)
  {
    hide LineBreak;
    var i, breaks := if last < 3 then 0 else last - 3, 0;
    while true
      invariant i <= end && breaks < 2
      invariant BlankLine(buf, i, end, breaks) == BlankLine(buf, if last < 3 then 0 else last - 3, end, 0)
      decreases end - i
    {
      if i == end {
        return More;
      }
      if buf[i] == CR || buf[i] == LF {
        var brk := ParseLineBreak(buf, i, end);
        if !brk.At? {
          return brk;
        }
        i, breaks := brk.pos, breaks + 1;
      } else {
        i, breaks := i + 1, 0;
      }
      if breaks == 2 {
        return At(i);
      }
    }
  }

  /** `phr_parse_request`. */
  method PhrParseRequest(buf: seq<byte>, end: nat, max: nat, last: nat, sse: bool) returns (r: Parsed<Request>)
    requires last <= end <= |buf|
    ensures r == Attempt(buf, last, end, max)
  {
    if last != 0 {
      var complete := IsComplete(buf, end, last);
      if !complete.At? {
        return Fail(complete);
      }
    }
    r := ParseWhole(buf, end, max, sse);
  }
}
