/** The read loop of `buildRequest`, over a socket that delivers a byte stream in pieces of any size. */
module RequestReader {
  import opened Bytes
  import opened HttpGrammar
  import opened HttpSegments
  import HttpSpelling
  import opened HttpParser

  const MAX_REQUEST_SIZE: nat := 4096
  const MAX_HEADERS: nat := 100

  /** Two buffers hold the same bytes below `end`. */
  ghost predicate Same(a: seq<byte>, b: seq<byte>, end: nat) {
    end <= |a| && end <= |b| && forall k :: 0 <= k < end ==> a[k] == b[k]
  }

  lemma {:induction false} TokenSame(a: seq<byte>, b: seq<byte>, i: nat, end: nat, next: byte)
    requires Same(a, b, end) && i <= end
    ensures Token(a, i, end, next) == Token(b, i, end, next)
    decreases end - i
  {
    if i < end {
      TokenSame(a, b, i + 1, end, next);
    }
  }

  lemma {:induction false} TargetSame(a: seq<byte>, b: seq<byte>, i: nat, end: nat)
    requires Same(a, b, end) && i <= end
    ensures Target(a, i, end) == Target(b, i, end)
    decreases end - i
  {
    if i < end {
      TargetSame(a, b, i + 1, end);
    }
  }

  lemma {:induction false} SkipBlanksSame(a: seq<byte>, b: seq<byte>, i: nat, end: nat, tabs: bool)
    requires Same(a, b, end) && i <= end
    ensures SkipBlanks(a, i, end, tabs) == SkipBlanks(b, i, end, tabs)
    decreases end - i
  {
    if i < end {
      SkipBlanksSame(a, b, i + 1, end, tabs);
    }
  }

  lemma {:induction false} FindCtlSame(a: seq<byte>, b: seq<byte>, i: nat, end: nat)
    requires Same(a, b, end) && i <= end
    ensures FindCtl(a, i, end) == FindCtl(b, i, end)
    decreases end - i
  {
    if i < end {
      FindCtlSame(a, b, i + 1, end);
    }
  }

  lemma {:induction false} TrimEndSame(a: seq<byte>, b: seq<byte>, from: nat, last: nat, end: nat)
    requires Same(a, b, end) && from <= last <= end
    ensures TrimEnd(a, from, last) == TrimEnd(b, from, last)
    decreases last
  {
    if from < last {
      TrimEndSame(a, b, from, last - 1, end);
    }
  }

  lemma ValueSame(a: seq<byte>, b: seq<byte>, i: nat, end: nat)
    requires Same(a, b, end) && i <= end
    ensures Value(a, i, end) == Value(b, i, end)
  {
    FindCtlSame(a, b, i, end);
    var ctl := FindCtl(a, i, end);
    if ctl.At? {
      TrimEndSame(a, b, i, ctl.pos, end);
    }
  }

  lemma FieldSame(a: seq<byte>, b: seq<byte>, i: nat, end: nat, first: bool)
    requires Same(a, b, end) && i < end
    ensures Field(a, i, end, first) == Field(b, i, end, first)
  {
    hide Token, SkipBlanks, Value;
    ValueSame(a, b, i, end);
    TokenSame(a, b, i, end, COLON);
    var colon := Token(a, i, end, COLON);
    if colon.At? {
      SkipBlanksSame(a, b, colon.pos + 1, end, true);
      var start := SkipBlanks(a, colon.pos + 1, end, true);
      if start.At? {
        ValueSame(a, b, start.pos, end);
      }
    }
  }

  lemma {:induction false} HeadersSame(a: seq<byte>, b: seq<byte>, i: nat, end: nat, max: nat, sofar: seq<Header>)
    requires Same(a, b, end) && i <= end
    ensures Headers(a, i, end, max, sofar) == Headers(b, i, end, max, sofar)
    decreases end - i
  {
    hide Field;
    if i < end {
      FieldSame(a, b, i, end, sofar == []);
      var f := Field(a, i, end, sofar == []);
      if f.Done? {
        HeadersSame(a, b, f.pos, end, max, sofar + [f.value]);
      }
    }
  }

  lemma WordsSame(a: seq<byte>, b: seq<byte>, i: nat, end: nat)
    requires Same(a, b, end) && i <= end
    ensures Words(a, i, end) == Words(b, i, end)
  {
    hide Token, SkipBlanks, Target;
    TokenSame(a, b, i, end, SP);
    var m := Token(a, i, end, SP);
    if m.At? {
      SkipBlanksSame(a, b, m.pos + 1, end, false);
      var t := SkipBlanks(a, m.pos + 1, end, false);
      if t.At? {
        TargetSame(a, b, t.pos, end);
        var u := Target(a, t.pos, end);
        if u.At? {
          SkipBlanksSame(a, b, u.pos + 1, end, false);
        }
      }
    }
  }

  lemma RequestLineSame(a: seq<byte>, b: seq<byte>, i: nat, end: nat)
    requires Same(a, b, end) && i <= end
    ensures RequestLine(a, i, end) == RequestLine(b, i, end)
  {
    hide Words;
    WordsSame(a, b, i, end);
    var w := Words(a, i, end);
    if w.Done? && end - w.pos >= 9 {
      assert a[w.pos..w.pos + 7] == b[w.pos..w.pos + 7];
    }
  }

  lemma {:induction false} BlankLineSame(a: seq<byte>, b: seq<byte>, i: nat, end: nat, breaks: nat)
    requires Same(a, b, end) && i <= end && breaks < 2
    ensures BlankLine(a, i, end, breaks) == BlankLine(b, i, end, breaks)
    decreases end - i
  {
    if i < end {
      BlankLineSame(a, b, i + 1, end, 0);
      var brk := LineBreak(a, i, end);
      if brk.At? && breaks == 0 {
        BlankLineSame(a, b, brk.pos, end, 1);
      }
    }
  }

  /** An attempt depends only on the bytes received so far. */
  lemma AttemptSame(a: seq<byte>, b: seq<byte>, last: nat, end: nat, max: nat)
    requires Same(a, b, end) && last <= end
    ensures Attempt(a, last, end, max) == Attempt(b, last, end, max)
  {
    hide BlankLine, RequestLine, Headers;
    BlankLineSame(a, b, if last < 3 then 0 else last - 3, end, 0);
    var start := LeadingBreak(a, end);
    if start.At? {
      RequestLineSame(a, b, start.pos, end);
      var line := RequestLine(a, start.pos, end);
      if line.Done? {
        HeadersSame(a, b, line.pos, end, max, []);
      }
    }
  }

  /** How the loop ends. */
  datatype Outcome = Got(headLength: nat, request: Request) | ReadFailed | ParseError | TooLong

  class Reader {
    const rawRequest: array<byte>
    var rawRequestSize: nat

    ghost predicate Valid()
      reads this
    {
      rawRequest.Length == MAX_REQUEST_SIZE && rawRequestSize <= MAX_REQUEST_SIZE
    }

    constructor ()
      ensures Valid() && rawRequestSize == 0 && fresh(rawRequest)
    {
      rawRequest := new byte[MAX_REQUEST_SIZE](_ => 0);
      rawRequestSize := 0;
    }

    /** `read`: appends at most `want` bytes of what is left of the stream, as far as there is room. */
    method Read(stream: seq<byte>, want: nat) returns (n: nat)
      requires Valid() && rawRequestSize <= |stream| && Same(rawRequest[..], stream, rawRequestSize)
      modifies this`rawRequestSize, rawRequest
      ensures Valid() && rawRequestSize == old(rawRequestSize) + n <= |stream|
              && Same(rawRequest[..], stream, rawRequestSize)
      ensures n == 0 ==> want == 0 || old(rawRequestSize) == MAX_REQUEST_SIZE || old(rawRequestSize) == |stream|
    {
      n := want;
      if n > MAX_REQUEST_SIZE - rawRequestSize {
        n := MAX_REQUEST_SIZE - rawRequestSize;
      }
      if n > |stream| - rawRequestSize {
        n := |stream| - rawRequestSize;
      }
      var size := rawRequestSize;
      for k := 0 to n
        invariant Valid() && rawRequestSize == size
        invariant forall j :: 0 <= j < size + k ==> rawRequest[j] == stream[j]
      {
        rawRequest[size + k] := stream[size + k];
      }
      rawRequestSize := size + n;
    }

    /**
     * Reads and parses until a request head is complete. `wants[k]` bounds what the k-th read delivers:
     * a request is got only if the whole stream starts with it, with the same parts; and if the stream
     * does start with a head that fits the buffer, nothing else can come out unless the reads stop.
     */
    method BuildRequest(stream: seq<byte>, wants: seq<nat>, sse: bool) returns (r: Outcome)
      requires Valid() && rawRequestSize == 0
      modifies this`rawRequestSize, rawRequest
      ensures Valid() && rawRequestSize <= |stream| && rawRequest[..rawRequestSize] == stream[..rawRequestSize]
      ensures var whole := ParseRequest(stream, |stream|, MAX_HEADERS);
              && (r.Got? ==> whole == Done(r.headLength, r.request))
              && (whole.Done? && whole.pos <= MAX_REQUEST_SIZE ==> r.Got? || r == ReadFailed)
      ensures r == ReadFailed ==>
                (exists k :: 0 <= k < |wants| && wants[k] == 0) || rawRequestSize == |stream|
                    || |wants| <= rawRequestSize
    {
      hide Attempt, ParseRequest;
      ghost var whole := ParseRequest(stream, |stream|, MAX_HEADERS);
      var k := 0;
      while k < |wants|
        invariant Valid() && k <= |wants| && k <= rawRequestSize <= |stream|
                  && Same(rawRequest[..], stream, rawRequestSize)
        invariant whole.Done? ==> rawRequestSize < whole.pos
        invariant rawRequestSize < MAX_REQUEST_SIZE
      {
        var prevBufferLen := rawRequestSize;
        var readBytes := Read(stream, wants[k]);
        if readBytes == 0 {
          return ReadFailed;
        }
        var parsed := PhrParseRequest(rawRequest[..], rawRequestSize, MAX_HEADERS, prevBufferLen, sse);
        AttemptSame(rawRequest[..], stream, prevBufferLen, rawRequestSize, MAX_HEADERS);
        AttemptSound(stream, prevBufferLen, rawRequestSize, MAX_HEADERS);
        if parsed.Done? {
          return Got(parsed.pos, parsed.value);
        } else if parsed.Invalid? {
          return ParseError;
        }
        if rawRequestSize == MAX_REQUEST_SIZE {
          return TooLong;
        }
        k := k + 1;
      }
      return ReadFailed;
    }
  }

  /** What an attempt says about the whole stream. */
  lemma AttemptSound(stream: seq<byte>, last: nat, end: nat, max: nat)
    requires last < end <= |stream|
    ensures var whole := ParseRequest(stream, |stream|, max);
            var r := Attempt(stream, last, end, max);
            && (r.Done? ==> whole == r)
            && (whole.Done? && last < whole.pos ==> r == if end < whole.pos then Partial else whole)
  {
    hide ParseRequest, BlankLine;
    ParseGrows(stream, end, |stream|, max);
    if ParseRequest(stream, |stream|, max).Done? && last < ParseRequest(stream, |stream|, max).pos {
      AttemptIndependent(stream, last, end, max);
    }
  }

  /**
   * Reads a stream that starts with the written head `h`: whatever the reads deliver, what is got are its
   * parts, unless the reads stop before its end.
   */
  method ReadWritten(ghost h: HttpSpelling.Head, stream: seq<byte>, wants: seq<nat>, sse: bool)
    returns (r: Outcome, received: seq<byte>)
    requires HttpSpelling.LegalHead(h) && |h.lines| <= MAX_HEADERS && |HttpSpelling.HeadText(h)| <= MAX_REQUEST_SIZE
    requires HttpSpelling.Stands(stream, 0, |stream|, HttpSpelling.HeadText(h))
    ensures received <= stream && (r.Got? || r == ReadFailed)
    ensures r.Got? ==> r.headLength == |HttpSpelling.HeadText(h)| && HttpSpelling.HoldsParts(stream, r.request, h)
  {
    hide ParseRequest, HttpSpelling.LegalHead, HttpSpelling.HeadText, HttpSpelling.HoldsParts;
    var reader := new Reader();
    r := reader.BuildRequest(stream, wants, sse);
    received := reader.rawRequest[..reader.rawRequestSize];
    HttpSpelling.WrittenRead(stream, |stream|, MAX_HEADERS, h);
  }
}
