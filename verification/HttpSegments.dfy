/** A request parses the same however the reads that deliver it are cut. */
module HttpSegments {
  import opened Bytes
  import opened HttpGrammar

  /**
   * How a scan changes when `e1` bytes become more: not at all, unless it had run out of input, and
   * then it stops at `e1` or beyond.
   */
  predicate Grows(r1: Scan, r2: Scan, e1: nat) {
    r1 == r2 || (r1 == More && (r2.At? ==> r2.pos >= e1))
  }

  predicate GrowsTo<T(==)>(r1: Parsed<T>, r2: Parsed<T>, e1: nat) {
    r1 == r2 || (r1.Partial? && (r2.Done? ==> r2.pos >= e1))
  }

  /** The same for what ends with a line break: it ends strictly beyond `e1`. */
  predicate GrowsPast<T(==)>(r1: Parsed<T>, r2: Parsed<T>, e1: nat) {
    r1 == r2 || (r1.Partial? && (r2.Done? ==> r2.pos > e1))
  }

  lemma {:induction false} TokenGrows(buf: seq<byte>, i: nat, e1: nat, e2: nat, next: byte)
    requires i <= e1 <= e2 <= |buf|
    ensures Grows(Token(buf, i, e1, next), Token(buf, i, e2, next), e1)
    decreases e1 - i
  {
    if i < e1 {
      TokenGrows(buf, i + 1, e1, e2, next);
    }
  }

  lemma {:induction false} TargetGrows(buf: seq<byte>, i: nat, e1: nat, e2: nat)
    requires i <= e1 <= e2 <= |buf|
    ensures Grows(Target(buf, i, e1), Target(buf, i, e2), e1)
    decreases e1 - i
  {
    if i < e1 {
      TargetGrows(buf, i + 1, e1, e2);
    }
  }

  lemma {:induction false} SkipBlanksGrows(buf: seq<byte>, i: nat, e1: nat, e2: nat, tabs: bool)
    requires i <= e1 <= e2 <= |buf|
    ensures Grows(SkipBlanks(buf, i, e1, tabs), SkipBlanks(buf, i, e2, tabs), e1)
    decreases e1 - i
  {
    if i < e1 {
      SkipBlanksGrows(buf, i + 1, e1, e2, tabs);
    }
  }

  lemma {:induction false} FindCtlGrows(buf: seq<byte>, i: nat, e1: nat, e2: nat)
    requires i <= e1 <= e2 <= |buf|
    ensures Grows(FindCtl(buf, i, e1), FindCtl(buf, i, e2), e1)
    decreases e1 - i
  {
    if i < e1 {
      FindCtlGrows(buf, i + 1, e1, e2);
    }
  }

  lemma LineBreakGrows(buf: seq<byte>, i: nat, e1: nat, e2: nat)
    requires i < e1 <= e2 <= |buf|
    ensures var r1, r2 := LineBreak(buf, i, e1), LineBreak(buf, i, e2);
            r1 == r2 || (r1 == More && (r2.At? ==> r2.pos > e1))
  {
  }

  lemma ValueGrows(buf: seq<byte>, i: nat, e1: nat, e2: nat)
    requires i <= e1 <= e2 <= |buf|
    ensures GrowsPast(Value(buf, i, e1), Value(buf, i, e2), e1)
  {
    FindCtlGrows(buf, i, e1, e2);
    var ctl := FindCtl(buf, i, e1);
    if ctl.At? {
      LineBreakGrows(buf, ctl.pos, e1, e2);
    }
  }

  lemma NameGrows(buf: seq<byte>, i: nat, e1: nat, e2: nat)
    requires i <= e1 <= e2 <= |buf|
    ensures GrowsTo(Name(buf, i, e1), Name(buf, i, e2), e1)
  {
    TokenGrows(buf, i, e1, e2, COLON);
    var colon := Token(buf, i, e1, COLON);
    if colon.At? {
      SkipBlanksGrows(buf, colon.pos + 1, e1, e2, true);
    }
  }

  lemma FieldGrows(buf: seq<byte>, i: nat, e1: nat, e2: nat, first: bool)
    requires i < e1 <= e2 <= |buf|
    ensures GrowsPast(Field(buf, i, e1, first), Field(buf, i, e2, first), e1)
  {
    ValueGrows(buf, i, e1, e2);
    NameGrows(buf, i, e1, e2);
    var n := Name(buf, i, e1);
    if n.Done? {
      ValueGrows(buf, n.pos, e1, e2);
    }
  }

  lemma {:induction false} HeadersGrow(buf: seq<byte>, i: nat, e1: nat, e2: nat, max: nat, sofar: seq<Header>)
    requires i <= e1 <= e2 <= |buf|
    ensures GrowsPast(Headers(buf, i, e1, max, sofar), Headers(buf, i, e2, max, sofar), e1)
    decreases e1 - i
  {
    if i < e1 {
      LineBreakGrows(buf, i, e1, e2);
      FieldGrows(buf, i, e1, e2, sofar == []);
      var f := Field(buf, i, e1, sofar == []);
      if f.Done? {
        HeadersGrow(buf, f.pos, e1, e2, max, sofar + [f.value]);
      }
    }
  }

  lemma VersionGrows(buf: seq<byte>, i: nat, e1: nat, e2: nat)
    requires i <= e1 <= e2 <= |buf|
    ensures GrowsTo(Version(buf, i, e1), Version(buf, i, e2), e1)
  {
  }

  lemma WordsGrow(buf: seq<byte>, i: nat, e1: nat, e2: nat)
    requires i <= e1 <= e2 <= |buf|
    ensures GrowsTo(Words(buf, i, e1), Words(buf, i, e2), e1)
  {
    hide Token, SkipBlanks, Target;
    TokenGrows(buf, i, e1, e2, SP);
    var m := Token(buf, i, e1, SP);
    if m.At? {
      SkipBlanksGrows(buf, m.pos + 1, e1, e2, false);
      var t := SkipBlanks(buf, m.pos + 1, e1, false);
      if t.At? {
        TargetGrows(buf, t.pos, e1, e2);
        var u := Target(buf, t.pos, e1);
        if u.At? {
          SkipBlanksGrows(buf, u.pos + 1, e1, e2, false);
        }
      }
    }
  }

  lemma RequestLineGrows(buf: seq<byte>, i: nat, e1: nat, e2: nat)
    requires i <= e1 <= e2 <= |buf|
    ensures GrowsPast(RequestLine(buf, i, e1), RequestLine(buf, i, e2), e1)
  {
    hide Words, LineBreak;
    WordsGrow(buf, i, e1, e2);
    var w := Words(buf, i, e1);
    if w.Done? {
      VersionGrows(buf, w.pos, e1, e2);
      if Version(buf, w.pos, e1).Done? {
        LineBreakGrows(buf, w.pos + 8, e1, e2);
      }
    }
  }

  /** More input never changes a success or a refusal, and a success never looked beyond its end. */
  lemma ParseGrows(buf: seq<byte>, e1: nat, e2: nat, max: nat)
    requires e1 <= e2 <= |buf|
    ensures GrowsPast(ParseRequest(buf, e1, max), ParseRequest(buf, e2, max), e1)
  {
    if e1 > 0 {
      LineBreakGrows(buf, 0, e1, e2);
    }
    var start := LeadingBreak(buf, e1);
    if start.At? {
      RequestLineGrows(buf, start.pos, e1, e2);
      var line := RequestLine(buf, start.pos, e1);
      if line.Done? {
        HeadersGrow(buf, line.pos, e1, e2, max, []);
      }
    }
  }

  /** In buf[i..j] every CR is followed by an LF. */
  predicate Tidy(buf: seq<byte>, i: nat, j: nat)
    requires i <= j <= |buf|
  {
    forall k :: i <= k < j && buf[k] == CR ==> k + 1 < j && buf[k + 1] == LF
  }

  lemma TidyJoin(buf: seq<byte>, i: nat, j: nat, k: nat)
    requires i <= j <= k <= |buf| && Tidy(buf, i, j) && Tidy(buf, j, k)
    ensures Tidy(buf, i, k)
  {
  }

  lemma BreakTidy(buf: seq<byte>, i: nat, end: nat)
    requires i < end <= |buf|
    ensures var brk := LineBreak(buf, i, end); brk.At? ==> Tidy(buf, i, brk.pos)
  {
  }

  lemma WordsTidy(buf: seq<byte>, i: nat, end: nat)
    requires i <= end <= |buf|
    ensures var w := Words(buf, i, end); w.Done? ==> Tidy(buf, i, w.pos)
  {
    hide Token, SkipBlanks, Target;
  }

  lemma VersionTidy(buf: seq<byte>, i: nat, end: nat)
    requires i <= end <= |buf|
    ensures var v := Version(buf, i, end); v.Done? ==> Tidy(buf, i, v.pos)
  {
    if Version(buf, i, end).Done? {
      forall k | i <= k < i + 8
        ensures buf[k] != CR
      {
        if k < i + 7 {
          assert buf[k] == buf[i..i + 7][k - i] == HTTP[k - i];
        }
      }
    }
  }

  lemma FieldTidy(buf: seq<byte>, i: nat, end: nat, first: bool)
    requires i < end <= |buf|
    ensures var f := Field(buf, i, end, first); f.Done? ==> Tidy(buf, i, f.pos) && buf[f.pos - 1] == LF
  {
    hide Token, SkipBlanks, FindCtl;
  }

  /** Header fields end with a blank line: a line break right after the end of a line. */
  lemma {:induction false} HeadersTidy(buf: seq<byte>, i: nat, end: nat, max: nat, sofar: seq<Header>) returns (q: nat)
    requires 0 < i <= end <= |buf| && buf[i - 1] == LF
    ensures var h := Headers(buf, i, end, max, sofar);
            h.Done? ==> Tidy(buf, i, h.pos) && q + 1 < h.pos && buf[q] == LF && IsBreak(buf, q + 1, h.pos)
    decreases end - i
  {
    hide Field, Tidy;
    q := i - 1;
    if i < end {
      BreakTidy(buf, i, end);
    }
    if i < end && Byte(buf, end, i) != CR && Byte(buf, end, i) != LF && |sofar| != max {
      FieldTidy(buf, i, end, sofar == []);
      var f := Field(buf, i, end, sofar == []);
      if f.Done? {
        q := HeadersTidy(buf, f.pos, end, max, sofar + [f.value]);
        var h := Headers(buf, f.pos, end, max, sofar + [f.value]);
        if h.Done? {
          TidyJoin(buf, i, f.pos, h.pos);
        }
      }
    }
  }

  /** An accepted request head: tidy throughout, and ending with a blank line. */
  lemma RequestTidy(buf: seq<byte>, end: nat, max: nat) returns (q: nat)
    requires end <= |buf|
    ensures var r := ParseRequest(buf, end, max);
            r.Done? ==> Tidy(buf, 0, r.pos) && q + 1 < r.pos && buf[q] == LF && IsBreak(buf, q + 1, r.pos)
  {
    hide Words, Version, Field;
    q := 0;
    var start := LeadingBreak(buf, end);
    if start.At? {
      var line := RequestLine(buf, start.pos, end);
      if line.Done? {
        var w := Words(buf, start.pos, end);
        WordsTidy(buf, start.pos, end);
        VersionTidy(buf, w.pos, end);
        q := HeadersTidy(buf, line.pos, end, max, []);
      }
    }
  }

  /** In a tidy stretch the quick check is never refused. */
  lemma {:induction false} NoRefusal(buf: seq<byte>, i: nat, end: nat, breaks: nat, n: nat)
    requires i <= end <= n <= |buf| && breaks < 2 && Tidy(buf, 0, n)
    ensures BlankLine(buf, i, end, breaks) != Bad
    decreases end - i
  {
    if i < end {
      if Byte(buf, end, i) != CR && Byte(buf, end, i) != LF {
        NoRefusal(buf, i + 1, end, 0, n);
      } else {
        var brk := LineBreak(buf, i, end);
        if brk.At? && breaks == 0 {
          NoRefusal(buf, brk.pos, end, 1, n);
        }
      }
    }
  }

  /** Started anywhere up to the LF that ends the last line, the quick check finds the blank line. */
  lemma {:induction false} BlankLineFound(buf: seq<byte>, i: nat, end: nat, breaks: nat, q: nat, n: nat)
    requires n <= end <= |buf| && breaks < 2 && Tidy(buf, 0, n)
    requires q + 1 < n && buf[q] == LF && IsBreak(buf, q + 1, n)
    requires i <= q || (i == q + 1 && breaks == 1)
    ensures BlankLine(buf, i, end, breaks).At?
    decreases n - i
  {
    if Byte(buf, end, i) != CR && Byte(buf, end, i) != LF {
      BlankLineFound(buf, i + 1, end, 0, q, n);
    } else if breaks == 0 {
      BlankLineFound(buf, LineBreak(buf, i, end).pos, end, 1, q, n);
    }
  }

  /**
   * Segmentation independence of request parsing. If the whole of `stream` parses at once with a head
   * of `n` bytes, then an attempt on any shorter part of it asks for more, and the first attempt that
   * covers `n` bytes gives the same parts, whatever lengths were tried before.
   */
  lemma AttemptIndependent(stream: seq<byte>, last: nat, end: nat, max: nat)
    requires last < end <= |stream| && ParseRequest(stream, |stream|, max).Done?
    requires last < ParseRequest(stream, |stream|, max).pos
    ensures var whole := ParseRequest(stream, |stream|, max);
            Attempt(stream, last, end, max) == if end < whole.pos then Partial else whole
  {
    hide ParseRequest, BlankLine, Tidy;
    var whole := ParseRequest(stream, |stream|, max);
    ParseGrows(stream, end, |stream|, max);
    var q := RequestTidy(stream, |stream|, max);
    var from := if last < 3 then 0 else last - 3;
    if end < whole.pos {
      NoRefusal(stream, from, end, 0, whole.pos);
    } else {
      BlankLineFound(stream, from, end, 0, q, whole.pos);
    }
  }

  /** The attempts of the read loop: `sizes[k]` bytes are there at attempt k. */
  function Attempts(stream: seq<byte>, last: nat, sizes: seq<nat>, max: nat): (r: Parsed<Request>)
    requires forall k :: 0 <= k < |sizes| ==> sizes[k] <= |stream|
    requires forall j, k :: 0 <= j < k < |sizes| ==> sizes[j] < sizes[k]
    requires sizes != [] ==> last < sizes[0]
    decreases |sizes|
  {
    if sizes == [] then Partial
    else
      var r := Attempt(stream, last, sizes[0], max);
      if r.Partial? then Attempts(stream, sizes[0], sizes[1..], max) else r
  }

  /**
   * However a stream is read, its request is found by the first attempt that covers it, as a one-shot
   * parse finds it.
   */
  lemma {:induction false} ReadsIndependent(stream: seq<byte>, last: nat, sizes: seq<nat>, max: nat)
    requires forall k :: 0 <= k < |sizes| ==> sizes[k] <= |stream|
    requires forall j, k :: 0 <= j < k < |sizes| ==> sizes[j] < sizes[k]
    requires sizes != [] ==> last < sizes[0]
    decreases |sizes|
    ensures var whole := ParseRequest(stream, |stream|, max);
            whole.Done? && last < whole.pos ==>
              Attempts(stream, last, sizes, max)
              == if exists k :: 0 <= k < |sizes| && sizes[k] >= whole.pos then whole else Partial
  {
    hide Attempt, ParseRequest;
    var whole := ParseRequest(stream, |stream|, max);
    if sizes != [] && whole.Done? && last < whole.pos {
      AttemptIndependent(stream, last, sizes[0], max);
      if sizes[0] < whole.pos {
        ReadsIndependent(stream, sizes[0], sizes[1..], max);
        assert forall k :: 1 <= k < |sizes| ==> sizes[k] == sizes[1..][k - 1];
      }
    }
  }
}
