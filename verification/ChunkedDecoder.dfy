/** `phr_decode_chunked`: the resumable decoder that rewrites its buffer in place. */
module ChunkedDecoder {
  import opened Bytes
  import opened ChunkedSpec

  /** memmove within one buffer, towards its front. */
  method MoveDown(buf: array<byte>, dst: nat, src: nat, n: nat)
    requires dst <= src && src + n <= buf.Length
    modifies buf
    ensures forall k :: 0 <= k < buf.Length ==>
              buf[k] == if dst <= k < dst + n then old(buf[src + (k - dst)]) else old(buf[k])
  {
    for i := 0 to n
      invariant forall k :: 0 <= k < buf.Length ==>
                  buf[k] == if dst <= k < dst + i then old(buf[src + (k - dst)]) else old(buf[k])
    {
      buf[dst + i] := buf[src + i];
    }
  }

  /** The same, skipped when nothing would move. */
  method MoveData(buf: array<byte>, dst: nat, src: nat, n: nat)
    requires dst <= src && src + n <= buf.Length
    modifies buf
    ensures forall k :: 0 <= k < dst || src + n <= k < buf.Length ==> buf[k] == old(buf[k])
    ensures forall k :: dst <= k < dst + n ==> buf[k] == old(buf[src + (k - dst)])
  {
    if dst != src {
      MoveDown(buf, dst, src, n);
    }
  }

  /** How a stretch of the loop ends: with the end of the input, with a verdict, or still going. */
  datatype Flow = Going | OutOfInput | Failed | Finished

  class Decoder {
    var phase: Phase
    var hexCount: nat
    var left: SizeT
    const consumeTrailer: bool

    constructor (consumeTrailer: bool)
      ensures Fields() == Initial(consumeTrailer)
    {
      this.consumeTrailer := consumeTrailer;
      phase, hexCount, left := InSize, 0, 0;
    }

    ghost function Fields(): State
      reads this
    {
      State(phase, hexCount, left, consumeTrailer)
    }

    /** The result of a run that has taken `n` bytes, decoded `out`, and stands at `flow` before `rest`. */
    ghost function Ran(flow: Flow, out: seq<byte>, n: nat, rest: seq<byte>): Result
      reads this
      requires flow in {Going, OutOfInput} ==> Sized(Fields())
    {
      match flow
      case Going => Shift(out, n, Run(Fields(), rest))
      case OutOfInput => Result(Incomplete, Fields(), out, n)
      case Failed => Result(Error, Fields(), out, n)
      case Finished => Result(Complete, Fields(), out, n)
    }

    lemma ShiftRan(a: seq<byte>, m: nat, flow: Flow, b: seq<byte>, n: nat, rest: seq<byte>)
      requires flow in {Going, OutOfInput} ==> Sized(Fields())
      ensures Shift(a, m, Ran(flow, b, n, rest)) == Ran(flow, a + b, m + n, rest)
    {
      hide Run;
      if flow == Going {
        ShiftShift(a, m, b, n, Run(Fields(), rest));
      }
    }

    /** A stretch that takes `n` bytes of `s`, of which the first `data` are decoded, is part of the byte-wise run. */
    ghost predicate Stretch(was: State, s: seq<byte>, n: nat, data: nat, flow: Flow)
      reads this
      requires data <= n <= |s| && Sized(was)
    {
      && (flow in {Going, OutOfInput} ==> Sized(Fields()))
      && Run(was, s) == Ran(flow, s[..data], n, s[n..])
      && (flow == OutOfInput ==> n == |s|)
    }

    method AddDigit(v: int)
      requires Sized(Fields()) && phase == InSize && hexCount < MAX_HEX && 0 <= v < 16
      modifies this
      ensures Sized(Fields()) && old(left) as int * 16 + v < 0x1_0000_0000_0000_0000
      ensures Fields() == old(Fields()).(left := (old(left) as int * 16 + v) as SizeT, hexCount := old(hexCount) + 1)
    {
      DigitFits(Fields(), v);
      left := left * 16 + v as SizeT;
      hexCount := hexCount + 1;
    }

    /** The hex digits of a chunk size. */
    method ReadSize(s: seq<byte>) returns (n: nat, flow: Flow)
      requires Sized(Fields()) && phase == InSize
      modifies this
      ensures n <= |s| && Stretch(old(Fields()), s, n, 0, flow)
      ensures flow == Going ==> phase == InExt
    {
      hide Run, Power16;
      ghost var was := Fields();
      n := 0;
      StretchStart(was, s);
      while true
        invariant n <= |s| && phase == InSize && Stretch(was, s, n, 0, Going)
        decreases |s| - n
      {
        if n == |s| {
          StretchEnd(was, s, Fields());
          return n, OutOfInput;
        }
        StretchStep(was, s, n, Fields());
        var v := Hex(s[n]);
        if v == -1 {
          if hexCount == 0 {
            return n, Failed;
          }
          break;
        }
        if hexCount == MAX_HEX {
          return n, Failed;
        }
        AddDigit(v);
        n := n + 1;
      }
      ghost var st := Fields();
      hexCount := 0;
      phase := InExt;
      LeaveSize(st, s[n..]);
      return n, Going;
    }

    /** Passes over a chunk extension, up to the line feed of the size line. */
    method SkipExtension(s: seq<byte>) returns (n: nat, flow: Flow)
      requires Sized(Fields()) && phase == InExt
      modifies this
      ensures n <= |s| && Stretch(old(Fields()), s, n, 0, flow)
      ensures flow == Going ==> n > 0 && phase in {InData, InTrailerHead}
    {
      hide Run;
      ghost var was := Fields();
      n := 0;
      StretchStart(was, s);
      while true
        invariant n <= |s| && Fields() == was && Stretch(was, s, n, 0, Going)
        decreases |s| - n
      {
        if n == |s| {
          StretchEnd(was, s, Fields());
          return n, OutOfInput;
        }
        StretchStep(was, s, n, Fields());
        if s[n] == LF {
          break;
        }
        n := n + 1;
      }
      n := n + 1;
      if left == 0 {
        if consumeTrailer {
          phase := InTrailerHead;
        } else {
          return n, Finished;
        }
      } else {
        phase := InData;
      }
      return n, Going;
    }

    /** The line break after the data of a chunk. */
    method SkipCrlf(s: seq<byte>) returns (n: nat, flow: Flow)
      requires Sized(Fields()) && phase == InCrlf
      modifies this
      ensures n <= |s| && Stretch(old(Fields()), s, n, 0, flow)
      ensures flow == Going ==> n > 0
    {
      hide Run;
      ghost var was := Fields();
      n := 0;
      StretchStart(was, s);
      while true
        invariant n <= |s| && Fields() == was && Stretch(was, s, n, 0, Going)
        decreases |s| - n
      {
        if n == |s| {
          StretchEnd(was, s, Fields());
          return n, OutOfInput;
        }
        StretchStep(was, s, n, Fields());
        if s[n] != CR {
          break;
        }
        n := n + 1;
      }
      if s[n] != LF {
        return n, Failed;
      }
      phase := InSize;
      return n + 1, Going;
    }

    /** The start of a trailer line: a blank one ends the message. */
    method ReadTrailerHead(s: seq<byte>) returns (n: nat, flow: Flow)
      requires Sized(Fields()) && phase == InTrailerHead
      modifies this
      ensures n <= |s| && Stretch(old(Fields()), s, n, 0, flow)
      ensures flow == Going ==> n > 0
    {
      hide Run;
      ghost var was := Fields();
      n := 0;
      StretchStart(was, s);
      while true
        invariant n <= |s| && Fields() == was && Stretch(was, s, n, 0, Going)
        decreases |s| - n
      {
        if n == |s| {
          StretchEnd(was, s, Fields());
          return n, OutOfInput;
        }
        StretchStep(was, s, n, Fields());
        if s[n] != CR {
          break;
        }
        n := n + 1;
      }
      n := n + 1;
      if s[n - 1] == LF {
        return n, Finished;
      }
      phase := InTrailerMiddle;
      return n, Going;
    }

    method SkipTrailerLine(s: seq<byte>) returns (n: nat, flow: Flow)
      requires Sized(Fields()) && phase == InTrailerMiddle
      modifies this
      ensures n <= |s| && Stretch(old(Fields()), s, n, 0, flow)
      ensures flow == Going ==> n > 0
    {
      hide Run;
      ghost var was := Fields();
      n := 0;
      StretchStart(was, s);
      while true
        invariant n <= |s| && Fields() == was && Stretch(was, s, n, 0, Going)
        decreases |s| - n
      {
        if n == |s| {
          StretchEnd(was, s, Fields());
          return n, OutOfInput;
        }
        StretchStep(was, s, n, Fields());
        if s[n] == LF {
          break;
        }
        n := n + 1;
      }
      phase := InTrailerHead;
      return n + 1, Going;
    }

    /** Takes as much chunk data as there is; the caller moves it. */
    method TakeData(s: seq<byte>) returns (n: nat, flow: Flow)
      requires Sized(Fields()) && phase == InData
      modifies this
      ensures n <= |s| && Stretch(old(Fields()), s, n, n, flow) && (flow == Going ==> n > 0)
    {
      hide Run;
      ghost var was := Fields();
      assert s == s[..|s|] + s[|s|..];
      if |s| < left as int {
        RunData(was, s[..|s|], s[|s|..]);
        left := left - |s| as SizeT;
        RunNothing(Fields());
        return |s|, OutOfInput;
      }
      n := left as nat;
      assert s == s[..n] + s[n..];
      RunData(was, s[..n], s[n..]);
      left := 0;
      phase := InCrlf;
      return n, Going;
    }

    /** One stretch of the loop: the part of the input it takes, and how much of that is data. */
    method Advance(s: seq<byte>) returns (n: nat, data: bool, flow: Flow)
      requires Sized(Fields())
      modifies this
      ensures n <= |s| && Stretch(old(Fields()), s, n, if data then n else 0, flow)
      ensures flow == Going ==> n > 0 || (old(phase) == InSize && phase == InExt)
    {
      hide Run, Stretch;
      data := false;
      match phase {
        case InSize => n, flow := ReadSize(s);
        case InExt => n, flow := SkipExtension(s);
        case InData =>
          data := true;
          n, flow := TakeData(s);
        case InCrlf => n, flow := SkipCrlf(s);
        case InTrailerHead => n, flow := ReadTrailerHead(s);
        case InTrailerMiddle => n, flow := SkipTrailerLine(s);
      }
    }

    /** The loop before `src`: `out` is decoded and stands at the front, and the input from `src` on is as it was. */
    ghost predicate Looping(was: State, input: seq<byte>, out: seq<byte>, src: nat, flow: Flow, buf: array<byte>)
      reads this, buf
      requires Sized(was)
    {
      && |out| <= src <= |input| <= buf.Length
      && buf[..|out|] == out && buf[src..|input|] == input[src..]
      && (flow in {Going, OutOfInput} ==> Sized(Fields()))
      && (flow == OutOfInput ==> src == |input|)
      && Run(was, input) == Ran(flow, out, src, input[src..])
    }

    /** One turn of the loop. */
    method LoopTurn(buf: array<byte>, dst: nat, src: nat, bufsz: nat, ghost was: State, ghost input: seq<byte>,
                    ghost out: seq<byte>)
      returns (newDst: nat, newSrc: nat, flow: Flow, ghost newOut: seq<byte>)
      requires Sized(was) && |out| == dst && |input| == bufsz && Looping(was, input, out, src, Going, buf)
      modifies this, buf
      ensures |newOut| == newDst && src <= newSrc && Looping(was, input, newOut, newSrc, flow, buf)
      ensures flow == Going ==> newSrc > src || (old(phase) == InSize && phase == InExt)
      ensures forall k :: newSrc <= k < buf.Length ==> buf[k] == old(buf[k])
    {
      hide Run, Ran, Sized;
      ghost var rest := input[src..];
      GoingRan(out, src, rest);
      var n, data;
      n, data, flow := Advance(buf[src..bufsz]);
      ghost var taken := rest[..if data then n else 0];
      ShiftRan(out, src, flow, taken, n, rest[n..]);
      TailOfTail(input, src, n);
      newDst, newSrc, newOut := if data then dst + n else dst, src + n, out + taken;
      Compact(buf, dst, src, n, data, bufsz, out, rest);
    }

    /** Moves the data of a turn behind what is decoded. */
    method Compact(buf: array<byte>, dst: nat, src: nat, n: nat, data: bool, bufsz: nat, ghost out: seq<byte>,
                   ghost rest: seq<byte>)
      requires dst <= src && src + n <= bufsz <= buf.Length
      requires buf[..dst] == out && buf[src..bufsz] == rest
      modifies buf
      ensures var m := if data then n else 0;
              buf[..dst + m] == out + rest[..m] && buf[src + n..bufsz] == rest[n..]
      ensures forall k :: src + n <= k < buf.Length ==> buf[k] == old(buf[k])
    {
      assert rest[n..] == buf[src + n..bufsz];
      if data {
        assert rest[..n] == buf[src..src + n];
        MoveData(buf, dst, src, n);
        assert buf[..dst] == out && buf[dst..dst + n] == rest[..n];
        Joined(buf[..], dst, dst + n);
      }
    }

    lemma Joined(s: seq<byte>, i: nat, j: nat)
      requires i <= j <= |s|
      ensures s[..j] == s[..i] + s[i..j]
    {
    }

    /** The loop: moves data down as it goes and leaves the rest of the buffer alone. */
    method DecodeLoop(buf: array<byte>, bufsz: nat) returns (dst: nat, src: nat, flow: Flow)
      requires bufsz <= buf.Length && Sized(Fields())
      modifies this, buf
      ensures dst <= src <= bufsz && flow != Going
      ensures forall k :: src <= k < buf.Length ==> buf[k] == old(buf[k])
      ensures flow == OutOfInput ==> src == bufsz && Sized(Fields())
      ensures Run(old(Fields()), old(buf[..bufsz])) == Ran(flow, buf[..dst], src, [])
    {
      ghost var was, input, out := Fields(), buf[..bufsz], [];
      dst, src, flow := 0, 0, Going;
      RanStart(input);
      hide Run, Ran, Sized;
      assert Looping(was, input, out, src, Going, buf);
      while flow == Going
        invariant |out| == dst && Looping(was, input, out, src, flow, buf)
        invariant forall k :: src <= k < buf.Length ==> buf[k] == old(buf[k])
        decreases flow == Going, bufsz - src, if phase == InSize then 1 else 0
      {
        dst, src, flow, out := LoopTurn(buf, dst, src, bufsz, was, input, out);
      }
      RanDone(flow, out, src, input[src..]);
    }

    lemma TailOfTail(input: seq<byte>, i: nat, n: nat)
      requires i + n <= |input|
      ensures input[i..][n..] == input[i + n..]
    {
    }

    lemma RanStart(input: seq<byte>)
      requires Sized(Fields())
      ensures Run(Fields(), input) == Ran(Going, [], 0, input[0..])
    {
      assert input[0..] == input;
    }

    lemma GoingRan(out: seq<byte>, n: nat, rest: seq<byte>)
      requires Sized(Fields())
      ensures Ran(Going, out, n, rest) == Shift(out, n, Run(Fields(), rest))
    {
    }

    lemma RanDone(flow: Flow, out: seq<byte>, n: nat, rest: seq<byte>)
      requires flow != Going && (flow == OutOfInput ==> Sized(Fields()))
      ensures Ran(flow, out, n, rest) == Ran(flow, out, n, [])
    {
    }

    /**
     * Decodes `buf[..bufsz]` in place: the data ends up at the front, followed by the bytes that were
     * not taken. Returns -2 when more input is needed, -1 on error, else how many bytes were not taken.
     */
    method Decode(buf: array<byte>, bufsz: nat) returns (ret: int, size: nat)
      requires bufsz <= buf.Length && Sized(Fields())
      modifies this, buf
      ensures var input := old(buf[..bufsz]);
              var r := Run(old(Fields()), input);
              && r.st == Fields()
              && size == |r.out| && size + (bufsz - r.used) <= buf.Length
              && buf[..size] == r.out
              && buf[size..size + (bufsz - r.used)] == input[r.used..]
              && ret == (match r.verdict case Incomplete => -2 case Error => -1 case Complete => bufsz - r.used)
              && (ret == -2 ==> Sized(Fields()))
      ensures buf[bufsz..] == old(buf[bufsz..])
    {
      hide Run, Ran;
      ghost var input := buf[..bufsz];
      var src, flow;
      size, src, flow := DecodeLoop(buf, bufsz);
      ghost var out := buf[..size];
      RanVerdict(flow, out, src);
      KeepTail(buf, size, src, bufsz, input);
      ret := if flow == Finished then bufsz - src else if flow == Failed then -1 else -2;
    }

    lemma RanVerdict(flow: Flow, out: seq<byte>, n: nat)
      requires flow != Going && (flow == OutOfInput ==> Sized(Fields()))
      ensures var verdict := if flow == OutOfInput then Incomplete else if flow == Failed then Error else Complete;
              Ran(flow, out, n, []) == Result(verdict, Fields(), out, n)
    {
    }
  }

  /** What was not taken is moved behind the decoded data. */
  method KeepTail(buf: array<byte>, size: nat, src: nat, bufsz: nat, ghost input: seq<byte>)
    requires size <= src <= bufsz == |input| && bufsz <= buf.Length && buf[src..bufsz] == input[src..]
    modifies buf
    ensures buf[..size] == old(buf[..size]) && buf[size..size + (bufsz - src)] == input[src..]
    ensures buf[bufsz..] == old(buf[bufsz..])
  {
    MoveData(buf, size, src, bufsz - src);
    assert buf[size..size + (bufsz - src)] == old(buf[src..bufsz]);
  }

  lemma TailOf(message: seq<byte>, tail: seq<byte>)
    ensures (message + tail)[|message|..] == tail && |message + tail| == |message| + |tail|
  {
  }

  /** A buffer that holds a whole message and some bytes behind it. */
  method DecodeMessage(buf: array<byte>, trailer: bool, ghost chunks: seq<Chunk>, ghost digits: seq<byte>,
                       ghost ext: seq<byte>, ghost lines: seq<seq<byte>>, ghost tail: seq<byte>)
    returns (ret: int, size: nat)
    requires Encodable(chunks, digits, ext, lines) && buf[..] == Message(trailer, chunks, digits, ext, lines) + tail
    modifies buf
    ensures ret == |tail| && size == |DataOf(chunks)| && size + ret <= buf.Length
    ensures buf[..size] == DataOf(chunks) && buf[size..size + ret] == tail
  {
    ghost var message, was := Message(trailer, chunks, digits, ext, lines), buf[..];
    DecodeEncode(trailer, chunks, digits, ext, lines, tail);
    hide Run, Message, DataOf, Encodable, Sized;
    TailOf(message, tail);
    var decoder := new Decoder(trailer);
    assert buf[..buf.Length] == was;
    ret, size := decoder.Decode(buf, buf.Length);
  }

  /** Feeds pieces to a decoder, each in a buffer of its own, until one is not incomplete. */
  method DecodePieces(trailer: bool, pieces: seq<seq<byte>>) returns (ret: int, out: seq<byte>, tail: seq<byte>)
    ensures var r := Run(Initial(trailer), Flatten(pieces));
            && out == r.out
            && (ret == -2 <==> r.verdict == Incomplete) && (ret == -1 <==> r.verdict == Error)
            && (ret >= 0 ==> tail == Flatten(pieces)[r.used..])
  {
    hide Run, Feed, Sized, Flatten;
    var decoder := new Decoder(trailer);
    ghost var goal := Feed(Initial(trailer), pieces);
    SegmentationIndependence(Initial(trailer), pieces);
    ret, out, tail := -2, [], [];
    assert pieces[0..] == pieces;
    FeedStart(Initial(trailer), pieces);
    for i := 0 to |pieces|
      invariant Sized(decoder.Fields()) && ret == -2
      invariant goal == Before(out, Feed(decoder.Fields(), pieces[i..]))
    {
      ghost var was := decoder.Fields();
      FeedStep(was, pieces[i..], out);
      assert pieces[i..][0] == pieces[i] && pieces[i..][1..] == pieces[i + 1..];
      var buf := new byte[|pieces[i]|](k requires 0 <= k < |pieces[i]| => pieces[i][k]);
      assert buf[..buf.Length] == pieces[i];
      var size;
      ret, size := decoder.Decode(buf, buf.Length);
      out := out + buf[..size];
      if ret != -2 {
        if ret >= 0 {
          tail := buf[size..size + ret] + Flatten(pieces[i + 1..]);
        }
        return;
      }
    }
    FeedEnd(decoder.Fields(), pieces[|pieces|..], out);
  }

  /** What was decoded before, in front of what is fed. */
  function Before(out: seq<byte>, f: Fed): Fed {
    f.(out := out + f.out)
  }

  lemma FeedStart(st: State, pieces: seq<seq<byte>>)
    requires Sized(st)
    ensures Before([], Feed(st, pieces)) == Feed(st, pieces)
  {
    hide Feed;
    assert [] + Feed(st, pieces).out == Feed(st, pieces).out;
  }

  lemma FeedEnd(st: State, pieces: seq<seq<byte>>, out: seq<byte>)
    requires Sized(st) && pieces == []
    ensures Before(out, Feed(st, pieces)) == Fed(Incomplete, st, out, [])
  {
    assert out + [] == out;
  }

  lemma {:induction false} FeedStep(st: State, pieces: seq<seq<byte>>, out: seq<byte>)
    requires Sized(st) && pieces != []
    ensures var r := Run(st, pieces[0]);
            Before(out, Feed(st, pieces))
            == if r.verdict == Incomplete then Before(out + r.out, Feed(r.st, pieces[1..]))
               else Fed(r.verdict, r.st, out + r.out, pieces[0][r.used..] + Flatten(pieces[1..]))
  {
    hide Run;
    var r := Run(st, pieces[0]);
    if r.verdict == Incomplete {
      var f := Feed(r.st, pieces[1..]);
      assert out + (r.out + f.out) == out + r.out + f.out;
    }
  }

  lemma RunNothing(st: State)
    requires Sized(st)
    ensures Run(st, []) == Result(Incomplete, st, [], 0)
  {
  }

  lemma StretchStart(was: State, s: seq<byte>)
    requires Sized(was)
    ensures Run(was, s) == Shift([], 0, Run(was, s[0..]))
  {
    assert s[0..] == s;
  }

  lemma StretchEnd(was: State, s: seq<byte>, st: State)
    requires Sized(was) && Sized(st) && Run(was, s) == Shift([], |s|, Run(st, s[|s|..]))
    ensures Run(was, s) == Result(Incomplete, st, [], |s|)
  {
  }

  lemma StretchStep(was: State, s: seq<byte>, n: nat, st: State)
    requires Sized(was) && Sized(st) && n < |s| && Run(was, s) == Shift([], n, Run(st, s[n..]))
    ensures var m := Step(st, s[n]);
            && (m.On? && m.data == [] ==> Run(was, s) == Shift([], n + 1, Run(m.st, s[n + 1..])))
            && (m.Fail? ==> Run(was, s) == Result(Error, st, [], n))
            && (m.Finish? ==> Run(was, s) == Result(Complete, m.st, [], n + 1))
  {
    hide Run;
    assert s[n..][1..] == s[n + 1..];
    RunStep(st, s[n..], s[n + 1..]);
    var m := Step(st, s[n]);
    if m.On? && m.data == [] {
      ShiftShift([], n, [], 1, Run(m.st, s[n + 1..]));
    }
  }
}
