/** Bytes on the wire. */
module Bytes {
  newtype byte = b: int | 0 <= b < 256

  const HT: byte := 9
  const LF: byte := 10
  const CR: byte := 13
  const SP: byte := 32
  const DEL: byte := 127
}

/**
 * The chunked decoder read one byte at a time: what each byte does to the decoder's fields, and a run
 * over a whole input. The program works on whole stretches of a buffer instead.
 */
module ChunkedSpec {
  import opened Bytes

  const MAX_HEX: nat := 16
  newtype SizeT = n: int | 0 <= n < 0x1_0000_0000_0000_0000

  datatype Phase = InSize | InExt | InData | InCrlf | InTrailerHead | InTrailerMiddle

  /** The decoder's fields. */
  datatype State = State(phase: Phase, hexCount: nat, left: SizeT, consumeTrailer: bool)

  function Power16(n: nat): (p: nat)
    ensures p >= 1
  {
    if n == 0 then 1 else 16 * Power16(n - 1)
  }

  /** What keeps `bytes_left_in_chunk` from wrapping: it has as many hex digits as were counted. */
  ghost predicate Sized(st: State) {
    match st.phase
    case InSize => st.hexCount <= MAX_HEX && st.left as int < Power16(st.hexCount)
    case InExt => st.hexCount == 0
    case InData => st.hexCount == 0 && st.left > 0
    case _ => st.hexCount == 0 && st.left == 0
  }

  /** A decoder zero-filled before its first use. */
  function Initial(consumeTrailer: bool): (st: State)
    ensures Sized(st)
  {
    State(InSize, 0, 0, consumeTrailer)
  }

  function Hex(b: byte): (v: int)
    ensures -1 <= v < 16
  {
    if '0' as byte <= b <= '9' as byte then b as int - '0' as int
    else if 'A' as byte <= b <= 'F' as byte then b as int - 'A' as int + 10
    else if 'a' as byte <= b <= 'f' as byte then b as int - 'a' as int + 10
    else -1
  }

  lemma {:induction false} Power16Grows(m: nat, n: nat)
    requires m <= n
    ensures Power16(m) <= Power16(n)
    decreases n
  {
    if m < n {
      Power16Grows(m, n - 1);
    }
  }

  lemma Power16Max()
    ensures Power16(MAX_HEX) == 0x1_0000_0000_0000_0000
  {
    assert Power16(4) == 0x1_0000;
    assert Power16(8) == 0x1_0000_0000;
    assert Power16(12) == 0x1_0000_0000_0000;
  }

  /** One more digit still fits. */
  lemma DigitFits(st: State, v: int)
    requires Sized(st) && st.phase == InSize && st.hexCount < MAX_HEX && 0 <= v < 16
    ensures st.left as int * 16 + v < Power16(st.hexCount + 1) <= 0x1_0000_0000_0000_0000
  {
    Power16Grows(st.hexCount + 1, MAX_HEX);
    Power16Max();
  }

  datatype Verdict = Incomplete | Error | Complete

  /** What one byte does: go on, having decoded `data`; fail without taking the byte; or finish. */
  datatype Move = On(st: State, data: seq<byte>) | Fail | Finish(st: State)

  function Ext(st: State, b: byte): Move {
    if b != LF then On(st, [])
    else if st.left != 0 then On(st.(phase := InData), [])
    else if st.consumeTrailer then On(st.(phase := InTrailerHead), [])
    else Finish(st)
  }

  function Step(st: State, b: byte): (m: Move)
    requires Sized(st)
    ensures m.On? ==> Sized(m.st) && m.st.consumeTrailer == st.consumeTrailer
  {
    match st.phase
    case InSize =>
      if Hex(b) == -1 then
        if st.hexCount == 0 then Fail else Ext(st.(phase := InExt, hexCount := 0), b)
      else if st.hexCount == MAX_HEX then Fail
      else
        DigitFits(st, Hex(b));
        On(st.(left := (st.left as int * 16 + Hex(b)) as SizeT, hexCount := st.hexCount + 1), [])
    case InExt => Ext(st, b)
    case InData =>
      On(if st.left == 1 then st.(left := 0, phase := InCrlf) else st.(left := st.left - 1), [b])
    case InCrlf =>
      if b == CR then On(st, [])
      else if b == LF then On(st.(phase := InSize), [])
      else Fail
    case InTrailerHead =>
      if b == CR then On(st, [])
      else if b == LF then Finish(st)
      else On(st.(phase := InTrailerMiddle), [])
    case InTrailerMiddle =>
      On(if b == LF then st.(phase := InTrailerHead) else st, [])
  }

  /** A run over an input: the verdict, the fields after it, the data decoded and how many bytes were taken. */
  datatype Result = Result(verdict: Verdict, st: State, out: seq<byte>, used: nat)

  function Shift(out: seq<byte>, n: nat, r: Result): Result {
    r.(out := out + r.out, used := n + r.used)
  }

  function Run(st: State, s: seq<byte>): (r: Result)
    requires Sized(st)
    ensures r.used <= |s| && |r.out| <= r.used
    ensures r.verdict == Incomplete ==> Sized(r.st) && r.used == |s| && r.st.consumeTrailer == st.consumeTrailer
    decreases |s|
  {
    if s == [] then Result(Incomplete, st, [], 0)
    else
      match Step(st, s[0])
      case On(st', data) => Shift(data, 1, Run(st', s[1..]))
      case Fail => Result(Error, st, [], 0)
      case Finish(st') => Result(Complete, st', [], 1)
  }

  lemma {:induction false} ShiftShift(a: seq<byte>, m: nat, b: seq<byte>, n: nat, r: Result)
    ensures Shift(a, m, Shift(b, n, r)) == Shift(a + b, m + n, r)
  {
    assert a + (b + r.out) == a + b + r.out;
  }

  /** A run over two pieces is a run over the first, then, if that was incomplete, over the second. */
  lemma {:induction false} RunConcat(st: State, a: seq<byte>, b: seq<byte>)
    requires Sized(st)
    ensures var r := Run(st, a);
            Run(st, a + b) == if r.verdict == Incomplete then Shift(r.out, |a|, Run(r.st, b)) else r
    decreases |a|
  {
    if a == [] {
      assert a + b == b;
    } else {
      assert (a + b)[1..] == a[1..] + b;
      match Step(st, a[0]) {
        case On(st', data) =>
          RunConcat(st', a[1..], b);
          var r := Run(st', a[1..]);
          if r.verdict == Incomplete {
            ShiftShift(data, 1, r.out, |a| - 1, Run(r.st, b));
          }
        case Fail =>
        case Finish(_) =>
      }
    }
  }

  function Flatten(pieces: seq<seq<byte>>): seq<byte> {
    if pieces == [] then [] else pieces[0] + Flatten(pieces[1..])
  }

  /** What a caller sees who feeds pieces in turn while the verdict is incomplete. */
  datatype Fed = Fed(verdict: Verdict, st: State, out: seq<byte>, tail: seq<byte>)

  function Feed(st: State, pieces: seq<seq<byte>>): Fed
    requires Sized(st)
    decreases |pieces|
  {
    if pieces == [] then Fed(Incomplete, st, [], [])
    else
      var r := Run(st, pieces[0]);
      if r.verdict != Incomplete then
        Fed(r.verdict, r.st, r.out, pieces[0][r.used..] + Flatten(pieces[1..]))
      else
        var f := Feed(r.st, pieces[1..]);
        f.(out := r.out + f.out)
  }

  /** However a stream is cut, feeding the pieces is decoding it at once. */
  lemma {:induction false} SegmentationIndependence(st: State, pieces: seq<seq<byte>>)
    requires Sized(st)
    ensures var r := Run(st, Flatten(pieces));
            Feed(st, pieces) == Fed(r.verdict, r.st, r.out, Flatten(pieces)[r.used..])
    decreases |pieces|
  {
    if pieces != [] {
      var r := Run(st, pieces[0]);
      var rest := Flatten(pieces[1..]);
      RunConcat(st, pieces[0], rest);
      if r.verdict == Incomplete {
        SegmentationIndependence(r.st, pieces[1..]);
        var q := Run(r.st, rest);
        assert (pieces[0] + rest)[|pieces[0]| + q.used..] == rest[q.used..];
      } else {
        assert (pieces[0] + rest)[r.used..] == pieces[0][r.used..] + rest;
      }
    }
  }

  /** A chunk as section 4.1 of RFC 7230 writes it: size digits, extension, CRLF, data, CRLF. */
  datatype Chunk = Chunk(digits: seq<byte>, ext: seq<byte>, data: seq<byte>)

  /** The value of a string of hex digits. */
  function HexValue(digits: seq<byte>): (v: nat)
    requires forall i :: 0 <= i < |digits| ==> Hex(digits[i]) != -1
    ensures v < Power16(|digits|)
  {
    if digits == [] then 0
    else HexValue(digits[..|digits| - 1]) * 16 + Hex(digits[|digits| - 1])
  }

  /** A size line: one to sixteen hex digits, then an extension without line feeds. */
  predicate SizeLine(digits: seq<byte>, ext: seq<byte>) {
    && 0 < |digits| <= MAX_HEX
    && (forall i :: 0 <= i < |digits| ==> Hex(digits[i]) != -1)
    && LF !in ext
    && (ext != [] ==> Hex(ext[0]) == -1)
  }

  predicate WellFormed(c: Chunk) {
    SizeLine(c.digits, c.ext) && |c.data| > 0 && HexValue(c.digits) == |c.data|
  }

  function EncodeChunk(c: Chunk): seq<byte> {
    c.digits + c.ext + [CR, LF] + c.data + [CR, LF]
  }

  function Encode(chunks: seq<Chunk>): seq<byte> {
    if chunks == [] then [] else EncodeChunk(chunks[0]) + Encode(chunks[1..])
  }

  function DataOf(chunks: seq<Chunk>): seq<byte> {
    if chunks == [] then [] else chunks[0].data + DataOf(chunks[1..])
  }

  /** A trailer line: not empty, and no line feed before the one that ends it. */
  predicate TrailerLine(line: seq<byte>) {
    line != [] && line[0] != CR && LF !in line
  }

  function EncodeTrailers(lines: seq<seq<byte>>): seq<byte> {
    if lines == [] then [CR, LF] else lines[0] + [CR, LF] + EncodeTrailers(lines[1..])
  }

  /** A run taken one byte further. */
  lemma RunStep(st: State, input: seq<byte>, s: seq<byte>)
    requires Sized(st) && input != [] && input[1..] == s
    ensures var m := Step(st, input[0]);
            Run(st, input)
            == if m.On? then Shift(m.data, 1, Run(m.st, s))
               else if m.Fail? then Result(Error, st, [], 0)
               else Result(Complete, m.st, [], 1)
  {
  }

  /** One size digit. */
  lemma RunDigit(st: State, digit: byte, s: seq<byte>)
    requires Sized(st) && st.phase == InSize && st.hexCount < MAX_HEX && Hex(digit) != -1
    ensures st.left as int * 16 + Hex(digit) < 0x1_0000_0000_0000_0000
    ensures Run(st, [digit] + s)
         == Shift([], 1, Run(st.(left := (st.left as int * 16 + Hex(digit)) as SizeT, hexCount := st.hexCount + 1), s))
  {
    hide Run, Power16;
    DigitFits(st, Hex(digit));
    RunStep(st, [digit] + s, s);
  }

  /** Reading the size digits. */
  lemma {:induction false} RunDigits(trailer: bool, digits: seq<byte>, s: seq<byte>)
    requires |digits| <= MAX_HEX && forall i :: 0 <= i < |digits| ==> Hex(digits[i]) != -1
    ensures Power16(|digits|) <= 0x1_0000_0000_0000_0000
    ensures Run(Initial(trailer), digits + s)
         == Shift([], |digits|, Run(State(InSize, |digits|, HexValue(digits) as SizeT, trailer), s))
    decreases |digits|
  {
    hide Run, Power16, Hex;
    Power16Grows(|digits|, MAX_HEX);
    Power16Max();
    if digits == [] {
      assert digits + s == s;
    } else {
      var n := |digits| - 1;
      var init, last := digits[..n], digits[n];
      RunDigits(trailer, init, [last] + s);
      assert init + ([last] + s) == digits + s;
      var st := State(InSize, n, HexValue(init) as SizeT, trailer);
      RunDigit(st, last, s);
      ShiftShift([], n, [], 1, Run(State(InSize, n + 1, HexValue(digits) as SizeT, trailer), s));
    }
  }

  /** The fields after the line feed of a size line, unless decoding is then complete. */
  function AfterLine(st: State): State {
    st.(phase := if st.left != 0 then InData else InTrailerHead)
  }

  /** Passing over an extension, up to the line feed. */
  lemma {:induction false} RunExt(st: State, ext: seq<byte>, s: seq<byte>)
    requires Sized(st) && st.phase == InExt && LF !in ext
    ensures Run(st, ext + [LF] + s)
         == Shift([], |ext| + 1,
                  if st.left == 0 && !st.consumeTrailer then Result(Complete, st, [], 0) else Run(AfterLine(st), s))
    decreases |ext|
  {
    hide Run;
    var input := ext + [LF] + s;
    if ext == [] {
      assert input[1..] == s;
      RunStep(st, input, s);
    } else {
      assert input[1..] == ext[1..] + [LF] + s;
      RunStep(st, input, ext[1..] + [LF] + s);
      RunExt(st, ext[1..], s);
    }
  }

  /** Leaving the size digits at a byte that is not one. */
  lemma LeaveSize(st: State, s: seq<byte>)
    requires Sized(st) && st.phase == InSize && st.hexCount > 0 && s != [] && Hex(s[0]) == -1
    ensures Run(st, s) == Run(st.(phase := InExt, hexCount := 0), s)
  {
  }

  /** A whole size line. */
  lemma {:induction false} RunSizeLine(trailer: bool, digits: seq<byte>, ext: seq<byte>, s: seq<byte>)
    requires SizeLine(digits, ext)
    ensures HexValue(digits) < 0x1_0000_0000_0000_0000
    ensures var st := State(InExt, 0, HexValue(digits) as SizeT, trailer);
            Run(Initial(trailer), digits + ext + [CR, LF] + s)
            == Shift([], |digits| + |ext| + 2,
                     if st.left == 0 && !trailer then Result(Complete, st, [], 0) else Run(AfterLine(st), s))
  {
    hide Run;
    var rest := ext + [CR] + [LF] + s;
    assert digits + ext + [CR, LF] + s == digits + rest;
    RunDigits(trailer, digits, rest);
    LeaveSize(State(InSize, |digits|, HexValue(digits) as SizeT, trailer), rest);
    RunExt(State(InExt, 0, HexValue(digits) as SizeT, trailer), ext + [CR], s);
    ShiftShift([], |digits|, [], |ext| + 2,
               if HexValue(digits) == 0 && !trailer
                   then Result(Complete, State(InExt, 0, HexValue(digits) as SizeT, trailer), [], 0)
               else Run(AfterLine(State(InExt, 0, HexValue(digits) as SizeT, trailer)), s));
  }

  /** Data bytes are passed through until none are left in the chunk. */
  lemma {:induction false} RunData(st: State, data: seq<byte>, s: seq<byte>)
    requires Sized(st) && st.phase == InData && |data| <= st.left as int
    ensures var st' := if |data| == st.left as int then st.(left := 0, phase := InCrlf)
            else st.(left := st.left - |data| as SizeT);
            Run(st, data + s) == Shift(data, |data|, Run(st', s))
    decreases |data|
  {
    hide Run;
    if data == [] {
      assert data + s == s;
      assert st.(left := st.left - 0) == st;
    } else {
      assert (data + s)[1..] == data[1..] + s;
      RunStep(st, data + s, data[1..] + s);
      if st.left > 1 {
        RunData(st.(left := st.left - 1), data[1..], s);
        assert [data[0]] + data[1..] == data;
        ShiftShift([data[0]], 1, data[1..], |data| - 1,
                   Run(if |data| == st.left as int then st.(left := 0, phase := InCrlf)
                       else st.(left := st.left - |data| as SizeT), s));
      } else {
        assert data == [data[0]] && data[1..] + s == s;
      }
    }
  }

  lemma RunCrlf(trailer: bool, s: seq<byte>)
    ensures Run(State(InCrlf, 0, 0, trailer), [CR, LF] + s) == Shift([], 2, Run(Initial(trailer), s))
  {
    assert ([CR, LF] + s)[1..] == [LF] + s;
    assert ([LF] + s)[1..] == s;
  }

  /** A well-formed chunk gives its data and leaves the decoder as it was. */
  lemma {:induction false} RunChunk(trailer: bool, c: Chunk, s: seq<byte>)
    requires WellFormed(c)
    ensures Run(Initial(trailer), EncodeChunk(c) + s) == Shift(c.data, |EncodeChunk(c)|, Run(Initial(trailer), s))
  {
    hide Run;
    var end := [CR, LF] + s;
    assert EncodeChunk(c) + s == c.digits + c.ext + [CR, LF] + (c.data + end);
    RunSizeLine(trailer, c.digits, c.ext, c.data + end);
    RunData(State(InData, 0, HexValue(c.digits) as SizeT, trailer), c.data, end);
    RunCrlf(trailer, s);
    ShiftShift(c.data, |c.data|, [], 2, Run(Initial(trailer), s));
    ShiftShift([], |c.digits| + |c.ext| + 2, c.data + [], |c.data| + 2, Run(Initial(trailer), s));
    assert [] + (c.data + []) == c.data;
  }

  lemma {:induction false} RunChunks(trailer: bool, chunks: seq<Chunk>, s: seq<byte>)
    requires forall i :: 0 <= i < |chunks| ==> WellFormed(chunks[i])
    ensures Run(Initial(trailer), Encode(chunks) + s)
            == Shift(DataOf(chunks), |Encode(chunks)|, Run(Initial(trailer), s))
    decreases |chunks|
  {
    hide Run;
    if chunks == [] {
      assert Encode(chunks) + s == s;
    } else {
      var rest := Encode(chunks[1..]);
      assert Encode(chunks) + s == EncodeChunk(chunks[0]) + (rest + s);
      RunChunk(trailer, chunks[0], rest + s);
      RunChunks(trailer, chunks[1..], s);
      ShiftShift(chunks[0].data, |EncodeChunk(chunks[0])|, DataOf(chunks[1..]), |rest|, Run(Initial(trailer), s));
    }
  }

  /** The rest of a trailer line. */
  lemma {:induction false} RunLine(line: seq<byte>, s: seq<byte>)
    requires LF !in line
    ensures Run(State(InTrailerMiddle, 0, 0, true), line + [LF] + s)
            == Shift([], |line| + 1, Run(State(InTrailerHead, 0, 0, true), s))
    decreases |line|
  {
    hide Run;
    var input := line + [LF] + s;
    if line == [] {
      assert input[1..] == s;
      RunStep(State(InTrailerMiddle, 0, 0, true), input, s);
    } else {
      assert input[1..] == line[1..] + [LF] + s;
      RunStep(State(InTrailerMiddle, 0, 0, true), input, line[1..] + [LF] + s);
      RunLine(line[1..], s);
    }
  }

  lemma {:induction false} RunTrailers(lines: seq<seq<byte>>, s: seq<byte>)
    requires forall i :: 0 <= i < |lines| ==> TrailerLine(lines[i])
    ensures Run(State(InTrailerHead, 0, 0, true), EncodeTrailers(lines) + s)
         == Result(Complete, State(InTrailerHead, 0, 0, true), [], |EncodeTrailers(lines)|)
    decreases |lines|
  {
    hide Run;
    var head := State(InTrailerHead, 0, 0, true);
    var input := EncodeTrailers(lines) + s;
    if lines == [] {
      assert input[1..] == [LF] + s;
      RunStep(head, input, [LF] + s);
      RunStep(head, [LF] + s, s);
    } else {
      var rest := EncodeTrailers(lines[1..]) + s;
      assert input[1..] == lines[0][1..] + [CR] + [LF] + rest;
      RunStep(head, input, lines[0][1..] + [CR] + [LF] + rest);
      RunLine(lines[0][1..] + [CR], rest);
      RunTrailers(lines[1..], s);
    }
  }

  lemma Regroup(a: seq<byte>, b: seq<byte>, c: seq<byte>, d: seq<byte>)
    ensures a + b + c + d == a + (b + (c + d))
  {
  }

  /** The parts of a message: chunks, a last chunk of value zero with its extension, and the lines of a trailer. */
  predicate Encodable(chunks: seq<Chunk>, digits: seq<byte>, ext: seq<byte>, lines: seq<seq<byte>>) {
    && (forall i :: 0 <= i < |chunks| ==> WellFormed(chunks[i]))
    && SizeLine(digits, ext) && HexValue(digits) == 0
    && (forall i :: 0 <= i < |lines| ==> TrailerLine(lines[i]))
  }

  function Message(trailer: bool, chunks: seq<Chunk>, digits: seq<byte>, ext: seq<byte>,
                   lines: seq<seq<byte>>): seq<byte> {
    Encode(chunks) + (digits + ext + [CR, LF]) + (if trailer then EncodeTrailers(lines) else [])
  }

  /**
   * Decoding undoes encoding: for any chunks, any last chunk of value zero, any trailer (when the
   * decoder is to consume one) and any bytes after it, the run completes with exactly the data of the
   * chunks and stops exactly before those bytes.
   */
  lemma {:induction false} DecodeEncode(trailer: bool, chunks: seq<Chunk>, digits: seq<byte>, ext: seq<byte>,
                                        lines: seq<seq<byte>>, tail: seq<byte>)
    requires Encodable(chunks, digits, ext, lines)
    ensures var message := Message(trailer, chunks, digits, ext, lines);
            var r := Run(Initial(trailer), message + tail);
            r.verdict == Complete && r.out == DataOf(chunks) && r.used == |message|
  {
    hide Run, Encode, EncodeTrailers, DataOf;
    var end := (if trailer then EncodeTrailers(lines) else []) + tail;
    var message := Message(trailer, chunks, digits, ext, lines);
    Regroup(Encode(chunks), digits + ext + [CR, LF], if trailer then EncodeTrailers(lines) else [], tail);
    RunChunks(trailer, chunks, digits + ext + [CR, LF] + end);
    RunSizeLine(trailer, digits, ext, end);
    if trailer {
      RunTrailers(lines, tail);
    }
  }
}
