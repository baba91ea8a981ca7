/**
 * The language of the chunked decoder: a run completes exactly on a message, and fails exactly on a size line
 * without a digit, on a seventeenth digit, and on a byte behind a chunk's data that is no part of a line break.
 */
module ChunkedLanguage {
  import opened Bytes
  import opened ChunkedSpec

  const HEX_DIGITS: string := "0123456789abcdef"
  const HEX_UPPER: string := "0123456789ABCDEF"

  /** The hex digits in order of their values, in either case, and no others. */
  lemma HexDigits(b: byte, v: nat)
    requires v < 16
    ensures Hex(b) == v <==> b as char == HEX_DIGITS[v] || b as char == HEX_UPPER[v]
  {
  }

  /**
   * A chunk as the decoder takes it: size digits, anything up to a line feed, the data, and a line feed behind
   * any number of carriage returns.
   */
  datatype Piece = Piece(digits: seq<byte>, ext: seq<byte>, data: seq<byte>, crs: nat)

  predicate AllHex(digits: seq<byte>) {
    forall i :: 0 <= i < |digits| ==> Hex(digits[i]) != -1
  }

  predicate LegalPiece(p: Piece) {
    && SizeLine(p.digits, p.ext)
    && |p.data| == HexValue(p.digits) > 0
  }

  function Returns(n: nat): (s: seq<byte>)
    ensures |s| == n && forall i :: 0 <= i < n ==> s[i] == CR
  {
    seq(n, i => CR)
  }

  function SizeText(digits: seq<byte>, ext: seq<byte>): seq<byte> {
    digits + (ext + [LF])
  }

  /** A chunk up to the byte that ends it. */
  function OpenText(p: Piece): seq<byte> {
    SizeText(p.digits, p.ext) + (p.data + Returns(p.crs))
  }

  function PieceText(p: Piece): seq<byte> {
    OpenText(p) + [LF]
  }

  function PiecesText(ps: seq<Piece>): seq<byte> {
    if ps == [] then [] else PieceText(ps[0]) + PiecesText(ps[1..])
  }

  function PiecesData(ps: seq<Piece>): seq<byte> {
    if ps == [] then [] else ps[0].data + PiecesData(ps[1..])
  }

  predicate LegalPieces(ps: seq<Piece>) {
    forall i :: 0 <= i < |ps| ==> LegalPiece(ps[i])
  }

  lemma {:induction false} Sizes(trailer: bool, digits: seq<byte>, ext: seq<byte>, s: seq<byte>)
    requires SizeLine(digits, ext)
    ensures HexValue(digits) < 0x1_0000_0000_0000_0000
    ensures var st := State(InExt, 0, HexValue(digits) as SizeT, trailer);
            Run(Initial(trailer), SizeText(digits, ext) + s)
            == Shift([], |SizeText(digits, ext)|,
                     if st.left == 0 && !trailer then Result(Complete, st, [], 0) else Run(AfterLine(st), s))
  {
    hide Run, HexValue, Hex;
    RunDigits(trailer, digits, ext + [LF] + s);
    var rest := ext + [LF] + s;
    assert SizeText(digits, ext) + s == digits + rest;
    SizeLeft(State(InSize, |digits|, HexValue(digits) as SizeT, trailer), ext, s);
    RunExt(State(InExt, 0, HexValue(digits) as SizeT, trailer), ext, s);
    var st := State(InExt, 0, HexValue(digits) as SizeT, trailer);
    ShiftShift([], |digits|, [], |ext| + 1,
               if st.left == 0 && !trailer then Result(Complete, st, [], 0) else Run(AfterLine(st), s));
  }

  lemma SizeLeft(st: State, ext: seq<byte>, s: seq<byte>)
    requires Sized(st) && st.phase == InSize && st.hexCount > 0 && (ext != [] ==> Hex(ext[0]) == -1)
    ensures Run(st, ext + [LF] + s) == Run(st.(phase := InExt, hexCount := 0), ext + [LF] + s)
  {
    LeaveSize(st, ext + [LF] + s);
  }

  lemma {:induction false} RunReturns(trailer: bool, n: nat, s: seq<byte>)
    ensures Run(State(InCrlf, 0, 0, trailer), Returns(n) + s) == Shift([], n, Run(State(InCrlf, 0, 0, trailer), s))
    decreases n
  {
    hide Run;
    var st, t := State(InCrlf, 0, 0, trailer), Returns(n) + s;
    if n == 0 {
      assert t == s;
    } else {
      assert t[1..] == Returns(n - 1) + s;
      RunStep(st, t, Returns(n - 1) + s);
      RunReturns(trailer, n - 1, s);
      ShiftShift([], 1, [], n - 1, Run(st, s));
    }
  }

  /** A chunk gives its data and leaves the decoder before the byte that ends it. */
  lemma {:induction false} OpenRun(trailer: bool, p: Piece, s: seq<byte>)
    requires LegalPiece(p)
    ensures Run(Initial(trailer), OpenText(p) + s)
         == Shift(p.data, |OpenText(p)|, Run(State(InCrlf, 0, 0, trailer), s))
  {
    hide Run, SizeText, HexValue, Hex;
    var size, behind := SizeText(p.digits, p.ext), Returns(p.crs) + s;
    assert OpenText(p) + s == size + (p.data + behind);
    Sizes(trailer, p.digits, p.ext, p.data + behind);
    RunData(State(InData, 0, HexValue(p.digits) as SizeT, trailer), p.data, behind);
    RunReturns(trailer, p.crs, s);
    var last := Run(State(InCrlf, 0, 0, trailer), s);
    ShiftShift(p.data, |p.data|, [], p.crs, last);
    ShiftShift([], |size|, p.data + [], |p.data| + p.crs, last);
    assert [] + (p.data + []) == p.data;
  }

  lemma {:induction false} PieceRun(trailer: bool, p: Piece, s: seq<byte>)
    requires LegalPiece(p)
    ensures Run(Initial(trailer), PieceText(p) + s) == Shift(p.data, |PieceText(p)|, Run(Initial(trailer), s))
  {
    hide Run, OpenText, LegalPiece;
    assert PieceText(p) + s == OpenText(p) + ([LF] + s);
    OpenRun(trailer, p, [LF] + s);
    assert ([LF] + s)[1..] == s;
    RunStep(State(InCrlf, 0, 0, trailer), [LF] + s, s);
    ShiftShift(p.data, |OpenText(p)|, [], 1, Run(Initial(trailer), s));
    assert p.data + [] == p.data;
  }

  lemma {:induction false} PiecesRun(trailer: bool, ps: seq<Piece>, s: seq<byte>)
    requires LegalPieces(ps)
    ensures Run(Initial(trailer), PiecesText(ps) + s)
         == Shift(PiecesData(ps), |PiecesText(ps)|, Run(Initial(trailer), s))
    decreases |ps|
  {
    hide Run, PieceText, LegalPiece;
    if ps == [] {
      assert PiecesText(ps) + s == s;
    } else {
      var rest := PiecesText(ps[1..]);
      assert PiecesText(ps) + s == PieceText(ps[0]) + (rest + s);
      PieceRun(trailer, ps[0], rest + s);
      PiecesRun(trailer, ps[1..], s);
      ShiftShift(ps[0].data, |PieceText(ps[0])|, PiecesData(ps[1..]), |rest|, Run(Initial(trailer), s));
    }
  }

  /** Why what stands behind some chunks is refused. */
  datatype Cause = NoDigit | TooManyDigits | NoBreak(piece: Piece)

  predicate Because(c: Cause, s: seq<byte>) {
    match c
    case NoDigit => s != [] && Hex(s[0]) == -1
    case TooManyDigits => |s| > 16 && forall i :: 0 <= i < 17 ==> Hex(s[i]) != -1
    case NoBreak(p) =>
      && LegalPiece(p) && |s| > |OpenText(p)| && s[..|OpenText(p)|] == OpenText(p)
      && s[|OpenText(p)|] != CR && s[|OpenText(p)|] != LF
  }

  /** How far the decoder has come when it refuses, and the data it has decoded by then. */
  function Taken(c: Cause): nat {
    match c
    case NoDigit => 0
    case TooManyDigits => 16
    case NoBreak(p) => |OpenText(p)|
  }

  function Given(c: Cause): seq<byte> {
    if c.NoBreak? then c.piece.data else []
  }

  predicate Refuses(r: Result, out: seq<byte>, used: nat) {
    r.verdict == Error && r.out == out && r.used == used
  }

  lemma {:induction false} TooManyRun(trailer: bool, s: seq<byte>)
    requires Because(TooManyDigits, s)
    ensures Refuses(Run(Initial(trailer), s), [], 16)
  {
    hide Run, Hex, HexValue, Power16;
    var digits, rest := s[..16], s[16..];
    assert s == digits + rest;
    RunDigits(trailer, digits, rest);
    RunStep(State(InSize, 16, HexValue(digits) as SizeT, trailer), rest, rest[1..]);
  }

  lemma {:induction false} NoBreakRun(trailer: bool, p: Piece, s: seq<byte>)
    requires Because(NoBreak(p), s)
    ensures Refuses(Run(Initial(trailer), s), p.data, |OpenText(p)|)
  {
    hide Run, OpenText, LegalPiece;
    var rest := s[|OpenText(p)|..];
    assert s == OpenText(p) + rest;
    OpenRun(trailer, p, rest);
    RunStep(State(InCrlf, 0, 0, trailer), rest, rest[1..]);
  }

  lemma {:induction false} CauseRun(trailer: bool, c: Cause, s: seq<byte>)
    requires Because(c, s)
    ensures Refuses(Run(Initial(trailer), s), Given(c), Taken(c))
  {
    hide Run, LegalPiece, OpenText;
    match c
    case NoDigit => RunStep(Initial(trailer), s, s[1..]);
    case TooManyDigits => TooManyRun(trailer, s);
    case NoBreak(p) => NoBreakRun(trailer, p, s);
  }

  /**
   * Behind any chunks, each of the causes stops the run: the data of the chunks is decoded, and the bytes from
   * the bad one on are left.
   */
  lemma {:induction false} Refused(trailer: bool, ps: seq<Piece>, c: Cause, s: seq<byte>)
    requires LegalPieces(ps) && Because(c, s)
    ensures Refuses(Run(Initial(trailer), PiecesText(ps) + s), PiecesData(ps) + Given(c), |PiecesText(ps)| + Taken(c))
  {
    hide *;
    CauseRun(trailer, c, s);
    PiecesRun(trailer, ps, s);
    ShiftRefuses(PiecesData(ps), |PiecesText(ps)|, Run(Initial(trailer), s), Given(c), Taken(c));
  }

  lemma ShiftRefuses(out: seq<byte>, n: nat, r: Result, more: seq<byte>, used: nat)
    requires Refuses(r, more, used)
    ensures Refuses(Shift(out, n, r), out + more, n + used)
  {
  }

  // Nothing else is refused: what was decoded before a refusal is split into chunks and its cause.

  function LeadingHex(s: seq<byte>): (n: nat)
    ensures n <= |s| && AllHex(s[..n]) && (n < |s| ==> Hex(s[n]) == -1)
  {
    if s == [] || Hex(s[0]) == -1 then 0
    else
      assert forall i :: 1 <= i < 1 + LeadingHex(s[1..]) ==> s[i] == s[1..][..LeadingHex(s[1..])][i - 1];
      1 + LeadingHex(s[1..])
  }

  function FirstLf(s: seq<byte>): (n: nat)
    ensures n <= |s| && LF !in s[..n] && (n < |s| ==> s[n] == LF)
  {
    if s == [] || s[0] == LF then 0
    else
      assert s[..1 + FirstLf(s[1..])] == [s[0]] + s[1..][..FirstLf(s[1..])];
      1 + FirstLf(s[1..])
  }

  function LeadingReturns(s: seq<byte>): (n: nat)
    ensures n <= |s| && s[..n] == Returns(n) && (n < |s| ==> s[n] != CR)
  {
    if s == [] || s[0] != CR then 0
    else
      assert s[..1 + LeadingReturns(s[1..])] == [CR] + s[1..][..LeadingReturns(s[1..])];
      1 + LeadingReturns(s[1..])
  }

  lemma {:induction false} NoLineEnd(st: State, s: seq<byte>)
    requires Sized(st) && st.phase == InExt && LF !in s
    ensures Run(st, s).verdict == Incomplete
    decreases |s|
  {
    if s != [] {
      NoLineEnd(st, s[1..]);
    }
  }

  lemma {:induction false} NoBadTrailer(st: State, s: seq<byte>)
    requires Sized(st) && (st.phase == InTrailerHead || st.phase == InTrailerMiddle)
    ensures Run(st, s).verdict != Error
    decreases |s|
  {
    if s != [] {
      var m := Step(st, s[0]);
      if m.On? {
        NoBadTrailer(m.st, s[1..]);
      }
    }
  }

  lemma Nothing(st: State)
    requires Sized(st)
    ensures Run(st, []).verdict == Incomplete
  {
  }

  /** A run that stops without a bad size has read a size line. */
  lemma {:induction false} SizeRead(trailer: bool, s: seq<byte>) returns (digits: seq<byte>, ext: seq<byte>)
    requires Run(Initial(trailer), s).verdict != Incomplete
    requires !Because(NoDigit, s) && !Because(TooManyDigits, s)
    ensures SizeLine(digits, ext) && Starts(s, SizeText(digits, ext))
  {
    hide Run, HexValue, Hex, Power16;
    var n := LeadingHex(s);
    Nothing(Initial(trailer));
    digits := s[..n];
    var rest := s[n..];
    assert s == digits + rest;
    assert n <= 16;
    RunDigits(trailer, digits, rest);
    var st := State(InSize, n, HexValue(digits) as SizeT, trailer);
    Nothing(st);
    LeaveSize(st, rest);
    var e := FirstLf(rest);
    ext := rest[..e];
    if e == |rest| {
      assert ext == rest;
      NoLineEnd(st.(phase := InExt, hexCount := 0), rest);
    }
    assert ext + [LF] == rest[..e + 1];
    assert SizeText(digits, ext) == s[..n + e + 1];
  }

  predicate Starts(s: seq<byte>, t: seq<byte>) {
    |t| <= |s| && s[..|t|] == t
  }

  lemma StartSplit(s: seq<byte>, t: seq<byte>)
    requires Starts(s, t)
    ensures s == t + s[|t|..]
  {
  }

  lemma {:induction false} DataRead(trailer: bool, size: SizeT, s: seq<byte>) returns (data: seq<byte>, n: nat)
    requires size > 0 && Run(State(InData, 0, size, trailer), s).verdict != Incomplete
    ensures |data| == size as int && Starts(s, data + Returns(n)) && |s| > |data| + n && s[|data| + n] != CR
  {
    hide Run;
    var st := State(InData, 0, size, trailer);
    var v := size as int;
    if |s| <= v {
      assert s + [] == s;
      RunData(st, s, []);
      Nothing(if |s| == v then st.(left := 0, phase := InCrlf) else st.(left := st.left - |s| as SizeT));
    }
    data := s[..v];
    var rest := s[v..];
    assert data + rest == s;
    RunData(st, data, rest);
    n := LeadingReturns(rest);
    assert rest == Returns(n) + rest[n..];
    RunReturns(trailer, n, rest[n..]);
    Nothing(State(InCrlf, 0, 0, trailer));
    assert data + Returns(n) == s[..v + n];
  }

  /** How a run ends behind some chunks: it refuses what follows, or finds the last size line. */
  datatype Ending = Refusal(cause: Cause) | Last(digits: seq<byte>, ext: seq<byte>)

  predicate Ends(e: Ending, s: seq<byte>) {
    match e
    case Refusal(c) => Because(c, s)
    case Last(digits, ext) => SizeLine(digits, ext) && HexValue(digits) == 0 && Starts(s, SizeText(digits, ext))
  }

  /** What stands in front: a chunk and its line feed, or an ending. */
  lemma {:induction false} FrontRead(trailer: bool, s: seq<byte>) returns (p: Piece, e: Ending)
    requires Run(Initial(trailer), s).verdict != Incomplete
    ensures Ends(e, s) || (LegalPiece(p) && Starts(s, PieceText(p)))
  {
    hide Run, Because, SizeText, HexValue, Hex;
    p := Piece([], [], [], 0);
    if Because(NoDigit, s) {
      e := Refusal(NoDigit);
    } else if Because(TooManyDigits, s) {
      e := Refusal(TooManyDigits);
    } else {
      var digits, ext := SizeRead(trailer, s);
      e := Last(digits, ext);
      if HexValue(digits) > 0 {
        StartSplit(s, SizeText(digits, ext));
        p, e := PieceRead(trailer, digits, ext, s[|SizeText(digits, ext)|..]);
      }
    }
  }

  lemma {:induction false} PieceRead(trailer: bool, digits: seq<byte>, ext: seq<byte>, t: seq<byte>)
    returns (p: Piece, e: Ending)
    requires SizeLine(digits, ext) && HexValue(digits) > 0
    requires Run(Initial(trailer), SizeText(digits, ext) + t).verdict != Incomplete
    ensures var s := SizeText(digits, ext) + t; Ends(e, s) || (LegalPiece(p) && Starts(s, PieceText(p)))
  {
    hide Run, HexValue, SizeText, Hex;
    Sizes(trailer, digits, ext, t);
    var data, n := DataRead(trailer, HexValue(digits) as SizeT, t);
    p := Piece(digits, ext, data, n);
    e := Refusal(NoBreak(p));
    var s := SizeText(digits, ext) + t;
    assert OpenText(p) == SizeText(digits, ext) + t[..|data| + n] == s[..|OpenText(p)|];
    assert s[|OpenText(p)|] == t[|data| + n];
    if t[|data| + n] == LF {
      assert PieceText(p) == s[..|PieceText(p)|];
    }
  }

  /** Every run that stops is chunks and an ending. */
  lemma {:induction false} Stopped(trailer: bool, s: seq<byte>) returns (ps: seq<Piece>, e: Ending, rest: seq<byte>)
    requires Run(Initial(trailer), s).verdict != Incomplete
    ensures LegalPieces(ps) && s == PiecesText(ps) + rest && Ends(e, rest)
    decreases |s|
  {
    hide Run, LegalPiece, PieceText, Ends;
    var p, end := FrontRead(trailer, s);
    if Ends(end, s) {
      ps, e, rest := [], end, s;
      assert s == [] + s;
    } else {
      var t := s[|PieceText(p)|..];
      StartSplit(s, PieceText(p));
      PieceRun(trailer, p, t);
      PieceLong(p);
      var more, end', rest' := Stopped(trailer, t);
      ps, e, rest := [p] + more, end', rest';
      assert ps[1..] == more;
      assert s == PieceText(p) + (PiecesText(more) + rest);
    }
  }

  lemma PieceLong(p: Piece)
    ensures |PieceText(p)| > 0
  {
  }

  /** `s` is chunks and then what one of the causes refuses. */
  predicate RefusedAt(s: seq<byte>, ps: seq<Piece>, c: Cause) {
    LegalPieces(ps) && Starts(s, PiecesText(ps)) && Because(c, s[|PiecesText(ps)|..])
  }

  /** A run fails exactly when, behind some chunks, one of the causes stands. */
  lemma {:induction false} ErrorExactly(trailer: bool, s: seq<byte>)
    ensures Run(Initial(trailer), s).verdict == Error <==> exists ps, c :: RefusedAt(s, ps, c)
  {
    hide Run, Because, LegalPieces;
    if Run(Initial(trailer), s).verdict == Error {
      var ps, e, rest := Stopped(trailer, s);
      PiecesRun(trailer, ps, rest);
      if e.Last? {
        LastNoError(trailer, e, rest);
      }
      Behind(PiecesText(ps), rest);
      assert RefusedAt(s, ps, e.cause);
    }
    if ps, c :| RefusedAt(s, ps, c) {
      StartSplit(s, PiecesText(ps));
      Refused(trailer, ps, c, s[|PiecesText(ps)|..]);
    }
  }

  lemma Behind(t: seq<byte>, rest: seq<byte>)
    ensures Starts(t + rest, t) && (t + rest)[|t|..] == rest
  {
  }

  lemma {:induction false} LastNoError(trailer: bool, e: Ending, s: seq<byte>)
    requires e.Last? && Ends(e, s)
    ensures Run(Initial(trailer), s).verdict != Error
  {
    hide Run, HexValue, SizeText, Hex;
    var t := s[|SizeText(e.digits, e.ext)|..];
    StartSplit(s, SizeText(e.digits, e.ext));
    Sizes(trailer, e.digits, e.ext, t);
    NoBadTrailer(State(InTrailerHead, 0, 0, trailer), t);
  }

  // What is accepted: chunks, a last size line of value zero, and the lines of a trailer.

  /** A trailer line: some byte in it is neither a line feed nor a carriage return. */
  datatype Field = Field(crs: nat, first: byte, rest: seq<byte>)

  predicate LegalField(f: Field) {
    f.first != CR && f.first != LF && LF !in f.rest
  }

  function FieldText(f: Field): seq<byte> {
    Returns(f.crs) + ([f.first] + (f.rest + [LF]))
  }

  function FieldsText(fs: seq<Field>): seq<byte> {
    if fs == [] then [] else FieldText(fs[0]) + FieldsText(fs[1..])
  }

  predicate LegalFields(fs: seq<Field>) {
    forall i :: 0 <= i < |fs| ==> LegalField(fs[i])
  }

  /** A trailer, with the empty line that ends it. */
  function TrailerText(fs: seq<Field>, n: nat): seq<byte> {
    FieldsText(fs) + (Returns(n) + [LF])
  }

  const HEAD: State := State(InTrailerHead, 0, 0, true)
  const MIDDLE: State := State(InTrailerMiddle, 0, 0, true)

  lemma {:induction false} HeadReturns(n: nat, s: seq<byte>)
    ensures Run(HEAD, Returns(n) + s) == Shift([], n, Run(HEAD, s))
    decreases n
  {
    hide Run;
    var t := Returns(n) + s;
    if n == 0 {
      assert t == s;
    } else {
      assert t[1..] == Returns(n - 1) + s;
      RunStep(HEAD, t, Returns(n - 1) + s);
      HeadReturns(n - 1, s);
      ShiftShift([], 1, [], n - 1, Run(HEAD, s));
    }
  }

  lemma {:induction false} FieldRun(f: Field, s: seq<byte>)
    requires LegalField(f)
    ensures Run(HEAD, FieldText(f) + s) == Shift([], |FieldText(f)|, Run(HEAD, s))
  {
    hide Run;
    var line := f.rest + [LF] + s;
    var middle := [f.first] + line;
    assert FieldText(f) + s == Returns(f.crs) + middle;
    HeadReturns(f.crs, middle);
    assert middle[1..] == line;
    RunStep(HEAD, middle, line);
    RunLine(f.rest, s);
    ShiftShift([], 1, [], |f.rest| + 1, Run(HEAD, s));
    ShiftShift([], f.crs, [], |f.rest| + 2, Run(HEAD, s));
  }

  lemma {:induction false} TrailerRun(fs: seq<Field>, n: nat, s: seq<byte>)
    requires LegalFields(fs)
    ensures Run(HEAD, TrailerText(fs, n) + s) == Result(Complete, HEAD, [], |TrailerText(fs, n)|)
    decreases |fs|
  {
    hide Run, FieldText, LegalField;
    if fs == [] {
      var end := [LF] + s;
      assert TrailerText(fs, n) + s == Returns(n) + end;
      HeadReturns(n, end);
      assert end[1..] == s;
      RunStep(HEAD, end, s);
    } else {
      assert TrailerText(fs, n) + s == FieldText(fs[0]) + (TrailerText(fs[1..], n) + s);
      FieldRun(fs[0], TrailerText(fs[1..], n) + s);
      TrailerRun(fs[1..], n, s);
    }
  }

  /** The line in front of a trailer that does not end there. */
  lemma {:induction false} FieldRead(s: seq<byte>) returns (f: Field)
    requires Run(HEAD, s).verdict == Complete
    requires var n := LeadingReturns(s); n < |s| && s[n] != LF
    ensures LegalField(f) && Starts(s, FieldText(f))
  {
    hide Run;
    var n := LeadingReturns(s);
    var rest := s[n..];
    var line := rest[1..];
    assert s == Returns(n) + rest;
    HeadReturns(n, rest);
    RunStep(HEAD, rest, line);
    MiddleEnds(line);
    f := Field(n, rest[0], line[..FirstLf(line)]);
    FieldFront(s, f);
  }

  lemma FieldFront(s: seq<byte>, f: Field)
    requires var n := f.crs; n < |s| && s[..n] == Returns(n) && s[n] == f.first
    requires var line := s[f.crs + 1..]; |line| > |f.rest| && line[..|f.rest|] == f.rest && line[|f.rest|] == LF
    ensures Starts(s, FieldText(f))
  {
    var n := f.crs;
    assert s[..n + |f.rest| + 2] == s[..n] + ([s[n]] + (s[n + 1..][..|f.rest|] + [s[n + 1..][|f.rest|]]));
  }

  /** A trailer that is read to its end is lines and an empty line. */
  lemma {:induction false} TrailerRead(s: seq<byte>) returns (fs: seq<Field>, n: nat)
    requires Run(HEAD, s).verdict == Complete
    ensures LegalFields(fs) && Starts(s, TrailerText(fs, n))
    decreases |s|, 1
  {
    hide Run, LegalField;
    n := LeadingReturns(s);
    fs := [];
    HeadReturns(n, s[n..]);
    assert s == Returns(n) + s[n..];
    Nothing(HEAD);
    if s[n] == LF {
      assert TrailerText(fs, n) == s[..n + 1];
    } else {
      fs, n := FieldsRead(s);
    }
  }

  lemma {:induction false} FieldsRead(s: seq<byte>) returns (fs: seq<Field>, n: nat)
    requires Run(HEAD, s).verdict == Complete
    requires var n := LeadingReturns(s); n < |s| && s[n] != LF
    ensures LegalFields(fs) && Starts(s, TrailerText(fs, n))
    decreases |s|, 0
  {
    hide Run, LegalField, TrailerText;
    var f := FieldRead(s);
    FieldLong(f);
    var t := s[|FieldText(f)|..];
    StartSplit(s, FieldText(f));
    FieldRun(f, t);
    hide FieldText;
    var more, m := TrailerRead(t);
    fs, n := [f] + more, m;
    FieldsJoined(f, more, n, t);
  }

  lemma FieldLong(f: Field)
    ensures |FieldText(f)| > 0
  {
  }

  lemma FieldsJoined(f: Field, more: seq<Field>, n: nat, t: seq<byte>)
    requires Starts(t, TrailerText(more, n))
    ensures Starts(FieldText(f) + t, TrailerText([f] + more, n))
  {
    hide FieldText;
    assert ([f] + more)[1..] == more;
    assert TrailerText([f] + more, n) == FieldText(f) + TrailerText(more, n);
  }

  lemma {:induction false} MiddleEnds(s: seq<byte>)
    requires Run(MIDDLE, s).verdict != Incomplete
    ensures FirstLf(s) < |s|
    decreases |s|
  {
    if s != [] && s[0] != LF {
      MiddleEnds(s[1..]);
    }
  }

  /** The parts of a message as the decoder takes it. */
  datatype Message = Message(ps: seq<Piece>, digits: seq<byte>, ext: seq<byte>, fs: seq<Field>, n: nat)

  predicate LegalMessage(m: Message) {
    LegalPieces(m.ps) && SizeLine(m.digits, m.ext) && HexValue(m.digits) == 0 && LegalFields(m.fs)
  }

  function EndText(trailer: bool, m: Message): seq<byte> {
    SizeText(m.digits, m.ext) + if trailer then TrailerText(m.fs, m.n) else []
  }

  function MessageText(trailer: bool, m: Message): seq<byte> {
    PiecesText(m.ps) + EndText(trailer, m)
  }

  /** A message in front is decoded to its data, and nothing behind it is taken. */
  lemma {:induction false} MessageRun(trailer: bool, m: Message, s: seq<byte>)
    requires LegalMessage(m)
    ensures var r := Run(Initial(trailer), MessageText(trailer, m) + s);
            r.verdict == Complete && r.out == PiecesData(m.ps) && r.used == |MessageText(trailer, m)|
  {
    hide Run, PiecesText, SizeText, TrailerText, PiecesData, LegalPieces, LegalFields, HexValue;
    var behind := (if trailer then TrailerText(m.fs, m.n) else []) + s;
    assert MessageText(trailer, m) + s == PiecesText(m.ps) + (SizeText(m.digits, m.ext) + behind);
    PiecesRun(trailer, m.ps, SizeText(m.digits, m.ext) + behind);
    Sizes(trailer, m.digits, m.ext, behind);
    if trailer {
      TrailerRun(m.fs, m.n, s);
    }
  }

  lemma {:induction false} EndRead(trailer: bool, e: Ending, s: seq<byte>) returns (fs: seq<Field>, n: nat)
    requires e.Last? && Ends(e, s) && Run(Initial(trailer), s).verdict == Complete
    ensures LegalFields(fs) && Starts(s, EndText(trailer, Message([], e.digits, e.ext, fs, n)))
  {
    hide Run, SizeText, TrailerText, LegalFields, HexValue, Hex;
    var size := SizeText(e.digits, e.ext);
    var t := s[|size|..];
    StartSplit(s, size);
    Sizes(trailer, e.digits, e.ext, t);
    fs, n := [], 0;
    if trailer {
      fs, n := TrailerRead(t);
      StartSplit(t, TrailerText(fs, n));
      assert size + TrailerText(fs, n) == s[..|size| + |TrailerText(fs, n)|];
    } else {
      assert LegalFields([]) by { NoFields(); }
      assert size + [] == size;
    }
  }

  lemma NoFields()
    ensures LegalFields([])
  {
  }

  predicate WrittenAt(trailer: bool, s: seq<byte>, m: Message) {
    LegalMessage(m) && Starts(s, MessageText(trailer, m))
  }

  /** A run completes exactly when a message stands in front. */
  lemma {:induction false} CompleteExactly(trailer: bool, s: seq<byte>)
    ensures Run(Initial(trailer), s).verdict == Complete <==> exists m :: WrittenAt(trailer, s, m)
  {
    hide Run, Because, LegalPieces, LegalFields, Hex, HexValue, SizeText, TrailerText;
    if Run(Initial(trailer), s).verdict == Complete {
      var ps, e, rest := Stopped(trailer, s);
      PiecesRun(trailer, ps, rest);
      if e.Refusal? {
        CauseRun(trailer, e.cause, rest);
      }
      var fs, n := EndRead(trailer, e, rest);
      var m := Message(ps, e.digits, e.ext, fs, n);
      var end := EndText(trailer, m);
      assert end == EndText(trailer, Message([], e.digits, e.ext, fs, n));
      assert s[..|PiecesText(ps)| + |end|] == PiecesText(ps) + rest[..|end|];
      assert WrittenAt(trailer, s, m);
    }
    if m :| WrittenAt(trailer, s, m) {
      StartSplit(s, MessageText(trailer, m));
      MessageRun(trailer, m, s[|MessageText(trailer, m)|..]);
    }
  }
}
