/**
 * Request heads written as text, sections 3.1 and 3.2 of RFC 7230 and what the parser takes besides: the
 * parser reads the parts back, and every head it accepts is written like that.
 */
module HttpSpelling {
  import opened Bytes
  import opened HttpGrammar

  /** The bytes of `t` from `i` on, all of them below `end`. */
  predicate Stands(buf: seq<byte>, i: nat, end: nat, t: seq<byte>) {
    i + |t| <= end <= |buf| && buf[i..i + |t|] == t
  }

  lemma Parts(buf: seq<byte>, i: nat, end: nat, a: seq<byte>, b: seq<byte>)
    ensures Stands(buf, i, end, a + b) <==> Stands(buf, i, end, a) && Stands(buf, i + |a|, end, b)
  {
    if i + |a| + |b| <= end <= |buf| {
      assert buf[i..i + |a + b|] == buf[i..i + |a|] + buf[i + |a|..i + |a| + |b|];
      assert (a + b)[..|a|] == a && (a + b)[|a|..] == b;
    }
  }

  lemma Bytewise(buf: seq<byte>, i: nat, end: nat, t: seq<byte>)
    requires Stands(buf, i, end, t)
    ensures i + |t| <= end <= |buf| && forall k :: i <= k < i + |t| ==> buf[k] == t[k - i]
  {
    forall k | i <= k < i + |t| ensures buf[k] == t[k - i] {
      assert buf[i..i + |t|][k - i] == buf[k];
    }
  }

  predicate IsBlank(c: byte) {
    c == SP || c == HT
  }

  predicate AllBlank(s: seq<byte>) {
    forall k :: 0 <= k < |s| ==> IsBlank(s[k])
  }

  predicate AllSpaces(s: seq<byte>) {
    forall k :: 0 <= k < |s| ==> s[k] == SP
  }

  predicate NoCtl(s: seq<byte>) {
    forall k :: 0 <= k < |s| ==> !Ctl(s[k])
  }

  predicate IsToken(s: seq<byte>) {
    s != [] && forall k :: 0 <= k < |s| ==> TokenChar(s[k])
  }

  /** A request target: neither a control character nor a blank. */
  predicate IsTarget(s: seq<byte>) {
    s != [] && forall k :: 0 <= k < |s| ==> s[k] > SP && s[k] != DEL
  }

  /** CR LF or a bare LF. */
  function BreakText(cr: bool): seq<byte> {
    if cr then [CR, LF] else [LF]
  }

  /** A header field with the blanks around its value, or a line that continues the one before it. */
  datatype Line =
    | Named(name: seq<byte>, before: seq<byte>, value: seq<byte>, after: seq<byte>, cr: bool)
    | Folded(value: seq<byte>, after: seq<byte>, cr: bool)

  function LineText(l: Line): seq<byte> {
    match l
    case Named(name, before, value, after, cr) => name + ([COLON] + (before + (value + (after + BreakText(cr)))))
    case Folded(value, after, cr) => value + (after + BreakText(cr))
  }

  /** A value that ends where it says, whatever blanks follow. */
  predicate Trimmed(value: seq<byte>) {
    NoCtl(value) && (value != [] ==> !IsBlank(value[|value| - 1]))
  }

  predicate LegalLine(l: Line) {
    match l
    case Named(name, before, value, after, cr) =>
      && IsToken(name) && AllBlank(before) && Trimmed(value) && AllBlank(after)
      && (if value == [] then after == [] else !IsBlank(value[0]))
    case Folded(value, after, cr) =>
      Trimmed(value) && AllBlank(after) && value + after != [] && IsBlank((value + after)[0])
  }

  function LinesText(ls: seq<Line>): seq<byte> {
    if ls == [] then [] else LineText(ls[0]) + LinesText(ls[1..])
  }

  predicate LegalLines(ls: seq<Line>) {
    forall k :: 0 <= k < |ls| ==> LegalLine(ls[k])
  }

  /** A request head, behind no line break or one. */
  datatype Head = Head(lead: seq<byte>, verb: seq<byte>, gap: seq<byte>, target: seq<byte>, space: seq<byte>,
                       minor: byte, cr: bool, lines: seq<Line>, lastCr: bool)

  const VERSION: seq<byte> :=
    ['H' as byte, 'T' as byte, 'T' as byte, 'P' as byte, '/' as byte, '1' as byte, '.' as byte]

  function HeadText(h: Head): seq<byte> {
    h.lead + (LineOfRequest(h) + (LinesText(h.lines) + BreakText(h.lastCr)))
  }

  /** Method, target and version, each behind the other with spaces between. */
  function LineOfRequest(h: Head): seq<byte> {
    WordsText(h) + (VERSION + ([h.minor] + BreakText(h.cr)))
  }

  function WordsText(h: Head): seq<byte> {
    h.verb + (h.gap + (h.target + h.space))
  }

  predicate LegalHead(h: Head) {
    && h.lead in {[], [LF], [CR, LF]}
    && IsToken(h.verb) && h.gap != [] && AllSpaces(h.gap)
    && IsTarget(h.target) && h.space != [] && AllSpaces(h.space)
    && '0' as byte <= h.minor <= '9' as byte
    && LegalLines(h.lines) && (h.lines != [] ==> h.lines[0].Named?)
  }

  // Scans, from the bytes they pass over to where they stop and back.

  lemma {:induction false} TokenTo(buf: seq<byte>, i: nat, j: nat, end: nat, next: byte)
    requires i <= j < end <= |buf| && buf[j] == next && next in {SP, COLON}
    requires forall k :: i <= k < j ==> TokenChar(buf[k])
    ensures Token(buf, i, end, next) == Scan.At(j)
    decreases j - i
  {
    if i < j {
      TokenTo(buf, i + 1, j, end, next);
    }
  }

  lemma {:induction false} TargetTo(buf: seq<byte>, i: nat, j: nat, end: nat)
    requires i <= j < end <= |buf| && buf[j] == SP
    requires forall k :: i <= k < j ==> buf[k] > SP && buf[k] != DEL
    ensures Target(buf, i, end) == Scan.At(j)
    decreases j - i
  {
    if i < j {
      TargetTo(buf, i + 1, j, end);
    }
  }

  lemma {:induction false} TargetFrom(buf: seq<byte>, i: nat, end: nat)
    requires i <= end <= |buf| && Target(buf, i, end).At?
    ensures forall k :: i <= k < Target(buf, i, end).pos ==> buf[k] > SP && buf[k] != DEL
    decreases end - i
  {
    if buf[i] != SP {
      TargetFrom(buf, i + 1, end);
    }
  }

  predicate Skipped(c: byte, tabs: bool) {
    c == SP || (tabs && c == HT)
  }

  lemma {:induction false} BlanksTo(buf: seq<byte>, i: nat, j: nat, end: nat, tabs: bool)
    requires i <= j < end <= |buf| && !Skipped(buf[j], tabs)
    requires forall k :: i <= k < j ==> Skipped(buf[k], tabs)
    ensures SkipBlanks(buf, i, end, tabs) == Scan.At(j)
    decreases j - i
  {
    if i < j {
      BlanksTo(buf, i + 1, j, end, tabs);
    }
  }

  lemma {:induction false} BlanksFrom(buf: seq<byte>, i: nat, end: nat, tabs: bool)
    requires i <= end <= |buf| && SkipBlanks(buf, i, end, tabs).At?
    ensures var j := SkipBlanks(buf, i, end, tabs).pos;
            && !Skipped(buf[j], tabs)
            && forall k :: i <= k < j ==> Skipped(buf[k], tabs)
    decreases end - i
  {
    if Skipped(buf[i], tabs) {
      BlanksFrom(buf, i + 1, end, tabs);
    }
  }

  lemma {:induction false} CtlTo(buf: seq<byte>, i: nat, j: nat, end: nat)
    requires i <= j < end <= |buf| && Ctl(buf[j])
    requires forall k :: i <= k < j ==> !Ctl(buf[k])
    ensures FindCtl(buf, i, end) == Scan.At(j)
    decreases j - i
  {
    if i < j {
      CtlTo(buf, i + 1, j, end);
    }
  }

  lemma {:induction false} TrimTo(buf: seq<byte>, from: nat, j: nat, stop: nat)
    requires from <= j <= stop <= |buf| && (j > from ==> !IsBlank(buf[j - 1]))
    requires forall k :: j <= k < stop ==> IsBlank(buf[k])
    ensures TrimEnd(buf, from, stop) == j
    decreases stop
  {
    if j < stop {
      TrimTo(buf, from, j, stop - 1);
    }
  }

  lemma {:induction false} TrimFrom(buf: seq<byte>, from: nat, stop: nat)
    requires from <= stop <= |buf|
    ensures var j := TrimEnd(buf, from, stop);
            && (j > from ==> !IsBlank(buf[j - 1]))
            && forall k :: j <= k < stop ==> IsBlank(buf[k])
    decreases stop - from
  {
    if stop > from && IsBlank(buf[stop - 1]) {
      TrimFrom(buf, from, stop - 1);
    }
  }

  lemma BreakTo(buf: seq<byte>, i: nat, end: nat, cr: bool)
    requires Stands(buf, i, end, BreakText(cr))
    ensures i < end <= |buf| && (buf[i] == CR || buf[i] == LF) && LineBreak(buf, i, end) == Scan.At(i + |BreakText(cr)|)
  {
    Bytewise(buf, i, end, BreakText(cr));
  }

  lemma BreakFrom(buf: seq<byte>, i: nat, end: nat)
    requires i < end <= |buf| && LineBreak(buf, i, end).At?
    ensures Stands(buf, i, end, BreakText(buf[i] == CR)) && LineBreak(buf, i, end).pos == i + |BreakText(buf[i] == CR)|
  {
  }

  // A line of the header.

  /** The value with its trailing blanks and its line break. */
  function ValueText(value: seq<byte>, after: seq<byte>, cr: bool): seq<byte> {
    value + (after + BreakText(cr))
  }

  lemma {:induction false} ValueTo(buf: seq<byte>, i: nat, end: nat, value: seq<byte>, after: seq<byte>, cr: bool)
    requires Trimmed(value) && AllBlank(after) && Stands(buf, i, end, ValueText(value, after, cr))
    ensures Value(buf, i, end) == Done(i + |ValueText(value, after, cr)|, Span(i, |value|))
    ensures Stands(buf, i, end, value)
  {
    hide FindCtl, TrimEnd, LineBreak, Stands;
    Parts(buf, i, end, value, after + BreakText(cr));
    Parts(buf, i + |value|, end, after, BreakText(cr));
    var j := i + |value|;
    var stop := j + |after|;
    BreakTo(buf, stop, end, cr);
    Bytewise(buf, i, end, value);
    Bytewise(buf, j, end, after);
    CtlTo(buf, i, stop, end);
    TrimTo(buf, i, j, stop);
  }

  lemma {:induction false} ValueFrom(buf: seq<byte>, i: nat, end: nat) returns (after: seq<byte>, cr: bool)
    requires i <= end <= |buf| && Value(buf, i, end).Done?
    ensures var v := Value(buf, i, end); var value := buf[i..i + v.value.len];
            && v.value.start == i && i + v.value.len <= v.pos
            && Trimmed(value) && AllBlank(after)
            && v.pos == i + |ValueText(value, after, cr)| && Stands(buf, i, end, ValueText(value, after, cr))
  {
    hide FindCtl, TrimEnd, LineBreak, Stands, BreakText, Trimmed, AllBlank;
    var stop := FindCtl(buf, i, end).pos;
    var j := TrimEnd(buf, i, stop);
    cr := buf[stop] == CR;
    after := buf[j..stop];
    BreakFrom(buf, stop, end);
    TrimFrom(buf, i, stop);
    TrimmedAt(buf, i, j, stop);
    Whole(buf, i, j, end);
    Whole(buf, j, stop, end);
    Parts(buf, j, end, after, BreakText(cr));
    Parts(buf, i, end, buf[i..j], after + BreakText(cr));
  }

  lemma TrimmedAt(buf: seq<byte>, i: nat, j: nat, stop: nat)
    requires i <= j <= stop <= |buf| && (j > i ==> !IsBlank(buf[j - 1]))
    requires forall k :: i <= k < stop ==> !Ctl(buf[k])
    requires forall k :: j <= k < stop ==> IsBlank(buf[k])
    ensures Trimmed(buf[i..j]) && AllBlank(buf[j..stop])
  {
    hide Ctl;
  }

  lemma Whole(buf: seq<byte>, i: nat, j: nat, end: nat)
    requires i <= j <= end <= |buf|
    ensures Stands(buf, i, end, buf[i..j]) && |buf[i..j]| == j - i
  {
  }

  /** Where the parser says the parts of a line are that starts at `i`. */
  function HeaderAt(i: nat, l: Line): Header {
    match l
    case Named(name, before, value, after, cr) =>
      Header(true, Span(i, |name|), Span(i + |name| + 1 + |before|, |value|))
    case Folded(value, after, cr) => Header(false, Span(0, 0), Span(i, |value|))
  }

  lemma {:induction false} NameTo(buf: seq<byte>, i: nat, end: nat, name: seq<byte>, before: seq<byte>, tail: seq<byte>)
    requires IsToken(name) && AllBlank(before) && tail != [] && !IsBlank(tail[0])
    requires Stands(buf, i, end, name + ([COLON] + (before + tail)))
    ensures Name(buf, i, end) == Done(i + |name| + 1 + |before|, Span(i, |name|))
    ensures Stands(buf, i + |name| + 1 + |before|, end, tail)
  {
    hide Token, SkipBlanks, Stands;
    var c := i + |name|;
    var j := c + 1 + |before|;
    Parts(buf, i, end, name, [COLON] + (before + tail));
    Parts(buf, c, end, [COLON], before + tail);
    Parts(buf, c + 1, end, before, tail);
    Bytewise(buf, i, end, name);
    Bytewise(buf, c, end, [COLON]);
    Bytewise(buf, c + 1, end, before);
    Bytewise(buf, j, end, tail);
    TokenTo(buf, i, c, end, COLON);
    BlanksTo(buf, c + 1, j, end, true);
  }

  lemma ValueHead(value: seq<byte>, after: seq<byte>, cr: bool)
    requires if value == [] then after == [] else !IsBlank(value[0])
    ensures ValueText(value, after, cr) != [] && !IsBlank(ValueText(value, after, cr)[0])
  {
  }

  lemma TokenFirst(name: seq<byte>, tail: seq<byte>)
    requires IsToken(name)
    ensures !IsBlank((name + tail)[0]) && (name + tail)[0] != CR && (name + tail)[0] != LF
  {
  }

  lemma {:induction false} FieldOf(buf: seq<byte>, i: nat, end: nat, first: bool, p: nat, name: Span)
    requires i < end <= |buf| && !IsBlank(buf[i]) && Name(buf, i, end) == Done(p, name) && p <= end
    requires Value(buf, p, end).Done?
    ensures Field(buf, i, end, first) == Done(Value(buf, p, end).pos, Header(true, name, Value(buf, p, end).value))
  {
    hide Name, Value;
  }

  lemma NamedText(l: Line)
    requires l.Named? && LegalLine(l)
    ensures LineText(l) == l.name + ([COLON] + (l.before + ValueText(l.value, l.after, l.cr)))
    ensures |LineText(l)| == |l.name| + 1 + |l.before| + |ValueText(l.value, l.after, l.cr)|
    ensures !IsBlank(LineText(l)[0]) && LineText(l)[0] != CR && LineText(l)[0] != LF
    ensures IsToken(l.name) && AllBlank(l.before) && Trimmed(l.value) && AllBlank(l.after)
    ensures ValueText(l.value, l.after, l.cr) != [] && !IsBlank(ValueText(l.value, l.after, l.cr)[0])
  {
    TokenFirst(l.name, [COLON] + (l.before + ValueText(l.value, l.after, l.cr)));
    ValueHead(l.value, l.after, l.cr);
    hide IsToken, AllBlank, Trimmed;
  }

  lemma {:induction false} NamedTo(buf: seq<byte>, i: nat, end: nat, l: Line, first: bool)
    requires l.Named? && LegalLine(l) && Stands(buf, i, end, LineText(l))
    ensures Field(buf, i, end, first) == Done(i + |LineText(l)|, HeaderAt(i, l))
    ensures i < end <= |buf| && buf[i] != CR && buf[i] != LF
  {
    hide *;
    var tail := ValueText(l.value, l.after, l.cr);
    var p := i + |l.name| + 1 + |l.before|;
    NamedText(l);
    Bytewise(buf, i, end, LineText(l));
    NameTo(buf, i, end, l.name, l.before, tail);
    ValueTo(buf, p, end, l.value, l.after, l.cr);
    FieldOf(buf, i, end, first, p, Span(i, |l.name|));
    NamedAt(i, l);
  }

  lemma NamedAt(i: nat, l: Line)
    requires l.Named?
    ensures HeaderAt(i, l) == Header(true, Span(i, |l.name|), Span(i + |l.name| + 1 + |l.before|, |l.value|))
  {
  }

  lemma {:induction false} FoldedTo(buf: seq<byte>, i: nat, end: nat, l: Line)
    requires l.Folded? && LegalLine(l) && Stands(buf, i, end, LineText(l))
    ensures Field(buf, i, end, false) == Done(i + |LineText(l)|, HeaderAt(i, l))
    ensures i < end <= |buf| && buf[i] != CR && buf[i] != LF
  {
    assert LineText(l) == ValueText(l.value, l.after, l.cr);
    assert LineText(l)[0] == (l.value + l.after)[0];
    Bytewise(buf, i, end, LineText(l));
    hide Value, Name, Stands, AllBlank, Trimmed, ValueText;
    ValueTo(buf, i, end, l.value, l.after, l.cr);
  }

  function HeadersAt(i: nat, ls: seq<Line>): (hs: seq<Header>)
    ensures |hs| == |ls|
    decreases |ls|
  {
    if ls == [] then [] else [HeaderAt(i, ls[0])] + HeadersAt(i + |LineText(ls[0])|, ls[1..])
  }

  /** The lines of a header are read, each where it stands. */
  lemma {:induction false} LinesTo(buf: seq<byte>, i: nat, end: nat, max: nat, sofar: seq<Header>, ls: seq<Line>,
                                   cr: bool)
    requires LegalLines(ls) && (sofar == [] && ls != [] ==> ls[0].Named?) && |sofar| + |ls| <= max
    requires Stands(buf, i, end, LinesText(ls) + BreakText(cr))
    ensures Headers(buf, i, end, max, sofar)
         == Done(i + |LinesText(ls)| + |BreakText(cr)|, sofar + HeadersAt(i, ls))
    decreases |ls|
  {
    hide *;
    if ls == [] {
      NoLines(i, cr, sofar);
      BreakTo(buf, i, end, cr);
      HeadersEnd(buf, i, end, max, sofar);
    } else {
      LinesUnfold(ls, cr);
      LinesFirst(ls);
      Parts(buf, i, end, LineText(ls[0]), LinesText(ls[1..]) + BreakText(cr));
      if ls[0].Named? {
        NamedTo(buf, i, end, ls[0], sofar == []);
      } else {
        FoldedTo(buf, i, end, ls[0]);
      }
      HeadersStep(buf, i, end, max, sofar);
      LinesTo(buf, i + |LineText(ls[0])|, end, max, sofar + [HeaderAt(i, ls[0])], ls[1..], cr);
      HeadersShift(i, ls, sofar);
    }
  }

  lemma {:induction false} HeadersEnd(buf: seq<byte>, i: nat, end: nat, max: nat, sofar: seq<Header>)
    requires i < end <= |buf| && (buf[i] == CR || buf[i] == LF) && LineBreak(buf, i, end).At?
    ensures Headers(buf, i, end, max, sofar) == Done(LineBreak(buf, i, end).pos, sofar)
  {
    hide LineBreak;
  }

  lemma {:induction false} HeadersStep(buf: seq<byte>, i: nat, end: nat, max: nat, sofar: seq<Header>)
    requires i < end <= |buf| && buf[i] != CR && buf[i] != LF && |sofar| < max
    requires Field(buf, i, end, sofar == []).Done?
    ensures var f := Field(buf, i, end, sofar == []);
            Headers(buf, i, end, max, sofar) == Headers(buf, f.pos, end, max, sofar + [f.value])
  {
    hide Field;
  }

  lemma LinesFirst(ls: seq<Line>)
    requires ls != [] && LegalLines(ls)
    ensures LegalLine(ls[0]) && LegalLines(ls[1..])
  {
    hide LegalLine;
  }

  lemma NoLines(i: nat, cr: bool, sofar: seq<Header>)
    ensures LinesText([]) + BreakText(cr) == BreakText(cr) && LinesText([]) == []
    ensures sofar + HeadersAt(i, []) == sofar
  {
  }

  lemma LinesUnfold(ls: seq<Line>, cr: bool)
    requires ls != []
    ensures LinesText(ls) + BreakText(cr) == LineText(ls[0]) + (LinesText(ls[1..]) + BreakText(cr))
    ensures |LinesText(ls)| == |LineText(ls[0])| + |LinesText(ls[1..])|
  {
    hide LineText;
  }

  lemma HeadersShift(i: nat, ls: seq<Line>, sofar: seq<Header>)
    requires ls != []
    ensures sofar + [HeaderAt(i, ls[0])] + HeadersAt(i + |LineText(ls[0])|, ls[1..]) == sofar + HeadersAt(i, ls)
  {
    hide HeaderAt, LineText;
  }

  // The request line.

  predicate LegalWords(h: Head) {
    && IsToken(h.verb) && h.gap != [] && AllSpaces(h.gap)
    && IsTarget(h.target) && h.space != [] && AllSpaces(h.space)
  }

  lemma WordsParts(buf: seq<byte>, i: nat, end: nat, h: Head)
    ensures Stands(buf, i, end, WordsText(h)) <==>
            && Stands(buf, i, end, h.verb)
            && Stands(buf, i + |h.verb|, end, h.gap)
            && Stands(buf, i + |h.verb| + |h.gap|, end, h.target)
            && Stands(buf, i + |h.verb| + |h.gap| + |h.target|, end, h.space)
    ensures |WordsText(h)| == |h.verb| + |h.gap| + |h.target| + |h.space|
  {
    hide Stands;
    Parts(buf, i, end, h.verb, h.gap + (h.target + h.space));
    Parts(buf, i + |h.verb|, end, h.gap, h.target + h.space);
    Parts(buf, i + |h.verb| + |h.gap|, end, h.target, h.space);
  }

  function VerbAt(i: nat, h: Head): Span {
    Span(i, |h.verb|)
  }

  function TargetAt(i: nat, h: Head): Span {
    Span(i + |h.verb| + |h.gap|, |h.target|)
  }

  lemma {:induction false} WordsTo(buf: seq<byte>, i: nat, end: nat, h: Head)
    requires LegalWords(h) && Stands(buf, i, end, WordsText(h))
    requires i + |WordsText(h)| < end && buf[i + |WordsText(h)|] != SP
    ensures Words(buf, i, end) == Done(i + |WordsText(h)|, (VerbAt(i, h), TargetAt(i, h)))
  {
    hide Token, SkipBlanks, Target, Stands, WordsText, IsToken, AllSpaces, IsTarget;
    WordsParts(buf, i, end, h);
    var m := i + |h.verb|;
    var t := m + |h.gap|;
    var u := t + |h.target|;
    FirstOfTarget(buf, t, end, h.target);
    SpacesTo(buf, m, end, h.gap);
    SpacesTo(buf, u, end, h.space);
    VerbTo(buf, i, end, h.verb);
    TargetTextTo(buf, t, end, h.target);
  }

  lemma SpacesTo(buf: seq<byte>, i: nat, end: nat, s: seq<byte>)
    requires s != [] && AllSpaces(s) && Stands(buf, i, end, s) && i + |s| < end && buf[i + |s|] != SP
    ensures buf[i] == SP && SkipBlanks(buf, i + 1, end, false) == Scan.At(i + |s|)
  {
    Bytewise(buf, i, end, s);
    BlanksTo(buf, i + 1, i + |s|, end, false);
    hide SkipBlanks;
  }

  lemma VerbTo(buf: seq<byte>, i: nat, end: nat, verb: seq<byte>)
    requires IsToken(verb) && Stands(buf, i, end, verb) && i + |verb| < end && buf[i + |verb|] == SP
    ensures verb != [] && Token(buf, i, end, SP) == Scan.At(i + |verb|)
  {
    hide TokenChar, Token;
    Bytewise(buf, i, end, verb);
    TokenTo(buf, i, i + |verb|, end, SP);
  }

  lemma FirstOfTarget(buf: seq<byte>, i: nat, end: nat, target: seq<byte>)
    requires IsTarget(target) && Stands(buf, i, end, target)
    ensures i < end <= |buf| && buf[i] != SP
  {
    Bytewise(buf, i, end, target);
  }

  lemma TargetTextTo(buf: seq<byte>, i: nat, end: nat, target: seq<byte>)
    requires IsTarget(target) && Stands(buf, i, end, target) && i + |target| < end && buf[i + |target|] == SP
    ensures target != [] && Target(buf, i, end) == Scan.At(i + |target|)
  {
    hide Target;
    Bytewise(buf, i, end, target);
    TargetTo(buf, i, i + |target|, end);
  }

  lemma {:induction false} WordsFrom(buf: seq<byte>, i: nat, end: nat) returns (h: Head)
    requires i <= end <= |buf| && Words(buf, i, end).Done?
    ensures LegalWords(h) && Stands(buf, i, end, WordsText(h)) && Words(buf, i, end).pos == i + |WordsText(h)|
  {
    hide Token, SkipBlanks, Target, Stands, WordsText, TokenChar;
    var m := Token(buf, i, end, SP).pos;
    var t := SkipBlanks(buf, m + 1, end, false).pos;
    var u := Target(buf, t, end).pos;
    var v := SkipBlanks(buf, u + 1, end, false).pos;
    BlanksFrom(buf, m + 1, end, false);
    TargetFrom(buf, t, end);
    BlanksFrom(buf, u + 1, end, false);
    h := Head([], buf[i..m], buf[m..t], buf[t..u], buf[u..v], 0, false, [], false);
    Whole(buf, i, m, end);
    Whole(buf, m, t, end);
    Whole(buf, t, u, end);
    Whole(buf, u, v, end);
    WordsParts(buf, i, end, h);
  }

  lemma VersionTo(buf: seq<byte>, i: nat, end: nat, minor: byte)
    requires Stands(buf, i, end, VERSION + [minor]) && i + 8 < end && '0' as byte <= minor <= '9' as byte
    ensures Version(buf, i, end) == Done(i + 8, minor as nat - '0' as nat)
    ensures buf[i] != SP
  {
    var s := VERSION + [minor];
    Bytewise(buf, i, end, s);
    assert buf[i..i + 7] == s[..7] == HTTP;
    assert buf[i + 7] == s[7];
  }

  lemma VersionFrom(buf: seq<byte>, i: nat, end: nat) returns (minor: byte)
    requires i <= end <= |buf| && Version(buf, i, end).Done?
    ensures '0' as byte <= minor <= '9' as byte && Stands(buf, i, end, VERSION + [minor])
  {
    minor := buf[i + 7];
    assert buf[i..i + 8] == buf[i..i + 7] + [minor];
    assert HTTP == VERSION;
  }

  function MinorOf(h: Head): nat
    requires '0' as byte <= h.minor <= '9' as byte
  {
    h.minor as nat - '0' as nat
  }

  lemma Inner(a: seq<byte>, b: seq<byte>, c: seq<byte>, d: seq<byte>)
    ensures a + (b + (c + d)) == a + ((b + c) + d)
  {
    assert b + (c + d) == (b + c) + d;
  }

  /** Where the words, the version and the line break of a request line start. */
  lemma LineParts(buf: seq<byte>, i: nat, end: nat, h: Head)
    ensures var w := i + |WordsText(h)|;
            Stands(buf, i, end, LineOfRequest(h)) <==>
            && Stands(buf, i, end, WordsText(h))
            && Stands(buf, w, end, VERSION + [h.minor])
            && Stands(buf, w + 8, end, BreakText(h.cr))
    ensures |LineOfRequest(h)| == |WordsText(h)| + 8 + |BreakText(h.cr)|
  {
    assert |VERSION| == 7;
    hide Stands, WordsText, BreakText, VERSION;
    var w := i + |WordsText(h)|;
    Inner(WordsText(h), VERSION, [h.minor], BreakText(h.cr));
    Parts(buf, i, end, WordsText(h), (VERSION + [h.minor]) + BreakText(h.cr));
    Parts(buf, w, end, VERSION + [h.minor], BreakText(h.cr));
  }

  lemma {:induction false} RequestLineTo(buf: seq<byte>, i: nat, end: nat, h: Head)
    requires LegalWords(h) && '0' as byte <= h.minor <= '9' as byte && Stands(buf, i, end, LineOfRequest(h))
    ensures RequestLine(buf, i, end)
         == Done(i + |LineOfRequest(h)|, Request(VerbAt(i, h), TargetAt(i, h), MinorOf(h), []))
  {
    hide Words, Version, LineBreak, Stands, LegalWords, WordsText, LineOfRequest, BreakText, VERSION;
    LineParts(buf, i, end, h);
    var w := i + |WordsText(h)|;
    BreakTo(buf, w + 8, end, h.cr);
    VersionTo(buf, w, end, h.minor);
    WordsTo(buf, i, end, h);
  }

  lemma {:induction false} RequestLineFrom(buf: seq<byte>, i: nat, end: nat) returns (h: Head)
    requires i <= end <= |buf| && RequestLine(buf, i, end).Done?
    ensures LegalWords(h) && '0' as byte <= h.minor <= '9' as byte && Stands(buf, i, end, LineOfRequest(h))
    ensures RequestLine(buf, i, end).pos == i + |LineOfRequest(h)|
  {
    hide Words, Version, LineBreak, Stands, LegalWords, WordsText, LineOfRequest, BreakText, VERSION;
    var words := WordsFrom(buf, i, end);
    var w := Words(buf, i, end).pos;
    var minor := VersionFrom(buf, w, end);
    BreakFrom(buf, w + 8, end);
    h := words.(minor := minor, cr := buf[w + 8] == CR);
    SameWords(words, h);
    LineParts(buf, i, end, h);
  }

  lemma SameWords(a: Head, b: Head)
    requires a.verb == b.verb && a.gap == b.gap && a.target == b.target && a.space == b.space
    ensures WordsText(a) == WordsText(b) && (LegalWords(a) <==> LegalWords(b))
  {
    hide IsToken, IsTarget, AllSpaces;
  }

  // The header, from what was accepted to what was written.

  lemma {:induction false} NameFrom(buf: seq<byte>, i: nat, end: nat) returns (name: seq<byte>, before: seq<byte>)
    requires i <= end <= |buf| && Name(buf, i, end).Done?
    ensures IsToken(name) && AllBlank(before) && Stands(buf, i, end, name + ([COLON] + before))
    ensures Name(buf, i, end).pos == i + |name| + 1 + |before| && !IsBlank(buf[Name(buf, i, end).pos])
  {
    hide Token, SkipBlanks, Stands, TokenChar;
    var c := Token(buf, i, end, COLON).pos;
    var j := SkipBlanks(buf, c + 1, end, true).pos;
    BlanksFrom(buf, c + 1, end, true);
    name, before := buf[i..c], buf[c + 1..j];
    Whole(buf, i, c, end);
    Whole(buf, c, c + 1, end);
    assert buf[c..c + 1] == [COLON];
    Whole(buf, c + 1, j, end);
    Parts(buf, c, end, [COLON], before);
    Parts(buf, i, end, name, [COLON] + before);
  }

  lemma {:induction false} NamedFrom(buf: seq<byte>, i: nat, end: nat) returns (l: Line)
    requires i <= end <= |buf| && Name(buf, i, end).Done? && Value(buf, Name(buf, i, end).pos, end).Done?
    ensures l.Named? && LegalLine(l) && Stands(buf, i, end, LineText(l))
    ensures Value(buf, Name(buf, i, end).pos, end).pos == i + |LineText(l)|
  {
    hide *;
    var name, before := NameFrom(buf, i, end);
    var p := Name(buf, i, end).pos;
    var after, cr := ValueFrom(buf, p, end);
    var value := buf[p..p + Value(buf, p, end).value.len];
    l := Named(name, before, value, after, cr);
    NamedJoined(buf, i, end, l);
  }

  lemma TextOfNamed(l: Line)
    requires l.Named?
    ensures LineText(l) == (l.name + ([COLON] + l.before)) + ValueText(l.value, l.after, l.cr)
  {
  }

  lemma TailFirst(value: seq<byte>, after: seq<byte>, cr: bool)
    requires AllBlank(after)
    ensures ValueText(value, after, cr) != []
    ensures value != [] ==> ValueText(value, after, cr)[0] == value[0]
    ensures value == [] && after != [] ==> IsBlank(ValueText(value, after, cr)[0])
  {
  }

  lemma {:induction false} NamedJoined(buf: seq<byte>, i: nat, end: nat, l: Line)
    requires l.Named? && IsToken(l.name) && AllBlank(l.before) && Trimmed(l.value) && AllBlank(l.after)
    requires Stands(buf, i, end, l.name + ([COLON] + l.before))
    requires var p := i + |l.name| + 1 + |l.before|;
             p < |buf| && !IsBlank(buf[p]) && Stands(buf, p, end, ValueText(l.value, l.after, l.cr))
    ensures LegalLine(l) && Stands(buf, i, end, LineText(l))
    ensures |LineText(l)| == |l.name| + 1 + |l.before| + |ValueText(l.value, l.after, l.cr)|
  {
    hide IsToken, Trimmed, Stands, ValueText;
    TextOfNamed(l);
    var p := i + |l.name| + 1 + |l.before|;
    var tail := ValueText(l.value, l.after, l.cr);
    Parts(buf, i, end, l.name + ([COLON] + l.before), tail);
    Bytewise(buf, p, end, tail);
    TailFirst(l.value, l.after, l.cr);
  }

  lemma {:induction false} FoldedFrom(buf: seq<byte>, i: nat, end: nat) returns (l: Line)
    requires i < end <= |buf| && IsBlank(buf[i]) && Value(buf, i, end).Done?
    ensures l.Folded? && LegalLine(l) && Stands(buf, i, end, LineText(l))
    ensures Value(buf, i, end).pos == i + |LineText(l)|
  {
    hide Value, Stands, Trimmed;
    var after, cr := ValueFrom(buf, i, end);
    var value := buf[i..i + Value(buf, i, end).value.len];
    l := Folded(value, after, cr);
    var text := ValueText(value, after, cr);
    Bytewise(buf, i, end, text);
    assert text == (value + after) + BreakText(cr);
    assert value + after != [] ==> text[0] == (value + after)[0];
    assert value + after == [] ==> text == BreakText(cr);
  }

  lemma {:induction false} FieldFrom(buf: seq<byte>, i: nat, end: nat, first: bool) returns (l: Line)
    requires i < end <= |buf| && Field(buf, i, end, first).Done?
    ensures LegalLine(l) && Stands(buf, i, end, LineText(l)) && (first ==> l.Named?)
    ensures Field(buf, i, end, first).pos == i + |LineText(l)|
  {
    hide Name, Value, LegalLine, LineText, Stands;
    if !first && IsBlank(buf[i]) {
      l := FoldedFrom(buf, i, end);
    } else {
      l := NamedFrom(buf, i, end);
    }
  }

  lemma {:induction false} LinesFrom(buf: seq<byte>, i: nat, end: nat, max: nat, sofar: seq<Header>)
    returns (ls: seq<Line>, cr: bool)
    requires i <= end <= |buf| && |sofar| <= max && Headers(buf, i, end, max, sofar).Done?
    ensures LegalLines(ls) && (sofar == [] && ls != [] ==> ls[0].Named?) && |sofar| + |ls| <= max
    ensures Stands(buf, i, end, LinesText(ls) + BreakText(cr))
    ensures Headers(buf, i, end, max, sofar).pos == i + |LinesText(ls)| + |BreakText(cr)|
    decreases end - i
  {
    hide Field, LineBreak, BreakText, LineText, LegalLine, Stands;
    if buf[i] == CR || buf[i] == LF {
      ls, cr := [], buf[i] == CR;
      BreakFrom(buf, i, end);
      NoLines(i, cr, sofar);
    } else {
      var l := FieldFrom(buf, i, end, sofar == []);
      var f := Field(buf, i, end, sofar == []);
      var more, last := LinesFrom(buf, f.pos, end, max, sofar + [f.value]);
      ls, cr := [l] + more, last;
      assert ls[1..] == more;
      LinesUnfold(ls, cr);
      Parts(buf, i, end, LineText(l), LinesText(more) + BreakText(cr));
    }
  }

  /** The request the parser gives for a head at the start of the input. */
  function RequestAt(h: Head): Request
    requires '0' as byte <= h.minor <= '9' as byte
  {
    var i := |h.lead|;
    Request(VerbAt(i, h), TargetAt(i, h), MinorOf(h), HeadersAt(i + |LineOfRequest(h)|, h.lines))
  }

  lemma LeadTo(buf: seq<byte>, end: nat, lead: seq<byte>)
    requires lead in {[], [LF], [CR, LF]} && Stands(buf, 0, end, lead)
    requires |lead| < end && buf[|lead|] != CR && buf[|lead|] != LF
    ensures LeadingBreak(buf, end) == Scan.At(|lead|)
  {
    Bytewise(buf, 0, end, lead);
  }

  lemma LeadFrom(buf: seq<byte>, end: nat) returns (lead: seq<byte>)
    requires end <= |buf| && LeadingBreak(buf, end).At?
    ensures lead in {[], [LF], [CR, LF]} && Stands(buf, 0, end, lead) && LeadingBreak(buf, end).pos == |lead|
  {
    if buf[0] == CR || buf[0] == LF {
      BreakFrom(buf, 0, end);
      lead := BreakText(buf[0] == CR);
    } else {
      lead := [];
    }
  }

  lemma {:induction false} HeadParts(buf: seq<byte>, end: nat, h: Head)
    ensures var i := |h.lead|;
            Stands(buf, 0, end, HeadText(h)) <==>
            && Stands(buf, 0, end, h.lead)
            && Stands(buf, i, end, LineOfRequest(h))
            && Stands(buf, i + |LineOfRequest(h)|, end, LinesText(h.lines) + BreakText(h.lastCr))
    ensures |HeadText(h)| == |h.lead| + |LineOfRequest(h)| + |LinesText(h.lines)| + |BreakText(h.lastCr)|
  {
    hide Stands, LineOfRequest, LinesText, BreakText;
    var rest := LinesText(h.lines) + BreakText(h.lastCr);
    Parts(buf, 0, end, h.lead, LineOfRequest(h) + rest);
    Parts(buf, |h.lead|, end, LineOfRequest(h), rest);
  }

  lemma FirstOfVerb(buf: seq<byte>, i: nat, end: nat, h: Head)
    requires LegalWords(h) && Stands(buf, i, end, LineOfRequest(h))
    ensures i < end <= |buf| && buf[i] != CR && buf[i] != LF
  {
    hide Stands, IsTarget, AllSpaces;
    LineParts(buf, i, end, h);
    WordsParts(buf, i, end, h);
    Bytewise(buf, i, end, h.verb);
  }

  lemma {:induction false} HeadRead(buf: seq<byte>, end: nat, max: nat, h: Head)
    requires LegalHead(h) && |h.lines| <= max && Stands(buf, 0, end, HeadText(h))
    ensures ParseRequest(buf, end, max) == Done(|HeadText(h)|, RequestAt(h))
  {
    hide LeadingBreak, RequestLine, Headers, Stands, LineOfRequest, LinesText, BreakText, HeadText, IsToken, IsTarget;
    var i := |h.lead|;
    HeadParts(buf, end, h);
    FirstOfVerb(buf, i, end, h);
    LeadTo(buf, end, h.lead);
    RequestLineTo(buf, i, end, h);
    LinesTo(buf, i + |LineOfRequest(h)|, end, max, [], h.lines, h.lastCr);
    var hs := HeadersAt(i + |LineOfRequest(h)|, h.lines);
    assert [] + hs == hs;
  }

  /** Every head that the parser accepts is written like that, and nothing behind it is taken. */
  lemma {:induction false} AcceptedWritten(buf: seq<byte>, end: nat, max: nat) returns (h: Head)
    requires end <= |buf| && ParseRequest(buf, end, max).Done?
    ensures LegalHead(h) && |h.lines| <= max && Stands(buf, 0, end, HeadText(h))
    ensures ParseRequest(buf, end, max) == Done(|HeadText(h)|, RequestAt(h))
  {
    hide LeadingBreak, RequestLine, Headers, Stands, LineOfRequest, LinesText, BreakText, HeadText, IsToken, IsTarget,
         RequestAt, AllSpaces, LegalLine;
    var lead := LeadFrom(buf, end);
    var line := RequestLineFrom(buf, |lead|, end);
    var ls, cr := LinesFrom(buf, RequestLine(buf, |lead|, end).pos, end, max, []);
    h := line.(lead := lead, lines := ls, lastCr := cr);
    SameLine(line, h);
    HeadParts(buf, end, h);
    HeadRead(buf, end, max, h);
  }

  lemma SameLine(a: Head, b: Head)
    requires a.verb == b.verb && a.gap == b.gap && a.target == b.target && a.space == b.space
    requires a.minor == b.minor && a.cr == b.cr
    ensures LineOfRequest(a) == LineOfRequest(b) && (LegalWords(a) <==> LegalWords(b))
  {
    SameWords(a, b);
    hide WordsText, LegalWords;
  }

  /** The bytes at a span. */
  predicate Holds(buf: seq<byte>, s: Span, t: seq<byte>) {
    s.start + s.len <= |buf| && buf[s.start..s.start + s.len] == t
  }

  predicate HoldsLine(buf: seq<byte>, h: Header, l: Line) {
    && (h.named <==> l.Named?) && Holds(buf, h.value, l.value)
    && (l.Named? ==> Holds(buf, h.name, l.name))
  }

  lemma {:induction false} LineHeld(buf: seq<byte>, i: nat, end: nat, l: Line)
    requires Stands(buf, i, end, LineText(l))
    ensures HoldsLine(buf, HeaderAt(i, l), l)
  {
    hide Stands;
    match l
    case Named(name, before, value, after, cr) =>
      Parts(buf, i, end, name, [COLON] + (before + (value + (after + BreakText(cr)))));
      Parts(buf, i + |name|, end, [COLON], before + (value + (after + BreakText(cr))));
      Parts(buf, i + |name| + 1, end, before, value + (after + BreakText(cr)));
      Parts(buf, i + |name| + 1 + |before|, end, value, after + BreakText(cr));
      HeldWhole(buf, i, end, name);
      HeldWhole(buf, i + |name| + 1 + |before|, end, value);
    case Folded(value, after, cr) =>
      Parts(buf, i, end, value, after + BreakText(cr));
      HeldWhole(buf, i, end, value);
  }

  lemma HeldWhole(buf: seq<byte>, i: nat, end: nat, t: seq<byte>)
    requires Stands(buf, i, end, t)
    ensures Holds(buf, Span(i, |t|), t)
  {
  }

  lemma {:induction false} LinesHeld(buf: seq<byte>, i: nat, end: nat, ls: seq<Line>, cr: bool)
    requires Stands(buf, i, end, LinesText(ls) + BreakText(cr))
    ensures forall k :: 0 <= k < |ls| ==> HoldsLine(buf, HeadersAt(i, ls)[k], ls[k])
    decreases |ls|
  {
    hide Stands, LineText, HeaderAt, HoldsLine, BreakText;
    if ls != [] {
      LinesUnfold(ls, cr);
      Parts(buf, i, end, LineText(ls[0]), LinesText(ls[1..]) + BreakText(cr));
      LineHeld(buf, i, end, ls[0]);
      LinesHeld(buf, i + |LineText(ls[0])|, end, ls[1..], cr);
    }
  }

  /** At the spans of `r` stand the parts of `h`. */
  predicate HoldsParts(buf: seq<byte>, r: Request, h: Head) {
    && Holds(buf, r.verb, h.verb) && Holds(buf, r.target, h.target)
    && r.minorVersion == h.minor as int - '0' as int
    && |r.headers| == |h.lines|
    && forall k :: 0 <= k < |h.lines| ==> HoldsLine(buf, r.headers[k], h.lines[k])
  }

  lemma {:induction false} PartsHeld(buf: seq<byte>, end: nat, h: Head)
    requires Stands(buf, 0, end, HeadText(h)) && '0' as byte <= h.minor <= '9' as byte
    ensures HoldsParts(buf, RequestAt(h), h)
  {
    var i := |h.lead|;
    hide Stands, LineOfRequest, LinesText, BreakText, HeadText, WordsText, HoldsLine, Holds;
    HeadParts(buf, end, h);
    LineParts(buf, i, end, h);
    WordsParts(buf, i, end, h);
    HeldWhole(buf, i, end, h.verb);
    HeldWhole(buf, i + |h.verb| + |h.gap|, end, h.target);
    LinesHeld(buf, i + |LineOfRequest(h)|, end, h.lines, h.lastCr);
  }

  /**
   * A request head that is written is read back: the parse is done behind its last line break, and at the
   * spans stand the method, the target, the names of the fields and their values without blanks around them.
   */
  lemma {:induction false} WrittenRead(buf: seq<byte>, end: nat, max: nat, h: Head)
    requires LegalHead(h) && |h.lines| <= max && Stands(buf, 0, end, HeadText(h))
    ensures var r := ParseRequest(buf, end, max); r.Done? && r.pos == |HeadText(h)| && HoldsParts(buf, r.value, h)
  {
    MinorDigit(h);
    hide *;
    HeadRead(buf, end, max, h);
    PartsHeld(buf, end, h);
  }

  lemma MinorDigit(h: Head)
    requires LegalHead(h)
    ensures '0' as byte <= h.minor <= '9' as byte
  {
  }

  /** The characters of a token beside digits and letters, as section 3.2.6 of RFC 7230 lists them. */
  const TOKEN_MARKS: string := "!#$%&'*+-.^_`|~"

  lemma TokenChars(c: byte)
    ensures TokenChar(c) <==>
            || c as char in TOKEN_MARKS
            || '0' <= c as char <= '9' || 'A' <= c as char <= 'Z' || 'a' <= c as char <= 'z'
  {
    if c as char in TOKEN_MARKS {
      var k :| 0 <= k < |TOKEN_MARKS| && TOKEN_MARKS[k] == c as char;
    } else {
      assert forall k :: 0 <= k < |TOKEN_MARKS| ==> TOKEN_MARKS[k] != c as char;
    }
  }
}
