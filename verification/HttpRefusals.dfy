/** Request heads that are refused at a byte, whatever follows it. */
module HttpRefusals {
  import opened Bytes
  import opened HttpGrammar
  import opened HttpSpelling

  predicate AllToken(s: seq<byte>) {
    forall k :: 0 <= k < |s| ==> TokenChar(s[k])
  }

  lemma {:induction false} TokenBad(buf: seq<byte>, i: nat, j: nat, end: nat, next: byte)
    requires i <= j < end <= |buf| && buf[j] != next && !TokenChar(buf[j])
    requires next in {SP, COLON} && forall k :: i <= k < j ==> TokenChar(buf[k])
    ensures Token(buf, i, end, next) == Bad
    decreases j - i
  {
    if i < j {
      TokenBad(buf, i + 1, j, end, next);
    }
  }

  lemma {:induction false} TargetBad(buf: seq<byte>, i: nat, j: nat, end: nat)
    requires i <= j < end <= |buf| && (buf[j] < SP || buf[j] == DEL)
    requires forall k :: i <= k < j ==> buf[k] > SP && buf[k] != DEL
    ensures Target(buf, i, end) == Bad
    decreases j - i
  {
    if i < j {
      TargetBad(buf, i + 1, j, end);
    }
  }

  /** A byte in the method that is no token character. */
  lemma {:induction false} BadVerb(buf: seq<byte>, end: nat, max: nat, verb: seq<byte>, b: byte)
    requires AllToken(verb) && Stands(buf, 0, end, verb + [b]) && !TokenChar(b) && b != SP
    requires verb == [] ==> b != CR && b != LF
    ensures ParseRequest(buf, end, max) == Invalid
  {
    Bytewise(buf, 0, end, verb + [b]);
    assert buf[|verb|] == (verb + [b])[|verb|] == b;
    TokenBad(buf, 0, |verb|, end, SP);
    hide TokenChar, Headers, Version, Target, SkipBlanks, Token;
  }

  /** A control character in the request target. */
  lemma {:induction false} BadTarget(buf: seq<byte>, end: nat, max: nat, h: Head, b: byte)
    requires LegalWords(h) && (b < SP || b == DEL)
    requires Stands(buf, 0, end, h.verb + (h.gap + (h.target + [b])))
    ensures ParseRequest(buf, end, max) == Invalid
  {
    var m := |h.verb|;
    var t := m + |h.gap|;
    Parts(buf, 0, end, h.verb, h.gap + (h.target + [b]));
    Parts(buf, m, end, h.gap, h.target + [b]);
    Parts(buf, t, end, h.target, [b]);
    hide Stands, Headers, Version, Target, SkipBlanks, Token, TokenChar;
    Bytewise(buf, 0, end, h.verb);
    Bytewise(buf, m, end, h.gap);
    Bytewise(buf, t, end, h.target);
    Bytewise(buf, t + |h.target|, end, [b]);
    VerbFirst(h.verb);
    TokenTo(buf, 0, m, end, SP);
    BlanksTo(buf, m + 1, t, end, false);
    TargetBad(buf, t, t + |h.target|, end);
  }

  lemma VerbFirst(verb: seq<byte>)
    requires IsToken(verb)
    ensures verb != [] && verb[0] != CR && verb[0] != LF
  {
  }

  predicate IsVersion(s: seq<byte>)
    requires |s| >= 8
  {
    s[..7] == VERSION && '0' as byte <= s[7] <= '9' as byte
  }

  /** Another version than HTTP/1 and a digit, once nine bytes are there. */
  lemma {:induction false} BadVersion(buf: seq<byte>, end: nat, max: nat, h: Head, version: seq<byte>)
    requires LegalWords(h) && |version| >= 9 && version[0] != SP && !IsVersion(version)
    requires Stands(buf, 0, end, WordsText(h) + version)
    ensures ParseRequest(buf, end, max) == Invalid
  {
    var w := |WordsText(h)|;
    hide Stands, WordsText, Headers, Words, IsToken, IsTarget, AllSpaces;
    Parts(buf, 0, end, WordsText(h), version);
    WordsParts(buf, 0, end, h);
    Bytewise(buf, 0, end, h.verb);
    VerbFirst(h.verb);
    Bytewise(buf, w, end, version);
    WordsTo(buf, 0, end, h);
    VersionBad(buf, w, end, version);
    hide Version;
  }

  lemma VersionBad(buf: seq<byte>, i: nat, end: nat, version: seq<byte>)
    requires |version| >= 9 && !IsVersion(version) && Stands(buf, i, end, version)
    ensures Version(buf, i, end) == Invalid
  {
    Bytewise(buf, i, end, version);
    assert buf[i..i + 7] == version[..7];
    assert VERSION == HTTP;
  }

  /** A line of the header up to the byte at which it is refused. */
  datatype BadLine =
    | BadName(name: seq<byte>, b: byte)
    | BadValue(name: seq<byte>, before: seq<byte>, value: seq<byte>, b: byte)
    | BadFold(value: seq<byte>, b: byte)

  function BadText(l: BadLine): seq<byte> {
    match l
    case BadName(name, b) => name + [b]
    case BadValue(name, before, value, b) => name + ([COLON] + (before + (value + [b])))
    case BadFold(value, b) => value + [b]
  }

  predicate BreaksNothing(b: byte) {
    Ctl(b) && b != CR && b != LF
  }

  /**
   * A name that is empty or holds another character than a token may, or a value with a control character; a
   * line that continues the one before it starts with a blank.
   */
  predicate Refused(l: BadLine, first: bool) {
    match l
    case BadName(name, b) =>
      && AllToken(name) && !TokenChar(b)
      && (b == COLON ==> name == [])
      && (name == [] ==> b != CR && b != LF && (first || !IsBlank(b)))
    case BadValue(name, before, value, b) =>
      && IsToken(name) && AllBlank(before) && NoCtl(value) && (value != [] ==> !IsBlank(value[0]))
      && BreaksNothing(b)
    case BadFold(value, b) =>
      !first && value != [] && IsBlank(value[0]) && NoCtl(value) && BreaksNothing(b)
  }

  lemma {:induction false} ValueBad(buf: seq<byte>, i: nat, end: nat, value: seq<byte>, b: byte)
    requires NoCtl(value) && BreaksNothing(b) && Stands(buf, i, end, value + [b])
    ensures Value(buf, i, end) == Invalid
  {
    Bytewise(buf, i, end, value + [b]);
    assert buf[i + |value|] == (value + [b])[|value|] == b;
    CtlTo(buf, i, i + |value|, end);
    hide FindCtl, TrimEnd;
  }

  lemma {:induction false} FoldBad(buf: seq<byte>, i: nat, end: nat, l: BadLine)
    requires l.BadFold? && Refused(l, false) && Stands(buf, i, end, BadText(l))
    ensures i < end <= |buf| && buf[i] != CR && buf[i] != LF && Field(buf, i, end, false) == Invalid
  {
    Bytewise(buf, i, end, BadText(l));
    ValueBad(buf, i, end, l.value, l.b);
    hide Value, Name;
  }

  lemma {:induction false} NameBad(buf: seq<byte>, i: nat, end: nat, l: BadLine, first: bool)
    requires l.BadName? && Refused(l, first) && Stands(buf, i, end, BadText(l))
    ensures i < end <= |buf| && buf[i] != CR && buf[i] != LF && Field(buf, i, end, first) == Invalid
  {
    var c := i + |l.name|;
    Bytewise(buf, i, end, BadText(l));
    assert buf[c] == BadText(l)[|l.name|] == l.b;
    NameFirst(l, first);
    if l.b == COLON {
      TokenTo(buf, i, c, end, COLON);
    } else {
      TokenBad(buf, i, c, end, COLON);
    }
    hide Value, Token, SkipBlanks, TokenChar, Refused;
  }

  lemma NameFirst(l: BadLine, first: bool)
    requires l.BadName? && Refused(l, first)
    ensures var b := BadText(l)[0]; b != CR && b != LF && (first || !IsBlank(b))
  {
  }

  lemma {:induction false} NamedBad(buf: seq<byte>, i: nat, end: nat, l: BadLine, first: bool)
    requires l.BadValue? && Refused(l, first) && Stands(buf, i, end, BadText(l))
    ensures i < end <= |buf| && buf[i] != CR && buf[i] != LF && Field(buf, i, end, first) == Invalid
  {
    var tail := l.value + [l.b];
    var p := i + |l.name| + 1 + |l.before|;
    TailNotBlank(l, first);
    Bytewise(buf, i, end, BadText(l));
    TokenFirst(l.name, [COLON] + (l.before + tail));
    NameTo(buf, i, end, l.name, l.before, tail);
    ValueBad(buf, p, end, l.value, l.b);
    hide Name, Value, Refused, Stands;
  }

  lemma TailNotBlank(l: BadLine, first: bool)
    requires l.BadValue? && Refused(l, first)
    ensures !IsBlank((l.value + [l.b])[0])
  {
  }

  lemma {:induction false} FieldBad(buf: seq<byte>, i: nat, end: nat, l: BadLine, first: bool)
    requires Refused(l, first) && Stands(buf, i, end, BadText(l))
    ensures i < end <= |buf| && buf[i] != CR && buf[i] != LF && Field(buf, i, end, first) == Invalid
  {
    assert l.BadFold? ==> !first;
    hide Field, Stands, BadText, Refused;
    match l
    case BadName(name, b) => NameBad(buf, i, end, l, first);
    case BadValue(name, before, value, b) => NamedBad(buf, i, end, l, first);
    case BadFold(value, b) => FoldBad(buf, i, end, l);
  }

  /** Behind some lines the header goes on where they end. */
  lemma {:induction false} LinesThen(buf: seq<byte>, i: nat, end: nat, max: nat, sofar: seq<Header>, ls: seq<Line>)
    requires LegalLines(ls) && (sofar == [] && ls != [] ==> ls[0].Named?) && |sofar| + |ls| <= max
    requires Stands(buf, i, end, LinesText(ls))
    ensures Headers(buf, i, end, max, sofar) == Headers(buf, i + |LinesText(ls)|, end, max, sofar + HeadersAt(i, ls))
    decreases |ls|
  {
    hide Field, LineBreak, LineText, LegalLine, HeaderAt, Stands;
    if ls == [] {
      assert sofar + HeadersAt(i, ls) == sofar;
    } else {
      assert LinesText(ls) == LineText(ls[0]) + LinesText(ls[1..]);
      Parts(buf, i, end, LineText(ls[0]), LinesText(ls[1..]));
      if ls[0].Named? {
        NamedTo(buf, i, end, ls[0], sofar == []);
      } else {
        FoldedTo(buf, i, end, ls[0]);
      }
      LinesThen(buf, i + |LineText(ls[0])|, end, max, sofar + [HeaderAt(i, ls[0])], ls[1..]);
      HeadersShift(i, ls, sofar);
    }
  }

  /** Why a header is refused behind its lines: a bad line, or one line more than there is room for. */
  predicate LinesEnd(buf: seq<byte>, i: nat, end: nat, max: nat, ls: seq<Line>, l: BadLine) {
    || (|ls| < max && Refused(l, ls == []) && Stands(buf, i, end, BadText(l)))
    || (|ls| == max && i < end <= |buf| && buf[i] != CR && buf[i] != LF)
  }

  lemma {:induction false} LinesBad(buf: seq<byte>, i: nat, end: nat, max: nat, ls: seq<Line>, l: BadLine)
    requires LegalLines(ls) && (ls != [] ==> ls[0].Named?)
    requires Stands(buf, i, end, LinesText(ls)) && LinesEnd(buf, i + |LinesText(ls)|, end, max, ls, l)
    ensures Headers(buf, i, end, max, []) == Invalid
  {
    hide Stands, Refused, LinesText, LegalLines, HeadersAt, Field, BadText;
    LinesThen(buf, i, end, max, [], ls);
    var j, hs := i + |LinesText(ls)|, HeadersAt(i, ls);
    assert [] + hs == hs;
    if |ls| < max {
      FieldBad(buf, j, end, l, ls == []);
    }
    HeadersStop(buf, j, end, max, hs);
  }

  lemma {:induction false} HeadersStop(buf: seq<byte>, i: nat, end: nat, max: nat, hs: seq<Header>)
    requires i < end <= |buf| && buf[i] != CR && buf[i] != LF
    requires |hs| == max || Field(buf, i, end, hs == []) == Invalid
    ensures Headers(buf, i, end, max, hs) == Invalid
  {
    hide Field, LineBreak;
  }

  /** A head whose request line is written and whose header is refused. */
  lemma {:induction false} BadHeader(buf: seq<byte>, end: nat, max: nat, h: Head, l: BadLine)
    requires LegalHead(h) && h.lead == [] && Stands(buf, 0, end, LineOfRequest(h) + LinesText(h.lines))
    requires LinesEnd(buf, |LineOfRequest(h)| + |LinesText(h.lines)|, end, max, h.lines, l)
    ensures ParseRequest(buf, end, max) == Invalid
  {
    hide RequestLine, Headers, Stands, LineOfRequest, LinesText, IsToken, IsTarget, LinesEnd, LegalLines;
    var i := |LineOfRequest(h)|;
    Parts(buf, 0, end, LineOfRequest(h), LinesText(h.lines));
    FirstOfVerb(buf, 0, end, h);
    RequestLineTo(buf, 0, end, h);
    LinesBad(buf, i, end, max, h.lines, l);
  }
}
