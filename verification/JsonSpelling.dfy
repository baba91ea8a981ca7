/**
 * Any legal spelling of a tree, section 2 to 7 of RFC 8259, and what the parser makes of it: any character
 * of a string raw or by any escape of it, any blanks around the tokens.
 */
module JsonSpelling {
  import opened Json
  import opened JsonGrammar
  import opened JsonUnicode
  import JsonRoundTrip

  const DIGITS: string := "0123456789abcdef"
  const UPPER_DIGITS: string := "0123456789ABCDEF"

  /** The hex digits in order of their values, in either case, and no others. */
  lemma HexDigits(c: char, v: nat)
    requires v < 16
    ensures HexDigit(c) == v <==> c == DIGITS[v] || c == UPPER_DIGITS[v]
  {
  }

  /** The letters of the short escapes and the code points they stand for, in the order of RFC 8259. */
  const ESCAPES: string := "\"\\/bfnrt"
  const CODES: seq<nat> := [0x22, 0x5C, 0x2F, 0x08, 0x0C, 0x0A, 0x0D, 0x09]

  lemma ShortEscapes(e: char)
    ensures forall i :: 0 <= i < |ESCAPES| && e == ESCAPES[i] ==> Unescaped(e) == [CODES[i] as char]
    ensures e !in ESCAPES ==> Unescaped(e) == ""
  {
    if e in ESCAPES {
      var i :| 0 <= i < |ESCAPES| && e == ESCAPES[i];
      assert Unescaped(ESCAPES[i]) == [CODES[i] as char];
    }
  }

  /** A character of a string as it is, by the short escape of the table at `index`, or by its code. */
  datatype Piece = Raw(c: char) | Short(index: Letter) | Unicode(escape: string, code: Character)

  type Letter = i: nat | i < 8

  type Character = c: nat | Scalar(c)

  predicate LegalPiece(p: Piece) {
    match p
    case Raw(c) => c != '\"' && c != '\\'
    case Short(index) => true
    case Unicode(escape, code) => Escapes(escape, code)
  }

  function PieceText(p: Piece): string {
    match p
    case Raw(c) => [c]
    case Short(index) => ['\\', ESCAPES[index]]
    case Unicode(escape, code) => escape
  }

  /** The bytes of the character. */
  function PieceBytes(p: Piece): string {
    match p
    case Raw(c) => [c]
    case Short(index) => [CODES[index] as char]
    case Unicode(escape, code) => Utf8(code)
  }

  predicate LegalPieces(ps: seq<Piece>) {
    forall i :: 0 <= i < |ps| ==> LegalPiece(ps[i])
  }

  function PiecesText(ps: seq<Piece>): string {
    if ps == [] then "" else PieceText(ps[0]) + PiecesText(ps[1..])
  }

  function PiecesBytes(ps: seq<Piece>): string {
    if ps == [] then "" else PieceBytes(ps[0]) + PiecesBytes(ps[1..])
  }

  /** A spelled string. */
  function StringText(ps: seq<Piece>): string {
    "\"" + PiecesText(ps) + "\""
  }

  /** What the reader of a C string sees of it: everything, if no character is U+0000. */
  function StringValue(ps: seq<Piece>): string {
    CString(PiecesBytes(ps))
  }

  lemma WholeString(ps: seq<Piece>)
    requires '\0' !in PiecesBytes(ps)
    ensures StringValue(ps) == PiecesBytes(ps)
  {
    var s := PiecesBytes(ps);
    JsonRoundTrip.CStringWhole(s, |s|);
    assert s[..|s|] == s;
  }

  /** A piece at the front of `t`, with `s` behind it. */
  predicate Front(p: Piece, t: string, s: string) {
    LegalPiece(p) && t == PieceText(p) + s
  }

  lemma {:induction false} FourPlain(h: string, s: string)
    requires |h| == 4 && forall i :: 0 <= i < 4 ==> h[i] != '\"' && h[i] != '\\'
    ensures StringEnd(h + s) == Later(StringEnd(s), 4)
  {
    var t := h + s;
    assert t[1..][1..][1..][1..] == s;
    assert t[1..][0] == h[1] && t[1..][1..][0] == h[2] && t[1..][1..][1..][0] == h[3];
    EndOfPlain(t);
    EndOfPlain(t[1..]);
    EndOfPlain(t[1..][1..]);
    EndOfPlain(t[1..][1..][1..]);
    hide StringEnd;
  }

  function Later(r: Parsed<nat>, n: nat): Parsed<nat> {
    if r.Got? then Got(r.value + n, 0) else Fail
  }

  lemma {:induction false} EndOfPlain(t: string)
    requires t != "" && t[0] != '\"' && t[0] != '\\'
    ensures StringEnd(t) == Later(StringEnd(t[1..]), 1)
  {
  }

  lemma {:induction false} EndOfEscape(t: string)
    requires |t| >= 2 && t[0] == '\\'
    ensures StringEnd(t) == Later(StringEnd(t[2..]), 2)
  {
  }

  /** No closing quote is seen inside an escape. */
  lemma {:induction false} EndOfUnit(h: string, v: nat, s: string)
    requires Spells(h, v)
    ensures StringEnd("\\u" + h + s) == Later(StringEnd(s), 6)
  {
    var t := "\\u" + h + s;
    assert t[2..] == h + s;
    EndOfEscape(t);
    FourPlain(h, s);
    hide StringEnd;
  }

  lemma {:induction false} EndOfUnicode(e: string, code: nat, s: string)
    requires Scalar(code) && Escapes(e, code)
    ensures StringEnd(e + s) == Later(StringEnd(s), |e|)
  {
    hide Spells, StringEnd, Scalar;
    if code < 0x10000 {
      EndOfUnit(e[2..], code, s);
      assert e + s == "\\u" + e[2..] + s;
    } else {
      EndOfUnit(e[8..], LowHalf(code), s);
      EndOfUnit(e[2..6], High(code), "\\u" + e[8..] + s);
      assert e == "\\u" + e[2..6] + ("\\u" + e[8..]);
      assert e + s == "\\u" + e[2..6] + ("\\u" + e[8..] + s);
    }
  }

  lemma {:induction false} EndOfPiece(p: Piece, t: string, s: string)
    requires Front(p, t, s)
    ensures StringEnd(t) == Later(StringEnd(s), |PieceText(p)|)
  {
    hide StringEnd, Escapes, Scalar;
    assert t[|PieceText(p)|..] == s;
    match p
    case Raw(c) => EndOfPlain(t);
    case Short(index) => EndOfEscape(t);
    case Unicode(escape, code) => EndOfUnicode(escape, code, s);
  }

  function Before(bytes: string, r: Parsed<string>): Parsed<string> {
    if r.Got? then Got(bytes + r.value, 0) else Fail
  }

  lemma {:induction false} RawDecoded(t: string, left: nat)
    requires 0 < left < |t| && t[0] != '\\'
    ensures Decode(t, left) == Before([t[0]], Decode(t[1..], left - 1))
  {
  }

  lemma {:induction false} ShortDecoded(t: string, left: nat)
    requires 1 < left < |t| && t[0] == '\\' && t[1] != 'u' && Unescaped(t[1]) != ""
    ensures Decode(t, left) == Before(Unescaped(t[1]), Decode(t[2..], left - 2))
  {
    hide Unescaped;
  }

  lemma {:induction false} PieceDecoded(p: Piece, t: string, s: string, left: nat)
    requires Front(p, t, s) && left < |s|
    ensures Decode(t, |PieceText(p)| + left) == Before(PieceBytes(p), Decode(s, left))
  {
    hide Decode, Escapes, Scalar, Unescaped, Utf8;
    assert t[|PieceText(p)|..] == s;
    match p
    case Raw(c) => RawDecoded(t, 1 + left);
    case Short(index) =>
      ShortEscapes(ESCAPES[index]);
      ShortDecoded(t, 2 + left);
    case Unicode(escape, code) => EscapeDecoded(escape, code, s, left);
  }

  /** The closing quote of spelled characters is found, and their bytes come out. */
  lemma {:induction false} PiecesRead(ps: seq<Piece>, rest: string)
    requires LegalPieces(ps)
    ensures StringEnd(PiecesText(ps) + ("\"" + rest)) == Got(|PiecesText(ps)|, 0)
    ensures Decode(PiecesText(ps) + ("\"" + rest), |PiecesText(ps)|) == Got(PiecesBytes(ps), 0)
    decreases |ps|
  {
    var t := PiecesText(ps) + ("\"" + rest);
    if ps != [] {
      hide *;
      PiecesUnfold(ps, rest);
      var s := PiecesText(ps[1..]) + ("\"" + rest);
      PiecesRead(ps[1..], rest);
      EndOfPiece(ps[0], t, s);
      PieceDecoded(ps[0], t, s, |PiecesText(ps[1..])|);
      LaterGot(|PiecesText(ps[1..])|, |PieceText(ps[0])|, PieceBytes(ps[0]), PiecesBytes(ps[1..]));
    }
  }

  lemma LaterGot(i: nat, n: nat, before: string, bytes: string)
    ensures Later(Got(i, 0), n) == Got(i + n, 0)
    ensures Before(before, Got(bytes, 0)) == Got(before + bytes, 0)
  {
  }

  lemma {:induction false} PiecesUnfold(ps: seq<Piece>, rest: string)
    requires LegalPieces(ps) && ps != []
    ensures LegalPieces(ps[1..]) && LegalPiece(ps[0])
    ensures |PiecesText(ps)| == |PieceText(ps[0])| + |PiecesText(ps[1..])|
    ensures PiecesBytes(ps) == PieceBytes(ps[0]) + PiecesBytes(ps[1..])
    ensures Front(ps[0], PiecesText(ps) + ("\"" + rest), PiecesText(ps[1..]) + ("\"" + rest))
    ensures |PiecesText(ps[1..])| < |PiecesText(ps[1..]) + ("\"" + rest)|
  {
    hide PieceText, PieceBytes, LegalPiece;
  }

  /** However a string is spelled, it is read as its characters. */
  lemma {:induction false} SpelledString(ps: seq<Piece>, rest: string)
    requires LegalPieces(ps)
    ensures ParseString(StringText(ps) + rest) == Got(StringValue(ps), |StringText(ps)|)
  {
    hide StringEnd, Decode, CString, PiecesText, PiecesBytes;
    PiecesRead(ps, rest);
    var s := StringText(ps) + rest;
    assert s[1..] == PiecesText(ps) + ("\"" + rest);
  }

  // The other way round: what a string that is read looks like.

  /** Four characters behind a `\u` that are not all hex digits. */
  predicate BadUnit(s: string) {
    |s| >= 6 && s[0] == '\\' && s[1] == 'u' && exists i :: 2 <= i < 6 && HexDigit(s[i]) == -1
  }

  /** Somewhere in the text a `\u` stands in front of something else than four hex digits. */
  predicate Broken(s: string) {
    exists k :: 0 <= k < |s| && BadUnit(s[k..])
  }

  predicate Starts(s: string, t: string) {
    |t| <= |s| && s[..|t|] == t
  }

  lemma StartsSplit(s: string, t: string)
    requires Starts(s, t)
    ensures s == t + s[|t|..]
  {
  }

  lemma StartsBoth(s: string, a: string, b: string)
    requires Starts(s, a) && Starts(s[|a|..], b)
    ensures Starts(s, a + b)
  {
    assert s[..|a + b|] == s[..|a|] + s[|a|..][..|b|];
  }

  /** The digits of a `\u` are good, or it is a broken one. */
  lemma GoodUnit(s: string)
    requires |s| >= 6 && s[0] == '\\' && s[1] == 'u' && !BadUnit(s)
    ensures Spells(s[2..6], Hex4(s[2..]))
  {
    var t, h := s[2..], s[2..6];
    assert h[0] == t[0] == s[2] && h[1] == t[1] == s[3] && h[2] == t[2] == s[4] && h[3] == t[3] == s[5];
  }

  lemma NotZero(s: string)
    requires |s| >= 4 && Hex4(s) != 0
    ensures Spells(s[..4], Hex4(s))
  {
  }

  /** A `\u` that is read is an escape of what is read, unless it is a broken one. */
  lemma {:induction false} EscapeWritten(s: string, left: nat)
    requires left <= |s| && |s| >= 2 && s[0] == '\\' && s[1] == 'u' && !BadUnit(s)
    requires Utf16Literal(s, left).Got?
    ensures var u := Utf16Literal(s, left); Escapes(s[..u.used], u.value)
  {
    GoodUnit(s);
    var u := Utf16Literal(s, left);
    var first := Hex4(s[2..]);
    assert s[..u.used][..2] == "\\u";
    if u.used == 12 {
      var second := Hex4(s[8..]);
      NotZero(s[8..]);
      assert s[..12][2..6] == s[2..6] && s[..12][6..8] == "\\u" && s[..12][8..] == s[8..][..4];
      PairHalves(first, second);
      hide Hex4, Spells;
    } else {
      assert s[..6][2..] == s[2..6];
      hide Hex4, Spells;
    }
  }

  lemma PairHalves(first: nat, second: nat)
    requires HighSurrogate(first) && LowSurrogate(second)
    ensures var code := 0x10000 + (first % 0x400) * 0x400 + second % 0x400;
            0x10000 <= code <= 0x10FFFF && High(code) == first && LowHalf(code) == second
  {
    assert first % 0x400 == first - 0xD800 && second % 0x400 == second - 0xDC00;
  }

  /** The next piece of a string that is read, or a broken `\u`. */
  lemma {:induction false} PieceWritten(s: string, left: nat) returns (p: Piece)
    requires 0 < left < |s| && StringEnd(s) == Got(left, 0) && DecodeOne(s, left).Got? && !BadUnit(s)
    ensures var one := DecodeOne(s, left);
            LegalPiece(p) && one.used <= left && PieceText(p) == s[..one.used] && PieceBytes(p) == one.value
  {
    hide Escapes, Utf8, Utf16Literal;
    if s[0] != '\\' {
      p := Raw(s[0]);
      assert s[0] != '\"';
    } else if s[1] == 'u' {
      EscapeWritten(s, left);
      var u := Utf16Literal(s, left);
      p := Unicode(s[..u.used], u.value);
    } else {
      var i := ShortIndex(s[1]);
      p := Short(i);
      assert s[..2] == [s[0], s[1]];
      TwoBefore(s, left);
    }
  }

  lemma TwoBefore(s: string, left: nat)
    requires |s| >= 2 && s[0] == '\\' && StringEnd(s) == Got(left, 0)
    ensures left >= 2
  {
  }

  lemma ShortIndex(e: char) returns (i: Letter)
    requires Unescaped(e) != ""
    ensures e == ESCAPES[i] && Unescaped(e) == [CODES[i] as char]
  {
    ShortEscapes(e);
    i :| 0 <= i < |ESCAPES| && e == ESCAPES[i];
  }

  lemma {:induction false} DecodeStep(s: string, left: nat)
    requires 0 < left < |s| && Decode(s, left).Got?
    ensures var one := DecodeOne(s, left);
            one.Got? && left - one.used < |s[one.used..]| && Decode(s[one.used..], left - one.used).Got?
            && Decode(s, left).value == one.value + Decode(s[one.used..], left - one.used).value
  {
    hide DecodeOne;
  }

  /** A string that is read is spelled in pieces, or some `\u` in it is broken. */
  lemma {:induction false} PiecesWritten(s: string, left: nat) returns (ps: seq<Piece>)
    requires left < |s| && StringEnd(s) == Got(left, 0) && Decode(s, left).Got? && !Broken(s[..left])
    ensures LegalPieces(ps) && PiecesText(ps) == s[..left] && PiecesBytes(ps) == Decode(s, left).value
    decreases |s|
  {
    hide DecodeOne, StringEnd, LegalPiece, PieceText, PieceBytes, BadUnit;
    if left == 0 {
      ps := [];
    } else {
      DecodeStep(s, left);
      WholeUnit(s, left);
      var p := PieceWritten(s, left);
      var n := DecodeOne(s, left).used;
      var rest := s[n..];
      StartsSplit(s, PieceText(p));
      EndOfPiece(p, s, rest);
      NotBrokenLater(s, left, n);
      EndLater(s, rest, left, n);
      var more := PiecesWritten(rest, left - n);
      ps := [p] + more;
      assert ps[1..] == more;
      assert s[..left] == s[..n] + rest[..left - n];
    }
  }

  lemma EndLater(s: string, rest: string, left: nat, n: nat)
    requires StringEnd(s) == Got(left, 0) && StringEnd(s) == Later(StringEnd(rest), n)
    ensures n <= left && StringEnd(rest) == Got(left - n, 0)
  {
    hide StringEnd;
    UsedNone(rest);
  }

  lemma {:induction false} UsedNone(s: string)
    ensures StringEnd(s).Got? ==> StringEnd(s).used == 0
  {
  }

  lemma NotBrokenLater(s: string, left: nat, n: nat)
    requires n <= left <= |s| && !Broken(s[..left])
    ensures !Broken(s[n..][..left - n])
  {
    hide BadUnit;
    var t, u := s[..left], s[n..][..left - n];
    forall k | 0 <= k < |u| ensures !BadUnit(u[k..]) {
      assert u[k..] == t[n + k..];
    }
  }

  /** A `\u` that is broken in a string is broken in front of its closing quote. */
  lemma WholeUnit(s: string, left: nat)
    requires 0 < left < |s| && DecodeOne(s, left).Got? && !Broken(s[..left])
    ensures !BadUnit(s)
  {
    var t := s[..left];
    assert t[0..] == t;
    assert !BadUnit(t[0..]);
    if s[0] == '\\' && s[1] == 'u' {
      assert left >= 6 && forall i :: 2 <= i < 6 ==> s[i] == t[i];
      hide HexDigit;
      assert s[0] == t[0] && s[1] == t[1];
    }
  }

  /**
   * A string as it is spelled: in pieces, or an odd one with a broken `\u` that the parser takes all the same
   * (the digits that are not hex make it U+0000).
   */
  datatype Str = Chars(pieces: seq<Piece>) | Odd(text: string, value: string)

  predicate LegalStr(x: Str) {
    match x
    case Chars(pieces) => LegalPieces(pieces)
    case Odd(text, value) => Broken(text) && text[0] == '\"' && ParseString(text) == Got(value, |text|)
  }

  function StrText(x: Str): string {
    if x.Chars? then StringText(x.pieces) else x.text
  }

  function StrValue(x: Str): string {
    if x.Chars? then StringValue(x.pieces) else x.value
  }

  lemma {:induction false} EndLocal(s: string, rest: string)
    requires StringEnd(s).Got?
    ensures StringEnd(s + rest) == StringEnd(s)
    decreases |s|
  {
    if s[0] == '\\' {
      assert (s + rest)[2..] == s[2..] + rest;
      EndLocal(s[2..], rest);
    } else if s[0] != '\"' {
      assert (s + rest)[1..] == s[1..] + rest;
      EndLocal(s[1..], rest);
    }
  }

  lemma DecodeOneLocal(s: string, rest: string, left: nat)
    requires 0 < left < |s|
    ensures DecodeOne(s + rest, left) == DecodeOne(s, left)
  {
    var t := s + rest;
    assert t[0] == s[0] && t[1] == s[1];
    if left >= 6 {
      HexLocal(s, rest, 2);
    }
    if left >= 12 {
      assert t[6] == s[6] && t[7] == s[7];
      HexLocal(s, rest, 8);
    }
    hide Utf8, Unescaped, Hex4;
  }

  lemma HexLocal(s: string, rest: string, i: nat)
    requires i + 4 <= |s|
    ensures Hex4((s + rest)[i..]) == Hex4(s[i..])
  {
    var a, b := (s + rest)[i..], s[i..];
    assert a[0] == b[0] && a[1] == b[1] && a[2] == b[2] && a[3] == b[3];
    hide HexDigit;
  }

  lemma {:induction false} DecodeLocal(s: string, rest: string, left: int)
    requires left < |s|
    ensures Decode(s + rest, left) == Decode(s, left)
    decreases |s|
  {
    hide DecodeOne;
    if left > 0 {
      DecodeOneLocal(s, rest, left);
      var one := DecodeOne(s, left);
      if one.Got? {
        assert (s + rest)[one.used..] == s[one.used..] + rest;
        DecodeLocal(s[one.used..], rest, left - one.used);
      }
    }
  }

  /** What stands behind its closing quote does not matter to a string. */
  lemma {:induction false} StringLocal(s: string, rest: string)
    requires ParseString(s).Got?
    ensures ParseString(s + rest) == ParseString(s)
  {
    hide StringEnd, Decode, CString;
    assert (s + rest)[1..] == s[1..] + rest;
    EndLocal(s[1..], rest);
    DecodeLocal(s[1..], rest, StringEnd(s[1..]).value);
  }

  /** However a string is spelled, it is read. */
  lemma {:induction false} StrRead(x: Str, rest: string)
    requires LegalStr(x)
    ensures ParseString(StrText(x) + rest) == Got(StrValue(x), |StrText(x)|)
    ensures StrText(x) != "" && StrText(x)[0] == '\"'
  {
    hide ParseString, StringValue, Broken, LegalPieces;
    match x
    case Chars(pieces) => SpelledString(pieces, rest);
    case Odd(text, value) => StringLocal(text, rest);
  }

  lemma {:induction false} EndFront(s: string, left: nat)
    requires left < |s| && StringEnd(s) == Got(left, 0)
    ensures StringEnd(s[..left + 1]) == Got(left, 0)
    decreases |s|
  {
    var t := s[..left + 1];
    if s[0] == '\\' {
      assert t[2..] == s[2..][..left - 1];
      UsedNone(s[2..]);
      EndFront(s[2..], left - 2);
    } else if s[0] != '\"' {
      assert t[1..] == s[1..][..left];
      UsedNone(s[1..]);
      EndFront(s[1..], left - 1);
    }
  }

  lemma {:induction false} StringFront(s: string)
    requires ParseString(s).Got?
    ensures ParseString(s[..ParseString(s).used]) == ParseString(s)
  {
    hide StringEnd, Decode, CString;
    UsedNone(s[1..]);
    var left := StringEnd(s[1..]).value;
    var t := s[..left + 2];
    assert t[1..] == s[1..][..left + 1];
    EndFront(s[1..], left);
    assert s[1..] == t[1..] + s[left + 2..];
    DecodeLocal(t[1..], s[left + 2..], left);
  }

  /** Every string that is read is spelled like that. */
  lemma {:induction false} StrWritten(s: string) returns (x: Str)
    requires ParseString(s).Got?
    ensures LegalStr(x) && Starts(s, StrText(x)) && ParseString(s) == Got(StrValue(x), |StrText(x)|)
  {
    hide StringEnd, Decode, CString, LegalPieces, Broken;
    UsedNone(s[1..]);
    var left := StringEnd(s[1..]).value;
    var n := left + 2;
    if Broken(s[1..][..left]) {
      x := Odd(s[..n], ParseString(s).value);
      StringFront(s);
      BrokenAround(s, left);
    } else {
      var ps := PiecesWritten(s[1..], left);
      x := Chars(ps);
      assert s[..n] == "\"" + s[1..][..left] + "\"";
    }
  }

  lemma BrokenAround(s: string, left: nat)
    requires left + 2 <= |s| && Broken(s[1..][..left])
    ensures Broken(s[..left + 2])
  {
    var t, u := s[1..][..left], s[..left + 2];
    var k :| 0 <= k < |t| && BadUnit(t[k..]);
    var a, b := t[k..], u[k + 1..];
    assert forall i :: 0 <= i < |a| ==> b[i] == a[i];
    hide HexDigit;
  }
}
