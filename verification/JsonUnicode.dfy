/** The bytes parse_string writes for \u escapes. */
module JsonUnicode {
  import opened JsonGrammar

  /** A reader of UTF-8 for one scalar value, section 3 of RFC 3629: its value and length. */
  function Utf8Read(s: string): (r: Parsed<nat>)
  {
    if s == "" then Fail
    else
      var a := s[0] as nat;
      if a < 0x80 then Got(a, 1)
      else if 0xC2 <= a < 0xE0 && Trails(s, 1) then Got((a - 0xC0) * 0x40 + Low(s[1]), 2)
      else if 0xE0 <= a < 0xF0 && Trails(s, 2) then
        var code := ((a - 0xE0) * 0x40 + Low(s[1])) * 0x40 + Low(s[2]);
        if code < 0x800 || !Scalar(code) then Fail else Got(code, 3)
      else if 0xF0 <= a < 0xF5 && Trails(s, 3) then
        var code := (((a - 0xF0) * 0x40 + Low(s[1])) * 0x40 + Low(s[2])) * 0x40 + Low(s[3]);
        if code < 0x10000 || !Scalar(code) then Fail else Got(code, 4)
      else Fail
  }

  predicate Trails(s: string, n: nat) {
    |s| > n && forall i :: 1 <= i <= n ==> 0x80 <= s[i] as nat < 0xC0
  }

  function Low(c: char): (v: nat)
    ensures v < 0x40
  {
    c as nat % 0x40
  }

  lemma Digits(code: nat)
    requires code <= 0x10FFFF
    ensures code == code / 0x40 * 0x40 + code % 0x40
    ensures code / 0x40 == code / 0x1000 * 0x40 + code / 0x40 % 0x40
    ensures code / 0x1000 == code / 0x40000 * 0x40 + code / 0x1000 % 0x40
  {
  }

  lemma ReadFour(s: string, a: nat, b: nat, c: nat, d: nat)
    requires |s| >= 4 && b < 0x40 && c < 0x40 && d < 0x40
    requires s[0] as nat == 0xF0 + a && s[1] as nat == 0x80 + b && s[2] as nat == 0x80 + c && s[3] as nat == 0x80 + d
    requires Scalar(((a * 0x40 + b) * 0x40 + c) * 0x40 + d) && ((a * 0x40 + b) * 0x40 + c) * 0x40 + d >= 0x10000
    ensures Utf8Read(s) == Got(((a * 0x40 + b) * 0x40 + c) * 0x40 + d, 4)
  {
    assert Low(s[1]) == b && Low(s[2]) == c && Low(s[3]) == d;
    hide Low;
  }

  lemma ReadThree(s: string, a: nat, b: nat, c: nat)
    requires |s| >= 3 && b < 0x40 && c < 0x40
    requires s[0] as nat == 0xE0 + a && s[1] as nat == 0x80 + b && s[2] as nat == 0x80 + c
    requires Scalar((a * 0x40 + b) * 0x40 + c) && 0x800 <= (a * 0x40 + b) * 0x40 + c < 0x10000
    ensures Utf8Read(s) == Got((a * 0x40 + b) * 0x40 + c, 3)
  {
    assert Low(s[1]) == b && Low(s[2]) == c;
    hide Low;
  }

  /** What is written for a scalar value reads back as that value, and nothing of what follows is taken. */
  lemma Utf8Back(code: nat, rest: string)
    requires Scalar(code)
    ensures Utf8Read(Utf8(code) + rest) == Got(code, |Utf8(code)|)
  {
    Digits(code);
    var s := Utf8(code) + rest;
    if code >= 0x10000 {
      hide Utf8Read, Scalar;
      ReadFour(s, code / 0x40000, code / 0x1000 % 0x40, code / 0x40 % 0x40, code % 0x40);
    } else if code >= 0x800 {
      hide Utf8Read, Scalar;
      ReadThree(s, code / 0x1000, code / 0x40 % 0x40, code % 0x40);
    } else {
      assert s[0] == Utf8(code)[0];
    }
  }

  /** Four hex digits, in either case, that stand for `v`. */
  predicate Spells(h: string, v: nat) {
    && |h| == 4 && (forall i :: 0 <= i < 4 ==> HexDigit(h[i]) >= 0)
    && v == HexDigit(h[0]) * 0x1000 + HexDigit(h[1]) * 0x100 + HexDigit(h[2]) * 0x10 + HexDigit(h[3])
  }

  function HexChar(v: nat): char
    requires v < 16
  {
    if v < 10 then '0' + v as char else 'a' + (v - 10) as char
  }

  function HexText(v: nat): (s: string)
    requires v < 0x10000
    ensures |s| == 4
  {
    [HexChar(v / 0x1000), HexChar(v / 0x100 % 16), HexChar(v / 16 % 16), HexChar(v % 16)]
  }

  lemma HexDigitBack(v: nat)
    requires v < 16
    ensures HexDigit(HexChar(v)) == v
  {
  }

  lemma Nibbles(v: nat)
    requires v < 0x10000
    ensures v / 0x1000 * 0x1000 + v / 0x100 % 16 * 0x100 + v / 16 % 16 * 0x10 + v % 16 == v
  {
    assert v / 0x100 == v / 0x1000 * 16 + v / 0x100 % 16;
    assert v / 16 == v / 0x100 * 16 + v / 16 % 16;
  }

  /** Every value has a spelling. */
  lemma HexTextSpells(v: nat)
    requires v < 0x10000
    ensures Spells(HexText(v), v)
  {
    HexDigitBack(v / 0x1000);
    HexDigitBack(v / 0x100 % 16);
    HexDigitBack(v / 16 % 16);
    HexDigitBack(v % 16);
    Nibbles(v);
    hide HexDigit, HexChar;
  }

  lemma Hex4Back(h: string, v: nat, rest: string)
    requires Spells(h, v)
    ensures Hex4(h + rest) == v
  {
    hide HexDigit;
    var s := h + rest;
    assert s[0] == h[0] && s[1] == h[1] && s[2] == h[2] && s[3] == h[3];
  }

  /** `e` is an escape of a scalar value, a surrogate pair above 0xFFFF; section 7 of RFC 8259. */
  predicate Escapes(e: string, code: nat)
    requires Scalar(code)
  {
    if code < 0x10000 then |e| == 6 && e[..2] == "\\u" && Spells(e[2..], code)
    else
      && |e| == 12 && e[..2] == "\\u" && Spells(e[2..6], High(code))
      && e[6..8] == "\\u" && Spells(e[8..], LowHalf(code))
  }

  /** The surrogate pair of a scalar value above 0xFFFF. */
  function High(code: nat): (v: nat)
    requires 0x10000 <= code <= 0x10FFFF
    ensures HighSurrogate(v)
  {
    0xD800 + (code - 0x10000) / 0x400
  }

  function LowHalf(code: nat): (v: nat)
    requires 0x10000 <= code <= 0x10FFFF
    ensures LowSurrogate(v)
  {
    0xDC00 + (code - 0x10000) % 0x400
  }

  /** The escape with lower-case digits. */
  function Utf16Text(code: nat): (e: string)
    requires Scalar(code)
  {
    if code < 0x10000 then "\\u" + HexText(code)
    else "\\u" + HexText(High(code)) + ("\\u" + HexText(LowHalf(code)))
  }

  lemma Utf16TextEscapes(code: nat)
    requires Scalar(code)
    ensures Escapes(Utf16Text(code), code)
  {
    var e := Utf16Text(code);
    if code < 0x10000 {
      HexTextSpells(code);
      assert e[2..] == HexText(code);
    } else {
      HexTextSpells(High(code));
      HexTextSpells(LowHalf(code));
      hide Spells, HexText;
      assert e[2..6] == HexText(High(code)) && e[6..8] == "\\u" && e[8..] == HexText(LowHalf(code));
    }
  }

  lemma PairValue(code: nat)
    requires 0x10000 <= code <= 0x10FFFF
    ensures 0x10000 + High(code) % 0x400 * 0x400 + LowHalf(code) % 0x400 == code
  {
    assert 0xD800 % 0x400 == 0 && 0xDC00 % 0x400 == 0;
    var h, l := (code - 0x10000) / 0x400, (code - 0x10000) % 0x400;
    assert (0xD800 + h) % 0x400 == h && (0xDC00 + l) % 0x400 == l;
  }

  lemma EscapeHead(e: string, code: nat, s: string)
    requires Scalar(code) && Escapes(e, code)
    ensures |e| >= 6 && (e + s)[0] == '\\' && (e + s)[1] == 'u'
  {
    hide Spells;
    assert e[..2][0] == e[0] && e[..2][1] == e[1];
  }

  lemma PairText(e: string, code: nat, rest: string)
    requires Scalar(code) && code >= 0x10000 && Escapes(e, code)
    ensures var s := e + rest;
            Hex4(s[2..]) == High(code) && s[6] == '\\' && s[7] == 'u' && Hex4(s[8..]) == LowHalf(code)
  {
    Hex4Back(e[2..6], High(code), e[6..] + rest);
    Hex4Back(e[8..], LowHalf(code), rest);
    hide Hex4, Spells;
    var s := e + rest;
    assert s[2..] == e[2..6] + (e[6..] + rest);
    assert s[8..] == e[8..] + rest;
    assert e[6..8][0] == s[6] && e[6..8][1] == s[7];
  }

  lemma PairBack(e: string, code: nat, rest: string, left: nat)
    requires Scalar(code) && code >= 0x10000 && Escapes(e, code)
    requires 12 <= left <= 12 + |rest|
    ensures Utf16Literal(e + rest, left) == Got(code, 12)
  {
    PairText(e, code, rest);
    PairValue(code);
    hide Hex4, Escapes, High, LowHalf;
  }

  /** Reading an escape of a scalar value gives that value, however its digits are spelled. */
  lemma Utf16Back(e: string, code: nat, rest: string, left: nat)
    requires Scalar(code) && Escapes(e, code)
    requires |e| <= left <= |e| + |rest|
    ensures Utf16Literal(e + rest, left) == Got(code, |e|)
  {
    if code < 0x10000 {
      Hex4Back(e[2..], code, rest);
      hide Hex4, Spells;
      assert (e + rest)[2..] == e[2..] + rest;
    } else {
      PairBack(e, code, rest, left);
    }
  }

  /** Inside a string, an escape of a scalar value is replaced by the UTF-8 form of that value. */
  lemma {:induction false} EscapeDecoded(e: string, code: nat, s: string, left: nat)
    requires Scalar(code) && Escapes(e, code) && left < |s|
    ensures Decode(e + s, |e| + left)
         == (var r := Decode(s, left); if r.Got? then Got(Utf8(code) + r.value, 0) else Fail)
  {
    hide *;
    var n := |e|;
    Utf16Back(e, code, s, n + left);
    EscapeHead(e, code, s);
    DecodeEscape(e + s, n + left, code, n);
    assert (e + s)[n..] == s;
  }

  lemma {:induction false} DecodeEscape(t: string, left: nat, code: nat, n: nat)
    requires left < |t| && |t| > 1 && t[0] == '\\' && t[1] == 'u' && left > 0
    requires Utf16Literal(t, left) == Got(code, n)
    ensures Decode(t, left)
            == (var r := Decode(t[n..], left - n); if r.Got? then Got(Utf8(code) + r.value, 0) else Fail)
  {
    hide Utf16Literal, Utf8;
  }
}
