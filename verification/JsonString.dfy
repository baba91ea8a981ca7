/** parse_string: one scan measures the string, a second one decodes it into a buffer of that measure. */
module JsonString {
  import opened JsonGrammar

  /**
   * How many tokens, plain characters and two-character escapes, the measuring scan passes before the
   * closing quote.
   */
  function Tokens(s: string): nat {
    if s == "" || s[0] == '\"' then 0
    else if s[0] == '\\' then if |s| < 2 then 0 else 1 + Tokens(s[2..])
    else 1 + Tokens(s[1..])
  }

  /** The measuring scan, which stops at `end`, stops at `b` on its way. */
  predicate Stop(s: string, b: nat, end: nat) {
    && b <= end < |s|
    && StringEnd(s[b..]) == Got(end - b, 0)
  }

  function TokensFrom(s: string, b: nat): nat
    requires b <= |s|
  {
    Tokens(s[b..])
  }

  lemma {:induction false} NextStop(s: string, b: nat, end: nat)
    requires Stop(s, b, end) && b < end
    ensures s[b] == '\\' ==> Stop(s, b + 2, end) && TokensFrom(s, b) == 1 + TokensFrom(s, b + 2)
    ensures s[b] != '\\' ==> Stop(s, b + 1, end) && TokensFrom(s, b) == 1 + TokensFrom(s, b + 1)
  {
    var t := s[b..];
    assert t[0] == s[b];
    assert t[1..] == s[b + 1..];
    if s[b] == '\\' {
      assert t[2..] == s[b + 2..];
      var r := StringEnd(t[2..]);
    }
  }

  /**
   * Past any position the scan stops at once or one character later; it counts a token for every two
   * characters at least.
   */
  lemma {:induction false} StopAfter(s: string, b: nat, target: nat, end: nat) returns (c: nat)
    requires Stop(s, b, end) && b <= target <= end
    ensures Stop(s, c, end) && target <= c <= target + 1
    ensures 2 * (TokensFrom(s, b) - TokensFrom(s, c)) >= c - b
    ensures (forall i :: b <= i < target ==> s[i] != '\\') ==>
              c == target && TokensFrom(s, b) - TokensFrom(s, c) == c - b
    decreases target - b
  {
    if b == target {
      c := b;
    } else {
      NextStop(s, b, end);
      var next := if s[b] == '\\' then b + 2 else b + 1;
      if next > target {
        c := next;
      } else {
        c := StopAfter(s, next, target, end);
      }
    }
  }

  /**
   * There is room for what is still to be decoded from `p`, which is at most one character behind the
   * measuring scan's next stop `b`: at most one byte is written for each token still to come. Past the end
   * nothing is written any more.
   */
  predicate Room(s: string, p: nat, b: nat, end: nat, written: nat, total: nat) {
    if p > end then written <= total
    else Stop(s, b, end) && p <= b <= p + 1 && written + (b - p) + TokensFrom(s, b) <= total
  }

  lemma RoomPlain(s: string, p: nat, b: nat, end: nat, written: nat, total: nat) returns (c: nat)
    requires Room(s, p, b, end, written, total) && p < end && s[p] != '\\'
    ensures Room(s, p + 1, c, end, written + 1, total)
  {
    hide TokensFrom, Stop;
    c := p + 1;
    if b == p {
      NextStop(s, b, end);
    }
  }

  lemma RoomShort(s: string, p: nat, b: nat, end: nat, written: nat, total: nat) returns (c: nat)
    requires Room(s, p, b, end, written, total) && p < end && s[p] == '\\'
    ensures Room(s, p + 2, c, end, written + 1, total)
  {
    c := p + 2;
    if b < end {
      NextStop(s, b, end);
      c := if s[b] == '\\' then b + 2 else b + 1;
    }
    hide TokensFrom, Stop;
  }

  lemma HexPlain(t: string)
    requires |t| >= 4 && Hex4(t) != 0
    ensures t[0] != '\\' && t[1] != '\\' && t[2] != '\\' && t[3] != '\\'
  {
  }

  /** The escape's backslash and `u` count for at least one token. */
  lemma AfterU(s: string, p: nat, b: nat, end: nat, written: nat, total: nat)
    requires Room(s, p, b, end, written, total) && p + 2 <= end && s[p] == '\\' && s[p + 1] == 'u'
    ensures Stop(s, p + 2, end) && written + 1 + TokensFrom(s, p + 2) <= total
  {
    hide TokensFrom;
    NextStop(s, b, end);
  }

  lemma RoomSingle(s: string, p: nat, b: nat, end: nat, written: nat, total: nat) returns (c: nat)
    requires Room(s, p, b, end, written, total) && p + 6 <= end && s[p] == '\\' && s[p + 1] == 'u'
    ensures Room(s, p + 6, c, end, written + (if Hex4(s[p + 2..]) == 0 then 1 else 3), total)
  {
    AfterU(s, p, b, end, written, total);
    var t := s[p + 2..];
    assert t[0] == s[p + 2] && t[1] == s[p + 3] && t[2] == s[p + 4] && t[3] == s[p + 5];
    if Hex4(t) != 0 {
      HexPlain(t);
    }
    hide TokensFrom, Hex4, Stop;
    c := StopAfter(s, p + 2, p + 6, end);
  }

  lemma RoomPair(s: string, p: nat, b: nat, end: nat, written: nat, total: nat) returns (c: nat)
    requires Room(s, p, b, end, written, total) && p + 12 <= end && s[p] == '\\' && s[p + 1] == 'u'
    requires s[p + 6] == '\\' && s[p + 7] == 'u' && Hex4(s[p + 2..]) != 0 && Hex4(s[p + 8..]) != 0
    ensures Room(s, p + 12, c, end, written + 4, total)
  {
    var b1 := RoomSingle(s, p, b, end, written, total);
    hide Hex4;
    AfterU(s, p + 6, b1, end, written + 3, total);
    c := RoomSingle(s, p + 6, b1, end, written + 3, total);
  }

  /** Decoding a character or an escape keeps the room there is for the rest. */
  lemma RoomStep(s: string, p: nat, b: nat, end: nat, written: nat, total: nat) returns (c: nat)
    requires Room(s, p, b, end, written, total) && p < end < |s| && DecodeOne(s[p..], end - p).Got?
    ensures var one := DecodeOne(s[p..], end - p);
            Room(s, p + one.used, c, end, written + |one.value|, total)
  {
    assert |Utf8(0)| == 1;
    hide Room, Hex4, Utf8;
    var t := s[p..];
    assert t[0] == s[p];
    if s[p] != '\\' {
      c := RoomPlain(s, p, b, end, written, total);
    } else {
      assert t[1] == s[p + 1];
      if s[p + 1] != 'u' {
        c := RoomShort(s, p, b, end, written, total);
      } else {
        hide Utf16Literal;
        c := RoomUnicode(s, p, b, end, written, total);
      }
    }
  }

  lemma RoomUnicode(s: string, p: nat, b: nat, end: nat, written: nat, total: nat) returns (c: nat)
    requires Room(s, p, b, end, written, total) && p + 1 < end < |s| && s[p] == '\\' && s[p + 1] == 'u'
    requires Utf16Literal(s[p..], end - p).Got?
    ensures var u := Utf16Literal(s[p..], end - p);
            Room(s, p + u.used, c, end, written + |Utf8(u.value)|, total)
  {
    assert |Utf8(0)| == 1;
    hide Room, Hex4, Utf8;
    var t := s[p..];
    assert t[2..] == s[p + 2..];
    var u := Utf16Literal(t, end - p);
    if u.used == 6 {
      c := RoomSingle(s, p, b, end, written, total);
      RoomLess(s, p + 6, c, end, written + (if Hex4(t[2..]) == 0 then 1 else 3), written + |Utf8(u.value)|, total);
    } else {
      assert t[8..] == s[p + 8..] && t[6] == s[p + 6] && t[7] == s[p + 7];
      c := RoomPair(s, p, b, end, written, total);
      RoomLess(s, p + 12, c, end, written + 4, written + |Utf8(u.value)|, total);
    }
  }

  lemma RoomLess(s: string, p: nat, b: nat, end: nat, more: nat, less: nat, total: nat)
    requires Room(s, p, b, end, more, total) && less <= more
    ensures Room(s, p, b, end, less, total)
  {
  }

  lemma {:induction false} RestFits(s: string, p: nat, b: nat, end: nat, written: nat, total: nat)
    requires Room(s, p, b, end, written, total) && end < |s| && p <= end + 1
    ensures var r := Decode(s[p..], end - p); r.Got? ==> written + |r.value| <= total
    decreases end + 1 - p
  {
    hide DecodeOne, Stop, TokensFrom;
    if p < end {
      var one := DecodeOne(s[p..], end - p);
      if one.Got? {
        var c := RoomStep(s, p, b, end, written, total);
        RestFits(s, p + one.used, c, end, written + |one.value|, total);
        assert s[p..][one.used..] == s[p + one.used..];
      }
    }
  }

  /**
   * The measure of a string is enough for its decoded bytes, whatever escapes the two scans see: they may
   * disagree on where an escape starts.
   */
  lemma {:induction false} MeasureSound(s: string)
    ensures var end := StringEnd(s);
            end.Got? ==> var r := Decode(s, end.value); r.Got? ==> |r.value| <= Tokens(s)
  {
    var end := StringEnd(s);
    if end.Got? {
      StringEndUsed(s);
      assert s[0..] == s;
      RestFits(s, 0, 0, end.value, 0, Tokens(s));
    }
  }

  lemma {:induction false} StringEndUsed(s: string)
    ensures StringEnd(s).Got? ==> StringEnd(s).used == 0
  {
  }
}
