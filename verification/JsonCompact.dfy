/** The two forms of printed JSON: the unformatted one is the formatted one without its blanks outside strings. */
module JsonCompact {
  import opened Json
  import opened JsonGrammar
  import opened JsonRoundTrip

  /** A JSON text without its blanks outside strings; `quoted` says whether it starts inside one. */
  function Stripped(s: string, quoted: bool): string {
    if s == "" then ""
    else if quoted && s[0] == '\\' && |s| > 1 then [s[0], s[1]] + Stripped(s[2..], true)
    else if s[0] == '\"' then [s[0]] + Stripped(s[1..], !quoted)
    else if !quoted && s[0] <= ' ' then Stripped(s[1..], false)
    else [s[0]] + Stripped(s[1..], quoted)
  }

  /** `a` outside strings leaves `b`, whatever follows. */
  ghost predicate Leaves(a: string, b: string) {
    forall rest :: Stripped(a + rest, false) == b + Stripped(rest, false)
  }

  lemma LeavesBoth(a: string, b: string, c: string, d: string)
    requires Leaves(a, b) && Leaves(c, d)
    ensures Leaves(a + c, b + d)
  {
    hide Stripped;
    forall rest ensures Stripped(a + c + rest, false) == b + d + Stripped(rest, false) {
      assert a + c + rest == a + (c + rest);
      assert Stripped(a + (c + rest), false) == b + Stripped(c + rest, false);
      assert b + (d + Stripped(rest, false)) == b + d + Stripped(rest, false);
    }
  }

  lemma {:induction false} BlankLeaves(ws: string)
    requires Blank(ws)
    ensures Leaves(ws, "")
    decreases |ws|
  {
    if ws == "" {
      forall rest ensures Stripped(ws + rest, false) == "" + Stripped(rest, false) {
        assert ws + rest == rest;
      }
    } else {
      BlankLeaves(ws[1..]);
      forall rest ensures Stripped(ws + rest, false) == "" + Stripped(rest, false) {
        assert (ws + rest)[1..] == ws[1..] + rest;
        assert ws[0] <= ' ';
      }
    }
  }

  /** Text without blanks and quotes. */
  predicate Solid(s: string) {
    forall i :: 0 <= i < |s| ==> s[i] > ' ' && s[i] != '\"'
  }

  lemma CharKept(c: char, s: string)
    requires c > ' ' && c != '\"'
    ensures Stripped([c] + s, false) == [c] + Stripped(s, false)
  {
    assert ([c] + s)[1..] == s;
  }

  lemma {:induction false} SolidKept(a: string, rest: string)
    requires Solid(a)
    ensures Stripped(a + rest, false) == a + Stripped(rest, false)
    decreases |a|
  {
    hide Stripped;
    if a == "" {
      assert a + rest == rest;
    } else {
      SolidKept(a[1..], rest);
      CharKept(a[0], a[1..] + rest);
      assert a + rest == [a[0]] + (a[1..] + rest);
      assert a + Stripped(rest, false) == [a[0]] + (a[1..] + Stripped(rest, false));
    }
  }

  lemma {:induction false} SolidLeaves(s: string)
    requires Solid(s)
    ensures Leaves(s, s)
  {
    hide Stripped, Solid;
    forall rest ensures Stripped(s + rest, false) == s + Stripped(rest, false) {
      SolidKept(s, rest);
    }
  }

  lemma TokenKept(c: char, s: string)
    requires !Control(c)
    ensures Stripped(Token(c) + s, true) == Token(c) + Stripped(s, true)
  {
    assert (Token(c) + s)[|Token(c)|..] == s;
  }

  lemma {:induction false} EscapedKept(x: string, rest: string)
    requires CleanString(x)
    ensures Stripped(Escaped(x) + rest, true) == Escaped(x) + Stripped(rest, false)
    decreases |x|
  {
    hide Token, Control;
    if x == "" {
      assert (Escaped(x) + rest)[1..] == rest;
    } else {
      EscapedHead(x, rest);
      EscapedHead(x, Stripped(rest, false));
      EscapedKept(x[1..], rest);
      TokenKept(x[0], Escaped(x[1..]) + rest);
    }
  }

  /** A printed string is kept as it is. */
  lemma {:induction false} QuotedLeaves(x: string)
    requires CleanString(x)
    ensures Leaves(Quoted(x), Quoted(x))
  {
    forall rest ensures Stripped(Quoted(x) + rest, false) == Quoted(x) + Stripped(rest, false) {
      EscapedKept(x, rest);
      var s := Quoted(x) + rest;
      hide Escaped;
      assert s[0] == '\"' && s[1..] == Escaped(x) + rest;
    }
  }

  lemma {:induction false} ValueLeaves(j: Json, format: bool, d: nat, e: nat, strtod: Strtod)
    requires Readable(j, strtod) && Clean(j)
    ensures Leaves(Render(j, format, d), Render(j, false, e))
    decreases j, 0
  {
    hide Leaves, Quoted, Stripped;
    match j
    case Null => SolidLeaves("null");
    case False => SolidLeaves("false");
    case True => SolidLeaves("true");
    case Number(text) => SolidLeaves(text);
    case String(x) => QuotedLeaves(x);
    case Array(items) =>
      ItemsLeave(items, format, d + 1, e + 1, strtod);
      SolidLeaves("[");
      SolidLeaves("]");
      LeavesBoth("[", "[", RenderItems(items, format, d + 1), RenderItems(items, false, e + 1));
      LeavesBoth("[" + RenderItems(items, format, d + 1), "[" + RenderItems(items, false, e + 1), "]", "]");
    case Object(members) => ObjectLeaves(members, format, d, e, strtod);
  }

  lemma {:induction false} ItemsLeave(items: seq<Json>, format: bool, d: nat, e: nat, strtod: Strtod)
    requires ReadableItems(items, strtod) && CleanItems(items)
    ensures Leaves(RenderItems(items, format, d), RenderItems(items, false, e))
    decreases items, 1
  {
    hide Leaves, Render;
    if items == [] {
      SolidLeaves("");
    } else {
      var first, first' := Render(items[0], format, d), Render(items[0], false, e);
      var more, more' := RenderItems(items[1..], format, d), RenderItems(items[1..], false, e);
      ValueLeaves(items[0], format, d, e, strtod);
      ItemsLeave(items[1..], format, d, e, strtod);
      var gap, gap' := if |items| == 1 then "" else "," + Gap(format), if |items| == 1 then "" else ",";
      GapLeaves(|items| == 1, format);
      LeavesBoth(first, first', gap, gap');
      LeavesBoth(first + gap, first' + gap', more, more');
      assert "," + Gap(false) == ",";
      assert RenderItems(items, false, e) == first' + gap' + more';
    }
  }

  lemma GapLeaves(last: bool, format: bool)
    ensures Leaves(if last then "" else "," + Gap(format), if last then "" else ",")
  {
    hide Leaves;
    SolidLeaves("");
    SolidLeaves(",");
    BlankLeaves(Gap(format));
    LeavesBoth(",", ",", Gap(format), "");
    assert "," + "" == ",";
  }

  lemma {:induction false} ObjectLeaves(members: seq<Member>, format: bool, d: nat, e: nat, strtod: Strtod)
    requires ReadableMembers(members, strtod) && CleanMembers(members)
    ensures Leaves(Render(Object(members), format, d), Render(Object(members), false, e))
    decreases members, 2
  {
    hide Leaves, Tabs, RenderMembers;
    var text, text' := RenderMembers(members, format, d + 1), RenderMembers(members, false, e + 1);
    MembersLeave(members, format, d + 1, e + 1, strtod);
    SolidLeaves("{");
    SolidLeaves("}");
    LeadBlank(format, d);
    BlankLeaves(Newline(format));
    BlankLeaves(Lead(format, d));
    LeavesBoth("{", "{", Newline(format), "");
    LeavesBoth("{" + Newline(format), "{" + "", text, text');
    LeavesBoth("{" + Newline(format) + text, "{" + "" + text', Lead(format, d), "");
    LeavesBoth("{" + Newline(format) + text + Lead(format, d), "{" + "" + text' + "", "}", "}");
    assert Render(Object(members), false, e) == "{" + "" + text' + "" + "}";
  }

  lemma {:induction false} MembersLeave(members: seq<Member>, format: bool, d: nat, e: nat, strtod: Strtod)
    requires ReadableMembers(members, strtod) && CleanMembers(members)
    ensures Leaves(RenderMembers(members, format, d), RenderMembers(members, false, e))
    decreases members, 1
  {
    hide Leaves, Render, Tabs, Quoted;
    if members == [] {
      SolidLeaves("");
    } else {
      var m := members[0];
      var name, value, end := Quoted(m.key), Render(m.value, format, d), if |members| == 1 then "" else ",";
      var more, more' := RenderMembers(members[1..], format, d), RenderMembers(members[1..], false, e);
      var value' := Render(m.value, false, e);
      ValueLeaves(m.value, format, d, e, strtod);
      MembersLeave(members[1..], format, d, e, strtod);
      QuotedLeaves(m.key);
      LeadBlank(format, d);
      BlankLeaves(Lead(format, d));
      BlankLeaves(Newline(format));
      SolidLeaves(end);
      ColonLeaves(format);
      LeavesBoth(Lead(format, d), "", name, name);
      LeavesBoth(Lead(format, d) + name, "" + name, Colon(format), ":");
      LeavesBoth(Lead(format, d) + name + Colon(format), "" + name + ":", value, value');
      LeavesBoth(Lead(format, d) + name + Colon(format) + value, "" + name + ":" + value', end, end);
      LeavesBoth(Lead(format, d) + name + Colon(format) + value + end, "" + name + ":" + value' + end,
                 Newline(format), "");
      LeavesBoth(Lead(format, d) + name + Colon(format) + value + end + Newline(format),
                 "" + name + ":" + value' + end + "", more, more');
    }
  }

  lemma ColonLeaves(format: bool)
    ensures Leaves(Colon(format), ":")
  {
    hide Leaves;
    SolidLeaves(":");
    BlankLeaves("\t");
    LeavesBoth(":", ":", "\t", "");
    assert ":" + "\t" == ":\t" && ":" + "" == ":";
  }

  /** The unformatted text is what is left of either text without its blanks; it has none itself. */
  lemma {:induction false} Compact(j: Json, format: bool, strtod: Strtod)
    requires Readable(j, strtod) && Clean(j)
    ensures Stripped(Render(j, format, 0), false) == Render(j, false, 0)
  {
    ValueLeaves(j, format, 0, 0, strtod);
    hide Render, Readable, Clean;
    var s := Render(j, format, 0);
    assert s + "" == s && Render(j, false, 0) + "" == Render(j, false, 0);
    assert Stripped(s + "", false) == Render(j, false, 0) + Stripped("", false);
  }

  /** The formatted text of an array of two: a blank behind the comma and no other. */
  lemma {:induction false} FormattedArray(a: Json, b: Json, d: nat)
    ensures Render(Array([a, b]), true, d) == "[" + (Render(a, true, d + 1) + ", " + Render(b, true, d + 1)) + "]"
  {
    FormattedItems(a, b, d + 1);
    hide RenderItems;
  }

  /** The formatted text of an object of one: lines, tabs for the depth, and a tab behind the colon. */
  lemma {:induction false} FormattedObject(a: Json, key: string, d: nat)
    ensures Render(Object([Member(key, a)]), true, d)
         == "{" + "\n" + (seq(d + 1, i => '\t') + Quoted(key) + ":\t" + Render(a, true, d + 1) + "\n")
            + seq(d, i => '\t') + "}"
  {
    FormattedMember(key, a, d + 1);
    assert Tabs(d) == seq(d, i => '\t');
    hide Quoted, RenderMembers, Tabs;
  }

  lemma FormattedItems(a: Json, b: Json, d: nat)
    ensures RenderItems([a, b], true, d) == Render(a, true, d) + ", " + Render(b, true, d)
  {
    hide Render;
    assert [a, b][1..] == [b] && [b][1..] == [];
    assert RenderItems([b], true, d) == Render(b, true, d) + "" + RenderItems([], true, d);
  }

  lemma FormattedMember(key: string, a: Json, d: nat)
    ensures RenderMembers([Member(key, a)], true, d)
         == seq(d, i => '\t') + Quoted(key) + ":\t" + Render(a, true, d) + "\n"
  {
    hide Render, Quoted;
    var m := [Member(key, a)];
    assert m[1..] == [];
    assert Tabs(d) == seq(d, i => '\t');
    MembersUnfold(m, true, d);
  }
}
