/** A template for which delimiters that stay in force decide whether it is accepted. */
module MustacheDelimiters {
  import opened Json
  import opened MustacheText
  import opened MustacheContext
  import opened MustacheInterp
  import opened MustacheTree

  /**
   * The second pass over the section reads its set-delimiter tag with the delimiters that the first pass
   * has set, and finds a variable without a name.
   */
  const LASTING := "x{{#a}}{{=< >=}}</a>"
  const ANGLES := Delims("<", ">")

  lemma NotHere(t: string, at: nat, delim: string)
    requires at < |t| && delim != "" && t[at] != delim[0]
    ensures !Matches(t, at, delim)
  {
    if at + |delim| <= |t| {
      assert t[at..at + |delim|][0] == t[at];
    }
  }

  lemma {:induction false} FindIs(t: string, from: nat, delim: string, k: nat)
    requires from <= k <= |t| && delim != ""
    requires forall j :: from <= j < k ==> t[j] != delim[0]
    requires k == |t| || Matches(t, k, delim)
    ensures Find(t, from, delim) == k
    decreases k - from
  {
    if from < k {
      NotHere(t, from, delim);
      hide Matches;
      FindIs(t, from + 1, delim, k);
    }
  }

  lemma Two(t: string, i: nat)
    requires i + 2 <= |t|
    ensures t[i..i + 2] == [t[i], t[i + 1]] && t[i..i + 2][1..] == [t[i + 1]]
  {
  }

  lemma SectionFinds()
    ensures Find(LASTING, 0, "{{") == 1 && Find(LASTING, 3, "}}") == 5
  {
    FindIs(LASTING, 0, "{{", 1);
    FindIs(LASTING, 3, "}}", 5);
  }

  lemma SectionTag()
    ensures Find(LASTING, 0, "{{") == 1
    ensures ReadTag(LASTING, 3, "}}") == Tag(Section(false), "a", 7, true)
  {
    SectionFinds();
    Two(LASTING, 3);
    TrimPlain("a");
    hide Find, Trim;
    assert LASTING[3] == '#' && LASTING[4] == 'a';
  }

  lemma TrimPlain(s: string)
    requires s != "" && !IsSpace(s[0]) && !IsSpace(s[|s| - 1])
    ensures Trim(s) == s
  {
  }

  lemma ChangeFinds()
    ensures Find(LASTING, 7, "{{") == 7 && Find(LASTING, 9, "}}") == 14
  {
    FindIs(LASTING, 7, "{{", 7);
    FindIs(LASTING, 9, "}}", 14);
  }

  lemma ChangeTag()
    ensures Find(LASTING, 7, "{{") == 7
    ensures ReadTag(LASTING, 9, "}}") == Tag(Delimiters("", ""), "=< >=", 16, true)
  {
    ChangeFinds();
    hide Find;
    assert LASTING[9..14] == "=< >=";
    assert LASTING[9] == '=';
  }

  lemma ReadChange()
    ensures ReadDelimiters("=< >=") == Tag(Delimiters("<", ">"), "", 0, true)
  {
    var s := "=< >=";
    assert s[1..|s| - 1] == "< >";
    TrimPlain("< >");
    assert WordLength("< >") == 1 by {
      assert "< >"[1..] == " >";
    }
    assert "< >"[1..] == " >" && " >"[1..] == ">" && "< >"[..1] == "<";
    assert TrimLeft(" >") == TrimLeft(">") == ">";
  }

  lemma CloseFinds()
    ensures Find(LASTING, 16, "<") == 16 && Find(LASTING, 17, ">") == 19 && Find(LASTING, 20, "<") == 20
  {
    FindIs(LASTING, 16, "<", 16);
    FindIs(LASTING, 17, ">", 19);
  }

  lemma CloseTag()
    ensures Find(LASTING, 16, "<") == 16
    ensures ReadTag(LASTING, 17, ">") == Tag(Close, "a", 20, true)
    ensures Find(LASTING, 20, "<") == 20
  {
    CloseFinds();
    Two(LASTING, 17);
    TrimPlain("a");
    hide Find, Trim;
    assert LASTING[17] == '/' && LASTING[18] == 'a';
  }

  lemma BlankFinds()
    ensures Find(LASTING, 7, "<") == 10 && Find(LASTING, 11, ">") == 12
  {
    FindIs(LASTING, 7, "<", 10);
    FindIs(LASTING, 11, ">", 12);
  }

  lemma TrimBlank()
    ensures Trim(" ") == ""
  {
    assert " "[1..] == "";
    assert TrimLeft(" ") == TrimLeft("") == "";
  }

  /** With the new delimiters the old set-delimiter tag reads as a variable without a name. */
  lemma BlankTag()
    ensures Find(LASTING, 7, "<") == 10
    ensures ReadTag(LASTING, 11, ">") == BadTag(EmptyTag)
  {
    BlankFinds();
    TrimBlank();
    hide Find, Trim;
    assert LASTING[11..12] == [LASTING[11]];
    assert LASTING[11] == ' ';
  }

  /** The body on its first pass. */
  lemma FirstBody()
    ensures Parse(LASTING, 7, BRACES, Mixed, 1) == UpTo([Text(""), Text("")], "a", 20, ANGLES)
  {
    hide Find, ReadTag, ReadDelimiters, Parse;
    ChangeTag();
    ReadChange();
    CloseTag();
    ParseTag(LASTING, 7, BRACES, Mixed, 1);
    ParseTag(LASTING, 16, ANGLES, Mixed, 1);
    assert LASTING[7..7] == "" && LASTING[16..16] == "";
    assert [Text("")] + [Text("")] == [Text(""), Text("")];
  }

  lemma SecondBody()
    ensures Parse(LASTING, 7, ANGLES, Mixed, 1).Wrong? && Parse(LASTING, 7, ANGLES, Mixed, 1).code == EmptyTag
    ensures forall ctx | ctx != [] :: Settled(Parse(LASTING, 7, ANGLES, Mixed, 1).nodes, ctx)
  {
    hide Find, ReadTag, Parse;
    BlankTag();
    ParseTag(LASTING, 7, ANGLES, Mixed, 1);
    TextSettled(LASTING[7..10]);
  }

  lemma TextSettled(s: string)
    ensures forall ctx | ctx != [] :: Settled([Text(s)], ctx)
  {
    assert [Text(s)][1..] == [];
  }

  lemma WholeTree()
    ensures ParseTemplate(LASTING) == Whole([Text("x"), Block("a", false, Changed, [Text(""), Text("")]), Text("")])
  {
    hide Find, ReadTag, ReadDelimiters, Parse, LineAfter;
    SectionTag();
    FirstBody();
    CloseTag();
    ParseTag(LASTING, 0, BRACES, Blank, 0);
    XMixed();
    assert LASTING[0..1] == "x" && LASTING[20..20] == "";
    ParseTag(LASTING, 20, ANGLES, Mixed, 0);
    var block := Block("a", false, Changed, [Text(""), Text("")]);
    assert [Text("x")] + ([block] + [Text("")]) == [Text("x"), block, Text("")];
  }

  lemma XMixed()
    ensures LineAfter(LASTING, 0, 1, Blank) == Mixed
  {
    assert LASTING[0] == 'x';
  }

  lemma LoneItem(root: Json)
    requires |Entered([root], "a")| <= 1
    ensures Settled([Text("x"), Block("a", false, Changed, [Text(""), Text("")]), Text("")], [root])
  {
    var body := [Text(""), Text("")];
    var nodes := [Text("x"), Block("a", false, Changed, body), Text("")];
    assert nodes[1..] == [nodes[1], nodes[2]] && nodes[1..][1..] == [nodes[2]] && [nodes[2]][1..] == [];
    assert body[1..] == [Text("")] && [Text("")][1..] == [];
    assert forall ctx | ctx != [] :: Settled(body, ctx);
  }

  lemma {:induction false} SecondPass(items: seq<Json>, root: Json, out: string, tags: nat)
    requires |items| > 1
    ensures var r := Passes(LASTING, 7, BRACES.Plain(), items, [root], 1, "a", out, tags);
            r.Stopped? && r.verdict == EmptyTag
  {
    hide Parse, Passes, Settled, Eval;
    FirstBody();
    SecondBody();
    var tags1 := ChangedAgain(LASTING, 7, BRACES, items, [root], 1, "a", out, tags);
    var body := [Text(""), Text("")];
    BodySettled([root] + [items[0]]);
    MeaningEach(LASTING, 7, ANGLES, items[1..], [root], 1, "a", out + Eval(body, [root] + [items[0]]), tags1);
  }

  lemma BodySettled(ctx: seq<Json>)
    requires ctx != []
    ensures Settled([Text(""), Text("")], ctx)
  {
    var body := [Text(""), Text("")];
    assert body[1..] == [Text("")] && [Text("")][1..] == [];
  }

  lemma {:induction false} FirstSection(root: Json)
    requires |Entered([root], "a")| > 1
    ensures Interpret(LASTING, root).verdict == EmptyTag
  {
    hide Find, ReadTag, Passes, LineAfter, Entered, Body;
    SectionTag();
    XMixed();
    NextShows(LASTING, 0, BRACES, Blank, true, 0, "");
    BodyStep(LASTING, 0, START, true, [root], 0, "", 0);
    SecondPass(Entered([root], "a"), root, "" + Shown(true, LASTING[0..1]), 1);
  }

  /** The template is accepted exactly when the section runs for no more than one item. */
  lemma {:induction false} LastingDelimiters(root: Json)
    ensures Interpret(LASTING, root).verdict == if |Entered([root], "a")| <= 1 then Ok else EmptyTag
  {
    hide Interpret, Entered, Settled, Eval, ParseTemplate;
    if |Entered([root], "a")| <= 1 {
      WholeTree();
      LoneItem(root);
      TreeMeaning(LASTING, root);
    } else {
      FirstSection(root);
    }
  }
}
