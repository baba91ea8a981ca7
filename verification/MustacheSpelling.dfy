/** Section trees written as templates: they are read back, and rendered to their evaluation. */
module MustacheSpelling {
  import opened Json
  import opened MustacheText
  import opened MustacheInterp
  import opened MustacheTree

  /** The template of a tree, with the delimiters `d`. */
  function Spell(nodes: seq<Node>, d: Delims): string
    decreases nodes, 0
  {
    if nodes == [] then "" else SpellNode(nodes[0], d) + Spell(nodes[1..], d)
  }

  function SpellNode(node: Node, d: Delims): string
    decreases node, 0
  {
    match node
    case Text(text) => text
    case Replace(name, escape) => SpellTag(if escape then name else "&" + name, d)
    case Block(name, inverted, _, body) =>
      SpellTag((if inverted then "^" else "#") + name, d) + Spell(body, d) + SpellTag("/" + name, d)
  }

  function SpellTag(s: string, d: Delims): string {
    d.op + s + d.cl
  }

  /** `mark` does not begin in `s`, not even with some of what follows. */
  predicate Free(s: string, mark: string)
    requires mark != ""
  {
    Find(s + mark, 0, mark) == |s|
  }

  /** The text in front of a tag that may stand alone keeps it from doing so. */
  predicate Inline(text: string, line: Line) {
    LineAfter(text, 0, |text|, line) == Mixed
  }

  predicate NameOk(name: string) {
    name != "" && |name| <= MAX_LENGTH && !IsSpace(name[0]) && !IsSpace(name[|name| - 1])
  }

  const KINDS := "!={&^#/>"

  predicate NodeOk(node: Node, d: Delims, text: string, line: Line, room: nat)
    requires d.Valid()
    decreases node, 0
  {
    match node
    case Text(_) => false
    case Replace(name, escape) =>
      NameOk(name) && if escape then name[0] !in KINDS && Free(name, d.cl) else Free("&" + name, d.cl)
    case Block(name, inverted, ending, body) =>
      && NameOk(name) && Free((if inverted then "^" else "#") + name, d.cl) && Free("/" + name, d.cl)
      && ending == Restored && room > 0 && Inline(text, line) && TreeOk(body, d, Mixed, true, room - 1)
  }

  /**
   * Text and tags in turn, beginning and ending with text, nested at most `room` deep; `closed` says that a
   * closing tag follows.
   */
  predicate TreeOk(nodes: seq<Node>, d: Delims, line: Line, closed: bool, room: nat)
    requires d.Valid()
    decreases nodes, 1
  {
    && nodes != [] && nodes[0].Text? && Free(nodes[0].text, d.op)
    && if |nodes| == 1 then closed ==> Inline(nodes[0].text, line)
       else |nodes| > 2 && NodeOk(nodes[1], d, nodes[0].text, line, room) && TreeOk(nodes[2..], d, Mixed, closed, room)
  }

  /** `s` stands in `t` from `i` on. */
  predicate Stands(t: string, i: nat, s: string) {
    i + |s| <= |t| && t[i..i + |s|] == s
  }

  lemma StandsSplit(t: string, i: nat, a: string, b: string)
    requires Stands(t, i, a + b)
    ensures Stands(t, i, a) && Stands(t, i + |a|, b)
  {
    assert t[i..i + |a|] == (a + b)[..|a|];
    assert t[i + |a|..i + |a| + |b|] == (a + b)[|a|..];
  }

  lemma StandsJoin(t: string, i: nat, a: string, b: string)
    requires Stands(t, i, a) && Stands(t, i + |a|, b)
    ensures Stands(t, i, a + b)
  {
    assert t[i..i + |a + b|] == t[i..i + |a|] + t[i + |a|..i + |a| + |b|];
  }

  lemma {:induction false} FindAt(t: string, from: nat, mark: string, k: nat)
    requires from <= k <= |t| && mark != ""
    requires (forall j :: from <= j < k ==> !Matches(t, j, mark)) && (k == |t| || Matches(t, k, mark))
    ensures Find(t, from, mark) == k
    decreases k - from
  {
    hide Matches;
    if from < k {
      FindAt(t, from + 1, mark, k);
    }
  }

  lemma MatchShift(t: string, i: nat, u: string, mark: string, j: nat)
    requires Stands(t, i, u) && j + |mark| <= |u|
    ensures Matches(t, i + j, mark) <==> Matches(u, j, mark)
  {
    SliceSlice(t, i, |u|, j, |mark|);
  }

  lemma SliceSlice(t: string, i: nat, n: nat, j: nat, m: nat)
    requires i + n <= |t| && j + m <= n
    ensures t[i..i + n][j..j + m] == t[i + j..i + j + m]
  {
    var a, b := t[i..i + n][j..j + m], t[i + j..i + j + m];
    assert forall k :: 0 <= k < m ==> a[k] == b[k];
  }

  lemma MatchLonger(s: string, mark: string, j: nat)
    requires Matches(s, j, mark)
    ensures Matches(s + mark, j, mark)
  {
    assert (s + mark)[j..j + |mark|] == s[j..j + |mark|];
  }

  /** A mark behind text that is free of it is found where it stands. */
  lemma {:induction false} FindBehind(t: string, i: nat, s: string, mark: string)
    requires mark != "" && Free(s, mark) && Stands(t, i, s + mark)
    ensures Find(t, i, mark) == i + |s|
  {
    forall j | i <= j < i + |s| ensures !Matches(t, j, mark) {
      MatchShift(t, i, s + mark, mark, j - i);
    }
    MatchShift(t, i, s + mark, mark, |s|);
    hide Matches;
    FindAt(t, i, mark, i + |s|);
  }

  /** Text that is free of a mark up to the end of the template. */
  lemma {:induction false} FindNone(t: string, i: nat, s: string, mark: string)
    requires mark != "" && Free(s, mark) && Stands(t, i, s) && i + |s| == |t|
    ensures Find(t, i, mark) == |t|
  {
    forall j | i <= j < |t| ensures !Matches(t, j, mark) {
      if j - i + |mark| <= |s| {
        MatchShift(t, i, s, mark, j - i);
        if Matches(s, j - i, mark) {
          MatchLonger(s, mark, j - i);
        }
      }
    }
    hide Matches;
    FindAt(t, i, mark, |t|);
  }

  lemma {:induction false} LineShift(t: string, i: nat, s: string, k: nat, line: Line)
    requires Stands(t, i, s) && k <= |s|
    ensures LineAfter(t, i + k, i + |s|, line) == LineAfter(s, k, |s|, line)
    decreases |s| - k
  {
    if k < |s| {
      assert t[i + k] == t[i..i + |s|][k] == s[k];
      LineShift(t, i, s, k + 1, if s[k] == '\n' then Blank else if IsSpace(s[k]) then line else Mixed);
    }
  }

  lemma InlineAt(t: string, pos: nat, text: string, line: Line)
    requires Stands(t, pos, text) && Inline(text, line)
    ensures LineAfter(t, pos, pos + |text|, line) == Mixed
  {
    LineShift(t, pos, text, 0, line);
    hide LineAfter;
  }

  lemma TrimName(name: string)
    requires NameOk(name)
    ensures Trim(name) == name
  {
  }

  lemma NamedIs(kind: Kind, name: string, next: nat, alone: bool)
    requires NameOk(name)
    ensures Named(kind, name, next, alone) == Tag(kind, name, next, alone)
  {
    TrimName(name);
  }

  /** Where the text of a tag ends. */
  lemma TagEnds(t: string, beg: nat, s: string, cl: string)
    requires s != "" && cl != "" && Free(s, cl) && Stands(t, beg, s + cl)
    ensures Find(t, beg, cl) == beg + |s| < |t| && t[beg..beg + |s|] == s && t[beg] == s[0]
  {
    FindBehind(t, beg, s, cl);
    StandsSplit(t, beg, s, cl);
    assert t[beg] == t[beg..beg + |s|][0];
  }

  /** The kind of a tag with a character in front of its name. */
  function KindOf(c: char): Kind
    requires c in "&^#/>"
  {
    match c
    case '&' => Variable(false)
    case '^' => Section(true)
    case '#' => Section(false)
    case '/' => Close
    case _ => Partial
  }

  lemma {:induction false} MarkedTag(t: string, beg: nat, c: char, name: string, cl: string)
    requires c in "&^#/>" && NameOk(name) && cl != "" && Free([c] + name, cl) && Stands(t, beg, [c] + name + cl)
    ensures ReadTag(t, beg, cl) == Tag(KindOf(c), name, beg + 1 + |name| + |cl|, c != '&')
  {
    var s := [c] + name;
    TagEnds(t, beg, s, cl);
    assert s[1..] == name;
    NamedIs(KindOf(c), name, beg + 1 + |name| + |cl|, c != '&');
    hide Find, Named, NameOk, Free, Stands;
  }

  lemma {:induction false} PlainTag(t: string, beg: nat, name: string, cl: string)
    requires NameOk(name) && name[0] !in KINDS && cl != "" && Free(name, cl) && Stands(t, beg, name + cl)
    ensures ReadTag(t, beg, cl) == Tag(Variable(true), name, beg + |name| + |cl|, false)
  {
    TagEnds(t, beg, name, cl);
    NamedIs(Variable(true), name, beg + |name| + |cl|, false);
    hide Find, Named, NameOk, Free, Stands;
  }

  /** A variable in braces is not escaped; the closing brace stands behind a delimiter of braces, else inside it. */
  lemma {:induction false} BraceTag(t: string, beg: nat, name: string, cl: string)
    requires NameOk(name) && cl != ""
    requires if AllBraces(cl) then Free("{" + name, cl) && Stands(t, beg, "{" + name + cl + "}")
             else Free("{" + name + "}", cl) && Stands(t, beg, "{" + name + "}" + cl)
    ensures ReadTag(t, beg, cl) == Tag(Variable(false), name, beg + 2 + |name| + |cl|, false)
  {
    hide *;
    if AllBraces(cl) {
      BraceBehind(t, beg, name, cl);
    } else {
      BraceInside(t, beg, name, cl);
    }
  }

  lemma {:induction false} BraceBehind(t: string, beg: nat, name: string, cl: string)
    requires NameOk(name) && cl != "" && AllBraces(cl)
    requires Free("{" + name, cl) && Stands(t, beg, "{" + name + cl + "}")
    ensures ReadTag(t, beg, cl) == Tag(Variable(false), name, beg + 2 + |name| + |cl|, false)
  {
    StandsSplit(t, beg, "{" + name + cl, "}");
    var end := beg + 1 + |name| + |cl|;
    assert t[end] == t[end..end + 1][0];
    hide Find, Named, NameOk, Free, Stands, AllBraces;
    NamedIs(Variable(false), name, beg + 2 + |name| + |cl|, false);
    assert ("{" + name)[1..] == name;
    TagEnds(t, beg, "{" + name, cl);
  }

  lemma {:induction false} BraceInside(t: string, beg: nat, name: string, cl: string)
    requires NameOk(name) && cl != "" && !AllBraces(cl)
    requires Free("{" + name + "}", cl) && Stands(t, beg, "{" + name + "}" + cl)
    ensures ReadTag(t, beg, cl) == Tag(Variable(false), name, beg + 2 + |name| + |cl|, false)
  {
    hide Find, Named, NameOk, Free, Stands, AllBraces;
    NamedIs(Variable(false), name, beg + 2 + |name| + |cl|, false);
    var s := "{" + name + "}";
    assert s[..|s| - 1] == "{" + name && ("{" + name)[1..] == name;
    TagEnds(t, beg, s, cl);
  }

  /** A comment, and a tag that sets delimiters. */
  lemma {:induction false} OtherTags(t: string, beg: nat, s: string, cl: string)
    requires cl != "" && s != "" && Free(s, cl) && Stands(t, beg, s + cl)
    ensures s[0] == '!' ==> ReadTag(t, beg, cl) == Tag(Comment, "", beg + |s| + |cl|, true)
    ensures s[0] == '=' ==> ReadTag(t, beg, cl) == Tag(Delimiters("", ""), s, beg + |s| + |cl|, true)
  {
    TagEnds(t, beg, s, cl);
    hide Find, Free, Stands;
  }

  predicate Word(s: string) {
    s != "" && |s| <= MAX_DELIM_LENGTH && forall i :: 0 <= i < |s| ==> !IsSpace(s[i])
  }

  lemma {:induction false} WordEnds(a: string, rest: string)
    requires (forall i :: 0 <= i < |a| ==> !IsSpace(a[i])) && (rest == "" || IsSpace(rest[0]))
    ensures WordLength(a + rest) == |a|
    decreases |a|
  {
    if a == "" {
      assert a + rest == rest;
    } else {
      assert (a + rest)[1..] == a[1..] + rest;
      WordEnds(a[1..], rest);
    }
  }

  lemma {:induction false} TrimBlanks(blanks: string, s: string)
    requires (forall i :: 0 <= i < |blanks| ==> IsSpace(blanks[i])) && s != "" && !IsSpace(s[0])
    ensures TrimLeft(blanks + s) == s
    decreases |blanks|
  {
    if blanks == "" {
      assert blanks + s == s;
    } else {
      assert (blanks + s)[1..] == blanks[1..] + s;
      TrimBlanks(blanks[1..], s);
    }
  }

  /** The text of a tag that sets delimiters: the opening one, blanks, the closing one. */
  lemma {:induction false} DelimitersWritten(op: string, blanks: string, cl: string)
    requires Word(op) && Word(cl) && blanks != "" && forall i :: 0 <= i < |blanks| ==> IsSpace(blanks[i])
    ensures ReadDelimiters("=" + (op + (blanks + cl)) + "=") == Tag(Delimiters(op, cl), "", 0, true)
  {
    var inner := op + (blanks + cl);
    var s := "=" + inner + "=";
    assert s[1..|s| - 1] == inner && |s| >= 5 && s[|s| - 1] == '=';
    assert !IsSpace(inner[0]) && inner[|inner| - 1] == cl[|cl| - 1];
    assert TrimLeft(inner) == inner && TrimRight(inner) == inner;
    WordEnds(op, blanks + cl);
    assert inner[|op|..] == blanks + cl && inner[..|op|] == op;
    TrimBlanks(blanks, cl);
    hide TrimLeft, TrimRight, WordLength;
  }

  /** What follows a written tree: the end of the template, or a closing tag. */
  datatype Rest = Nothing | Closed(name: string)

  predicate Follows(t: string, e: nat, d: Delims, rest: Rest)
    requires d.Valid()
  {
    match rest
    case Nothing => e == |t|
    case Closed(name) => NameOk(name) && Free("/" + name, d.cl) && Stands(t, e, SpellTag("/" + name, d))
  }

  function ReadAs(nodes: seq<Node>, e: nat, d: Delims, depth: nat, rest: Rest): Parsed {
    match rest
    case Nothing => if depth == 0 then Whole(nodes) else Wrong(nodes, UnexpectedEnd)
    case Closed(name) => UpTo(nodes, name, e + |SpellTag("/" + name, d)|, d)
  }

  /** Behind a text stands a tag, which is read. */
  predicate Found(t: string, pos: nat, text: string, d: Delims, tag: Tag)
    requires d.Valid()
  {
    && pos + |text| < |t| && Find(t, pos, d.op) == pos + |text| && t[pos..pos + |text|] == text
    && pos + |text| + |d.op| <= |t| && ReadTag(t, pos + |text| + |d.op|, d.cl) == tag
  }

  /** `Parse` at a tag. */
  lemma {:induction false} ParseAt(t: string, pos: nat, text: string, tag: Tag, d: Delims, line: Line, depth: nat)
    requires d.Valid() && Found(t, pos, text, d, tag) && tag.Tag? && !tag.kind.Delimiters?
    requires tag.alone ==> LineAfter(t, pos, pos + |text|, line) == Mixed
    ensures tag.next <= |t| && Parse(t, pos, d, line, depth) == TagTree(t, text, tag.kind, tag.name, tag.next, d, depth)
  {
    hide Find, ReadTag, ReadDelimiters, LineAfter, Parse, TagTree;
    ParseTag(t, pos, d, line, depth);
  }

  /** Text and a tag as they are written. */
  predicate Wrote(t: string, pos: nat, text: string, s: string, d: Delims)
    requires d.Valid()
  {
    Free(text, d.op) && Stands(t, pos, text) && Stands(t, pos + |text|, SpellTag(s, d))
  }

  lemma {:induction false} MarkedFound(t: string, pos: nat, text: string, c: char, name: string, d: Delims)
    requires d.Valid() && Wrote(t, pos, text, [c] + name, d)
    requires c in "&^#/>" && NameOk(name) && Free([c] + name, d.cl)
    ensures Found(t, pos, text, d, Tag(KindOf(c), name, pos + |text| + |SpellTag([c] + name, d)|, c != '&'))
  {
    hide NameOk, Free, ReadTag, Find;
    TagFound(t, pos, text, [c] + name, d);
    MarkedTag(t, pos + |text| + |d.op|, c, name, d.cl);
  }

  lemma {:induction false} PlainFound(t: string, pos: nat, text: string, name: string, d: Delims)
    requires d.Valid() && Wrote(t, pos, text, name, d) && NameOk(name) && name[0] !in KINDS && Free(name, d.cl)
    ensures Found(t, pos, text, d, Tag(Variable(true), name, pos + |text| + |SpellTag(name, d)|, false))
  {
    hide NameOk, Free, ReadTag, Find;
    TagFound(t, pos, text, name, d);
    PlainTag(t, pos + |text| + |d.op|, name, d.cl);
  }

  /** The last text of a template. */
  lemma {:induction false} EndReads(t: string, pos: nat, text: string, d: Delims, line: Line, depth: nat)
    requires d.Valid() && Free(text, d.op) && Stands(t, pos, text) && pos + |text| == |t|
    ensures Parse(t, pos, d, line, depth)
         == if depth == 0 then Whole([Text(text)]) else Wrong([Text(text)], UnexpectedEnd)
  {
    FindNone(t, pos, text, d.op);
    hide Find, ReadTag, ReadDelimiters, LineAfter, Parse, TagTree, Free;
    ParseTag(t, pos, d, line, depth);
  }

  /** The last text of a section. */
  lemma {:induction false} CloseReads(t: string, pos: nat, text: string, name: string, d: Delims, line: Line,
                                      depth: nat)
    requires d.Valid() && Free(text, d.op) && Stands(t, pos, text) && Inline(text, line)
    requires NameOk(name) && Free("/" + name, d.cl) && Stands(t, pos + |text|, SpellTag("/" + name, d))
    ensures Parse(t, pos, d, line, depth) == UpTo([Text(text)], name, pos + |text| + |SpellTag("/" + name, d)|, d)
  {
    assert Wrote(t, pos, text, "/" + name, d);
    assert KindOf('/') == Close && '/' in "&^#/>" && ['/'] + name == "/" + name;
    hide *;
    InlineAt(t, pos, text, line);
    MarkedFound(t, pos, text, '/', name, d);
    CloseTree(t, pos, text, name, d, line, depth);
  }

  lemma {:induction false} CloseTree(t: string, pos: nat, text: string, name: string, d: Delims, line: Line, depth: nat)
    requires d.Valid() && Found(t, pos, text, d, Tag(Close, name, pos + |text| + |SpellTag("/" + name, d)|, true))
    requires LineAfter(t, pos, pos + |text|, line) == Mixed
    ensures Parse(t, pos, d, line, depth) == UpTo([Text(text)], name, pos + |text| + |SpellTag("/" + name, d)|, d)
  {
    hide Found, Parse, LineAfter, SpellTag;
    ParseAt(t, pos, text, Tag(Close, name, pos + |text| + |SpellTag("/" + name, d)|, true), d, line, depth);
  }

  /** The last text of a level. */
  lemma {:induction false} LastText(t: string, pos: nat, text: string, d: Delims, line: Line, depth: nat, rest: Rest)
    requires d.Valid() && Free(text, d.op) && Stands(t, pos, text)
    requires Follows(t, pos + |text|, d, rest) && (rest.Closed? ==> Inline(text, line))
    ensures Parse(t, pos, d, line, depth) == ReadAs([Text(text)], pos + |text|, d, depth, rest)
  {
    hide Parse, Free, NameOk, Stands, Inline, SpellTag;
    match rest
    case Nothing => EndReads(t, pos, text, d, line, depth);
    case Closed(name) => CloseReads(t, pos, text, name, d, line, depth);
  }

  /** A tag behind a text. */
  lemma {:induction false} TagFound(t: string, pos: nat, text: string, s: string, d: Delims)
    requires d.Valid() && Wrote(t, pos, text, s, d)
    ensures Find(t, pos, d.op) == pos + |text| < |t| && t[pos..pos + |text|] == text
    ensures Stands(t, pos + |text| + |d.op|, s + d.cl)
  {
    assert SpellTag(s, d) == d.op + (s + d.cl);
    StandsSplit(t, pos + |text|, d.op, s + d.cl);
    StandsJoin(t, pos, text, d.op);
    FindBehind(t, pos, text, d.op);
  }

  lemma SpellCons(nodes: seq<Node>, d: Delims)
    requires |nodes| > 2 && nodes[0].Text?
    ensures Spell(nodes, d) == nodes[0].text + (SpellNode(nodes[1], d) + Spell(nodes[2..], d))
  {
    SpellStep(nodes, d);
    SpellStep(nodes[1..], d);
    assert nodes[1..][0] == nodes[1] && nodes[1..][1..] == nodes[2..];
  }

  /** Where the first text, the node behind it and the rest of a written tree stand. */
  lemma SpellParts(t: string, pos: nat, nodes: seq<Node>, d: Delims)
    requires |nodes| > 2 && nodes[0].Text? && Stands(t, pos, Spell(nodes, d))
    ensures var text, node, more := nodes[0].text, nodes[1], nodes[2..];
            && Stands(t, pos, text) && Stands(t, pos + |text|, SpellNode(node, d))
            && Stands(t, pos + |text| + |SpellNode(node, d)|, Spell(more, d))
            && |Spell(nodes, d)| == |text| + |SpellNode(node, d)| + |Spell(more, d)|
            && [Text(text), node] + more == nodes
  {
    hide Spell, SpellNode, Stands;
    var text, node, more := nodes[0].text, nodes[1], nodes[2..];
    SpellCons(nodes, d);
    StandsSplit(t, pos, text, SpellNode(node, d) + Spell(more, d));
    StandsSplit(t, pos + |text|, SpellNode(node, d), Spell(more, d));
  }

  lemma SpellStep(nodes: seq<Node>, d: Delims)
    requires nodes != []
    ensures Spell(nodes, d) == SpellNode(nodes[0], d) + Spell(nodes[1..], d)
  {
  }

  lemma OnlyText(nodes: seq<Node>, d: Delims)
    requires |nodes| == 1 && nodes[0].Text?
    ensures Spell(nodes, d) == nodes[0].text && [Text(nodes[0].text)] == nodes
  {
    assert nodes[1..] == [] && nodes[0].text + "" == nodes[0].text;
  }

  /** Reading a written tree gives the tree. */
  lemma {:induction false} Reads(t: string, pos: nat, nodes: seq<Node>, d: Delims, line: Line, depth: nat, room: nat,
                                 rest: Rest)
    requires d.Valid() && TreeOk(nodes, d, line, rest.Closed?, room) && depth + room < MAX_DEPTH
    requires Stands(t, pos, Spell(nodes, d)) && Follows(t, pos + |Spell(nodes, d)|, d, rest)
    ensures Parse(t, pos, d, line, depth) == ReadAs(nodes, pos + |Spell(nodes, d)|, d, depth, rest)
    decreases nodes, 1
  {
    hide *;
    TreeOkParts(nodes, d, line, rest.Closed?, room);
    if |nodes| == 1 {
      OnlyText(nodes, d);
      LastText(t, pos, nodes[0].text, d, line, depth, rest);
    } else {
      var text, node, more := nodes[0].text, nodes[1], nodes[2..];
      SpellParts(t, pos, nodes, d);
      Reads(t, pos + |text| + |SpellNode(node, d)|, more, d, Mixed, depth, room, rest);
      NodeReads(t, pos, text, node, d, line, depth, room);
      PrependRead([Text(text), node], more, pos + |Spell(nodes, d)|, d, depth, rest);
    }
  }

  lemma PrependRead(front: seq<Node>, more: seq<Node>, e: nat, d: Delims, depth: nat, rest: Rest)
    ensures Prepend(front, ReadAs(more, e, d, depth, rest)) == ReadAs(front + more, e, d, depth, rest)
  {
  }

  lemma TreeOkParts(nodes: seq<Node>, d: Delims, line: Line, closed: bool, room: nat)
    requires d.Valid() && TreeOk(nodes, d, line, closed, room)
    ensures nodes != [] && nodes[0].Text? && Free(nodes[0].text, d.op) && |nodes| != 2
    ensures |nodes| == 1 && closed ==> Inline(nodes[0].text, line)
    ensures |nodes| > 2 ==> NodeOk(nodes[1], d, nodes[0].text, line, room) && TreeOk(nodes[2..], d, Mixed, closed, room)
  {
    hide NodeOk, Free, Inline;
  }

  /** A text and a node behind it. */
  lemma {:induction false} NodeReads(t: string, pos: nat, text: string, node: Node, d: Delims, line: Line, depth: nat,
                                     room: nat)
    requires d.Valid() && Free(text, d.op) && NodeOk(node, d, text, line, room) && depth + room < MAX_DEPTH
    requires Stands(t, pos, text) && Stands(t, pos + |text|, SpellNode(node, d))
    ensures pos + |text| + |SpellNode(node, d)| <= |t|
    ensures Parse(t, pos, d, line, depth)
         == Prepend([Text(text), node], Parse(t, pos + |text| + |SpellNode(node, d)|, d, Mixed, depth))
    decreases node, 0
  {
    hide Parse, Free, Stands, Inline, SpellNode, TreeOk, NameOk;
    match node
    case Replace(name, escape) => VariableReads(t, pos, text, name, escape, d, line, depth);
    case Block(name, inverted, ending, body) => BlockReads(t, pos, text, node, d, line, depth, room);
  }

  lemma {:induction false} VariableReads(t: string, pos: nat, text: string, name: string, escape: bool, d: Delims,
                                         line: Line, depth: nat)
    requires d.Valid() && Free(text, d.op)
    requires NameOk(name) && if escape then name[0] !in KINDS && Free(name, d.cl) else Free("&" + name, d.cl)
    requires Stands(t, pos, text) && Stands(t, pos + |text|, SpellNode(Replace(name, escape), d))
    ensures pos + |text| + |SpellNode(Replace(name, escape), d)| <= |t|
    ensures Parse(t, pos, d, line, depth)
         == Prepend([Text(text), Replace(name, escape)],
                    Parse(t, pos + |text| + |SpellNode(Replace(name, escape), d)|, d, Mixed, depth))
  {
    hide *;
    var s := if escape then name else "&" + name;
    var next := pos + |text| + |SpellNode(Replace(name, escape), d)|;
    VariableText(name, escape, d);
    IsWrote(t, pos, text, s, d);
    if escape {
      PlainFound(t, pos, text, name, d);
    } else {
      AndIsPlain();
      assert ['&'] + name == "&" + name;
      MarkedFound(t, pos, text, '&', name, d);
    }
    VariableTree(t, pos, text, name, escape, next, d, line, depth);
  }

  lemma VariableText(name: string, escape: bool, d: Delims)
    ensures SpellNode(Replace(name, escape), d) == SpellTag(if escape then name else "&" + name, d)
  {
  }

  lemma AndIsPlain()
    ensures KindOf('&') == Variable(false) && '&' in "&^#/>"
  {
  }

  lemma {:induction false} VariableTree(t: string, pos: nat, text: string, name: string, escape: bool, next: nat,
                                        d: Delims, line: Line, depth: nat)
    requires d.Valid() && next <= |t| && Found(t, pos, text, d, Tag(Variable(escape), name, next, false))
    ensures Parse(t, pos, d, line, depth)
            == Prepend([Text(text), Replace(name, escape)], Parse(t, next, d, Mixed, depth))
  {
    hide Found, Parse, LineAfter, Prepend;
    ParseAt(t, pos, text, Tag(Variable(escape), name, next, false), d, line, depth);
  }

  lemma BlockParts(t: string, i: nat, node: Node, d: Delims)
    requires node.Block? && Stands(t, i, SpellNode(node, d))
    ensures var open := SpellTag((if node.inverted then "^" else "#") + node.name, d);
            var close := SpellTag("/" + node.name, d);
            && i + |SpellNode(node, d)| <= |t|
            && |SpellNode(node, d)| == |open| + |Spell(node.body, d)| + |close|
            && Stands(t, i, open) && Stands(t, i + |open|, Spell(node.body, d))
            && Stands(t, i + |open| + |Spell(node.body, d)|, close)
  {
    var open := SpellTag((if node.inverted then "^" else "#") + node.name, d);
    var close := SpellTag("/" + node.name, d);
    assert SpellNode(node, d) == open + Spell(node.body, d) + close;
    assert i + |SpellNode(node, d)| <= |t|;
    hide SpellTag, Spell, Stands;
    StandsSplit(t, i, open + Spell(node.body, d), close);
    StandsSplit(t, i, open, Spell(node.body, d));
  }

  lemma {:induction false} BlockReads(t: string, pos: nat, text: string, node: Node, d: Delims, line: Line, depth: nat,
                                      room: nat)
    requires d.Valid() && Free(text, d.op) && node.Block? && NodeOk(node, d, text, line, room)
             && depth + room < MAX_DEPTH
    requires Stands(t, pos, text) && Stands(t, pos + |text|, SpellNode(node, d))
    ensures pos + |text| + |SpellNode(node, d)| <= |t|
    ensures Parse(t, pos, d, line, depth)
         == Prepend([Text(text), node], Parse(t, pos + |text| + |SpellNode(node, d)|, d, Mixed, depth))
    decreases node.body, 3
  {
    hide *;
    BlockOkParts(node, d, text, line, room);
    var c := if node.inverted then '^' else '#';
    var open := SpellTag([c] + node.name, d);
    var e := pos + |text| + |SpellNode(node, d)|;
    BlockParts(t, pos + |text|, node, d);
    BlockOpens(t, pos, text, c, node.name, d, line, depth);
    BodyReads(t, pos + |text| + |open|, node, d, e, depth + 1, room - 1);
    SectionReads(t, text, node, d, e, depth);
  }

  /** The body of a section and its closing tag, which ends at `e`. */
  lemma {:induction false} BodyReads(t: string, pos: nat, node: Node, d: Delims, e: nat, depth: nat, room: nat)
    requires d.Valid() && node.Block? && TreeOk(node.body, d, Mixed, true, room) && depth + room < MAX_DEPTH
    requires NameOk(node.name) && Free("/" + node.name, d.cl) && Stands(t, pos, Spell(node.body, d))
    requires Stands(t, pos + |Spell(node.body, d)|, SpellTag("/" + node.name, d))
    requires e == pos + |Spell(node.body, d)| + |SpellTag("/" + node.name, d)|
    ensures Parse(t, pos, d, Mixed, depth) == UpTo(node.body, node.name, e, d)
    decreases node.body, 2
  {
    hide *;
    var rest := Rest.Closed(node.name);
    ClosedFollows(t, pos + |Spell(node.body, d)|, d, node.name);
    Reads(t, pos, node.body, d, Mixed, depth, room, rest);
    ReadAsClosed(node.body, pos + |Spell(node.body, d)|, d, depth, node.name);
  }

  lemma ClosedFollows(t: string, e: nat, d: Delims, name: string)
    requires d.Valid() && NameOk(name) && Free("/" + name, d.cl) && Stands(t, e, SpellTag("/" + name, d))
    ensures Follows(t, e, d, Rest.Closed(name))
  {
    hide NameOk, Free, Stands, SpellTag;
  }

  lemma ReadAsClosed(nodes: seq<Node>, e: nat, d: Delims, depth: nat, name: string)
    ensures ReadAs(nodes, e, d, depth, Rest.Closed(name)) == UpTo(nodes, name, e + |SpellTag("/" + name, d)|, d)
  {
  }

  lemma SectionReads(t: string, text: string, node: Node, d: Delims, e: nat, depth: nat)
    requires d.Valid() && e <= |t| && node.Block? && node.ending == Restored
    ensures Prepend([Text(text)], SectionTree(t, UpTo(node.body, node.name, e, d), d, node.name, node.inverted, depth))
         == Prepend([Text(text), node], Parse(t, e, d, Mixed, depth))
  {
    hide Parse;
    PrependPrepend([Text(text)], [node], Parse(t, e, d, Mixed, depth));
    assert [Text(text)] + [node] == [Text(text), node];
  }

  lemma BlockOkParts(node: Node, d: Delims, text: string, line: Line, room: nat)
    requires d.Valid() && node.Block? && NodeOk(node, d, text, line, room)
    ensures NameOk(node.name) && Free([if node.inverted then '^' else '#'] + node.name, d.cl)
            && Free("/" + node.name, d.cl)
    ensures node.ending == Restored && room > 0 && Inline(text, line) && TreeOk(node.body, d, Mixed, true, room - 1)
  {
    hide NameOk, Free, Inline, TreeOk;
  }

  /** The opening tag of a section. */
  lemma {:induction false} BlockOpens(t: string, pos: nat, text: string, c: char, name: string, d: Delims, line: Line,
                                      depth: nat)
    requires d.Valid() && Free(text, d.op) && Stands(t, pos, text) && Inline(text, line) && depth + 1 < MAX_DEPTH
    requires (c == '^' || c == '#') && NameOk(name) && Free([c] + name, d.cl)
    requires Stands(t, pos + |text|, SpellTag([c] + name, d))
    ensures var next := pos + |text| + |SpellTag([c] + name, d)|;
            && next <= |t|
            && Parse(t, pos, d, line, depth)
            == Prepend([Text(text)], SectionTree(t, Parse(t, next, d, Mixed, depth + 1), d, name, c == '^', depth))
  {
    hide *;
    var next := pos + |text| + |SpellTag([c] + name, d)|;
    IsWrote(t, pos, text, [c] + name, d);
    SectionMark(c);
    InlineAt(t, pos, text, line);
    MarkedFound(t, pos, text, c, name, d);
    SectionOpens(t, pos, text, name, c == '^', next, d, line, depth);
  }

  lemma IsWrote(t: string, pos: nat, text: string, s: string, d: Delims)
    requires d.Valid() && Free(text, d.op) && Stands(t, pos, text) && Stands(t, pos + |text|, SpellTag(s, d))
    ensures Wrote(t, pos, text, s, d) && pos + |text| + |SpellTag(s, d)| <= |t|
  {
    hide Free, SpellTag;
  }

  lemma SectionMark(c: char)
    requires c == '^' || c == '#'
    ensures c in "&^#/>" && c != '&' && KindOf(c) == Section(c == '^')
  {
  }

  lemma {:induction false} SectionOpens(t: string, pos: nat, text: string, name: string, inverted: bool, next: nat,
                                        d: Delims, line: Line, depth: nat)
    requires d.Valid() && next <= |t| && Found(t, pos, text, d, Tag(Section(inverted), name, next, true))
    requires LineAfter(t, pos, pos + |text|, line) == Mixed && depth + 1 < MAX_DEPTH
    ensures Parse(t, pos, d, line, depth)
         == Prepend([Text(text)], SectionTree(t, Parse(t, next, d, Mixed, depth + 1), d, name, inverted, depth))
  {
    hide Found, Parse, LineAfter, Prepend, SectionTree;
    ParseAt(t, pos, text, Tag(Section(inverted), name, next, true), d, line, depth);
  }

  /** A written template is read as its tree, and rendered to the evaluation of the tree. */
  lemma {:induction false} SpelledRendered(nodes: seq<Node>, root: Json)
    requires TreeOk(nodes, BRACES, Blank, false, MAX_DEPTH - 1)
    ensures var t := Spell(nodes, BRACES);
            && ParseTemplate(t) == Whole(nodes)
            && Interpret(t, root).verdict == Ok && Interpret(t, root).out == Eval(nodes, [root])
  {
    assert BRACES.Valid();
    hide *;
    var t := Spell(nodes, BRACES);
    WholeStands(t, BRACES);
    Reads(t, 0, nodes, BRACES, Blank, 0, MAX_DEPTH - 1, Nothing);
    TreeOkSteady(nodes, BRACES, Blank, false, MAX_DEPTH - 1);
    TemplateIs(t, nodes);
    SteadyMeaning(t, root);
  }

  lemma WholeStands(t: string, d: Delims)
    requires d.Valid()
    ensures Stands(t, 0, t) && Follows(t, 0 + |t|, d, Nothing)
  {
    assert t[0..|t|] == t;
  }

  lemma TemplateIs(t: string, nodes: seq<Node>)
    requires Parse(t, 0, BRACES, Blank, 0) == ReadAs(nodes, |t|, BRACES, 0, Nothing)
    ensures ParseTemplate(t) == Whole(nodes)
  {
    hide Parse;
  }

  lemma {:induction false} TreeOkSteady(nodes: seq<Node>, d: Delims, line: Line, closed: bool, room: nat)
    requires d.Valid() && TreeOk(nodes, d, line, closed, room)
    ensures Steady(nodes)
    decreases nodes
  {
    if |nodes| > 1 {
      TreeOkSteady(nodes[2..], d, Mixed, closed, room);
      if nodes[1].Block? {
        TreeOkSteady(nodes[1].body, d, Mixed, true, room - 1);
      }
      assert forall i :: 2 <= i < |nodes| ==> nodes[i] == nodes[2..][i - 2];
    }
  }

  /** A closing tag that closes nothing is an error, whatever follows. */
  lemma {:induction false} StrayClose(t: string, nodes: seq<Node>, name: string, root: Json)
    requires TreeOk(nodes, BRACES, Blank, true, MAX_DEPTH - 1) && Stands(t, 0, Spell(nodes, BRACES))
    requires NameOk(name) && Free("/" + name, "}}") && Stands(t, |Spell(nodes, BRACES)|, SpellTag("/" + name, BRACES))
    ensures Interpret(t, root).verdict == Closing
  {
    BraceMarks();
    hide *;
    var e := |Spell(nodes, BRACES)|;
    ClosedFollows(t, e, BRACES, name);
    Reads(t, 0, nodes, BRACES, Blank, 0, MAX_DEPTH - 1, Rest.Closed(name));
    TreeOkSteady(nodes, BRACES, Blank, true, MAX_DEPTH - 1);
    StrayIs(t, nodes, e, name);
    SteadyMeaning(t, root);
  }

  lemma BraceMarks()
    ensures BRACES.Valid() && BRACES.cl == "}}" && BRACES.op == "{{" && MAX_DEPTH == 256
  {
  }

  lemma StrayIs(t: string, nodes: seq<Node>, e: nat, name: string)
    requires Parse(t, 0, BRACES, Blank, 0) == ReadAs(nodes, 0 + e, BRACES, 0, Rest.Closed(name))
    ensures ParseTemplate(t) == Wrong(nodes, Closing)
  {
    hide Parse;
  }

  /**
   * A section that is not closed is an error at the end of the template, and so is one that is closed by
   * another name, whatever follows.
   */
  lemma {:induction false} BadSection(t: string, text: string, c: char, name: string, body: seq<Node>, rest: Rest,
                                      root: Json)
    requires Free(text, "{{") && Inline(text, Blank) && (c == '#' || c == '^')
    requires NameOk(name) && Free([c] + name, "}}") && (rest.Closed? ==> rest.name != name)
    requires TreeOk(body, BRACES, Mixed, rest.Closed?, MAX_DEPTH - 2)
    requires var e := |text| + |SpellTag([c] + name, BRACES)|;
             && Stands(t, 0, text) && Stands(t, |text|, SpellTag([c] + name, BRACES))
                 && Stands(t, e, Spell(body, BRACES))
             && Follows(t, e + |Spell(body, BRACES)|, BRACES, rest)
    ensures Interpret(t, root).verdict == if rest.Closed? then Closing else UnexpectedEnd
  {
    BraceMarks();
    hide *;
    var e := |text| + |SpellTag([c] + name, BRACES)|;
    BlockOpens(t, 0, text, c, name, BRACES, Blank, 0);
    Reads(t, e, body, BRACES, Mixed, 1, MAX_DEPTH - 2, rest);
    TreeOkSteady(body, BRACES, Mixed, rest.Closed?, MAX_DEPTH - 2);
    BadSectionIs(t, text, c, name, body, e, rest);
    SteadyMeaning(t, root);
  }

  lemma BadSectionIs(t: string, text: string, c: char, name: string, body: seq<Node>, e: nat, rest: Rest)
    requires Steady(body) && (rest.Closed? ==> rest.name != name) && e <= |t|
    requires Parse(t, e, BRACES, Mixed, 1) == ReadAs(body, e + |Spell(body, BRACES)|, BRACES, 1, rest)
    requires Parse(t, 0, BRACES, Blank, 0)
          == Prepend([Text(text)], SectionTree(t, Parse(t, e, BRACES, Mixed, 1), BRACES, name, c == '^', 0))
    ensures var p := ParseTemplate(t);
            p.Wrong? && Steady(p.nodes) && p.code == if rest.Closed? then Closing else UnexpectedEnd
  {
    hide Parse;
  }

  /** Tags that are refused, and for what. */
  lemma {:induction false} RefusedTags(t: string, beg: nat, s: string, cl: string)
    requires cl != "" && s != "" && Free(s, cl) && Stands(t, beg, s + cl) && s[0] !in "!="
    ensures AllSpace(if s[0] in KINDS then s[1..] else s) && s[0] != '{' ==> ReadTag(t, beg, cl) == BadTag(EmptyTag)
    ensures s[0] == '{' && !AllBraces(cl) && s[|s| - 1] != '}' ==> ReadTag(t, beg, cl) == BadTag(BadUnescapeTag)
  {
    TagEnds(t, beg, s, cl);
    hide Find, Free, Stands, AllBraces;
    if AllSpace(if s[0] in KINDS then s[1..] else s) && s[0] != '{' {
      SpaceTrimmed(if s[0] in KINDS then s[1..] else s);
    }
  }

  predicate AllSpace(s: string) {
    forall i :: 0 <= i < |s| ==> IsSpace(s[i])
  }

  lemma {:induction false} SpaceTrimmed(s: string)
    requires AllSpace(s)
    ensures Trim(s) == ""
    decreases |s|
  {
    if s != "" {
      SpaceTrimmed(s[1..]);
    }
  }

  /** A name of more than 4096 characters. */
  lemma {:induction false} LongName(kind: Kind, name: string, next: nat, alone: bool)
    requires |name| > 4096 && !IsSpace(name[0]) && !IsSpace(name[|name| - 1])
    ensures Named(kind, name, next, alone) == BadTag(TagTooLong)
  {
  }

  /** A tag that is not closed ends the template too early. */
  lemma {:induction false} OpenTag(t: string, beg: nat, s: string, cl: string)
    requires cl != "" && Free(s, cl) && Stands(t, beg, s) && beg + |s| == |t|
    ensures ReadTag(t, beg, cl) == BadTag(UnexpectedEnd)
  {
    FindNone(t, beg, s, cl);
    hide Find, Free;
  }
}
