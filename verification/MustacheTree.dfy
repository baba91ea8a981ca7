/**
 * The section tree a template spells and its evaluation, with no positions and no state; and the
 * proof that the interpreter gives exactly this on the templates the tree grammar covers.
 */
module MustacheTree {
  import opened Json
  import opened MustacheText
  import opened MustacheContext
  import opened MustacheInterp
  import opened MustacheCursor
  import opened MustacheProcess

  /**
   * How a section ends: with the delimiters it began with, with others, or with an error in its body or
   * its closing tag.
   */
  datatype Ending = Restored | Changed | Unclosed

  datatype Node =
    | Text(text: string)
    | Replace(name: string, escape: bool)
    | Block(name: string, inverted: bool, ending: Ending, body: seq<Node>)

  /** What a list of nodes renders to; `ctx` holds the entered values, innermost last. */
  function Eval(nodes: seq<Node>, ctx: seq<Json>): string
    requires ctx != []
    decreases nodes, 0
  {
    if nodes == [] then ""
    else EvalNode(nodes[0], ctx) + Eval(nodes[1..], ctx)
  }

  function EvalNode(node: Node, ctx: seq<Json>): string
    requires ctx != []
    decreases node, 0
  {
    match node
    case Text(text) => text
    case Replace(name, escape) => Replacement(ctx, name, escape)
    case Block(name, inverted, _, body) =>
      var items := Entered(ctx, name);
      if !inverted then EvalEach(body, items, ctx)
      else if items == [] then Eval(body, ctx)
      else ""
  }

  /** A section body once for each item, the item being innermost. */
  function EvalEach(body: seq<Node>, items: seq<Json>, ctx: seq<Json>): string
    requires ctx != []
    decreases body, 1, |items|
  {
    if items == [] then ""
    else Eval(body, ctx + [items[0]]) + EvalEach(body, items[1..], ctx)
  }

  /**
   * No section that ends with other delimiters than it began with is run for more than one item.
   * A section that is not closed ends the reading on its first pass.
   */
  predicate Settled(nodes: seq<Node>, ctx: seq<Json>)
    requires ctx != []
    decreases nodes, 0
  {
    nodes == [] || (SettledNode(nodes[0], ctx) && Settled(nodes[1..], ctx))
  }

  predicate SettledNode(node: Node, ctx: seq<Json>)
    requires ctx != []
    decreases node, 0
  {
    node.Block? ==>
      var items := Entered(ctx, node.name);
      if node.inverted then items == [] ==> Settled(node.body, ctx)
      else if node.ending == Restored then SettledEach(node.body, items, ctx)
      else items != [] ==> (node.ending == Changed ==> |items| == 1) && Settled(node.body, ctx + [items[0]])
  }

  predicate SettledEach(body: seq<Node>, items: seq<Json>, ctx: seq<Json>)
    requires ctx != []
    decreases body, 1
  {
    forall i :: 0 <= i < |items| ==> Settled(body, ctx + [items[i]])
  }

  /** Every section that is closed restores the delimiters it began with. */
  predicate Steady(nodes: seq<Node>) {
    forall i :: 0 <= i < |nodes| && nodes[i].Block? ==> nodes[i].ending != Changed && Steady(nodes[i].body)
  }

  /** Then it does not matter how many items there are. */
  lemma {:induction false} SteadySettled(nodes: seq<Node>, ctx: seq<Json>)
    requires ctx != [] && Steady(nodes)
    ensures Settled(nodes, ctx)
    decreases nodes
  {
    if nodes != [] {
      var node := nodes[0];
      SteadySettled(nodes[1..], ctx);
      if node.Block? {
        SteadySettled(node.body, ctx);
        forall j: Json ensures Settled(node.body, ctx + [j]) {
          SteadySettled(node.body, ctx + [j]);
        }
      }
    }
  }

  /** The line state after the text t[from..to]. */
  function LineAfter(t: string, from: nat, to: nat, line: Line): Line
    requires from <= to <= |t|
    decreases |t| - from
  {
    if from == to then line
    else LineAfter(t, from + 1, to, if t[from] == '\n' then Blank else if IsSpace(t[from]) then line else Mixed)
  }

  /** The pair of delimiters in force. */
  datatype Delims = Delims(op: string, cl: string)
  {
    predicate Valid() { op != "" && cl != "" && !IsSpace(op[0]) }

    /** The mode after a tag on a line that does not stand alone. */
    function Plain(): Mode { Mode(op, cl, Mixed, "") }
  }

  const BRACES := Delims("{{", "}}")

  /**
   * The outcome of reading a template as a tree. `Outside` marks what the tree reading does not
   * cover: partial tags, tags that may stand alone with only blanks before them on their line, and
   * nesting beyond 255. An error comes with the nodes that are read before it.
   */
  datatype Parsed =
    | Wrong(nodes: seq<Node>, code: Verdict)
    | Outside
    | Whole(nodes: seq<Node>)
    | UpTo(nodes: seq<Node>, name: string, pos: nat, delims: Delims)

  function Prepend(nodes: seq<Node>, p: Parsed): (r: Parsed)
    ensures p.UpTo? ==> r.UpTo? && r.pos == p.pos && r.delims == p.delims
    ensures !p.UpTo? ==> !r.UpTo?
    ensures r.Whole? ==> p.Whole?
  {
    if p.Outside? then p else p.(nodes := nodes + p.nodes)
  }

  /** Reads nodes from `pos` up to the end or the next closing tag of this level, `d` being in force at first. */
  function Parse(t: string, pos: nat, d: Delims, line: Line, depth: nat): (r: Parsed)
    requires pos <= |t| && d.Valid()
    ensures r.UpTo? ==> pos < r.pos <= |t| && r.delims.Valid()
    ensures r.Whole? ==> depth == 0
    decreases |t| - pos
  {
    var beg := Find(t, pos, d.op);
    var text := Text(t[pos..beg]);
    if beg == |t| then (if depth == 0 then Whole([text]) else Wrong([text], UnexpectedEnd))
    else
      match ReadTag(t, beg + |d.op|, d.cl)
      case BadTag(code) => Wrong([text], code)
      case Tag(kind, name, next, alone) =>
        if alone && LineAfter(t, pos, beg, line) != Mixed then Outside
        else
          match kind
          case Comment => Prepend([text], Parse(t, next, d, Mixed, depth))
          case Delimiters(_, _) =>
            var change := ReadDelimiters(name);
            if change.BadTag? then Wrong([text], change.code)
            else Prepend([text], Parse(t, next, Delims(change.kind.op, change.kind.cl), Mixed, depth))
          case Variable(escape) => Prepend([text, Replace(name, escape)], Parse(t, next, d, Mixed, depth))
          case Close => UpTo([text], name, next, d)
          case Section(inverted) =>
            if depth + 1 == MAX_DEPTH then Outside
            else
              var body := Parse(t, next, d, Mixed, depth + 1);
              if body.Outside? then Outside
              else if body.UpTo? && body.name == name then
                var block := Block(name, inverted, if body.delims == d then Restored else Changed, body.nodes);
                Prepend([text, block], Parse(t, body.pos, body.delims, Mixed, depth))
              else
                Wrong([text, Block(name, inverted, Unclosed, body.nodes)], if body.Wrong? then body.code else Closing)
          case Partial => Outside
  }

  /** A whole template: a closing tag that closes nothing is an error. */
  function ParseTemplate(t: string): Parsed {
    var p := Parse(t, 0, BRACES, Blank, 0);
    if p.UpTo? then Wrong(p.nodes, Closing) else p
  }

  lemma {:induction false} EvalConcat(a: seq<Node>, b: seq<Node>, ctx: seq<Json>)
    requires ctx != []
    ensures Eval(a + b, ctx) == Eval(a, ctx) + Eval(b, ctx)
    decreases |a|
  {
    if a == [] {
      assert a + b == b;
    } else {
      assert (a + b)[1..] == a[1..] + b;
      EvalConcat(a[1..], b, ctx);
    }
  }

  /** What a pass writes: nothing in a skipped region. */
  function Shown(enabled: bool, s: string): string {
    if enabled then s else ""
  }

  lemma ShownConcat(enabled: bool, out: string, a: string, b: string)
    ensures out + Shown(enabled, a) + Shown(enabled, b) == out + Shown(enabled, a + b)
  {
  }

  lemma {:induction false} SettledConcat(a: seq<Node>, b: seq<Node>, ctx: seq<Json>)
    requires ctx != []
    ensures Settled(a + b, ctx) <==> Settled(a, ctx) && Settled(b, ctx)
    decreases |a|
  {
    hide SettledNode;
    if a == [] {
      assert a + b == b;
    } else {
      assert (a + b)[1..] == a[1..] + b;
      SettledConcat(a[1..], b, ctx);
    }
  }

  lemma ShownSplit(t: string, start: nat, mid: nat, end: nat, enabled: bool, out: string)
    requires start <= mid <= end <= |t|
    ensures out + Shown(enabled, t[start..mid]) + Shown(enabled, t[mid..end]) == out + Shown(enabled, t[start..end])
  {
    assert t[start..end] == t[start..mid] + t[mid..end];
  }

  lemma NoOpenAt(t: string, at: nat, op: string)
    requires at < |t| && IsSpace(t[at]) && op != "" && !IsSpace(op[0])
    ensures !Matches(t, at, op)
  {
  }

  lemma {:induction false} ScanLine(t: string, start: nat, beg: nat, line: Line, enabled: bool, op: string, out: string)
    requires start <= beg < |t| && line != Lone && op != "" && !IsSpace(op[0]) && t[beg] == '\n'
    ensures Find(t, beg, op) == Find(t, beg + 1, op)
    ensures Scan(t, start, beg, line, "", enabled, op, out)
         == Scan(t, beg + 1, beg + 1, Blank, "", enabled, op, out + Shown(enabled, t[start..beg + 1]))
  {
    NoOpenAt(t, beg, op);
    assert Piece(t, start, beg, line, "", enabled) == Shown(enabled, t[start..beg + 1]);
  }

  lemma PieceAtEnd(t: string, start: nat, line: Line, enabled: bool)
    requires start <= |t| && line != Lone
    ensures Piece(t, start, |t|, line, "", enabled) == Shown(enabled, t[start..|t|])
  {
  }

  /** The scan from `beg` shows the text from `start` verbatim up to the next opening delimiter. */
  ghost predicate Shows(t: string, start: nat, beg: nat, line: Line, enabled: bool, op: string, out: string)
    requires start <= beg <= |t| && op != ""
  {
    var k := Find(t, beg, op);
    var r := Scan(t, start, beg, line, "", enabled, op, out);
    if k == |t| then r == AtEnd(out + Shown(enabled, t[start..k]))
    else
      && r.AtTag? && r.beg == k && r.line == LineAfter(t, beg, k, line) && r.line != Lone
      && r.out + Shown(enabled, t[r.start..k]) == out + Shown(enabled, t[start..k])
  }

  lemma {:induction false} ShowsBreak(t: string, start: nat, beg: nat, line: Line, enabled: bool, op: string,
                                      out: string)
    requires start <= beg < |t| && line != Lone && op != "" && !IsSpace(op[0]) && t[beg] == '\n'
    requires Shows(t, beg + 1, beg + 1, Blank, enabled, op, out + Shown(enabled, t[start..beg + 1]))
    ensures Shows(t, start, beg, line, enabled, op, out)
  {
    hide Scan, Find, Matches, Shown, Piece;
    ScanLine(t, start, beg, line, enabled, op, out);
    ShownSplit(t, start, beg + 1, Find(t, beg + 1, op), enabled, out);
  }

  lemma {:induction false} ShowsChar(t: string, start: nat, beg: nat, line: Line, enabled: bool, op: string,
                                     out: string)
    requires start <= beg < |t| && line != Lone && op != "" && !IsSpace(op[0]) && t[beg] != '\n'
    requires IsSpace(t[beg]) || !Matches(t, beg, op)
    requires Shows(t, start, beg + 1, if IsSpace(t[beg]) then line else Mixed, enabled, op, out)
    ensures Shows(t, start, beg, line, enabled, op, out)
  {
    if IsSpace(t[beg]) {
      NoOpenAt(t, beg, op);
    }
    hide Matches, Shown;
  }

  lemma {:induction false} ShowsTag(t: string, start: nat, beg: nat, line: Line, enabled: bool, op: string, out: string)
    requires start <= beg < |t| && line != Lone && op != "" && !IsSpace(op[0])
    requires !IsSpace(t[beg]) && Matches(t, beg, op)
    ensures Shows(t, start, beg, line, enabled, op, out)
  {
    hide Matches, Shown;
  }

  /** Text outside standalone lines. */
  lemma {:induction false} ScanShows(t: string, start: nat, beg: nat, line: Line, enabled: bool, op: string,
                                     out: string)
    requires start <= beg <= |t| && line != Lone && op != "" && !IsSpace(op[0])
    ensures Shows(t, start, beg, line, enabled, op, out)
    decreases |t| - beg
  {
    if beg == |t| {
      PieceAtEnd(t, start, line, enabled);
      hide Shown, Piece;
    } else {
      hide Shows, Matches, Shown;
      if t[beg] == '\n' {
        ScanShows(t, beg + 1, beg + 1, Blank, enabled, op, out + Shown(enabled, t[start..beg + 1]));
        ShowsBreak(t, start, beg, line, enabled, op, out);
      } else if IsSpace(t[beg]) || !Matches(t, beg, op) {
        ScanShows(t, start, beg + 1, if IsSpace(t[beg]) then line else Mixed, enabled, op, out);
        ShowsChar(t, start, beg, line, enabled, op, out);
      } else {
        ShowsTag(t, start, beg, line, enabled, op, out);
      }
    }
  }

  /** A pass of the interpreter does what the tree reading says. */
  ghost predicate Does(p: Parsed, r: Pass, enabled: bool, ctx: seq<Json>, out: string)
    requires ctx != []
  {
    match p
    case Outside => true
    case Wrong(_, code) => r.Stopped? && r.verdict == code
    case Whole(nodes) => r.Stopped? && r.verdict == Ok && r.out == out + Shown(enabled, Eval(nodes, ctx))
    case UpTo(nodes, name, pos, d) =>
      && r.Closed? && r.name == name && r.pos == pos && r.mode == d.Plain()
      && r.out == out + Shown(enabled, Eval(nodes, ctx))
  }

  predicate Reaches(nodes: seq<Node>, enabled: bool, ctx: seq<Json>)
    requires ctx != []
  {
    enabled ==> Settled(nodes, ctx)
  }

  /** It does so unless it repeats a section whose delimiters have changed. */
  ghost predicate Means(p: Parsed, r: Pass, enabled: bool, ctx: seq<Json>, out: string)
    requires ctx != []
  {
    !p.Outside? && Reaches(p.nodes, enabled, ctx) ==> Does(p, r, enabled, ctx, out)
  }

  /** If what follows some nodes means the rest of the tree, the whole means the whole tree. */
  lemma {:induction false} MeansPrepend(nodes: seq<Node>, p: Parsed, r: Pass, enabled: bool, ctx: seq<Json>,
                                        out: string)
    requires ctx != []
    requires Reaches(nodes, enabled, ctx) ==> Means(p, r, enabled, ctx, out + Shown(enabled, Eval(nodes, ctx)))
    ensures Means(Prepend(nodes, p), r, enabled, ctx, out)
  {
    hide Eval, Settled;
    if !p.Outside? {
      SettledConcat(nodes, p.nodes, ctx);
      EvalConcat(nodes, p.nodes, ctx);
      ShownConcat(enabled, out, Eval(nodes, ctx), Eval(p.nodes, ctx));
    }
  }

  lemma {:induction false} EvalText(s: string, ctx: seq<Json>)
    requires ctx != []
    ensures Eval([Text(s)], ctx) == s
    ensures forall n :: Eval([Text(s), n], ctx) == s + EvalNode(n, ctx)
  {
    assert Eval([], ctx) == "";
    forall n
      ensures Eval([Text(s), n], ctx) == s + EvalNode(n, ctx)
    {
      assert [Text(s), n][1..] == [n] && [n][1..] == [];
    }
  }

  lemma SettleShows(t: string, d: Delims, line: Line, scan: Scanned, alone: bool, enabled: bool)
    requires d.Valid() && scan.AtTag? && scan.start <= scan.beg <= |t| && !(alone && scan.line != Mixed)
    ensures Settle(t, Mode(d.op, d.cl, line, ""), scan, alone, enabled)
         == (d.Plain(), scan.out + Shown(enabled, t[scan.start..scan.beg]))
  {
    assert scan.out + "" == scan.out;
  }

  /** A tag that is read, with the delimiters in force behind it. */
  datatype Read = Refused(code: Verdict) | Accepted(kind: Kind, name: string, next: nat, delims: Delims)

  function ReadOn(tag: Tag, d: Delims): (r: Read)
    requires tag.Tag? && d.Valid()
    ensures r.Accepted? ==> r.next == tag.next && r.delims.Valid()
  {
    if !tag.kind.Delimiters? then Accepted(tag.kind, tag.name, tag.next, d)
    else
      var change := ReadDelimiters(tag.name);
      if change.BadTag? then Refused(change.code)
      else Accepted(change.kind, "", tag.next, Delims(change.kind.op, change.kind.cl))
  }

  /** The next tag on a line that does not stand alone, with the text before it written. */
  lemma {:induction false} NextShows(t: string, pos: nat, d: Delims, line: Line, enabled: bool, depth: nat, out: string)
    requires pos <= |t| && d.Valid() && line != Lone
    ensures var step := NextTag(t, pos, Mode(d.op, d.cl, line, ""), enabled, depth, out);
            var beg := Find(t, pos, d.op);
            var out1 := out + Shown(enabled, t[pos..beg]);
            if beg == |t| then step == Halt(if depth == 0 then Ok else UnexpectedEnd, out1)
            else
              var tag := ReadTag(t, beg + |d.op|, d.cl);
              if tag.BadTag? then step.Halt? && step.verdict == tag.code
              else if tag.alone && LineAfter(t, pos, beg, line) != Mixed then true
              else
                var r := ReadOn(tag, d);
                if r.Refused? then step.Halt? && step.verdict == r.code
                else step == Go(r.kind, r.name, r.next, r.delims.Plain(), out1)
  {
    hide Scan, ReadTag, ReadDelimiters, Find, LineAfter, Settle, Shown;
    ScanShows(t, pos, pos, line, enabled, d.op, out);
    var scan := Scan(t, pos, pos, line, "", enabled, d.op, out);
    if scan.AtTag? {
      var tag := ReadTag(t, scan.beg + |d.op|, d.cl);
      if tag.Tag? && !(tag.alone && scan.line != Mixed) {
        SettleShows(t, d, line, scan, tag.alone, enabled);
      }
    }
  }

  /** What `Parse` makes of a section that begins with the delimiters `d` once its body has been read. */
  function SectionTree(t: string, body: Parsed, d: Delims, name: string, inverted: bool, depth: nat): Parsed
    requires body.UpTo? ==> body.pos <= |t| && body.delims.Valid()
  {
    if body.Outside? then Outside
    else if body.UpTo? && body.name == name then
      Prepend([SectionBlock(body, d, name, inverted)], Parse(t, body.pos, body.delims, Mixed, depth))
    else
      Wrong([SectionBlock(body, d, name, inverted)], if body.Wrong? then body.code else Closing)
  }

  function SectionBlock(body: Parsed, d: Delims, name: string, inverted: bool): Node
    requires !body.Outside?
  {
    var ending :=
      if !(body.UpTo? && body.name == name) then Unclosed
      else if body.delims == d then Restored
      else Changed;
    Block(name, inverted, ending, body.nodes)
  }

  lemma PrependPrepend(a: seq<Node>, b: seq<Node>, p: Parsed)
    ensures Prepend(a, Prepend(b, p)) == Prepend(a + b, p)
  {
    if !p.Outside? {
      assert a + (b + p.nodes) == a + b + p.nodes;
    }
  }

  /** What `Parse` does with one tag, the text before it being `text` and `d` being in force behind it. */
  function TagTree(t: string, text: string, kind: Kind, name: string, next: nat, d: Delims, depth: nat): Parsed
    requires next <= |t| && d.Valid()
  {
    match kind
    case Comment => Prepend([Text(text)], Parse(t, next, d, Mixed, depth))
    case Delimiters(_, _) => Prepend([Text(text)], Parse(t, next, d, Mixed, depth))
    case Variable(escape) => Prepend([Text(text), Replace(name, escape)], Parse(t, next, d, Mixed, depth))
    case Close => UpTo([Text(text)], name, next, d)
    case Section(inverted) =>
      if depth + 1 == MAX_DEPTH then Outside
      else Prepend([Text(text)], SectionTree(t, Parse(t, next, d, Mixed, depth + 1), d, name, inverted, depth))
    case Partial => Outside
  }

  /** `Parse` at a section. */
  lemma {:induction false} ParseSection(t: string, text: string, name: string, inverted: bool, next: nat, d: Delims,
                                        depth: nat)
    requires next <= |t| && d.Valid()
    ensures var body := Parse(t, next, d, Mixed, depth + 1);
            Prepend([Text(text)], SectionTree(t, body, d, name, inverted, depth))
            == if body.Outside? then Outside
               else if body.UpTo? && body.name == name then
                 var block := Block(name, inverted, if body.delims == d then Restored else Changed, body.nodes);
                 Prepend([Text(text), block], Parse(t, body.pos, body.delims, Mixed, depth))
               else
                 Wrong([Text(text), Block(name, inverted, Unclosed, body.nodes)],
                       if body.Wrong? then body.code else Closing)
  {
    hide Parse;
    var body := Parse(t, next, d, Mixed, depth + 1);
    if !body.Outside? {
      var block := SectionBlock(body, d, name, inverted);
      assert [Text(text)] + [block] == [Text(text), block];
      if body.UpTo? && body.name == name {
        PrependPrepend([Text(text)], [block], Parse(t, body.pos, body.delims, Mixed, depth));
      }
    }
  }

  lemma {:induction false} ParseTag(t: string, pos: nat, d: Delims, line: Line, depth: nat)
    requires pos <= |t| && d.Valid()
    ensures var beg := Find(t, pos, d.op);
            var text := t[pos..beg];
            Parse(t, pos, d, line, depth)
            == if beg == |t| then (if depth == 0 then Whole([Text(text)]) else Wrong([Text(text)], UnexpectedEnd))
               else
                 var tag := ReadTag(t, beg + |d.op|, d.cl);
                 if tag.BadTag? then Wrong([Text(text)], tag.code)
                 else if tag.alone && LineAfter(t, pos, beg, line) != Mixed then Outside
                 else
                   var r := ReadOn(tag, d);
                   if r.Refused? then Wrong([Text(text)], r.code)
                   else TagTree(t, text, r.kind, r.name, r.next, r.delims, depth)
  {
    hide Find, ReadTag, ReadDelimiters, LineAfter, Prepend, SectionTree;
    var beg := Find(t, pos, d.op);
    if beg < |t| {
      var tag := ReadTag(t, beg + |d.op|, d.cl);
      if tag.Tag? && tag.kind.Section? {
        ParseSection(t, t[pos..beg], tag.name, tag.kind.inverted, tag.next, d, depth);
      }
    }
  }

  /** The main induction: a pass over the template means its tree. */
  lemma {:induction false} Meaning(t: string, pos: nat, d: Delims, line: Line, enabled: bool, ctx: seq<Json>,
                                   depth: nat, out: string, tags: nat)
    requires pos <= |t| && d.Valid() && line != Lone && ctx != [] && |ctx| <= depth + 1 && depth < MAX_DEPTH
    ensures Means(Parse(t, pos, d, line, depth),
                  Body(t, pos, Mode(d.op, d.cl, line, ""), enabled, ctx, depth, out, tags), enabled, ctx, out)
    decreases |t| - pos, 0
  {
    hide NextTag, Find, ReadTag, ReadOn, LineAfter, Parse, Eval, TagTree, TagPass, Body, Settled;
    NextShows(t, pos, d, line, enabled, depth, out);
    ParseTag(t, pos, d, line, depth);
    var beg := Find(t, pos, d.op);
    var text := t[pos..beg];
    EvalText(text, ctx);
    BodyStep(t, pos, Mode(d.op, d.cl, line, ""), enabled, ctx, depth, out, tags);
    if beg < |t| {
      var tag := ReadTag(t, beg + |d.op|, d.cl);
      if tag.Tag? && !(tag.alone && LineAfter(t, pos, beg, line) != Mixed) {
        var r := ReadOn(tag, d);
        if r.Accepted? {
          MeaningTag(t, text, r.kind, r.name, r.next, r.delims, enabled, ctx, depth, out, tags);
        }
      }
    }
  }

  /** How `Body` goes on from a tag. */
  function TagPass(t: string, kind: Kind, name: string, next: nat, mode: Mode, enabled: bool, ctx: seq<Json>,
                   depth: nat, out: string, tags: nat): Pass
    requires next <= |t| && mode.Valid() && ctx != [] && depth <= MAX_DEPTH
  {
    match kind
    case Comment => Body(t, next, mode, enabled, ctx, depth, out, tags + 1)
    case Delimiters(_, _) => Body(t, next, mode, enabled, ctx, depth, out, tags + 1)
    case Variable(escape) =>
      Body(t, next, mode, enabled, ctx, depth, if enabled then out + Replacement(ctx, name, escape) else out, tags + 1)
    case Partial =>
      if enabled then Stopped(PartialReached, out, tags) else Body(t, next, mode, enabled, ctx, depth, out, tags + 1)
    case Close => Closed(name, next, mode, out, tags + 1)
    case Section(inverted) => SectionPass(t, next, name, inverted, mode, enabled, ctx, depth, out, tags + 1)
  }

  lemma {:induction false} BodyStep(t: string, pos: nat, mode: Mode, enabled: bool, ctx: seq<Json>, depth: nat,
                                    out: string, tags: nat)
    requires pos <= |t| && mode.Valid() && ctx != [] && depth <= MAX_DEPTH
    ensures Body(t, pos, mode, enabled, ctx, depth, out, tags)
         == match NextTag(t, pos, mode, enabled, depth, out)
            case Halt(verdict, out1) => Stopped(verdict, out1, tags)
            case Go(kind, name, next, mode1, out1) => TagPass(t, kind, name, next, mode1, enabled, ctx, depth, out1,
                                                              tags)
  {
    hide NextTag, SectionPass;
  }

  lemma {:induction false} MeaningTag(t: string, text: string, kind: Kind, name: string, next: nat, d: Delims,
                                      enabled: bool, ctx: seq<Json>, depth: nat, out: string, tags: nat)
    requires next <= |t| && d.Valid() && ctx != [] && |ctx| <= depth + 1 && depth < MAX_DEPTH
    ensures Means(TagTree(t, text, kind, name, next, d, depth),
                  TagPass(t, kind, name, next, d.Plain(), enabled, ctx, depth, out + Shown(enabled, text), tags),
                      enabled, ctx, out)
    decreases |t| - next, 3
  {
    hide Parse, Body, SectionPass, SectionTree, Eval, EvalNode, Means, Reaches;
    var out1 := out + Shown(enabled, text);
    var mode := d.Plain();
    EvalText(text, ctx);
    match kind {
      case Comment =>
        Meaning(t, next, d, Mixed, enabled, ctx, depth, out1, tags + 1);
        MeansPrepend([Text(text)], Parse(t, next, d, Mixed, depth),
                     Body(t, next, mode, enabled, ctx, depth, out1, tags + 1), enabled, ctx, out);
      case Delimiters(_, _) =>
        Meaning(t, next, d, Mixed, enabled, ctx, depth, out1, tags + 1);
        MeansPrepend([Text(text)], Parse(t, next, d, Mixed, depth),
                     Body(t, next, mode, enabled, ctx, depth, out1, tags + 1), enabled, ctx, out);
      case Variable(escape) =>
        var out2 := if enabled then out1 + Replacement(ctx, name, escape) else out1;
        ReplaceText(text, name, escape, ctx);
        ShownConcat(enabled, out, text, Replacement(ctx, name, escape));
        assert out2 == out1 + Shown(enabled, Replacement(ctx, name, escape));
        Meaning(t, next, d, Mixed, enabled, ctx, depth, out2, tags + 1);
        MeansPrepend([Text(text), Replace(name, escape)], Parse(t, next, d, Mixed, depth),
                     Body(t, next, mode, enabled, ctx, depth, out2, tags + 1), enabled, ctx, out);
      case Close =>
        MeansClose(text, name, next, d, enabled, ctx, out, tags + 1);
      case Section(inverted) =>
        if depth + 1 != MAX_DEPTH {
          MeaningSection(t, next, d, name, inverted, enabled, ctx, depth, out1, tags + 1);
          MeansPrepend([Text(text)], SectionTree(t, Parse(t, next, d, Mixed, depth + 1), d, name, inverted, depth),
                       SectionPass(t, next, name, inverted, mode, enabled, ctx, depth, out1, tags + 1), enabled, ctx,
                           out);
        } else {
          MeansOutside(TagPass(t, kind, name, next, mode, enabled, ctx, depth, out1, tags), enabled, ctx, out);
        }
      case Partial =>
        MeansOutside(TagPass(t, kind, name, next, mode, enabled, ctx, depth, out1, tags), enabled, ctx, out);
    }
  }

  lemma MeansOutside(r: Pass, enabled: bool, ctx: seq<Json>, out: string)
    requires ctx != []
    ensures Means(Outside, r, enabled, ctx, out)
  {
  }

  lemma {:induction false} MeansClose(text: string, name: string, next: nat, d: Delims, enabled: bool, ctx: seq<Json>,
                                      out: string, tags: nat)
    requires ctx != []
    ensures Means(UpTo([Text(text)], name, next, d), Closed(name, next, d.Plain(), out + Shown(enabled, text), tags),
                  enabled, ctx, out)
  {
    EvalText(text, ctx);
  }

  lemma {:induction false} ReplaceText(text: string, name: string, escape: bool, ctx: seq<Json>)
    requires ctx != []
    ensures Eval([Text(text), Replace(name, escape)], ctx) == text + Replacement(ctx, name, escape)
  {
    EvalText(text, ctx);
    assert EvalNode(Replace(name, escape), ctx) == Replacement(ctx, name, escape);
  }

  /** A section and what follows it. */
  lemma {:induction false} MeaningSection(t: string, again: nat, d: Delims, name: string, inverted: bool,
                                          enabled: bool, ctx: seq<Json>, depth: nat, out: string, tags: nat)
    requires again <= |t| && d.Valid() && ctx != [] && |ctx| <= depth + 1 && depth + 1 < MAX_DEPTH
    ensures Means(SectionTree(t, Parse(t, again, d, Mixed, depth + 1), d, name, inverted, depth),
                  SectionPass(t, again, name, inverted, d.Plain(), enabled, ctx, depth, out, tags), enabled, ctx, out)
    decreases |t| - again, 2
  {
    hide Parse, Body, Passes, Eval, Means, Settled;
    var body := Parse(t, again, d, Mixed, depth + 1);
    if body.Outside? {
      MeansOutside(SectionPass(t, again, name, inverted, d.Plain(), enabled, ctx, depth, out, tags), enabled, ctx, out);
      return;
    }
    var block := SectionBlock(body, d, name, inverted);
    var r := Once(t, again, d, name, inverted, enabled, ctx, depth, out, tags);
    MeaningOnce(t, again, d, name, inverted, enabled, ctx, depth, out, tags);
    if body.UpTo? && body.name == name {
      if Reaches([block], enabled, ctx) {
        Meaning(t, body.pos, body.delims, Mixed, enabled, ctx, depth, r.out, r.tags);
      }
      MeansPrepend([block], Parse(t, body.pos, body.delims, Mixed, depth),
                   SectionPass(t, again, name, inverted, d.Plain(), enabled, ctx, depth, out, tags), enabled, ctx, out);
    } else {
      MeansWrong(block, if body.Wrong? then body.code else Closing, 
                 SectionPass(t, again, name, inverted, d.Plain(), enabled, ctx, depth, out, tags), enabled, ctx, out);
    }
  }

  lemma MeansWrong(block: Node, code: Verdict, r: Pass, enabled: bool, ctx: seq<Json>, out: string)
    requires ctx != []
    requires Reaches([block], enabled, ctx) ==> r.Stopped? && r.verdict == code
    ensures Means(Wrong([block], code), r, enabled, ctx, out)
  {
  }

  /** The passes over a section's body alone. */
  function Once(t: string, again: nat, d: Delims, name: string, inverted: bool, enabled: bool, ctx: seq<Json>,
                depth: nat, out: string, tags: nat): (r: Pass)
    requires again <= |t| && d.Valid() && ctx != [] && depth < MAX_DEPTH
    ensures r.Closed? ==> r.pos <= |t| && r.mode.Valid()
  {
    var items := if enabled then Entered(ctx, name) else [];
    if items != [] && !inverted then Passes(t, again, d.Plain(), items, ctx, depth + 1, name, out, tags)
    else
      Matched(Body(t, again, d.Plain(), enabled && inverted && items == [],
                   if items == [] then ctx else ctx + [items[0]], depth + 1, out, tags),
              name)
  }

  lemma {:induction false} MeaningOnce(t: string, again: nat, d: Delims, name: string, inverted: bool, enabled: bool,
                                       ctx: seq<Json>, depth: nat, out: string, tags: nat)
    requires again <= |t| && d.Valid() && ctx != [] && |ctx| <= depth + 1 && depth + 1 < MAX_DEPTH
    requires !Parse(t, again, d, Mixed, depth + 1).Outside?
    ensures var body := Parse(t, again, d, Mixed, depth + 1);
            var block := SectionBlock(body, d, name, inverted);
            var r := Once(t, again, d, name, inverted, enabled, ctx, depth, out, tags);
            Reaches([block], enabled, ctx) ==>
              if body.UpTo? && body.name == name
              then r == Closed(name, body.pos, body.delims.Plain(), out + Shown(enabled, Eval([block], ctx)), r.tags)
              else r.Stopped? && r.verdict == if body.Wrong? then body.code else Closing
    decreases |t| - again, 1, 1
  {
    hide Parse, Body, Passes, Eval, Settled, EvalEach;
    var body := Parse(t, again, d, Mixed, depth + 1);
    var block := SectionBlock(body, d, name, inverted);
    var items := if enabled then Entered(ctx, name) else [];
    BlockText(block, ctx);
    if items != [] && !inverted {
      MeaningEach(t, again, d, items, ctx, depth + 1, name, out, tags);
    } else {
      Meaning(t, again, d, Mixed, enabled && inverted && items == [],
              if items == [] then ctx else ctx + [items[0]], depth + 1, out, tags);
    }
  }

  /** What a section writes, and when it is settled. */
  lemma {:induction false} BlockText(block: Node, ctx: seq<Json>)
    requires ctx != [] && block.Block?
    ensures var items := Entered(ctx, block.name);
            Eval([block], ctx)
            == if !block.inverted then EvalEach(block.body, items, ctx) else if items == [] then Eval(block.body, ctx)
                else ""
    ensures Settled([block], ctx) <==> SettledNode(block, ctx)
    ensures EvalEach(block.body, [], ctx) == ""
  {
    assert [block][1..] == [];
    assert Eval([block], ctx) == EvalNode(block, ctx) + "";
  }

  /** The passes over a section body, one for each item. */
  lemma {:induction false} MeaningEach(t: string, again: nat, d: Delims, items: seq<Json>, ctx: seq<Json>, depth: nat,
                                       name: string, out: string, tags: nat)
    requires again <= |t| && d.Valid() && items != [] && ctx != [] && |ctx| <= depth && depth < MAX_DEPTH
    ensures var body := Parse(t, again, d, Mixed, depth);
            var r := Passes(t, again, d.Plain(), items, ctx, depth, name, out, tags);
            !body.Outside? && Settled(body.nodes, ctx + [items[0]]) ==>
              && (body.Wrong? ==> r.Stopped? && r.verdict == body.code)
              && (body.UpTo? && body.name != name ==> r.Stopped? && r.verdict == Closing)
              && (body.UpTo? && body.name == name && SettledEach(body.nodes, items, ctx)
                  && (|items| == 1 || body.delims == d) ==>
                    r == Closed(name, body.pos, body.delims.Plain(), out + EvalEach(body.nodes, items, ctx), r.tags))
    decreases |t| - again, 1, 0, |items|
  {
    hide Parse, Body, Eval, Settled;
    var body := Parse(t, again, d, Mixed, depth);
    var r := Matched(Body(t, again, d.Plain(), true, ctx + [items[0]], depth, out, tags), name);
    Meaning(t, again, d, Mixed, true, ctx + [items[0]], depth, out, tags);
    if body.UpTo? {
      EachStep(body.nodes, items, ctx, out);
      if r.Closed? && |items| > 1 && body.delims == d {
        MeaningEach(t, again, d, items[1..], ctx, depth, name, r.out, r.tags);
      }
    }
  }

  /**
   * A section that ends with other delimiters than `d`, with which it began, is read with those on its
   * next pass.
   */
  lemma {:induction false} ChangedAgain(t: string, again: nat, d: Delims, items: seq<Json>, ctx: seq<Json>, depth: nat,
                                        name: string, out: string, tags: nat)
    returns (tags1: nat)
    requires again <= |t| && d.Valid() && |items| > 1 && ctx != [] && |ctx| <= depth && depth < MAX_DEPTH
    ensures var body := Parse(t, again, d, Mixed, depth);
            body.UpTo? && body.name == name && Settled(body.nodes, ctx + [items[0]]) ==>
              Passes(t, again, d.Plain(), items, ctx, depth, name, out, tags)
              == Passes(t, again, body.delims.Plain(), items[1..], ctx, depth, name,
                        out + Eval(body.nodes, ctx + [items[0]]), tags1)
  {
    hide Parse, Body, Eval, Settled;
    Meaning(t, again, d, Mixed, true, ctx + [items[0]], depth, out, tags);
    tags1 := Body(t, again, d.Plain(), true, ctx + [items[0]], depth, out, tags).tags;
  }

  lemma {:induction false} EachStep(body: seq<Node>, items: seq<Json>, ctx: seq<Json>, out: string)
    requires items != [] && ctx != []
    ensures out + EvalEach(body, items, ctx) == out + Eval(body, ctx + [items[0]]) + EvalEach(body, items[1..], ctx)
    ensures |items| == 1 ==> EvalEach(body, items, ctx) == Eval(body, ctx + [items[0]])
    ensures |items| > 1 && SettledEach(body, items, ctx) ==>
              SettledEach(body, items[1..], ctx) && Settled(body, ctx + [items[1..][0]])
  {
    hide Eval, Settled;
    assert |items| == 1 ==> EvalEach(body, items[1..], ctx) == "";
  }

  /**
   * The tree reading of a whole template is what the interpreter does, as long as it runs no section
   * that ends with other delimiters than it began with for more than one item: the same error code,
   * or the evaluation of the tree.
   */
  lemma {:induction false} TreeMeaning(t: string, root: Json)
    ensures match ParseTemplate(t)
            case Outside => true
            case Wrong(nodes, code) => Settled(nodes, [root]) ==> Interpret(t, root).verdict == code
            case Whole(nodes) =>
              Settled(nodes, [root]) ==>
                Interpret(t, root).verdict == Ok && Interpret(t, root).out == Eval(nodes, [root])
            case UpTo(_, _, _, _) => false
  {
    hide Parse, Body, Eval, Settled;
    Meaning(t, 0, BRACES, Blank, true, [root], 0, "", 0);
  }

  /**
   * When every section of the template ends with the delimiters it began with, this holds whatever the
   * data: an error does not depend on them at all.
   */
  lemma {:induction false} SteadyMeaning(t: string, root: Json)
    ensures var p := ParseTemplate(t);
            !p.Outside? && Steady(p.nodes) ==>
              if p.Wrong? then Interpret(t, root).verdict == p.code
              else Interpret(t, root).verdict == Ok && Interpret(t, root).out == Eval(p.nodes, [root])
  {
    hide Parse, Interpret, Eval, Settled, Steady;
    TreeMeaning(t, root);
    var p := ParseTemplate(t);
    if !p.Outside? && Steady(p.nodes) {
      SteadySettled(p.nodes, [root]);
    }
  }

  /** mustach_cJSON_mem: renders a template against a JSON value. */
  method RenderTemplate(t: string, root: Json) returns (verdict: Verdict, out: string)
    requires '\0' !in t
    ensures match ParseTemplate(t)
            case Outside => true
            case Wrong(nodes, code) => Settled(nodes, [root]) ==> verdict == code
            case Whole(nodes) => Settled(nodes, [root]) ==> verdict == Ok && out == Eval(nodes, [root])
            case UpTo(_, _, _, _) => false
  {
    var cursor := new Cursor(root);
    verdict, out := Process(t, cursor);
    TreeMeaning(t, root);
  }
}
