/**
 * A recursive reading of a template: the meaning of one pass over a section body is a function call
 * that ends at the closing tag, so nothing ever jumps back. Delimiters, the line state and the
 * blanks held back are threaded through the passes exactly as they survive a jump.
 */
module MustacheInterp {
  import opened Json
  import opened MustacheText
  import opened MustacheContext

  /** What survives from one tag to the next. */
  datatype Mode = Mode(op: string, cl: string, line: Line, prefix: string)
  {
    predicate Valid() { op != "" && cl != "" }
  }

  const START := Mode("{{", "}}", Blank, "")

  /** A pass stops for good, or reaches a closing tag of its own level. */
  datatype Pass =
    | Stopped(verdict: Verdict, out: string, tags: nat)
    | Closed(name: string, pos: nat, mode: Mode, out: string, tags: nat)

  /** The mode and output once a tag has decided whether the blanks before it are held back. */
  function Settle(t: string, mode: Mode, scan: Scanned, alone: bool, enabled: bool): (r: (Mode, string))
    requires mode.Valid() && scan.AtTag? && scan.start <= scan.beg <= |t|
    ensures r.0.Valid()
  {
    var blanks := if enabled then t[scan.start..scan.beg] else "";
    if scan.line != Mixed && alone then (mode.(line := Lone, prefix := blanks), scan.out)
    else if enabled then (mode.(line := Mixed, prefix := ""), scan.out + blanks)
    else (mode.(line := Mixed, prefix := ""), scan.out)
  }

  /** cJSON's `enter` refuses to grow its own stack before it looks at the value. */
  predicate EnterTooDeep(ctx: seq<Json>, name: string)
    requires ctx != []
  {
    |ctx| >= MAX_DEPTH && Select(ctx, name).Some?
  }

  /** The next tag, with the mode and output just before it acts, or the end of the run. */
  datatype Step =
    | Halt(verdict: Verdict, out: string)
    | Go(kind: Kind, name: string, next: nat, mode: Mode, out: string)

  function NextTag(t: string, pos: nat, mode: Mode, enabled: bool, depth: nat, out: string): (r: Step)
    requires pos <= |t| && mode.Valid()
    ensures r.Go? ==> pos < r.next <= |t| && r.mode.Valid()
    ensures r.Halt? && r.verdict == Ok ==> depth == 0
    ensures r.Go? && !r.kind.Comment? && !r.kind.Delimiters? ==> r.name != "" && forall c :: c in r.name ==> c in t
  {
    var scan := Scan(t, pos, pos, mode.line, mode.prefix, enabled, mode.op, out);
    if scan.AtEnd? then Halt(if depth == 0 then Ok else UnexpectedEnd, scan.out)
    else
      var tag := ReadTag(t, scan.beg + |mode.op|, mode.cl);
      if tag.BadTag? then Halt(tag.code, scan.out)
      else
        var (mode1, out1) := Settle(t, mode, scan, tag.alone, enabled);
        if !tag.kind.Delimiters? then Go(tag.kind, tag.name, tag.next, mode1, out1)
        else
          var d := ReadDelimiters(tag.name);
          if d.BadTag? then Halt(d.code, out1)
          else Go(d.kind, "", tag.next, mode1.(op := d.kind.op, cl := d.kind.cl), out1)
  }

  /** One pass over the template from `pos`, at `depth` open sections, in context `ctx`. */
  function Body(t: string, pos: nat, mode: Mode, enabled: bool, ctx: seq<Json>, depth: nat, out: string,
                tags: nat): (r: Pass)
    requires pos <= |t| && mode.Valid() && ctx != [] && depth <= MAX_DEPTH
    ensures r.Closed? ==> pos < r.pos <= |t| && r.mode.Valid()
    ensures r.tags >= tags
    decreases |t| - pos, 0
  {
    match NextTag(t, pos, mode, enabled, depth, out)
    case Halt(verdict, out1) => Stopped(verdict, out1, tags)
    case Go(kind, name, next, mode1, out1) =>
      match kind
      case Comment =>
        Body(t, next, mode1, enabled, ctx, depth, out1, tags + 1)
      case Delimiters(_, _) =>
        Body(t, next, mode1, enabled, ctx, depth, out1, tags + 1)
      case Variable(escape) =>
        Body(t, next, mode1, enabled, ctx, depth,
             if enabled then out1 + Replacement(ctx, name, escape) else out1, tags + 1)
      case Partial =>
        if enabled then Stopped(PartialReached, out1, tags)
        else Body(t, next, mode1, enabled, ctx, depth, out1, tags + 1)
      case Close =>
        Closed(name, next, mode1, out1, tags + 1)
      case Section(inverted) =>
        SectionPass(t, next, name, inverted, mode1, enabled, ctx, depth, out1, tags + 1)
  }

  /** A section whose body starts at `again`, and what follows it. */
  function SectionPass(t: string, again: nat, name: string, inverted: bool, mode: Mode, enabled: bool, ctx: seq<Json>,
                       depth: nat, out: string, tags: nat): (r: Pass)
    requires again <= |t| && mode.Valid() && ctx != [] && depth <= MAX_DEPTH
    ensures r.Closed? ==> again < r.pos <= |t| && r.mode.Valid()
    ensures r.tags >= tags
    decreases |t| - again, 2
  {
    if depth == MAX_DEPTH || (enabled && EnterTooDeep(ctx, name)) then Stopped(TooDeep, out, tags)
    else
      var items := if enabled then Entered(ctx, name) else [];
      var r :=
        if items != [] && !inverted then
          Passes(t, again, mode, items, ctx, depth + 1, name, out, tags)
        else
          Matched(Body(t, again, mode, enabled && inverted && items == [],
                       if items == [] then ctx else ctx + [items[0]], depth + 1, out, tags),
                  name);
      if r.Stopped? then r
      else Body(t, r.pos, r.mode, enabled, ctx, depth, r.out, r.tags)
  }

  /** A closing tag must repeat the name of its section. */
  function Matched(r: Pass, name: string): Pass {
    if r.Closed? && r.name != name then Stopped(Closing, r.out, r.tags) else r
  }

  /** One pass over a section body for each item. */
  function Passes(t: string, again: nat, mode: Mode, items: seq<Json>, ctx: seq<Json>, depth: nat, name: string,
                  out: string, tags: nat): (r: Pass)
    requires again <= |t| && mode.Valid() && items != [] && depth <= MAX_DEPTH
    ensures r.Closed? ==> again < r.pos <= |t| && r.mode.Valid()
    ensures r.tags >= tags
    decreases |t| - again, 1, |items|
  {
    var r := Matched(Body(t, again, mode, true, ctx + [items[0]], depth, out, tags), name);
    if r.Stopped? || |items| == 1 then r
    else Passes(t, again, r.mode, items[1..], ctx, depth, name, r.out, r.tags)
  }

  /** The whole of `process`: a closing tag at the outermost level closes nothing. */
  function Interpret(t: string, root: Json): (r: Pass)
    ensures r.Stopped?
  {
    var r := Body(t, 0, START, true, [root], 0, "", 0);
    if r.Closed? then Stopped(Closing, r.out, r.tags) else r
  }
}
