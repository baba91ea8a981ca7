/**
 * The states of the jump-back machine: open frames, the parallel stack of entered values with the
 * items each has left, and what remains to be computed from such a state.
 */
module MustacheMachine {
  import opened Json
  import opened MustacheText
  import opened MustacheContext
  import opened MustacheInterp

  /** A frame of `process`; `again` is where its body starts. */
  datatype Frame = Frame(name: string, again: nat, enabled: bool, entered: bool)

  /** A level of the cJSON context: the current value and the siblings still to come. */
  datatype Entry = Entry(obj: Json, next: seq<Json>)

  function Objs(ctx: seq<Entry>): (r: seq<Json>)
    ensures |r| == |ctx|
  {
    seq(|ctx|, i requires 0 <= i < |ctx| => ctx[i].obj)
  }

  function EnteredCount(frames: seq<Frame>): (n: nat)
    ensures n <= |frames|
  {
    if frames == [] then 0
    else EnteredCount(frames[..|frames| - 1]) + (if frames[|frames| - 1].entered then 1 else 0)
  }

  /**
   * The two stacks are in step: one context level for the root and one for each frame marked
   * `entered`, and a frame was entered only if it was opened while output was enabled.
   */
  ghost predicate InStep(t: string, frames: seq<Frame>, ctx: seq<Entry>) {
    && |frames| <= MAX_DEPTH
    && |ctx| == 1 + EnteredCount(frames)
    && forall i :: 0 <= i < |frames| ==>
         frames[i].again <= |t| && (frames[i].entered ==> frames[i].enabled)
  }

  /** The result of running on from a state to the end of the template. */
  ghost function Resume(t: string, pos: nat, mode: Mode, enabled: bool, frames: seq<Frame>, ctx: seq<Entry>,
                        out: string, tags: nat): (r: Pass)
    requires pos <= |t| && mode.Valid() && InStep(t, frames, ctx)
    ensures r.Stopped? && r.tags >= tags
    decreases |frames|, 1
  {
    Unwind(t, Body(t, pos, mode, enabled, Objs(ctx), |frames|, out, tags), enabled, frames, ctx)
  }

  /** The result once the pass over the innermost body has ended with `r`. */
  ghost function Unwind(t: string, r: Pass, enabled: bool, frames: seq<Frame>, ctx: seq<Entry>): (u: Pass)
    requires InStep(t, frames, ctx)
    requires r.Closed? ==> r.pos <= |t| && r.mode.Valid()
    ensures u.Stopped? && u.tags >= r.tags && (r.Stopped? ==> u == r)
    decreases |frames|, 0
  {
    if r.Stopped? then r
    else if frames == [] then Stopped(Closing, r.out, r.tags)
    else
      var f := frames[|frames| - 1];
      var below := frames[..|frames| - 1];
      if r.name != f.name then Stopped(Closing, r.out, r.tags)
      else if !(f.enabled && f.entered) then Resume(t, r.pos, r.mode, f.enabled, below, ctx, r.out, r.tags)
      else
        var ctx' := ctx[..|ctx| - 1];
        var next := ctx[|ctx| - 1].next;
        var p := if enabled && next != []
          then Passes(t, f.again, r.mode, next, Objs(ctx'), |frames|, f.name, r.out, r.tags)
          else r;
        if p.Stopped? then p
        else Resume(t, p.pos, p.mode, f.enabled, below, ctx', p.out, p.tags)
  }

  lemma {:induction false} PushEntry(ctx: seq<Entry>, e: Entry)
    ensures Objs(ctx + [e]) == Objs(ctx) + [e.obj]
    ensures (ctx + [e])[..|ctx|] == ctx
  {
  }

  lemma {:induction false} PushFrame(t: string, frames: seq<Frame>, ctx: seq<Entry>, f: Frame)
    requires InStep(t, frames, ctx) && |frames| < MAX_DEPTH
    requires f.again <= |t| && (f.entered ==> f.enabled)
    ensures EnteredCount(frames + [f]) == EnteredCount(frames) + (if f.entered then 1 else 0)
    ensures (frames + [f])[..|frames|] == frames
    ensures !f.entered ==> InStep(t, frames + [f], ctx)
    ensures forall e :: f.entered ==> InStep(t, frames + [f], ctx + [e])
  {
    assert (frames + [f])[..|frames|] == frames;
  }

  lemma {:induction false} PopFrame(t: string, frames: seq<Frame>, ctx: seq<Entry>)
    requires InStep(t, frames, ctx) && frames != []
    ensures frames[|frames| - 1].entered ==> |ctx| > 1 && InStep(t, frames[..|frames| - 1], ctx[..|ctx| - 1])
    ensures !frames[|frames| - 1].entered ==> InStep(t, frames[..|frames| - 1], ctx)
  {
  }

  lemma AtRoot(t: string, ctx: seq<Entry>)
    requires InStep(t, [], ctx)
    ensures |ctx| == 1
  {
  }

  /** How `Body` goes on after a section whose passes ended with `r`. */
  ghost function After(t: string, r: Pass, enabled: bool, ctx: seq<Json>, depth: nat): Pass
    requires r.Closed? ==> r.pos <= |t| && r.mode.Valid()
    requires ctx != [] && depth <= MAX_DEPTH
  {
    if r.Stopped? then r else Body(t, r.pos, r.mode, enabled, ctx, depth, r.out, r.tags)
  }

  lemma {:induction false} AfterStep(t: string, r: Pass, enabled: bool, frames: seq<Frame>, ctx: seq<Entry>)
    requires InStep(t, frames, ctx) && (r.Closed? ==> r.pos <= |t| && r.mode.Valid())
    ensures Unwind(t, After(t, r, enabled, Objs(ctx), |frames|), enabled, frames, ctx)
         == if r.Stopped? then r else Resume(t, r.pos, r.mode, enabled, frames, ctx, r.out, r.tags)
  {
    hide Body;
  }

  lemma {:induction false} FirstPass(t: string, again: nat, mode: Mode, items: seq<Json>, ctx: seq<Json>, depth: nat,
                                     name: string, out: string, tags: nat)
    requires again <= |t| && mode.Valid() && items != [] && depth <= MAX_DEPTH
    ensures var m := Matched(Body(t, again, mode, true, ctx + [items[0]], depth, out, tags), name);
            Passes(t, again, mode, items, ctx, depth, name, out, tags)
            == if m.Stopped? || |items| == 1 then m
               else Passes(t, again, m.mode, items[1..], ctx, depth, name, m.out, m.tags)
  {
    hide Body;
  }

  /** What is left once the first pass over a section has ended with `first`, with its frame on top. */
  lemma {:induction false} UnwindEntered(t: string, first: Pass, again: nat, frames: seq<Frame>, ctx: seq<Entry>,
                                         items: seq<Json>, name: string)
    requires again <= |t| && InStep(t, frames, ctx) && |frames| < MAX_DEPTH && items != []
    requires first.Closed? ==> first.pos <= |t| && first.mode.Valid()
    ensures var frames' := frames + [Frame(name, again, true, true)];
            var ctx' := ctx + [Entry(items[0], items[1..])];
            var m := Matched(first, name);
            var all := if m.Stopped? || |items| == 1 then m
                       else Passes(t, again, m.mode, items[1..], Objs(ctx), |frames| + 1, name, m.out, m.tags);
            && InStep(t, frames', ctx')
            && Unwind(t, first, true, frames', ctx')
            == if all.Stopped? then all else Resume(t, all.pos, all.mode, true, frames, ctx, all.out, all.tags)
  {
    hide Body;
    PushEntry(ctx, Entry(items[0], items[1..]));
    PushFrame(t, frames, ctx, Frame(name, again, true, true));
  }

  /** Pushing a frame for a section that runs for its items, then running on, is the recursive reading. */
  lemma {:induction false} EnterStep(t: string, again: nat, mode: Mode, frames: seq<Frame>, ctx: seq<Entry>,
                                     items: seq<Json>, name: string, out: string, tags: nat)
    requires again <= |t| && mode.Valid() && InStep(t, frames, ctx) && |frames| < MAX_DEPTH && items != []
    ensures var frames' := frames + [Frame(name, again, true, true)];
            var ctx' := ctx + [Entry(items[0], items[1..])];
            var r := Passes(t, again, mode, items, Objs(ctx), |frames| + 1, name, out, tags);
            && InStep(t, frames', ctx')
            && (if r.Stopped? then r else Resume(t, r.pos, r.mode, true, frames, ctx, r.out, r.tags))
            == Resume(t, again, mode, true, frames', ctx', out, tags)
  {
    hide Body;
    var first := Body(t, again, mode, true, Objs(ctx) + [items[0]], |frames| + 1, out, tags);
    PushEntry(ctx, Entry(items[0], items[1..]));
    FirstPass(t, again, mode, items, Objs(ctx), |frames| + 1, name, out, tags);
    UnwindEntered(t, first, again, frames, ctx, items, name);
  }

  /** The same for a section whose body is read once. */
  lemma {:induction false} UnwindOnce(t: string, first: Pass, again: nat, enabled: bool, inner: bool,
                                      frames: seq<Frame>, ctx: seq<Entry>, items: seq<Json>, name: string)
    requires again <= |t| && InStep(t, frames, ctx) && |frames| < MAX_DEPTH
    requires first.Closed? ==> first.pos <= |t| && first.mode.Valid()
    requires items != [] ==> enabled && !inner
    ensures var frames' := frames + [Frame(name, again, enabled, items != [])];
            var ctx' := if items == [] then ctx else ctx + [Entry(items[0], items[1..])];
            var m := Matched(first, name);
            && InStep(t, frames', ctx')
            && Unwind(t, first, inner, frames', ctx')
            == if m.Stopped? then m else Resume(t, m.pos, m.mode, enabled, frames, ctx, m.out, m.tags)
  {
    hide Body;
    PushFrame(t, frames, ctx, Frame(name, again, enabled, items != []));
    if items != [] {
      PushEntry(ctx, Entry(items[0], items[1..]));
    }
  }

  lemma {:induction false} OnceStep(t: string, again: nat, mode: Mode, enabled: bool, inner: bool, frames: seq<Frame>,
                                    ctx: seq<Entry>, items: seq<Json>, name: string, out: string, tags: nat)
    requires again <= |t| && mode.Valid() && InStep(t, frames, ctx) && |frames| < MAX_DEPTH
    requires items != [] ==> enabled && !inner
    ensures var frames' := frames + [Frame(name, again, enabled, items != [])];
            var ctx' := if items == [] then ctx else ctx + [Entry(items[0], items[1..])];
            && InStep(t, frames', ctx')
            && Unwind(t,
                      After(t,
                            Matched(Body(t, again, mode, inner,
                                         if items == [] then Objs(ctx)
                                             else Objs(ctx) + [items[0]], |frames| + 1, out, tags),
                                    name),
                               enabled, Objs(ctx), |frames|), enabled, frames, ctx)
            == Resume(t, again, mode, inner, frames', ctx', out, tags)
  {
    hide Body;
    var first := Body(t, again, mode, inner, if items == [] then Objs(ctx) else Objs(ctx) + [items[0]],
                      |frames| + 1, out, tags);
    if items != [] {
      PushEntry(ctx, Entry(items[0], items[1..]));
    }
    UnwindOnce(t, first, again, enabled, inner, frames, ctx, items, name);
  }

  /** Opening a section on both stacks, then running on, is the recursive reading of the section. */
  lemma {:induction false} SectionStep(t: string, again: nat, name: string, inverted: bool, mode: Mode, enabled: bool,
                                       frames: seq<Frame>, ctx: seq<Entry>, out: string, tags: nat)
    requires again <= |t| && mode.Valid() && InStep(t, frames, ctx) && |frames| < MAX_DEPTH
    requires !(enabled && EnterTooDeep(Objs(ctx), name))
    ensures var items := if enabled then Entered(Objs(ctx), name) else [];
            var frames' := frames + [Frame(name, again, enabled, items != [])];
            var ctx' := if items == [] then ctx else ctx + [Entry(items[0], items[1..])];
            && InStep(t, frames', ctx')
            && Unwind(t, SectionPass(t, again, name, inverted, mode, enabled, Objs(ctx), |frames|, out, tags), enabled,
                      frames, ctx)
            == Resume(t, again, mode, enabled && inverted == (items == []), frames', ctx', out, tags)
  {
    hide Body, Passes;
    var items := if enabled then Entered(Objs(ctx), name) else [];
    if items != [] && !inverted {
      EnterStep(t, again, mode, frames, ctx, items, name, out, tags);
      AfterStep(t, Passes(t, again, mode, items, Objs(ctx), |frames| + 1, name, out, tags), enabled, frames, ctx);
    } else {
      OnceStep(t, again, mode, enabled, enabled && inverted && items == [], frames, ctx, items, name, out, tags);
    }
  }

  /** Jumping back for the next item is going on with the remaining passes. */
  lemma {:induction false} AgainStep(t: string, r: Pass, frames: seq<Frame>, ctx: seq<Entry>)
    requires InStep(t, frames, ctx) && frames != [] && r.Closed? && r.pos <= |t| && r.mode.Valid()
    requires frames[|frames| - 1].entered && frames[|frames| - 1].name == r.name
    requires ctx[|ctx| - 1].next != []
    ensures var next := ctx[|ctx| - 1].next;
            var ctx' := ctx[..|ctx| - 1] + [Entry(next[0], next[1..])];
            && InStep(t, frames, ctx')
            && Unwind(t, r, true, frames, ctx)
            == Resume(t, frames[|frames| - 1].again, r.mode, true, frames, ctx', r.out, r.tags)
  {
    hide Body;
    PopFrame(t, frames, ctx);
    var next := ctx[|ctx| - 1].next;
    PushEntry(ctx[..|ctx| - 1], Entry(next[0], next[1..]));
  }
}
