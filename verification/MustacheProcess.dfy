/** `process`: one loop over the template that jumps back to repeat a section. */
module MustacheProcess {
  import opened Options
  import opened Json
  import opened MustacheText
  import opened MustacheContext
  import opened MustacheInterp
  import opened MustacheMachine
  import opened MustacheCursor
  import opened MustacheWrap

  method MatchesAt(t: string, at: nat, delim: string) returns (b: bool)
    requires at < |t| && delim != ""
    ensures b == Matches(t, at, delim)
  {
    if t[at] != delim[0] || |t| - at < |delim| {
      return false;
    }
    var l := 1;
    while l < |delim| && t[at + l] == delim[l]
      invariant 1 <= l <= |delim|
      invariant forall j :: 0 <= j < l ==> t[at + j] == delim[j]
    {
      l := l + 1;
    }
    b := l == |delim|;
  }

  /** Writes the line piece up to the line break at `beg`. */
  method WriteLine(t: string, start: nat, beg: nat, line: Line, prefix: string, enabled: bool, file: string)
    returns (out: string)
    requires start <= beg <= |t|
    ensures out == file + Piece(t, start, beg, line, prefix, enabled)
  {
    out := file;
    if line != Lone && enabled {
      if beg != start {
        out := out + prefix;
      }
      out := out + t[start..if beg == |t| then beg else beg + 1];
    }
  }

  /** Searches the next opening delimiter, writing the lines it passes. */
  method SearchOpen(t: string, pos: nat, mode: Mode, enabled: bool, file: string) returns (r: Scanned)
    requires pos <= |t| && mode.Valid()
    ensures r == Scan(t, pos, pos, mode.line, mode.prefix, enabled, mode.op, file)
  {
    hide Matches, Piece;
    var start: nat, beg: nat := pos, pos;
    var line, prefix, out := mode.line, mode.prefix, file;
    while true
      invariant start <= beg <= |t|
      invariant Scan(t, start, beg, line, prefix, enabled, mode.op, out)
             == Scan(t, pos, pos, mode.line, mode.prefix, enabled, mode.op, file)
      decreases |t| - beg
    {
      if beg == |t| || t[beg] == '\n' {
        out := WriteLine(t, start, beg, line, prefix, enabled, out);
        if beg == |t| {
          return AtEnd(out);
        }
        start, line, prefix := beg + 1, Blank, "";
      } else if !IsSpace(t[beg]) {
        if line == Lone && enabled {
          out, prefix, line := out + prefix, "", Mixed;
        }
        var found := MatchesAt(t, beg, mode.op);
        if found {
          return AtTag(start, beg, line, out);
        }
        line := Mixed;
      }
      beg := beg + 1;
    }
  }

  method SearchClose(t: string, beg: nat, cl: string) returns (term: nat)
    requires beg <= |t| && cl != ""
    ensures term == Find(t, beg, cl)
  {
    term := beg;
    while term != |t|
      invariant beg <= term <= |t| && Find(t, term, cl) == Find(t, beg, cl)
    {
      var found := MatchesAt(t, term, cl);
      if found {
        return;
      }
      term := term + 1;
    }
  }

  method TrimName(t: string, from: nat, to: nat) returns (name: string)
    requires from <= to <= |t|
    ensures name == Trim(t[from..to])
  {
    var beg, end := from, to;
    while beg < end && IsSpace(t[beg])
      invariant from <= beg <= end && TrimLeft(t[beg..end]) == TrimLeft(t[from..to])
    {
      assert t[beg..end][1..] == t[beg + 1..end];
      beg := beg + 1;
    }
    while beg < end && IsSpace(t[end - 1])
      invariant beg <= end <= to && TrimRight(t[beg..end]) == Trim(t[from..to])
    {
      assert t[beg..end][..end - 1 - beg] == t[beg..end - 1];
      end := end - 1;
    }
    name := t[beg..end];
  }

  /** The common end of the tag kinds that have a name; `skip` drops the first character. */
  method GetName(t: string, from: nat, to: nat, skip: bool, kind: Kind, next: nat, alone: bool) returns (tag: Tag)
    requires from <= to <= |t|
    ensures tag == if skip then NamedAfterFirst(kind, t[from..to], next, alone)
            else Named(kind, t[from..to], next, alone)
  {
    if skip && from == to {
      return BadTag(TagTooLong);
    }
    assert skip ==> t[from..to][1..] == t[from + 1..to];
    var name := TrimName(t, if skip then from + 1 else from, to);
    if name == "" {
      return BadTag(EmptyTag);
    }
    if |name| > MAX_LENGTH {
      return BadTag(TagTooLong);
    }
    return Tag(kind, name, next, alone);
  }

  /** Whether the closing delimiter is made of braces. */
  method OnlyBraces(cl: string) returns (all: bool)
    ensures all == AllBraces(cl)
  {
    var l := 0;
    while l < |cl| && cl[l] == '}'
      invariant 0 <= l <= |cl| && forall i :: 0 <= i < l ==> cl[i] == '}'
    {
      l := l + 1;
    }
    all := l == |cl|;
  }

  lemma SliceEnd(t: string, beg: nat, term: nat)
    requires beg < term <= |t|
    ensures t[beg..term][|t[beg..term]| - 1] == t[term - 1]
    ensures t[beg..term][..|t[beg..term]| - 1] == t[beg..term - 1]
  {
  }

  /** The tag that begins with an opening brace. */
  method GetUnescaped(t: string, beg: nat, term: nat, cl: string) returns (tag: Tag)
    requires beg <= |t| && cl != "" && term == Find(t, beg, cl) < |t| && t[beg] == '{'
    ensures tag == ReadTag(t, beg, cl)
  {
    hide Find, AllBraces, NamedAfterFirst;
    var next := term + |cl|;
    var braces := OnlyBraces(cl);
    if !braces {
      if beg == term || t[term - 1] != '}' {
        if beg < term {
          SliceEnd(t, beg, term);
        }
        return BadTag(BadUnescapeTag);
      }
      SliceEnd(t, beg, term);
      tag := GetName(t, beg, term - 1, true, Variable(false), next, false);
    } else {
      if next == |t| || t[next] != '}' {
        return BadTag(BadUnescapeTag);
      }
      tag := GetName(t, beg, term, true, Variable(false), next + 1, false);
    }
  }

  /** Reads the tag after an opening delimiter. */
  method GetTag(t: string, beg: nat, cl: string) returns (tag: Tag)
    requires beg <= |t| && cl != ""
    ensures tag == ReadTag(t, beg, cl)
  {
    hide Find, Named, NamedAfterFirst;
    var term := SearchClose(t, beg, cl);
    if term == |t| {
      return BadTag(UnexpectedEnd);
    }
    var next := term + |cl|;
    var c := t[beg];
    match c {
      case '!' => return Tag(Comment, "", next, true);
      case '=' => return Tag(Delimiters("", ""), t[beg..term], next, true);
      case '{' => tag := GetUnescaped(t, beg, term, cl);
      case '&' => tag := GetName(t, beg, term, true, Variable(false), next, false);
      case '^' => tag := GetName(t, beg, term, true, Section(true), next, true);
      case '#' => tag := GetName(t, beg, term, true, Section(false), next, true);
      case '/' => tag := GetName(t, beg, term, true, Close, next, true);
      case '>' => tag := GetName(t, beg, term, true, Partial, next, true);
      case _ => tag := GetName(t, beg, term, false, Variable(true), next, false);
    }
  }

  /** The frames in use. */
  ghost function Open(stack: array<Frame>, depth: nat): seq<Frame>
    requires depth <= stack.Length
    reads stack
  {
    stack[..depth]
  }

  /** Begins a section: what is left from the new state is the recursive reading of the section and what follows it. */
  method OpenSection(t: string, again: nat, name: string, inverted: bool, ghost mode: Mode, enabled: bool,
                     cursor: Cursor, stack: array<Frame>, depth: nat, ghost out: string, ghost tags: nat)
    returns (tooDeep: bool, enabled': bool)
    requires again <= |t| && mode.Valid() && name != "" && '\0' !in name
    requires cursor.Valid() && depth <= stack.Length == MAX_DEPTH && InStep(t, Open(stack, depth), cursor.Entries())
    modifies cursor, cursor.stack, stack
    ensures tooDeep ==>
            SectionPass(t, again, name, inverted, mode, enabled, old(cursor.Scope()), depth, out, tags)
                == Stopped(TooDeep, out, tags)
    ensures !tooDeep ==>
              && cursor.Valid() && depth < MAX_DEPTH && InStep(t, Open(stack, depth + 1), cursor.Entries())
              && Resume(t, again, mode, enabled', Open(stack, depth + 1), cursor.Entries(), out, tags)
              == Unwind(t, SectionPass(t, again, name, inverted, mode, enabled, old(cursor.Scope()), depth, out, tags),
                        enabled, old(Open(stack, depth)), old(cursor.Entries()))
  {
    hide Resume, Unwind, InStep;
    if depth == MAX_DEPTH {
      return true, enabled;
    }
    ghost var frames, ctx := Open(stack, depth), cursor.Entries();
    var entered := Some(false);
    if enabled {
      entered := EnterName(cursor, name);
      if entered.None? {
        return true, enabled;
      }
    }
    enabled' := if inverted == entered.value then false else enabled;
    stack[depth] := Frame(name, again, enabled, entered.value);
    assert Open(stack, depth + 1) == frames + [Frame(name, again, enabled, entered.value)];
    tooDeep := false;
    SectionStep(t, again, name, inverted, mode, enabled, frames, ctx, out, tags);
  }

  /** Ends a section: jumps back if an item is left, else restores the outer state. */
  method CloseSection(t: string, name: string, next: nat, ghost r: Pass, enabled: bool, cursor: Cursor,
                      stack: array<Frame>, depth: nat)
    returns (ok: bool, pos: nat, enabled': bool, depth': nat)
    requires r.Closed? && r.name == name && r.pos == next <= |t| && r.mode.Valid()
    requires cursor.Valid() && depth <= stack.Length == MAX_DEPTH && InStep(t, Open(stack, depth), cursor.Entries())
    modifies cursor`depth, cursor.stack
    ensures !ok ==> Unwind(t, r, enabled, Open(stack, depth), old(cursor.Entries())) == Stopped(Closing, r.out, r.tags)
    ensures ok ==>
              && cursor.Valid() && pos <= |t| && depth' <= MAX_DEPTH && InStep(t, Open(stack, depth'), cursor.Entries())
              && Resume(t, pos, r.mode, enabled', Open(stack, depth'), cursor.Entries(), r.out, r.tags)
              == Unwind(t, r, enabled, Open(stack, depth), old(cursor.Entries()))
  {
    hide Body, Passes, Resume;
    pos, enabled', depth' := next, enabled, depth;
    if depth == 0 || stack[depth - 1].name != name {
      return false, pos, enabled', depth';
    }
    ok, depth' := true, depth - 1;
    ghost var frames, ctx := Open(stack, depth), cursor.Entries();
    assert Open(stack, depth') == frames[..depth'];
    PopFrame(t, frames, ctx);
    var more := false;
    if enabled && stack[depth'].entered {
      more := cursor.Next();
    }
    if more {
      AgainStep(t, r, frames, ctx);
      pos, depth' := stack[depth'].again, depth' + 1;
    } else {
      enabled' := stack[depth'].enabled;
      if enabled' && stack[depth'].entered {
        cursor.Leave();
      }
    }
  }

  lemma {:induction false} StartState(t: string, root: Json)
    ensures InStep(t, [], [Entry(root, [])])
    ensures Resume(t, 0, START, true, [], [Entry(root, [])], "", 0) == Interpret(t, root)
  {
    hide Body;
    assert Objs([Entry(root, [])]) == [root];
  }

  /** Searches and reads the next tag, and writes or holds back the blanks before it. */
  method ReadStep(t: string, pos: nat, mode: Mode, enabled: bool, depth: nat, file: string) returns (r: Step)
    requires pos <= |t| && mode.Valid()
    ensures r == NextTag(t, pos, mode, enabled, depth, file)
  {
    hide Scan, ReadTag, ReadDelimiters;
    var scan := SearchOpen(t, pos, mode, enabled, file);
    if scan.AtEnd? {
      return Halt(if depth != 0 then UnexpectedEnd else Ok, scan.out);
    }
    var tag := GetTag(t, scan.beg + |mode.op|, mode.cl);
    if tag.BadTag? {
      return Halt(tag.code, scan.out);
    }
    var mode', out := mode, scan.out;
    if scan.line != Mixed && tag.alone {
      mode' := mode.(line := Lone, prefix := if enabled then t[scan.start..scan.beg] else "");
    } else {
      mode' := mode.(line := Mixed, prefix := "");
      if enabled {
        out := out + t[scan.start..scan.beg];
      }
    }
    if tag.kind.Delimiters? {
      var d := ReadDelimiters(tag.name);
      if d.BadTag? {
        return Halt(d.code, out);
      }
      return Go(d.kind, "", tag.next, mode'.(op := d.kind.op, cl := d.kind.cl), out);
    }
    return Go(tag.kind, tag.name, tag.next, mode', out);
  }

  /** What is left to compute from a state is what is left behind its next tag. */
  lemma {:induction false} ResumeTag(t: string, pos: nat, mode: Mode, enabled: bool, frames: seq<Frame>,
                                     ctx: seq<Entry>, out: string, tags: nat)
    requires pos <= |t| && mode.Valid() && InStep(t, frames, ctx)
    ensures var step := NextTag(t, pos, mode, enabled, |frames|, out);
            Resume(t, pos, mode, enabled, frames, ctx, out, tags)
            == if step.Halt? then Stopped(step.verdict, step.out, tags)
               else
                 match step.kind
                 case Comment => Resume(t, step.next, step.mode, enabled, frames, ctx, step.out, tags + 1)
                 case Delimiters(_, _) => Resume(t, step.next, step.mode, enabled, frames, ctx, step.out, tags + 1)
                 case Variable(escape) =>
                   var out1 := if enabled then step.out + Replacement(Objs(ctx), step.name, escape) else step.out;
                   Resume(t, step.next, step.mode, enabled, frames, ctx, out1, tags + 1)
                 case Partial =>
                   if enabled then Stopped(PartialReached, step.out, tags)
                   else Resume(t, step.next, step.mode, enabled, frames, ctx, step.out, tags + 1)
                 case Close => Unwind(t, Closed(step.name, step.next, step.mode, step.out, tags + 1), enabled, frames,
                                      ctx)
                 case Section(inverted) =>
                   Unwind(t, SectionPass(t, step.next, step.name, inverted, step.mode, enabled, Objs(ctx), |frames|,
                                         step.out, tags + 1), enabled, frames, ctx)
  {
    hide Unwind, InStep, NextTag, Replacement, SectionPass;
  }

  /** The whole interpreter, run against a JSON value. */
  method Process(t: string, cursor: Cursor) returns (verdict: Verdict, file: string)
    requires '\0' !in t && cursor.Valid() && cursor.Entries() == [Entry(cursor.root, [])]
    modifies cursor, cursor.stack
    ensures var r := Interpret(t, cursor.root); verdict == r.verdict && file == r.out
    ensures verdict == Ok ==> cursor.depth == 0
  {
    hide Resume, Unwind, InStep, NextTag, Replacement, SectionPass, Interpret, Body;
    ghost var goal := Interpret(t, cursor.root);
    StartState(t, cursor.root);
    var stack := new Frame[MAX_DEPTH](_ => Frame("", 0, false, false));
    var pos: nat, depth: nat, mode, enabled := 0, 0, START, true;
    file := "";
    ghost var tags := 0;
    assert Open(stack, 0) == [];
    while true
      invariant pos <= |t| && mode.Valid() && depth <= MAX_DEPTH == stack.Length
      invariant cursor.Valid() && InStep(t, Open(stack, depth), cursor.Entries())
      invariant Resume(t, pos, mode, enabled, Open(stack, depth), cursor.Entries(), file, tags) == goal
      decreases goal.tags - tags
    {
      ResumeTag(t, pos, mode, enabled, Open(stack, depth), cursor.Entries(), file, tags);
      var step := ReadStep(t, pos, mode, enabled, depth, file);
      if step.Halt? {
        if depth == 0 {
          assert Open(stack, 0) == [];
          AtRoot(t, cursor.Entries());
        }
        return step.verdict, step.out;
      }
      pos, mode, file, tags := step.next, step.mode, step.out, tags + 1;
      match step.kind {
        case Comment =>
        case Delimiters(_, _) =>
        case Variable(escape) =>
          if enabled {
            file := PutName(cursor, step.name, escape, file);
          }
        case Partial =>
          if enabled {
            return PartialReached, file;
          }
        case Close =>
          var ok;
          ghost var closed := Closed(step.name, pos, mode, file, tags);
          ok, pos, enabled, depth := CloseSection(t, step.name, pos, closed, enabled, cursor, stack, depth);
          if !ok {
            return Closing, file;
          }
        case Section(inverted) =>
          var tooDeep;
          tooDeep, enabled := OpenSection(t, pos, step.name, inverted, mode, enabled, cursor, stack, depth, file, tags);
          if tooDeep {
            return TooDeep, file;
          }
          depth := depth + 1;
      }
    }
  }
}
