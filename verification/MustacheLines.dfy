/** Lines that hold nothing but blanks and tags that may stand alone: they leave nothing in the output. */
module MustacheLines {
  import opened Json
  import opened MustacheText
  import opened MustacheInterp

  /** Blanks from `i` to `j` that do not end the line. */
  predicate BlanksTo(t: string, i: nat, j: nat) {
    i <= j <= |t| && forall k :: i <= k < j ==> IsSpace(t[k]) && t[k] != '\n'
  }

  /** A tag at `at`, behind blanks from `pos` on. */
  predicate TagBehind(t: string, pos: nat, at: nat, mode: Mode) {
    mode.Valid() && !IsSpace(mode.op[0]) && BlanksTo(t, pos, at) && Matches(t, at, mode.op)
  }

  /** Blanks are passed over. */
  lemma {:induction false} ScanBlanks(t: string, start: nat, i: nat, j: nat, line: Line, prefix: string, enabled: bool,
                                      op: string, out: string)
    requires op != "" && start <= i && BlanksTo(t, i, j)
    ensures Scan(t, start, i, line, prefix, enabled, op, out) == Scan(t, start, j, line, prefix, enabled, op, out)
    decreases |t| - i
  {
    if i < j {
      ScanBlanks(t, start, i + 1, j, line, prefix, enabled, op, out);
    }
  }

  lemma {:induction false} ScanTag(t: string, start: nat, at: nat, line: Line, prefix: string, enabled: bool,
                                   op: string,
                                   out: string)
    requires op != "" && !IsSpace(op[0]) && start <= at <= |t| && Matches(t, at, op) && line != Lone
    ensures Scan(t, start, at, line, prefix, enabled, op, out) == AtTag(start, at, line, out)
  {
    assert t[at] == t[at..at + |op|][0];
  }

  /** A tag that may stand alone, with only blanks before it on its line: they are held back. */
  lemma {:induction false} AloneHolds(t: string, pos: nat, at: nat, mode: Mode, enabled: bool, depth: nat, out: string)
    requires TagBehind(t, pos, at, mode) && mode.line == Blank
    requires var tag := ReadTag(t, at + |mode.op|, mode.cl); tag.Tag? && tag.alone && !tag.kind.Delimiters?
    ensures var tag := ReadTag(t, at + |mode.op|, mode.cl);
            NextTag(t, pos, mode, enabled, depth, out) ==
            Go(tag.kind, tag.name, tag.next, mode.(line := Lone, prefix := if enabled then t[pos..at] else ""), out)
  {
    hide Scan, ReadTag, Matches;
    ScanBlanks(t, pos, pos, at, Blank, mode.prefix, enabled, mode.op, out);
    ScanTag(t, pos, at, Blank, mode.prefix, enabled, mode.op, out);
  }

  /** If nothing but blanks follows on the line, the line and its end leave nothing. */
  lemma {:induction false} AloneEnds(t: string, pos: nat, brk: nat, mode: Mode, enabled: bool, depth: nat, out: string)
    requires mode.Valid() && mode.line == Lone && BlanksTo(t, pos, brk) && brk < |t| && t[brk] == '\n'
    ensures NextTag(t, pos, mode, enabled, depth, out)
         == NextTag(t, brk + 1, mode.(line := Blank, prefix := ""), enabled, depth, out)
  {
    hide ReadTag, ReadDelimiters, IsSpace;
    ScanBlanks(t, pos, pos, brk, Lone, mode.prefix, enabled, mode.op, out);
    assert out + "" == out;
    LineEnd(t, pos, brk, mode.prefix, enabled, mode.op, out);
    hide Scan, Matches;
  }

  lemma {:induction false} LineEnd(t: string, start: nat, brk: nat, prefix: string, enabled: bool, op: string,
                                   out: string)
    requires op != "" && start <= brk < |t| && t[brk] == '\n'
    ensures Scan(t, start, brk, Lone, prefix, enabled, op, out)
            == Scan(t, brk + 1, brk + 1, Blank, "", enabled, op, out)
  {
    assert out + "" == out;
  }

  /** If text follows, the blanks that were held back are written in front of it. */
  lemma {:induction false} AloneFails(t: string, pos: nat, at: nat, prefix: string, op: string, out: string)
    requires op != "" && BlanksTo(t, pos, at) && at < |t| && !IsSpace(t[at]) && !Matches(t, at, op)
    ensures Scan(t, pos, pos, Lone, prefix, true, op, out) == Scan(t, pos, at + 1, Mixed, "", true, op, out + prefix)
  {
    ScanBlanks(t, pos, pos, at, Lone, prefix, true, op, out);
  }

  /** A variable never stands alone: the blanks before it are written. */
  lemma {:induction false} VariableKeeps(t: string, pos: nat, at: nat, mode: Mode, depth: nat, out: string)
    requires TagBehind(t, pos, at, mode) && mode.line == Blank
    requires var tag := ReadTag(t, at + |mode.op|, mode.cl); tag.Tag? && !tag.alone && !tag.kind.Delimiters?
    ensures var tag := ReadTag(t, at + |mode.op|, mode.cl);
            NextTag(t, pos, mode, true, depth, out) ==
            Go(tag.kind, tag.name, tag.next, mode.(line := Mixed, prefix := ""), out + t[pos..at])
  {
    hide Scan, ReadTag, Matches;
    ScanBlanks(t, pos, pos, at, Blank, mode.prefix, true, mode.op, out);
    ScanTag(t, pos, at, Blank, mode.prefix, true, mode.op, out);
  }

  /** A pass depends on where it stands only through its next tag. */
  lemma {:induction false} SameTag(t: string, a: nat, b: nat, m: Mode, n: Mode, enabled: bool, ctx: seq<Json>,
                                   depth: nat,
                                   out: string, tags: nat)
    requires a <= |t| && b <= |t| && m.Valid() && n.Valid() && ctx != [] && depth <= MAX_DEPTH
    requires NextTag(t, a, m, enabled, depth, out) == NextTag(t, b, n, enabled, depth, out)
    ensures Body(t, a, m, enabled, ctx, depth, out, tags) == Body(t, b, n, enabled, ctx, depth, out, tags)
  {
    hide NextTag, SectionPass;
  }

  /** A comment alone on its line vanishes with its line. */
  lemma {:induction false} CommentLine(t: string, pos: nat, at: nat, brk: nat, mode: Mode, enabled: bool,
                                       ctx: seq<Json>,
                                       depth: nat, out: string, tags: nat)
    requires ctx != [] && depth <= MAX_DEPTH && TagBehind(t, pos, at, mode) && mode.line == Blank
    requires var tag := ReadTag(t, at + |mode.op|, mode.cl);
             tag.Tag? && tag.alone && tag.kind.Comment? && BlanksTo(t, tag.next, brk) && brk < |t| && t[brk] == '\n'
    ensures Body(t, pos, mode, enabled, ctx, depth, out, tags)
         == Body(t, brk + 1, mode.(line := Blank, prefix := ""), enabled, ctx, depth, out, tags + 1)
  {
    hide NextTag, ReadTag, SectionPass;
    var next := ReadTag(t, at + |mode.op|, mode.cl).next;
    var lone := mode.(line := Lone, prefix := if enabled then t[pos..at] else "");
    AloneHolds(t, pos, at, mode, enabled, depth, out);
    AloneEnds(t, next, brk, lone, enabled, depth, out);
    SameTag(t, next, brk + 1, lone, mode.(line := Blank, prefix := ""), enabled, ctx, depth, out, tags + 1);
  }
}
