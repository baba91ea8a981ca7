/**
 * The pool of the postgres middleware: an array of used flags, searched on a serial queue, behind a semaphore.
 * A pass is one run of the middleware; it registers one cleanup, which freeRequest runs when the request ends.
 */
module FlagPool {
  import opened Counting

  /** A pass holds a slot from the search until its cleanup clears the flag. */
  datatype Phase = Idle | Permitted | Holding(slot: nat) | Cleared

  datatype State = State(size: nat, permits: nat, used: seq<bool>, phases: seq<Phase>)

  datatype Step = Wait(who: nat) | Take(who: nat) | Clear(who: nat) | Signal(who: nat)

  /** initPostgressConnection. */
  function Created(size: nat, passes: nat): State {
    State(size, size, seq(size, i => false), seq(passes, i => Idle))
  }

  predicate Enabled(s: State, step: Step) {
    step.who < |s.phases| &&
    match step
    case Wait(who) => s.phases[who] == Idle && s.permits > 0
    case Take(who) => s.phases[who] == Permitted
    case Clear(who) => s.phases[who].Holding? && s.phases[who].slot < |s.used|
    case Signal(who) => s.phases[who] == Cleared
  }

  /** The first slot that is not used, or the number of slots. */
  function FirstFree(used: seq<bool>): (i: nat)
    ensures i <= |used|
    ensures i < |used| ==> !used[i]
    ensures forall k :: 0 <= k < i ==> used[k]
  {
    if used == [] || !used[0] then 0 else 1 + FirstFree(used[1..])
  }

  /** Without an unused slot the middleware would go on with a NULL connection. */
  predicate Crashes(s: State, step: Step) {
    step.Take? && FirstFree(s.used) == |s.used|
  }

  function Apply(s: State, step: Step): State
    requires Enabled(s, step) && !Crashes(s, step)
  {
    match step
    case Wait(who) => s.(permits := s.permits - 1, phases := s.phases[who := Permitted])
    case Take(who) =>
      var i := FirstFree(s.used);
      s.(used := s.used[i := true], phases := s.phases[who := Holding(i)])
    case Clear(who) => s.(used := s.used[s.phases[who].slot := false], phases := s.phases[who := Cleared])
    case Signal(who) => s.(permits := s.permits + 1, phases := s.phases[who := Idle])
  }

  predicate Active(p: Phase) {
    !p.Idle?
  }

  predicate Holds(p: Phase) {
    p.Holding?
  }

  predicate Set(b: bool) {
    b
  }

  /**
   * Permits and passes past the semaphore add up to the size; the flags that are set are those of the
   * holders, one each.
   */
  ghost predicate Sound(s: State) {
    && |s.used| == s.size
    && s.permits + Count(s.phases, Active) == s.size
    && Count(s.used, Set) == Count(s.phases, Holds)
    && (forall i :: 0 <= i < |s.phases| && s.phases[i].Holding? ==>
          s.phases[i].slot < |s.used| && s.used[s.phases[i].slot])
    && (forall i, j :: 0 <= i < j < |s.phases| && s.phases[i].Holding? ==> s.phases[i] != s.phases[j])
  }

  lemma CreatedSound(size: nat, passes: nat)
    ensures Sound(Created(size, passes))
  {
    var s := Created(size, passes);
    CountNone(s.phases, Active);
    CountNone(s.phases, Holds);
    CountNone(s.used, Set);
  }

  /** A pass past the semaphore finds an unused slot. */
  lemma TakeFinds(s: State, who: nat)
    requires Sound(s) && who < |s.phases| && s.phases[who] == Permitted
    ensures FirstFree(s.used) < |s.used|
  {
    var t := s.phases[who := Idle];
    CountUpdate(s.phases, who, Idle, Active);
    CountUpdate(s.phases, who, Idle, Holds);
    CountFewer(t, Holds, Active);
    var i := CountMissing(s.used, Set);
    assert !s.used[i];
  }

  lemma TakeSound(s: State, who: nat)
    requires Sound(s) && Enabled(s, Take(who)) && !Crashes(s, Take(who))
    ensures Sound(Apply(s, Take(who)))
  {
    var i := FirstFree(s.used);
    CountUpdate(s.phases, who, Holding(i), Active);
    CountUpdate(s.phases, who, Holding(i), Holds);
    CountUpdate(s.used, i, true, Set);
    hide Count, FirstFree;
  }

  lemma ClearSound(s: State, who: nat)
    requires Sound(s) && Enabled(s, Clear(who))
    ensures Sound(Apply(s, Clear(who)))
  {
    CountUpdate(s.phases, who, Cleared, Active);
    CountUpdate(s.phases, who, Cleared, Holds);
    CountUpdate(s.used, s.phases[who].slot, false, Set);
    hide Count, FirstFree;
  }

  /** Every step that can be taken from a sound state leads to one, and none crashes. */
  lemma StepSound(s: State, step: Step)
    requires Sound(s) && Enabled(s, step)
    ensures !Crashes(s, step) && Sound(Apply(s, step))
  {
    match step
    case Take(who) =>
      TakeFinds(s, who);
      TakeSound(s, who);
    case Clear(who) => ClearSound(s, who);
    case Wait(who) =>
      CountUpdate(s.phases, who, Permitted, Active);
      CountUpdate(s.phases, who, Permitted, Holds);
      hide Count, FirstFree;
    case Signal(who) =>
      CountUpdate(s.phases, who, Idle, Active);
      CountUpdate(s.phases, who, Idle, Holds);
      hide Count, FirstFree;
  }

  ghost predicate Run(s: State, steps: seq<Step>, t: State)
    decreases |steps|
  {
    if steps == [] then s == t
    else Enabled(s, steps[0]) && !Crashes(s, steps[0]) && Run(Apply(s, steps[0]), steps[1..], t)
  }

  lemma {:induction false} RunSound(s: State, steps: seq<Step>, t: State)
    requires Sound(s) && Run(s, steps, t)
    ensures Sound(t) && t.size == s.size
    decreases |steps|
  {
    if steps != [] {
      StepSound(s, steps[0]);
      hide Sound;
      RunSound(Apply(s, steps[0]), steps[1..], t);
    }
  }

  /**
   * In every run from a new pool: the flags that are set are as many as the passes that hold a slot, no slot
   * has two holders, a pass past the semaphore finds an unused slot, and when all passes are done every
   * flag is clear and every permit is back.
   */
  lemma PoolSafe(size: nat, passes: nat, steps: seq<Step>, t: State)
    requires Run(Created(size, passes), steps, t)
    ensures Count(t.used, Set) == Count(t.phases, Holds)
    ensures forall who :: 0 <= who < |t.phases| && t.phases[who] == Permitted ==> FirstFree(t.used) < |t.used|
    ensures forall i, j :: 0 <= i < j < |t.phases| && t.phases[i].Holding? ==> t.phases[i] != t.phases[j]
    ensures (forall i :: 0 <= i < |t.phases| ==> t.phases[i] == Idle) ==>
              t.permits == size && forall k :: 0 <= k < |t.used| ==> !t.used[k]
  {
    CreatedSound(size, passes);
    RunSound(Created(size, passes), steps, t);
    hide Run, Created;
    forall who | 0 <= who < |t.phases| && t.phases[who] == Permitted ensures FirstFree(t.used) < |t.used| {
      TakeFinds(t, who);
    }
    if forall i :: 0 <= i < |t.phases| ==> t.phases[i] == Idle {
      CountNone(t.phases, Active);
      CountNone(t.phases, Holds);
      forall k | 0 <= k < |t.used| ensures !t.used[k] {
        if t.used[k] {
          CountSome(t.used, Set, k);
        }
      }
    }
  }
}
