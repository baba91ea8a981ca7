/**
 * The database pool with a linked free list, as an interleaving of atomic steps: waiting on the semaphore,
 * popping and pushing on the serial queue, and signalling.
 */
module ListPool {
  import opened Counting

  type Connection = nat

  /** Where a borrower is. A holder is between borrow's pop and release's push. */
  datatype Phase = Idle | Permitted | Holding(connection: Connection) | Pushed

  datatype State = State(size: nat, permits: nat, free: seq<Connection>, phases: seq<Phase>)

  datatype Step = Wait(who: nat) | Pop(who: nat) | Push(who: nat) | Signal(who: nat)

  /** createPostgresPool: one connection more than the semaphore has permits. */
  function Created(size: nat, borrowers: nat): State {
    State(size, size, seq(size + 1, i => i), seq(borrowers, i => Idle))
  }

  predicate Enabled(s: State, step: Step) {
    step.who < |s.phases| &&
    match step
    case Wait(who) => s.phases[who] == Idle && s.permits > 0
    case Pop(who) => s.phases[who] == Permitted
    case Push(who) => s.phases[who].Holding?
    case Signal(who) => s.phases[who] == Pushed
  }

  /** A pop from an empty list would follow a NULL head. */
  predicate Crashes(s: State, step: Step) {
    step.Pop? && s.free == []
  }

  function Apply(s: State, step: Step): State
    requires Enabled(s, step) && !Crashes(s, step)
  {
    match step
    case Wait(who) => s.(permits := s.permits - 1, phases := s.phases[who := Permitted])
    case Pop(who) => s.(free := s.free[1..], phases := s.phases[who := Holding(s.free[0])])
    case Push(who) => s.(free := [s.phases[who].connection] + s.free, phases := s.phases[who := Pushed])
    case Signal(who) => s.(permits := s.permits + 1, phases := s.phases[who := Idle])
  }

  predicate Active(p: Phase) {
    !p.Idle?
  }

  predicate Holds(p: Phase) {
    p.Holding?
  }

  /** Being a holder of connection `c`. */
  function HolderOf(c: Connection): Phase -> bool {
    (p: Phase) => p == Holding(c)
  }

  /** How often a connection is in the free list or held. */
  function Places(s: State, c: Connection): nat {
    multiset(s.free)[c] + Count(s.phases, HolderOf(c))
  }

  /**
   * Permits and borrowers past the semaphore add up to the size; every connection is either in the free list
   * or held, once.
   */
  ghost predicate Sound(s: State) {
    && s.permits + Count(s.phases, Active) == s.size
    && |s.free| + Count(s.phases, Holds) == s.size + 1
    && forall c: Connection :: Places(s, c) == if c <= s.size then 1 else 0
  }

  lemma {:induction false} UpTo(n: nat, c: Connection)
    ensures multiset(seq(n, i => i))[c] == if c < n then 1 else 0
    decreases n
  {
    if n > 0 {
      var s := seq(n, i => i);
      assert s == seq(n - 1, i => i) + [n - 1];
      UpTo(n - 1, c);
    } else {
      assert seq(n, i => i) == [];
    }
  }

  lemma CreatedSound(size: nat, borrowers: nat)
    ensures Sound(Created(size, borrowers))
  {
    var s := Created(size, borrowers);
    CountNone(s.phases, Active);
    CountNone(s.phases, Holds);
    forall c: Connection ensures Places(s, c) == if c <= s.size then 1 else 0 {
      CountNone(s.phases, HolderOf(c));
      UpTo(size + 1, c);
    }
  }

  /** A borrower past the semaphore finds a connection in the list, and leaves one there. */
  lemma PopFinds(s: State, who: nat)
    requires Sound(s) && who < |s.phases| && s.phases[who] == Permitted
    ensures |s.free| >= 2
  {
    var t := s.phases[who := Idle];
    CountUpdate(s.phases, who, Idle, Active);
    CountUpdate(s.phases, who, Idle, Holds);
    CountFewer(t, Holds, Active);
  }

  lemma PopPlaces(s: State, who: nat, c: Connection)
    requires s.free != [] && Enabled(s, Pop(who))
    ensures Places(Apply(s, Pop(who)), c) == Places(s, c)
  {
    CountUpdate(s.phases, who, Holding(s.free[0]), HolderOf(c));
    assert s.free == [s.free[0]] + s.free[1..];
  }

  lemma OtherPlaces(s: State, step: Step, c: Connection)
    requires !step.Pop? && Enabled(s, step)
    ensures Places(Apply(s, step), c) == Places(s, c)
  {
    CountUpdate(s.phases, step.who, Apply(s, step).phases[step.who], HolderOf(c));
  }

  /** Every step that can be taken from a sound state leads to one, and none crashes. */
  lemma StepSound(s: State, step: Step)
    requires Sound(s) && Enabled(s, step)
    ensures !Crashes(s, step) && Sound(Apply(s, step))
  {
    if step.Pop? {
      PopFinds(s, step.who);
    }
    var t := Apply(s, step);
    CountUpdate(s.phases, step.who, t.phases[step.who], Active);
    CountUpdate(s.phases, step.who, t.phases[step.who], Holds);
    forall c: Connection ensures Places(t, c) == Places(s, c) {
      if step.Pop? {
        PopPlaces(s, step.who, c);
      } else {
        OtherPlaces(s, step, c);
      }
    }
  }

  /** A run: each step is one that some borrower can take. */
  ghost predicate Run(s: State, steps: seq<Step>, t: State)
    decreases |steps|
  {
    if steps == [] then s == t
    else Enabled(s, steps[0]) && !Crashes(s, steps[0]) && Run(Apply(s, steps[0]), steps[1..], t)
  }

  lemma {:induction false} RunSound(s: State, steps: seq<Step>, t: State)
    requires Sound(s) && Run(s, steps, t)
    ensures Sound(t) && t.size == s.size
    decreases |steps|
  {
    if steps != [] {
      StepSound(s, steps[0]);
      hide Sound;
      RunSound(Apply(s, steps[0]), steps[1..], t);
    }
  }

  lemma {:induction false} CountTwice(phases: seq<Phase>, has: Phase -> bool, i: nat, j: nat)
    requires i < j < |phases| && has(phases[i]) && has(phases[j])
    ensures Count(phases, has) >= 2
    decreases |phases|
  {
    if i > 0 {
      CountTwice(phases[1..], has, i - 1, j - 1);
    } else {
      CountSome(phases[1..], has, j - 1);
    }
  }

  /**
   * In every run from a new pool: whoever is past the semaphore finds a connection, a connection has one
   * holder at most and is then not in the free list, no connection is twice in the list, and when all
   * borrowers are done every connection and every permit is back.
   */
  lemma PoolSafe(size: nat, borrowers: nat, steps: seq<Step>, t: State)
    requires Run(Created(size, borrowers), steps, t)
    ensures forall who :: 0 <= who < |t.phases| && t.phases[who] == Permitted ==> |t.free| >= 2
    ensures forall i, j :: 0 <= i < j < |t.phases| && t.phases[i].Holding? ==> t.phases[i] != t.phases[j]
    ensures forall i :: 0 <= i < |t.phases| && t.phases[i].Holding? ==> t.phases[i].connection !in t.free
    ensures forall k, l :: 0 <= k < l < |t.free| ==> t.free[k] != t.free[l]
    ensures (forall i :: 0 <= i < |t.phases| ==> t.phases[i] == Idle) ==> t.permits == size && |t.free| == size + 1
  {
    CreatedSound(size, borrowers);
    RunSound(Created(size, borrowers), steps, t);
    hide Run, Created;
    forall who | 0 <= who < |t.phases| && t.phases[who] == Permitted ensures |t.free| >= 2 {
      PopFinds(t, who);
    }
    HoldersDistinct(t);
    FreeDistinct(t);
    if forall i :: 0 <= i < |t.phases| ==> t.phases[i] == Idle {
      CountNone(t.phases, Active);
      CountNone(t.phases, Holds);
    }
  }

  lemma HoldersDistinct(s: State)
    requires Sound(s)
    ensures forall i, j :: 0 <= i < j < |s.phases| && s.phases[i].Holding? ==> s.phases[i] != s.phases[j]
    ensures forall i :: 0 <= i < |s.phases| && s.phases[i].Holding? ==> s.phases[i].connection !in s.free
  {
    hide Count;
    forall i, j | 0 <= i < j < |s.phases| && s.phases[i].Holding? ensures s.phases[i] != s.phases[j] {
      if s.phases[i] == s.phases[j] {
        var c := s.phases[i].connection;
        assert Places(s, c) <= 1;
        CountTwice(s.phases, HolderOf(c), i, j);
      }
    }
    forall i | 0 <= i < |s.phases| && s.phases[i].Holding? ensures s.phases[i].connection !in s.free {
      var c := s.phases[i].connection;
      assert Places(s, c) <= 1;
      CountSome(s.phases, HolderOf(c), i);
    }
  }

  lemma FreeDistinct(s: State)
    requires Sound(s)
    ensures forall k, l :: 0 <= k < l < |s.free| ==> s.free[k] != s.free[l]
  {
    hide Count;
    forall k, l | 0 <= k < l < |s.free| ensures s.free[k] != s.free[l] {
      assert Places(s, s.free[k]) <= 1;
      InTwice(s.free, k, l);
    }
  }

  lemma InTwice(free: seq<Connection>, k: nat, l: nat)
    requires k < l < |free|
    ensures free[k] == free[l] ==> multiset(free)[free[k]] >= 2
  {
    assert free == free[..l] + free[l..];
    assert free[..l][k] == free[k] && free[l..][0] == free[l];
    assert multiset(free) == multiset(free[..l]) + multiset(free[l..]);
    assert free[k] in multiset(free[..l]) && free[l] in multiset(free[l..]);
  }

  /** The pool never locks up: while the semaphore has no permit, some borrower past it can take a step. */
  lemma Progress(s: State)
    requires Sound(s) && s.permits == 0 && s.size > 0
    ensures exists step :: Enabled(s, step) && !Crashes(s, step)
  {
    var i := SomeActive(s.phases);
    var step :=
      match s.phases[i]
      case Permitted => Pop(i)
      case Holding(_) => Push(i)
      case Pushed => Signal(i)
      case Idle => Wait(i);
    StepSound(s, step);
    assert Enabled(s, step) && !Crashes(s, step);
  }

  lemma {:induction false} SomeActive(phases: seq<Phase>) returns (i: nat)
    requires Count(phases, Active) > 0
    ensures i < |phases| && Active(phases[i])
    decreases |phases|
  {
    if Active(phases[0]) {
      i := 0;
    } else {
      i := SomeActive(phases[1..]);
      i := i + 1;
    }
  }

  /** The connection that was given back last is the first to be lent again. */
  lemma LastInFirstOut(s: State, back: nat, next: nat)
    requires Enabled(s, Push(back)) && Enabled(Apply(s, Push(back)), Pop(next))
    ensures var t := Apply(Apply(s, Push(back)), Pop(next));
            && !Crashes(Apply(s, Push(back)), Pop(next))
            && t.phases[next] == Holding(s.phases[back].connection) && t.free == s.free
  {
    assert ([s.phases[back].connection] + s.free)[1..] == s.free;
  }
}
