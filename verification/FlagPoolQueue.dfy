/** The postgres middleware's pool itself, and the cleanups that a request collects and runs when it is freed. */
module FlagPoolQueue {
  import opened Counting
  import opened FlagPool

  class Pool {
    const used: array<bool>
    var permits: nat
    /** Where the passes are. */
    ghost var state: State

    ghost predicate Valid()
      reads this, used
    {
      Sound(state) && state.permits == permits && state.used == used[..]
    }

    /** initPostgressConnection. */
    constructor (size: nat, ghost passes: nat)
      ensures Valid() && state == Created(size, passes) && fresh(used)
    {
      used := new bool[size](i => false);
      permits := size;
      state := Created(size, passes);
      new;
      CreatedSound(size, passes);
      assert used[..] == state.used;
    }

    /** dispatch_semaphore_wait at the start of the middleware. */
    method Wait(ghost who: nat)
      requires Valid() && Enabled(state, Step.Wait(who))
      modifies this
      ensures Valid() && state == Apply(old(state), Step.Wait(who))
    {
      StepSound(state, Step.Wait(who));
      hide Sound;
      permits := permits - 1;
      state := Apply(state, Step.Wait(who));
    }

    /** The search for an unused slot on the queue: it finds one. */
    method Take(ghost who: nat) returns (slot: nat)
      requires Valid() && Enabled(state, Step.Take(who))
      modifies this, used
      ensures !Crashes(old(state), Step.Take(who)) && Valid() && state == Apply(old(state), Step.Take(who))
      ensures state.phases[who] == Holding(slot)
    {
      TakeFinds(state, who);
      StepSound(state, Step.Take(who));
      hide Sound;
      slot := 0;
      while slot < used.Length && used[slot]
        invariant slot <= FirstFree(used[..]) < used.Length
      {
        slot := slot + 1;
      }
      used[slot] := true;
      state := Apply(state, Step.Take(who));
    }

    /** The cleanup's block on the queue. */
    method Clear(slot: nat, ghost who: nat)
      requires Valid() && Enabled(state, Step.Clear(who)) && state.phases[who] == Holding(slot)
      modifies this, used
      ensures Valid() && state == Apply(old(state), Step.Clear(who))
    {
      StepSound(state, Step.Clear(who));
      hide Sound;
      used[slot] := false;
      state := Apply(state, Step.Clear(who));
    }

    /** dispatch_semaphore_signal at the end of the cleanup. */
    method Signal(ghost who: nat)
      requires Valid() && Enabled(state, Step.Signal(who))
      modifies this
      ensures Valid() && state == Apply(old(state), Step.Signal(who))
    {
      StepSound(state, Step.Signal(who));
      hide Sound;
      permits := permits + 1;
      state := Apply(state, Step.Signal(who));
    }
  }

  /**
   * The cleanups that the middleware registered for a request: the slot each gives back, and the pass it
   * belongs to.
   */
  class Visit {
    var slots: seq<nat>
    ghost var passes: seq<nat>

    constructor ()
      ensures slots == [] && passes == []
    {
      slots, passes := [], [];
    }

    /** Every cleanup is for a slot that its pass holds, and no pass has two. */
    ghost predicate Holding(pool: Pool)
      reads this, pool
    {
      && |passes| == |slots|
      && (forall i :: 0 <= i < |slots| ==>
            passes[i] < |pool.state.phases| && pool.state.phases[passes[i]] == Phase.Holding(slots[i]))
      && (forall i, j :: 0 <= i < j < |passes| ==> passes[i] != passes[j])
    }

    /** The middleware: a slot is taken and its cleanup is registered. */
    method UsePool(pool: Pool, ghost who: nat)
      requires pool.Valid() && Holding(pool) && Enabled(pool.state, Step.Take(who))
      modifies this, pool, pool.used
      ensures pool.Valid() && Holding(pool) && passes == old(passes) + [who]
      ensures !Crashes(old(pool.state), Step.Take(who)) && pool.state == Apply(old(pool.state), Step.Take(who))
    {
      var slot := pool.Take(who);
      slots := slots + [slot];
      passes := passes + [who];
    }

    /** The first `i` cleanups have run: their passes are idle, the others are where they were. */
    ghost predicate Freed(pool: Pool, phases: seq<Phase>, permits: nat, i: nat)
      reads this, pool
    {
      && i <= |slots| == |passes| && |pool.state.phases| == |phases| && pool.permits == permits + i
      && (forall t :: 0 <= t < |phases| ==> pool.state.phases[t] == if t in passes[..i] then Idle else phases[t])
    }

    /** One cleanup. */
    method FreeTurn(pool: Pool, i: nat, ghost phases: seq<Phase>, ghost permits: nat)
      requires pool.Valid() && i < |slots| && Freed(pool, phases, permits, i)
      requires passes[i] < |phases| && phases[passes[i]] == Phase.Holding(slots[i]) && passes[i] !in passes[..i]
      modifies pool, pool.used
      ensures pool.Valid() && Freed(pool, phases, permits, i + 1)
    {
      ghost var who := passes[i];
      SlotIsOne(pool, who);
      pool.Clear(slots[i], who);
      pool.Signal(who);
      assert passes[..i + 1] == passes[..i] + [who];
    }

    /** The loop of freeRequest: every cleanup runs once. */
    method Free(pool: Pool)
      requires pool.Valid() && Holding(pool)
      modifies pool, pool.used
      ensures pool.Valid() && |pool.state.phases| == |old(pool.state.phases)|
      ensures forall t :: 0 <= t < |pool.state.phases| ==>
                pool.state.phases[t] == if t in old(passes) then Idle else old(pool.state.phases)[t]
      ensures pool.permits == old(pool.permits) + |old(slots)|
    {
      ghost var phases, permits := pool.state.phases, pool.permits;
      for i := 0 to |slots|
        invariant pool.Valid() && Freed(pool, phases, permits, i)
      {
        assert passes[i] !in passes[..i];
        hide Freed;
        FreeTurn(pool, i, phases, permits);
      }
      assert passes[..|slots|] == passes;
    }

    lemma SlotIsOne(pool: Pool, who: nat)
      requires pool.Valid() && who < |pool.state.phases| && pool.state.phases[who].Holding?
      ensures Enabled(pool.state, Step.Clear(who))
    {
    }
  }
}
