/** The free list of the database pool itself: connections linked through `next`, popped and pushed at the head. */
module ListPoolQueue {
  import opened Counting
  import opened ListPool

  class Node {
    var next: Node?

    constructor ()
      ensures next == null
    {
      next := null;
    }
  }

  ghost function After(nodes: seq<Node>, k: nat): Node? {
    if k + 1 < |nodes| then nodes[k + 1] else null
  }

  /** The loop that makes the connections, each linked to the next. */
  method MakeConnections(size: nat) returns (first: Node, ghost made: seq<Node>)
    ensures |made| == size + 1 && made[0] == first && fresh(made)
    ensures forall j, k :: 0 <= j < k < |made| ==> made[j] != made[k]
    ensures forall j :: 0 <= j < |made| ==> made[j].next == After(made, j)
  {
    first := new Node();
    var c := first;
    made := [first];
    for i := 0 to size
      invariant |made| == i + 1 && made[0] == first && made[i] == c && fresh(made)
      invariant forall j, k :: 0 <= j < k < |made| ==> made[j] != made[k]
      invariant forall j :: 0 <= j < |made| ==> made[j].next == After(made, j)
    {
      c.next := new Node();
      c := c.next;
      made := made + [c];
    }
  }

  lemma Apart(all: seq<Node>, free: seq<nat>, c: nat)
    requires forall i, j :: 0 <= i < j < |all| ==> all[i] != all[j]
    requires (forall k :: 0 <= k < |free| ==> free[k] < |all|) && c < |all| && c !in free
    ensures forall k :: 0 <= k < |free| ==> all[free[k]] != all[c]
  {
  }

  class Pool {
    const size: nat
    var head: Node?
    var permits: nat
    /** All connections, and where the borrowers are. */
    ghost const all: seq<Node>
    ghost var state: State

    /** The list holds the free connections of the state, in order, and ends. */
    ghost predicate Valid()
      reads this, all
    {
      && Sound(state) && state.size == size && state.permits == permits
      && |all| == size + 1 && (forall i, j :: 0 <= i < j < |all| ==> all[i] != all[j])
      && (forall k :: 0 <= k < |state.free| ==> state.free[k] < |all|)
      && head == At(0)
      && (forall k :: 0 <= k < |state.free| ==> all[state.free[k]].next == At(k + 1))
    }

    /** The `k`-th node of the list. */
    ghost function At(k: nat): Node?
      reads this
    {
      if k < |state.free| && state.free[k] < |all| then all[state.free[k]] else null
    }

    /** createPostgresPool. */
    constructor (size: nat, ghost borrowers: nat)
      ensures Valid() && state == Created(size, borrowers) && fresh(all)
    {
      var first;
      ghost var made;
      first, made := MakeConnections(size);
      this.size, head, permits := size, first, size;
      all, state := made, Created(size, borrowers);
      new;
      CreatedSound(size, borrowers);
      assert all == made && |state.free| == size + 1 && state.size == size && state.permits == size;
      assert forall k :: 0 <= k <= size ==> state.free[k] == k;
      hide Sound, Created;
      forall k | 0 <= k < |state.free| ensures all[state.free[k]].next == At(k + 1) {
        assert made[k].next == After(made, k);
      }
    }

    /** dispatch_semaphore_wait in borrow. */
    method Wait(ghost who: nat)
      requires Valid() && Enabled(state, Step.Wait(who))
      modifies this
      ensures Valid() && state == Apply(old(state), Step.Wait(who))
    {
      StepSound(state, Step.Wait(who));
      permits := permits - 1;
      state := Apply(state, Step.Wait(who));
    }

    /** The block that borrow runs on the queue. The head is never NULL. */
    method Pop(ghost who: nat) returns (current: Node)
      requires Valid() && Enabled(state, Step.Pop(who))
      modifies this
      ensures !Crashes(old(state), Step.Pop(who)) && Valid() && state == Apply(old(state), Step.Pop(who))
      ensures current == all[state.phases[who].connection]
    {
      PopFinds(state, who);
      StepSound(state, Step.Pop(who));
      hide Sound, Places;
      current := head;
      head := current.next;
      state := Apply(state, Step.Pop(who));
    }

    /** The block that release runs on the queue. */
    method Push(current: Node, ghost who: nat)
      requires Valid() && Enabled(state, Step.Push(who))
      requires state.phases[who].connection < |all| && current == all[state.phases[who].connection]
      modifies this, current
      ensures Valid() && state == Apply(old(state), Step.Push(who))
    {
      HeldApart(who);
      StepSound(state, Step.Push(who));
      ghost var next := Apply(state, Step.Push(who));
      assert next.free == [state.phases[who].connection] + state.free;
      assert next.size == state.size && next.permits == state.permits;
      hide Sound, Places, Apply;
      current.next := head;
      head := current;
      state := next;
    }

    /** A connection that is held is not in the list. */
    lemma HeldApart(who: nat)
      requires Valid() && Enabled(state, Step.Push(who)) && state.phases[who].connection < |all|
      ensures forall k :: 0 <= k < |state.free| ==> all[state.free[k]] != all[state.phases[who].connection]
    {
      HoldersDistinct(state);
      hide Sound;
      Apart(all, state.free, state.phases[who].connection);
    }

    /** dispatch_semaphore_signal in release. */
    method Signal(ghost who: nat)
      requires Valid() && Enabled(state, Step.Signal(who))
      modifies this
      ensures Valid() && state == Apply(old(state), Step.Signal(who))
    {
      StepSound(state, Step.Signal(who));
      permits := permits + 1;
      state := Apply(state, Step.Signal(who));
    }
  }
}
