/** The children of a JSON array or object: a doubly linked list whose head's prev is the tail. */
module JsonList {

  class Node {
    var next: Node?
    var prev: Node?
    var child: Node?

    constructor ()
      ensures next == null && prev == null && child == null
    {
      next, prev, child := null, null, null;
    }
  }

  function After(s: seq<Node>, i: nat): Node?
    requires i < |s|
  {
    if i + 1 < |s| then s[i + 1] else null
  }

  /** The node before the `i`-th, and the tail before the head. */
  function Before(s: seq<Node>, i: nat): Node
    requires i < |s|
  {
    if i > 0 then s[i - 1] else s[|s| - 1]
  }

  ghost predicate Distinct(s: seq<Node>) {
    forall i, j :: 0 <= i < j < |s| ==> s[i] != s[j]
  }

  /** What the next and prev pointers of some nodes are. */
  ghost predicate Fields(s: seq<Node>, nexts: seq<Node?>, prevs: seq<Node?>)
    reads s
  {
    && |nexts| == |s| && |prevs| == |s|
    && (forall i :: 0 <= i < |s| ==> s[i].next == nexts[i])
    && (forall i :: 0 <= i < |s| ==> s[i].prev == prevs[i])
  }

  function Nexts(s: seq<Node>): (r: seq<Node?>)
    ensures |r| == |s|
  {
    seq(|s|, i requires 0 <= i < |s| => After(s, i))
  }

  function Prevs(s: seq<Node>): (r: seq<Node?>)
    ensures |r| == |s|
  {
    seq(|s|, i requires 0 <= i < |s| => Before(s, i))
  }

  /** The children of `parent` are the nodes of `s`, in that order. */
  ghost predicate Linked(parent: Node, s: seq<Node>)
    reads parent, s
  {
    && parent !in s && Distinct(s)
    && parent.child == (if s == [] then null else s[0])
    && Fields(s, Nexts(s), Prevs(s))
  }

  function RemoveAt(s: seq<Node>, k: nat): seq<Node>
    requires k < |s|
  {
    s[..k] + s[k + 1..]
  }

  function InsertAt(s: seq<Node>, k: nat, item: Node): seq<Node>
    requires k <= |s|
  {
    s[..k] + [item] + s[k..]
  }

  /** Writes a node's next pointer: no other node of the list is touched. */
  method SetNext(node: Node, target: Node?, ghost s: seq<Node>, ghost k: nat, ghost nexts: seq<Node?>,
                 ghost prevs: seq<Node?>)
    requires k < |s| && s[k] == node && Distinct(s) && Fields(s, nexts, prevs)
    modifies node`next
    ensures Fields(s, nexts[k := target], prevs)
  {
    node.next := target;
  }

  method SetPrev(node: Node, target: Node?, ghost s: seq<Node>, ghost k: nat, ghost nexts: seq<Node?>,
                 ghost prevs: seq<Node?>)
    requires k < |s| && s[k] == node && Distinct(s) && Fields(s, nexts, prevs)
    modifies node`prev
    ensures Fields(s, nexts, prevs[k := target])
  {
    node.prev := target;
  }

  lemma HeadIs(parent: Node, s: seq<Node>, k: nat)
    requires Linked(parent, s) && k < |s|
    ensures s[k] == parent.child <==> k == 0
    ensures s[k].next == After(s, k) && s[k].prev == Before(s, k) && parent.child == s[0]
  {
  }

  lemma FieldsAt(s: seq<Node>, nexts: seq<Node?>, prevs: seq<Node?>, k: nat)
    requires k < |s| && Fields(s, nexts, prevs)
    ensures |nexts| == |s| && |prevs| == |s| && s[k].next == nexts[k] && s[k].prev == prevs[k]
  {
  }

  /** The next pointers once the `k`-th node is bypassed and cleared. */
  function NextsWithout(s: seq<Node>, k: nat): (r: seq<Node?>)
    requires k < |s|
    ensures |r| == |s|
  {
    (if k > 0 then Nexts(s)[k - 1 := After(s, k)] else Nexts(s))[k := null]
  }

  function PrevsWithout(s: seq<Node>, k: nat): (r: seq<Node?>)
    requires k < |s|
    ensures |r| == |s|
  {
    (if k + 1 < |s| then Prevs(s)[k + 1 := Before(s, k)] else if k > 0 then Prevs(s)[0 := Before(s, k)]
     else Prevs(s))[k := null]
  }

  function Source(k: nat, i: nat): nat {
    if i < k then i else i + 1
  }

  lemma RemoveAtIndex(s: seq<Node>, k: nat, i: nat)
    requires k < |s| && i < |s| - 1
    ensures |RemoveAt(s, k)| == |s| - 1 && RemoveAt(s, k)[i] == s[Source(k, i)]
  {
  }

  lemma RemoveAtDistinct(s: seq<Node>, k: nat)
    requires k < |s| && Distinct(s)
    ensures Distinct(RemoveAt(s, k)) && forall n :: n in RemoveAt(s, k) ==> n in s && n != s[k]
  {
    forall i, j | 0 <= i < j < |RemoveAt(s, k)| ensures RemoveAt(s, k)[i] != RemoveAt(s, k)[j] {
      RemoveAtIndex(s, k, i);
      RemoveAtIndex(s, k, j);
    }
    forall n | n in RemoveAt(s, k) ensures n in s && n != s[k] {
      var i: nat :| i < |RemoveAt(s, k)| && RemoveAt(s, k)[i] == n;
      RemoveAtIndex(s, k, i);
    }
  }

  /** What the pointers of the remaining nodes should be. */
  lemma RemoveAtSiblings(s: seq<Node>, k: nat, i: nat)
    requires k < |s| && i < |s| - 1
    ensures var t, j := RemoveAt(s, k), Source(k, i);
            |t| == |s| - 1 && NextsWithout(s, k)[j] == After(t, i) && PrevsWithout(s, k)[j] == Before(t, i)
  {
    RemoveAtIndex(s, k, i);
    if i + 1 < |s| - 1 {
      RemoveAtIndex(s, k, i + 1);
    }
    if i > 0 {
      RemoveAtIndex(s, k, i - 1);
    }
    RemoveAtIndex(s, k, |s| - 2);
    hide RemoveAt;
  }

  lemma WithoutLinked(parent: Node, s: seq<Node>, k: nat)
    requires k < |s| && parent !in s && Distinct(s) && Fields(s, NextsWithout(s, k), PrevsWithout(s, k))
    requires parent.child == if k > 0 then s[0] else After(s, 0)
    ensures Linked(parent, RemoveAt(s, k)) && s[k].next == null && s[k].prev == null
  {
    var t := RemoveAt(s, k);
    RemoveAtDistinct(s, k);
    FieldsAt(s, NextsWithout(s, k), PrevsWithout(s, k), k);
    forall i | 0 <= i < |t| ensures t[i].next == Nexts(t)[i] && t[i].prev == Prevs(t)[i] {
      RemoveAtIndex(s, k, i);
      RemoveAtSiblings(s, k, i);
      FieldsAt(s, NextsWithout(s, k), PrevsWithout(s, k), Source(k, i));
      hide *;
    }
    if |s| > 1 {
      RemoveAtIndex(s, k, 0);
    }
    hide Distinct, NextsWithout, PrevsWithout;
  }

  /** cJSON_DetachItemViaPointer, for an item that is a child, or no item. */
  method DetachItemViaPointer(parent: Node, item: Node?, ghost s: seq<Node>, ghost k: nat) returns (detached: Node?)
    requires Linked(parent, s) && (item != null ==> k < |s| && s[k] == item)
    modifies parent`child, s
    ensures detached == item
    ensures if item == null then Linked(parent, s)
            else Linked(parent, RemoveAt(s, k)) && item.next == null && item.prev == null
  {
    if item == null {
      return null;
    }
    HeadIs(parent, s, k);
    ghost var nexts, prevs := Bypass(parent, item, s, k);
    hide Distinct, Fields, Nexts, Prevs, RemoveAt;
    SetPrev(item, null, s, k, nexts, prevs);
    SetNext(item, null, s, k, nexts, prevs[k := null]);
    WithoutLinked(parent, s, k);
    detached := item;
  }

  /** The part that makes the siblings and the parent pass over the item. */
  method Bypass(parent: Node, item: Node, ghost s: seq<Node>, ghost k: nat)
    returns (ghost nexts: seq<Node?>, ghost prevs: seq<Node?>)
    requires Linked(parent, s) && k < |s| && s[k] == item
    modifies parent`child, s
    ensures Fields(s, nexts, prevs) && |nexts| == |prevs| == |s|
    ensures nexts[k := null] == NextsWithout(s, k) && prevs[k := null] == PrevsWithout(s, k)
    ensures parent.child == if k > 0 then s[0] else After(s, 0)
  {
    HeadIs(parent, s, k);
    FieldsAt(s, Nexts(s), Prevs(s), k);
    hide Distinct, Fields, Nexts, Prevs;
    nexts, prevs := Nexts(s), Prevs(s);
    if item != parent.child {
      SetNext(item.prev, item.next, s, k - 1, nexts, prevs);
      nexts := nexts[k - 1 := After(s, k)];
      FieldsAt(s, nexts, prevs, k);
    }
    if item.next != null {
      SetPrev(item.next, item.prev, s, k + 1, nexts, prevs);
      prevs := prevs[k + 1 := Before(s, k)];
      FieldsAt(s, nexts, prevs, k);
    }
    if item == parent.child {
      parent.child := item.next;
    } else if item.next == null {
      SetPrev(parent.child, item.prev, s, 0, nexts, prevs);
      prevs := prevs[0 := Before(s, k)];
    }
  }

  /** get_array_item. */
  method GetArrayItem(parent: Node, index: nat, ghost s: seq<Node>) returns (item: Node?)
    requires Linked(parent, s)
    ensures item == if index < |s| then s[index] else null
  {
    item := parent.child;
    var left := index;
    ghost var k: nat := 0;
    while item != null && left > 0
      invariant k + left == index
      invariant k < |s| ==> item == s[k]
      invariant k >= |s| ==> item == null
    {
      FieldsAt(s, Nexts(s), Prevs(s), k);
      item := item.next;
      left := left - 1;
      k := k + 1;
    }
    if k < |s| {
      ghost var n: Node := s[k];
      assert item == n;
    }
  }

  /** The nodes of a list and one more. */
  lemma With(s: seq<Node>, item: Node)
    requires Distinct(s) && item !in s && Fields(s, Nexts(s), Prevs(s))
    ensures Distinct(s + [item]) && Fields(s + [item], Nexts(s) + [item.next], Prevs(s) + [item.prev])
  {
    var w := s + [item];
    assert forall i :: 0 <= i < |s| ==> w[i] == s[i] && s[i] in s;
  }

  lemma Appended(parent: Node, s: seq<Node>, item: Node)
    requires s != [] && parent !in s && item != parent && parent.child == s[0] && Distinct(s + [item])
    requires Fields(s + [item], Nexts(s)[|s| - 1 := item] + [item.next], Prevs(s)[0 := item] + [s[|s| - 1]])
    ensures Linked(parent, s + [item]) <==> item.next == null
  {
    var t, last := s + [item], |s| - 1;
    FieldsAt(t, Nexts(s)[last := item] + [item.next], Prevs(s)[0 := item] + [s[last]], |s|);
    if item.next == null {
      forall i | 0 <= i < |t| ensures t[i].next == Nexts(t)[i] && t[i].prev == Prevs(t)[i] {
        FieldsAt(t, Nexts(s)[last := item] + [item.next], Prevs(s)[0 := item] + [s[last]], i);
      }
    } else {
      assert Nexts(t)[|s|] == null && t[|s|] == item;
    }
  }

  /**
   * add_item_to_array. An item that is a child already, or that still has a next sibling, is accepted, and
   * breaks a list that is not empty.
   */
  method AddItemToArray(parent: Node, item: Node, ghost s: seq<Node>) returns (ok: bool)
    requires Linked(parent, s)
    modifies parent`child, s, item`next, item`prev
    ensures ok == (parent != item)
    ensures !ok ==> Linked(parent, s)
    ensures ok ==> (Linked(parent, s + [item]) <==> item !in s && (s == [] || old(item.next) == null))
  {
    if parent == item {
      ok := false;
      return;
    }
    ok := true;
    var child := parent.child;
    if child == null {
      parent.child := item;
      item.prev := item;
      item.next := null;
      assert s + [item] == [item];
    } else {
      HeadIs(parent, s, 0);
      ghost var w, n, nexts, prevs := Beside(s, item);
      hide Distinct, Fields, Nexts, Prevs;
      ghost var last := |s| - 1;
      SuffixObject(child.prev, item, w, last, n, nexts, prevs);
      SetPrev(parent.child, item, w, 0, nexts[last := item], prevs[n := s[last]]);
      if item in s {
        Twice(parent, s, item);
      } else {
        assert nexts[last := item] == Nexts(s)[last := item] + [item.next];
        assert prevs[n := s[last]][0 := item] == Prevs(s)[0 := item] + [s[last]];
        Appended(parent, s, item);
      }
    }
  }

  /** suffix_object. */
  method SuffixObject(prev: Node, item: Node, ghost s: seq<Node>, ghost k: nat, ghost n: nat,
                      ghost nexts: seq<Node?>, ghost prevs: seq<Node?>)
    requires k < |s| && s[k] == prev && n < |s| && s[n] == item && Distinct(s) && Fields(s, nexts, prevs)
    modifies prev`next, item`prev
    ensures Fields(s, nexts[k := item], prevs[n := prev])
  {
    SetNext(prev, item, s, k, nexts, prevs);
    SetPrev(item, prev, s, n, nexts[k := item], prevs);
  }

  /** The nodes of a list and an item that may be one of them, where it is, and their pointers. */
  lemma Beside(s: seq<Node>, item: Node) returns (w: seq<Node>, n: nat, nexts: seq<Node?>, prevs: seq<Node?>)
    requires Distinct(s) && Fields(s, Nexts(s), Prevs(s))
    ensures Distinct(w) && Fields(w, nexts, prevs) && n < |w| && w[n] == item && s <= w
    ensures item !in s ==>
              n == |s| && w == s + [item] && nexts == Nexts(s) + [item.next] && prevs == Prevs(s) + [item.prev]
  {
    if item in s {
      w, nexts, prevs := s, Nexts(s), Prevs(s);
      n :| n < |s| && s[n] == item;
    } else {
      With(s, item);
      w, n, nexts, prevs := s + [item], |s|, Nexts(s) + [item.next], Prevs(s) + [item.prev];
    }
  }

  lemma Twice(parent: Node, s: seq<Node>, item: Node)
    requires item in s
    ensures !Linked(parent, s + [item])
  {
    var i: nat :| i < |s| && s[i] == item;
    var t := s + [item];
    assert t[i] == t[|s|];
  }

  /** The pointers of a list's nodes and of a new node once it is linked in front of the `k`-th. */
  function NextsWith(s: seq<Node>, k: nat, item: Node): (r: seq<Node?>)
    requires k < |s|
    ensures |r| == |s| + 1
  {
    (if k > 0 then Nexts(s)[k - 1 := item] else Nexts(s)) + [s[k]]
  }

  function PrevsWith(s: seq<Node>, k: nat, item: Node): (r: seq<Node?>)
    requires k < |s|
    ensures |r| == |s| + 1
  {
    Prevs(s)[k := item] + [Before(s, k)]
  }

  /** Where the `i`-th node of the longer list is among the nodes of the old one and the new node. */
  function Origin(n: nat, k: nat, i: nat): nat {
    if i < k then i else if i == k then n else i - 1
  }

  lemma InsertAtIndex(s: seq<Node>, k: nat, item: Node, i: nat)
    requires k < |s| && i <= |s|
    ensures Origin(|s|, k, i) <= |s|
    ensures |InsertAt(s, k, item)| == |s| + 1 && InsertAt(s, k, item)[i] == (s + [item])[Origin(|s|, k, i)]
  {
  }

  lemma InsertAtDistinct(s: seq<Node>, k: nat, item: Node)
    requires k < |s| && Distinct(s + [item])
    ensures Distinct(InsertAt(s, k, item)) && forall n :: n in InsertAt(s, k, item) ==> n in s || n == item
  {
    var t := InsertAt(s, k, item);
    forall i, j | 0 <= i < j < |t| ensures t[i] != t[j] {
      InsertAtIndex(s, k, item, i);
      InsertAtIndex(s, k, item, j);
      hide InsertAt;
      assert Origin(|s|, k, i) != Origin(|s|, k, j);
    }
  }

  lemma InsertAtSiblings(s: seq<Node>, k: nat, item: Node, i: nat)
    requires k < |s| && i <= |s|
    ensures var t, j := InsertAt(s, k, item), Origin(|s|, k, i);
            |t| == |s| + 1 && j <= |s| && NextsWith(s, k, item)[j] == After(t, i)
                && PrevsWith(s, k, item)[j] == Before(t, i)
  {
    InsertAtIndex(s, k, item, i);
    if i < |s| {
      InsertAtIndex(s, k, item, i + 1);
    }
    if i > 0 {
      InsertAtIndex(s, k, item, i - 1);
    }
    InsertAtIndex(s, k, item, |s|);
    hide InsertAt;
  }

  lemma InsertedLinked(parent: Node, s: seq<Node>, k: nat, item: Node)
    requires k < |s| && parent !in s && parent != item && Distinct(s + [item])
    requires Fields(s + [item], NextsWith(s, k, item), PrevsWith(s, k, item))
    requires parent.child == if k > 0 then s[0] else item
    ensures Linked(parent, InsertAt(s, k, item))
  {
    var t := InsertAt(s, k, item);
    InsertAtDistinct(s, k, item);
    forall i | 0 <= i < |t| ensures t[i].next == Nexts(t)[i] && t[i].prev == Prevs(t)[i] {
      InsertAtIndex(s, k, item, i);
      InsertAtSiblings(s, k, item, i);
      FieldsAt(s + [item], NextsWith(s, k, item), PrevsWith(s, k, item), Origin(|s|, k, i));
      hide *;
    }
    InsertAtIndex(s, k, item, 0);
    hide Distinct, NextsWith, PrevsWith;
  }

  /** cJSON_InsertItemInArray. Past the end the item is appended, and then it must have no next sibling. */
  method InsertItemInArray(parent: Node, which: int, newItem: Node, ghost s: seq<Node>) returns (ok: bool)
    requires Linked(parent, s) && newItem !in s && newItem != parent
    modifies parent`child, s, newItem`next, newItem`prev
    ensures ok == (which >= 0)
    ensures !ok ==> Linked(parent, s) && newItem.next == old(newItem.next)
    ensures 0 <= which < |s| ==> Linked(parent, InsertAt(s, which, newItem))
    ensures which >= |s| ==> (Linked(parent, s + [newItem]) <==> (s == [] || old(newItem.next) == null))
  {
    if which < 0 {
      ok := false;
      return;
    }
    var afterInserted := GetArrayItem(parent, which, s);
    if afterInserted == null {
      ok := AddItemToArray(parent, newItem, s);
    } else {
      LinkBefore(parent, afterInserted, newItem, s, which);
      ok := true;
    }
  }

  lemma WithBy(s: seq<Node>, k: nat, item: Node, next: Node?, prev: Node?)
    requires k < |s|
    ensures var w := (Nexts(s) + [next])[|s| := s[k]];
            (if k > 0 then w[k - 1 := item] else w) == NextsWith(s, k, item)
    ensures (Prevs(s) + [prev])[|s| := Before(s, k)][k := item] == PrevsWith(s, k, item)
  {
  }

  /** The linking part of cJSON_InsertItemInArray. */
  method LinkBefore(parent: Node, afterInserted: Node, newItem: Node, ghost s: seq<Node>, ghost k: nat)
    requires Linked(parent, s) && newItem !in s && newItem != parent && k < |s| && s[k] == afterInserted
    modifies parent`child, s, newItem`next, newItem`prev
    ensures Linked(parent, InsertAt(s, k, newItem))
  {
    HeadIs(parent, s, k);
    With(s, newItem);
    ghost var w, n := s + [newItem], |s|;
    ghost var nexts, prevs := Nexts(s) + [newItem.next], Prevs(s) + [newItem.prev];
    hide Distinct, Fields, Nexts, Prevs, Linked;
    SetNext(newItem, afterInserted, w, n, nexts, prevs);
    nexts := nexts[n := s[k]];
    SetPrev(newItem, afterInserted.prev, w, n, nexts, prevs);
    prevs := prevs[n := Before(s, k)];
    SetPrev(afterInserted, newItem, w, k, nexts, prevs);
    prevs := prevs[k := newItem];
    WithBy(s, k, newItem, old(newItem.next), old(newItem.prev));
    hide NextsWith, PrevsWith;
    if afterInserted == parent.child {
      parent.child := newItem;
    } else {
      FieldsAt(w, nexts, prevs, n);
      SetNext(newItem.prev, newItem, w, k - 1, nexts, prevs);
      nexts := nexts[k - 1 := newItem];
    }
    InsertedLinked(parent, s, k, newItem);
  }

  /** The pointers of a list's nodes and of a new node once it has taken the place of the `k`-th, which is cleared. */
  function NextsReplaced(s: seq<Node>, k: nat, item: Node): (r: seq<Node?>)
    requires k < |s|
    ensures |r| == |s| + 1
  {
    (if k > 0 then Nexts(s)[k - 1 := item] else Nexts(s))[k := null] + [After(s, k)]
  }

  function PrevsReplaced(s: seq<Node>, k: nat, item: Node): (r: seq<Node?>)
    requires k < |s|
    ensures |r| == |s| + 1
  {
    (if k + 1 < |s| then Prevs(s)[k + 1 := item] else if k > 0 then Prevs(s)[0 := item] else Prevs(s))[k := null]
    + [if |s| == 1 then item else Before(s, k)]
  }

  lemma ReplacedSiblings(s: seq<Node>, k: nat, item: Node, i: nat)
    requires k < |s| && i < |s|
    ensures var t, j := s[k := item], if i == k then |s| else i;
            t[i] == (s + [item])[j] && NextsReplaced(s, k, item)[j] == After(t, i)
                && PrevsReplaced(s, k, item)[j] == Before(t, i)
  {
  }

  lemma ReplacedDistinct(s: seq<Node>, k: nat, item: Node)
    requires k < |s| && Distinct(s + [item])
    ensures Distinct(s[k := item]) && forall n :: n in s[k := item] ==> n in s || n == item
  {
    var t, w := s[k := item], s + [item];
    forall i, j | 0 <= i < j < |t| ensures t[i] != t[j] {
      assert t[i] == w[if i == k then |s| else i] && t[j] == w[if j == k then |s| else j];
    }
  }

  lemma ReplacedLinked(parent: Node, s: seq<Node>, k: nat, item: Node)
    requires k < |s| && parent !in s && parent != item && Distinct(s + [item])
    requires Fields(s + [item], NextsReplaced(s, k, item), PrevsReplaced(s, k, item))
    requires parent.child == if k > 0 then s[0] else item
    ensures Linked(parent, s[k := item]) && s[k].next == null && s[k].prev == null
  {
    var t := s[k := item];
    ReplacedDistinct(s, k, item);
    FieldsAt(s + [item], NextsReplaced(s, k, item), PrevsReplaced(s, k, item), k);
    assert (s + [item])[k] == s[k];
    forall i | 0 <= i < |t| ensures t[i].next == Nexts(t)[i] && t[i].prev == Prevs(t)[i] {
      ReplacedSiblings(s, k, item, i);
      FieldsAt(s + [item], NextsReplaced(s, k, item), PrevsReplaced(s, k, item), if i == k then |s| else i);
      hide *;
    }
    hide Distinct;
  }

  lemma NextsReplacedBy(s: seq<Node>, k: nat, item: Node, was: Node?)
    requires k < |s|
    ensures var w := (Nexts(s) + [was])[|s| := After(s, k)];
            (if k > 0 then w[k - 1 := item] else w)[k := null] == NextsReplaced(s, k, item)
  {
  }

  lemma PrevsReplacedBy(s: seq<Node>, k: nat, item: Node, was: Node?)
    requires k < |s|
    ensures var w := (Prevs(s) + [was])[|s| := Before(s, k)];
            (if k + 1 < |s| then w[k + 1 := item] else if k > 0 then w[0 := item] else w[|s| := item])[k := null]
            == PrevsReplaced(s, k, item)
  {
  }

  /** cJSON_ReplaceItemViaPointer, for an item that is a child, or no item. */
  method ReplaceItemViaPointer(parent: Node, item: Node?, replacement: Node, ghost s: seq<Node>, ghost k: nat)
    returns (ok: bool)
    requires Linked(parent, s) && (item != null ==> k < |s| && s[k] == item)
    requires replacement == item || (replacement !in s && replacement != parent)
    modifies parent`child, s, replacement`next, replacement`prev
    ensures ok == (item != null)
    ensures if ok then Linked(parent, s[k := replacement])
            else Linked(parent, s) && replacement.next == old(replacement.next)
    ensures ok && replacement != item ==> item.next == null && item.prev == null
  {
    if item == null {
      return false;
    }
    ok := true;
    if replacement == item {
      assert s[k := replacement] == s;
      return;
    }
    ghost var nexts, prevs := TakePlace(parent, item, replacement, s, k);
    hide Distinct, Fields, Nexts, Prevs, Linked;
    ghost var w := s + [replacement];
    SetNext(item, null, w, k, nexts, prevs);
    SetPrev(item, null, w, k, nexts[k := null], prevs);
    ReplacedLinked(parent, s, k, replacement);
  }

  /** The part of cJSON_ReplaceItemViaPointer that puts the replacement between the siblings. */
  method TakePlace(parent: Node, item: Node, replacement: Node, ghost s: seq<Node>, ghost k: nat)
    returns (ghost nexts: seq<Node?>, ghost prevs: seq<Node?>)
    requires Linked(parent, s) && k < |s| && s[k] == item && replacement !in s && replacement != parent
    modifies parent`child, s, replacement`next, replacement`prev
    ensures Distinct(s + [replacement]) && Fields(s + [replacement], nexts, prevs) && |nexts| == |prevs| == |s| + 1
    ensures nexts[k := null] == NextsReplaced(s, k, replacement) && prevs[k := null] == PrevsReplaced(s, k, replacement)
    ensures parent.child == if k > 0 then s[0] else replacement
  {
    HeadIs(parent, s, k);
    With(s, replacement);
    ghost var w, n := s + [replacement], |s|;
    nexts, prevs := Nexts(s) + [replacement.next], Prevs(s) + [replacement.prev];
    FieldsAt(s, Nexts(s), Prevs(s), k);
    hide Distinct, Fields, Nexts, Prevs, Linked;
    SetNext(replacement, item.next, w, n, nexts, prevs);
    nexts := nexts[n := After(s, k)];
    SetPrev(replacement, item.prev, w, n, nexts, prevs);
    prevs := prevs[n := Before(s, k)];
    FieldsAt(w, nexts, prevs, n);
    nexts, prevs := Reconnect(parent, item, replacement, s, k, nexts, prevs);
    NextsReplacedBy(s, k, replacement, old(replacement.next));
    PrevsReplacedBy(s, k, replacement, old(replacement.prev));
  }

  /** The part of cJSON_ReplaceItemViaPointer that makes the siblings and the parent point to the replacement. */
  method Reconnect(parent: Node, item: Node, replacement: Node, ghost s: seq<Node>, ghost k: nat,
                   ghost nexts: seq<Node?>, ghost prevs: seq<Node?>)
    returns (ghost nextsAfter: seq<Node?>, ghost prevsAfter: seq<Node?>)
    requires k < |s| && s[k] == item && replacement != parent && parent !in s && Distinct(s + [replacement])
    requires |nexts| == |prevs| == |s| + 1 && Fields(s + [replacement], nexts, prevs)
    requires parent.child == s[0] && nexts[|s|] == After(s, k) && prevs[|s|] == Before(s, k)
    requires prevs[0] == s[|s| - 1]
    modifies parent`child, s, replacement`next, replacement`prev
    ensures Fields(s + [replacement], nextsAfter, prevsAfter)
    ensures nextsAfter == if k > 0 then nexts[k - 1 := replacement] else nexts
    ensures prevsAfter == if k + 1 < |s| then prevs[k + 1 := replacement] else if k > 0 then prevs[0 := replacement]
                          else prevs[|s| := replacement]
    ensures parent.child == if k > 0 then s[0] else replacement
  {
    ghost var w, n := s + [replacement], |s|;
    nextsAfter, prevsAfter := nexts, prevs;
    FieldsAt(w, nexts, prevs, n);
    FieldsAt(w, nexts, prevs, 0);
    assert w[n] == replacement && w[0] == s[0] && w[k] == s[k];
    assert s[0] == item <==> k == 0 by {
      assert w[0] == item <==> k == 0;
    }
    assert s[0] == s[|s| - 1] <==> |s| == 1 by {
      assert w[0] == w[|s| - 1] <==> |s| == 1;
    }
    hide Distinct, Fields;
    if replacement.next != null {
      SetPrev(replacement.next, replacement, w, k + 1, nextsAfter, prevsAfter);
      prevsAfter := prevsAfter[k + 1 := replacement];
      FieldsAt(w, nextsAfter, prevsAfter, n);
      FieldsAt(w, nextsAfter, prevsAfter, 0);
    }
    if parent.child == item {
      if parent.child.prev == parent.child {
        SetPrev(replacement, replacement, w, n, nextsAfter, prevsAfter);
        prevsAfter := prevsAfter[n := replacement];
      }
      parent.child := replacement;
    } else {
      if replacement.prev != null {
        SetNext(replacement.prev, replacement, w, k - 1, nextsAfter, prevsAfter);
        nextsAfter := nextsAfter[k - 1 := replacement];
        FieldsAt(w, nextsAfter, prevsAfter, n);
      }
      if replacement.next == null {
        SetPrev(parent.child, replacement, w, 0, nextsAfter, prevsAfter);
        prevsAfter := prevsAfter[0 := replacement];
      }
    }
  }

  /** cJSON_DetachItemFromArray. */
  method DetachItemFromArray(parent: Node, which: int, ghost s: seq<Node>) returns (item: Node?)
    requires Linked(parent, s)
    modifies parent`child, s
    ensures item == if 0 <= which < |s| then s[which] else null
    ensures if item == null then Linked(parent, s)
            else Linked(parent, RemoveAt(s, which)) && item.next == null && item.prev == null
  {
    item := null;
    if which < 0 {
      return;
    }
    item := GetArrayItem(parent, which, s);
    item := DetachItemViaPointer(parent, item, s, which);
  }

  /** cJSON_ReplaceItemInArray. */
  method ReplaceItemInArray(parent: Node, which: int, newItem: Node, ghost s: seq<Node>) returns (ok: bool)
    requires Linked(parent, s) && newItem !in s && newItem != parent
    modifies parent`child, s, newItem`next, newItem`prev
    ensures ok == (0 <= which < |s|)
    ensures if ok then Linked(parent, s[which := newItem]) && s[which].next == null && s[which].prev == null
            else Linked(parent, s) && newItem.next == old(newItem.next)
  {
    if which < 0 {
      ok := false;
      return;
    }
    var item := GetArrayItem(parent, which, s);
    ok := ReplaceItemViaPointer(parent, item, newItem, s, which);
  }

  lemma BackWhereItWas(s: seq<Node>, k: nat)
    requires k < |s| && Distinct(s)
    ensures var t := RemoveAt(s, k);
            s[k] !in t && |t| == |s| - 1 && s == if k < |t| then InsertAt(t, k, s[k]) else t + [s[k]]
  {
    RemoveAtDistinct(s, k);
    var t := RemoveAt(s, k);
    assert t[..k] == s[..k] && t[k..] == s[k + 1..];
  }

  /** Inserting a detached child where it was gives the same list back. */
  method DetachAndInsert(parent: Node, which: nat, ghost s: seq<Node>)
    requires Linked(parent, s) && which < |s|
    modifies parent`child, s
    ensures Linked(parent, s)
  {
    BackWhereItWas(s, which);
    assert parent != s[which];
    hide Linked, InsertAt, RemoveAt;
    var item := DetachItemFromArray(parent, which, s);
    var ok := InsertItemInArray(parent, which, item, RemoveAt(s, which));
  }

  method NewArray() returns (parent: Node, item: Node)
    ensures fresh(parent) && fresh(item) && parent != item && Linked(parent, [item])
  {
    parent := new Node();
    item := new Node();
    var ok := AddItemToArray(parent, item, []);
    assert [] + [item] == [item];
  }

  /** A node that is not taken out of its list first breaks the one it is added to. */
  method AddStillLinked() returns (ghost parent: Node, ghost s: seq<Node>)
    ensures !Linked(parent, s)
  {
    var from, first := NewArray();
    var second := new Node();
    var ok := AddItemToArray(from, second, [first]);
    HeadIs(from, [first] + [second], 0);
    var into, other := NewArray();
    hide Linked;
    ok := AddItemToArray(into, first, [other]);
    parent, s := into, [other] + [first];
  }

  /** An operation on the children of one parent. */
  datatype Operation =
    | Append(item: Node)
    | Insert(which: int, item: Node)
    | Detach(which: int)
    | Replace(which: int, item: Node)

  /** What an operation does to the sequence of children. */
  function Applied(s: seq<Node>, op: Operation): seq<Node> {
    match op
    case Append(item) => s + [item]
    case Insert(which, item) => if which < 0 then s else if which < |s| then InsertAt(s, which, item) else s + [item]
    case Detach(which) => if 0 <= which < |s| then RemoveAt(s, which) else s
    case Replace(which, item) => if 0 <= which < |s| then s[which := item] else s
  }

  function AppliedAll(s: seq<Node>, ops: seq<Operation>): seq<Node>
    decreases |ops|
  {
    if ops == [] then s else AppliedAll(Applied(s, ops[0]), ops[1..])
  }

  /** A node given to an operation is not a child yet, nor the parent itself. */
  predicate Usable(parent: Node, s: seq<Node>, op: Operation) {
    op.Detach? || (op.item !in s && op.item != parent)
  }

  predicate AllUsable(parent: Node, s: seq<Node>, ops: seq<Operation>)
    decreases |ops|
  {
    ops == [] || (Usable(parent, s, ops[0]) && AllUsable(parent, Applied(s, ops[0]), ops[1..]))
  }

  /** The node that an operation takes out of the list, if it takes one. */
  function Leaving(s: seq<Node>, op: Operation): set<Node> {
    match op
    case Append(_) => {}
    case Insert(_, _) => {}
    case Detach(which) => if 0 <= which < |s| then {s[which]} else {}
    case Replace(which, _) => if 0 <= which < |s| then {s[which]} else {}
  }

  /** The node that an operation brings into the list, if it brings one. */
  function Entering(s: seq<Node>, op: Operation): set<Node> {
    match op
    case Append(item) => {item}
    case Insert(which, item) => if which < 0 then {} else {item}
    case Detach(_) => {}
    case Replace(which, item) => if 0 <= which < |s| then {item} else {}
  }

  lemma AppliedMember(s: seq<Node>, op: Operation, n: Node)
    requires Distinct(s) && (op.Detach? || op.item !in s)
    ensures n in Applied(s, op) <==> (n in s && n !in Leaving(s, op)) || n in Entering(s, op)
  {
    match op
    case Append(item) =>
    case Insert(which, item) =>
      if 0 <= which < |s| {
        assert s == s[..which] + s[which..];
      }
    case Detach(which) =>
      if 0 <= which < |s| {
        RemoveAtDistinct(s, which);
        assert s == s[..which] + [s[which]] + s[which + 1..];
      }
    case Replace(which, item) =>
      if 0 <= which < |s| {
        var t := s[which := item];
        assert t == s[..which] + [item] + s[which + 1..] && s == s[..which] + [s[which]] + s[which + 1..];
        RemoveAtDistinct(s, which);
        assert forall m :: m in RemoveAt(s, which) <==> m in s[..which] || m in s[which + 1..];
      }
  }

  /** One operation: the list changes as the sequence does, and a node that leaves it has no next sibling. */
  method Apply(parent: Node, op: Operation, ghost s: seq<Node>)
    requires Linked(parent, s) && Usable(parent, s, op) && (!op.Detach? ==> op.item.next == null)
    modifies parent`child, s, if op.Detach? then {} else {op.item}
    ensures Linked(parent, Applied(s, op))
    ensures forall n :: n in Leaving(s, op) ==> n.next == null
    ensures !op.Detach? && Entering(s, op) == {} ==> op.item.next == null
  {
    hide Linked, InsertAt, RemoveAt;
    match op
    case Append(item) =>
      var ok := AddItemToArray(parent, item, s);
    case Insert(which, item) =>
      var ok := InsertItemInArray(parent, which, item, s);
    case Detach(which) =>
      var item := DetachItemFromArray(parent, which, s);
    case Replace(which, item) =>
      var ok := ReplaceItemInArray(parent, which, item, s);
  }

  /** The nodes of a pool are the children and nodes that have no next sibling. */
  ghost predicate Pooled(s: seq<Node>, pool: set<Node>)
    reads pool
  {
    && (forall n :: n in s ==> n in pool)
    && (forall n :: n in pool && n !in s ==> n.next == null)
  }

  method ApplyPooled(parent: Node, op: Operation, ghost s: seq<Node>, ghost pool: set<Node>)
    requires Linked(parent, s) && Usable(parent, s, op) && parent !in pool
    requires Pooled(s, pool) && (!op.Detach? ==> op.item in pool)
    modifies parent`child, pool
    ensures Linked(parent, Applied(s, op)) && Pooled(Applied(s, op), pool)
  {
    EnteringItem(s, op);
    assert Distinct(s) && (op.Detach? || (op.item !in s && op.item.next == null));
    hide Applied, Linked, Distinct, Leaving, Entering, Usable;
    Apply(parent, op, s);
    forall n | n in Applied(s, op) ensures n in pool {
      AppliedMember(s, op, n);
    }
    forall n | n in pool && n !in Applied(s, op) ensures n.next == null {
      AppliedMember(s, op, n);
      if n !in s && !(!op.Detach? && n == op.item) {
        assert n.next == old(n.next);
      }
    }
  }

  lemma EnteringItem(s: seq<Node>, op: Operation)
    ensures if op.Detach? then Entering(s, op) == {} else Entering(s, op) == {} || Entering(s, op) == {op.item}
  {
  }

  /** Any run of operations keeps the list well formed and changes it as it changes the sequence of children. */
  method Run(parent: Node, ops: seq<Operation>, ghost s: seq<Node>, ghost pool: set<Node>)
    requires Linked(parent, s) && AllUsable(parent, s, ops) && parent !in pool && Pooled(s, pool)
    requires forall op :: op in ops && !op.Detach? ==> op.item in pool
    modifies parent`child, pool
    ensures Linked(parent, AppliedAll(s, ops)) && Pooled(AppliedAll(s, ops), pool)
  {
    ghost var t := s;
    for i := 0 to |ops|
      invariant Linked(parent, t) && Pooled(t, pool)
      invariant AllUsable(parent, t, ops[i..]) && AppliedAll(t, ops[i..]) == AppliedAll(s, ops)
    {
      assert ops[i..][1..] == ops[i + 1..];
      ApplyPooled(parent, ops[i], t, pool);
      t := Applied(t, ops[i]);
    }
  }
}
