/** The cJSON side of the interpreter: a selection and a stack of entered values, updated in place. */
module MustacheCursor {
  import opened Options
  import opened Json
  import opened MustacheContext
  import opened MustacheMachine
  import opened MustacheText

  class Cursor {
    const root: Json
    var selection: Json
    var depth: int
    const stack: array<Entry>

    ghost predicate Valid()
      reads this
    {
      stack.Length == MAX_DEPTH && 0 <= depth < MAX_DEPTH
    }

    ghost function Entries(): (r: seq<Entry>)
      requires Valid()
      reads this, stack
      ensures |r| == depth + 1
    {
      stack[..depth + 1]
    }

    /** The values in scope, outermost first. */
    ghost function Scope(): (r: seq<Json>)
      requires Valid()
      reads this, stack
      ensures |r| == depth + 1
    {
      Objs(Entries())
    }

    constructor (root: Json)
      ensures Valid() && fresh(stack) && Entries() == [Entry(root, [])] && this.root == root
    {
      this.root := root;
      selection := Null;
      depth := 0;
      stack := new Entry[MAX_DEPTH](i => Entry(root, []));
    }

    /** `sel`: the current value, or the innermost value with this member; else null is selected. */
    method SelectKey(key: Option<string>) returns (found: bool)
      requires Valid()
      modifies this`selection
      ensures Valid()
      ensures key.None? ==> found && selection == Scope()[depth]
      ensures key.Some? ==> var v := FindInnermost(Scope(), key.value);
                found == v.Some? && selection == if v.Some? then v.value else Null
    {
      if key.None? {
        selection := stack[depth].obj;
        return true;
      }
      var i := depth;
      var o := GetItem(stack[i].obj, key.value);
      ghost var scope := Scope();
      assert scope[..depth + 1] == scope;
      while i >= 0 && o.None?
        invariant -1 <= i <= depth
        invariant i >= 0 ==> o == GetItem(scope[i], key.value)
        invariant i < 0 ==> o.None?
        invariant FindInnermost(scope, key.value) == FindInnermost(scope[..i + 1], key.value)
      {
        assert scope[..i + 1][..i] == scope[..i];
        i := i - 1;
        if i >= 0 {
          o := GetItem(stack[i].obj, key.value);
        }
      }
      if i >= 0 {
        selection := o.value;
        found := true;
      } else {
        selection := Null;
        found := false;
      }
    }

    method SelectMember(key: string) returns (found: bool)
      requires Valid()
      modifies this`selection
      ensures Valid()
      ensures var v := GetItem(old(selection), key);
              found == v.Some? && selection == if v.Some? then v.value else old(selection)
    {
      var o := GetItem(selection, key);
      found := o.Some?;
      if found {
        selection := o.value;
      }
    }

    /** `enter` for the selected value; `None` is the error for a full stack. */
    method Enter() returns (entered: Option<bool>)
      requires Valid()
      modifies this`depth, stack
      ensures old(depth) + 1 >= MAX_DEPTH ==> entered.None?
      ensures old(depth) + 1 < MAX_DEPTH ==>
                && Valid()
                && entered == Some(Items(selection) != [])
                && Entries() == if Items(selection) == [] then old(Entries())
                                else old(Entries()) + [Entry(Items(selection)[0], Items(selection)[1..])]
    {
      depth := depth + 1;
      if depth >= MAX_DEPTH {
        return None;
      }
      var o := selection;
      if o.Array? {
        if o.items == [] {
          depth := depth - 1;
          return Some(false);
        }
        stack[depth] := Entry(o.items[0], o.items[1..]);
      } else if (o.Object? && o.members == []) || (!o.False? && !o.Null?) {
        stack[depth] := Entry(o, []);
        assert [o][1..] == [];
      } else {
        depth := depth - 1;
        return Some(false);
      }
      assert stack[..depth + 1] == stack[..depth] + [stack[depth]];
      return Some(true);
    }

    method Next() returns (more: bool)
      requires Valid() && depth > 0
      modifies stack
      ensures Valid()
      ensures var top := old(stack[depth]);
              && more == (top.next != [])
              && Entries() == if more then old(Entries())[..depth] + [Entry(top.next[0], top.next[1..])]
                  else old(Entries())
    {
      var next := stack[depth].next;
      if next == [] {
        return false;
      }
      stack[depth] := Entry(next[0], next[1..]);
      return true;
    }

    method Leave()
      requires Valid() && depth > 0
      modifies this`depth
      ensures Valid() && Entries() == old(Entries())[..old(depth)]
    {
      depth := depth - 1;
    }

    method Text() returns (s: string)
      requires Valid()
      ensures s == TextOf(selection)
    {
      if selection.String? {
        s := selection.str;
      } else if selection.Null? {
        s := "";
      } else {
        s := Render(selection, false, 0);
      }
    }
  }
}
