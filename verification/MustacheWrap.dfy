/** The wrapper between `process` and the cJSON cursor: dotted names and escaped output. */
module MustacheWrap {
  import opened Options
  import opened Json
  import opened MustacheContext
  import opened MustacheMachine
  import opened MustacheCursor
  import opened MustacheText

  ghost predicate CString(buffer: array<char>, head: nat)
    reads buffer
  {
    head < buffer.Length && buffer[buffer.Length - 1] == '\0' && '\0' !in buffer[head..buffer.Length - 1]
  }

  /** The C string that starts at `head`. */
  ghost function Rest(buffer: array<char>, head: nat): string
    requires head < buffer.Length
    reads buffer
  {
    buffer[head..buffer.Length - 1]
  }

  /** The split of `done + s[i..]` when `done` is already unescaped. */
  ghost function SplitFrom(done: string, s: string, i: nat): (string, string)
    requires i <= |s|
  {
    (done + SplitKey(s[i..]).0, SplitKey(s[i..]).1)
  }

  lemma SplitStart(s: string)
    ensures SplitFrom("", s, 0) == SplitKey(s)
  {
    assert s[0..] == s;
    var (key, rest) := SplitKey(s);
    assert "" + key == key;
  }

  lemma SplitStep(done: string, s: string, i: nat)
    requires i < |s| && s[i] != '.'
    ensures var escaped := s[i] == '\\' && i + 1 < |s| && (s[i + 1] == '.' || s[i + 1] == '\\');
            var j := if escaped then i + 1 else i;
            SplitFrom(done, s, i) == SplitFrom(done + [s[j]], s, j + 1)
  {
    assert s[i..][1..] == s[i + 1..];
    if i + 1 < |s| {
      assert s[i..][2..] == s[i + 2..];
    }
    var escaped := s[i] == '\\' && i + 1 < |s| && (s[i + 1] == '.' || s[i + 1] == '\\');
    var j := if escaped then i + 1 else i;
    var (key, rest) := SplitKey(s[j + 1..]);
    assert SplitKey(s[i..]) == ([s[j]] + key, rest);
    assert done + ([s[j]] + key) == done + [s[j]] + key;
  }

  lemma SplitEnd(done: string, s: string, i: nat)
    requires i <= |s| && (i == |s| || s[i] == '.')
    ensures SplitFrom(done, s, i) == (done, SkipDots(s[i..]))
  {
    assert SplitKey(s[i..]) == ("", SkipDots(s[i..]));
    assert done + "" == done;
  }

  lemma SkipStep(s: string, i: nat)
    requires i <= |s|
    ensures SkipDots(s[i..]) == if i < |s| && s[i] == '.' then SkipDots(s[i + 1..]) else s[i..]
  {
    if i < |s| {
      assert s[i..][1..] == s[i + 1..];
    }
  }

  /** What is left of the buffer is what is left of the C string `s`. */
  predicate Ending(left: string, s: string, i: nat) {
    i <= |s| && left == s[i..] + "\0" && '\0' !in s
  }

  lemma EndingStart(buffer: array<char>, head: nat)
    requires CString(buffer, head)
    ensures Ending(buffer[head..], Rest(buffer, head), 0)
  {
    var s := Rest(buffer, head);
    assert s[0..] == s && buffer[head..] == s + "\0";
  }

  lemma EndingStep(left: string, s: string, i: nat)
    requires Ending(left, s, i) && left[0] != '\0'
    ensures i < |s| && left[0] == s[i] && |left| > 1 && Ending(left[1..], s, i + 1)
    ensures left[1] == if i + 1 < |s| then s[i + 1] else '\0'
  {
    assert left[1..] == s[i + 1..] + "\0";
  }

  lemma EndingStop(buffer: array<char>, iter: nat, s: string, i: nat)
    requires iter < buffer.Length && Ending(buffer[iter..], s, i) && (buffer[iter] == '\0' || buffer[iter] == '.')
    ensures CString(buffer, iter) && Rest(buffer, iter) == s[i..] && (i == |s| || s[i] == '.')
  {
    var left, last := buffer[iter..], |s| - i;
    assert left[last] == '\0' && left[..last] == s[i..];
    assert Rest(buffer, iter) == left[..last];
    assert buffer[buffer.Length - 1] == left[last];
    assert left[0] == buffer[iter];
  }

  /** The key of `s`, which was at `head`, is unescaped up to `write`; what is not read yet is at `iter`. */
  ghost predicate Copying(buffer: array<char>, head: nat, s: string, write: nat, iter: nat)
    reads buffer
  {
    && head <= write <= iter < buffer.Length && (write == head ==> iter == head)
    && Ending(buffer[iter..], s, iter - head)
    && SplitKey(s) == SplitFrom(buffer[head..write], s, iter - head)
  }

  /** The place of the next character of the key: here, or behind a backslash. */
  method NextChar(buffer: array<char>, iter: nat, ghost s: string, ghost i: nat, ghost done: string) returns (at: nat)
    requires iter < buffer.Length && Ending(buffer[iter..], s, i) && buffer[iter] != '\0' && buffer[iter] != '.'
    ensures iter <= at < buffer.Length - 1 && Ending(buffer[at + 1..], s, i + at + 1 - iter)
    ensures SplitFrom(done, s, i) == SplitFrom(done + [buffer[at]], s, i + at + 1 - iter)
  {
    EndingStep(buffer[iter..], s, i);
    SplitStep(done, s, i);
    hide SplitKey, SplitFrom, Ending;
    assert buffer[iter..][1..] == buffer[iter + 1..];
    at := iter;
    if buffer[iter] == '\\' && (buffer[iter + 1] == '.' || buffer[iter + 1] == '\\') {
      at := iter + 1;
      EndingStep(buffer[at..], s, i + 1);
      assert buffer[at..][1..] == buffer[at + 1..];
    }
  }

  /** One turn of the loop. */
  method CopyTurn(buffer: array<char>, head: nat, ghost s: string, write: nat, iter: nat)
    returns (nextWrite: nat, nextIter: nat)
    requires Copying(buffer, head, s, write, iter) && buffer[iter] != '\0' && buffer[iter] != '.'
    modifies buffer
    ensures nextWrite == write + 1 && nextIter > iter && Copying(buffer, head, s, nextWrite, nextIter)
  {
    hide SplitKey, SplitFrom, Ending;
    var at := NextChar(buffer, iter, s, iter - head, buffer[head..write]);
    WriteKey(buffer, head, write, at);
    nextWrite, nextIter := write + 1, at + 1;
  }

  method WriteKey(buffer: array<char>, head: nat, write: nat, iter: nat)
    requires head <= write <= iter < buffer.Length
    modifies buffer
    ensures buffer[head..write + 1] == old(buffer[head..write]) + [old(buffer[iter])]
    ensures buffer[iter + 1..] == old(buffer[iter + 1..])
  {
    buffer[write] := buffer[iter];
  }

  /** The loop of `getkey` that unescapes the key over itself. */
  method CopyKey(buffer: array<char>, head: nat) returns (iter: nat, write: nat)
    requires CString(buffer, head)
    modifies buffer
    ensures head <= write <= iter < buffer.Length && (write == head ==> iter == head)
    ensures CString(buffer, iter) && (buffer[iter] == '\0' || buffer[iter] == '.')
    ensures SplitKey(old(Rest(buffer, head))) == (buffer[head..write], SkipDots(Rest(buffer, iter)))
  {
    iter, write := head, head;
    ghost var s := Rest(buffer, head);
    SplitStart(s);
    EndingStart(buffer, head);
    assert buffer[head..head] == "";
    hide SplitKey, SkipDots, SplitFrom, Ending;
    while buffer[iter] != '\0' && buffer[iter] != '.'
      invariant Copying(buffer, head, s, write, iter)
      decreases buffer.Length - iter
    {
      write, iter := CopyTurn(buffer, head, s, write, iter);
    }
    EndingStop(buffer, iter, s, iter - head);
    SplitEnd(buffer[head..write], s, iter - head);
  }

  /** The loop of `getkey` that passes the dots; `car` stands for the character at `from`, which may be cut. */
  method PassDots(buffer: array<char>, from: nat, car: char) returns (iter: nat)
    requires from < buffer.Length && buffer[buffer.Length - 1] == '\0'
    requires from == buffer.Length - 1 ==> car == '\0'
    ensures from <= iter < buffer.Length && (iter == from <==> car != '.')
    ensures var s := Rest(buffer, from); s != "" && car == '.' ==> SkipDots(s[1..]) == Rest(buffer, iter)
  {
    hide SkipDots;
    iter := from;
    var c := car;
    ghost var s := Rest(buffer, from);
    while c == '.'
      invariant from <= iter < buffer.Length
      invariant if iter == from then c == car else car == '.' && c == buffer[iter]
      invariant iter > from ==> SkipDots(s[1..]) == SkipDots(s[iter - from..])
      decreases buffer.Length - iter
    {
      if iter > from {
        SkipStep(s, iter - from);
      }
      iter := iter + 1;
      c := buffer[iter];
    }
    if iter > from {
      SkipStep(s, iter - from);
      assert Rest(buffer, iter) == s[iter - from..];
    }
  }

  /** `getkey`: cuts the first key off a dotted name, unescaping it in place. */
  method GetKey(buffer: array<char>, head: nat) returns (key: Option<string>, next: nat)
    requires CString(buffer, head)
    modifies buffer
    ensures head <= next < buffer.Length && CString(buffer, next)
    ensures key.None? <==> old(Rest(buffer, head)) == ""
    ensures key.None? ==> next == head
    ensures key.Some? ==>
              var (first, rest) := SplitKey(old(Rest(buffer, head)));
              key.value == first && Rest(buffer, next) == rest && head < next
  {
    if buffer[head] == '\0' {
      return None, head;
    }
    hide SplitKey;
    var iter, write := CopyKey(buffer, head);
    ghost var written, tail := buffer[head..write], Rest(buffer, iter);
    var car := buffer[iter];
    buffer[write] := '\0';
    next := PassDots(buffer, iter, car);
    assert buffer[head..write] == written;
    if tail != "" {
      assert car == tail[0] == '.';
      assert Rest(buffer, iter)[1..] == tail[1..];
      assert SkipDots(tail) == SkipDots(tail[1..]) == Rest(buffer, next);
    } else {
      assert next == iter && Rest(buffer, next) == "" == SkipDots(tail);
    }
    assert forall k :: next <= k < buffer.Length - 1 ==> buffer[k] == tail[k - iter];
    key := Some(buffer[head..write]);
  }

  /** The keys after the first, each selecting a member of the selection so far. */
  method Descend(cursor: Cursor, copy: array<char>, from: nat) returns (ok: bool)
    requires cursor.Valid() && CString(copy, from)
    modifies cursor`selection, copy
    ensures cursor.Valid()
    ensures var v := Walk(old(cursor.selection), old(Rest(copy, from)));
            ok == v.Some? && (ok ==> cursor.selection == v.value)
  {
    ghost var wanted := Walk(cursor.selection, Rest(copy, from));
    ok := true;
    var key, head := GetKey(copy, from);
    while ok && key.Some?
      invariant cursor.Valid() && CString(copy, head)
      invariant ok ==> wanted ==
                       (if key.None? then Some(cursor.selection)
                        else var v := GetItem(cursor.selection, key.value);
                             if v.None? then None else Walk(v.value, Rest(copy, head)))
      invariant !ok ==> wanted == None
      invariant key.None? ==> Rest(copy, head) == "" || !ok
      decreases if ok && key.Some? then copy.Length - head else 0
    {
      ok := cursor.SelectMember(key.value);
      key, head := GetKey(copy, head);
    }
  }

  /** `sel` without extensions. */
  method SelectName(cursor: Cursor, name: string) returns (ok: bool)
    requires cursor.Valid() && name != "" && '\0' !in name
    modifies cursor`selection
    ensures cursor.Valid()
    ensures var v := Select(cursor.Scope(), name);
            ok == v.Some? && (ok ==> cursor.selection == v.value)
  {
    var copy := new char[|name| + 1](i requires 0 <= i <= |name| => if i < |name| then name[i] else '\0');
    assert Rest(copy, 0) == name;
    if copy[0] == '.' && copy[1] == '\0' {
      assert name == ".";
      ok := cursor.SelectKey(None);
      return;
    }
    assert name != ".";
    var key, head := GetKey(copy, 0);
    ok := cursor.SelectKey(key);
    if ok {
      ok := Descend(cursor, copy, head);
    }
  }

  predicate Plain(c: char) {
    c != '<' && c != '>' && c != '&' && c != '\"'
  }

  lemma EscapeStep(s: string)
    requires s != ""
    ensures Escape(s) == EscapeChar(s[0]) + Escape(s[1..])
    ensures Plain(s[0]) ==> EscapeChar(s[0]) == [s[0]]
  {
  }

  lemma EscapeEmpty()
    ensures Escape("") == ""
  {
  }

  lemma {:induction false} EscapePlain(s: string, n: nat)
    requires n <= |s| && forall i :: 0 <= i < n ==> Plain(s[i])
    ensures Escape(s) == s[..n] + Escape(s[n..])
  {
    hide Escape, EscapeChar;
    if n > 0 {
      EscapeStep(s);
      var head, rest := s[1..][..n - 1], Escape(s[n..]);
      EscapePlain(s[1..], n - 1);
      assert s[1..][n - 1..] == s[n..];
      assert s[..n] == [s[0]] + head;
      assert Escape(s) == [s[0]] + (head + rest);
      assert [s[0]] + (head + rest) == ([s[0]] + head) + rest;
    } else {
      assert s[0..] == s;
    }
  }

  /** `emit`: copies runs of plain characters and writes an entity for each special one. */
  method Emit(buffer: string, escape: bool, file: string) returns (out: string)
    ensures out == file + if escape then Escape(buffer) else buffer
  {
    hide Escape, EscapeChar;
    out := file;
    if !escape {
      return out + buffer;
    }
    var i := 0;
    assert buffer[0..] == buffer;
    while i < |buffer|
      invariant 0 <= i <= |buffer|
      invariant out + Escape(buffer[i..]) == file + Escape(buffer)
    {
      var s := i;
      while i < |buffer| && Plain(buffer[i])
        invariant s <= i <= |buffer|
        invariant forall j :: s <= j < i ==> Plain(buffer[j])
      {
        i := i + 1;
      }
      EscapePlain(buffer[s..], i - s);
      assert buffer[s..][i - s..] == buffer[i..] && buffer[s..][..i - s] == buffer[s..i];
      if i != s {
        out := out + buffer[s..i];
      }
      if i < |buffer| {
        EscapeStep(buffer[i..]);
        assert buffer[i..][1..] == buffer[i + 1..];
        out := out + EscapeChar(buffer[i]);
        i := i + 1;
      }
    }
    EscapeEmpty();
    assert buffer[i..] == "" && out + "" == out;
  }

  /** `enter`; a name that selects nothing is not an error. */
  method EnterName(cursor: Cursor, name: string) returns (entered: Option<bool>)
    requires cursor.Valid() && name != "" && '\0' !in name
    modifies cursor, cursor.stack
    ensures entered.None? <==> |old(cursor.Scope())| == MAX_DEPTH && Select(old(cursor.Scope()), name).Some?
    ensures entered.Some? ==>
              var items := Entered(old(cursor.Scope()), name);
              && cursor.Valid()
              && entered.value == (items != [])
              && cursor.Entries() == if items == [] then old(cursor.Entries())
                                     else old(cursor.Entries()) + [Entry(items[0], items[1..])]
  {
    var s := SelectName(cursor, name);
    if s {
      entered := cursor.Enter();
    } else {
      entered := Some(false);
    }
  }

  /** `iwrap_put` over `get`: writes the text of the value a name selects. */
  method PutName(cursor: Cursor, name: string, escape: bool, file: string) returns (out: string)
    requires cursor.Valid() && name != "" && '\0' !in name
    modifies cursor`selection
    ensures cursor.Valid()
    ensures out == file + Replacement(cursor.Scope(), name, escape)
  {
    var value := "";
    var s := SelectName(cursor, name);
    if s {
      value := cursor.Text();
    }
    if value != "" {
      out := Emit(value, escape, file);
    } else {
      out := file;
    }
  }
}
