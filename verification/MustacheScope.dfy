/** What names select, by index: the innermost value that has a member, dotted paths, and escaped text. */
module MustacheScope {
  import opened Json
  import JsonGrammar
  import JsonRoundTrip
  import JsonCompact
  import opened Options
  import opened MustacheContext
  import opened MustacheTree

  /** The first member with a key is the one that counts. */
  lemma {:induction false} FirstMember(members: seq<Member>, key: string, i: nat)
    requires i < |members| && members[i].key == key && forall j :: 0 <= j < i ==> members[j].key != key
    ensures GetItem(Object(members), key) == Some(members[i].value)
  {
    if i > 0 {
      assert members[1..][i - 1] == members[i];
      FirstMember(members[1..], key, i - 1);
    }
  }

  lemma {:induction false} NoMember(j: Json, key: string)
    requires j.Object? ==> forall i :: 0 <= i < |j.members| ==> j.members[i].key != key
    ensures GetItem(j, key) == None
    decreases if j.Object? then |j.members| else 0
  {
    if j.Object? && j.members != [] {
      NoMember(Object(j.members[1..]), key);
    }
  }

  /** `i` is the innermost of the entered values that has a member of this name. */
  predicate Innermost(ctx: seq<Json>, key: string, i: nat) {
    && i < |ctx| && GetItem(ctx[i], key).Some?
    && forall j :: i < j < |ctx| ==> GetItem(ctx[j], key) == None
  }

  lemma {:induction false} InnermostFound(ctx: seq<Json>, key: string, i: nat)
    requires Innermost(ctx, key, i)
    ensures FindInnermost(ctx, key) == GetItem(ctx[i], key)
    decreases |ctx|
  {
    hide GetItem;
    if i < |ctx| - 1 {
      InnermostFound(ctx[..|ctx| - 1], key, i);
    }
  }

  lemma {:induction false} NoneFound(ctx: seq<Json>, key: string)
    requires forall j :: 0 <= j < |ctx| ==> GetItem(ctx[j], key) == None
    ensures FindInnermost(ctx, key) == None
    decreases |ctx|
  {
    hide GetItem;
    if ctx != [] {
      NoneFound(ctx[..|ctx| - 1], key);
    }
  }

  /** A key as it is written in a name: dots and backslashes are escaped. */
  function WrittenKey(key: string): (s: string)
    ensures key != "" ==> s != "" && s[0] != '.'
  {
    if key == "" then ""
    else (if key[0] == '.' || key[0] == '\\' then ['\\', key[0]] else [key[0]]) + WrittenKey(key[1..])
  }

  function WrittenRest(keys: seq<string>): string {
    if keys == [] then "" else "." + WrittenKey(keys[0]) + WrittenRest(keys[1..])
  }

  /** A path of keys as a name. */
  function WrittenPath(keys: seq<string>): string
    requires keys != []
  {
    WrittenKey(keys[0]) + WrittenRest(keys[1..])
  }

  lemma AfterOne(a: char, rest: string, tail: string)
    ensures ([a] + rest + tail)[0] == a && ([a] + rest + tail)[1..] == rest + tail
  {
  }

  lemma AfterTwo(a: char, b: char, rest: string, tail: string)
    ensures var s := [a, b] + rest + tail; s[0] == a && s[1] == b && s[2..] == rest + tail
  {
  }

  lemma KeyStep(key: string, tail: string)
    requires key != ""
    ensures var s := WrittenKey(key) + tail;
            if key[0] == '.' || key[0] == '\\'
            then |s| > 1 && s[0] == '\\' && s[1] == key[0] && s[2..] == WrittenKey(key[1..]) + tail
            else s != "" && s[0] == key[0] && s[1..] == WrittenKey(key[1..]) + tail
  {
    var rest := WrittenKey(key[1..]);
    AfterOne(key[0], rest, tail);
    AfterTwo('\\', key[0], rest, tail);
    assert WrittenKey(key) == (if key[0] == '.' || key[0] == '\\' then ['\\', key[0]] else [key[0]]) + rest;
    hide WrittenKey;
  }

  /** Cutting the first key off a written name gives that key. */
  lemma {:induction false} SplitWritten(key: string, tail: string)
    requires tail == "" || tail[0] == '.'
    ensures SplitKey(WrittenKey(key) + tail) == (key, SkipDots(tail))
  {
    if key == "" {
      assert WrittenKey(key) + tail == tail;
    } else {
      KeyStep(key, tail);
      SplitWritten(key[1..], tail);
      hide WrittenKey;
      assert [key[0]] + key[1..] == key;
      if key[0] != '.' && key[0] != '\\' {
        PlainStep(WrittenKey(key) + tail);
      }
    }
  }

  lemma PlainStep(s: string)
    requires s != "" && s[0] != '.' && s[0] != '\\'
    ensures SplitKey(s) == ([s[0]] + SplitKey(s[1..]).0, SplitKey(s[1..]).1)
  {
  }

  /** The value at the end of a path of keys. */
  function Follow(j: Json, keys: seq<string>): Option<Json>
    decreases |keys|
  {
    if keys == [] then Some(j)
    else
      var v := GetItem(j, keys[0]);
      if v.None? then None else Follow(v.value, keys[1..])
  }

  lemma OneDot(rest: string)
    requires rest != "" && rest[0] != '.'
    ensures SkipDots("." + rest) == rest
  {
    assert ("." + rest)[1..] == rest;
  }

  lemma {:induction false} RestUnfold(keys: seq<string>)
    requires keys != []
    ensures WrittenRest(keys) == "." + WrittenPath(keys)
    ensures keys[0] != "" ==> WrittenPath(keys) != "" && WrittenPath(keys)[0] != '.'
  {
    hide WrittenKey;
    var a, b := WrittenKey(keys[0]), WrittenRest(keys[1..]);
    assert "." + a + b == "." + (a + b);
  }

  lemma {:induction false} RestStart(keys: seq<string>)
    requires forall k :: k in keys ==> k != ""
    ensures keys != [] ==>
              WrittenRest(keys)[0] == '.' && SkipDots(WrittenRest(keys)) == WrittenPath(keys) && WrittenPath(keys) != ""
    ensures keys == [] ==> SkipDots(WrittenRest(keys)) == ""
  {
    if keys != [] {
      hide WrittenRest, WrittenPath, SkipDots;
      assert keys[0] in keys;
      RestUnfold(keys);
      OneDot(WrittenPath(keys));
    }
  }

  lemma {:induction false} WalkWritten(j: Json, keys: seq<string>)
    requires keys != [] && forall k :: k in keys ==> k != ""
    ensures Walk(j, WrittenPath(keys)) == Follow(j, keys)
    decreases |keys|
  {
    var rest := keys[1..];
    assert keys[0] in keys && forall k :: k in rest ==> k in keys;
    RestStart(rest);
    if rest == [] {
      assert WrittenRest(rest) == "";
    }
    SplitWritten(keys[0], WrittenRest(rest));
    assert WrittenKey(keys[0]) != "";
    hide SplitKey, WrittenKey, SkipDots, GetItem;
    var v := GetItem(j, keys[0]);
    if v.Some? && rest != [] {
      WalkWritten(v.value, rest);
    }
  }

  /** A name is resolved at the innermost value that has its first key, and followed from there. */
  lemma {:induction false} SelectWritten(ctx: seq<Json>, keys: seq<string>, i: nat)
    requires keys != [] && (forall k :: k in keys ==> k != "") && Innermost(ctx, keys[0], i)
    ensures Select(ctx, WrittenPath(keys)) == Follow(ctx[i], keys)
  {
    var rest, name := keys[1..], WrittenPath(keys);
    assert keys[0] in keys && forall k :: k in rest ==> k in keys;
    InnermostFound(ctx, keys[0], i);
    RestStart(rest);
    if rest == [] {
      assert WrittenRest(rest) == "";
    }
    SplitWritten(keys[0], WrittenRest(rest));
    assert name[0] == WrittenKey(keys[0])[0] && name != ".";
    var v := GetItem(ctx[i], keys[0]);
    hide SplitKey, WrittenKey, WrittenPath, SkipDots, GetItem, Innermost, FindInnermost;
    if rest != [] {
      WalkWritten(v.value, rest);
    }
  }

  /** A name whose first key no value has selects nothing. */
  lemma {:induction false} SelectNothing(ctx: seq<Json>, keys: seq<string>)
    requires ctx != [] && keys != [] && (forall k :: k in keys ==> k != "")
    requires forall j :: 0 <= j < |ctx| ==> GetItem(ctx[j], keys[0]) == None
    ensures Select(ctx, WrittenPath(keys)) == None
  {
    var rest, name := keys[1..], WrittenPath(keys);
    assert keys[0] in keys && forall k :: k in rest ==> k in keys;
    NoneFound(ctx, keys[0]);
    RestStart(rest);
    if rest == [] {
      assert WrittenRest(rest) == "";
    }
    SplitWritten(keys[0], WrittenRest(rest));
    assert name[0] == WrittenKey(keys[0])[0];
  }

  /** A member of the item just entered hides every outer one of that name. */
  lemma Shadows(ctx: seq<Json>, item: Json, keys: seq<string>)
    requires keys != [] && (forall k :: k in keys ==> k != "") && GetItem(item, keys[0]).Some?
    ensures Select(ctx + [item], WrittenPath(keys)) == Follow(item, keys)
  {
    SelectWritten(ctx + [item], keys, |ctx|);
  }

  /** An item without such a member leaves the outer ones in sight. */
  lemma SeenThrough(ctx: seq<Json>, item: Json, keys: seq<string>)
    requires ctx != [] && keys != [] && (forall k :: k in keys ==> k != "") && GetItem(item, keys[0]) == None
    ensures Select(ctx + [item], WrittenPath(keys)) == Select(ctx, WrittenPath(keys))
  {
    var inner := ctx + [item];
    if i: nat :| i < |ctx| && Innermost(ctx, keys[0], i) {
      assert Innermost(inner, keys[0], i);
      SelectWritten(ctx, keys, i);
      SelectWritten(inner, keys, i);
    } else {
      NoInnermost(ctx, keys[0]);
      SelectNothing(ctx, keys);
      SelectNothing(inner, keys);
    }
  }

  lemma {:induction false} NoInnermost(ctx: seq<Json>, key: string)
    requires forall i: nat :: i < |ctx| ==> !Innermost(ctx, key, i)
    ensures forall j :: 0 <= j < |ctx| ==> GetItem(ctx[j], key) == None
  {
    hide GetItem;
    var n: nat := |ctx|;
    while n > 0
      invariant n <= |ctx| && forall j :: n <= j < |ctx| ==> GetItem(ctx[j], key) == None
    {
      assert !Innermost(ctx, key, n - 1);
      n := n - 1;
    }
  }

  /** The texts of the members of this name, one for each item. */
  function Texts(items: seq<Json>, key: string): string
    requires forall j :: j in items ==> GetItem(j, key).Some?
  {
    if items == [] then "" else TextOf(GetItem(items[0], key).value) + Texts(items[1..], key)
  }

  /** A variable inside a section over items that have it shows each item's own, whatever is outside. */
  lemma {:induction false} EachShowsItsOwn(items: seq<Json>, key: string, ctx: seq<Json>)
    requires ctx != [] && key != "" && forall j :: j in items ==> GetItem(j, key).Some?
    ensures EvalEach([Replace(WrittenKey(key), false)], items, ctx) == Texts(items, key)
    decreases |items|
  {
    if items != [] {
      var body := [Replace(WrittenKey(key), false)];
      var item := items[0];
      assert item in items;
      Shadows(ctx, item, [key]);
      assert WrittenPath([key]) == WrittenKey(key) by {
        assert [key][1..] == [] && WrittenKey(key) + "" == WrittenKey(key);
      }
      assert Follow(item, [key]) == GetItem(item, key) by {
        assert [key][1..] == [];
      }
      assert Eval(body, ctx + [item]) == TextOf(GetItem(item, key).value) by {
        assert body[1..] == [];
        assert EvalNode(body[0], ctx + [item]) == TextOf(GetItem(item, key).value);
        assert Eval(body, ctx + [item]) == EvalNode(body[0], ctx + [item]) + "";
      }
      EachShowsItsOwn(items[1..], key, ctx);
      hide Eval, GetItem, Select, WrittenKey;
    }
  }

  /** A reader of the entities that `emit` writes. */
  function Unescape(s: string): string
    decreases |s|
  {
    if s == "" then ""
    else if "&lt;" <= s then "<" + Unescape(s[4..])
    else if "&gt;" <= s then ">" + Unescape(s[4..])
    else if "&amp;" <= s then "&" + Unescape(s[5..])
    else if "&quot;" <= s then "\"" + Unescape(s[6..])
    else [s[0]] + Unescape(s[1..])
  }

  lemma UnescapeOne(c: char, rest: string)
    ensures Unescape(EscapeChar(c) + rest) == [c] + Unescape(rest)
  {
    var s := EscapeChar(c) + rest;
    match c
    case '<' => assert s[4..] == rest;
    case '>' => assert s[4..] == rest && s[1] == 'g';
    case '&' => assert s[5..] == rest && s[1] == 'a';
    case '\"' => assert s[6..] == rest && s[1] == 'q';
    case _ => assert s[1..] == rest && s[0] == c;
  }

  /** Escaped text is safe between tags and in attributes, and reads back as the text. */
  lemma {:induction false} EscapeBack(s: string)
    ensures Unescape(Escape(s)) == s
    ensures forall c :: c in Escape(s) ==> c !in {'<', '>', '\"'}
  {
    hide Unescape, EscapeChar;
    if s == "" {
      UnescapeNothing();
    } else {
      UnescapeOne(s[0], Escape(s[1..]));
      EscapeBack(s[1..]);
      EntitySafe(s[0]);
      assert [s[0]] + s[1..] == s;
    }
  }

  lemma UnescapeNothing()
    ensures Unescape("") == ""
  {
  }

  lemma EntitySafe(c: char)
    ensures forall d :: d in EscapeChar(c) ==> d !in {'<', '>', '\"'}
  {
  }

  /** A section is shown for the items of an array, not at all for nothing, null or false, and once for the rest. */
  lemma SectionItems(ctx: seq<Json>, name: string)
    requires ctx != []
    ensures var v := Select(ctx, name);
            Entered(ctx, name) == if v.None? || v == Some(Null) || v == Some(False) then []
                                  else if v.value.Array? then v.value.items else [v.value]
  {
  }

  /** What a section takes for false: a name that selects nothing, null, false, and an array without items. */
  predicate Falsey(v: Option<Json>) {
    v in {None, Some(Null), Some(False), Some(Array([]))}
  }

  /**
   * What a section shows. For a false value an inverted section shows its body where it stands, and another
   * one nothing; for any other value it is the other way round, and the body is shown inside the value, or
   * inside each item of an array.
   */
  lemma SectionShows(ctx: seq<Json>, name: string, ending: Ending, body: seq<Node>)
    requires ctx != []
    ensures var v := Select(ctx, name);
            var shown, inverse := EvalNode(Block(name, false, ending, body), ctx),
                EvalNode(Block(name, true, ending, body), ctx);
            && (Falsey(v) ==> shown == "" && inverse == Eval(body, ctx))
            && (!Falsey(v) ==> inverse == "")
            && (!Falsey(v) && !v.value.Array? ==> shown == Eval(body, ctx + [v.value]))
            && (!Falsey(v) && v.value.Array? ==>
                  shown == Eval(body, ctx + [v.value.items[0]]) + EvalEach(body, v.value.items[1..], ctx))
  {
    SectionItems(ctx, name);
    hide Select, Eval;
    var v := Select(ctx, name);
    if !Falsey(v) && !v.value.Array? {
      assert EvalEach(body, [v.value], ctx) == Eval(body, ctx + [v.value]) + EvalEach(body, [v.value][1..], ctx);
      assert [v.value][1..] == [];
    }
  }

  /**
   * The text of a selected value: nothing for null, a string itself, and of anything else a JSON text without
   * blanks from which the value is read back.
   */
  lemma {:induction false} TextShown(j: Json, strtod: JsonGrammar.Strtod)
    requires JsonRoundTrip.Readable(j, strtod) && JsonRoundTrip.Clean(j)
    requires JsonRoundTrip.Nest(j) <= JsonGrammar.NESTING_LIMIT
    ensures j.Null? ==> TextOf(j) == ""
    ensures j.String? ==> TextOf(j) == j.str
    ensures !j.Null? && !j.String? ==>
              && JsonCompact.Stripped(TextOf(j), false) == TextOf(j)
              && JsonGrammar.Parse(TextOf(j), strtod).Got? && JsonGrammar.Parse(TextOf(j), strtod).value == j
  {
    hide Render, JsonGrammar.Parse, JsonCompact.Stripped;
    JsonRoundTrip.RoundTrip(j, false, strtod);
    JsonCompact.Compact(j, false, strtod);
  }
}
