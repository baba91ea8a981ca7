/** Printing and parsing together, as the methods run. */
module JsonService {
  import opened Json
  import JsonGrammar
  import JsonParser
  import JsonPrinter
  import JsonRoundTrip
  import JsonLayout

  /** cJSON_Print and then cJSON_Parse of what it gave, when no allocation fails. */
  method PrintAndParse(item: Json, format: bool, reallocate: bool, strtod: JsonGrammar.Strtod)
    returns (printed: bool, ok: bool, back: Json)
    requires JsonPrinter.Held(item) && JsonRoundTrip.Readable(item, strtod)
    ensures printed ==>
              ((ok && back == item) <==>
               (JsonRoundTrip.Clean(item) && JsonRoundTrip.Nest(item) <= JsonGrammar.NESTING_LIMIT))
  {
    printed, ok, back := false, false, Null;
    var text := JsonPrinter.Print(item, format, reallocate);
    if text == null {
      return;
    }
    printed := true;
    JsonRoundTrip.RoundTrip(item, format, strtod);
    ghost var rendered := Render(item, format, 0);
    hide *;
    assert text[..][..text.Length - 1] == rendered;
    ok, back := JsonParser.Parse(text[..text.Length - 1], strtod);
  }

  /** cJSON_Parse of a text that spells a tree, in whatever way: the tree, exactly when it is not nested too deep. */
  method ParseSpelled(text: string, ghost mark: bool, ghost before: string, ghost v: JsonLayout.Spelled,
                      ghost after: string, strtod: JsonGrammar.Strtod) returns (ok: bool, back: Json)
    requires JsonRoundTrip.Blank(before) && JsonLayout.Legal(v, strtod) && JsonLayout.NumberEnds(after)
    requires text == (if mark then JsonLayout.MARK else "") + (before + (JsonLayout.Text(v) + after))
    ensures (ok && back == JsonLayout.Tree(v)) <==> JsonLayout.Deep(v) <= 1000
  {
    hide *;
    ok, back := JsonParser.Parse(text, strtod);
    JsonLayout.SpelledParsed(mark, before, v, after, strtod);
  }
}
