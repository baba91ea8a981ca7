# Express C, modelled and proved in Dafny

This project models the logic of a web framework in C (its routers, its database pools and query
builder) and of the three libraries it carries with it: the Mustache interpreter, the HTTP byte
parsers and cJSON. Each part has a recursive or per-step description of what the code means, the
code itself in imperative form proved to do that, and theorems about the description.

| part | files |
|---|---|
| Mustache interpreter | `MustacheText`, `MustacheContext`, `MustacheInterp` (recursive reading), `MustacheMachine` (states of the loop that jumps back), `MustacheCursor`, `MustacheWrap`, `MustacheProcess` (the code), `MustacheTree` (section trees and their evaluation), `MustacheScope` (what names and sections show), `MustacheLines` (tags alone on their line), `MustacheSpelling` (trees written as templates), `MustacheDelimiters` (a template that is accepted or refused depending on the data) |
| Chunked decoder | `ChunkedSpec` (a byte at a time), `ChunkedLanguage` (what is accepted and what is refused), `ChunkedDecoder` (in place, stretch by stretch) |
| Request parser | `HttpGrammar` (a byte at a time), `HttpParser` (block skips and unrolled loops), `HttpSegments` (stages of arrival), `HttpSpelling` (heads written as text), `HttpRefusals`, `RequestReader` (the read loop) |
| cJSON | `Json` (trees and their text), `JsonGrammar` (what a text is), `JsonUnicode`, `JsonString` (the two scans of a string), `JsonParser`, `JsonPrinter` (the code), `JsonRoundTrip`, `JsonCompact` (the two printed forms), `JsonSpelling` and `JsonLayout` (all legal spellings of a tree), `JsonAccepted` (nothing else is parsed), `JsonService`, `JsonList` (the child list) |
| Routers | `Dispatch` (one request through a tree), `Failures` (errors on the way), `Exchange` (the code), `Mounting` |
| Pools | `Counting`, `ListPool` and `FlagPool` (interleaved steps), `ListPoolQueue` and `FlagPoolQueue` (the code) |
| Query builder | `QueryText`, `QueryBuilder`, `QuerySpelling` |

## Main results

- Mustache: the loop with its section stack, its `enabled` flag and the parallel context stack means
  the same as a recursive evaluator of the section tree, set-delimiter tags included, as long as no
  section that ends with other delimiters than it began with is run for more than one item; it ends
  for every template and leaves the context as deep as it was (`MustacheTree.TreeMeaning`,
  `MustacheProcess.Process`). When every section restores its delimiters, this holds whatever the data
  (`MustacheTree.SteadyMeaning`). Any section tree written as a template is rendered to its
  evaluation (`MustacheSpelling.SpelledRendered`); names are resolved innermost level first, key by
  key (`MustacheScope.SelectWritten`); what may stand alone on a line vanishes with it
  (`MustacheLines.AloneEnds`).
- Chunked bodies: every cut of the stream decodes alike, decoding undoes encoding, and the compaction
  in place loses nothing (`ChunkedSpec.SegmentationIndependence`, `ChunkedSpec.DecodeEncode`,
  `ChunkedDecoder.Decoder.Decode`, `ChunkedDecoder.DecodePieces`). A run completes exactly on a message
  and fails for exactly three causes (`ChunkedLanguage.CompleteExactly`, `ChunkedLanguage.ErrorExactly`).
- Request heads: a head is accepted exactly when it is written as method, target, version and fields,
  and then those are the parts that come out (`HttpSpelling.WrittenRead`, `HttpSpelling.AcceptedWritten`).
  The read loop finds the same request however the reads are cut, in spite of the shortcut that rescans
  from three bytes before the last length, and the fast scans stop where the plain ones do
  (`RequestReader.Reader.BuildRequest`, `HttpSegments.ReadsIndependent`).
- JSON: parsing undoes printing exactly when every string is free of control characters without a
  short escape and the nesting limit is kept (`JsonRoundTrip.RoundTrip`). Every spelling of a tree that
  section 7 of RFC 8259 allows, with blanks wherever section 2 allows them, is parsed to that tree
  within the limit (`JsonLayout.SpelledParsed`), and nothing else is parsed but for broken `\u` escapes
  and what follows the value (`JsonAccepted.ParsedSpelled`). The growable print buffer holds the
  recursive rendering after every successful print of any tree; the buffer measured for a string is
  enough even when the two scans disagree.
- The child list stays well formed in any run of operations (`JsonList.Run`).
- Dispatch: exactly one response, whatever the handlers do (`Dispatch.ExactlyOneResponse`), the order in
  which handlers run when they pass the request on (`Dispatch.AppPasses`), and the answer when one of
  them fails anywhere in the tree (`Failures.FailureAnswered`).
- Mounting: base paths are the concatenated mount paths from the app down, and the order of the
  `useRouter` calls does not matter (`Mounting.Mount`, `Mounting.PathOfChain`, `Mounting.OrderIndependent`).
- Pools: conservation and safety under every interleaving (`ListPool.PoolSafe`, `FlagPool.PoolSafe`).
- Query builder: the placeholders are numbered once each exactly when no condition holds more than one
  `$` (`QueryText.PlaceholdersExact`), and the text of a statement (`QuerySpelling.EveryPart`).

## Where the code does less than one would expect

These are modelled as the code has them.

- A control character without a short escape is printed with `snprintf` and room for five bytes, so
  its last hex digit is lost and a NUL ends the text there (`deps/cJSON/cJSON.c:916`). Such strings
  are exactly those that are not read back (`JsonRoundTrip.RoundTrip`, and
  `JsonRoundTrip.ControlCharacterLost` for one of them).
- `add_item_to_array` neither looks whether the item is a child already nor clears its `next`
  (`deps/cJSON/cJSON.c:1804-1809`). The list is well formed afterwards exactly when the item was not a
  child and the list was empty or the item had no next sibling (`JsonList.AddItemToArray`; a node of
  another array in `JsonList.AddStillLinked`).
- `where` and `having` give every `$` of a condition the same number, and `replace` allocates for one
  replacement only (`src/middleware/postgres-middleware.c:72-78`, `src/string/string.c:363`).
- `createPostgresPool` makes one connection more than there are permits (`src/db/adapter.c:24-29`), so
  a borrower always leaves one in the list.
- The default error handler of the app is the first one and never calls `next`, so error handlers that
  are added to the app itself are never called (`src/express.c:88-92`). When several routers have a
  route that matches, all of these routes are called and the first response counts.
- Delimiters set inside a repeated Mustache section stay in force on its next pass
  (`deps/mustach/mustach.c:373-395`). A template that has such a section can be accepted for one item
  and refused for two (`MustacheDelimiters.LastingDelimiters`). The tree reading is proved for every
  run in which no such section has more than one item. The other direction is not claimed: two
  readings of the same text with different delimiters may agree by chance.
- A `\u` that is not followed by four hex digits is read as U+0000, which ends the string for its
  readers (`deps/cJSON/cJSON.c:582-586`, `JsonSpelling.Odd` strings), and what follows a parsed value is
  not looked at.
- The chunked decoder takes a bare LF for a line break and any number of CR before it
  (`deps/picohttpparser/picohttpparser.c:634-648`).
- The columns of a SELECT are joined by a comma without the blank, which the size given to `strlcat`
  cuts off (`src/middleware/postgres-middleware.c:211`).

## Conventions

C strings are `string` with one character for a byte; wire data are `seq<byte>`. `size_t` wrap-around
is modelled where the code depends on it (`ChunkedSpec.SizeT`); other sizes are unbounded. Allocation
may fail in the printer; elsewhere it succeeds. Handlers, libc's `strtod` and the schedule of the
borrowers are parameters: a theorem holds for all of them.

## Model

| member | source | states |
|---|---|---|
| `MustacheText.Scan` | deps/mustach/mustach.c:254-289 | The text up to the next opening delimiter: where it stops the delimiter really stands, never before where the scan began |
| `MustacheText.ReadTag` | deps/mustach/mustach.c:296-359 | A tag read at a position ends strictly behind it and inside the template, and its name is not empty and made of template characters; a refused tag never reports success |
| `MustacheText.ReadDelimiters` | deps/mustach/mustach.c:375-394 | A set-delimiter tag that is accepted gives two non-empty delimiters |
| `MustacheInterp.NextTag` | deps/mustach/mustach.c:253-395 | Every tag moves the template forward; the end of the template is a success only with no section open |
| `MustacheInterp.Body` | deps/mustach/mustach.c:252-454 | The recursive reading of a template: a pass that reaches a closing tag ends strictly behind where it began, for every template and delimiter change, so the reading is total |
| `MustacheInterp.Interpret` | deps/mustach/mustach.c:230-455 | Every template run to the end stops with a verdict: a closing tag at the outermost level never survives |
| `MustacheMachine.SectionStep` | deps/mustach/mustach.c:396-415 | Pushing a frame (and a context level if the section was entered) keeps the two stacks in step, and what is left to do equals the recursive reading of the section and of what follows it, inverted and skipped sections included |
| `MustacheMachine.AgainStep` | deps/mustach/mustach.c:421-425 | Jumping back to the section start for the next item is the same as going on with the remaining passes |
| `MustacheMachine.PopFrame` | deps/mustach/mustach.c:427-429 | Popping a frame keeps context levels equal to one plus the frames marked entered, and only such a frame has a level to leave |
| `MustacheMachine.EnterStep` | deps/mustach/mustach.c:401-411 | Entering a section for a list of items and running on equals one recursive pass for each item |
| `MustacheMachine.OnceStep` | deps/mustach/mustach.c:407-414 | A section whose body is read once, shown or skipped, restores the outer state |
| `MustacheCursor.Cursor.constructor` | deps/mustach/mustach-cjson.c:32-41 | The context starts with the root value alone |
| `MustacheCursor.Cursor.SelectKey` | deps/mustach/mustach-cjson.c:64-86 | Selects the innermost value in scope that has the member, or null and no success |
| `MustacheCursor.Cursor.SelectMember` | deps/mustach/mustach-cjson.c:88-98 | Moves the selection to a member, or leaves it |
| `MustacheCursor.Cursor.Enter` | deps/mustach/mustach-cjson.c:100-136 | Pushes the first of the values the selection stands for and remembers the others; pushes nothing for an empty array, false or null; fails only when the stack is full |
| `MustacheCursor.Cursor.Next` | deps/mustach/mustach-cjson.c:138-152 | Replaces the top value by the next item, or says there is none and changes nothing |
| `MustacheCursor.Cursor.Leave` | deps/mustach/mustach-cjson.c:154-162 | Drops the top level only |
| `MustacheCursor.Cursor.Text` | deps/mustach/mustach-cjson.c:164-182 | The text of the selection: a string itself, nothing for null, else its unformatted JSON |
| `MustacheWrap.GetKey` | deps/mustach/mustach-wrap.c:92-129 | Cutting a key off a dotted name in place gives the unescaped first key, leaves the rest of the name intact behind it, and moves forward |
| `MustacheWrap.Descend` | deps/mustach/mustach-wrap.c:180-191 | Following the remaining keys member by member |
| `MustacheWrap.SelectName` | deps/mustach/mustach-wrap.c:131-226 | A name selects what a recursive lookup in the scope selects, innermost context first |
| `MustacheWrap.EnterName` | deps/mustach/mustach-wrap.c:293-297 | A section name that selects nothing is not entered and is no error; an entered one adds one level |
| `MustacheWrap.Emit` | deps/mustach/mustach-wrap.c:250-291 | Writing runs of plain characters and entities writes exactly the escaped text |
| `MustacheWrap.PutName` | deps/mustach/mustach-wrap.c:309-322 | A variable tag appends the replacement of its name, escaped or not |
| `MustacheProcess.SearchOpen` | deps/mustach/mustach.c:254-289 | The search loop with its line state and held-back blanks computes the recursive scan |
| `MustacheProcess.GetTag` | deps/mustach/mustach.c:296-359 | The tag switch computes the tag, with the same error for each malformed one |
| `MustacheProcess.GetUnescaped` | deps/mustach/mustach.c:316-330 | A tag with an opening brace: the closing one is looked for inside or behind the closing delimiter, depending on whether that is made of braces |
| `MustacheProcess.ResumeTag` | deps/mustach/mustach.c:252-454 | What is left to compute from a state of the loop is what is left behind its next tag, for every kind of tag |
| `MustacheProcess.OpenSection` | deps/mustach/mustach.c:396-415 | The code that begins a section: too deep exactly when the recursive reading says so, otherwise both stacks stay in step and the rest of the run means the same |
| `MustacheProcess.CloseSection` | deps/mustach/mustach.c:416-431 | The code that ends a section: refused exactly for a wrong name or no open section, otherwise loop back or restore, with the same meaning |
| `MustacheProcess.Process` | deps/mustach/mustach.c:230-455 | The loop that jumps back, run with the context stack, ends for every template and gives the verdict and output of the recursive reading; success leaves the context depth as it was |
| `MustacheTree.Meaning` | deps/mustach/mustach.c:252-454 | A pass over a template that spells a section tree writes what the evaluation of the tree gives and ends with the delimiters the tree reading gives, or fails with its code, at any depth, context and delimiters, unless a section whose delimiters change is repeated |
| `MustacheTree.MeaningEach` | deps/mustach/mustach.c:421-425 | The passes over a section body concatenate the evaluations of the body, one for each item, if the body restores its delimiters or there is one item |
| `MustacheTree.ChangedAgain` | deps/mustach/mustach.c:421-425 | A section that ends with other delimiters than it began with is read with those on its next pass |
| `MustacheTree.SteadySettled` | deps/mustach/mustach.c:373-395 | If every section restores its delimiters, no data can repeat one whose delimiters change |
| `MustacheTree.TreeMeaning` | deps/mustach/mustach.c:230-455 | For a template without partial and standalone tags and nested at most 255, whatever delimiters it sets: the error code of the tree reading, or on success the recursive evaluation of the section tree, in every run that repeats no section whose delimiters change |
| `MustacheTree.SteadyMeaning` | deps/mustach/mustach.c:230-455 | If every section of the template restores its delimiters, the same for all data: an error code does not depend on them |
| `MustacheDelimiters.LastingDelimiters` | deps/mustach/mustach.c:373-395 | A template whose section leaves other delimiters behind: accepted if and only if the section runs for at most one item, else refused for an empty tag |
| `MustacheTree.RenderTemplate` | deps/mustach/mustach-cjson.c:210-216 | The same for the program as a whole: machine, wrapper and context together |
| `MustacheScope.FirstMember` | deps/cJSON/cJSON.c:1715-1754 | A member looked up by name is the first one of that name in the object |
| `MustacheScope.NoMember` | deps/cJSON/cJSON.c:1715-1754 | A name no member has, and any name of what is no object, gives nothing |
| `MustacheScope.InnermostFound` | deps/mustach/mustach-cjson.c:64-86 | By index: if the value at a level has the member and no level above it has, the member found is that one |
| `MustacheScope.NoneFound` | deps/mustach/mustach-cjson.c:64-86 | If no level has the member, nothing is found |
| `MustacheScope.SplitWritten` | deps/mustach/mustach-wrap.c:92-129 | A key written with its dots and backslashes escaped is cut off a dotted name and unescaped again |
| `MustacheScope.WalkWritten` | deps/mustach/mustach-wrap.c:180-191 | A written path is followed member by member, in the order of its keys |
| `MustacheScope.SelectWritten` | deps/mustach/mustach-wrap.c:131-226 | A written name selects, in the innermost level that has its first key, what the other keys lead to; a level further out is never asked |
| `MustacheScope.SelectNothing` | deps/mustach/mustach-wrap.c:131-226 | A written name whose first key no level has selects nothing |
| `MustacheScope.Shadows` | deps/mustach/mustach-cjson.c:64-86 | A member of the item just entered shadows that of every level outside |
| `MustacheScope.SeenThrough` | deps/mustach/mustach-cjson.c:64-86 | An item without the member lets the levels outside show through |
| `MustacheScope.EachShowsItsOwn` | deps/mustach/mustach.c:421-425 | A variable in a section over items that have it writes the text of each item in turn, whatever the outer levels hold |
| `MustacheScope.EscapeBack` | deps/mustach/mustach-wrap.c:250-291 | Escaped text holds no `<`, `>` or double quote, and a reader of the four entities gets the text back |
| `MustacheScope.SectionItems` | deps/mustach/mustach-cjson.c:100-136 | A section runs for the items of an array, not at all for a missing name, null or false, and once for anything else |
| `MustacheScope.SectionShows` | deps/mustach/mustach.c:396-415 | What a section and its inverse write for a false value, for another value and for an array |
| `MustacheScope.TextShown` | deps/mustach/mustach-cjson.c:164-182 | The text of a value: nothing for null, a string itself, else a JSON text without blanks from which the value is read back |
| `MustacheLines.AloneHolds` | deps/mustach/mustach.c:360-366 | A tag that may stand alone, with only blanks before it on its line: nothing is written, the blanks are held back |
| `MustacheLines.AloneEnds` | deps/mustach/mustach.c:254-272 | If only blanks follow up to the line break, the whole line leaves nothing and reading goes on behind it |
| `MustacheLines.AloneFails` | deps/mustach/mustach.c:273-280 | If text follows on the line, the blanks held back are written in front of it |
| `MustacheLines.VariableKeeps` | deps/mustach/mustach.c:360-366 | A variable never stands alone: the blanks before it are written |
| `MustacheLines.CommentLine` | deps/mustach/mustach.c:254-372 | A comment alone on its line vanishes with its line, for every rest of the template |
| `MustacheSpelling.MarkedTag` | deps/mustach/mustach.c:296-359 | A tag written with `&`, `^`, `#`, `/` or `>` in front of its name is of that kind, with that name, and ends behind its closing delimiter |
| `MustacheSpelling.PlainTag` | deps/mustach/mustach.c:296-359 | A bare name is an escaped variable |
| `MustacheSpelling.BraceTag` | deps/mustach/mustach.c:316-330 | A name in an extra pair of braces is an unescaped variable, for closing delimiters of braces and others |
| `MustacheSpelling.OtherTags` | deps/mustach/mustach.c:296-315 | What `!` and `=` make of a tag |
| `MustacheSpelling.DelimitersWritten` | deps/mustach/mustach.c:373-395 | A set-delimiter tag gives the two delimiters that are written in it, in that order |
| `MustacheSpelling.SpelledRendered` | deps/mustach/mustach.c:230-455 | The template of any section tree is read back as that tree, and rendered to the evaluation of the tree without an error |
| `MustacheSpelling.StrayClose` | deps/mustach/mustach.c:416-420 | A closing tag at the outermost level is an error, whatever follows |
| `MustacheSpelling.BadSection` | deps/mustach/mustach.c:416-420 | A section closed by another name is a closing error whatever follows, and one that is not closed an unexpected end |
| `MustacheSpelling.RefusedTags` | deps/mustach/mustach.c:316-350 | An empty tag and a brace tag without its closing brace are refused, each with its own error |
| `MustacheSpelling.OpenTag` | deps/mustach/mustach.c:292-295 | A tag without a closing delimiter ends the template too early |
| `ChunkedSpec.Step` | deps/picohttpparser/picohttpparser.c:576-675 | One byte: the size read so far stays below 16 to the number of its digits, so size_t never wraps |
| `ChunkedSpec.Run` | deps/picohttpparser/picohttpparser.c:571-684 | A run takes no more than it is given and decodes no more than it takes; while incomplete it takes everything |
| `ChunkedSpec.DigitFits` | deps/picohttpparser/picohttpparser.c:590-595 | Another hex digit, the sixteenth included, still fits size_t |
| `ChunkedSpec.RunConcat` | deps/picohttpparser/picohttpparser.c:571-684 | A run over two pieces is a run over the first and, if that was incomplete, over the second from its state |
| `ChunkedSpec.SegmentationIndependence` | deps/picohttpparser/picohttpparser.c:571-684 | However a stream is cut (empty pieces included), feeding the pieces gives the same output, state, verdict and undecoded tail as one call on the whole |
| `ChunkedSpec.RunChunk` | deps/picohttpparser/picohttpparser.c:578-650 | A chunk as section 4.1 of RFC 7230 writes it gives its data and leaves the decoder as it found it |
| `ChunkedSpec.RunTrailers` | deps/picohttpparser/picohttpparser.c:651-671 | A trailer section is consumed exactly |
| `ChunkedSpec.DecodeEncode` | deps/picohttpparser/picohttpparser.c:571-684 | Decoding undoes encoding: any chunks, extensions, last chunk, trailer and following bytes give exactly the data of the chunks and stop exactly before those bytes |
| `ChunkedLanguage.HexDigits` | deps/picohttpparser/picohttpparser.c:559-569 | The hex digits of either case in the order of their values, and no other byte |
| `ChunkedLanguage.Refused` | deps/picohttpparser/picohttpparser.c:576-675 | Behind any chunks, a size line without a digit, a seventeenth digit, or a byte other than CR or LF behind the data stops the run with an error; the data of the chunks is decoded and the bytes from the bad one on are left |
| `ChunkedLanguage.ErrorExactly` | deps/picohttpparser/picohttpparser.c:571-684 | A run fails if and only if one of these three causes stands behind some chunks |
| `ChunkedLanguage.MessageRun` | deps/picohttpparser/picohttpparser.c:571-684 | A message as the decoder takes it (a bare LF for a line break, any number of CR before it) gives its data and nothing behind it is taken |
| `ChunkedLanguage.CompleteExactly` | deps/picohttpparser/picohttpparser.c:571-684 | A run completes if and only if such a message stands in front |
| `ChunkedDecoder.MoveDown` | deps/picohttpparser/picohttpparser.c:622-623 | memmove towards lower addresses, overlap included |
| `ChunkedDecoder.Decoder.Advance` | deps/picohttpparser/picohttpparser.c:577-674 | Each stretch the decoder takes at once is the bytes taken one by one |
| `ChunkedDecoder.Decoder.DecodeLoop` | deps/picohttpparser/picohttpparser.c:576-675 | The loop compacts data at the front with dst never beyond src, leaves the rest of the buffer alone, and agrees with the run byte by byte |
| `ChunkedDecoder.Decoder.LoopTurn` | deps/picohttpparser/picohttpparser.c:576-675 | One turn: what is decoded stands at the front, what is not read yet is where it was, and the whole run stays the same |
| `ChunkedDecoder.Decoder.Decode` | deps/picohttpparser/picohttpparser.c:571-684 | After a call the buffer holds the decoded data and then exactly the undecoded tail; return value, size and fields are those of the run |
| `ChunkedDecoder.DecodeMessage` | deps/picohttpparser/picohttpparser.c:571-684 | A buffer that holds an encoded message and any bytes behind it ends up as the data of the chunks and then exactly those bytes |
| `ChunkedDecoder.DecodePieces` | deps/picohttpparser/picohttpparser.c:571-684 | Calls on the pieces of a stream in turn, however it is cut, give the output, verdict and undecoded tail of one run over the whole |
| `HttpGrammar.Token` | deps/picohttpparser/picohttpparser.c:254-289 | A token ends at its delimiter and holds token characters only |
| `HttpGrammar.FindCtl` | deps/picohttpparser/picohttpparser.c:180-188 | The first control character other than a tab |
| `HttpGrammar.Headers` | deps/picohttpparser/picohttpparser.c:310-369 | Header fields end behind where they begin and inside the input |
| `HttpGrammar.ParseRequest` | deps/picohttpparser/picohttpparser.c:371-417 | A request head is not empty and ends inside the input |
| `HttpParser.FindCharFast` | deps/picohttpparser/picohttpparser.c:106-136 | The 16-byte skip never passes a character of the ranges and stops on one when it says so |
| `HttpParser.TokenRangesCover` | deps/picohttpparser/picohttpparser.c:261-269 | What the token ranges let pass is a token character and no delimiter |
| `HttpParser.TargetRangesCover` | deps/picohttpparser/picohttpparser.c:74 | The target ranges are exactly the characters that end or break a target |
| `HttpParser.EolRangesCover` | deps/picohttpparser/picohttpparser.c:144-147 | The line ranges are exactly the control characters that end a line |
| `HttpParser.ParseToken` | deps/picohttpparser/picohttpparser.c:254-289 | With or without the block skip, stops where the byte-at-a-time scan stops, with the same verdict |
| `HttpParser.AdvanceToken` | deps/picohttpparser/picohttpparser.c:71-94 | The same for the request target |
| `HttpParser.FindCtlUnrolled` | deps/picohttpparser/picohttpparser.c:153-188 | The loop unrolled eight times finds the control character that the simple loop finds |
| `HttpParser.FindCtlBlocks` | deps/picohttpparser/picohttpparser.c:143-151 | So does the 16-byte block search |
| `HttpParser.ParseValue` | deps/picohttpparser/picohttpparser.c:351-366 | A field value with its trailing blanks dropped and its line break |
| `HttpParser.ParseHeaders` | deps/picohttpparser/picohttpparser.c:310-369 | The loop over the fields, folded lines and the header limit included |
| `HttpParser.ParseVersion` | deps/picohttpparser/picohttpparser.c:292-308 | The version, looked at only when nine bytes are there |
| `HttpParser.ParseWhole` | deps/picohttpparser/picohttpparser.c:371-417 | Request line and headers, each verdict at the same point |
| `HttpParser.IsComplete` | deps/picohttpparser/picohttpparser.c:206-232 | The check for a blank line from three bytes before the last length |
| `HttpParser.PhrParseRequest` | deps/picohttpparser/picohttpparser.c:419-447 | A call of the parser with the number of bytes tried before |
| `HttpSegments.ParseGrows` | deps/picohttpparser/picohttpparser.c:371-417 | A verdict other than incomplete never changes when more bytes arrive, and an incomplete one can only become a success that ends beyond what was there |
| `HttpSegments.RequestTidy` | deps/picohttpparser/picohttpparser.c:371-417 | No blank line hides inside an accepted head before its end |
| `HttpSegments.BlankLineFound` | deps/picohttpparser/picohttpparser.c:206-232 | Rescanning from three bytes before the last length finds the blank line of an accepted head as soon as it is complete |
| `HttpSegments.NoRefusal` | deps/picohttpparser/picohttpparser.c:206-232 | The quick check never refuses a prefix of an accepted request |
| `HttpSegments.AttemptIndependent` | deps/picohttpparser/picohttpparser.c:419-447 | One attempt in a stream that starts with a head of n bytes: incomplete before n bytes are there, the whole result after |
| `HttpSegments.ReadsIndependent` | src/request.c:465-495 | The attempts after any reads: incomplete until the head is covered, then the result of a one-shot parse |
| `HttpSpelling.TokenChars` | deps/picohttpparser/picohttpparser.c:96-104 | The token characters are those section 3.2.6 of RFC 7230 lists |
| `HttpSpelling.RequestLineTo` | deps/picohttpparser/picohttpparser.c:371-417 | A written request line: the spans of method and target and the digit of the version |
| `HttpSpelling.LinesTo` | deps/picohttpparser/picohttpparser.c:310-369 | Written header fields, folded lines included, each with the spans of its name and of its value without the blanks around it |
| `HttpSpelling.WrittenRead` | deps/picohttpparser/picohttpparser.c:371-417 | A request head spelled as text, whatever follows it, is parsed to its end, and at the spans stand the method, target, version digit, field names and trimmed values that were spelled |
| `HttpSpelling.AcceptedWritten` | deps/picohttpparser/picohttpparser.c:371-417 | Every head that is accepted is such a text, with no more fields than there is room for |
| `HttpRefusals.BadVerb` | deps/picohttpparser/picohttpparser.c:254-289 | A byte in the method that is no token character refuses the head at once |
| `HttpRefusals.BadTarget` | deps/picohttpparser/picohttpparser.c:71-94 | So does a control character in the target |
| `HttpRefusals.BadVersion` | deps/picohttpparser/picohttpparser.c:292-308 | So does another version than HTTP/1 and a digit, once nine bytes are there |
| `HttpRefusals.BadHeader` | deps/picohttpparser/picohttpparser.c:310-369 | So does, behind any fields, an empty or malformed name, a control character in a value or folded line, or one field more than there is room for |
| `RequestReader.Reader.Read` | src/request.c:466-468 | A read appends what the stream delivers next, as far as there is room |
| `RequestReader.AttemptSame` | deps/picohttpparser/picohttpparser.c:419-447 | An attempt depends only on the bytes received so far |
| `RequestReader.AttemptSound` | deps/picohttpparser/picohttpparser.c:419-447 | A success at any point is the result for the whole stream |
| `RequestReader.Reader.BuildRequest` | src/request.c:465-495 | The read loop gets the same request, with the same spans, however the reads are cut; nothing else can come out of a stream that starts with a head that fits, unless the reads stop |
| `RequestReader.ReadWritten` | src/request.c:465-495 | A stream that starts with a written head: whatever the reads deliver, what is got are its method, target, version and fields |
| `JsonGrammar.Utf16Literal` | deps/cJSON/cJSON.c:591-648 | An accepted escape or surrogate pair is a Unicode scalar value and lies before the closing quote |
| `JsonGrammar.ParseString` | deps/cJSON/cJSON.c:696-815 | A string that is read ends inside the text |
| `JsonGrammar.ParseValue` | deps/cJSON/cJSON.c:1201-1255 | A value that is read takes at least a character and no more than there are |
| `JsonUnicode.Utf8Back` | deps/cJSON/cJSON.c:650-687 | What is written for a scalar value is its UTF-8 form: a reader after section 3 of RFC 3629 gets it back and takes nothing more |
| `JsonUnicode.Hex4Back` | deps/cJSON/cJSON.c:563-587 | Any four hex digits, in either case, give the value they spell |
| `JsonUnicode.Utf16TextEscapes` | deps/cJSON/cJSON.c:591-648 | Every scalar value has an escape |
| `JsonUnicode.Utf16Back` | deps/cJSON/cJSON.c:591-648 | Any escape of any scalar value, a surrogate pair above U+FFFF, however its digits are spelled, is read as that value |
| `JsonUnicode.EscapeDecoded` | deps/cJSON/cJSON.c:778-786 | Inside a string such an escape is replaced by the UTF-8 form of its value |
| `JsonString.NextStop` | deps/cJSON/cJSON.c:712-727 | One turn of the measuring scan counts one token |
| `JsonString.RoomStep` | deps/cJSON/cJSON.c:743-792 | Decoding one character or escape never uses up more room than the measuring scan counted for it, even when the two scans disagree on where an escape starts |
| `JsonString.MeasureSound` | deps/cJSON/cJSON.c:708-803 | The measure of any string is enough for its decoded bytes |
| `JsonParser.ParseHex4` | deps/cJSON/cJSON.c:563-587 | The loop over four digits, 0 for an invalid one |
| `JsonParser.WriteUtf8` | deps/cJSON/cJSON.c:650-687 | Writes the UTF-8 form from its last byte to its first and touches nothing else |
| `JsonParser.Utf16LiteralToUtf8` | deps/cJSON/cJSON.c:591-693 | Decodes an escape into the output, or takes nothing and writes nothing |
| `JsonParser.DecodeEscape` | deps/cJSON/cJSON.c:748-791 | The switch over the character behind the backslash |
| `JsonParser.MeasureString` | deps/cJSON/cJSON.c:712-731 | Finds the closing quote and the number of tokens before it |
| `JsonParser.DecodeString` | deps/cJSON/cJSON.c:743-795 | Decodes into a buffer of the measured size: every write is inside it, and the NUL stands behind the decoded bytes |
| `JsonParser.ParseBuffer.SkipWhitespace` | deps/cJSON/cJSON.c:948-967 | Stops on the first character that is not blank, or on the last one |
| `JsonParser.ParseBuffer.ParseString` | deps/cJSON/cJSON.c:696-815 | Gives a fresh NUL-terminated buffer with the string, and moves the offset behind the closing quote |
| `JsonParser.ParseBuffer.CopyNumber` | deps/cJSON/cJSON.c:307-337 | Copies the longest run of number characters, 63 at most |
| `JsonParser.ParseBuffer.ParseNumber` | deps/cJSON/cJSON.c:292-359 | Takes what strtod reads of that run |
| `JsonParser.ParseBuffer.ParseValue` | deps/cJSON/cJSON.c:1201-1255 | Offset, depth and tree move as the grammar says, for every text and depth |
| `JsonParser.ParseBuffer.ParseItem` | deps/cJSON/cJSON.c:1356-1382 | One turn of the loop over the items |
| `JsonParser.ParseBuffer.ParseArray` | deps/cJSON/cJSON.c:1324-1409 | An array, refused when nested too deep; the depth is restored on success |
| `JsonParser.ParseBuffer.ParseMember` | deps/cJSON/cJSON.c:1497-1540 | One turn of the loop over the members: name, colon, value |
| `JsonParser.ParseBuffer.ParseObject` | deps/cJSON/cJSON.c:1466-1566 | An object, refused when nested too deep; the depth is restored on success |
| `JsonParser.Parse` | deps/cJSON/cJSON.c:985-1080 | A C string parsed from its first character that is not blank, a byte order mark skipped |
| `JsonPrinter.CountEscapes` | deps/cJSON/cJSON.c:842-863 | Counts the characters that escaping adds |
| `JsonPrinter.PrintBuffer.Ensure` | deps/cJSON/cJSON.c:413-480 | Reserves the region asked for behind the offset, and all bytes before the offset survive the move to a larger buffer |
| `JsonPrinter.PrintBuffer.UpdateOffset` | deps/cJSON/cJSON.c:484-492 | Looking for the NUL moves the offset exactly to the end of the text so far |
| `JsonPrinter.PrintBuffer.FormatUnicode` | deps/cJSON/cJSON.c:914-918 | snprintf with room for five: three digits and a NUL |
| `JsonPrinter.PrintBuffer.EscapeOne` | deps/cJSON/cJSON.c:883-921 | A character or its escape, inside the reserved region |
| `JsonPrinter.PrintBuffer.PutString` | deps/cJSON/cJSON.c:865-925 | Both ways of copying leave the quoted text and a NUL |
| `JsonPrinter.PrintBuffer.PrintStringPtr` | deps/cJSON/cJSON.c:818-926 | Prints the quoted text behind what was there, for every string |
| `JsonPrinter.PrintBuffer.PrintNumber` | deps/cJSON/cJSON.c:540-559 | Prints the text that printf gave, and moves the offset itself |
| `JsonPrinter.PrintBuffer.PrintValue` | deps/cJSON/cJSON.c:1258-1321 | Every successful print of any tree, formatted or not, leaves what was there followed by the rendering of the tree and a NUL |
| `JsonPrinter.PrintBuffer.PrintArray` | deps/cJSON/cJSON.c:1412-1463 | The same for an array; the depth is restored |
| `JsonPrinter.PrintBuffer.PrintMember` | deps/cJSON/cJSON.c:1593-1648 | One turn of the loop over the members: indentation, name, colon, value, comma |
| `JsonPrinter.PrintBuffer.PrintObject` | deps/cJSON/cJSON.c:1569-1666 | The same for an object; the depth is restored |
| `JsonPrinter.Print` | deps/cJSON/cJSON.c:1084-1141 | A successful print gives a fresh C string that is exactly the rendering of the tree |
| `JsonRoundTrip.StringBack` | deps/cJSON/cJSON.c:696-926 | A printed string without unprintable control characters is read back to its closing quote |
| `JsonRoundTrip.StringCut` | deps/cJSON/cJSON.c:914-918 | A string with another control character is cut: at most the part before it is read back |
| `JsonRoundTrip.StringRoundTrip` | deps/cJSON/cJSON.c:696-926 | A printed string is read back exactly when it is clean |
| `JsonRoundTrip.ItemsBack` | deps/cJSON/cJSON.c:1324-1463 | Printed items are read back exactly when they are clean |
| `JsonRoundTrip.MembersBack` | deps/cJSON/cJSON.c:1466-1666 | Printed members are read back exactly when they are clean |
| `JsonRoundTrip.ValueBack` | deps/cJSON/cJSON.c:1201-1321 | A printed tree inside the nesting limit is read back exactly when it is clean, whatever follows it |
| `JsonRoundTrip.ParsedNest` | deps/cJSON/cJSON.c:1324-1409 | No tree that is parsed is nested deeper than the limit |
| `JsonRoundTrip.RoundTrip` | deps/cJSON/cJSON.c:984-1152 | Parsing what was printed gives the tree back if and only if all its strings are clean and it is nested at most 1000 deep, formatted or not |
| `JsonRoundTrip.ControlCharacterLost` | deps/cJSON/cJSON.c:914-918 | The string of U+0001 alone is not read back as it was printed |
| `JsonSpelling.HexDigits` | deps/cJSON/cJSON.c:563-587 | The hex digits of either case in the order of their values, and no other character |
| `JsonSpelling.ShortEscapes` | deps/cJSON/cJSON.c:753-776 | The eight short escapes of section 7 of RFC 8259, the slash included, and the code points they stand for; no other letter is one |
| `JsonSpelling.SpelledString` | deps/cJSON/cJSON.c:696-803 | A string spelled in any legal way, each character raw, by its short escape or by any escape of its code, is read as its characters |
| `JsonSpelling.WholeString` | deps/cJSON/cJSON.c:794-800 | Nothing of it is lost if no character is U+0000 |
| `JsonSpelling.StrWritten` | deps/cJSON/cJSON.c:696-803 | Every string that is read is spelled like that, unless a `\u` in it stands before something else than four hex digits |
| `JsonLayout.NumberChars` | deps/cJSON/cJSON.c:307-337 | The characters of a number, and those that may start one |
| `JsonLayout.ItemsRead` | deps/cJSON/cJSON.c:1324-1409 | The items of an array are read whatever the blanks around them |
| `JsonLayout.NameRead` | deps/cJSON/cJSON.c:1512-1532 | A name is read whatever the blanks around it and its colon |
| `JsonLayout.EntriesRead` | deps/cJSON/cJSON.c:1466-1566 | The members of an object are read whatever the blanks around their parts |
| `JsonLayout.ValueRead` | deps/cJSON/cJSON.c:1201-1255 | A spelled value inside the nesting limit is read as its tree, up to its last character, whatever follows |
| `JsonLayout.DeepTree` | deps/cJSON/cJSON.c:1329-1332 | A tree is nested as deep as its text opens brackets and braces |
| `JsonLayout.SpelledParsed` | deps/cJSON/cJSON.c:985-1080 | A text of perhaps a byte order mark, blanks and a spelled value gives the tree that is spelled if and only if no more than a thousand brackets and braces are open at once |
| `JsonAccepted.ValueWritten` | deps/cJSON/cJSON.c:1201-1255 | Every value that is read is a spelled value, so nothing else is accepted |
| `JsonAccepted.ParsedSpelled` | deps/cJSON/cJSON.c:985-1080 | Every text that is parsed is spelled like that, and the tree is the one that is spelled |
| `JsonCompact.Compact` | deps/cJSON/cJSON.c:1258-1321 | Both printed forms without their blanks outside strings are the unformatted one, which has none |
| `JsonCompact.FormattedArray` | deps/cJSON/cJSON.c:1441-1455 | The formatted array: a blank behind the comma |
| `JsonCompact.FormattedObject` | deps/cJSON/cJSON.c:1583-1660 | The formatted object: lines, tabs for the depth, a tab behind the colon |
| `JsonService.PrintAndParse` | deps/cJSON/cJSON.c:1074-1152 | The same for the printer and the parser as they run |
| `JsonService.ParseSpelled` | deps/cJSON/cJSON.c:985-1080 | The parser as it runs gives the tree of a spelled text exactly when it is not nested too deep |
| `JsonList.AddItemToArray` | deps/cJSON/cJSON.c:1787-1812 | Appends: the result is a well-formed list if and only if the item was not a child yet and the list was empty or the item had no next sibling |
| `JsonList.AddStillLinked` | deps/cJSON/cJSON.c:1804-1809 | A node that is still linked in another array breaks the list it is added to |
| `JsonList.GetArrayItem` | deps/cJSON/cJSON.c:1690-1704 | The child at an index, or none |
| `JsonList.DetachItemViaPointer` | deps/cJSON/cJSON.c:2006-2033 | Takes exactly that child out; the rest is a well-formed list and the child points nowhere; without an item nothing happens |
| `JsonList.DetachItemFromArray` | deps/cJSON/cJSON.c:2036-2043 | The same by index, nothing for an index without a child |
| `JsonList.InsertItemInArray` | deps/cJSON/cJSON.c:2076-2097 | Inserts at the index, appends past the end, refuses a negative index |
| `JsonList.ReplaceItemViaPointer` | deps/cJSON/cJSON.c:2100-2139 | Puts the replacement in the place of the child, head, tail and only child included; without an item it is refused |
| `JsonList.ReplaceItemInArray` | deps/cJSON/cJSON.c:2142-2149 | The same by index |
| `JsonList.WithoutLinked` | deps/cJSON/cJSON.c:2006-2033 | The pointers that detaching leaves are those of the list without the child |
| `JsonList.InsertedLinked` | deps/cJSON/cJSON.c:2076-2097 | The pointers that inserting leaves are those of the longer list |
| `JsonList.ReplacedLinked` | deps/cJSON/cJSON.c:2100-2139 | The pointers that replacing leaves are those of the list with the replacement |
| `JsonList.DetachAndInsert` | deps/cJSON/cJSON.c:2006-2097 | Taking a child out and inserting it where it was gives the same well-formed list, pointers included |
| `JsonList.AppliedMember` | deps/cJSON/cJSON.c:1787-2149 | Who is a child after an operation: those before, without the one that leaves and with the one that enters |
| `JsonList.Run` | deps/cJSON/cJSON.c:1787-2149 | Any run of appending, inserting and replacing by nodes that are no children at that moment (fresh ones and ones that left the list before) and of detaching and replacing children keeps the list well formed, head to tail pointer included, and acts on it as on the sequence of children |
| `Dispatch.ActsKeep` | src/router.c:130-150 | Whatever a handler does, a response that was written stays the only one and no call is undone |
| `Dispatch.ErrorHandlersKeep` | src/router.c:88-99 | The same for error handlers; with an error set, the app's default one has sent a response when they are done |
| `Dispatch.MiddlewareKeeps` | src/router.c:130-150 | The same for a chain of middleware from any index |
| `Dispatch.ParamHandlersKeep` | src/router.c:101-128 | The same for a chain of param handlers |
| `Dispatch.HandleKeeps` | src/router.c:360-388 | The same for a whole tree of routers |
| `Dispatch.ExactlyOneResponse` | src/router.c:360-388 | For every router tree and every finite behaviour of the handlers exactly one response is written when the app's router returns; if it is a page, it is that of the error the app's default error handler was given when it first ran; error handlers the app added behind that one are never called, routes run without an error and error handlers with one |
| `Dispatch.MiddlewarePasses` | src/router.c:130-150 | Handlers that only call next run once each, in the order of registration, before the route |
| `Dispatch.TreePasses` | src/router.c:360-388 | For a mounted tree: own handlers before mounted routers, every matching route is called, and the first of them answers |
| `Dispatch.AppPasses` | src/router.c:360-388 | For the app: the same, and without a matching route the answer is the 404 page of the default error handler |
| `Failures.ErrorHandlersPass` | src/router.c:88-99 | The error handlers of a mounted router are called in order, each through the next of the one before, with the error that is set |
| `Failures.ErrorHandlerClears` | src/router.c:88-99 | An error handler that clears the error ends the chain there |
| `Failures.MiddlewareFails` | src/router.c:130-150 | A middleware that sets an error and returns: the error handlers of its router are called with that error, which stays in force or, in the app's own router, is answered with its page |
| `Failures.TreeFails` | src/router.c:360-388 | The same anywhere in a tree of routers, behind any handlers that pass the request on |
| `Failures.FailureAnswered` | src/express.c:88-92 | The app then answers with the page of exactly that error, after the error handlers of the failing router |
| `Failures.FirstActs` | src/router.c:130-150 | The answer when the first middleware sends a text, a file, or fails |
| `Exchange.Exchange.Send` | src/response.c:124-131 | Only the first response is written |
| `Exchange.Exchange.SendFile` | src/response.c:159-193 | Only the first response is written; a missing file sets the 404 error instead |
| `Exchange.Exchange.DoErrorHandlers` | src/router.c:88-99 | The chain of error handlers acts as specified |
| `Exchange.Exchange.DoParamHandlers` | src/router.c:101-128 | The chain of param handlers acts as specified, those without a key passed over |
| `Exchange.Exchange.DoMiddleware` | src/router.c:130-150 | The chain of middleware acts as specified, however often next is called |
| `Exchange.Exchange.DoRoute` | src/router.c:365-373 | The matching route is called unless an error is set |
| `Exchange.Exchange.DoHandle` | src/router.c:360-388 | The handler block acts as specified on the response's fields |
| `Exchange.Serve` | src/express.c:65-92 | A request served by the app ends with one response, and if that is a page, with the page of the error its default error handler was first given |
| `Mounting.Router.constructor` | src/router.c:225-246 | A new router has no base path; the app's has the empty one |
| `Mounting.Router.AddRouteHandler` | src/router.c:248-268 | A route registered before mounting waits for its base path, one of the app has it at once |
| `Mounting.Router.MountRoutes` | src/router.c:338-345 | Every route gets the base path, and is a pattern if its path or the base path has a parameter |
| `Mounting.Router.MountTo` | src/router.c:323-350 | Mounting on a router with a base path settles this router and everything mounted on it, and disturbs nothing else |
| `Mounting.Router.UseRouter` | src/router.c:352-358 | After every call each router's base path is again what its parent's base path and its mount path give |
| `Mounting.PathsFollow` | src/router.c:323-336 | Base paths that follow from the parents' are those that the links from the app give, and none where no link leads |
| `Mounting.OrderIndependent` | src/router.c:352-358 | Calls of useRouter in any other order leave the same links |
| `Mounting.JoinIsConcat` | src/router.c:323-336 | A mount path joined to the concatenation of others is their concatenation, a base path of "/" counting as empty |
| `Mounting.PathOfChain` | src/router.c:323-336 | A router at the end of a chain of useRouter calls from the app has the concatenation of their mount paths, the app's first |
| `Mounting.ChainOfPath` | src/router.c:323-336 | A router that has a base path is the app's or stands at the end of such a chain |
| `Mounting.Mount` | src/router.c:323-358 | Any calls that build a tree leave the router at the end of every chain of mounts with the concatenation of the mount paths from the app down, and its routes with that path in front of their own; routers that cannot be reached keep none |
| `ListPool.CreatedSound` | src/db/adapter.c:22-30 | A new pool has size permits and size + 1 connections |
| `ListPool.PopFinds` | src/db/adapter.c:34-38 | A borrower past the semaphore finds at least two connections in the list |
| `ListPool.StepSound` | src/db/adapter.c:32-51 | Every step of any borrower keeps the conservation of permits and connections, and none follows a NULL head |
| `ListPool.PoolSafe` | src/db/adapter.c:5-51 | In every interleaving: no connection has two holders or is held and free, the list has no duplicate, and when all are done every permit and connection is back |
| `ListPool.Progress` | src/db/adapter.c:32-51 | While no permit is left, some borrower can take a step |
| `ListPool.LastInFirstOut` | src/db/adapter.c:34-49 | The connection that was given back last is the first to be lent again |
| `ListPoolQueue.MakeConnections` | src/db/adapter.c:24-29 | The loop links size + 1 fresh connections into a list that ends |
| `ListPoolQueue.Pool.Wait` | src/db/adapter.c:34 | Waiting takes a permit |
| `ListPoolQueue.Pool.Pop` | src/db/adapter.c:35-38 | Pops the head of the linked list, which is never NULL |
| `ListPoolQueue.Pool.Push` | src/db/adapter.c:46-49 | Pushes a held connection back in front; the list stays acyclic and apart from what is held |
| `ListPoolQueue.Pool.Signal` | src/db/adapter.c:50 | Signalling gives the permit back |
| `FlagPool.TakeFinds` | src/middleware/postgres-middleware.c:929-937 | A request past the semaphore finds an unused slot |
| `FlagPool.StepSound` | src/middleware/postgres-middleware.c:921-957 | Every step keeps the number of set flags equal to the number of holders, one slot each, and permits accounted for |
| `FlagPool.PoolSafe` | src/middleware/postgres-middleware.c:912-958 | In every interleaving: set flags are as many as holders, no slot has two, a slot is always found, and when all requests are freed every flag is clear and every permit back |
| `FlagPoolQueue.Pool.Take` | src/middleware/postgres-middleware.c:929-937 | The search sets the first clear flag |
| `FlagPoolQueue.Pool.Clear` | src/middleware/postgres-middleware.c:949-951 | The cleanup clears the flag of its slot only |
| `FlagPoolQueue.Visit.UsePool` | src/middleware/postgres-middleware.c:921-955 | The middleware takes a slot and registers one cleanup for it |
| `FlagPoolQueue.Visit.Free` | src/request.c:578-584 | Running the registered cleanups once each gives back every slot of the request and nothing else |
| `QueryText.ReplacedPlaceholders` | src/string/string.c:360-383 | Every `$` of a condition is given the same number |
| `QueryText.ReplaceFits` | src/string/string.c:360-383 | The buffer that replace allocates holds the result and its NUL if and only if there is no more than one `$` |
| `QueryText.JoinedPlaceholders` | src/middleware/postgres-middleware.c:244-260 | Joining the conditions neither loses nor makes placeholders |
| `QueryText.BuiltNumbers` | src/middleware/postgres-middleware.c:69-191 | The numbers in the conditions are those the calls wrote |
| `QueryText.PlaceholdersExact` | src/middleware/postgres-middleware.c:69-191 | After any calls the numbers 1 to paramValueCount stand in the WHERE and HAVING text exactly once each, and no others, if and only if no condition holds more than one `$` |
| `QueryText.ValueOfPlaceholder` | src/middleware/postgres-middleware.c:88-91 | The value at place n - 1 is the one given for $n |
| `QueryText.TwoInOneCondition` | src/middleware/postgres-middleware.c:72-78 | Two `$` in one condition: both become $1 and the second value has no placeholder |
| `QueryBuilder.PgParamCount` | src/middleware/postgres-middleware.c:38-46 | Counts the `$` |
| `QueryBuilder.Replace` | src/string/string.c:360-383 | The copying loop, every write inside the new string |
| `QueryBuilder.QueryBuilder.Where` | src/middleware/postgres-middleware.c:69-96 | Adds the numbered condition and its values, in that order |
| `QueryBuilder.QueryBuilder.WhereIn` | src/middleware/postgres-middleware.c:98-123 | Adds a list of placeholders numbered on from the values so far, and the values |
| `QueryBuilder.QueryBuilder.Having` | src/middleware/postgres-middleware.c:165-191 | The same as where for the HAVING part |
| `QueryBuilder.QueryBuilder.ToSql` | src/middleware/postgres-middleware.c:198-334 | The statement is its parts in order, the WHERE and HAVING text being the joined conditions |
| `QueryBuilder.Run` | src/middleware/postgres-middleware.c:69-334 | Any calls within the arrays made on a builder: in the text of the statement each number from 1 to the number of values stands exactly once, and the value at the place of a number is the one given with it |
| `QuerySpelling.ReplacedOne` | src/string/string.c:360-383 | The number stands in the place of the dollar sign and the rest of the condition is kept |
| `QuerySpelling.WhereStands` | src/middleware/postgres-middleware.c:244-260 | Each condition stands in its place in the WHERE text, behind " WHERE " or " AND ", and there is nothing else in it |
| `QuerySpelling.HavingStands` | src/middleware/postgres-middleware.c:272-288 | The same for HAVING |
| `QuerySpelling.InListJoined` | src/middleware/postgres-middleware.c:98-123 | The list of IN and NOT IN is the placeholders numbered on, with commas between |
| `QuerySpelling.EveryPart` | src/middleware/postgres-middleware.c:198-334 | The text of a statement with every part and two conditions, columns and orders, word for word |

## Left out

- MustacheProcess.Process: stops with a verdict of its own at an enabled partial tag, because partials may recurse without bound; writing to the file never fails.
- MustacheTree.TreeMeaning: does not cover partial tags, tags that may stand alone with only blanks before them on their line, nor nesting beyond 255; `MustacheProcess.Process` covers all but enabled partials against the recursive reading. It says nothing of runs that repeat a section whose delimiters change, which `MustacheTree.ChangedAgain` describes pass by pass.
- MustacheProcess.GetTag: when closing delimiters leave a tag no first character to drop, the length wraps round and the C code reads on outside the template; the model refuses such a tag as too long at once.
- MustacheWrap.SelectName: only the flags the framework uses (none), so no comparison, JSON pointer, object iteration, colon or empty tag extension.
- HttpParser.FindCharFast: the SSE4.2 comparison is modelled as the search for the first character of a block of sixteen in the ranges.
- RequestReader.Reader.BuildRequest: no timeouts, no retries of a read that fails, and nothing of the body after the head.
- HTTP responses and header-only parsing use the same field parser and are not modelled.
- ChunkedDecoder.Decoder.Decode: the helper methods that look at a stretch of input take it as a sequence; only the compaction works on the array.
- JsonParser.ParseBuffer.ParseValue: says nothing about the offset and depth after a failure, which only locate the error; children are collected in a sequence, `JsonList` models the links.
- JsonParser.ParseBuffer.ParseKey: at the end of a buffer that is not NUL-terminated the C code looks one byte behind it for a quote; the model finds none there.
- MustacheSpelling.SpelledRendered: the delimiters are braces throughout, no tag that may stand alone has only blanks before it on its line, and no text or name holds a delimiter.
- JsonAccepted.ParsedSpelled: takes for granted that `strtod` reads a number it has read alone as well; a string with a broken `\u` is only said to be one that the string reader takes.
- JsonRoundTrip.RoundTrip: number formatting and `strtod` are libc's: a number is its printed text, and the tree's numbers are those whose text `strtod` reads whole.
- JsonPrinter.PrintBuffer.PrintValue: raw items, members without a name and the number formats of `print_number` are not modelled; the buffer's `length` is the length of its array.
- JsonList.DetachItemViaPointer: only for an item that is a child, as the C code assumes, or NULL; freeing the replaced or deleted item is not modelled.
- JsonList.InsertItemInArray: only for an item that is no child yet and not the array itself; inserting such an item in front of a child ties the list to itself.
- Dispatch.ExactlyOneResponse: the response helpers are installed before any handler runs; a handler that keeps `next` and calls it after the app's router has returned is not modelled.
- Dispatch.Handle: whether a router's base path and a route match the request is given, because it rests on POSIX regular expressions, and handlers do not change the request's path.
- Mounting.Mount: a router is mounted once, and routes are registered before the router is mounted; the C code never gives a base path to routes that are registered later.
- ListPoolQueue.Pool.Pop: `PQstatus` and `PQreset`, the queries run on a connection and freeing the pool.
- FlagPoolQueue.Visit.Free: the cleanups of other middleware.
- QueryBuilder.QueryBuilder.Where: only for conditions with at most one `$` and within the arrays of 100, since beyond that the C code writes behind its buffers; `QueryText` numbers any condition.
- QueryBuilder.QueryBuilder.ToSql: `order`, `limit`, `offset`, `group`, `joins`, `distinct` and `select` only store their argument.
- `cJSON_Minify`, `cJSON_SetValuestring`, references, comparison and duplication of cJSON trees.
- Sockets, epoll, timers, dispatch queues as such, sessions, JWT, static files, the JSON:API, model and resource layers, cookies and header text: system calls, other libraries, or string formatting with little to prove.
