# TRACK parameter reader and accessors (VDrift) in Dafny

This project models the logic in `include/track.h` of VDrift's track
subsystem: the tolerant parameter reader `TRACK::GetParam`, and the small
inline accessors and state updates of `TRACK`.

`GetParam` reads one whitespace-delimited token from the track's parameter
file. A token that starts with `#` is a comment: the rest of its line is
discarded with `ignore(1024, '\n')` and the next token is read. The token
that survives goes to a converter (`sstr >> output`). The call returns
false in three cases:

- the stream is not good on entry;
- the first read yields nothing;
- the loop ends on a comment and the stream is no longer good.

Otherwise it returns true.

The model has four files.

- `streams.dfy` (module `Streams`) models the `std::istream` operations
  `GetParam` uses. The value is `StreamState`: the contents, a cursor and
  the eofbit and failbit flags. The functions `Extracted`, `Ignored` and
  `StreamState.Good` give the ISO/IEC 14882 semantics of `is >> str`
  ([string.io] with the sentry of [istream::sentry]), of
  `is.ignore(n, delim)` ([istream.unformatted]) and of `good()`. The class
  `IStream` holds the same state as mutable fields. Its methods `Extract`
  and `Ignore` run the character loops and are proved equal to those
  functions.
- `track_param.dfy` (module `TrackParam`) has `SkipComments`, the
  comment-skipping loop, and `GetParamOutcome`, the whole call as a
  function of the stream. The lemmas state the properties of a call.
- `track.dfy` (module `Tracks`) has the class `Track`. It holds the fields
  the inline members use: the start positions, the lap sequence of patch
  ids, the direction, the loaded flag and the optional racing-line node.
  Its members are those accessors, `SetRacingLineVisibility`, `Unload`,
  and `GetParam`. `GetParam` is the imperative `while` loop over an
  `IStream`, proved to end in the state `GetParamOutcome` gives.
- `track_param_examples.dfy` (module `TrackParamExamples`) traces three
  successive calls over the file `# skybox\nvertical 1\n`.

Semantics followed where a plain description could mislead:

- **The sentry leaves the string alone.** Under the standard, `is >> str`
  extracts nothing and leaves `str` untouched when its sentry fails. The
  sentry fails when the stream is not good, or when skipping whitespace
  hits the end of input. In that second case it also sets eofbit and
  failbit. So inside the loop (`track.h:212`), a read that fails keeps the
  comment in `instr`. A comment followed only by whitespace therefore
  makes the call return false at `track.h:215-216`. It does not fall
  through to `return true` with an empty token.
  `TrailingCommentFails` and `NoEmptyConversion` prove this: the
  converter never receives an empty token. The tests `!instr.empty()` at
  lines 209 and 215 are modelled as written. They are just never the
  deciding condition.
- **The order of checks in `ignore`.** `ignore(1024, '\n')` follows the
  standard's order on each step. First, stop when 1024 characters have
  been extracted. Next, set eofbit at the end of input. Last, extract one
  character, and stop when it is the delimiter. `ignore` never sets
  failbit for extracting nothing.
- **Whitespace.** This is `isspace` in the classic "C" locale: space,
  `\t`, `\n`, `\v`, `\f` and `\r`.
- **Integer widths.** `GetSectors` converts `size_t` to `unsigned int`,
  which reduces modulo 2^32. `GetNumStartPositions` converts `size_t` to
  `int`, which wraps in two's complement. Both are written out.

## Model

| member | source | states |
|---|---|---|
| `Streams.Extracted` | include/track.h:205 | `f >> instr`. A stream that is not good gets failbit, and the string is untouched. The string changes only to a word. The cursor never moves back, and it stays good only if it moved forward |
| `Streams.ExtractedOnGood` | include/track.h:205 | On a good stream, input that is only whitespace is consumed, eofbit and failbit are set, and the string is untouched. Otherwise it reads a word: the whitespace before it is consumed, it is the maximal non-whitespace run, the cursor stops at whitespace or the end, and eofbit is set exactly when it reaches the end |
| `Streams.IgnoreFrom` | include/track.h:211 | The extraction loop of `ignore(n, delim)`. It discards at most `n` characters forward and never sets failbit |
| `Streams.IgnoreFromStops` | include/track.h:211 | Where that loop stops. No discarded character before the last is the delimiter. Within budget and before the end, it stops right after the delimiter. It sets eofbit exactly when it reaches the end with budget left and no delimiter taken |
| `Streams.IgnoreThroughDelimiter` | include/track.h:211 | When the first delimiter lies within budget, the loop discards exactly through it and sets no flag |
| `Streams.Ignored` | include/track.h:211 | `f.ignore(1024, '\n')`. The cursor moves forward by at most `n`. Only failbit is set when the stream is not good; otherwise this is `IgnoreFrom` |
| `Streams.IStream.Good` | include/track.h:201 | `f.good()`: true exactly when neither eofbit nor failbit is set |
| `Streams.IStream.Extract` | include/track.h:205 | The character loops of `f >> instr` on the mutable stream. They end in exactly the state and string `Extracted` gives |
| `Streams.IStream.Ignore` | include/track.h:211 | The character loop of `f.ignore(n, delim)` on the mutable stream. It ends in exactly the state `Ignored` gives |
| `TrackParam.SkipComments` | include/track.h:209-213 | The comment-skipping loop. It runs exactly when `instr` is a comment and the stream is good. Where it stops, the loop condition is false. Every token it skips is a comment, the first being the entry token. It ends on the entry token or on a word. The contents are unchanged and the cursor only moves forward |
| `TrackParam.GetParamOutcome` | include/track.h:196-221 | The whole call. It returns true exactly when the converter is called. On true, `output` becomes the conversion of the final token. On false, `output` is unchanged. The contents stay the same and the cursor only moves forward |
| `TrackParam.NotGoodOnEntry` | include/track.h:201-202 | A stream that is not good on entry: false, with the stream and `output` unchanged and no conversion |
| `TrackParam.OnlySpaceLeft` | include/track.h:204-207 | Only whitespace left: false, with `output` unchanged. The stream is at its end with eofbit and failbit set |
| `TrackParam.FirstTokenEmpty` | include/track.h:204-207 | On a good stream, the first token is empty exactly when only whitespace remains |
| `TrackParam.FalseExactly` | include/track.h:201-220 | The call returns false if and only if one of three holds: the stream is not good on entry; only whitespace remains; or the loop ends on a comment with the stream no longer good |
| `TrackParam.ConvertsNonComment` | include/track.h:209-220 | On success, the converter receives a word (non-empty, with no whitespace) whose first character is not `#`, and `output` is its conversion |
| `TrackParam.SkippedAreComments` | include/track.h:209-213 | Every token a call skips is a comment. Where those tokens lie in the input is stated by `SkippedInInput` |
| `TrackParam.RoundUnfolds` | include/track.h:209-213 | One round of the loop: its cursor and comment come first, followed by those of the later rounds, and the loop ends where the later rounds end |
| `TrackParam.CursorsIncrease` | include/track.h:209-213 | One loop cursor per skipped comment. The first is the entry cursor, and they strictly increase |
| `TrackParam.RoundReadsWord` | include/track.h:211-212 | A round whose read succeeds moves the cursor forward. The new `instr` is the word right after the discarded line, with only whitespace between them |
| `TrackParam.SkippedAreReadWords` | include/track.h:209-213 | For any number of rounds, each skipped comment after the first is the word read by the round before it, right after the line that round discarded |
| `TrackParam.LoopEndsWithRound` | include/track.h:209-213 | The loop ends in exactly the stream and `instr` that one round from its last cursor, on its last skipped comment, leaves |
| `TrackParam.FirstWordAtCursor` | include/track.h:204-205 | A non-empty first token is the first word of the input: only whitespace lies before it, and the cursor stands right after it |
| `TrackParam.CallFollowsLoop` | include/track.h:209-219 | Once the loop is entered, the call skips what the loop skips, stops where the loop stops, and on success converts the loop's final token |
| `TrackParam.SkippedInInput` | include/track.h:204-219 | A call consumes, in order, the comments it skips with the rest of their lines, plus at most one token after them. The first comment is the first word of the input. Each later one is the word right after the line the previous one starts. The cursors strictly increase. The call stops, with the token it converts, where one more round from the last comment's cursor stops |
| `TrackParam.StopsAfterToken` | include/track.h:205-212 | The contents are unchanged and the cursor only moves forward. On success, the converted word lies just before the final cursor, and the cursor sits at whitespace or the end |
| `TrackParam.LastReadIsWordAtCursor` | include/track.h:209-213 | When the loop ran and stopped on a non-comment, that token is the word just before the cursor |
| `TrackParam.ReadEndingLoop` | include/track.h:212 | A read in the loop that replaces a comment with a non-comment succeeded, and left the cursor right after the word it read |
| `TrackParam.NoCommentFirstWord` | include/track.h:204-220 | When the first word is not a comment, the call converts that word and skips nothing. Only whitespace precedes the word |
| `TrackParam.TrailingCommentFails` | include/track.h:209-216 | A comment followed only by whitespace makes the call return false, with `output` unchanged |
| `TrackParam.NoEmptyConversion` | include/track.h:215-219 | The converter is never given an empty token |
| `TrackParam.LineDiscarded` | include/track.h:211 | With a newline within 1024 characters and none before it, `ignore` discards exactly through that newline |
| `TrackParam.CommentLineThenWord` | include/track.h:209-219 | A comment whose line ends within the limit, followed by a non-comment word: the call skips exactly that comment and converts the word |
| `TrackParamExamples.SampleKey` | include/track.h:196-221 | On `# skybox\nvertical 1\n`, the first call skips the comment and converts `vertical` |
| `TrackParamExamples.SampleValue` | include/track.h:196-221 | The next call, from where the first stopped, converts `1` |
| `TrackParamExamples.SampleExhausted` | include/track.h:201-207 | The call after that finds only the final newline. It returns false with `output` unchanged, and the stream ends with eofbit and failbit set |
| `Tracks.Track.GetParam` | include/track.h:196-221 | The imperative reader on an `IStream`. It returns exactly the flag and `output` that `GetParamOutcome` gives, and leaves the stream in the state `GetParamOutcome` gives |
| `Tracks.ToUInt32` | include/track.h:87-90 | `size_t` to `unsigned int`: the result is no larger than the input, equals it when it fits, and agrees with it modulo 2^32 |
| `Tracks.ToInt32` | include/track.h:65-68 | `size_t` to `int`: the result equals the input when it fits, and agrees with it modulo 2^32 |
| `Tracks.Track.GetNumStartPositions` | include/track.h:65-68 | The number of start positions, converted to `int` |
| `Tracks.Track.Loaded` | include/track.h:70-73 | True exactly when the loaded flag is set |
| `Tracks.Track.GetSectors` | include/track.h:87-90 | The length of the lap sequence as an `unsigned int`. It never exceeds the length, equals it below 2^32, and agrees with it modulo 2^32 |
| `Tracks.Track.GetLapSequence` | include/track.h:92-96 | Requires `sector < lapsequence.size()` (the assert at 94). Returns the patch at that position, which is in the lap sequence |
| `Tracks.SectorsAreIndexable` | include/track.h:87-96 | Every sector below `GetSectors()` meets the precondition of `GetLapSequence` and gives the patch at that index |
| `Tracks.Track.IsReversed` | include/track.h:110-113 | True exactly when the direction is reverse, and false exactly when it is forward |
| `Tracks.Track.SetRacingLineVisibility` | include/track.h:98-102 | The track is unchanged. With no racing-line node nothing may change; otherwise the node's child visibility becomes `newvis` |
| `Tracks.Track.Unload` | include/track.h:104-108 | The track ends in exactly what `Clear` makes of its fields as they were on entry, with only the racing-line node set to null first |
| `Tracks.Track.Clear` | include/track.h:37 | Only declared in the header, so its effect on the track's fields is the parameter `clear`: the fields end as `clear` of their values on entry |
| `Tracks.SceneNode.SetChildVisibility` | include/track.h:101 | Stands for `SCENENODE::SetChildVisibility`, reduced to one flag on the node: afterwards the node's child visibility is `newvis` |
| `Streams.Opened` | include/track.h:199 | Stands for the `std::ifstream` handed to `GetParam`, freshly opened on the file's contents: good, cursor at the start |

## Left out

- Tracks.Track.Clear: its body (`track.h:37`) is not part of this model, so its effect is the parameter `clear`, a function of the track's fields. The frame `modifies this` is assumed: if the real `Clear` also changes other objects, such as scene nodes it unregisters, this model does not capture it. `Tracks.Track.Unload` inherits both.
- Tracks.Track.Unload: since `Clear` is a parameter, its contract says nothing about the fields after the call beyond what `clear` makes of them.
- `Load`, `DeferredLoad`, `ContinueDeferredLoad`, `DeferredLoadTotalObjects`, `GetStart`, `CastRay`, `LoadParameters`, `LoadSurfaces`, `LoadObjects`, `BeginObjectLoad`, `ContinueObjectLoad`, `LoadRoads`, `LoadLapSequence`, `Reverse`, `CreateRacingLines`, the constructor and destructor: `track.h` only declares them, and their definitions are not part of this model.
- `GetRoadList`, `GetRoadSurface`, `GetTrackObjects` and `ClearRoads`: they return or clear the roads, the surface and the object lists. The element types (`ROADSTRIP`, `TRACKSURFACE`, `TRACK_OBJECT`) are not part of this model.
- The conversion `sstr >> output` (`track.h:218-219`) is the parameter `convert`, a function of the old `output` and the token. Numeric parsing, including floating point, is not modelled. `GetParam` returns true whatever the conversion does, as the source does.
- The stream contents are one `char` per byte of the file, as a C++ `char` is a byte. Both `ignore(1024, '\n')` and the whitespace test count and classify bytes, so a UTF-8 file must appear here byte by byte, not decoded into Unicode scalars.
- Stream details the reader cannot observe: badbit, `width()` (taken as 0), locales other than "C", tied streams. Opening the file is replaced by a stream over given contents.
- Tracks.Track.SetRacingLineVisibility: models `SCENENODE::SetChildVisibility` as setting one flag on the node. How that flag reaches the node's descendants is part of the scene graph, which is not modelled.
- Geometry (`BEZIER`, `AABB_SPACE_PARTITIONING_NODE`, `TRACKSURFACE`, the k1999 racing line) is reduced to opaque patch ids. Start positions are value pairs that nothing computes with. The model and texture libraries, `SCENENODE`/`TEXTURE_GL` handles and the info and error streams are rendering and asset input/output.
- `include/widget_image.h` (user-interface drawable setup) and `src/camera_fixed.cpp` (floating-point camera rotation) are not part of this model.
