# Lyrics and chord extraction service: job registry and extraction engines

The service takes uploaded HTML files and runs one of two extraction engines,
`lyrics` or `chord`, over each of them in a background job. It reports each job's
progress, lists and deletes jobs, and keeps the job registry in a snapshot file
across restarts. This project models the part of `app.js` that holds the logic:

- `text.dfy` (module `Text`): the string operations the engines rely on.
  - ASCII case folding, which is all that the `/i` flag does for the ASCII patterns used.
  - `includes`.
  - The JavaScript whitespace and line-terminator classes.
  - `trim`.
  - `split("\n")`, `split(/\r?\n/)` and `join("\n")`.
- `engines.dfy` (module `Engines`):
  - The engine registry.
  - The two line pipelines and their "not found" sentinels.
  - Slicing a body from its first intro line.
  - The `<h1>` title hint.
  - The `parseTitleArtist` regex, as an explicit leftmost/lazy matcher.
  - `callApi`'s translation of the service reply.
  - `processContent`.
  - `processFile`'s engine lookup and error wrapping.
  - The output file name.
- `percent.dfy` (module `Percent`): the progress percentage.
- `jobs.dfy` (module `Jobs`): the job record and the `processRequests` registry.
  - The registry is a `JobStore` class. It holds the `Map`'s insertion order, the map from id to record, and the snapshot file's contents.
  - Its methods are the upload handler, the `processFiles` loop, the progress and list routes, the delete route, `saveRequests` and `loadRequests`.
  - A class invariant (`RegistryValid`) ties each record's counters, entries and status together. Every method preserves it.

Values from outside the program become parameters:
- the engines' `cleanText`;
- the title/artist service's reply;
- each file's processing outcome;
- the outcome of writing the CSV file;
- the generated request id;
- the clock.

The browser page labels progress as `processed/total files` (public/js/main.js:58 and 262), which reads as the number of files handled. In the code, a failed file only appends to `errors` (app.js:321-326), so `processed` counts successful files only. The model follows the code: `Jobs.AfterFilesContents` proves that `processed` grows by the number of successes.

## Model

| member | source | states |
|---|---|---|
| Text.Trim | app.js:282 | `trim()` returns a piece of the input that has no whitespace at either end. Everything cut from either side is whitespace. |
| Text.TrimOfTrimmed | app.js:282 | Trimming text with no whitespace at either end returns it unchanged. |
| Text.SplitLF | app.js:76 | `split("\n")` always returns at least one piece, and no piece contains a line feed. |
| Text.SplitLines | app.js:90 | `split(/\r?\n/)` always returns at least one piece, and no piece contains a line feed. |
| Text.SplitLinesDropsCR | app.js:90 | `split(/\r?\n/)` is `split("\n")` of the text with every carriage return that directly precedes a line feed removed: both the pieces and their order are fixed. |
| Text.JoinSplitLF | app.js:76-79 | Joining the pieces of `split("\n")` with line feeds gives back the original text. |
| Text.SplitJoinLF | app.js:79 | Splitting joined lines that hold no line feed gives back exactly those lines. |
| Text.SplitLinesWithoutCR | app.js:158 | Without carriage returns, `split(/\r?\n/)` and `split("\n")` agree. |
| Engines.EngineNamed | app.js:289-292 | The registry lookup finds an engine exactly for "lyrics" and "chord", and the engine found carries that name. |
| Engines.InheritedNamePassesEngineCheck | app.js:431 | The check as written lets "toString" through, though no engine has that name. |
| Engines.EngineCheckAgreesOutsideInheritedKeys | app.js:431 | Outside the inherited object keys, the check as written accepts exactly the registered engines. |
| Engines.FindIntro | app.js:77 | `findIndex` returns the first line mentioning "intro" in any case. Every earlier line does not mention it. With no such line, it returns none. |
| Engines.ProcessWithIntro | app.js:74-82 | The result is a suffix of the input text. It starts with an intro line exactly when some input line is one. |
| Engines.ProcessWithIntroLines | app.js:142-150 | The lines of the result are the trailing lines of the input. Every dropped line lacks "intro". If any line is dropped, the kept part starts with an intro line. |
| Engines.FilterMembers | app.js:91-98 | `filter` keeps exactly the lines that pass its test. |
| Engines.FilterSnoc | app.js:91-98 | `filter` keeps order: one more input line appends that line to the output exactly when it passes. |
| Engines.FilterCount | app.js:91-98 | `filter` keeps duplicates: a passing line occurs in the output as often as in the input, a failing one never. |
| Engines.LyricsPipelinePerLine | app.js:90-98 | filter, map, filter equals the line-by-line selection: each raw line in order contributes its cleaned form when it is not boilerplate and the cleaned form is non-empty, else nothing. |
| Engines.ChordPipelinePerLine | app.js:158-166 | map, filter, filter equals the line-by-line selection: each raw line in order contributes its cleaned form when that is non-empty and not boilerplate, else nothing. |
| Engines.LyricsLines | app.js:89-98 | Every kept line is non-empty. A line is kept exactly when it is the cleaned form of a raw line that is not boilerplate. |
| Engines.ChordLines | app.js:157-166 | Every kept line is non-empty and not boilerplate. A line is kept exactly when it is such a cleaned form of some raw line. |
| Engines.LyricsLinesInOrder | app.js:89-98 | The lyrics engine's lines are the line-by-line selection over `split(/\r?\n/)`, so their order and repeated lines are those of the input. |
| Engines.ChordLinesInOrder | app.js:157-166 | The chord engine's lines are the line-by-line selection over `split(/\r?\n/)`, so their order and repeated lines are those of the input. |
| Engines.FilterCommutes | app.js:160-166 | Two `filter` calls in a row can be swapped. |
| Engines.FilterMapCommutes | app.js:157-166 | Filtering before or after `map` gives the same lines when the map never changes the test's verdict. |
| Engines.PipelinesAgreeWhenCleaningKeepsVerdict | app.js:89-98 | The lyrics order (filter, clean) and the chord order (clean, filter) keep the same lines when cleaning never changes whether a line is boilerplate. |
| Engines.BodyText | app.js:100 | No kept line gives the sentinel. Otherwise the result is the non-empty joined text. |
| Engines.H1Close | app.js:85 | The lazy `(.*?)</h1>` finds the nearest closing tag after an opening tag, on the same line. If it fails, no closing tag fits. |
| Engines.H1From | app.js:85 | `<h1>` search. The match found is the leftmost one, and its end is the nearest. If nothing is found, there is no match at all. |
| Engines.TitleHint | app.js:85-86 | Without an `<h1>` match the hint is "Title not found". Otherwise it is the cleaned text of the first match: the leftmost `<h1>`, closed by its nearest `</h1>`. |
| Engines.ArtistTail | app.js:280 | A matched `,?\s*artist:(.+?)\)$` tail is followed by "artist:", a single-line artist group and a final `)`. |
| Engines.ArtistTailExact | app.js:280 | The tail search reports "artist:" at `a` exactly when an optional comma and then only whitespace lead from `p` to `a`, and a non-empty single-line group runs from there to a `)` that ends the text. |
| Engines.ArtistTailNone | app.js:280 | The tail search finds nothing exactly when no such tail starts at `p`. |
| Engines.TitleGroupEnd | app.js:280 | The lazy title group ends at the first position where the whole pattern matches. If none exists, no end after the start matches. |
| Engines.ReplyMatchFrom | app.js:280 | The regex finds the leftmost match, with the shortest title group. If none is found, there is no match anywhere. |
| Engines.ParseTitleArtist | app.js:279-285 | A reply that does not match gives "Unknown"/"Unknown". Otherwise the fields are the trimmed title and artist groups of the regex's match: the leftmost start, with the shortest title group. Both fields are trimmed. |
| Engines.FormattedReplyMatch | app.js:280 | In a reply of the requested form, the leftmost match starts at the beginning. Its title group ends at the comma before "artist:". |
| Engines.ParseFormattedReply | app.js:252 | A reply in the requested form `(title:t,artist:a)` parses back to trimmed `t` and trimmed `a`. |
| Engines.NoEarlierArtistTail | app.js:280 | If the title does not contain "artist:", no shorter title group can be followed by a valid tail. |
| Engines.CallApi | app.js:269-275 | A failed request fails with "API Error: " and its message. A reply with text is parsed. A reply without text gives "Error"/"Error". |
| Engines.EngineBody | app.js:100-101 | The engine's body is intro slicing applied to the pipeline's lines joined by line feeds, or to the engine's sentinel when no line is kept; so it is a suffix of that text. |
| Engines.ProcessContent | app.js:84-114 | The engine fails exactly when the lookup request fails, and the error carries the engine's prefix. On success it returns the original text, a record of the engine's kind, the looked-up title and artist, and the engine body. |
| Engines.FileErrorPrefix | app.js:295 | The prefix is "Error processing ", then the file name, then ": ". |
| Engines.ProcessFile | app.js:287-297 | Success exactly when the engine is known and its run succeeds, and then the result is that run's record. An unknown engine fails with "Unknown engine type: …". Every failure is prefixed by "Error processing <file>: ". |
| Engines.OutputFilenameShape | app.js:445 | The output name is `output_`, the engine, `_`, the id and `.csv`, each readable back at its position. |
| Engines.OutputFilenameInjective | app.js:445 | Jobs of registered engines share an output name only if they have the same engine and the same id. |
| Percent.Percentage | app.js:369-372 | The result is 0 for no files. Otherwise it is the integer nearest to 100·processed/total, with a half rounded up as `Math.round` does. |
| Percent.PercentageAtMost100 | app.js:369-372 | While no more files are processed than submitted, the percentage is at most 100. |
| Percent.PercentageIs100Iff | app.js:369-372 | The percentage is 100 exactly when 200·processed ≥ 199·total. |
| Percent.PercentageIs100IffDone | app.js:369-372 | With fewer than 200 files, the percentage is 100 exactly when every file is processed. |
| Percent.PercentageRoundsUpToFull | app.js:371 | 199 of 200 files already reports 100. |
| Percent.PercentageIsZeroIff | app.js:369-372 | The percentage is 0 exactly when less than half a percent of the files is processed. |
| Percent.PercentageMonotone | app.js:369-372 | Processing more files never lowers the percentage. |
| Jobs.SetJob | app.js:441 | `Map.set`: the key gets the record. A new key goes to the end of the order, and an existing one keeps its place. |
| Jobs.SetJobValid | app.js:441-452 | Setting a valid record keeps the registry valid: keys distinct, in order and map alike, every record consistent. |
| Jobs.SetJobTwice | app.js:441-459 | Setting a key twice is the same as setting it once to the second record. This is the create-then-flip of the upload handler. |
| Jobs.ProcessedAtMostTotal | app.js:317-318 | A valid record never counts more processed files than were submitted. |
| Jobs.OutputFilesDistinct | app.js:445 | No two jobs of a valid registry write to the same output file. |
| Jobs.AfterFiles | app.js:309-332 | The loop leaves the id, status, creation time, file name, total and engine alone. Every file adds exactly one entry, and `processed` keeps counting `results`. |
| Jobs.AfterFilesStep | app.js:309 | One more file is one more step of the loop body. |
| Jobs.AfterFilesContents | app.js:309-326 | `results` holds the earlier results followed by the successful files' records, in submission order. `errors` holds the earlier errors followed by one `{file, error}` per failed file, in order. `processed` grows by the number of successes only. |
| Jobs.CurrentFileIsLastSuccess | app.js:319 | `currentFile` is the last file that succeeded. If none did, it is left as it was. |
| Jobs.Finish | app.js:334-343 | "completed" exactly when the CSV file was written, otherwise "error" with exactly one more `{file: "general", …}` entry. Results, the count and the current file are kept, as are the id, creation time, file name, total and engine. |
| Jobs.AfterFileValid | app.js:310-326 | One file of a job still processing keeps its record valid. |
| Jobs.FinishValid | app.js:334-343 | Finishing a job whose files all went through leaves a valid record. |
| Jobs.RecordValid | app.js:317-326 | Recording one file's outcome keeps the registry valid. |
| Jobs.FinishInRegistryValid | app.js:334-343 | Finishing a job keeps the registry valid. |
| Jobs.FileFailuresNeverFailTheJob | app.js:321-335 | When every file fails and the CSV file is written, the finished job is "completed" with no new results, an unchanged count and one error entry per file. |
| Jobs.SecondOfThreeFails | app.js:309-336 | Three files with the second failing end with two results, one error for that file, `processed` = 2, and "completed". |
| Jobs.RemoveKey | app.js:552 | `Map.delete` on the order drops exactly that key and keeps the others distinct, one shorter. An absent key changes nothing. Where the remaining keys sit is stated by `RemoveKeyCutsOut`. |
| Jobs.RemoveKeyCutsOut | app.js:552 | In an order without repeats, `Map.delete` of a present key cuts out exactly its position: the keys before it and after it stay where they were. |
| Jobs.RemoveKeyAtLastOccurrence | app.js:552 | The same holds whenever the key does not occur again after its first position. |
| Jobs.SummariesListEveryJob | app.js:390-399 | The list has one summary per record, in insertion order, each with the record's id and its projected fields. An id is listed exactly when it is in the registry. |
| Jobs.DistinctKeysCount | app.js:390 | A duplicate-free key order naming exactly the map's keys is as long as the map. |
| Jobs.JobStore.constructor | app.js:19 | At start the registry is empty, beside whatever snapshot file an earlier run left. |
| Jobs.JobStore.SaveRequests | app.js:42-53 | The snapshot becomes a copy of the registry, order included. |
| Jobs.JobStore.LoadRequests | app.js:22-39 | With a snapshot, the registry is cleared and refilled, and ends equal to the snapshot, order included. Without one, nothing changes. |
| Jobs.JobStore.Upload | app.js:427-468 | An unknown engine gives 400 "Invalid engine type", checked before the files. No files gives 400 "No files uploaded". Either way nothing changes. Otherwise the registry gains one processing record under the id (`processed` 0, `currentFile` "", no entries, `total` = the file count, the derived file name) and is saved. The reply carries the id and the file count. |
| Jobs.JobStore.RecordFile | app.js:310-326 | One pass of the loop updates only that job's record, as `AfterFile` says, and saves. |
| Jobs.JobStore.FinishJob | app.js:334-343 | The end of the loop updates only that job's record, as `Finish` says, and saves. |
| Jobs.JobStore.ProcessFiles | app.js:299-344 | After the loop and the CSV write, the job's record is `Finish(AfterFiles(…))` of the record before. No other record changes, the registry stays valid and the snapshot is saved. |
| Jobs.JobStore.Progress | app.js:361-385 | An unknown id gives a miss. Otherwise every field of the view is the record's, the percentage is `Percentage(processed, total)`, `processed` ≤ `total`, the percentage is ≤ 100 (0 for no files), and `processed` = the number of results. |
| Jobs.JobStore.Requests | app.js:389-399 | The list is the summaries of the records in insertion order, one per record. |
| Jobs.JobStore.DeleteRequest | app.js:524-556 | An unknown id gives 404 "Request not found" and changes nothing. Otherwise only that key leaves the map and the order, the other records keep their values and order, and the registry is saved. |
| Jobs.SaveThenReload | app.js:22-53 | Saving the registry and loading it in a fresh process gives back the same registry. |

## Left out

- HTTP plumbing: Express routing, middleware, view rendering and multer's disk storage (app.js:193-246, 356-358, 403-417). The request id is a parameter: `generateRequestId` reads the clock and a random source.
- Filesystem effects are not modelled:
  - reading uploaded files, which is covered by the per-file outcome input;
  - `unlinkSync` and `rmdirSync`, including an `unlinkSync` failure in the loop's `finally`, which would end the loop early;
  - creating directories;
  - the JSON encoding of the snapshot file.
- The snapshot file:
  - `saveRequests` is modelled as a copy of the registry. A failed write is not modelled.
  - A missing or unparsable file is `None`.
  - `createdAt` is kept as a millisecond timestamp, so its Date/string round trip is the identity.
- The title/artist service call is replaced by its reply, an `ApiReply` parameter: the network request, the prompt and the API key are left out. The reply handling (app.js:269-275) is modelled.
- The engines' `cleanText` regex bodies (app.js:59-71, 127-139) are not modelled. `cleanText` is a function parameter, and every pipeline property holds for any such function.
- The CSV writer (app.js:303-306, 334) is a foreign library. Its outcome is the `csvError` parameter.
- The background job's hand-off:
  - The `.catch` handler at app.js:471-482 is not modelled.
  - Interleaving between the background loop and the routes is not modelled, including deleting a job while its loop runs. `processFiles` is modelled as running to completion.
- The download route (app.js:493-521) only serves a file.
- The signal handlers (app.js:575-585) are left out.
- Percent.Percentage: floating-point effects of `processed / total * 100` are left out. The percentage is computed exactly in integers.
- Percent.PercentageIs100IffDone holds only for fewer than 200 files. From 200 files on, `Math.round` reports 100 with a file outstanding (`PercentageRoundsUpToFull`); `PercentageIs100Iff` gives the exact condition.
- Engines.ParseFormattedReply requires a non-empty, single-line title and artist, and a title without "artist:". Otherwise the lazy title group legitimately ends earlier.
- Jobs.JobStore.constructor requires the snapshot read at start to satisfy the registry invariant. A parsable snapshot whose records break it (an engineType "toString" that the check at app.js:431 lets through, or a hand-edited file) is not modelled.
- Jobs.JobStore.Upload does not require the new id to be absent: setting an existing id overwrites its record in place, as `Map.set` does.
- Jobs.JobStore.ProcessFiles requires the job to be processing, with one outcome per file still to do. This is the state the upload handler leaves it in.

## Findings

| source | as written | input that shows it | evidently intended | confidence | as-written member | corrected member |
|---|---|---|---|---|---|---|
| app.js:431 | `!engineProcessors[engineType]` reads a plain object, so names every object inherits from `Object.prototype` look up to a truthy value and pass the check | `engineType = "toString"` (likewise "constructor", "valueOf", "__proto__") with one file: accepted, and a job is created | only the registered engines "lyrics" and "chord" are accepted; anything else gets 400 "Invalid engine type" | not executed | Engines.InheritedNamePassesEngineCheck | Engines.EngineNamed |

The corrected lookup `Engines.EngineNamed` considers the registry's own keys only. `Jobs.JobStore.Upload` and `Engines.ProcessFile` use it.
