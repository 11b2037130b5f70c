# Hallucination-aware transcript recording, cleaning and progress reporting

This project is a Dafny model of the core of an MP3/M4A-to-text converter. The
converter sends audio to a speech recognition engine and writes what the engine
hears into three files:

- a `_full.md` running text;
- a `_time.md` table with one `| MM:SS | text |` row per segment;
- a day log with milestones.

Along the way it drops segments that look like the engine's "hallucinations"
(blank text, a few characters repeated, subtitle credits). Afterwards it can
clean repeated rows out of the time table. A separate offline tool does a
stronger clean of such a table. A small web front end reports the progress of
a conversion through a shared status dictionary.

The model is split into modules that follow the program:

- `Strings` models the Python string operations the code relies on:
  - `strip`, `split()`, `sep.join`, `in`, `find`, `split(sep)` and `replace`;
  - the decimal digits of `f"{n:02d}"`;
  - ASCII `lower`.
- `Repeats` models:
  - the character-set Jaccard `similarity`;
  - the two lazy back-reference regular expressions the cleaners use, as
    `re.findall` and `re.sub` scanners.
- `TimeTable` models the `_time.md` table:
  - the row regular expression `\|\s*(\d{2}:\d{2})\s*\|\s*(.+?)\s*\|`, with its
    lazy group;
  - how a row is rendered;
  - `readlines`;
  - reading rows back into entries.
- `WordRuns` models the word-run collapse that both cleaners share: three or
  more equal neighbouring words become one.
- `FixHallucination` models the offline cleaner `src/fix_hallucination.py`:
  - detection of repeated sections;
  - detection of short repeated phrases;
  - the noise test;
  - `clean_entries`;
  - the backup and rewrite;
  - `main`.
- `Transcriber` models `src/mp3_to_text.py`:
  - `format_time`;
  - the noise filter of the segment stream;
  - the writes `transcribe_to_files` appends to each output, as a `Recorder`
    class whose fields the loop updates;
  - the milestone protocol;
  - `_remove_hallucination`;
  - the stripping of the output name's suffix.
- `WebUi` models `src/web_ui.py`:
  - the upload filter;
  - the progress formula;
  - the status dictionary as a `Board` class with `update_state` and
    `get_state`;
  - the sequence of status updates `run_conversion` makes.

Files are modelled as values:

- the offline cleaner works on a map from paths to file text;
- the recorder keeps the list of writes appended to each output.

Times are whole seconds. The engine, clocks and keyboard interrupts are
parameters.

Some behaviour of the code is easy to miss; the model states it:

- The offline cleaner writes its backup to the file path with `.md` replaced
  by `.backup.md`. For a path without `.md` that is the file itself: it is
  truncated and then rewritten, and nothing of the original text is kept
  (`BackupLostWithoutMarkdown`). The backup name carries no time stamp, so
  a second run overwrites the first backup.
  A `.md` in a directory name is rewritten too, so `notes.md/a_time.md`
  backs up into `notes.backup.md/`; when that directory does not exist,
  opening the backup raises, nothing is written, and the uncaught error
  ends the program with status 1 (`BackupDirectoryMissing`, `FixFile`).
- A second clean of the cleaner's own output can remove more rows. A row
  "ㅋㅎㅋ ㅋㅎㅋ ㅋㅎㅋ" is not noise, so the first clean keeps it and collapses
  it to "ㅋㅎㅋ"; that text is jamo only, so the next clean drops the row
  (`SecondCleanDropsMore`).
- Time stamps of an hour or more are written as `H:MM:SS`. Both table readers
  accept only `\d{2}:\d{2}`, so those rows are never read back
  (`HourRowsNotRead`). A clean that rewrites the table therefore drops every
  row from the first hour on.
- Under an hour, minutes are always two digits (`MM:SS`).
- The row group `(.+?)` can capture a `|`, so a cleaned text may hold one.
  This is why `RewriteRereads` requires texts without `|`.
- Segments that the noise filter rejects never reach the recording loop, so
  they do not advance the progress or the milestones either.
- The recorder's progress is not capped at 100.
- The recorder catches only the keyboard interrupt. An exception from the
  engine ends the session with the header and the rows written so far: no
  cancellation note, no footer, no elapsed row and no clean
  (`Recorder.Transcribe` with a `RaiseAt` break).
- The cleaner's `--threshold` flag is parsed but never used. Section detection
  always uses 3.

## Model

| member | source | states |
|---|---|---|
| Strings.Strip | src/fix_hallucination.py:28 | `str.strip()`: the result has no surrounding whitespace, is no longer than the input, and is empty exactly when the input is all whitespace |
| Strings.StripOfStripped | src/fix_hallucination.py:162 | stripping an already stripped text changes nothing |
| Strings.Words | src/fix_hallucination.py:135 | `split()` yields non-empty words without whitespace |
| Strings.JoinOneLine | src/fix_hallucination.py:156 | joining newline-free words with a newline-free separator gives one line |
| Strings.JoinSplitOn | src/fix_hallucination.py:246 | joining the pieces of `s.split(sep)` with `sep` gives back `s` |
| Strings.SplitOnFirst | src/fix_hallucination.py:246 | the first piece is the text before the first occurrence; the rest is the split of what follows it |
| Strings.Find | src/fix_hallucination.py:245 | the first occurrence at or after a position, or none at all |
| Strings.ContainsIff | src/fix_hallucination.py:245 | `pattern in content` holds exactly when the pattern occurs at some index |
| Strings.NatToStringValue | src/mp3_to_text.py:115 | the decimal digits of `n` read back as `n` |
| Strings.Pad2 | src/mp3_to_text.py:115-116 | `{n:02d}` for n < 100: two digits whose value is n |
| Strings.Lower | src/web_ui.py:43 | `.lower()` character by character, same length |
| Repeats.Similarity | src/fix_hallucination.py:55-66 | 0 for an empty side, else shared distinct characters over all distinct characters, a ratio in [0, 1] |
| Repeats.CharSetMembers | src/fix_hallucination.py:61-62 | `set(s)` holds exactly the characters of `s` |
| Repeats.SimilaritySymmetric | src/fix_hallucination.py:55-66 | similarity does not depend on argument order |
| Repeats.SimilarityReflexive | src/fix_hallucination.py:55-66 | a non-empty text is fully similar to itself, so similar in the > 0.8 sense |
| Repeats.SimilarityBySets | src/fix_hallucination.py:61-66 | similarity depends only on the two character sets |
| Repeats.CopiesSpell | src/fix_hallucination.py:81 | the counted back-to-back copies of a unit really spell that unit repeated |
| Repeats.CopiesOfRepeat | src/fix_hallucination.py:81 | copies spelled out in the text are all counted |
| Repeats.ShortestUnit | src/fix_hallucination.py:81 | the lazy group settles on the smallest length from which the back-reference matches |
| Repeats.MatchAt | src/fix_hallucination.py:81 | a match at a position uses the shortest group that matches; no match means no group length matches |
| Repeats.MatchEnd | src/fix_hallucination.py:81 | the match ends after its group and inside the text |
| Repeats.FindAllSound | src/fix_hallucination.py:81 | each group `findall` reports has the allowed length, no newline, and occurs the required number of times back to back |
| Repeats.SubAllInside | src/fix_hallucination.py:160 | `re.sub(..., r'\1', ...)` adds no character the text did not have |
| Repeats.SubAllShorter | src/fix_hallucination.py:160 | the substitution never lengthens the text |
| Repeats.SubAllNoMatch | src/fix_hallucination.py:160 | with no match anywhere, the substitution is the identity |
| Repeats.SubAllMatch | src/fix_hallucination.py:160 | when `findall` reports a group and the pattern asks for two or more copies, the substitution strictly shortens the text |
| Repeats.SubAllShort | src/fix_hallucination.py:160 | a text shorter than the required copies of the shortest unit holds no match and is left alone |
| Repeats.DetectShortRepeats | src/fix_hallucination.py:69-82 | every reported phrase has 2 to 15 characters, no newline, and appears `threshold` times back to back in the content |
| TimeTable.GroupEnd | src/fix_hallucination.py:116 | the lazy `(.+?)` stops at the first point where `\s*\|` follows, without crossing a newline |
| TimeTable.FindCell | src/fix_hallucination.py:116 | the cell the row pattern captures is a non-empty, newline-free span followed by `\s*\|` |
| TimeTable.MatchRow | src/fix_hallucination.py:116 | a matching row gives a `\d{2}:\d{2}` time and a non-empty, single-line cell |
| TimeTable.MatchRowStartsRow | src/fix_hallucination.py:99 | every full row match also matches the table-start pattern `\|\s*\d{2}:\d{2}` |
| TimeTable.RowRoundTrip | src/fix_hallucination.py:293 | a written row `\| t \| c \|` with a clock `t` and a stripped, `\|`-free, non-empty `c` reads back as exactly `(t, c)` |
| TimeTable.Lines | src/fix_hallucination.py:93 | `readlines`: the lines concatenate back to the text and none is empty |
| TimeTable.LinesShape | src/fix_hallucination.py:93 | each line holds at most one newline, at its end, and every line but the last ends with one |
| TimeTable.LinesOfConcat | src/fix_hallucination.py:93 | complete lines written one after another read back as the same lines |
| TimeTable.RowLine | src/fix_hallucination.py:293 | a rendered row of single-line text is one complete line |
| TimeTable.RowHasNoRule | src/fix_hallucination.py:101 | a rendered row never contains the `\|---\|---\|` rule |
| TimeTable.EntryOf | src/fix_hallucination.py:116-124 | a line gives an entry exactly when the row pattern matches, with the stripped cell as content |
| TimeTable.ParseRows | src/fix_hallucination.py:115-124 | one entry per matching line, in order |
| TimeTable.ParseRowsAppend | src/fix_hallucination.py:115-124 | reading two blocks of lines gives the entries of each, in order |
| TimeTable.CollectEntries | src/fix_hallucination.py:114-124 | the entry loop yields exactly the parsed rows |
| TimeTable.RenderRows | src/fix_hallucination.py:292-293 | one `\| time \| content \|` row per entry, in order |
| TimeTable.RenderTable | src/fix_hallucination.py:287-293 | the file text is the header lines followed by the rendered rows |
| TimeTable.ParseRendered | src/fix_hallucination.py:292-293 | rendered rows of row-safe entries read back as the same times and contents |
| TimeTable.RenderedRow | src/fix_hallucination.py:293 | one rendered row reads back as its own entry |
| TimeTable.Contents | src/fix_hallucination.py:202 | the contents of the entries, index by index |
| WordRuns.RunEnd | src/fix_hallucination.py:142-147 | the end of the maximal run of words equal to the one at `i` |
| WordRuns.CollapseRuns | src/fix_hallucination.py:135-156 | no longer than the input and starts with the same word |
| WordRuns.CollapseKeepsWords | src/fix_hallucination.py:135-156 | the collapse only keeps words of the input |
| WordRuns.CollapseKeepsSkeleton | src/fix_hallucination.py:135-156 | the order of distinct neighbouring words is unchanged: only repeats are dropped |
| WordRuns.CollapseLeavesNoTriple | src/fix_hallucination.py:149-151 | after the collapse no word occurs three times in a row |
| WordRuns.CollapseWithoutTriple | src/fix_hallucination.py:149-154 | words with no triple repeat pass through unchanged |
| WordRuns.CollapseIdempotent | src/fix_hallucination.py:135-156 | collapsing twice is collapsing once |
| WordRuns.CollapseExample | src/fix_hallucination.py:132 | the documented example: three equal words become one |
| WordRuns.CollapseWordRuns | src/fix_hallucination.py:135-156 | the nested while loops compute the collapse |
| WordRuns.CollapseStep | src/fix_hallucination.py:149-154 | one step of the loop: the word at `i`, then the collapse from `j` (run of 3+) or from `i + 1` |
| WordRuns.RunEndShift | src/fix_hallucination.py:143-147 | the inner loop's `j` is the run end in the remaining words |
| FixHallucination.StripAll | src/fix_hallucination.py:28 | every line stripped, index by index |
| FixHallucination.RunExtent | src/fix_hallucination.py:37-44 | the inner scan stops at the first line that neither equals nor is > 0.8 similar to the current one |
| FixHallucination.RunEndAt | src/fix_hallucination.py:34-44 | the run opened at `i` ends after `i` |
| FixHallucination.SectionsAtOpen | src/fix_hallucination.py:46-48 | a line opening a long enough run reports a section and jumps past it |
| FixHallucination.SectionsAtSkip | src/fix_hallucination.py:29-31 | a short or blank line (or a too short run) moves the scan on by one |
| FixHallucination.DetectRepeatedContent | src/fix_hallucination.py:12-52 | the outer while loop returns exactly the sections of the scan |
| FixHallucination.RunLength | src/fix_hallucination.py:34-44 | the inner while loop stops where the run ends |
| FixHallucination.SectionsSound | src/fix_hallucination.py:26-52 | every section has at least `threshold` lines, a stripped first line of 5+ characters, and every later line equal or similar to it |
| FixHallucination.SectionsOrdered | src/fix_hallucination.py:26-52 | sections lie in increasing order and do not overlap |
| FixHallucination.FirstSection | src/fix_hallucination.py:34-47 | the section at an opening line is its whole run, each line continuing the first |
| FixHallucination.RunExtentContinues | src/fix_hallucination.py:37-44 | every line the inner scan passes continues the run |
| FixHallucination.SectionsComplete | src/fix_hallucination.py:26-52 | a line that opens a run of `threshold` or more continuing lines lies in some reported section |
| FixHallucination.MostCommonCount | src/fix_hallucination.py:175-176 | the count of the most common character: no character occurs more often, and one occurs that often |
| FixHallucination.DominatedByMostCommon | src/fix_hallucination.py:174-178 | `count / len > 0.8` holds exactly when some character makes up more than 80% of the text |
| FixHallucination.ShortUnitRunMeaning | src/fix_hallucination.py:182 | `^(.{1,3})\1{5,}` matches exactly when the text opens with six copies of a 1-3 character unit |
| FixHallucination.IsLikelyHallucination | src/fix_hallucination.py:165-191 | true exactly for texts under 2 characters, texts over 10 dominated by one character, six-fold short units, jamo-only texts, and letters repeated 11 times |
| FixHallucination.TableStart | src/fix_hallucination.py:96-106 | the first opening line with a rule before it (start there) or after it (start two later) |
| FixHallucination.ParseTimeMd | src/fix_hallucination.py:85-126 | no table start: all lines are header and there are no entries; otherwise the header is the lines before the start and the entries are the rows from it |
| FixHallucination.FindTableStart | src/fix_hallucination.py:96-108 | the search loop returns the table start, or -1 when there is none |
| FixHallucination.TableStartByFlags | src/fix_hallucination.py:96-106 | the table start depends only on which lines open a table and which hold the rule |
| FixHallucination.CleanedWords | src/fix_hallucination.py:129-162 | the cleaned text is stripped |
| FixHallucination.CleanedWordsOneLine | src/fix_hallucination.py:129-162 | the cleaned text has no newline |
| FixHallucination.CleanedWordsExample | src/fix_hallucination.py:132 | the documented example reduces to one word |
| FixHallucination.WordsOfExample | src/fix_hallucination.py:135 | the example splits into three words |
| FixHallucination.CleanRepeatedWords | src/fix_hallucination.py:129-162 | the method computes the cleaned text |
| FixHallucination.RewriteWithPattern | src/fix_hallucination.py:245-248 | a pattern found at most once leaves the text unchanged; more often, the result starts with the pattern |
| FixHallucination.RewriteDropsLead | src/fix_hallucination.py:246-248 | when the rewrite fires, the text before the first occurrence is lost: the result is the pattern plus the stripped text after the first occurrence, with the pattern deleted from it |
| FixHallucination.ApplyPatternsUnchanged | src/fix_hallucination.py:244-248 | patterns that occur at most once change nothing |
| FixHallucination.CleanContent | src/fix_hallucination.py:243-251 | the cleaned content is stripped |
| FixHallucination.KeepFlags | src/fix_hallucination.py:229-258 | one keep flag per row: not skipped, not noise, and long enough after cleaning |
| FixHallucination.Selected | src/fix_hallucination.py:229-258 | the kept indices in increasing order, exactly those flagged |
| FixHallucination.SetToList | src/fix_hallucination.py:82 | `list(set(...))`: every element once, no duplicates |
| FixHallucination.SkipIndices | src/fix_hallucination.py:222-226 | an index is skipped exactly when it lies after the first line of some section |
| FixHallucination.SkippedExtend | src/fix_hallucination.py:223-226 | each section adds exactly its later lines to the skip set |
| FixHallucination.CleanEntry | src/fix_hallucination.py:233-269 | a row survives exactly when it is not noise and its cleaned text keeps 3+ characters, and then it holds the cleaned text with its own time |
| FixHallucination.CleanEntries | src/fix_hallucination.py:194-271 | the patterns are the distinct short repeats of the joined contents, and the result holds, in order, the cleaned form of every surviving row |
| FixHallucination.CleanedStep | src/fix_hallucination.py:229-269 | one row of the loop adds its cleaned form exactly when it is kept |
| FixHallucination.CleanRowAt | src/fix_hallucination.py:229-269 | the row step is taken exactly for kept rows, with the cleaned entry |
| FixHallucination.CleanRows | src/fix_hallucination.py:229-271 | the row loop keeps the selected rows, in order, cleaned |
| FixHallucination.FirstRowsStay | src/fix_hallucination.py:223-226 | the first line of a section is never skipped |
| FixHallucination.SectionStartsNotSkipped | src/fix_hallucination.py:223-226 | the detected sections never skip their own first lines |
| FixHallucination.SectionRowsDropped | src/fix_hallucination.py:222-231 | every row after the first of a repeated section is absent from the result |
| FixHallucination.CleanedRowShape | src/fix_hallucination.py:253-269 | a cleaned row keeps its source row's time and line and has 3+ characters; it is row-safe exactly when it has no `\|` |
| FixHallucination.BackupOfMarkdown | src/fix_hallucination.py:280 | a `stem.md` path without another `.md` backs up to `stem.backup.md` |
| FixHallucination.BackupOfOtherPath | src/fix_hallucination.py:280 | a path without `.md` "backs up" to itself |
| FixHallucination.BackupOfFirstMarkdown | src/fix_hallucination.py:280 | every `.md` is rewritten, not only the extension: the first one after a part without `.md` becomes `.backup.md` and the replacement goes on in the rest |
| FixHallucination.DirOf | src/fix_hallucination.py:281 | the directory `open` needs: what precedes the last `/`, which is followed by no other `/`, or the working directory when there is none |
| FixHallucination.DirOfAppend | src/fix_hallucination.py:281 | appending a name without `/` keeps the directory |
| FixHallucination.DirOfFile | src/fix_hallucination.py:281 | the directory of `d/n` is `d` |
| FixHallucination.BackupBeside | src/fix_hallucination.py:280-281 | for `stem.md` with no other `.md`, the backup lies in the file's own directory, and opening it fails exactly when that directory is missing |
| FixHallucination.BackupDirectoryMissing | src/fix_hallucination.py:280-281 | for `dir.md/name.md` the backup is `dir.backup.md/name.backup.md`, in another directory than the file, so with only `dir.md` present opening the backup fails |
| FixHallucination.Rewritten | src/fix_hallucination.py:279-293 | after a write that succeeds, the new file has the new text, a distinct backup holds the old text, and no other file changes |
| FixHallucination.BackupLostWithoutMarkdown | src/fix_hallucination.py:279-283 | without `.md` in the path, writing with a backup is the same as writing without one |
| FixHallucination.SecondCleanDropsMore | src/fix_hallucination.py:236-270 | cleaning is not idempotent: with no repeated sections or short patterns, a row "ㅋㅎㅋ ㅋㅎㅋ ㅋㅎㅋ" is kept and collapsed to "ㅋㅎㅋ" by one clean, and the row with that text is dropped by the next |
| FixHallucination.LaughNotNoise | src/fix_hallucination.py:165-191 | "ㅋㅎㅋ ㅋㅎㅋ ㅋㅎㅋ" is not judged noise: no character dominates, no short unit opens it six times, and the spaces are not jamo |
| FixHallucination.LaughCleaned | src/fix_hallucination.py:129-162 | with no short patterns, "ㅋㅎㅋ ㅋㅎㅋ ㅋㅎㅋ" cleans to "ㅋㅎㅋ" |
| FixHallucination.CollapsedLaughNoise | src/fix_hallucination.py:183 | "ㅋㅎㅋ" is jamo only, hence noise |
| FixHallucination.WriteCleanedFile | src/fix_hallucination.py:274-293 | no file changes when the backup's directory is missing (`open` raises); otherwise the files after the backup and the rewrite |
| FixHallucination.FixFile | src/fix_hallucination.py:298-342 | exit 1 with no change for a missing file or no rows; else the cleaned rows, and, when a row was removed and the backup's directory is missing, exit 1 with no change; otherwise exit 0 and a rewrite (with backup unless disabled) exactly when a row was removed |
| FixHallucination.TableStartKept | src/fix_hallucination.py:96-106 | a rewrite that keeps the lines before the table start keeps the table start |
| FixHallucination.ParseRewritten | src/fix_hallucination.py:115-124 | the header plus rendered row-safe rows parse back as that header and those rows |
| FixHallucination.RereadRewrite | src/fix_hallucination.py:287-293 | re-reading a rewritten file gives its header and the re-read rows |
| FixHallucination.RewriteRereads | src/fix_hallucination.py:287-293 | after `main` rewrites a file, reading it again gives the same header and exactly the kept rows, when no kept text holds `\|` |
| Transcriber.FormatTime | src/mp3_to_text.py:107-116 | a negative time prints as `--:--` |
| Transcriber.FormatTimeReadsBack | src/mp3_to_text.py:107-116 | under an hour the text is `MM:SS` and reads back as the seconds; from an hour on it is `H:MM:SS` and reads back as the seconds |
| Transcriber.FormatTimeIsClock | src/mp3_to_text.py:107-116 | the text has the two-digit `MM:SS` shape exactly for 0 <= n < 3600 |
| Transcriber.NoLeadingZero | src/mp3_to_text.py:115 | the hour field has no leading zero |
| Transcriber.HourRowsNotRead | src/fix_hallucination.py:116 | a table row stamped at an hour or later is never matched by the row pattern |
| Transcriber.OutputBase | src/mp3_to_text.py:963-966 | a `.txt` or else `.md` suffix is removed; other names are kept |
| Transcriber.OutputBaseTxt | src/mp3_to_text.py:965-966 | stripping is the inverse of appending `.txt` |
| Transcriber.OutputBaseMd | src/mp3_to_text.py:965-966 | stripping is the inverse of appending `.md` |
| Transcriber.ContainsAny | src/mp3_to_text.py:210-212 | true exactly when some listed phrase occurs in the text |
| Transcriber.IsHallucination | src/mp3_to_text.py:200-214 | true exactly for blank text, text over 10 characters with under 5 distinct ones, or text holding a known phrase |
| Transcriber.AcceptedMembers | src/mp3_to_text.py:310-320 | a segment is passed on exactly when the engine yields it and it is not noise |
| Transcriber.AcceptedAppend | src/mp3_to_text.py:310-320 | the filter works segment by segment, keeping engine order |
| Transcriber.AcceptedHaveText | src/mp3_to_text.py:202-203 | every segment passed on has non-blank text |
| Transcriber.FilterSegments | src/mp3_to_text.py:310-320 | the generator's loop passes on exactly the accepted segments |
| Transcriber.FirstRow | src/mp3_to_text.py:439-443 | the first line matching `\|\s*\d{2}:\d{2}`, with none before it |
| Transcriber.KeepCollapsed | src/mp3_to_text.py:506-515 | a single row is kept exactly when its collapsed text keeps 3+ characters |
| Transcriber.RunLength | src/mp3_to_text.py:472-477 | the length of the run of equal contents at the front |
| Transcriber.RemoveRuns | src/mp3_to_text.py:464-518 | the cleaned rows are never more than the rows |
| Transcriber.RemoveRunsDerived | src/mp3_to_text.py:464-518 | each cleaned row comes, in order, from a distinct row with the same time, as the row itself or its collapsed text |
| Transcriber.RemoveStepRun | src/mp3_to_text.py:479-483 | a run of 3+ equal contents keeps only its first row |
| Transcriber.RemoveStepSingle | src/mp3_to_text.py:484-517 | a shorter run keeps the first row's collapsed form if long enough, then moves on by one |
| Transcriber.EqualRunEnd | src/mp3_to_text.py:472-477 | the inner loop stops at the end of the run of equal contents |
| Transcriber.CollapseEntry | src/mp3_to_text.py:485-515 | the row's collapsed form, or nothing when it is shorter than 3 |
| Transcriber.RemoveAt | src/mp3_to_text.py:468-517 | one pass of the outer loop: the rows it keeps, where it resumes, and how many it dropped |
| Transcriber.RemoveRepeats | src/mp3_to_text.py:464-518 | the loop computes the cleaned rows, and the removed count is the number of rows dropped |
| Transcriber.TableRemoval | src/mp3_to_text.py:519-529 | the count of removed rows; the file is rewritten with the header and cleaned rows exactly when it is positive |
| Transcriber.FindFirstRow | src/mp3_to_text.py:439-446 | the search loop returns the first row, or -1 |
| Transcriber.RemoveHallucination | src/mp3_to_text.py:421-529 | `_remove_hallucination` on the file text: the removed count and the rewritten text, if any |
| Transcriber.MilestoneRows | src/mp3_to_text.py:716 | one log row per milestone, in order |
| Transcriber.Reached | src/mp3_to_text.py:712-714 | never more milestones than listed |
| Transcriber.ReachedMembers | src/mp3_to_text.py:712-714 | a milestone is logged exactly when it is listed, reached and not logged before |
| Transcriber.MilestoneStep | src/mp3_to_text.py:712-716 | one turn of the milestone loop adds the row for that milestone exactly when it fires |
| Transcriber.ReachedIncreasing | src/mp3_to_text.py:712 | the milestones a segment logs are in increasing order |
| Transcriber.NewMilestones | src/mp3_to_text.py:712-714 | after earlier progress `peak`, a segment logs exactly the milestones in (peak, progress] |
| Transcriber.UpToMax | src/mp3_to_text.py:714 | the milestones up to two peaks are those up to the larger one |
| Transcriber.LoggedUpTo | src/mp3_to_text.py:714 | the logged set is the milestones up to the highest progress so far |
| Transcriber.FullChunk | src/mp3_to_text.py:722-729 | at most one write to the full text, and one whenever the text is not blank |
| Transcriber.TimeRows | src/mp3_to_text.py:732-734 | one time row per segment |
| Transcriber.TimeRowsAt | src/mp3_to_text.py:732-734 | row `k` is the time row of segment `k` |
| Transcriber.FullChunks | src/mp3_to_text.py:722-729 | never more full-text writes than segments |
| Transcriber.FullChunksCount | src/mp3_to_text.py:722-729 | segments with non-blank text give exactly one full-text write each |
| Transcriber.PeakAfter | src/mp3_to_text.py:691-693 | the highest progress never falls and bounds every segment's progress when the total is known |
| Transcriber.SessionMilestonesOnce | src/mp3_to_text.py:712-716 | over a whole session the milestones logged are increasing, so each fires at most once, and each lies between the old and new peak |
| Transcriber.UnknownTotalLog | src/mp3_to_text.py:717-719 | without a known total, only the language row is logged |
| Transcriber.RecordedAllShape | src/mp3_to_text.py:680-734 | after a stream the table gained one row per segment, the count rose by their number, and the info is seen once any segment arrived |
| Transcriber.TableRowsAreAccepted | src/mp3_to_text.py:731-734 | every row the stream adds to the table is a time row of a segment the filter let through |
| Transcriber.AppendedRows | src/mp3_to_text.py:732-734 | appended rows keep what was there and add each segment's row at its place |
| Transcriber.Stop | src/mp3_to_text.py:680-681 | the break point never lies past the engine's segments |
| Transcriber.AcceptedStep | src/mp3_to_text.py:310-320 | pulling one more engine segment adds it to the accepted ones exactly when it is not noise |
| Transcriber.RecordedAllStep | src/mp3_to_text.py:681-734 | pulling one more segment records it exactly when it is accepted |
| Transcriber.RecordedAllSnoc | src/mp3_to_text.py:681-734 | recording one more segment is recording it after the others |
| Transcriber.CleanTable | src/mp3_to_text.py:763-773 | with auto-clean on, the table is replaced by its cleaned text when rows were removed, else kept |
| Transcriber.Recorder.constructor | src/mp3_to_text.py:641-673 | the log gets its section (titled only when new), the two files start with their headers, and nothing is counted yet |
| Transcriber.Recorder.LogMilestones | src/mp3_to_text.py:712-716 | the log gains the rows of the milestones reached and not logged before; the peak is the maximum progress |
| Transcriber.Recorder.MilestoneAt | src/mp3_to_text.py:713-716 | one turn of the milestone loop |
| Transcriber.Recorder.Record | src/mp3_to_text.py:681-734 | one accepted segment: count, language row once, milestones, full-text chunk and time row, as `Recorded` says |
| Transcriber.Recorder.LogLanguage | src/mp3_to_text.py:684-688 | the language row is logged only for the first segment |
| Transcriber.Recorder.AppendChunk | src/mp3_to_text.py:721-729 | the full text gains the stripped text, followed by a newline after `.`, `!` or `?` and a space otherwise; blank text adds nothing |
| Transcriber.Recorder.Interrupt | src/mp3_to_text.py:736-742 | an interrupt appends the cancellation notes to both files and ends the session |
| Transcriber.Recorder.Finish | src/mp3_to_text.py:744-757 | the elapsed row goes to the log, and the completion footer goes to both files |
| Transcriber.Recorder.Stream | src/mp3_to_text.py:680-734 | the loop records exactly the accepted segments before the interrupt point |
| Transcriber.Recorder.Pull | src/mp3_to_text.py:681-734 | one pull from the generator |
| Transcriber.Recorder.Transcribe | src/mp3_to_text.py:676-775 | cancelled exactly when the interrupt comes within the stream, failed exactly when an engine exception does; the outputs are the accepted segments recorded before the break, then the cancellation notes, nothing more on an exception, or the footer and the optional clean |
| WebUi.LastIndex | src/web_ui.py:43 | the last position of a character, or none exactly when it is absent |
| WebUi.AllowedFile | src/web_ui.py:42-43 | a name without a dot is never allowed |
| WebUi.AllowedByExtension | src/web_ui.py:40-43 | `stem.ext` is allowed exactly when the lower-cased last extension is in the list |
| WebUi.UpperCaseExtension | src/web_ui.py:43 | the extension is compared lower-cased |
| WebUi.DotInStem | src/web_ui.py:43 | only the text after the last dot counts |
| WebUi.LastExtensionDecides | src/web_ui.py:43 | an allowed inner extension does not help when the last one is not allowed |
| WebUi.BareExtension | src/web_ui.py:43 | a bare extension without a dot is refused |
| WebUi.BaseName | src/web_ui.py:83 | the file name has no `/`, and a path without `/` is its own name |
| WebUi.SegmentProgress | src/web_ui.py:124 | the per-segment progress lies in [12, 90] and is 90 from the 40th segment on |
| WebUi.ProgressMonotone | src/web_ui.py:124 | later segments never show less progress |
| WebUi.Initial | src/web_ui.py:46-59 | the state starts idle at progress 0 |
| WebUi.MergedAt | src/web_ui.py:65-68 | `dict.update`: updated keys take the new values, and the other keys keep theirs |
| WebUi.AppliedKeeps | src/web_ui.py:65-68 | after several updates a key holds the value of the last update that set it |
| WebUi.AppliedConcat | src/web_ui.py:65-68 | applying two runs of updates is applying one after the other |
| WebUi.Board.constructor | src/web_ui.py:46-59 | the board starts with the initial state and no updates |
| WebUi.Board.Update | src/web_ui.py:65-68 | `update_state`: the state is merged with the keywords, and the update is added to the history |
| WebUi.Board.Get | src/web_ui.py:71-74 | `get_state` returns the current state |
| WebUi.Board.Arrived | src/web_ui.py:112-132 | one segment of the loop: one status update, and the segment list and texts grow by that segment |
| WebUi.Board.RunConversion | src/web_ui.py:77-151 | `run_conversion` makes exactly the updates `Updates` lists, in order, and the state is the old state with them applied |
| WebUi.SegmentUpdatesSnoc | src/web_ui.py:112-132 | one more segment adds its update at the end |
| WebUi.Updates | src/web_ui.py:77-151 | two updates for a failed load, else one per segment plus three |
| WebUi.FirstUpdates | src/web_ui.py:80-97 | the first update names the file and model at progress 5; the second is transcribing at 10, or the error |
| WebUi.MiddleUpdate | src/web_ui.py:112-132 | the updates between the second and the last are the segment updates, in order |
| WebUi.LaterUpdate | src/web_ui.py:97-151 | only the first update sets the file name and the model |
| WebUi.LastUpdate | src/web_ui.py:137-151 | the last update is the completion or the error |
| WebUi.ConversionNamesRun | src/web_ui.py:80-89 | after the run, the state names the file's base name and the model |
| WebUi.ConversionCompletes | src/web_ui.py:134-144 | a successful run ends completed at 100 with the segment count and the stripped joined text |
| WebUi.ConversionFails | src/web_ui.py:146-151 | a failed run ends in error at progress 0 with the exception's message |
| WebUi.StatusSeen | src/web_ui.py:77-151 | the status a reader sees goes loading_model, then transcribing while segments arrive, then completed or error |
| WebUi.ProgressSeen | src/web_ui.py:77-151 | the progress a reader sees after each update is `Shown` |
| WebUi.ProgressRises | src/web_ui.py:82-142 | on a successful run the progress a reader sees never falls |

## Left out

- The recognition engine, audio probing and preprocessing, device detection and model loading are not modelled. The engine's segments are a parameter, and so is whether loading fails.
- Segment times, elapsed times and durations are whole seconds. Floating point, `round(x, 1)`, the console progress bar and the ETA are not modelled.
- The integer progress `int(end / total * 100)` of each segment is computed by the caller from the exact times and given to the model with the segment.
- Transcriber.FormatTime: takes the seconds already floored. The source floors each field of a float, and the fields depend only on the floor.
- Transcriber.Recorder.Transcribe: a keyboard interrupt or an exception is modelled only while the generator is awaited, between two segments. An interrupt or a write error in the middle of writing a segment, which leaves that segment half written, is not modelled. The exception is returned as the `Failed` outcome instead of propagating.
- Transcriber.RemoveHallucination: models the cleaning on the file text. The exception handler around it in `transcribe_to_files` is not modelled, because the model's clean cannot fail.
- The full-text, time and log files are lists of appended writes. Opening and closing files, encodings, `errors="replace"`, `mkdir` and `Path` handling are not modelled. The day log's previous content is a parameter.
- Repeats.DetectShortRepeats: states soundness (each reported phrase really repeats) and not completeness against the regular-expression engine.
- FixHallucination.SetToList: the order of `list(set(...))` is left open. Every order is allowed, as Python's hashing decides it.
- Strings.IsDigit: `\d` is ASCII digits only, while Python also accepts other Unicode decimal digits.
- Strings.Lower: lowers ASCII letters only. This gives the same answer for the extension list, since no other Unicode letter lowers onto those ASCII extensions except the Kelvin sign, which is not in the list.
- The offline cleaner's file map holds text already decoded from UTF-8, with `\r\n` and `\r` already turned into `\n` as Python's text mode does. A file that is not valid UTF-8, which makes the cleaner raise before it writes anything, is not modelled.
- FixHallucination.FixFile: directories are a set of existing paths, and the only write error modelled is a backup in a missing directory. Other operating-system errors (permissions, a path that names a directory) are not modelled, and the path is taken as `Path` prints it, already normalised.
- The `-v` console output of the offline cleaner and every `print` are not modelled.
- WebUi.Board: `update_state` is modelled for the twelve keys of `conversion_state` only (a `Key` datatype). The lock and the background thread are not modelled.
- The Flask routes, the HTML page, uploads to temporary files and the Tk and Gradio front ends are not modelled.
- `transcribe`, `transcribe_to_file` and the `main` command line of `src/mp3_to_text.py` are not modelled, apart from the output-name suffix stripping.
