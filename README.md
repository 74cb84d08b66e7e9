# Batch transcription of letter pages — a Dafny model

`run.py` transcribes handwritten letters with a Gemini model. It takes a PDF whose pages
were already rendered as `page-NN.png` images into a working directory `temp_<name>` next
to the PDF. It then reads a pages file with one page range per line (one line per letter,
for example `2-5,10,7-9`). For each letter it sends the page images and a prompt to the
model and writes the transcript to `ocr_<model>_pages_<NN_NN...>.md` in the working
directory. After each write it sleeps five seconds. The first missing image, failed request
or empty response stops the whole run.

This project models that script in Dafny and proves properties of the model:

- `Text`: the Python string built-ins the script relies on: `str.strip` (Python's
  whitespace set), `str.split` with a one-character separator, `str.join`, `str(n)`,
  `f"{n:02d}"`, `str(list)`, and `int()` on base-10 text (`+`, underscores between digits,
  and surrounding whitespace). `int()` skips a smaller whitespace set than `strip`: tab,
  newline, vertical tab, form feed, carriage return, space and the non-ASCII whitespace, but
  not the separators U+001C..U+001F, so `int('2\x1c')` raises.
- `RangeParser`: `parse_range`. `Parse` is the function, and `ParseRange` is the loop proved
  equal to it. It includes the errors `int()` and the two-name unpacking raise.
- `Paths`: `posixpath.basename/dirname/splitext/join`, `get_pdf_dir_and_name`, and the
  working-directory and pages-file conventions.
- `Naming`: the image file name, the output file name and the user prompt.
- `GroupPlan`: loading the plan from the pages file. Every non-blank stripped line is
  parsed before any letter is processed.
- `BatchRunner`: the group loop. `Step` and `RunFrom` specify one group and the run. The
  `Workspace` class holds the output files and a log of events. `BuildContents`,
  `ProcessGroup` and `RunBatch` are the imperative loops proved against them.
- `Traces`: facts about any run built from group outcomes of the right shape.
- `BatchProperties`: what a run does. It covers how a run ends, the order of events, the
  skip list, the cooldown, and which transcripts the output directory holds afterwards.
- `Transcribe`: `transcribe_batch` from the top. It covers model lookup, the existence
  checks, reading the instructions and loading the plan, then the loop.

The Gemini service is an oracle: `replies(i)` is the service's answer to the request for
group `i`. The answer is a transcript, a response without text, no candidates, or an
exception. Which paths exist, what `os.path.abspath` returns and the lines of the pages file
are inputs as well.

`parse_range` does not reject a descending run: `range(5, 3)` is empty, so `5-2` gives `[]`
(`RangeParser.ReversedRunExample`). A run with an unreadable side, such as `a-3`, raises
(`RangeParser.LetterSideExample`).

## Model

| member | source | states |
|---|---|---|
| Text.TrimStart | run.py:40 | the leading part `strip` removes is all whitespace, and what remains starts with a non-space |
| Text.TrimEnd | run.py:40 | the trailing part `strip` removes is all whitespace, and what remains ends with a non-space |
| Text.Strip | run.py:40 | `str.strip()`: the line without Python whitespace at either end; `StripSpec`, `StripUnchanged` and `StripIdempotent` prove what it keeps and removes |
| Text.StripSpec | run.py:77 | `strip` returns a contiguous slice of the line, with only whitespace around it and no whitespace at either end |
| Text.StripUnchanged | run.py:77 | a string without whitespace at either end is left as it is by `strip` |
| Text.StripIdempotent | run.py:77 | stripping the stripped line changes nothing |
| Text.BlankIffAllSpace | run.py:77 | a line is dropped as blank exactly when every one of its characters is whitespace |
| Text.Split | run.py:35 | `split` gives one more piece than there are separators, and no piece holds the separator |
| Text.SplitThenJoin | run.py:35 | joining the pieces of a split with the separator gives the string back |
| Text.JoinThenSplit | run.py:124 | splitting a join of separator-free pieces gives the pieces back |
| Text.SplitAppend | run.py:35 | splitting `s + sep + t` splits `s` and `t` separately |
| Text.Join | run.py:124 | `sep.join(parts)`; `SplitThenJoin` and `JoinThenSplit` prove it inverse to `Split` for separator-free pieces |
| Text.Decimal | run.py:100 | `str(n)` is a non-empty string of digits, of one digit exactly when n < 10 |
| Text.DecimalValue | run.py:100 | the digits of `str(n)` have the value n |
| Text.ParseInt | run.py:37 | `int()` in base 10 for the strings `parse_range` passes it, which never hold '-'; `None` where `int()` then raises ValueError; `ParseIntStrips`, `SeparatorNotSkipped`, `DigitsParse` and `DecimalParses` state what it reads |
| Text.TrimIntEnd | run.py:37 | the trailing whitespace `int()` skips is removed and nothing else: the result is a prefix, everything after it is `int()` whitespace, and it does not end with such a character |
| Text.ParseUnsigned | run.py:37 | the value of a numeral after an optional `+`, `None` for any other text; `DigitsParse` gives its value on digits |
| Text.ParseIntStrips | run.py:37 | `int()` reads a numeral the same with any whitespace it skips before and after it (tab, newline, vertical tab, form feed, carriage return, space, non-ASCII whitespace) |
| Text.SeparatorNotSkipped | run.py:37-40 | `strip` removes U+001C, but `int()` does not skip it: `int('2\x1c')` raises while `int('2\x1c'.strip())` reads 2 |
| Text.DigitsParse | run.py:40 | `int()` of a string of digits is its value |
| Text.DecimalParses | run.py:40 | `int(str(n)) == n` |
| Text.Pad2Shape | run.py:91 | `f"{n:02d}"` has at least two digits, and is `str(n)` from 10 on |
| Text.Pad2 | run.py:91 | `f"{n:02d}"`; `Pad2Shape`, `Pad2Parses` and `Pad2Injective` prove its shape, read-back and injectivity |
| Text.Pad2Parses | run.py:124 | `int(f"{n:02d}") == n` |
| Text.Pad2Injective | run.py:91 | different page numbers pad to different strings |
| Text.ListRepr | run.py:100 | `str(list)` of a list of ints, as `format` prints it; `ListReprFields` reads it back |
| Text.ListReprFields | run.py:100 | a non-empty printed list, between its brackets and split at ',', has one field per number, and `int()` reads each field back as that number |
| RangeParser.Interval | run.py:38 | `range(lo, hi)` is the ascending run lo..hi-1, empty when hi <= lo |
| RangeParser.ParseToken | run.py:36-40 | one comma-separated part: the run between the two sides of '-', or one page, or the ValueError raised; `ParseTokenOkIff` says exactly when it succeeds, and `RunToken`, `StartUnreadable`, `EndUnreadable`, `ManyDashesRaise`, `SingleToken` and `BlankTokenRaises` give the page list or the error in each case |
| RangeParser.ParseTokens | run.py:35-41 | the parts in order, their pages concatenated, or the first part's error; `ParseTokensAppend`, `ParseTokensOkIff` and `ParseTokensLength` state it |
| RangeParser.Parse | run.py:28-41 | `parse_range`; `ParseRange`, `ParseOkIff`, `ParseConcat` and `ParseLength` state it |
| RangeParser.ParseRange | run.py:34-41 | the token loop returns exactly what `Parse` specifies, the pages or the first error |
| RangeParser.ParseTokensAppend | run.py:35-41 | the pages of two token lists are the concatenation of their pages, and an error in the first list wins |
| RangeParser.ParseConcat | run.py:35-41 | parsing `s,t` parses s and then t, in that order, and stops at s's error |
| RangeParser.ParseTokensOkIff | run.py:35-41 | a token list parses exactly when every token parses |
| RangeParser.ParseOkIff | run.py:35-41 | a range string parses exactly when each of its comma-separated tokens parses |
| RangeParser.ParseTokensLength | run.py:38-40 | the page list has as many pages as the tokens' widths add up to |
| RangeParser.ParseLength | run.py:35-41 | the same count for a whole range string |
| RangeParser.OneToken | run.py:35 | a string without ',' is a single token |
| RangeParser.SinglePage | run.py:40 | the token `str(n)` is the page list `[n]` |
| RangeParser.RunToken | run.py:36-38 | the token `x-y` with readable x and y is the run x..y inclusive |
| RangeParser.TwoPieces | run.py:37-38 | a token splitting into two readable pieces is the inclusive run between them |
| RangeParser.PageRun | run.py:36-38 | `a-b` gives b-a+1 pages a, a+1, ..., b, and none when b < a |
| RangeParser.RunLiteral | run.py:36-38 | a written-out run token parses to the run it names |
| RangeParser.ManyDashesRaise | run.py:37 | a token with two or more '-' raises |
| RangeParser.LeadingDashRaises | run.py:37 | a token starting with '-' raises on the empty start, so negative pages are refused |
| RangeParser.BlankTokenRaises | run.py:40 | an empty or whitespace-only token raises |
| RangeParser.MalformedTokenRaises | run.py:35-41 | one bad token makes the whole range string raise |
| RangeParser.TrailingCommaRaises | run.py:35 | a trailing ',' leaves an empty token, which raises |
| RangeParser.ThreeTokens | run.py:35-41 | three tokens give their page lists concatenated, in token order |
| RangeParser.ExampleFirst | run.py:32 | `2-5` gives [2, 3, 4, 5] |
| RangeParser.ExampleMiddle | run.py:32 | `10` gives [10] |
| RangeParser.ExampleLast | run.py:32 | `7-9` gives [7, 8, 9] |
| RangeParser.DocstringExample | run.py:32 | `2-5,10,7-9` gives [2, 3, 4, 5, 10, 7, 8, 9], unsorted and in token order |
| RangeParser.ReversedRunExample | run.py:38 | `5-2` gives the empty list |
| RangeParser.LetterSideExample | run.py:37 | `a-3` raises on `a` |
| RangeParser.ParseTokenOkIff | run.py:36-40 | a token parses exactly when it is a run of exactly two pieces that `int()` reads, or a token without '-' whose stripped text `int()` reads |
| RangeParser.StartUnreadable | run.py:37 | a token with '-' whose start `int()` cannot read raises on that start |
| RangeParser.EndUnreadable | run.py:37 | a token with '-' whose start `int()` reads and whose end it cannot read raises on that end |
| RangeParser.SingleToken | run.py:39-40 | a token without '-' is the one page `int()` reads from its stripped text, or raises on that stripped text |
| RangeParser.EndLetterExample | run.py:37 | `3-a` raises on `a` |
| RangeParser.WordExample | run.py:40 | `abc` raises on `abc` |
| RangeParser.SeparatorSideExample | run.py:37 | `2\x1c-5` raises on its start `2\x1c`, although the separator is whitespace to `strip` |
| RangeParser.ThreePieces | run.py:37 | a token with three readable pieces raises for too many values to unpack |
| RangeParser.ThreeValuesExample | run.py:37 | `1-2-3` raises for too many values |
| RangeParser.NegativeExample | run.py:37 | `-3` raises on the empty start |
| Paths.RFind | run.py:44 | the index found holds the character, and no later index does |
| Paths.TrimTrailing | run.py:46 | only trailing copies of the character are removed, and the result does not end with one |
| Paths.Basename | run.py:44 | `posixpath.basename`; `BasenameSpec` and `BasenameOfJoin` state it |
| Paths.Dirname | run.py:46 | `posixpath.dirname`; `DirnameOfJoin` states it |
| Paths.Splitext | run.py:45 | `posixpath.splitext`; `SplitextSpec`, `SplitextOfName`, `SplitextNoDot` and `SplitextHiddenName` state it |
| Paths.PathJoin | run.py:92 | `os.path.join` of a directory and a relative name; `BasenameOfJoin`, `DirnameOfJoin` and `PathJoinInjective` state it |
| Paths.PdfDirAndName | run.py:43-46 | `get_pdf_dir_and_name`; `PdfDirAndNameOfPath` and `PdfNamePlain` state it |
| Paths.ImageDir | run.py:59 | the working directory `temp_<name>`; `ConventionsSpec` places it in the PDF's directory |
| Paths.DefaultPagesFile | run.py:61 | the default `pages_<name>.txt`; `ConventionsSpec` places it in the PDF's directory, apart from the working directory |
| Paths.PagesFile | run.py:60-61 | the pages file used; `PagesFileDefault` says when the default applies |
| Paths.BasenameSpec | run.py:44 | `basename` is the last component: a suffix of the path with no '/', preceded by '/' unless it is the whole path |
| Paths.SplitextSpec | run.py:45 | `splitext` splits the path into root + ext, where ext is empty or a final '.' suffix without '/' that follows a non-dot character of the last component |
| Paths.RFindUnique | run.py:44 | the last occurrence is the only index that satisfies RFind's contract |
| Paths.SplitextOfName | run.py:45 | `stem.ext` splits into stem and `.ext` |
| Paths.SplitextNoDot | run.py:45 | a name without '.' has no extension |
| Paths.SplitextHiddenName | run.py:45 | a dot file such as `.name` has no extension |
| Paths.BasenameOfJoin | run.py:92 | the basename of `join(dir, name)` is name |
| Paths.PathJoinInjective | run.py:125 | in one directory, different relative names give different paths |
| Paths.DirnameOfJoin | run.py:46 | the dirname of `join(dir, name)` is dir |
| Paths.PdfDirAndNameOfPath | run.py:43-46 | for `dir/stem.pdf` the directory is dir and the name is stem |
| Paths.PdfNamePlain | run.py:43-46 | the PDF name holds no '/', and the working directory path does not end with '/' |
| Paths.ConventionsSpec | run.py:59-61 | `temp_<name>` and `pages_<name>.txt` lie directly in the PDF's directory, and they are different paths |
| Paths.PagesFileDefault | run.py:60-61 | the default pages file is used exactly when none or an empty one is given, or the default is given |
| Naming.ImageName | run.py:91 | `page-NN.png`; `ImageNameInjective` and `ImageNameExamples` state it |
| Naming.ImagePath | run.py:92 | the image's path; `ImagePathSpec` states it |
| Naming.SafeName | run.py:124 | `safe_name`; `SafeNameFields` reads it back and `SafeNameInjective` proves it injective |
| Naming.SafeNameFields | run.py:124 | an empty page list gives ""; otherwise splitting `safe_name` at '_' gives one field per page, and `int()` reads each field back as that page |
| Naming.OutputName | run.py:124-125 | the output file name; `OutputNameInjective` and `OutputNameExample` state it |
| Naming.OutputPath | run.py:125 | `output_path`; `OutputPathSpec` and `OutputPathInjective` state it |
| Naming.UserPrompt | run.py:100 | `USER_PROMPT.format(pages)`; `UserPromptPages` and `UserPromptInjective` state it |
| Naming.ImageNameInjective | run.py:91 | different pages have different image names, and an image name holds no '/' |
| Naming.ImagePathSpec | run.py:91-92 | the image path is the image name inside the image directory |
| Naming.ImageNameExamples | run.py:90-91 | page 7 is `page-07.png`, and page 123 is `page-123.png` |
| Naming.SafeNameInjective | run.py:124 | different page lists give different `safe_name`s |
| Naming.OutputNameInjective | run.py:124-125 | for one model, output names are equal exactly when the page lists are |
| Naming.OutputPathInjective | run.py:125 | for one model and directory, output paths are equal exactly when the page lists are |
| Naming.OutputPathSpec | run.py:124-125 | the output name holds no '/', and the output path is that name directly inside the output directory |
| Naming.OutputNameExample | run.py:124-125 | pages [2, 3, 4, 5] with model 25fl are written to `ocr_25fl_pages_02_03_04_05.md` |
| Naming.UserPromptPages | run.py:100 | the prompt is USER_PROMPT's text followed by the bracketed page list: `[]` for no pages, and otherwise fields between the brackets that, split at ',', `int()` reads back as the pages in order |
| Naming.UserPromptInjective | run.py:100 | two page lists give the same prompt exactly when they are equal |
| Naming.UserPromptExample | run.py:23 | for the pages [2, 3, 4] the prompt ends with `[2, 3, 4]`, as Python prints that list |
| GroupPlan.Kept | run.py:77 | a line gives at most one range string, non-empty and already stripped |
| GroupPlan.NonBlank | run.py:77 | the range strings are at most the lines, each non-empty and stripped |
| GroupPlan.NonBlankAppend | run.py:77 | lines are filtered one by one, in file order |
| GroupPlan.NonBlankOfBlankLines | run.py:77 | a file of blank lines gives no letters |
| GroupPlan.BlankLineIgnored | run.py:77 | a blank line changes nothing in the plan and takes no group index |
| GroupPlan.GroupIndex | run.py:77-80 | a non-blank line's group index is the number of non-blank lines before it, and that group's range string is the stripped line |
| GroupPlan.Collect | run.py:78 | a list comprehension whose elements may raise; `CollectOkIff`, `CollectValues` and `CollectFirstError` state it |
| GroupPlan.ParseAll | run.py:78 | `pages_list`; `ParseAllSpec` and `ParseAllFirstError` state it |
| GroupPlan.LoadPlan | run.py:74-78 | `range_strings` and `pages_list` from the lines of the pages file; `LoadPlanSpec` and `BadLineFails` state it |
| GroupPlan.CollectOkIff | run.py:78 | the list comprehension completes exactly when no element raises |
| GroupPlan.CollectValues | run.py:78 | a completed comprehension keeps every value, in order |
| GroupPlan.CollectFirstError | run.py:78 | the comprehension raises the first element's error |
| GroupPlan.ParseAllSpec | run.py:78 | `pages_list` exists exactly when every range string parses, and then holds each one's pages, in order |
| GroupPlan.ParseAllFirstError | run.py:78 | the error raised is the first bad range string's |
| GroupPlan.LoadPlanSpec | run.py:74-78 | the plan has one page list per non-blank line, the parse of the stripped line, when every such line parses |
| GroupPlan.BadLineFails | run.py:74-78 | one line that does not parse prevents the plan from loading |
| BatchRunner.Images | run.py:89-99 | the images of a group's pages or the first missing name; `BatchProperties.ImagesOk`, `ImagesErr` and `ImagesMissingPrefix` state it |
| BatchRunner.Contents | run.py:88-100 | `content_items`; `BatchProperties.ContentsSpec` states it, and `BuildContents` is the loop proved equal to it |
| BatchRunner.Step | run.py:81-160 | one iteration of the group loop; `BatchProperties.StepSpec` and `StepShaped` state it, and `ProcessGroup` is proved equal to it |
| BatchRunner.RunFrom | run.py:80-160 | the group loop from a given group; `BatchProperties` states its outcome and trace, and `RunBatch` is proved equal to it |
| BatchRunner.Apply | run.py:127-128 | the effect of one event on the files; `Workspace.Perform` is proved equal to it |
| BatchRunner.Replay | run.py:127-128 | the effect of a trace on the files; `ReplayAppend`, `BatchProperties.ReplayFrame` and `ReplayLastWrite` state it |
| BatchRunner.ReplayAppend | run.py:127-128 | the files after two stretches of events are those after the first, then the second |
| BatchRunner.Workspace.Perform | run.py:127-128 | a write replaces the file's contents, a truncation empties it, other events leave the files alone, and every event is logged |
| BatchRunner.ImagesMissingPrefix | run.py:89-99 | once an image is missing, later pages do not change the outcome |
| BatchRunner.BuildContents | run.py:88-100 | the image loop builds exactly the images and prompt `Contents` specifies, or stops at the first missing image |
| BatchRunner.ProcessGroup | run.py:81-160 | one loop iteration does what `Step` specifies: it logs exactly that step's events and applies them to the files |
| BatchRunner.RunBatch | run.py:80-160 | the loop ends as `RunFrom(job, 0)` ends, logs exactly its trace, and leaves the files that trace produces |
| Traces.RunOfStatus | run.py:80-160 | a run finishes exactly when every group goes on, and otherwise stops at the first group that does not |
| Traces.RunOfGroups | run.py:80 | the trace's groups are in plan order and none follows the group the run stopped at |
| Traces.RunOfPassedEvents | run.py:80-160 | every group the run got past went on, and all its events are in the trace |
| Traces.RunOfSkips | run.py:81-83 | the events of skipped groups are exactly the Skipped events |
| Traces.RunOfCooldown | run.py:127-160 | every write is followed at once by its group's sleep, and every sleep comes right after a write |
| Traces.RunOfAnswered | run.py:103-128 | every write or truncation comes right after its group's request |
| Traces.RunOfTruncation | run.py:127-128 | a truncation is the last event, and the run stopped at its group because the write raised |
| Traces.RunOfFailingGroup | run.py:94-121 | the stopping group leaves only its request, and a truncation only when the write raised |
| Traces.RunOfEndsTruncated | run.py:151-156 | a run stopped by a raised write ends with the truncation of that group's file |
| BatchProperties.StepSpec | run.py:81-156 | a group goes on exactly when it is skipped or its images exist and a transcript comes back, otherwise it stops for its cause, and its events are tagged with it |
| BatchProperties.ImagesOk | run.py:88-96 | the images are collected exactly when every page's image exists, one per page in page order |
| BatchProperties.ImagesErr | run.py:94-99 | the missing name reported is that of the first page without an image |
| BatchProperties.ContentsSpec | run.py:88-100 | `content_items` is every page's image in order followed by one prompt (pages+1 items), or the first missing image's name |
| BatchProperties.StepShaped | run.py:81-160 | one group's events take one of the shapes the loop body allows |
| BatchProperties.StepsShaped | run.py:80-160 | the shapes hold for every group of the plan |
| BatchProperties.FinishedIff | run.py:80-160 | a run finishes exactly when every group from its start proceeds |
| BatchProperties.AbortedSpec | run.py:80-160 | a run that stops, stops at a reached, non-skipped group that does not proceed, for that group's cause, after every earlier group proceeded |
| BatchProperties.FirstFailureStops | run.py:80-160 | the first group that does not proceed is where the run stops, and why |
| BatchProperties.PassedProceeds | run.py:80-160 | every group the run got past proceeded |
| BatchProperties.TraceGroups | run.py:80 | events come in plan order, from the starting group up to the stopping group |
| BatchProperties.SkipRespected | run.py:81-83 | skipped groups only log their skip, and each skipped group the run got past was logged |
| BatchProperties.SleepAfterEachWrite | run.py:158-160 | each write is followed at once by its group's COOLDOWN sleep, and each sleep comes after a write |
| BatchProperties.WritesFollowRequests | run.py:103-128 | files are written or truncated only right after their group's request |
| BatchProperties.TruncationEndsRun | run.py:151-156 | a truncation ends the run, at its group, because the write raised |
| BatchProperties.FailingGroupEvents | run.py:97-121 | the stopping group writes nothing and does not sleep; a missing image stops it before any request |
| BatchProperties.StepFits | run.py:103-128 | every event of a step carries the model, instructions, contents, output path and text the script uses |
| BatchProperties.EventsFit | run.py:80-160 | every event of a run carries those inputs |
| BatchProperties.PassedGroupsWritten | run.py:124-128 | every non-skipped group the run got past had its transcript written to its own output path |
| BatchProperties.WrittenStep | run.py:124-128 | a non-skipped group that goes on writes its transcript to its output path |
| BatchProperties.ReplayFrame | run.py:127 | events that do not touch a file leave that file as it was |
| BatchProperties.ReplayLastWrite | run.py:127-128 | after a write that no later event undoes, the file holds what was written |
| BatchProperties.TranscriptsKept | run.py:124-128 | after a run, each non-skipped group it got past has its transcript in its output file, unless a later group the run reached, not skipped and with the same pages, wrote or truncated the same file |
| BatchProperties.TruncatedFileEmpty | run.py:127-128 | when writing a reply without text raised, that group's output file is left empty |
| Transcribe.TranscribeBatch | run.py:48-160 | an unknown model key, a missing PDF, an uninitialized project, unreadable instructions or a bad plan exits early and changes no file and logs nothing; otherwise the loop runs on the job built from the inputs and ends as `RunFrom` says |
| Transcribe.ModelsSpec | run.py:15-21 | every key of MODELS is a plain non-empty name without '/' |
| Transcribe.DefaultModelKnown | run.py:171 | the `--model` default `25fl` is a key of MODELS, naming gemini-2.5-flash-lite |
| Transcribe.Setup | run.py:49-78 | the steps of `transcribe_batch` before the loop; `SetupOkIff` and `SetupOutputs` state it |
| Transcribe.SetupOkIff | run.py:49-78 | the loop runs exactly when the model key is known, the PDF, the working directory and the pages file exist, the instructions were read and every line of the pages file parses; the working directory then exists |
| Transcribe.SetupOutputs | run.py:59-62 | each transcript is written directly inside the working directory, under its own output name |
| Transcribe.BadLineStopsEverything | run.py:74-78 | a pages file with a bad line stops the script before the loop, so no request is sent and no file is written |

## Left out

- The Gemini client and `types.GenerateContentConfig`. The service is the oracle
  `replies: nat -> Reply`. It can return a transcript, a response whose `text` is None,
  no candidates, or an exception.
- Decoding images with PIL. `Image.open` runs outside the `try` and its errors would end the
  script with a traceback. The model assumes it succeeds and names each image by its path.
- `os.path.abspath`. It depends on the working directory, so its result is the input
  `absPdfPath`.
- The JSON dump of a response without candidates (run.py:116-119). It is built whatever
  `verbose` is, and only printed when `verbose` is set. If building it raised, the `except`
  clause would end the run, and the `NoCandidates` return ends the run anyway, with no file
  written; the model leaves the dump out.
- The verbose usage and reasoning printout after a write (run.py:133-148). It only prints,
  but an exception raised there after a successful write would also be caught and end the
  run before the sleep. The model treats `verbose` as False there.
- Timing, the `print` messages and `time.sleep`. Each sleep is the `Slept` event in the
  workspace log, and each message is the `Exit` value or the failure it reports.
- Command-line parsing with argparse. `TranscribeBatch` takes the parsed values. A model
  key that is not in MODELS makes the script raise KeyError, which is the `UnknownModel` exit.
- File contents as bytes and encodings. Files hold strings, and the pages file is given as
  its lines.
- `open()` failing on the output file or the pages file, for example for permissions. The
  instructions file that cannot be read is modelled, as `InstructionsUnreadable`.
- ParseInt: a leading '-' is not read, so `int("-5")` is None here; `parse_range` never
  passes one to `int()`, because the pieces of `split('-')` and the tokens without '-' hold
  none.
- ParseInt: does not model CPython's limit of 4300 digits for `int()` of a string, past which
  it raises ValueError; page numbers are short.
- `int()` on non-ASCII Unicode digits. Only ASCII digits are accepted, and the pages files
  and CLI values here are ASCII.
