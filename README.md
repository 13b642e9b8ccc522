# transcriptbot in Dafny

A model of transcriptbot, a set of Python scripts that turn meeting recordings
into transcripts, Markdown summaries and TODO lists. The pipeline driver
(`run_pipeline.py`) checks that there is something to process. It then runs six
stage scripts in order:

1. copy OBS videos into the video directory;
2. copy music files into the audio directory;
3. extract WAV audio from the videos with ffmpeg;
4. transcribe the audio with Whisper;
5. summarise each transcript with the chat-completion API;
6. extract a TODO list from each transcript with the same API.

Four of the six stages (copying OBS videos, extracting audio, summarising, extracting TODOs) skip an input whose output file already exists. Copying music never skips: it copies under a numbered name instead. Transcription tests a different name from the one it writes.

The model works on values:

- A directory that a stage writes is a `map<string, string>` from file name to content.
- A directory that a stage reads is a listing `seq<Entry>` in the order the file system returns it.
- Whisper, ffmpeg and the OpenAI client are function parameters. Each returns `None` where the Python call raises.
- An OpenAI key is a boolean: present or absent.

Each stage script's loop is a `method` with loop invariants. It is proved equal to a recursive specification function (`Run`, `Transcribe`, `CopyAll`), and the properties of the script are lemmas about that function. The driver's `main` has no loop: `RunPipeline.Orchestrate` is a method proved equal to the function `Pipeline`, and the driver's properties are lemmas about `Pipeline`.

Modules:

- `Text`: the Python string operations the scripts use. These are `lower`, `strip`, `split()[0]`, `in`, `endswith` and `str(n)`.
- `Paths`: `Path.suffix` and `Path.stem`. Also glob patterns `*.ext` over a listing.
- `Order`: `sorted` on paths, by name.
- `Stage`: the skip-if-the-output-exists loop that four of the scripts share. It is proved once, generically.
- `Dates`: `extract_date_from_filename`.
- `Prompts`: the choice of prompt variant, by language and by session kind.
- One module per script:
  - `SummarizeTranscripts`
  - `ExtractTodos`
  - `TranscribeBatch`
  - `CopyMusicFiles`
  - `CopyObsVideos`
  - `ExtractAudio`
  - `RunPipeline`

Where the code and its documentation differ, the model follows the code:

- The documentation describes the copy stages as recognising a byte-identical file already copied and skipping it. The code compares no contents: copying music copies every audio file, under a numbered name when its name is taken (`CopyMusicFiles.CopiesEveryAudioFile`), and copying videos skips by name alone (`CopyObsVideos.CopiedExactlyWhenAbsent`).
- Transcription writes `{stem}_{lang}.txt` but tests for `{stem}.txt` before transcribing. A second run therefore transcribes again (`TranscribeBatch.RerunRetranscribes`).
- The driver reports "partially completed" whenever the summary stage fails. This holds whatever the TODO stage did.

## Model

| member | source | states |
|---|---|---|
| Text.Lower | src/summarize_transcripts.py:30 | `filename.lower()`: same length, each ASCII capital mapped to its small letter, every other character unchanged |
| Text.LowerNoUpper | src/summarize_transcripts.py:30 | the result of `lower()` holds no ASCII capital |
| Text.LowerSlice | src/summarize_transcripts.py:30 | lower-casing a slice is the same slice of the lower-cased string |
| Text.LowerAppend | src/summarize_transcripts.py:33-34 | lower-casing distributes over concatenation |
| Text.Contains | src/summarize_transcripts.py:30 | Python's substring test `p in s` holds exactly when `p` occurs at some position of `s` |
| Text.SkipSpace | src/summarize_transcripts.py:104 | the scan over leading whitespace stops at the first non-whitespace character or at the end, having passed only whitespace |
| Text.SkipSpaceBack | src/summarize_transcripts.py:104 | the backward scan over trailing whitespace stops after the last non-whitespace character, having passed only whitespace |
| Text.WordEnd | src/summarize_transcripts.py:161 | the scan over a word stops at the first whitespace character or at the end, having passed no whitespace |
| Text.Strip | src/summarize_transcripts.py:104 | `strip()`: the text with a whitespace-only prefix and a whitespace-only suffix cut off, and no whitespace at either end of the result |
| Text.FirstToken | src/summarize_transcripts.py:161 | `split()[0]`: a non-empty word without whitespace, preceded only by whitespace and followed by whitespace or the end |
| Text.FirstTokenOfPrefix | src/summarize_transcripts.py:161 | a word preceded only by whitespace and followed by whitespace or by nothing is the first token of the string |
| Text.Decimal | src/copy_music_files.py:30 | `str(counter)` is a non-empty string of digits |
| Text.DecimalRoundTrip | src/copy_music_files.py:30 | reading `str(n)` back gives `n` |
| Text.DecimalInjective | src/copy_music_files.py:30 | different counters are written differently |
| Paths.SuffixDot | src/copy_music_files.py:21 | the dot that starts `Path.suffix` is the last dot, and is neither the first nor the last character |
| Paths.LastDot | src/copy_music_files.py:29 | the last dot below a bound, or none |
| Paths.Suffix | src/copy_music_files.py:21 | `Path.suffix` is empty or a dot followed by at least one character with no further dot |
| Paths.StemSuffix | src/copy_music_files.py:28-29 | `stem + suffix` is the name |
| Paths.StemOfExtension | src/extract_todos.py:250 | for a name `b + e` with a non-empty `b` and a one-dot extension `e`, the stem is `b` and the suffix is `e` |
| Paths.Stem | src/extract_todos.py:250 | `Path.stem`: the name without its suffix; `StemSuffix` puts the two back together |
| Paths.Glob | src/transcribe_batch.py:21 | a `*.ext` glob keeps exactly the listed entries whose names end with `.ext`, in listing order |
| Paths.Select | src/copy_obs_videos.py:15-16 | the filter keeps exactly the listed entries that pass the test |
| Paths.SelectSnoc | src/extract_audio_from_videos.py:16-18 | filtering one more entry appends it when it passes the test |
| Paths.CollectMembers | src/transcribe_batch.py:16-21 | an entry is collected exactly when it is listed and matches one of the patterns |
| Paths.Collect | src/transcribe_batch.py:16-21 | the audio files: the matches of each pattern in turn; `CollectMembers` says which entries they are |
| Paths.CollectFiles | src/transcribe_batch.py:19-21 | the loop extending `audio_files` gives the matches of each pattern in turn, that is, exactly the matching entries |
| Order.NameLeTotal | src/summarize_transcripts.py:199 | any two names are comparable |
| Order.NameLeTransitive | src/summarize_transcripts.py:199 | the name order is transitive |
| Order.Insert | src/summarize_transcripts.py:199 | inserting into a sorted list keeps it sorted, and adds exactly that entry |
| Order.SortedCons | src/summarize_transcripts.py:199 | an entry no greater than every entry of a sorted list can go in front of it |
| Order.InsertBound | src/summarize_transcripts.py:199 | inserting an entry not below the head of a sorted list keeps the head a lower bound |
| Order.SortByName | src/summarize_transcripts.py:199 | `sorted(...)` is sorted by name and is a permutation of its input |
| Order.SortByNameMembers | src/summarize_transcripts.py:199 | sorting keeps exactly the same entries |
| Stage.IfNonEmpty | src/summarize_transcripts.py:217-219 | `if summary:` saves only a present, non-empty answer |
| Stage.Step | src/summarize_transcripts.py:200-219 | one turn of the skip-if-the-output-exists loop: skip, record a failed attempt, or write the answer |
| Stage.Run | src/summarize_transcripts.py:199-221 | the whole loop, turn by turn in input order; the `Run*` lemmas state what it does |
| Stage.RunSnoc | src/summarize_transcripts.py:199-221 | the loop over one more input is one more turn |
| Stage.RunLoop | src/summarize_transcripts.py:198-223 | the imperative loop computes the specification `Run`: the new directory, the inputs processed and the inputs written |
| Stage.RunKeepsExisting | src/summarize_transcripts.py:210-212 | files present before the loop keep their content |
| Stage.RunLogs | src/summarize_transcripts.py:215-219 | only inputs are processed, and only processed inputs with an answer are written |
| Stage.RunWritesFresh | src/summarize_transcripts.py:208-219 | every written name was absent before and is present after; no name is written twice; the directory grows by the number written |
| Stage.RunAddsOnlyOutputs | src/summarize_transcripts.py:208-219 | the new names are exactly the output names of the written inputs |
| Stage.RunWritesProduced | src/summarize_transcripts.py:215-218 | each written file holds the answer produced for its input |
| Stage.RunSkipsExisting | src/summarize_transcripts.py:210-212 | an input whose output name already existed is never processed |
| Stage.RunCovers | src/summarize_transcripts.py:199-219 | afterwards every input has its output, or produced nothing |
| Stage.RunStable | src/extract_todos.py:253-255 | when every input has its output or produces nothing, the loop changes nothing |
| Stage.RunIdempotent | src/extract_todos.py:253-255 | a second run changes nothing and retries only the inputs that produced nothing |
| Stage.RunAttemptsExactlyAbsent | src/summarize_transcripts.py:208-215 | when output names identify inputs, an input is processed exactly when its output did not exist |
| Stage.RunInNameOrder | src/summarize_transcripts.py:199 | inputs in name order are processed and written in name order |
| Stage.RunNeverFails | src/copy_obs_videos.py:18-21 | when producing never fails, every input processed is written |
| Stage.RunAllPresent | src/extract_todos.py:253-255 | when every input already has its output, the loop processes nothing and changes nothing |
| Dates.FirstShape | src/summarize_transcripts.py:139-140 | `re.search`: the leftmost position where four digits, a dash, two digits, a dash and two digits start, or none |
| Dates.Pad | src/summarize_transcripts.py:147 | `%02d`/`%04d` give exactly the width in digits |
| Dates.FormatDotted | src/summarize_transcripts.py:147 | `strftime('%d.%m.%Y')` has ten characters |
| Dates.PadOfDigits | src/summarize_transcripts.py:146-147 | padding a digit string's value to its own width gives the string back |
| Dates.PadRoundTrip | src/summarize_transcripts.py:146-147 | reading a padded number gives the number when it fits the width |
| Dates.ExtractDateNeedsShape | src/summarize_transcripts.py:139-151 | a date is returned only if the name contains the `YYYY-MM-DD` shape; without one the result is `None` |
| Dates.ExtractDate | src/summarize_transcripts.py:132-151 | `extract_date_from_filename`: a result only when a `YYYY-MM-DD` occurs, and then a ten-character `DD.MM.YYYY` with dots at the third and sixth place |
| Dates.DigitsValue | src/summarize_transcripts.py:146 | the value of two and of four digits, written out |
| Dates.ParseIsoDigits | src/summarize_transcripts.py:144-146 | the year, month and day read from a match are the values of its four, two and two digits |
| Dates.ParseDottedParts | src/summarize_transcripts.py:147 | splitting `DD.MM.YYYY` at its dots reads back the three digit groups |
| Dates.LeadingMatchDecides | src/summarize_transcripts.py:140-149 | when a name starts with the date shape, that match alone decides the result, whatever follows |
| Dates.LeapDayRule | src/summarize_transcripts.py:144-149 | 29 February is accepted exactly in Gregorian leap years |
| Dates.FormatOfDigits | src/summarize_transcripts.py:146-147 | formatting the date that three digit strings denote writes those digits back |
| Dates.ExtractDateRearranges | src/summarize_transcripts.py:143-147 | for a valid first match `YYYY-MM-DD` the result is exactly `DD.MM.YYYY` built from the matched characters |
| Dates.FormatParse | src/summarize_transcripts.py:147 | re-splitting a formatted date gives the day, month and year back |
| Dates.ExtractDateRoundTrip | src/summarize_transcripts.py:143-147 | re-splitting the result gives the day, month and year of the first match |
| Dates.OnlyFirstMatchCounts | src/summarize_transcripts.py:140-149 | a name starting with a `YYYY-MM-DD` that is not a calendar date gives `None`, whatever follows, even a valid date |
| Dates.MonthThirteenRejected | src/summarize_transcripts.py:144-149 | `2025-13-01` gives `None`, not an error |
| Dates.FebruaryThirtiethRejected | src/summarize_transcripts.py:144-149 | a leading match for 30 or 31 February gives `None`, in every year |
| Dates.NonLeapDayRejected | src/summarize_transcripts.py:144-149 | a leading match for 29 February of a common year gives `None`, whatever the year |
| Dates.YearZeroRejected | src/summarize_transcripts.py:144-149 | a leading match in year `0000` gives `None`, whatever its month and day |
| Prompts.ContainsBeforeExtension | src/summarize_transcripts.py:33-34 | in a name whose only dot starts `.txt`, `w.txt` occurs exactly when the base ends with `w` |
| Prompts.OccursBeforeExtension | src/summarize_transcripts.py:33-34 | a base ending with `w` has `w.txt` right before its end |
| Prompts.OccurrenceEndsAtExtension | src/summarize_transcripts.py:33-34 | in a dot-free base followed by `.txt`, `w.txt` can occur only at the end, so the base ends with `w` |
| Prompts.LowerKeepsDotFree | src/summarize_transcripts.py:34 | lower-casing adds no dot |
| Prompts.LowerTxt | src/summarize_transcripts.py:34 | lower-casing leaves `.txt` alone |
| Prompts.DotFreeNameLanguage | src/summarize_transcripts.py:34-37 | for a one-dot `*.txt` name, English is chosen exactly when the lower-cased base ends with `_en` or `_english` |
| Prompts.EnglishPatterns | src/extract_todos.py:37 | `_en.txt` and `_english.txt` occur exactly when the base ends with `_en` or `_english` |
| Prompts.TaggedNameLanguage | src/extract_todos.py:37-38 | for `{stem}_{lang}.txt` with a stem and a tag without dots, English is chosen exactly when the lower-cased base ends with `_en` or `_english` |
| Prompts.EnglishTag | src/extract_todos.py:37-38 | every name `{stem}_en.txt` gets the English prompt, whatever the stem holds |
| Prompts.NoPatternIntoTag | src/extract_todos.py:37 | an English pattern cannot start in the stem and run into the tag, whose `_` is only the pattern's first character |
| Prompts.NoPatternAtTag | src/extract_todos.py:37 | an English pattern starts at the tag only when the tag is the pattern before its dot |
| Prompts.NoPatternAfterTag | src/extract_todos.py:37 | an English pattern cannot start after the tag's `_`, since no later character is a `_` |
| Prompts.NoPatternAcrossTag | src/extract_todos.py:37 | an English pattern absent from the lower-cased stem is absent from `{stem}_{code}.txt` too, unless the tag is the pattern before its dot |
| Prompts.OtherTag | src/extract_todos.py:37-38 | for any stem whose lower-cased form holds neither `_en.txt` nor `_english.txt`, every tag `_{code}` without capitals, `_` or dots in the code, other than `_en` and `_english`, gives German |
| Prompts.GermanTags | src/extract_todos.py:36-38 | `_de` and `_nn` give German for every stem whose lower-cased form holds neither `_en.txt` nor `_english.txt` |
| Prompts.UnknownTag | src/summarize_transcripts.py:33-37 | `_unknown` gives German for every stem whose lower-cased form holds neither `_en.txt` nor `_english.txt` |
| Prompts.ThesisCoachingAnyCase | src/summarize_transcripts.py:30 | thesis mode exactly when some position of the name spells `thesis-coaching` in any case |
| Prompts.ThesisPrefix | src/summarize_transcripts.py:30 | a name starting `Thesis-Coaching` is a thesis-coaching session |
| Prompts.EnglishThesisSession | src/summarize_transcripts.py:30-40 | for every stem, `Thesis-Coaching {stem}_en.txt` is a thesis session and gets both English prompts: the session kind does not depend on the language |
| Prompts.PromptLanguage | src/summarize_transcripts.py:33-37 | the language test on the lower-cased file name, shared by both prompts; `DotFreeNameLanguage` and `EnglishTag` state which names it makes English |
| Prompts.SummaryKind | src/summarize_transcripts.py:29-30 | the thesis-coaching test on the lower-cased file name; `ThesisCoachingAnyCase` states it |
| Prompts.CreateSummaryPrompt | src/summarize_transcripts.py:26-94 | `create_summary_prompt`: the session kind and language chosen from the file name, with the transcript |
| Prompts.CreateTodoPrompt | src/extract_todos.py:32-171 | `create_todo_prompt`: the language chosen from the file name, with the transcript |
| SummarizeTranscripts.SummaryName | src/summarize_transcripts.py:157-164 | the summary name ends with `.md`; with a date found it is the first whitespace-separated word of the stem plus `.md`; otherwise it is the whole stem plus `.md` |
| SummarizeTranscripts.Summarize | src/summarize_transcripts.py:96-130 | `summarize_transcript`: nothing for an unreadable file or under 100 stripped characters, otherwise the answer to the summary prompt |
| SummarizeTranscripts.SummaryFile | src/summarize_transcripts.py:200-208 | the summary name of a transcript, the one `main` tests and `save_summary` writes |
| SummarizeTranscripts.Run | src/summarize_transcripts.py:178-221 | `main` as a value: nothing without a key or transcripts, else the shared loop over the sorted `*.txt` files |
| SummarizeTranscripts.Process | src/summarize_transcripts.py:178-223 | `main`: the new directory and `success_count` are those of `Run`; old summaries are kept; the directory grows by `success_count`; without a key nothing changes |
| SummarizeTranscripts.DatedSummaryName | src/summarize_transcripts.py:159-161 | a dated stem, with or without leading whitespace, is summarised under its first word plus `.md` |
| SummarizeTranscripts.DateFirstName | src/summarize_transcripts.py:202-206 | a stem of a valid date, alone or followed by a space and a title, is summarised as `{date}.md`, so same-day sessions share one name |
| SummarizeTranscripts.SkipsExisting | src/summarize_transcripts.py:189-212 | the API is asked only about `*.txt` transcripts whose summary did not exist |
| SummarizeTranscripts.WritesOnlySummaries | src/summarize_transcripts.py:96-130 | every summary written comes from a file with at least 100 characters after stripping; it is a new, non-empty API answer to that transcript's summary prompt |
| SummarizeTranscripts.OneSummaryPerName | src/summarize_transcripts.py:202-218 | no two summaries written in one run share a name |
| SummarizeTranscripts.AddsOnlySummaries | src/summarize_transcripts.py:208-219 | the only new names are the summaries written |
| SummarizeTranscripts.InNameOrder | src/summarize_transcripts.py:199 | transcripts are processed in name order |
| SummarizeTranscripts.Idempotent | src/summarize_transcripts.py:210-212 | a second run writes nothing and asks again only where the API gave nothing |
| ExtractTodos.TodoName | src/extract_todos.py:213 | the TODO name is the stem followed by `_TODOs.md` |
| ExtractTodos.ExtractTodos | src/extract_todos.py:173-207 | `extract_todos`: nothing for an unreadable file or under 100 stripped characters, otherwise the answer to the TODO prompt |
| ExtractTodos.TodoFile | src/extract_todos.py:213 | the TODO name of a transcript, the one `main` tests and `save_todos` writes |
| ExtractTodos.Run | src/extract_todos.py:226-262 | `main` as a value: nothing without a key or transcripts, else the shared loop over the sorted `*.txt` files |
| ExtractTodos.Process | src/extract_todos.py:226-266 | `main`: the new directory and `success_count` are those of `Run`; old files are kept; the directory grows by `success_count`; without a key nothing changes |
| ExtractTodos.TodoNamesDistinct | src/extract_todos.py:213 | different `*.txt` names with a non-empty base give different TODO names |
| ExtractTodos.HiddenNameCollides | src/extract_todos.py:213 | `.txt` and `.txt.txt` share a TODO name |
| ExtractTodos.AskedExactlyWhenAbsent | src/extract_todos.py:247-258 | with a key, `extract_todos` is called on a transcript exactly when its TODO file did not exist (it may still return nothing before any API call, for a short or unreadable transcript) |
| ExtractTodos.WritesOnlyTodos | src/extract_todos.py:173-207 | every TODO file written comes from a file with at least 100 characters after stripping; it is a new, non-empty API answer to that transcript's TODO prompt |
| ExtractTodos.SkipsExisting | src/extract_todos.py:250-255 | the API is asked only about `*.txt` transcripts whose TODO file did not exist |
| ExtractTodos.AddsOnlyTodos | src/extract_todos.py:250-262 | the only new names are the TODO files written |
| ExtractTodos.InNameOrder | src/extract_todos.py:247 | transcripts are processed in name order |
| ExtractTodos.Idempotent | src/extract_todos.py:253-255 | a second run writes nothing and asks again only where the API gave nothing |
| TranscribeBatch.OutputName | src/transcribe_batch.py:36-39 | `{stem}_{lang}.txt` starts with the stem and `_`, ends with `.txt`, and is never the skip-check name `{stem}.txt` |
| TranscribeBatch.CheckName | src/transcribe_batch.py:27 | `{stem}.txt`, the name whose existence skips a file; `OutputName` is never it |
| TranscribeBatch.Step | src/transcribe_batch.py:26-45 | one turn: skip on `{stem}.txt`, stop on an exception, or save the transcript |
| TranscribeBatch.Transcribe | src/transcribe_batch.py:26-45 | the transcription loop, turn by turn; `CrashStops` and `TranscribesUnchecked` state what it does |
| TranscribeBatch.Script | src/transcribe_batch.py:16-45 | the script: collection, then the loop |
| TranscribeBatch.CrashStops | src/transcribe_batch.py:33 | once Whisper has raised, the remaining files change nothing |
| TranscribeBatch.TranscribeSnoc | src/transcribe_batch.py:26-40 | the loop over one more file is one more turn of the specification |
| TranscribeBatch.TranscribeOne | src/transcribe_batch.py:27-40 | one turn of the loop: skip when `{stem}.txt` exists, stop on an exception, otherwise write the transcript |
| TranscribeBatch.Process | src/transcribe_batch.py:16-45 | the collection loop and the transcription loop compute the specification `Script`; an exception ends the script |
| TranscribeBatch.TranscribesUnchecked | src/transcribe_batch.py:26-33 | no file is lost; only collected files whose `{stem}.txt` is absent are transcribed; without an exception every file is transcribed or has that name |
| TranscribeBatch.WritesTranscripts | src/transcribe_batch.py:39-40 | every new or changed file is `{stem}_{lang}.txt` of a transcribed file and holds Whisper's text |
| TranscribeBatch.TranscriptsPresent | src/transcribe_batch.py:39-40 | each transcribed file's transcript is present afterwards |
| TranscribeBatch.NoOtherNames | src/transcribe_batch.py:39-40 | a name the script does not write stays absent |
| TranscribeBatch.TranscribesAll | src/transcribe_batch.py:27-40 | when no `{stem}.txt` exists, none appears, and without an exception every collected file is transcribed |
| TranscribeBatch.ChecksStayAbsent | src/transcribe_batch.py:27-29 | when no output coincides with a skip-check name, no `{stem}.txt` appears during the run |
| TranscribeBatch.NoneSkipped | src/transcribe_batch.py:27-40 | when no skip-check name exists or is written, a run without an exception transcribes every file |
| TranscribeBatch.RerunRetranscribes | src/transcribe_batch.py:27-29 | the script's own outputs never cause a skip, so a second run transcribes every file again |
| TranscribeBatch.DetectedLanguageSelectsPrompt | src/transcribe_batch.py:36-39 | language `en` leads to the English prompts for every stem; when the lower-cased stem holds neither `_en.txt` nor `_english.txt`, `de`, `nn`, no language and every other code without capitals, `_` or dots except `english` lead to the German ones |
| CopyMusicFiles.CandidatesDistinct | src/copy_music_files.py:30 | `name`, `{stem}_1{suffix}`, `{stem}_2{suffix}`, ... are pairwise different |
| CopyMusicFiles.IsMusic | src/copy_music_files.py:16-21 | a regular file whose lower-cased suffix is one of the seven audio suffixes |
| CopyMusicFiles.Candidate | src/copy_music_files.py:22-30 | the k-th name tried: the name itself, then `{stem}_{k}{suffix}` |
| CopyMusicFiles.CopyStep | src/copy_music_files.py:21-34 | one turn: an audio file goes to the first free try of its name |
| CopyMusicFiles.CopyAll | src/copy_music_files.py:20-36 | the copy loop over the listing, turn by turn |
| CopyMusicFiles.CandidatesBelowGrows | src/copy_music_files.py:27-31 | each turn of the loop tries a name not tried before |
| CopyMusicFiles.FreeIndex | src/copy_music_files.py:27-31 | the search ends, at the least free try; the decreasing measure is the untried names of the finite directory |
| CopyMusicFiles.FreeName | src/copy_music_files.py:24-31 | the destination is free; it is the name itself when that is free; otherwise it is the first free `{stem}_{k}{suffix}` |
| CopyMusicFiles.FindDestination | src/copy_music_files.py:25-31 | the `while destination.exists()` loop finds that destination |
| CopyMusicFiles.CandidateKeepsSuffix | src/copy_music_files.py:28-30 | a renamed copy keeps the suffix |
| CopyMusicFiles.Process | src/copy_music_files.py:16-36 | the script's loop computes `CopyAll`; `copied_count` is the number of copies |
| CopyMusicFiles.CopyAllSnoc | src/copy_music_files.py:20-34 | copying one more listed file is one more turn of the loop |
| CopyMusicFiles.CopyStepKeepsTarget | src/copy_music_files.py:27-34 | one turn keeps the loop invariant: files of the original target keep their content, every destination is filled and was not in the original target, and no destination repeats |
| CopyMusicFiles.CopiesEveryAudioFile | src/copy_music_files.py:20-36 | every regular file with an accepted suffix is copied, without dedup; `copied_count` is their number, and the directory gains that many files |
| CopyMusicFiles.NeverOverwrites | src/copy_music_files.py:27-34 | old files keep their content; every destination was free and is filled; no destination is used twice |
| CopyMusicFiles.CopiesContents | src/copy_music_files.py:22-34 | the i-th destination holds the i-th audio file's content, under one of its tries |
| CopyMusicFiles.AddsOnlyDestinations | src/copy_music_files.py:34 | the new names are exactly the destinations |
| CopyObsVideos.Process | src/copy_obs_videos.py:12-23 | the loop computes `Run`; every video it processes is copied |
| CopyObsVideos.IsVideo | src/copy_obs_videos.py:12-16 | an entry whose lower-cased suffix is one of the four video suffixes |
| CopyObsVideos.Run | src/copy_obs_videos.py:15-23 | the videos in listing order through the shared skip-or-produce loop, copying under the same name |
| CopyObsVideos.CopiesOnlyVideos | src/copy_obs_videos.py:16-21 | only listed videos whose name was absent are copied, each with its content |
| CopyObsVideos.CopiedExactlyWhenAbsent | src/copy_obs_videos.py:17-23 | a video is copied exactly when no file of its name existed |
| CopyObsVideos.NeverOverwrites | src/copy_obs_videos.py:18 | files of the target keep their content |
| CopyObsVideos.AllVideosPresent | src/copy_obs_videos.py:15-21 | after a run every video's name is in the target |
| CopyObsVideos.SecondRunCopiesNothing | src/copy_obs_videos.py:18-23 | a second run changes nothing and copies nothing |
| ExtractAudio.AudioName | src/extract_audio_from_videos.py:20 | the output name is the stem followed by `.wav` |
| ExtractAudio.IsVideo | src/extract_audio_from_videos.py:13-18 | an entry whose lower-cased suffix is one of the four video suffixes |
| ExtractAudio.Run | src/extract_audio_from_videos.py:16-36 | the videos in listing order through the shared skip-or-produce loop, with ffmpeg as producer |
| ExtractAudio.Process | src/extract_audio_from_videos.py:13-36 | the loop with its `continue`s computes `Run`: the new directory, the videos tried and those extracted |
| ExtractAudio.ExtractSnoc | src/extract_audio_from_videos.py:16-36 | the loop over one more entry is one more turn of `Run` for a video, and nothing for any other entry |
| ExtractAudio.ExtractOne | src/extract_audio_from_videos.py:17-36 | one turn: skip a non-video or an existing audio file, otherwise run ffmpeg and write its output if it succeeds |
| ExtractAudio.AudioNameOfVideo | src/extract_audio_from_videos.py:17-20 | a video's audio name is its name with the four-character suffix replaced by `.wav` |
| ExtractAudio.OneAudioPerStem | src/extract_audio_from_videos.py:20-24 | no two extracted videos share an audio name, so videos sharing a stem give at most one audio file |
| ExtractAudio.ExtractsOnlyMissing | src/extract_audio_from_videos.py:17-34 | ffmpeg runs only on listed videos whose audio was absent; what it writes is its output; old files are kept |
| ExtractAudio.ErrorsDoNotStop | src/extract_audio_from_videos.py:27-36 | after a run every video has its audio, or ffmpeg failed on it |
| ExtractAudio.SecondRunRetriesOnlyFailures | src/extract_audio_from_videos.py:22-24 | a second run changes nothing and retries only the failures; with no failures it extracts nothing |
| RunPipeline.RunScript | run_pipeline.py:17-48 | a missing script counts as success exactly for optional stages; an optional stage fails only when launching raises; a mandatory one succeeds only with exit code 0 |
| RunPipeline.GlobNonEmpty | run_pipeline.py:72 | a `*.mkv` glob is non-empty exactly when some name matches |
| RunPipeline.CollectNonEmpty | run_pipeline.py:66-78 | the collected audio files are non-empty exactly when some name matches a pattern |
| RunPipeline.CheckPrerequisites | run_pipeline.py:50-87 | true exactly when there is audio in the audio or music directory, or a `*.mkv` in the video or OBS directory |
| RunPipeline.HasWork | run_pipeline.py:50-87 | what `check_prerequisites` looks for: audio in the audio or music directory, or a `*.mkv` in the video or OBS directory |
| RunPipeline.Classify | run_pipeline.py:145-162 | successful exactly when all three stages succeed; mostly when only TODOs fail; partially when the summary stage fails; failed exactly when transcription failed |
| RunPipeline.Orchestrate | run_pipeline.py:89-162 | `main` invokes the stages and reports as `Pipeline` says |
| RunPipeline.Pipeline | run_pipeline.py:89-162 | the stages `main` hands to `run_script`, in order, and how it reports |
| RunPipeline.StageGating | run_pipeline.py:103-138 | no stage runs without files; extraction runs exactly when there are files and the video directory holds a `*.mkv`; summary and TODO stages run exactly after a successful transcription |
| RunPipeline.TranscriptionMustExitCleanly | run_pipeline.py:125-130 | transcription succeeds exactly when its script exists and exits with 0 |
| RunPipeline.ReportReasons | run_pipeline.py:132-162 | `FAILED` is never reported; partially exactly when launching the summary script raised; mostly exactly when launching the TODO script raised and the summary launch did not |

## Left out

- Printing, emoji logging, `mkdir`, loading the Whisper model, and the final results count in `run_pipeline.py` (lines 164-185, output only).
- `src/constants.py` is not part of this model: it is configuration that no script imports.
- The literal prompt texts. Only the variant chosen is modelled: language and thesis versus technical meeting.
- Whisper, ffmpeg and the chat-completion API are deterministic function parameters. Their output is not modelled, and neither is nondeterminism between calls.
- ffmpeg errors other than `ffmpeg.Error` and partial output files. An exception other than `ffmpeg.Error` would end the script; the model treats every failure as caught.
- Read and decoding errors. A transcript that is not a regular file yields `None`, like any exception inside `summarize_transcript` and `extract_todos`.
- `Text.Lower`: lower-cases ASCII letters only. Non-ASCII case mapping is not modelled.
- `Dates.FirstShape`: `\d` matches ASCII digits only, not other Unicode digits.
- `Dates.FormatDotted`: `%Y` is modelled as four zero-padded digits; platform differences for years below 1000 are not modelled.
- Glob and `rglob` semantics are not modelled: recursion, hidden files, case sensitivity and matching directories. A listing is a given finite sequence, and the music listing already holds every entry below the directory. A `*.ext` pattern is a test that the name ends with `.ext`.
- `CopyObsVideos.Process`: a directory whose name has a video suffix is treated as a file. The script would raise in `copy2`.
- `TranscribeBatch.OutputName`: a detected language stored as `None` is written as `None` in the name. The model has only "absent", which gives `unknown`.
- A failing `shutil.copy2` (copy_music_files.py:34, copy_obs_videos.py:20) or `write_text` (transcribe_batch.py:40, summarize_transcripts.py:173, extract_todos.py:221) raises out of the script, leaving the remaining inputs unprocessed. In the model every copy and every write succeeds: `CopyObsVideos.CopyOf` is always present and `Stage.Step` always stores the answer. Only Whisper's exception is modelled as ending a script (`TranscribeBatch.CrashStops`).
- `shutil.copy2` metadata, environment lookups other than "the key is present", and `subprocess.run` itself are not modelled. A launch is an exit code or an exception.
- The stages are modelled one script at a time. `RunPipeline` does not compose their effects on the directories. It takes what each script's run ended with, plus the video listing seen at the extraction gate.
- The variable `is_german` in `create_summary_prompt` is computed but never used, so it has no counterpart.
- Concurrency between pipeline runs is not modelled: the scripts are sequential and take no locks.
