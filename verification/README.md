# ag_conf_transcribation in Dafny

A model of the audio pipeline of `ag_conf_transcribation`, with proofs about it. The pipeline:

1. converts a recording to 16 kHz mono 16-bit PCM (`_convert_to_wav`);
2. if the file is larger than a size budget, cuts it into chunks of equal duration (`split_audio`);
3. runs the speech-recognition client on each chunk and saves each transcript as `transcription_<k>.txt` (`transcribe_audio`);
4. merges the saved transcripts into one text of numbered `Part` sections that keep only the speaker lines (`merge_transcriptions`).

The project also models:
- the path decisions of `AudioConverter`, which extracts the audio track from an `.mp4` and converts anything else that is not `.wav`;
- where `TranscriptionSummarizer` gets its settings. The environment comes first, then the `DEFAULT` section of `config.ini` with `${NAME}` indirection, then a default. The summarizer refuses to start without an API key.

External effects become parameters:
- Each external program (ffmpeg, ffprobe, the recognition client) is a function `run` from an argument vector to a `CommandResult` (return code, stdout, stderr).
- The pydub and ffmpeg-python calls of `AudioConverter` are their outcome.
- `os.path.getsize` is a byte count.
- `float()` on ffprobe's output is `parseFloat`. `str()` on a float is `formatSeconds`.
- The transcription directory is a sequence of files in listing order.
- The environment and the parsed configuration section are maps.

Modules:
- `Results`: `Option`, `Result` and `CommandResult`.
- `Text`: the Python string operations the source uses: `isspace`, `strip`, `in`, `startswith`, `endswith`, `split`, `join`, `int()` and `str()`.
- `Paths`: `os.path.join`.
- `AudioProcessor`: conversion, the split plan and chunk extraction.
- `Transcription`: the transcription loop over a directory.
- `Merge`: the merge, plus a reader proving the merged text is unambiguous.
- `Sorting`: the stable sort behind `sorted(key=...)`.
- `AudioConverter`.
- `Summarization`.

Two behaviours of the code are worth stating up front:
- The merge does not fail when nothing was transcribed: an empty transcription directory gives an empty merged file (`Merge.NothingToMerge`, `Transcription.AllRunsFailed`).
- A chunk is not guaranteed to fit the size budget: the chunk count is the size ratio rounded to the nearest integer, so a file below 1.5 times the budget becomes a single chunk of the full recording (`AudioProcessor.ChunkMayExceedBudget`).

## Model

| member | source | states |
|---|---|---|
| AudioProcessor.ConvertCommand | audio_transcriber/audio_processor.py:21-28 | ffmpeg is called with `-i <input>`, then the target encoding (pcm_s16le, one channel, 16000 Hz, overwrite), with the output path last |
| AudioProcessor.ConvertToWav | audio_transcriber/audio_processor.py:18-37 | conversion succeeds exactly when ffmpeg exits 0; otherwise the raised error carries ffmpeg's stderr unchanged |
| AudioProcessor.TruncateToInt | audio_transcriber/audio_processor.py:57 | Python's `int()` on a float truncates toward zero: the result is within 1 of `x`, on the side of zero |
| AudioProcessor.NumChunksRoundsHalfUp | audio_transcriber/audio_processor.py:57 | over a positive budget, the chunk count is the size ratio rounded to the nearest integer, with halves rounding up, and is at least 1 for an oversized file |
| AudioProcessor.PlanPartitionsDuration | audio_transcriber/audio_processor.py:58-63 | the chunk time ranges start at 0, each ends where the next begins, none passes the duration, the last ends exactly at it, and their lengths sum to the duration |
| AudioProcessor.ChunkMayExceedBudget | audio_transcriber/audio_processor.py:57-63 | a 14 MB file over a 10 MB budget becomes one chunk spanning the whole recording, so a chunk can exceed the budget |
| AudioProcessor.SameTargetEncoding | audio_transcriber/audio_processor.py:21-28 | conversion and chunk cutting request the same target encoding, and each names its own input and its output file |
| AudioProcessor.ProbeCommand | audio_transcriber/audio_processor.py:50-51 | the duration is read with `ffprobe -i <audio> -show_entries format=duration -v quiet -of csv=p=0` |
| AudioProcessor.ChunkCommand | audio_transcriber/audio_processor.py:68-78 | a chunk is cut with `ffmpeg -i <audio> -ss <start> -t <length>`, where the length is the chunk's end minus its start, then the target encoding, with the chunk path last |
| AudioProcessor.ExtractChunks | audio_transcriber/audio_processor.py:61-87 | the loop succeeds exactly when every chunk's ffmpeg run succeeds, and then returns `chunk_1.wav` … `chunk_n.wav` in order; otherwise it stops at the first failing chunk, and the error carries that run's stderr |
| AudioProcessor.CutChunks | audio_transcriber/audio_processor.py:57-90 | a chunk count of 0 is a division by zero; a negative count cuts nothing; otherwise the result is all chunk paths in order, or a chunk failure |
| AudioProcessor.SplitAudio | audio_transcriber/audio_processor.py:39-90 | a file within budget is returned alone; then, in order: a failed probe gives its stderr, an unparsable duration gives the stripped probe output, a zero budget gives a division by zero, and otherwise the chunks are cut |
| AudioProcessor.SmallFileIsNotSplit | tests/test_audio_processor.py:49-56 | with the default 10 MB budget, a 5 MB file comes back unsplit, whatever the external tools would do |
| Transcription.RecognizeCommand | audio_transcriber/audio_processor.py:103-105 | the recognition client is run as `python -m clients.main recognize file`, with the chunk's audio path as the `--audio-file` argument, settings from `config.ini`, and punctuation and speaker labelling switched on |
| Transcription.RecognizeCommandsDifferInAudioOnly | audio_transcriber/audio_processor.py:103-105 | two chunks' commands agree everywhere except the audio path, and are equal exactly when the paths are |
| Transcription.WriteThenLookup | audio_transcriber/audio_processor.py:110-111 | reading a file back after writing it gives what was written |
| Transcription.WriteKeepsOthers | audio_transcriber/audio_processor.py:110-111 | writing one file leaves every other file as it was |
| Transcription.RecordedTranscript | audio_transcriber/audio_processor.py:96-118 | after the loop, chunk k's file holds that run's stdout if the run succeeded and its earlier content if it failed; a failure never stops later chunks |
| Transcription.RecordLeavesOthers | audio_transcriber/audio_processor.py:96-118 | the loop touches no file except those named after its chunks |
| Transcription.SavedInOrder | audio_transcriber/audio_processor.py:96-97 | the saved transcripts come out in ascending chunk order, under any key that reads the chunk number back from the name |
| Transcription.FreshTranscription | audio_transcriber/audio_processor.py:92-121 | from an empty directory, the merged text has one part for each successful chunk that kept a speaker line, in chunk order |
| Transcription.AllRunsFailed | audio_transcriber/audio_processor.py:113-121 | when every recognition run fails, the merge still runs and yields an empty text |
| Transcription.FailedChunkRenumbers | audio_transcriber/audio_processor.py:96-121 | when the middle of three chunks fails, the third chunk's transcript becomes Part 2: parts are numbered among the saved files |
| Merge.TranscriptIndexOfName | audio_transcriber/audio_processor.py:129-130 | the name `transcription_<k>.txt` passes the prefix filter, and the sort key reads k back from it |
| Merge.TranscriptFiles | audio_transcriber/audio_processor.py:129 | the listing is filtered to exactly the files whose names start with `transcription_` |
| Merge.SortedTranscripts | audio_transcriber/audio_processor.py:128-131 | the result is a permutation of the transcripts, ascending by number, with ties in listing order; the merge fails exactly when some name does not parse, and then with the `ValueError` of the first such name in listing order |
| Merge.NumericOrder | audio_transcriber/audio_processor.py:130 | transcripts are ordered by number, not lexicographically: m < n puts m first whatever the listing order |
| Merge.MergeIgnoresListingOrder | audio_transcriber/audio_processor.py:128-131 | with distinct file numbers, the merged text does not depend on the order the directory lists its files |
| Merge.CleanLine | audio_transcriber/audio_processor.py:145-150 | a raw line contributes exactly its stripped text, and does so exactly when it is not the status banner and contains both `Speaker` and `:`; anything contributed is a speaker line |
| Merge.KeptLineSurvives | audio_transcriber/audio_processor.py:145-150 | every kept raw line reaches the section, stripped |
| Merge.CleanedLineHasSource | audio_transcriber/audio_processor.py:145-150 | every line of a section is some kept raw line, stripped |
| Merge.CleanedLinesAppend | audio_transcriber/audio_processor.py:145-150 | cleaning works line by line: it commutes with concatenation |
| Merge.FileLines | audio_transcriber/audio_processor.py:140-150 | a transcript is read with universal newlines, so `\r\n` and `\r` end lines like `\n`; its kept lines are the lines after cleaning, each non-empty and without a line break |
| Merge.BannerAndBlankLinesDropped | audio_transcriber/audio_processor.py:145-150 | the client's status banner and the blank line after it are dropped; the following speaker line is kept, stripped, whether the lines end in `\n` or `\r\n` |
| Text.TranslateNewlines | audio_transcriber/audio_processor.py:140-141 | after reading in text mode no carriage return is left, and the text never grows |
| Text.LineEndsTranslate | audio_transcriber/audio_processor.py:140-141 | a `\r\n` pair, and a `\r` not followed by `\n`, each read as a single `\n` |
| Text.TranslatePlain | audio_transcriber/audio_processor.py:140-141 | reading text without a carriage return in universal-newline mode changes nothing |
| Text.TranslateAfterPlain | audio_transcriber/audio_processor.py:140-141 | newline translation passes a prefix without carriage returns through unchanged and continues with the rest |
| Merge.CrLfReadsAsNewline | audio_transcriber/audio_processor.py:140-150 | two lines and a blank line between them, saved with `\r\n` line ends, read as the same text with `\n` line ends |
| Merge.Sections | audio_transcriber/audio_processor.py:138-155 | every section is numbered by its file's position in the sorted list and holds that file's non-empty kept lines |
| Merge.SectionsAscend | audio_transcriber/audio_processor.py:138 | part numbers strictly increase through the merged text |
| Merge.SectionsCoverFiles | audio_transcriber/audio_processor.py:138-155 | every file that kept a line gets its section, numbered by its position; files without kept lines use up their number |
| Merge.MergedSections | audio_transcriber/audio_processor.py:128-155 | over readable transcripts, the merge fails only on an unparsable name; every section it writes holds at least one line, and every line is non-empty and free of line breaks |
| Merge.MergedTextReadsBack | audio_transcriber/audio_processor.py:152-155 | the merged text is unambiguous: split into lines, it reads back to exactly the sections it was written from |
| Merge.NothingToMerge | audio_transcriber/audio_processor.py:128-157 | a directory without transcripts merges to an empty text; the merge does not fail |
| Merge.OnlyTranscripts | audio_transcriber/audio_processor.py:128-131 | a listing of numbered transcripts only is merged in key-sorted order |
| Sorting.SortBy | audio_transcriber/audio_processor.py:128-131 | `sorted(key=...)` returns a permutation of its input, ordered by key |
| Sorting.SortIsStable | audio_transcriber/audio_processor.py:128-131 | elements that share a key keep their relative order |
| Sorting.SortForgetsOrder | audio_transcriber/audio_processor.py:128-131 | with unique keys, sorting two arrangements of the same elements gives the same sequence |
| Text.ParseIntOfNatToString | audio_transcriber/audio_processor.py:130 | `int(str(n))` gives back n, and with a leading minus sign gives -n |
| Text.Strip | audio_transcriber/audio_processor.py:150 | the result neither starts nor ends with whitespace, and text that already has no whitespace at either end is unchanged |
| Text.ParseIntSkipsSpace | audio_transcriber/audio_processor.py:130 | a character of `int()`'s own whitespace in front of the digits is skipped, so the number still reads |
| Text.ParseIntRejectsSeparator | audio_transcriber/audio_processor.py:130 | a separator U+001C to U+001F in front of the digits makes `int()` fail, although `strip()` counts it as whitespace |
| Text.JoinSplit | audio_transcriber/audio_processor.py:145 | joining the pieces of `split` with the separator restores the text |
| Paths.PathJoin | audio_transcriber/audio_processor.py:65 | the joined path ends with the name and, for a relative name, starts with the directory |
| AudioConverter.ExtractAudio | audio_transcriber/audio_converter.py:19-40 | only a name ending in `.mp4` (case-sensitive) goes to ffmpeg; it succeeds exactly when ffmpeg does, writing `extracted_audio.wav` in the output directory, and otherwise raises ffmpeg's output |
| AudioConverter.ConvertToWav | audio_transcriber/audio_converter.py:42-59 | a `.wav` path is returned unchanged; anything else becomes `converted_audio.wav` in the output directory when decoding succeeds |
| AudioConverter.ProcessEndsInWav | audio_transcriber/audio_converter.py:61-73 | whatever `process` returns is a `.wav` path |
| AudioConverter.Mp4SkipsConversion | audio_transcriber/audio_converter.py:61-73 | for an `.mp4` input the conversion step never runs, so process equals extraction |
| AudioConverter.ProcessIdempotent | audio_transcriber/audio_converter.py:61-73 | running process on its own result returns the same path, whatever the output directory and the tools |
| AudioConverter.UpperCaseMp4IsConverted | audio_transcriber/audio_converter.py:25-52 | `.MP4` is not extracted; it goes through conversion like any other non-`.wav` input |
| Summarization.GetConfigValue | audio_transcriber/summarization.py:39-66 | a non-empty environment value wins; with no such value and no config option the default applies; the result is always non-empty or the default |
| Summarization.GetConfigValueIsPrecedence | audio_transcriber/summarization.py:50-66 | the lookup equals "first present of environment, then configuration file, else default", with empty values skipped at each step |
| Summarization.ConfigFileUsed | audio_transcriber/summarization.py:54-55 | a plain non-empty config value is used when the environment variable is unset or empty |
| Summarization.ReferenceFollowedOnce | audio_transcriber/summarization.py:58-60 | `${NAME}` in the config reads variable NAME once; its value is returned as it is |
| Summarization.UnresolvedReferenceGivesDefault | audio_transcriber/summarization.py:58-64 | a reference to an unset or empty variable yields the default, not the literal `${NAME}` |
| Summarization.Init | audio_transcriber/summarization.py:10-35 | for a configuration file that parses, construction succeeds exactly when the resolved API key is non-empty; the key is that value and the model is never empty |
| Summarization.NoKeyNoSummarizer | audio_transcriber/summarization.py:23-35 | with no API key in the environment or the configuration file, construction fails whatever else is set |
| Summarization.ModelDefault | audio_transcriber/summarization.py:24 | the model is `gpt-4o` unless the environment or the configuration file names one |
| Summarization.ModelFromEnvironment | audio_transcriber/summarization.py:24 | a model named in the environment overrides the configuration file |

## Left out

- AudioProcessor.SplitAudio: IEEE floats become `real` for the file size in MB, the size ratio, the duration and the chunk bounds (audio_processor.py lines 42, 54 and 57-63), so rounding error is not modelled. `parseFloat` returns only finite values, so it cannot yield the `nan` or `inf` that `float()` accepts.
- AudioProcessor.Plan: chunk bounds are exact reals. The floating-point `i * chunk_duration` of the source can differ in the last bit.
- Summarization.GetConfigValue: configparser's BasicInterpolation is not modelled. In the source, a `%` not followed by `%` or `(` raises `InterpolationSyntaxError`, and `%(x)s` is substituted. The model takes the configuration value verbatim. Option names are taken as already lower-cased, as configparser stores them. Reading a missing or unreadable file is modelled as an empty section.
- Transcription.Record: the transcription loop's `except Exception` (audio_processor.py lines 116-118) swallows errors such as a client that cannot start, undecodable UTF-8 output or a failed write. The model represents these only as a failed `CommandResult`.
- Transcription.Write assumes `os.listdir` lists a newly created file after the existing ones. This decides the order of transcripts whose keys tie. Ties arise only from names the loop itself never writes, such as `transcription_01.txt` next to `transcription_1.txt`.
- Paths.PathJoin: models POSIX `os.path.join` of two components only.
- AudioProcessor.ExtractChunks: `ChunkFailed` also records the 1-based chunk number. The source only prints that number (audio_processor.py lines 83 and 86); the exception it raises carries stderr alone (line 84).
- Text.ParseInt: accepts ASCII digits only. Python's `int()` also accepts decimal digits from other scripts (for example U+0663), so a transcript named `transcription_٣.txt` is merged by the source but rejected by the model. Digit-group underscores cannot occur, because the key is cut at `_`.
- Merge.MergedSections: every listed `transcription_` entry is taken to be a readable UTF-8 file. In the source, an entry that cannot be opened or decoded (audio_processor.py lines 140-141) raises an error; examples are a subdirectory with that prefix or a file in another encoding. The model has no such error.
- Summarization.Init: the configuration file is taken to parse. In the source, `config.read` (summarization.py lines 19-20) raises when configparser cannot parse `config.ini`, for example a file without a section header, whatever the API key. The model does not raise there.
- run parameters: each external program is a pure function of its argument vector, so the same argument vector always gives the same outcome. The environment copy with `PYTHONIOENCODING`, timeouts and the file encodings are not modelled.
- Temperature parsing and its fallback to 0.3 (summarization.py lines 27-32) are not modelled.
- Not modelled either: timestamps, the timestamped names of the transcription directory and the merged file, directory creation and printing.
- `summarize`, the OpenAI request and its prompt, the recognition client itself and the command-line entry points are outside the core and are not modelled.
