# generate-srt in Dafny

generate-srt turns a video's speech into an SRT subtitle file and then lets a language model
proof-read that file. This project models its subtitle logic on integers, strings and
sequences and proves what that logic promises:

- **Timestamps.** main.py's `srt_time` and the two `format_timestamp` variants of the
  archived prototypes turn milliseconds into `HH:MM:SS,mmm` (modules `Decimal`, `Timestamp`).
- **Text clean-up.** `norm_text`, `strip_trailing_punc` and the fourth prototype's
  `clean_text` (module `Normalize`).
- **The sentence-mode builder.** `funasr_to_segments` filters, clamps, sorts and sweeps the
  recogniser's per-sentence records into a monotone, non-overlapping cue list bounded by the
  audio length. `write_srt` lays each cue out as four lines (module `SentenceSegments`).
- **The proof-reading tool.** optimize.py's `parse_srt`, the `build_prompt` listing,
  `apply_corrections` and `write_optimized_srt` (modules `SrtCodec` and `Corrections`). The
  module `Pipeline` shows that main.py's file reads back into its own cues and that an
  uncorrected rewrite reproduces it.
- **The character-level segmenters of the second and third prototypes.** These walk the
  transcript in lock-step with per-character time entries (modules `TokenTimes`, `TokenV2`,
  `TokenV3`).
- **The per-sentence writer of the fourth prototype** (module `SentenceV4`).

Each loop of the source is a `method` proved equal to a specification function, and the
properties are lemmas about those functions.

The character-level segmenters are specified by one function per loop turn (`Step`) and its
fold over the text (`Run`). The specification state carries one piece of bookkeeping the
source does not have: the range of time entries each segment used (`Emitted.lo`/`hi`, and
`from` for the pending segment). That range is what lets the lemmas state lock-step facts:
- which entries a segment used;
- that it starts at the first start among them;
- that the ranges tile the entries taken.

The source keeps no range; the methods' variables are exactly the source's.

Recogniser results, whose shape the source sniffs with `isinstance` and `dict.get`, are
tagged datatypes:
- `SentenceSegments.RecognizerOutput` and `SentenceRecord`;
- `TokenTimes.TokenResult`;
- `SentenceV4.SentenceResult` and `SentenceStamp`.

`audio_ms` is an integer parameter. Whitespace is one fixed set, `Strings.IsSpace`: ASCII
whitespace, U+00A0 and U+3000. `strip`, `rstrip` and the regex class `\s` all use it.

A key the source reads from a recogniser dict may be missing, so each such field is an
`Option`. Error paths are values:
- `Result` failures for the exceptions `funasr_to_segments` raises;
- `TokenTimes.Crash` (`IndexError`, `KeyError`) for the second and third prototypes, whose
  lookups raise on an empty result list or a missing key;
- `Success(None)` for the second prototype's early return when there is no `timestamp`;
- `SentenceV4.Outcome` for the fourth prototype, which may write part of a file and then stop
  at a sentence it cannot read.

## Model

| member | source | states |
|---|---|---|
| Timestamp.SrtFieldsValue | main.py:48-54 | The four fields are in range (minutes, seconds < 60, millis < 1000, hours ≥ 0) and hours·3600000 + minutes·60000 + seconds·1000 + millis equals the input clamped at 0 |
| Timestamp.SrtTimeClampsNegative | main.py:49-50 | Any negative count formats exactly like 0 |
| Timestamp.SrtTimeShaped | main.py:48-55 | Every output has the shape digits `:` two digits `:` two digits `,` three digits |
| Timestamp.RenderFields | main.py:55 | The output is hours padded to at least 2, `:`, minutes padded to 2, `:`, seconds padded to 2, `,`, millis padded to 3 |
| Timestamp.SrtTimeRoundTrip | main.py:48-55 | Reading the formatted string back yields the clamped count |
| Timestamp.SrtTimeInjective | main.py:48-55 | Distinct non-negative counts give distinct strings |
| Decimal.PaddedNatDigits | main.py:55 | `f"{n:0{w}d}"` is a digit string of value n, at least w long and exactly w when n has at most w digits |
| Decimal.NatToStringDigits | main.py:74 | `str(i)` is all digits with no leading zero |
| Decimal.NatToStringValue | main.py:74 | `str(i)` reads back as i |
| Normalize.CollapseSpaces | main.py:60 | The result is single-spaced, empty exactly when the input is, and starts or ends with whitespace exactly when the input does |
| Normalize.NormText | main.py:58-61 | The result has no whitespace at either end, no two whitespace characters in a row and no whitespace other than the plain space |
| Normalize.WordsAreWords | main.py:60 | Every word of `s.split()` is non-empty and holds no whitespace |
| Normalize.WordsStrip | main.py:59-60 | Whitespace at either end adds no word: the words of the stripped text are the words of the text |
| Normalize.CollapseJoinsWords | main.py:60 | On text without whitespace at either end, collapsing the runs is joining its words with single spaces |
| Normalize.NormTextJoinsWords | main.py:58-61 | `norm_text(s)` equals `" ".join(s.split())` for every s |
| Normalize.CollapseKeepsNonSpace | main.py:60 | Collapsing rewrites whitespace only: the non-whitespace characters survive, in order |
| Normalize.NormTextKeepsNonSpace | main.py:58-61 | `norm_text` keeps exactly the non-whitespace characters of its input, in order |
| Normalize.NormTextFixesNormalized | main.py:58-61 | A normalised string is left unchanged |
| Normalize.NormTextIdempotent | main.py:58-61 | Normalising twice is normalising once |
| Normalize.NormalizedHasNoNewline | main.py:58-61 | A normalised text has no newline |
| Normalize.IsTrailingMatchesList | main.py:162 | The mark predicate is exactly membership in the `trailing` string |
| Normalize.StripPunc | main.py:158-169 | The result is a prefix of the input, is empty or ends in neither whitespace nor a trailing mark, and everything removed is whitespace or a mark |
| Normalize.StripPuncUnique | main.py:163-169 | Those three facts determine the result: any prefix with them is the result |
| Normalize.StripTrailingPunc | main.py:149-169 | The while loop computes the specification: a prefix ending in neither whitespace nor a mark |
| Normalize.StripPuncAfterRStrip | main.py:163 | The initial `rstrip` does not change the result |
| Normalize.StripPuncIdempotent | main.py:162-169 | Stripping twice is stripping once |
| Normalize.StripPuncExampleFullStop | main.py:153 | "你好。" becomes "你好" |
| Normalize.StripPuncExampleBang | main.py:154 | "OK!" becomes "OK" |
| Normalize.StripPuncExampleMixed | main.py:155 | "真的吗？！" becomes "真的吗" |
| Normalize.StripPuncExampleDots | main.py:156 | "test..." becomes "test" |
| SentenceSegments.CleanSentenceCue | main.py:112-115 | A cleaned sentence is empty or non-empty, normalised and not ending in a trailing mark |
| SentenceSegments.CleanSentenceFixes | main.py:112 | A text that is already clean is left unchanged |
| SentenceSegments.AdmitCue | main.py:108-129 | A record yields a cue exactly when it is a dict whose cleaned text is non-empty; the cue carries that text, starts at 0 or later and ends no later than the audio |
| SentenceSegments.AdmittedCues | main.py:107-129 | Every collected cue has a proper text and lies inside the audio |
| SentenceSegments.CollectSegments | main.py:107-129 | The first loop computes exactly the admitted cues, in record order |
| SentenceSegments.InsertSorted | main.py:132 | Inserting into a list sorted by (start, end) keeps it sorted |
| SentenceSegments.InsertPermutes | main.py:132 | Inserting adds exactly the one cue |
| SentenceSegments.SortByTimeSorted | main.py:132 | The sort orders cues by (start, end) |
| SentenceSegments.SortByTimePermutes | main.py:132 | The sort is a permutation of its input |
| SentenceSegments.SortByTimeTexts | main.py:132 | The sort keeps the multiset of texts |
| SentenceSegments.SweepHead | main.py:135-141 | The first cue is moved to the previous end if it starts earlier, gets end min(start + 400, audio) if it does not end after its start, and the rest is swept from its end |
| SentenceSegments.SweepTexts | main.py:133-141 | The sweep keeps every text in place |
| SentenceSegments.SweepInAudio | main.py:133-141 | The sweep keeps cues inside the audio and gives every cue that starts before the audio end a positive duration |
| SentenceSegments.SweepChains | main.py:133-141 | After the sweep, starts never decrease and each cue starts no earlier than the previous one ends |
| SentenceSegments.SweepSegments | main.py:133-141 | The second loop computes the sweep from `last_end = 0` |
| SentenceSegments.ExtendTailChanges | main.py:144-145 | Only the last cue may change, and only its end: it becomes the audio length when it stops 800 ms or more before it |
| SentenceSegments.ExtendTailKeepsTiming | main.py:144-145 | Stretching the last cue keeps the cue list inside the audio, positive and non-overlapping |
| SentenceSegments.BuildSegmentsWellFormed | main.py:86-147 | Every list built has proper texts, starts ≥ 0, ends ≤ audio, positive durations for cues starting inside the audio, non-decreasing starts and no overlap |
| SentenceSegments.BuildSegmentsTexts | main.py:107-147 | The output holds exactly the texts of the admitted records, as a multiset |
| SentenceSegments.TwoSentenceExample | main.py:86-147 | Two clean records in order come out cleaned and unchanged in time |
| SentenceSegments.OverlapExample | main.py:86-147 | An overlapping second record is pushed to the first one's end and, ending 800 ms or more before the audio end, stretched to it |
| SentenceSegments.FunasrToSegments | main.py:86-147 | The builder fails exactly when the result has an unexpected shape or no or empty `sentence_info`; otherwise it returns the specified, well-formed cue list |
| SentenceSegments.SrtLinesLayout | main.py:71-77 | Cue k is written as lines 4k to 4k+3: its number k+1, `start --> end`, its text, an empty line |
| SentenceSegments.WriteSrt | main.py:71-79 | The loop builds those lines, and the content is them joined by "\n" |
| SrtCodec.DropNewlines | optimize.py:23 | Dropping leading newlines leaves a suffix that is empty or starts with something else |
| SrtCodec.SplitBlankRunsPieces | optimize.py:23 | No piece of `re.split(r'\n\n+', …)` contains two newlines in a row |
| SrtCodec.SplitJoinBlankRuns | optimize.py:23 | Splitting pieces joined by a blank line gives the pieces back |
| SrtCodec.ParseBlockFields | optimize.py:27-32 | A block yields an entry exactly when its stripped text has at least three lines; the number and timing are the stripped first and second lines, the text is the rest joined and stripped, and both texts are equal |
| SrtCodec.ParsedBlocksAppend | optimize.py:26-33 | The entries of consecutive blocks follow one another, so the order of entries is the order of blocks |
| SrtCodec.ParsedBlocksFields | optimize.py:26-33 | Every entry is parsed from some block and is stripped, with one-line number and timing and equal texts |
| SrtCodec.ParseSrt | optimize.py:14-34 | The loop computes the entries of the stripped content split at blank runs |
| SrtCodec.OptimizedLinesLayout | optimize.py:120-125 | Entry k occupies lines 4k to 4k+3: number, timing, corrected text, empty; the original text is not written |
| SrtCodec.WriteOptimizedSrt | optimize.py:116-128 | The loop builds those lines, and the content is them joined by "\n" |
| SrtCodec.OptimizedContentBlocks | optimize.py:120-128 | The content is the three-line blocks joined by a blank line, then a final newline |
| SrtCodec.WrittenBlock | optimize.py:27-32 | A written block of one-line stripped fields parses back to its number, timing and corrected text |
| SrtCodec.ParseWriteRoundTrip | optimize.py:116-128 | Parsing what `write_optimized_srt` writes gives (idx, timestamp, corrected, corrected) per entry, in order, when every field is a non-empty stripped line |
| SrtCodec.ListingSplits | optimize.py:42-43 | The listing is the lines "idx. text", one per entry, in input order |
| Corrections.CorrectionMapLastWins | optimize.py:103 | A number is a key exactly when some correction names it, and the map holds the last correction naming it |
| Corrections.ApplyCorrections | optimize.py:97-113 | The loop computes the corrected list: same length, order and fields, with the corrected text taken from the map |
| Corrections.CorrectedEntries | optimize.py:105-111 | Each entry keeps its number, timing and original; it takes the last matching correction's text, or keeps the original when none matches |
| Corrections.UnknownIndexIgnored | optimize.py:103-111 | A correction whose number matches no entry changes nothing |
| Corrections.NoCorrections | optimize.py:105-113 | With no corrections every entry's corrected text is its original |
| Pipeline.SrtTimeHasNoSpace | main.py:55 | A timestamp contains no whitespace |
| Pipeline.CueTimingOneLine | main.py:75 | The timing line is a single stripped line |
| Pipeline.SrtLinesAsEntries | main.py:71-79 | `write_srt` lays cues out exactly as `write_optimized_srt` lays out numbered entries |
| Pipeline.SrtReadBack | main.py:71-79 | The file `write_srt` writes for cues with proper texts is parsed by `parse_srt` into one entry per cue, numbered from 1, with its timing line and text |
| Pipeline.UncorrectedRewriteIdentical | optimize.py:116-128 | Parsing main.py's file, applying no corrections and writing it again reproduces it character for character |
| Pipeline.BuiltSegmentsReadBack | main.py:86-147 | Every cue list the builder returns reads back from its file |
| Timestamp.TimedeltaAgreesWithSrtTime | archived/main_v2.py:5-12 | For every count ≥ 0 the prototype formatter (identical in archived/main_v3.py:5-12) gives the same string as `srt_time` |
| TokenV2.Step | archived/main_v2.py:55-89 | One turn never moves the entry index past the entries, and the pending sentence used one entry per character |
| TokenV2.SegmentText | archived/main_v2.py:43-97 | The loop and the flush compute the specified segments |
| TokenV2.StepSkips | archived/main_v2.py:56-71 | A space, or a mark with nothing pending, changes nothing and takes no entry |
| TokenV2.StepCloses | archived/main_v2.py:61-71 | A mark closes the pending sentence with the mark appended and the end of the last entry taken, keeping the invariant |
| TokenV2.StepCuts | archived/main_v2.py:79-88 | The character that takes the sentence past 20 closes it with its own entry's end, keeping the invariant |
| TokenV2.StepExtends | archived/main_v2.py:74-89 | Any other ordinary character takes the next entry, setting the start only if unset, keeping the invariant |
| TokenV2.StepDrops | archived/main_v2.py:74 | An ordinary character after the entries ran out is dropped |
| TokenV2.StepKeeps | archived/main_v2.py:55-89 | Every turn keeps the invariant: entries consumed = ordinary characters seen (up to the entries), segments tile the entries, each is cut by a mark or for length |
| TokenV2.RunKeeps | archived/main_v2.py:55-89 | The invariant holds after the loop over any prefix |
| TokenV2.SegmentedShape | archived/main_v2.py:46-97 | Each segment has 1 to 21 characters and used entries lo..hi-1, one per ordinary character, starting at the first set start among them; it was closed by a mark, cut at 21, or is the last rest ending at the last entry; the ranges tile the entries taken |
| TokenV2.SegmentedChars | archived/main_v2.py:55-97 | Without marks, the segments spell the ordinary characters of the text in order, up to the number of entries |
| TokenV2.SegmentedPieces | archived/main_v2.py:55-97 | Segment k holds, besides its closing mark, exactly the ordinary characters lo..hi-1 of those that took an entry |
| TokenV2.StepSpells | archived/main_v2.py:55-89 | One turn of the loop and one step of the independent spelling agree: the segment texts followed by the pending sentence are the kept text, the pending length is the count since the last mark or cut, and the entries used match |
| TokenV2.RunSpells | archived/main_v2.py:55-89 | The loop over any text agrees with the spelling of that text |
| TokenV2.SegmentedSpelled | archived/main_v2.py:55-97 | The segment texts, one after the other, are exactly the spelled text: each ordinary character that found an entry, and each mark that follows an ordinary character kept since the previous mark or 21-character cut |
| TokenV2.SegmentStartsSet | archived/main_v2.py:75-77 | With no entry starting at -1, every segment starts at its first entry's start, which is not -1 |
| TokenV2.WrittenAll | archived/main_v2.py:102-108 | Without unset starts the file holds every segment, numbered from 1 |
| TokenV2.WriteSegments | archived/main_v2.py:100-108 | The write loop produces the specified file, skipping segments whose start is -1 |
| TokenV2.GenerateSrt | archived/main_v2.py:37-108 | An empty result list fails with IndexError (at `res[0].keys()`), and only then; nothing is written exactly when the result has no `timestamp`; a missing `text` then fails with KeyError, and only then; otherwise the file of the segments is written |
| TokenV2.GeneratedWritesAll | archived/main_v2.py:104 | With no entry starting at -1 the filter at write time never drops a segment |
| TokenV3.Step | archived/main_v3.py:38-63 | One turn never moves the entry index past the entries |
| TokenV3.SegmentText | archived/main_v3.py:27-71 | The loop and the flush compute the specified segments, or the error |
| TokenV3.StepSpace | archived/main_v3.py:40-42 | A space joins the pending line, takes no entry and never cuts |
| TokenV3.StepCuts | archived/main_v3.py:53-63 | The character that fills the line to 16 cuts it with its own entry's end, keeping the invariant |
| TokenV3.StepExtends | archived/main_v3.py:45-51 | Any other non-space character takes the next entry, setting the start only if unset, keeping the invariant |
| TokenV3.StepDrops | archived/main_v3.py:45 | A non-space character after the entries ran out is dropped |
| TokenV3.StepKeeps | archived/main_v3.py:38-63 | Every turn keeps the invariant: entries consumed = non-space characters seen (up to the entries), lines tile the entries, each cut line has 16 characters or more and at most 16 non-space ones |
| TokenV3.RunKeeps | archived/main_v3.py:38-63 | The invariant holds after the loop over any prefix |
| TokenV3.RunWithoutEntries | archived/main_v3.py:38-51 | With no entries nothing is cut, and something is pending exactly when the text has a space |
| TokenV3.SegmentedFails | archived/main_v3.py:65-71 | The run fails exactly when there are no entries and the text has a space |
| TokenV3.SegmentedShape | archived/main_v3.py:30-71 | Each line used entries lo..hi-1, one per non-space character and at most 16, and starts at the first set start; it was cut with 16 characters or more and ends at its last entry, or it is the last rest ending at the last entry; the ranges tile the entries taken |
| TokenV3.SegmentedChars | archived/main_v3.py:37-71 | Without spaces, the lines spell the non-space characters of the text in order, up to the number of entries |
| TokenV3.SegmentsPieces | archived/main_v3.py:57-71 | Each segment is stripped, starts at the first set start of its entries, and has exactly the non-whitespace characters lo..hi-1 of those that took an entry |
| TokenV3.SegmentStarts | archived/main_v3.py:46-47 | With no entry starting at -1, a segment starts at its first entry's start, and a segment of spaces alone keeps -1 |
| TokenV3.WrittenAll | archived/main_v3.py:76-80 | Without empty texts the file holds every segment, numbered from 1 |
| TokenV3.WrittenNone | archived/main_v3.py:77 | When every text is empty nothing is written |
| TokenV3.WriteSegments | archived/main_v3.py:73-80 | The write loop produces the specified file, skipping empty texts but keeping their numbers |
| TokenV3.GenerateSrt | archived/main_v3.py:27-80 | No result fails with IndexError, a missing `text` or `timestamp` with KeyError, a failed flush with its error; otherwise the file of the segments is written |
| Timestamp.DivmodFieldsValue | archived/main_v4.py:16-19 | The divmod chain keeps every remainder in range and the fields stand for the count exactly, negatives included, the hour field carrying the sign |
| Timestamp.DivmodAgreesWithSrtTime | archived/main_v4.py:16-20 | For every count ≥ 0 the divmod formatter gives the same string as `srt_time` |
| Decimal.PaddedIntNegative | archived/main_v4.py:20 | A negative hour is written as `-` and the digits of its magnitude |
| Normalize.CleanText | archived/main_v4.py:22-26 | The result is the stripped text or that minus its last character, and the character is removed exactly when it is one of `。，、？!！.,?~` |
| Normalize.IsCleanMarkMatchesList | archived/main_v4.py:25 | The mark predicate is exactly the regex class |
| Normalize.CleanTextRemovesOneMark | archived/main_v4.py:22-26 | "test..." becomes "test.." where main.py's `strip_trailing_punc` gives "test" |
| Normalize.StripPuncAfterCleanText | archived/main_v4.py:22-26 | `strip_trailing_punc` after `clean_text` equals it after `strip` alone |
| SentenceV4.Bounds | archived/main_v4.py:66-72 | A sentence's bounds are missing exactly when the list is empty, or flat with fewer than two numbers |
| SentenceV4.NestedBounds | archived/main_v4.py:67-69 | Nested pairs give the first start and the last end |
| SentenceV4.FlatBounds | archived/main_v4.py:70-72 | A flat list gives its first two numbers, whatever follows |
| SentenceV4.Fields | archived/main_v4.py:66-76 | A sentence cannot be read exactly when it has no `timestamp`, its timestamp has no bounds, or it has no `text`; otherwise its bounds and text are read |
| SentenceV4.RenderStops | archived/main_v4.py:66-76 | Once a sentence cannot be read nothing more is written |
| SentenceV4.RenderAll | archived/main_v4.py:62-80 | When every sentence can be read the file is the blocks numbered 1, 2, … for every sentence in order, none skipped |
| SentenceV4.RenderCrash | archived/main_v4.py:62-80 | An unreadable sentence stops the run with the blocks of the sentences before it written |
| SentenceV4.RenderOk | archived/main_v4.py:62-80 | The run completes exactly when every sentence can be read |
| SentenceV4.NoSentencesEmptyFile | archived/main_v4.py:55-62 | An empty or missing `sentence_info` gives an empty file |
| SentenceV4.WriteSentences | archived/main_v4.py:61-80 | The write loop produces the specified content and stops at the first sentence it cannot read |
| SentenceV4.WriteSrt | archived/main_v4.py:53-80 | No file exactly when there is no result; otherwise the file, whole or cut short, of the first result's sentences |

## Left out

- The ffmpeg and ffprobe plumbing (`run_cmd`, `ffprobe_duration_sec`, `extract_audio_wav_16k_mono`): external processes.
- The recogniser (`AutoModel`, `generate`): a foreign model. Its result is an input datatype.
- `call_openai` and the JSON decoding with its fallback: network and library calls. The corrections list is an input.
- File reading and writing, and the removal of the temporary WAV: contents are strings or line lists.
- `write_report`: Markdown text stamped with the current time.
- The `__main__` blocks, argument parsing and batch loops, and every `print`.
- The float computation of `audio_ms` (main.py:91): `audio_ms` is an integer parameter.
- `int(...)` of `start`/`end` values that are floats or strings: the model takes integer values or a missing key.
- Python's full Unicode whitespace table and regex engine. One fixed whitespace set stands for `str.isspace`. `re.sub(r"\s+", " ")`, `re.split(r'\n\n+')` and the `clean_text` pattern are written out as functions.
- `isinstance` shape checks: recogniser results and sentence timestamps are tagged datatypes. Non-list inner timestamp entries are left out.
- The prompt template around the listing in `build_prompt`: fixed text.
- `apply_corrections` on corrections that lack `index` or `corrected`, or whose `index` is not a string: each correction is an (index, corrected) pair of strings.
- The Python objects behind the lists. A `Segment` is a value, whereas the source mutates dataclass objects in place. Only the returned list is observable, so nothing is lost by that. The sort is an insertion sort, which is stable by construction.
- SentenceSegments.SortByTimeSorted: states ordering by (start, end) and permutation, but not stability, which `list.sort` also guarantees.
- Timestamp.TimedeltaAgreesWithSrtTime: the `timedelta.total_seconds()` float path is integer division truncating toward zero. The agreement is stated for counts ≥ 0, which is what the recogniser produces.
- TokenV2.Step: a time entry is a pair of integers. Entries with fewer than two elements, which would raise an IndexError, are left out. The same holds for TokenV3 and for the pairs of SentenceV4.
- TokenV3.SegmentText: `current_end` is not a variable. The end is read from the entry right where the source sets it.
- TokenV3.SegmentsPieces: states the non-whitespace characters of each stripped segment. "Spaces removed" would not be the same thing only because `strip` also removes other whitespace at the edges of a line.
- SentenceV4.WriteSrt: the partly written file on an exception is the text written before it. Buffering and flushing are left out.
- Lines of text are `seq<char>`, so the encoding is left out, and with it UTF-8 and anything that depends on byte length.
