# Skit-to-video pipeline: a verified model of its core

The application (`app.py`) turns a podcast recording and a written skit
(`Speaker 1: "…"` lines) into a video. Each skit line is paired with one cut
of the recording, and each cut is shown over a speaker's template clip. This
project models, in Dafny, the decisions the application makes on the way.
It does not model the media work itself.

- **parse_skit** (module `Skit`, with the regular expressions in `Patterns`).
  The script text becomes `(label, line)` pairs. The strict, quoted reading
  is tried first. Only when it finds nothing does the loose reading run, and
  that reading also strips quotes. Python's `re.findall` is modelled as a
  left-to-right scan over the table of match attempts. The scan is proved
  to skip no match: nothing matches before its first report, between two
  reports, or after the last one. The scanners for the strict pattern, its
  `Speaker N:` head, its quoted part and the `silence_end:` pattern are each
  proved complete and sound: they accept exactly the text shape the pattern
  describes. The loose pattern's lazy capture is pinned down instead by its
  contract (where it stops and when it matches) and by a lemma beside it
  (which whitespace it skips).
- **analyze_audio_for_splits** (module `Splits`). The two ffmpeg
  `silencedetect` runs are replaced by their standard-error text, passed in
  as parameters. What remains is:
  - reading the `silence_end:` numbers;
  - the lead-in filter (`> 1.0`);
  - the fallback to the finer detection;
  - the fallback to evenly spaced cuts.
- **split_audio_file** (module `Segments`). The loop that builds one
  `(path, start, duration)` record per cut is an imperative method. It is
  proved against a specification function. The ffmpeg cut itself is not
  modelled.
- **Manual timestamps** (module `Timestamps`, with `str.split`,
  `str.strip` and `float()` in `Text`). The comma-separated field becomes
  split times, and a leading `0` is dropped.
- **The "Create Video" handler** (module `Pipeline`). It covers:
  - the skit checks;
  - the choice between manual and detected split times;
  - the pairing loop that joins skit lines with audio cuts, which is an
    imperative method;
  - the template choice made for each cut in `create_video_from_segments`.

Times are exact `real`s; nothing is rounded. The model follows the code in
three behaviours a user of the application might not expect:

- The split times are neither sorted nor de-duplicated, and none are added
  when too few are found. They are used in detection order
  (`Splits.DetectionOrderKept`), so a segment can start after the one
  following it. Such a segment is still given the minimum duration of 0.1 s.
- The loose reading does not capture text up to the next `Speaker N:` marker
  when that marker is on a later line. The `$` of the pattern, under
  MULTILINE, ends the capture at the end of the line
  (`Skit.LooseLinesOneLine`).
- A manual field made only of blanks yields no split times, so there is
  one segment (`Pipeline.BlankFieldOneCue`).

## Model

| member | source | states |
|---|---|---|
| Text.Trim | app.py:291 | `str.strip(chars)` removes exactly the leading run and the trailing run of the given characters: the result is a slice of the input that neither starts nor ends with one, and is empty exactly when the input is made only of them |
| Text.ParseFloat | app.py:576 | `float()` rejects the empty text, accepts only texts that start with a sign, a point or a digit, and gives a value no greater than 0 after a minus and at least 0 otherwise |
| Text.ParseSigned | app.py:576 | a minus in front of an unsigned literal negates its value and a plus changes nothing |
| Text.Strip | app.py:292 | `str.strip()` leaves a result that neither starts nor ends with whitespace; the result is empty exactly when the input is all whitespace |
| Text.SplitOn | app.py:576 | `str.split(",")` yields at least one piece and no piece contains a comma |
| Text.JoinSplit | app.py:576 | joining the pieces of a split with the separator gives the field back |
| Text.SplitJoin | app.py:576 | splitting the join of comma-free pieces gives those pieces back |
| Text.ParseDecimal | app.py:576 | `float()` of a decimal numeral is the number it denotes |
| Text.ParseDecimalPoint | app.py:303 | `float()` of `digits.digits` is the whole part plus the fraction |
| Patterns.StrictAt | app.py:286 | a strict match starts at its position, has a non-empty quote-free text, and its number is what the `Speaker N:` head read |
| Patterns.LooseAt | app.py:289 | a loose match has the head's number and the lazy capture after the colon; once the head matches with text left after it, the loose pattern matches |
| Patterns.LazyAt | app.py:289 | `\s*(.+?)` with its lookahead captures at least one character, ends the capture at the first later position where a `Speaker N:` marker begins or a line or the text ends, and matches whenever any text is left |
| Patterns.LazySkipsSpace | app.py:289 | `\s*` skips only whitespace before the capture, and the capture starts at the first non-whitespace character; only when nothing but whitespace is left is the capture that text's last character |
| Patterns.SilenceEndAt | app.py:303 | the pattern matches exactly where `silence_end: ` is followed by a digit, and a match starts there and ends within the text |
| Patterns.SilenceEndParses | app.py:303 | every capture of the pattern parses as a float, to a non-negative value |
| Patterns.SilenceEndComplete | app.py:303 | `silence_end: d.f`, with no digit after f, is matched with the numeral `d.f` as its group |
| Patterns.SilenceEndWhole | app.py:303 | `silence_end: d`, followed by neither a digit nor a point, is matched with `d` as its group |
| Patterns.SilenceEndSound | app.py:303 | whatever the scanner accepts is `silence_end: ` followed by digits and an optional point and digits, with every run of digits as long as it can be |
| Patterns.SilenceNumeralValue | app.py:303 | `float()` of such a numeral is its whole part plus its fraction |
| Patterns.Scan | app.py:287 | the scan's reports lie after its starting point, in order, without overlapping |
| Patterns.ScanGaps | app.py:287 | the scan never steps over a position where the pattern matches, in any gap between two reports or after the last one |
| Patterns.FindAllGaps | app.py:287 | findall misses no match: between two consecutive reports, and after the last one, the pattern matches nowhere |
| Patterns.FindAll | app.py:287 | findall's matches lie inside the text, in order, without overlapping |
| Patterns.FindAllMatches | app.py:287 | each reported match is exactly the pattern's match at its start position |
| Patterns.FindAllEmpty | app.py:288 | findall is empty exactly when the pattern matches at no position |
| Patterns.FindAllLeftmost | app.py:287 | there is no match before the first one reported |
| Patterns.StrictComplete | app.py:286 | a `Speaker N: "text"` with any whitespace where `\s*` allows it is matched, with N and the text as the groups and its whole length consumed |
| Patterns.StrictSound | app.py:286 | whatever the strict scanner accepts is a `Speaker N: "text"` with whitespace only where `\s*` allows it |
| Patterns.HeadComplete | app.py:286 | `Speaker`, whitespace, digits, whitespace and `:` are read as a head with those digits |
| Patterns.HeadSound | app.py:286 | what the head scanner accepts is exactly `Speaker`, whitespace, digits, whitespace and `:` |
| Patterns.QuotedComplete | app.py:286 | whitespace, `"`, quote-free text and `"` are read as that text |
| Patterns.QuotedSound | app.py:286 | what the quoted scanner accepts is whitespace followed by a quoted text |
| Skit.Label | app.py:292 | the label is `Speaker ` followed by the captured digits |
| Skit.Lines | app.py:292 | the final comprehension returns at most one line per pair, each with a non-blank text that neither starts nor ends with whitespace |
| Skit.Kept | app.py:292 | a pair is kept, as one line, exactly when its text is not blank |
| Skit.Unquote | app.py:291 | every loose text is stripped, then loses surrounding quotes, keeping its number |
| Skit.FindAllNumbered | app.py:286-290 | every number the skit patterns capture is a non-empty run of digits |
| Skit.ParseSkit | app.py:284-292 | empty text yields no line; every line has a `Speaker <digits>` label and a non-blank text stripped of surrounding whitespace |
| Skit.ParseSkitTiers | app.py:286-291 | the strict reading is used whenever the strict pattern matches somewhere; otherwise the loose reading, unquoted, is used |
| Skit.StrictReading | app.py:287-292 | once findall with the strict pattern reports a pair, the result is the lines of those pairs |
| Skit.LinesSound | app.py:292 | every line returned comes from one of the captured pairs |
| Skit.LinesComplete | app.py:292 | every captured pair with a non-blank text is returned |
| Skit.LinesKeepAll | app.py:292 | when no text is blank, one line per pair |
| Skit.LinesWellFormed | app.py:292 | pairs with digit numbers give well-formed lines |
| Skit.LinesAppend | app.py:292 | the final filter works pair by pair and distributes over concatenation, so the lines keep the order of their matches, which findall reports in text order |
| Skit.LooseLinesOneLine | app.py:289-291 | under the loose reading no line's text spans a line break |
| Skit.LooseBodyOneLine | app.py:289-291 | one loose capture, once cleaned, holds no line break |
| Skit.ScanScript | app.py:287 | findall over a script of strict lines yields exactly their (number, text) pairs |
| Skit.ScriptStrict | app.py:287 | findall with the strict pattern over a written script of strict lines yields exactly their (number, text) pairs |
| Skit.ParseScript | app.py:284-292 | round trip: writing lines in the strict form, one per line, and parsing them gives back the labels and the stripped texts |
| Skit.TwoLineScript | app.py:284-292 | a concrete two-line skit parses to its two lines |
| Splits.SilenceEndsParse | app.py:303 | every captured `silence_end` number parses, to a non-negative value |
| Splits.SilenceEnds | app.py:303-308 | one non-negative time per `silence_end:` match, in order |
| Splits.AfterLeadIn | app.py:303 | the coarse pass keeps only times after the first second |
| Splits.AfterLeadInMembers | app.py:303 | a time is kept exactly when it was detected and exceeds 1.0 |
| Splits.AfterLeadInAppend | app.py:303 | the lead-in filter works time by time |
| Splits.EvenSplits | app.py:313-314 | the even fallback has one cut fewer than segments |
| Splits.EvenValues | app.py:313-314 | the i-th even cut is `total * (i+1) / n` |
| Splits.EvenSpacing | app.py:313-314 | consecutive even cuts are `total / n` apart |
| Splits.EvenInside | app.py:313-314 | for a positive duration the even cuts lie strictly inside the recording, strictly increasing |
| Splits.SelectSplits | app.py:305-314 | for one segment or more there are `n - 1` cuts; the cuts are a prefix of the coarse times after the lead-in, a prefix of the fine times, or the even cuts |
| Splits.Analyze | app.py:297-316 | from the two passes' standard error: the first `n - 1` coarse times after the lead-in when there are enough of them, otherwise the first `n - 1` fine times when there are enough, otherwise the even cuts; `ends[:-1]` of the coarse times for zero segments; and the duration as read |
| Splits.SelectLength | app.py:305-314 | for one segment or more, exactly `n - 1` cuts are chosen whatever the tier |
| Splits.SelectCoarse | app.py:305-311 | when the coarse pass found enough, its first `n - 1` times are the cuts |
| Splits.FineIgnored | app.py:305-308 | the fine pass has no effect unless the coarse pass found too few |
| Splits.SelectFine | app.py:305-311 | when the fine pass is run and found enough, its first `n - 1` times (unfiltered) are the cuts |
| Splits.SelectEven | app.py:305-314 | when both passes found too few, the cuts are the even ones, and there are at least two segments |
| Splits.SelectOne | app.py:305-311 | a one-line skit never runs the fine pass and gets no cut |
| Splits.SelectZero | app.py:310-311 | `ends[:-1]` for zero segments drops the last coarse time |
| Splits.SelectNonNegative | app.py:305-314 | the chosen cuts are never negative |
| Splits.NoSilenceThreeLines | app.py:312-314 | with no silence found, a 30 s three-line skit is cut at 10 s and 20 s |
| Splits.DetectionOrderKept | app.py:310-311 | cuts keep detection order and are not sorted |
| Segments.Boundaries | app.py:320 | the boundaries are 0, the split times in order, then the duration |
| Segments.Clamp | app.py:325 | a duration is never below 0.1 s and is unchanged when it is at least 0.1 s |
| Segments.SegmentsUpTo | app.py:322-343 | after k rounds, the records are those of segments 0 to k-1 |
| Segments.SplitFiles | app.py:318-345 | one record more than split times |
| Segments.SplitAudioFile | app.py:318-345 | the loop returns exactly the specified records, one per gap, each lasting at least 0.1 s |
| Segments.DurationsAtLeastMin | app.py:325 | every record lasts at least 0.1 s |
| Segments.SegmentStarts | app.py:320-323 | segment i starts at boundary i: 0 for the first, split time i-1 after it |
| Segments.DurationIsGap | app.py:324-325 | a gap of at least 0.1 s is the segment's duration |
| Segments.TotalUpTo | app.py:320-325 | the first k durations add up to at least the span they cover |
| Segments.TotalUpToSpaced | app.py:320-325 | with gaps of at least 0.1 s they add up to exactly that span |
| Segments.TotalCovers | app.py:320-325 | the durations cover the recording; with well-spaced cuts they add up to its duration exactly |
| Segments.CutsAbut | app.py:323-325 | with well-spaced cuts each segment ends where the next starts, and the last ends at the duration |
| Segments.SegmentNamesDistinct | app.py:326 | different indices give different file names |
| Timestamps.Entry | app.py:576 | a piece gives its stripped text, unless it is blank |
| Timestamps.Entries | app.py:576 | the kept entries are non-blank and stripped |
| Timestamps.EntriesAppend | app.py:576 | the comprehension works piece by piece |
| Timestamps.BlankSkipped | app.py:576 | a blank piece between commas is skipped |
| Timestamps.EntriesAllKept | app.py:576 | with no blank piece, every piece is kept, stripped, in order |
| Timestamps.Floats | app.py:576 | either every entry parses and the values follow the entries, or the first entry `float()` rejects is reported |
| Timestamps.FloatsAllParse | app.py:576 | when every entry parses, those values are the result |
| Timestamps.ManualSplits | app.py:576-578 | a rejected field names a non-blank entry `float()` rejects; an accepted one gives one value per entry, in order, with the first one dropped exactly when it reads as 0 |
| Timestamps.TimesOf | app.py:576-578 | applied to the entries: a rejection names an entry `float()` rejects; otherwise one value per entry, in order, less the first exactly when it reads as 0 |
| Timestamps.ManualSplitsOf | app.py:575-578 | a field of comma-separated numerals gives their values, without a leading 0 |
| Timestamps.ManualSplitsFails | app.py:576 | the field is rejected exactly when some non-blank entry is not a number |
| Timestamps.BlankField | app.py:576-578 | a field of blanks gives no split time |
| Timestamps.DecimalPiece | app.py:576 | a written whole number is a comma-free, stripped piece that parses to itself |
| Timestamps.WholeSecondsRoundTrip | app.py:575-578 | round trip: writing whole seconds with commas and reading the field back gives those seconds, without a leading 0 |
| Timestamps.Tenths | app.py:576 | `float()` of `whole.d` is the whole part plus d tenths |
| Timestamps.ExampleField | app.py:575-578 | the field's own example `0, 8.5, 15.2, 22.0` gives 8.5, 15.2 and 22.0 |
| Pipeline.PairedUpTo | app.py:588-596 | after k lines, the cues pair line i with cut i for every i below both k and the number of cuts |
| Pipeline.PairSegments | app.py:588-596 | the loop returns exactly the specified cues: as many as the fewer of lines and cuts, each with its line's speaker and text and its cut's path and duration |
| Pipeline.PairedExtra | app.py:589-590 | lines without a cut are dropped and cuts without a line are ignored |
| Pipeline.SplitTimes | app.py:575-581 | manual times are used when that method is chosen and the field is not empty, with a rejected entry reported; detected times are used otherwise |
| Pipeline.Cues | app.py:553-596 | the run stops for an empty skit exactly when it is empty and as unparsed exactly when parsing finds no line; a successful run yields between one cue and one per skit line, each with the speaker and text of the line of its index |
| Pipeline.CuesFor | app.py:562-596 | once the skit has lines, the run stops only for a rejected manual entry; otherwise it yields between one cue and one per line, each with the speaker and text of the line of its index |
| Pipeline.CuesFollowSkit | app.py:562-596 | a successful run yields between one cue and one per skit line, each with the line of its index, the cut file of that index and at least 0.1 s |
| Pipeline.CuesFail | app.py:553-576 | the run stops for an empty skit, for an unparsable skit, or for a rejected manual entry, each exactly in its own case |
| Pipeline.AutoOneCuePerLine | app.py:567-596 | with detected times, every skit line gets a cue |
| Pipeline.ManualCueCount | app.py:575-596 | with manual times, the number of cues is the smaller of the number of lines and one more than the number of times |
| Pipeline.BlankFieldOneCue | app.py:575-596 | a blank manual field yields one cue, for the first line's speaker, lasting the whole recording (at least 0.1 s) |
| Pipeline.EvenThirds | app.py:312-325 | with no silence found, a 30 s three-line skit yields three 10 s cuts |
| Pipeline.SingleLine | app.py:305-320 | a one-line skit gets one cut spanning the recording |
| Pipeline.SpeakerNumber | app.py:292 | the label of digits d reads back as d's number |
| Pipeline.TemplateAsWritten | app.py:358 | as written, a label gets the first template exactly when its digits contain a 1 |
| Pipeline.SpeakerTenGetsFirstClip | app.py:358 | as written, speaker 10 gets speaker 1's template; the corrected choice gives it the other one |
| Pipeline.TemplateFor | app.py:358 | corrected: a label gets the first template exactly when its speaker number is 1, and only a label can get it |
| Pipeline.TemplatesAgreeForTwoSpeakers | app.py:358 | for speakers 1 and 2 both choices agree |

## Left out

- The Streamlit interface, uploads, temporary files and the progress display are not modelled.
- `get_duration` and ffprobe are not modelled: the recording's duration is a parameter.
- The ffmpeg `silencedetect` runs are not modelled: their standard-error texts are parameters. The second text is passed even when it is not needed; `Splits.FineIgnored` shows that it is then ignored.
- The ffmpeg cut in `split_audio_file` (`run_cmd`) is not modelled, and neither is any failure it raises. Each record is what the loop appends.
- Gemini speech generation, the skit mode, `check_ffmpeg` and `run_cmd` are not modelled.
- `create_video_from_segments` is not modelled beyond the template choice. The rendering, the concatenation and the closing clip are ffmpeg work.
- `Pipeline.CuesFail`: of the checks at app.py:553, only the empty skit is modelled. The missing audio and templates are UI state.
- Floating point is not modelled: times are exact reals, so rounding in `step * i` and in sums of durations is not captured.
- `Text.ParseFloat` accepts only an optional sign, digits and one optional point. Exponents, `inf`/`nan`, underscores and non-ASCII digits, which Python's `float()` also accepts, are rejected by the model.
- `Patterns`: `\d` is restricted to the ASCII digits, while Python's `\d` in a str pattern also matches other Unicode decimal digits. `\s` is modelled as the full set of characters that `str.isspace()` accepts.
- An exception in the handler, which the `except` at app.py:618-621 shows as an error, is modelled as an `Err` result.

## Findings

| source | as written | input that shows it | evidently intended | confidence | as-written member | corrected member |
|---|---|---|---|---|---|---|
| app.py:358 | `tmpl1 if "1" in seg['speaker'] else tmpl2` tests whether a 1 appears anywhere in the label | a skit line `Speaker 10: "…"` (or 21, 31, …) gets speaker 1's template | speaker 1 gets the first template and every other speaker the second | medium, not executed | Pipeline.SpeakerTenGetsFirstClip | Pipeline.TemplateFor |
