# FFMpegSplit timing files, in Dafny

FFMpegSplit cuts one long music file into tracks with ffmpeg. A timing file
describes the cuts:

- its first line that is not a comment names the music file;
- the following lines, up to the first blank one, are directive lines of the
  form `start|[end|]song[|artist]`;
- lines whose first character is `#` are comments and are skipped, but still
  counted for line numbers.

This project models how `main.py` reads such a file and proves properties of
the model:

- the time syntax `[[HH:]MM:]SS[.digits]` and its value (`TIME_RE`, `parse_time`);
- the directive-line parser (`parse_track`);
- the comment-skipping reader (`get_next_line`);
- the whole file (`get_timings`): the music file check, the directive loop
  that stops at the first bad line and reports its physical line number, and
  the back-fill of missing end times;
- the part of `split` that builds ffmpeg's command line for one track: its
  `-t` duration and the output file name.

Times are natural numbers of milliseconds. The code adds `int(ms) / 1000`
seconds for the fraction digits, whatever their number. So the model reads
the fraction digits as a literal count of milliseconds: `03.12` is 3012 ms
and `01:02:03.5` is 3723005 ms.

The error strings of `parse_track` are templates that `get_timings` fills
with the timing file's name and the line number. The model returns a
`LineError` value for them and renders the final message in `Messages`.

`get_timings` calls `parse_track` on each directive line (main.py:99). The
model's loop instead takes the line parser as a parameter, so the reading
lemmas hold for any parser, and `Timings.GetTimings` fixes it to
`TrackLine.ParseTrack`.

Modules, one per file:

- `Results` (results.dfy): `Option` and `Result`.
- `Text` (text.dfy): digits, decimal rendering (`%d`), `str.strip()`, `str.split` and `join`.
- `TimeSyntax` (time_syntax.dfy): `TIME_RE` and `parse_time`.
- `TrackLine` (track_line.dfy): `parse_track`.
- `Timings` (timings.dfy): the reader class, `get_next_line`, `get_timings` and the back-fill.
- `Dispatch` (dispatch.dfy): the option list of `split`.
- `Messages` (messages.dfy): the messages `get_timings` returns.

## Model

| member | source | states |
|---|---|---|
| Text.DigitsValue | main.py:181-187 | `int()` of a string of ASCII digits: the decimal value, most significant digit first; `TimeSyntax.ParseTimeValue` and `Text.NatToString` state what it gives |
| Text.Strip | main.py:129 | `str.strip()` over Python's whitespace set; its meaning is stated by `Text.StripSpec` |
| Text.NatToString | main.py:103 | the `%d` rendering of the line number: non-empty ASCII digits whose decimal value is the number, with no leading zero except for 0 itself |
| Text.StripSpec | main.py:129 | `strip()` returns a slice of the line with only whitespace cut off on either side, and the slice neither starts nor ends with whitespace |
| Text.Split | main.py:138 | `split("\|")` gives at least one field, and no field holds the separator |
| Text.JoinSplit | main.py:138 | joining the fields of a split with the separator gives back the line |
| Text.SplitJoin | main.py:138 | splitting a join of separator-free fields gives back those fields |
| Text.SplitConcat | main.py:138 | splitting a line at a separator is splitting its two sides |
| TimeSyntax.Lex | main.py:172 | `TIME_RE` without its trailing `$`: the long, medium and short forms, each with an optional fraction; `TimeSyntax.LexSound` and `TimeSyntax.LexComplete` state what it accepts |
| TimeSyntax.ParseTime | main.py:173-189 | `parse_time`: `None` where the code returns `False`, else the time in milliseconds; `TimeSyntax.ParseTimeAccepts` and `TimeSyntax.ParseTimeValue` state when it succeeds and its value |
| TimeSyntax.MatchSubject | main.py:172 | the trailing `$` accepts the string itself or the string with exactly one trailing newline removed |
| TimeSyntax.LexSound | main.py:172 | whatever the regular expression matches is a well-formed time written out: optional hours only together with minutes, two-digit fields, one or more fraction digits after a dot |
| TimeSyntax.LexComplete | main.py:172 | every well-formed time written out is matched, with the same fields recovered |
| TimeSyntax.ParseTimeAccepts | main.py:172-179 | `parse_time` succeeds exactly when the string is a well-formed time, possibly followed by one newline |
| TimeSyntax.ParseTimeValue | main.py:181-189 | the value of a match is `H*3600000 + M*60000 + S*1000 + int(ms)` milliseconds, with a trailing newline or without |
| TimeSyntax.ParseTimeZero | main.py:143-144 | `"00"` parses to 0, which is a success and distinct from failure |
| TimeSyntax.ParseTimeShortFraction | main.py:186-187 | `"03.12"` is 3012 ms: the fraction is read as literal milliseconds |
| TimeSyntax.ParseTimeOneDigitFraction | main.py:181-187 | `"01:02:03.5"` is 3723005 ms, not 3723500 |
| TimeSyntax.ParseTimeLongFraction | main.py:181-187 | `"00:01:00.1500"` is 61500 ms |
| TimeSyntax.ParseTimeSeconds | main.py:181 | two digits alone are that many seconds |
| TimeSyntax.ParseTimeSingleSecondDigit | main.py:172 | `"3.12"` is rejected: seconds need exactly two digits |
| TimeSyntax.FormatTime | main.py:172-189 | every number of milliseconds has a text, made of digits and a dot, that `parse_time` reads back as that number |
| TrackLine.ParseTrack | main.py:131-167 | `parse_track`: the line split on `\|`, then read field by field; `TrackLine.ParseTrackRejects`, `TrackLine.ParseTrackFields` and `TrackLine.ParseFormatTrack` state what it gives |
| TrackLine.ParseFields | main.py:139-166 | the branches of `parse_track` over the fields: the three errors, the end time when field 2 is a time, the name and optional artist after it |
| TrackLine.ParseTrackRejects | main.py:138-156 | the three errors, each as an if-and-only-if: fewer than two fields; a first field that is not a time; a second field that is a time with no third field |
| TrackLine.ParseTrackFields | main.py:142-166 | a parsed record: the start time is field 1; the end time is field 2 parsed as a time, if it is one; the song name follows; the artist is the next field if there is one, else absent |
| TrackLine.ParseFormatTrack | main.py:131-167 | every record whose name and artist hold no `\|`, and whose name does not read as a time when there is no end time, is parsed back from its written line |
| TrackLine.ParseTrackIgnoresExtraFields | main.py:157-160 | fields after the artist are ignored |
| TrackLine.ParseTrackTimeWins | main.py:147-156 | a second field that reads as a time is the end time, never the song name: with no third field the line is rejected, with one the third field is the name |
| TrackLine.ParseTrackEmptyName | main.py:155-157 | an empty song name is accepted |
| Timings.Reader.ReadLine | main.py:123 | `readline()` returns the next raw line, or "" at the end of the file, and advances by one |
| Timings.LinesRead | main.py:123-127 | the count of lines read is at least 1, every line before the last one read is a comment, the last is not, and no more than one read goes past the end |
| Timings.NextLine | main.py:118-129 | the count is at least 1, and a non-blank result lies inside the file |
| Timings.SkipComments | main.py:123-127 | the loop reads exactly the comment lines and the one line after them, and returns that line raw with the count |
| Timings.GetNextLine | main.py:118-129 | returns the first non-comment line, stripped, with the number of lines read to reach it; the reader advances by that number |
| Timings.ParseTracks | main.py:96-108 | the directive loop of `get_timings` as a function of the raw lines: tracks up to a blank line or the end of the file, or the first error with the lines read so far; `Timings.ParseTracksErrorLine`, `Timings.ParseTracksErrorBefore`, `Timings.ParseTracksAbort` and `Timings.ParseTracksOk` state what it gives |
| Timings.ParseTracksErrorLine | main.py:96-104 | a reported line number is the 1-based number of a physical line after the music file line, not a comment, whose stripped text gives the reported error |
| Timings.ParseTracksErrorBefore | main.py:96-108 | every line between the music file line and the failing line is a comment or a directive line that parsed |
| Timings.ParseTracksFailingRead | main.py:96-108 | the error comes from the read at which the line count reaches the reported number |
| Timings.Resolved | main.py:110-115 | the tracks after the back-fill pass; `Timings.ResolvedEffect` states what it changes |
| Timings.ResolvedEffect | main.py:110-115 | the back-fill keeps number, order, start times, names and artists; a track other than the last without an end time ends where the next starts; explicit end times and the last track are unchanged |
| Timings.ResolveEndTimes | main.py:110-115 | the in-place back-fill loop computes the back-filled tracks |
| Timings.ResolvedIdempotent | main.py:110-115 | back-filling twice is back-filling once |
| Timings.ReadFile | main.py:82-116 | what `get_timings` returns for a file's raw lines: the missing music file, the first bad line, or the music file with the back-filled tracks; `Timings.ReadFileMissingMusic`, `Timings.ReadFileBadLine`, `Timings.ReadFileAborts` and `Timings.ReadFileTracks` state which and what |
| Timings.ReadFileMissingMusic | main.py:89-94 | the file is refused for its music file exactly when the first non-comment line names no existing file |
| Timings.ReadFileBadLineParsed | main.py:96-104 | a file refused for a directive line has an existing music file, and the refusal carries the error and line number of the first bad directive line |
| Timings.ParseTracksAbort | main.py:98-104 | a line that is not a comment, not blank and does not parse, with no blank line before it, makes the directive lines an error, reported at that line or an earlier one |
| Timings.ParseTracksOk | main.py:98-108 | a list of tracks ends at a blank line or the end of the file; every line before it is a comment or a directive line that parsed; the tracks are the parses of the non-comment lines, in order (`DirectiveTracks`, read off the raw lines without the reader) |
| Timings.ReadFileBadLine | main.py:96-104 | a file refused for a directive line names the 1-based number of a physical line after the music file line, not a comment, whose stripped text gives the problem |
| Timings.ReadFileAborts | main.py:96-104 | with an existing music file, a bad directive line with no blank line before it refuses the file for a line, at that line or an earlier one |
| Timings.ReadFileTracks | main.py:82-116 | a file read successfully has the first line found as its music file, which exists, and as tracks the back-filled parses of the directive lines up to the first blank line or the end of the file, every one of which parsed |
| Timings.ReadTracks | main.py:96-108 | the directive loop, reading with the reader, returns `ParseTracks` of the lines not yet read: so, by `Timings.ParseTracksOk`, the parses of the directive lines up to the first blank line or the end of the file, or, by `Timings.ParseTracksAbort` and `Timings.ParseTracksErrorLine`, the first line that does not parse, numbered by the lines read so far |
| Timings.ReadTimings | main.py:82-116 | the body of `get_timings` for any line parser computes the reading of the whole file |
| Timings.GetTimings | main.py:82-116 | `get_timings` computes the reading of the whole file, with `parse_track` as the line parser |
| Dispatch.OutputName | main.py:223-225 | the output name starts with the song name, and continues, with `" by "` and the artist, exactly when the artist is present and not empty |
| Dispatch.DurationArgs | main.py:205-207 | the `-t` pair, for a track with an end time only; `Dispatch.OptionsDuration` states it in place |
| Dispatch.Options | main.py:196-229 | the whole ffmpeg command line for one track; `Dispatch.OptionsLayout` and `Dispatch.OptionsDuration` state its shape |
| Dispatch.OptionsDuration | main.py:205-207 | a `-t` follows the start time exactly when the track has an end time, and its value is end minus start |
| Dispatch.OptionsLayout | main.py:196-229 | 11 or 9 arguments: ffmpeg, `-ss` and the start first; the input, codec copy, overwrite and the output path under the music directory last |
| Dispatch.SplitOptions | main.py:196-229 | the appends build exactly the command line `OptionsLayout` and `OptionsDuration` describe |
| Messages.ProblemText | main.py:139-156 | the wording after the line number of each `parse_track` error, which starts with a space so that it follows the number as a separate word |
| Messages.Message | main.py:92-103 | the message `get_timings` returns, with the file names and the line number filled in; `Messages.MessageLocation`, `Messages.MessageTellsProblem` and `Messages.MessageTellsKind` state its shape |
| Messages.MessageLocation | main.py:103 | a line message starts with the quoted timing file name, then the line number in decimal, followed by a space |
| Messages.MessageTellsProblem | main.py:139-156 | the three line problems give different messages, whatever the file and the line |
| Messages.MessageTellsKind | main.py:92-103 | a missing-music-file message never equals a line message |

## Left out

- `main` (main.py:33-70) is not modelled: argument parsing, the check that ffmpeg is installed, printing and the exit code are command-line and process plumbing.
- `check_good_file` (main.py:72-80) and `Path.exists()` (main.py:92) touch the file system. Existence is the `musicExists` parameter.
- Opening the timing file is not modelled: its contents are given as the sequence of raw lines `readline()` would return, each with its newline, except possibly the last.
- `Path(line)` (main.py:91) is not modelled: the music file is the stripped line as read, without path normalisation such as `""` becoming `"."`.
- In `split`: `subprocess.run`, `mkdir`, `Path.resolve`, `stem` and `suffix`, and the decoding of ffmpeg's stderr (main.py:220-221, 231-235) are foreign calls and I/O. The music directory and the suffix are parameters of `Dispatch.Options`, and the ffmpeg error message is not modelled.
- Dispatch.Options: a time argument is an integer of milliseconds; the `str()` rendering of float seconds is not modelled.
- TimeSyntax.ParseTime: `\d` matches ASCII digits only, not every Unicode decimal digit Python's `re` accepts.
- TimeSyntax.ParseTime: times are exact integer milliseconds, so the rounding of float seconds is not modelled.
- TimeSyntax.ParseTime: `int(match["ms"]) / 1000` (main.py:187) raises for a long fraction. `OverflowError` comes past about 310 digits, when the float division overflows, and Python 3.11 and later raise `ValueError` past 4300 digits in `int()`. Either exception ends `get_timings`, while the model returns an ordinary value for every fraction.
- Timings.ResolveEndTimes: the in-place update of each track's `end_time` is modelled as reassigning one element of a sequence, so the aliasing of the track dictionaries is not modelled.
