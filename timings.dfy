/**
 * Reading a whole timing file (`get_next_line`, `get_timings`): the first
 * non-comment line names the music file, the following non-comment lines up
 * to the first blank one are directive lines, and a final pass gives every
 * track but the last that has no end time the start time of the next track.
 */
module Timings {
  import opened Results
  import opened Text
  import opened TrackLine

  // ---------------------------------------------------------------------
  // The reader: a file's raw lines, read one `readline()` at a time
  // ---------------------------------------------------------------------

  /** What the `readline()` numbered `i` (from 0) returns: the raw line, or "" at end of file. */
  function RawLine(lines: seq<string>, i: nat): string {
    if i < |lines| then lines[i] else ""
  }

  /** A comment line: its first raw character is `#`. */
  predicate IsComment(raw: string) {
    raw != [] && raw[0] == '#'
  }

  class Reader {
    const lines: seq<string>
    /** The number of `readline()` calls made so far. */
    var pos: nat

    constructor (lines: seq<string>)
      ensures this.lines == lines && pos == 0
    {
      this.lines := lines;
      pos := 0;
    }

    method ReadLine() returns (raw: string)
      modifies this
      ensures raw == RawLine(lines, old(pos)) && pos == old(pos) + 1
    {
      raw := if pos < |lines| then lines[pos] else "";
      pos := pos + 1;
    }
  }

  /**
   * The number of lines `get_next_line` reads when `pos` lines have been read:
   * the comment lines from `pos` on, and the line after them.
   */
  function LinesRead(lines: seq<string>, pos: nat): (n: nat)
    ensures n >= 1
    ensures forall k :: pos <= k < pos + n - 1 ==> IsComment(RawLine(lines, k))
    ensures !IsComment(RawLine(lines, pos + n - 1))
    ensures pos <= |lines| ==> pos + n <= |lines| + 1
    decreases if pos < |lines| then |lines| - pos else 0
  {
    if IsComment(RawLine(lines, pos)) then 1 + LinesRead(lines, pos + 1) else 1
  }

  /**
   * What `get_next_line` returns when `pos` lines have been read: the first
   * raw line from `pos` on that is not a comment, stripped, and the number of
   * lines read to reach it, comments and that line included.
   */
  function NextLine(lines: seq<string>, pos: nat): (r: (string, nat))
    ensures r.1 >= 1
    ensures r.0 != [] ==> pos + r.1 <= |lines|
  {
    var count := LinesRead(lines, pos);
    (Strip(RawLine(lines, pos + count - 1)), count)
  }

  /** The loop of `get_next_line`: read lines until one is not a comment; return it raw, and how many lines were read. */
  method SkipComments(reader: Reader) returns (raw: string, count: nat)
    modifies reader
    ensures count == LinesRead(reader.lines, old(reader.pos))
    ensures raw == RawLine(reader.lines, old(reader.pos) + count - 1)
    ensures reader.pos == old(reader.pos) + count
  {
    ghost var start := reader.pos;
    raw := reader.ReadLine();
    count := 1;
    while raw != "" && raw[0] == '#'
      invariant count >= 1 && reader.pos == start + count
      invariant raw == RawLine(reader.lines, reader.pos - 1)
      invariant LinesRead(reader.lines, start) == LinesRead(reader.lines, reader.pos - 1) + count - 1
      decreases |reader.lines| + 1 - reader.pos
    {
      raw := reader.ReadLine();
      count := count + 1;
    }
  }

  /** `get_next_line`: skip comment lines, return the next line stripped and how many lines were read. */
  method GetNextLine(reader: Reader) returns (line: string, count: nat)
    modifies reader
    ensures (line, count) == NextLine(reader.lines, old(reader.pos))
    ensures reader.pos == old(reader.pos) + count
  {
    var raw;
    raw, count := SkipComments(reader);
    line := Strip(raw);
  }

  // ---------------------------------------------------------------------
  // The directive lines
  // ---------------------------------------------------------------------

  /** `ts` in front of the tracks of `r`, errors passed through. */
  function Prepend(ts: seq<Track>, r: Result<seq<Track>, (LineError, nat)>): Result<seq<Track>, (LineError, nat)> {
    match r
    case Ok(rest) => Ok(ts + rest)
    case Err(e) => Err(e)
  }

  /**
   * The tracks of the directive lines read after line `pos`, up to the first
   * blank line or the end of the file; or the first line that does not parse,
   * with its error and its line number (the number of lines read so far).
   * `parse` reads one stripped line; `get_timings` uses `ParseTrack`, and the
   * lemmas below hold for any line parser.
   */
  function ParseTracks(lines: seq<string>, pos: nat, parse: string -> Result<Track, LineError>): Result<seq<Track>, (LineError, nat)>
    decreases if pos <= |lines| then |lines| + 1 - pos else 0
  {
    var (line, count) := NextLine(lines, pos);
    if line == [] then Ok([])
    else
      match parse(line)
      case Err(problem) => Err((problem, pos + count))
      case Ok(t) => Prepend([t], ParseTracks(lines, pos + count, parse))
  }

  /** One step of `ParseTracks`: the line after `pos`, and what follows from it. */
  lemma ParseTracksStep(lines: seq<string>, pos: nat, parse: string -> Result<Track, LineError>)
    requires ParseTracks(lines, pos, parse).Err?
    ensures var next := NextLine(lines, pos);
      && next.0 != []
      && (if parse(next.0).Ok? then ParseTracks(lines, pos + next.1, parse) == ParseTracks(lines, pos, parse)
          else ParseTracks(lines, pos, parse) == Err((parse(next.0).error, pos + next.1)))
  {
  }

  /** The read that failed: from line `q` on, `NextLine` found the line that did not parse. */
  lemma {:induction false} ParseTracksFailingRead(lines: seq<string>, pos: nat, parse: string -> Result<Track, LineError>)
    returns (q: nat)
    requires ParseTracks(lines, pos, parse).Err?
    ensures var (problem, lineNum) := ParseTracks(lines, pos, parse).error;
      && pos <= q && q + NextLine(lines, q).1 == lineNum
      && NextLine(lines, q).0 != [] && parse(NextLine(lines, q).0) == Err(problem)
    decreases if pos <= |lines| then |lines| + 1 - pos else 0
  {
    ParseTracksStep(lines, pos, parse);
    if parse(NextLine(lines, pos).0).Ok? {
      var at := ParseTracksSkip(lines, pos, parse);
      q := ParseTracksFailingRead(lines, at, parse);
    } else {
      q := pos;
    }
  }

  /** A line that parses passes the search for the error on to the line after it, `at`. */
  lemma ParseTracksSkip(lines: seq<string>, pos: nat, parse: string -> Result<Track, LineError>) returns (at: nat)
    requires ParseTracks(lines, pos, parse).Err? && parse(NextLine(lines, pos).0).Ok?
    ensures at == pos + NextLine(lines, pos).1 && pos < at <= |lines|
    ensures ParseTracks(lines, at, parse) == ParseTracks(lines, pos, parse)
  {
    ParseTracksStep(lines, pos, parse);
    at := pos + NextLine(lines, pos).1;
  }

  /**
   * A reported line number is the 1-based number of the physical line that
   * failed: a line after `pos` that is not a comment and does not parse, with
   * the error it gives ...
   */
  lemma ParseTracksErrorLine(lines: seq<string>, pos: nat, parse: string -> Result<Track, LineError>)
    requires ParseTracks(lines, pos, parse).Err?
    ensures var (problem, lineNum) := ParseTracks(lines, pos, parse).error;
      && pos < lineNum <= |lines|
      && !IsComment(lines[lineNum - 1])
      && parse(Strip(lines[lineNum - 1])) == Err(problem)
  {
    var q := ParseTracksFailingRead(lines, pos, parse);
    NextLineLast(lines, q);
  }

  /** A line `NextLine` finds that is not blank is a physical line of the file. */
  lemma NextLineLast(lines: seq<string>, q: nat)
    requires NextLine(lines, q).0 != []
    ensures var n := q + NextLine(lines, q).1;
      && q < n <= |lines|
      && !IsComment(lines[n - 1])
      && NextLine(lines, q).0 == Strip(lines[n - 1])
  {
    var n := q + NextLine(lines, q).1;
    assert RawLine(lines, n - 1) == lines[n - 1];
  }

  /** ... and every line between `pos` and the failing line is a comment or a directive line that parsed. */
  lemma {:induction false} ParseTracksErrorBefore(lines: seq<string>, pos: nat, parse: string -> Result<Track, LineError>,
                                                   e: (LineError, nat), j: nat)
    requires ParseTracks(lines, pos, parse) == Err(e)
    requires pos <= j < e.1 - 1 && j < |lines|
    ensures IsComment(lines[j]) || (Strip(lines[j]) != [] && parse(Strip(lines[j])).Ok?)
    decreases if pos <= |lines| then |lines| + 1 - pos else 0
  {
    if j < pos + NextLine(lines, pos).1 - 1 {
      NextLineSkipped(lines, pos, j);
    } else {
      var at := ParseTracksPassed(lines, pos, parse, e);
      if j == at - 1 {
        NextLineLast(lines, pos);
      } else {
        ParseTracksErrorBefore(lines, at, parse, e, j);
      }
    }
  }

  /** A line read before the failing one parsed, and the error lies further on, from line `at` on. */
  lemma ParseTracksPassed(lines: seq<string>, pos: nat, parse: string -> Result<Track, LineError>, e: (LineError, nat))
    returns (at: nat)
    requires ParseTracks(lines, pos, parse) == Err(e)
    requires pos + NextLine(lines, pos).1 < e.1
    ensures at == pos + NextLine(lines, pos).1 && pos < at <= |lines|
    ensures NextLine(lines, pos).0 != [] && parse(NextLine(lines, pos).0).Ok?
    ensures ParseTracks(lines, at, parse) == Err(e)
  {
    ParseTracksStep(lines, pos, parse);
    at := pos + NextLine(lines, pos).1;
  }

  /** The lines `NextLine` reads before the one it returns are comments. */
  lemma NextLineSkipped(lines: seq<string>, pos: nat, j: nat)
    requires pos <= j < pos + NextLine(lines, pos).1 - 1 && j < |lines|
    ensures IsComment(lines[j])
  {
    assert RawLine(lines, j) == lines[j];
  }

  /**
   * The loop does abort at a bad line: a line after `pos` that is not a
   * comment, not blank and does not parse, with no blank line before it,
   * makes the result an error, reported at that line or before it.
   */
  lemma {:induction false} ParseTracksAbort(lines: seq<string>, pos: nat, parse: string -> Result<Track, LineError>, j: nat)
    requires pos <= j < |lines|
    requires !IsComment(lines[j]) && Strip(lines[j]) != [] && parse(Strip(lines[j])).Err?
    requires forall k :: pos <= k < j ==> IsComment(lines[k]) || Strip(lines[k]) != []
    ensures ParseTracks(lines, pos, parse).Err? && ParseTracks(lines, pos, parse).error.1 <= j + 1
    decreases j - pos
  {
    var (line, count) := NextLine(lines, pos);
    var n := pos + count - 1;
    if n < j {
      assert RawLine(lines, n) == lines[n];
      assert line == Strip(lines[n]) != [];
      if parse(line).Ok? {
        var at := ParseTracksPass(lines, pos, parse);
        ParseTracksAbort(lines, at, parse, j);
      } else {
        ParseTracksStop(lines, pos, parse);
      }
    } else if n == j {
      assert RawLine(lines, j) == lines[j];
      ParseTracksStop(lines, pos, parse);
    } else {
      NextLineSkipped(lines, pos, j);
    }
  }

  /** A line that parses passes an error from the lines after it, at line `at` on, through unchanged. */
  lemma ParseTracksPass(lines: seq<string>, pos: nat, parse: string -> Result<Track, LineError>) returns (at: nat)
    requires NextLine(lines, pos).0 != [] && parse(NextLine(lines, pos).0).Ok?
    ensures at == pos + NextLine(lines, pos).1
    ensures ParseTracks(lines, at, parse).Err? ==> ParseTracks(lines, pos, parse) == ParseTracks(lines, at, parse)
  {
    at := pos + NextLine(lines, pos).1;
  }

  /** A line that is not blank and does not parse is the error, at the number of lines read. */
  lemma ParseTracksStop(lines: seq<string>, pos: nat, parse: string -> Result<Track, LineError>)
    requires NextLine(lines, pos).0 != [] && parse(NextLine(lines, pos).0).Err?
    ensures ParseTracks(lines, pos, parse) == Err((parse(NextLine(lines, pos).0).error, pos + NextLine(lines, pos).1))
  {
  }

  /** A blank line or the end of the file ends the tracks. */
  lemma ParseTracksBlank(lines: seq<string>, pos: nat, parse: string -> Result<Track, LineError>)
    requires NextLine(lines, pos).0 == []
    ensures ParseTracks(lines, pos, parse) == Ok([])
  {
  }

  /** A line that parses puts its track in front of the tracks from line `at` on. */
  lemma ParseTracksKeep(lines: seq<string>, pos: nat, parse: string -> Result<Track, LineError>) returns (at: nat)
    requires ParseTracks(lines, pos, parse).Ok? && NextLine(lines, pos).0 != []
    ensures at == pos + NextLine(lines, pos).1 && pos < at <= |lines|
    ensures parse(NextLine(lines, pos).0).Ok? && ParseTracks(lines, at, parse).Ok?
    ensures ParseTracks(lines, pos, parse).value ==
      [parse(NextLine(lines, pos).0).value] + ParseTracks(lines, at, parse).value
  {
    at := pos + NextLine(lines, pos).1;
  }

  /**
   * The tracks of the raw lines numbered `from` to `to - 1`, independently of
   * the reader: comment lines give none, every other line gives its parse.
   */
  function DirectiveTracks(lines: seq<string>, from: nat, to: nat, parse: string -> Result<Track, LineError>): seq<Track>
    decreases if from < to then to - from else 0
  {
    if to <= from then []
    else
      var rest := DirectiveTracks(lines, from + 1, to, parse);
      if IsComment(RawLine(lines, from)) then rest
      else
        match parse(Strip(RawLine(lines, from)))
        case Ok(t) => [t] + rest
        case Err(_) => rest
  }

  /** A directive line that parses at the front of a range adds its track. */
  lemma DirectiveTracksParsed(lines: seq<string>, from: nat, to: nat, parse: string -> Result<Track, LineError>)
    requires from < to && !IsComment(RawLine(lines, from)) && parse(Strip(RawLine(lines, from))).Ok?
    ensures DirectiveTracks(lines, from, to, parse) ==
      [parse(Strip(RawLine(lines, from))).value] + DirectiveTracks(lines, from + 1, to, parse)
  {
  }

  /** Comment lines at the front of a range add no tracks. */
  lemma {:induction false} CommentsSkipped(lines: seq<string>, from: nat, mid: nat, to: nat,
                                           parse: string -> Result<Track, LineError>)
    requires from <= mid <= to
    requires forall k :: from <= k < mid ==> IsComment(RawLine(lines, k))
    ensures DirectiveTracks(lines, from, to, parse) == DirectiveTracks(lines, mid, to, parse)
    decreases mid - from
  {
    if from < mid {
      CommentsSkipped(lines, from + 1, mid, to, parse);
    }
  }

  /**
   * A list of tracks comes from the lines after `pos` up to line `stop`,
   * which is blank or the end of the file: every line before it is a comment
   * or a directive line that parsed, and the tracks are those lines' parses,
   * in order.
   */
  lemma {:induction false} ParseTracksOk(lines: seq<string>, pos: nat, parse: string -> Result<Track, LineError>)
    returns (stop: nat)
    requires ParseTracks(lines, pos, parse).Ok?
    ensures pos <= stop && (pos <= |lines| ==> stop <= |lines|)
    ensures stop < |lines| ==> !IsComment(lines[stop]) && Strip(lines[stop]) == []
    ensures forall k :: pos <= k < stop && k < |lines| ==>
      IsComment(lines[k]) || (Strip(lines[k]) != [] && parse(Strip(lines[k])).Ok?)
    ensures ParseTracks(lines, pos, parse).value == DirectiveTracks(lines, pos, stop, parse)
    decreases if pos <= |lines| then |lines| + 1 - pos else 0
  {
    var (line, count) := NextLine(lines, pos);
    var n := pos + count - 1;
    if line == [] {
      stop := n;
      CommentsSkipped(lines, pos, n, n, parse);
      ParseTracksBlank(lines, pos, parse);
      assert stop < |lines| ==> RawLine(lines, stop) == lines[stop];
      forall k | pos <= k < stop && k < |lines| ensures IsComment(lines[k]) {
        NextLineSkipped(lines, pos, k);
      }
    } else {
      NextLineLast(lines, pos);
      var at := ParseTracksKeep(lines, pos, parse);
      var t := parse(line).value;
      stop := ParseTracksOk(lines, at, parse);
      CommentsSkipped(lines, pos, n, stop, parse);
      assert RawLine(lines, n) == lines[n] && at == n + 1;
      DirectiveTracksParsed(lines, n, stop, parse);
      forall k | pos <= k < stop && k < |lines|
        ensures IsComment(lines[k]) || (Strip(lines[k]) != [] && parse(Strip(lines[k])).Ok?)
      {
        if k < n {
          NextLineSkipped(lines, pos, k);
        } else if k == n {
          assert Strip(lines[k]) == line;
        } else {
          assert at <= k < stop;
        }
      }
    }
  }

  // ---------------------------------------------------------------------
  // Back-filling end times
  // ---------------------------------------------------------------------

  /** `t` with, when it has none, the end time `next` starts at. */
  function FillEnd(t: Track, next: Track): Track {
    if t.endTime.None? then t.(endTime := Some(next.startTime)) else t
  }

  /**
   * The tracks after the back-fill pass: each track but the last is filled
   * from the one after it, the last is kept.
   */
  function Resolved(ts: seq<Track>): seq<Track> {
    seq(|ts|, i requires 0 <= i < |ts| => if i + 1 < |ts| then FillEnd(ts[i], ts[i + 1]) else ts[i])
  }

  /**
   * What the back-fill changes: number and order are kept, only end times
   * change, a track but the last without an end time ends where the next one
   * starts, explicit end times and the last track are left alone.
   */
  lemma ResolvedEffect(ts: seq<Track>, i: nat)
    requires i < |ts|
    ensures |Resolved(ts)| == |ts|
    ensures var r := Resolved(ts)[i];
      && r.startTime == ts[i].startTime && r.songName == ts[i].songName && r.artist == ts[i].artist
      && (ts[i].endTime.Some? ==> r == ts[i])
      && (i + 1 < |ts| && ts[i].endTime.None? ==> r.endTime == Some(ts[i + 1].startTime))
      && (i + 1 < |ts| ==> r.endTime.Some?)
      && (i + 1 == |ts| ==> r == ts[i])
  {
  }

  /** The back-fill loop of `get_timings`, over the list of parsed tracks. */
  method ResolveEndTimes(tracks: seq<Track>) returns (resolved: seq<Track>)
    ensures resolved == Resolved(tracks)
  {
    resolved := tracks;
    if |resolved| > 1 {
      for i := 0 to |resolved| - 1
        invariant |resolved| == |tracks|
        invariant forall k {:trigger resolved[k]} :: 0 <= k < i ==> resolved[k] == FillEnd(tracks[k], tracks[k + 1])
        invariant forall k :: i <= k < |tracks| ==> resolved[k] == tracks[k]
      {
        if resolved[i].endTime.None? {
          resolved := resolved[i := resolved[i].(endTime := Some(resolved[i + 1].startTime))];
        }
      }
    }
    assert forall k | 0 <= k < |tracks| :: resolved[k] == Resolved(tracks)[k];
  }

  /** Back-filling twice is back-filling once. */
  lemma ResolvedIdempotent(ts: seq<Track>)
    ensures Resolved(Resolved(ts)) == Resolved(ts)
  {
    var r := Resolved(ts);
    forall i | 0 <= i < |ts| ensures Resolved(r)[i] == r[i] {
      if i < |ts| - 1 {
        FillEndFills(ts[i], ts[i + 1], r[i + 1]);
      }
    }
  }

  /** A track just filled from `next` has an end time, so filling it again from any track changes nothing. */
  lemma FillEndFills(t: Track, next: Track, other: Track)
    ensures FillEnd(FillEnd(t, next), other) == FillEnd(t, next)
  {
  }

  // ---------------------------------------------------------------------
  // The whole file
  // ---------------------------------------------------------------------

  /** A timing file read successfully: the music file and its tracks, end times filled in. */
  datatype Segmented = Segmented(musicFile: string, tracks: seq<Track>)

  /** Why a timing file produced no tracks. */
  datatype Diagnostic =
    | MissingMusicFile(musicFile: string, timingFile: string)
    | BadLine(problem: LineError, timingFile: string, lineNum: nat)

  /**
   * What `get_timings` returns for a timing file with raw lines `lines`, given
   * which paths name existing files and the parser of directive lines
   * (`get_timings` uses `ParseTrack`).
   */
  function ReadFile(lines: seq<string>, timingFile: string, musicExists: string -> bool,
                   parse: string -> Result<Track, LineError>): Result<Segmented, Diagnostic> {
    var (musicFile, count) := NextLine(lines, 0);
    if !musicExists(musicFile) then Err(MissingMusicFile(musicFile, timingFile))
    else
      match ParseTracks(lines, count, parse)
      case Err((problem, lineNum)) => Err(BadLine(problem, timingFile, lineNum))
      case Ok(tracks) => Ok(Segmented(musicFile, Resolved(tracks)))
  }

  /**
   * The loop of `get_timings` reads the directive lines in the order
   * `ParseTracks` does: `parsed` is what is due from line `before` on, behind
   * the tracks already collected. A line that parses adds its track ...
   */
  lemma ParseTracksAdvance(lines: seq<string>, before: nat, tracks: seq<Track>,
                           parsed: Result<seq<Track>, (LineError, nat)>, line: string, lineNum: nat,
                        parse: string -> Result<Track, LineError>)
    requires parsed == Prepend(tracks, ParseTracks(lines, before, parse))
    requires line == NextLine(lines, before).0 && lineNum == before + NextLine(lines, before).1
    requires line != [] && parse(line).Ok?
    ensures parsed == Prepend(tracks + [parse(line).value], ParseTracks(lines, lineNum, parse))
  {
    PrependPrepend(tracks, [parse(line).value], ParseTracks(lines, lineNum, parse));
  }

  /** ... a line that does not parse is the error, with the number of lines read ... */
  lemma ParseTracksFail(lines: seq<string>, before: nat, tracks: seq<Track>,
                        parsed: Result<seq<Track>, (LineError, nat)>, line: string, lineNum: nat,
                        parse: string -> Result<Track, LineError>)
    requires parsed == Prepend(tracks, ParseTracks(lines, before, parse))
    requires line == NextLine(lines, before).0 && lineNum == before + NextLine(lines, before).1
    requires line != [] && parse(line).Err?
    ensures parsed == Err((parse(line).error, lineNum))
  {
  }

  /** ... and a blank line or the end of the file ends the list. */
  lemma ParseTracksFinish(lines: seq<string>, before: nat, tracks: seq<Track>,
                          parsed: Result<seq<Track>, (LineError, nat)>, line: string,
                          parse: string -> Result<Track, LineError>)
    requires parsed == Prepend(tracks, ParseTracks(lines, before, parse))
    requires line == NextLine(lines, before).0 && line == []
    ensures parsed == Ok(tracks)
  {
    assert tracks + [] == tracks;
  }

  lemma PrependNothing(r: Result<seq<Track>, (LineError, nat)>)
    ensures Prepend([], r) == r
  {
    if r.Ok? {
      assert [] + r.value == r.value;
    }
  }

  lemma PrependPrepend(a: seq<Track>, b: seq<Track>, r: Result<seq<Track>, (LineError, nat)>)
    ensures Prepend(a, Prepend(b, r)) == Prepend(a + b, r)
  {
    if r.Ok? {
      assert a + (b + r.value) == (a + b) + r.value;
    }
  }

  /** How `ReadFile` combines the music file line with the outcome of the directive lines. */
  lemma ReadFileOutcome(lines: seq<string>, timingFile: string, musicExists: string -> bool,
                       parse: string -> Result<Track, LineError>, parsed: Result<seq<Track>, (LineError, nat)>)
    requires musicExists(NextLine(lines, 0).0) && parsed == ParseTracks(lines, NextLine(lines, 0).1, parse)
    ensures ReadFile(lines, timingFile, musicExists, parse) ==
      match parsed
      case Err((problem, lineNum)) => Err(BadLine(problem, timingFile, lineNum))
      case Ok(tracks) => Ok(Segmented(NextLine(lines, 0).0, Resolved(tracks)))
  {
  }

  /** The file is refused for its music file exactly when the first line found names no existing file. */
  lemma ReadFileMissingMusic(lines: seq<string>, timingFile: string, musicExists: string -> bool,
                            parse: string -> Result<Track, LineError>)
    ensures ReadFile(lines, timingFile, musicExists, parse) == Err(MissingMusicFile(NextLine(lines, 0).0, timingFile))
      <==> !musicExists(NextLine(lines, 0).0)
  {
  }

  /**
   * A file refused for a directive line is refused for the error and line
   * number `ParseTracks` reports for the lines after the music file line
   * (see `ParseTracksErrorLine` and `ParseTracksErrorBefore`).
   */
  lemma ReadFileBadLineParsed(lines: seq<string>, timingFile: string, musicExists: string -> bool,
                             parse: string -> Result<Track, LineError>, problem: LineError, lineNum: nat)
    requires ReadFile(lines, timingFile, musicExists, parse) == Err(BadLine(problem, timingFile, lineNum))
    ensures musicExists(NextLine(lines, 0).0)
    ensures ParseTracks(lines, NextLine(lines, 0).1, parse) == Err((problem, lineNum))
  {
  }

  /** A file refused for a directive line names a physical line after the music file line: not a comment, and its stripped text gives the problem. */
  lemma ReadFileBadLine(lines: seq<string>, timingFile: string, musicExists: string -> bool,
                        parse: string -> Result<Track, LineError>, problem: LineError, lineNum: nat)
    requires ReadFile(lines, timingFile, musicExists, parse) == Err(BadLine(problem, timingFile, lineNum))
    ensures NextLine(lines, 0).1 < lineNum <= |lines|
    ensures !IsComment(lines[lineNum - 1]) && parse(Strip(lines[lineNum - 1])) == Err(problem)
  {
    ReadFileBadLineParsed(lines, timingFile, musicExists, parse, problem, lineNum);
    ParseTracksErrorLine(lines, NextLine(lines, 0).1, parse);
  }

  /** With an existing music file, a bad directive line with no blank line before it refuses the file, at that line or before it. */
  lemma ReadFileAborts(lines: seq<string>, timingFile: string, musicExists: string -> bool,
                       parse: string -> Result<Track, LineError>, j: nat)
    requires musicExists(NextLine(lines, 0).0)
    requires NextLine(lines, 0).1 <= j < |lines|
    requires !IsComment(lines[j]) && Strip(lines[j]) != [] && parse(Strip(lines[j])).Err?
    requires forall k :: NextLine(lines, 0).1 <= k < j ==> IsComment(lines[k]) || Strip(lines[k]) != []
    ensures var r := ReadFile(lines, timingFile, musicExists, parse);
      r.Err? && r.error.BadLine? && r.error.lineNum <= j + 1
  {
    ParseTracksAbort(lines, NextLine(lines, 0).1, parse, j);
  }

  /**
   * A file read successfully: the music file is the first line found, and
   * the tracks are the back-filled parses of the lines after it up to line
   * `stop`, which is blank or the end of the file; each line before `stop`
   * is a comment or a directive line that parsed.
   */
  lemma ReadFileTracks(lines: seq<string>, timingFile: string, musicExists: string -> bool,
                       parse: string -> Result<Track, LineError>)
    returns (stop: nat)
    requires ReadFile(lines, timingFile, musicExists, parse).Ok?
    ensures var (musicFile, count) := NextLine(lines, 0);
      && musicExists(musicFile)
      && ReadFile(lines, timingFile, musicExists, parse).value.musicFile == musicFile
      && ReadFile(lines, timingFile, musicExists, parse).value.tracks == Resolved(DirectiveTracks(lines, count, stop, parse))
      && count <= stop
      && (stop < |lines| ==> !IsComment(lines[stop]) && Strip(lines[stop]) == [])
      && (forall k :: count <= k < stop && k < |lines| ==>
            IsComment(lines[k]) || (Strip(lines[k]) != [] && parse(Strip(lines[k])).Ok?))
  {
    stop := ParseTracksOk(lines, NextLine(lines, 0).1, parse);
  }

  /**
   * The directive loop of `get_timings`: read lines until a blank line or the
   * end of the file, parsing each one with `parse`; the number of lines read
   * so far is the line number a failure is reported at.
   */
  method ReadTracks(reader: Reader, parse: string -> Result<Track, LineError>)
    returns (r: Result<seq<Track>, (LineError, nat)>)
    modifies reader
    ensures r == ParseTracks(reader.lines, old(reader.pos), parse)
    ensures r.Err? ==> reader.pos == r.error.1
  {
    ghost var parsed := ParseTracks(reader.lines, reader.pos, parse);
    var tracks: seq<Track> := [];
    ghost var before: nat := reader.pos;
    var line, lines := GetNextLine(reader);
    PrependNothing(parsed);
    while line != ""
      invariant line == NextLine(reader.lines, before).0
      invariant reader.pos == before + NextLine(reader.lines, before).1
      invariant parsed == Prepend(tracks, ParseTracks(reader.lines, before, parse))
      decreases |reader.lines| + 1 - reader.pos
    {
      var track := parse(line);
      if track.Err? {
        ParseTracksFail(reader.lines, before, tracks, parsed, line, reader.pos, parse);
        return Err((track.error, reader.pos));
      }
      ParseTracksAdvance(reader.lines, before, tracks, parsed, line, reader.pos, parse);
      tracks := tracks + [track.value];
      before := reader.pos;
      line, lines := GetNextLine(reader);
    }
    ParseTracksFinish(reader.lines, before, tracks, parsed, line, parse);
    r := Ok(tracks);
  }

  /** The body of `get_timings`, for the directive parser `parse`: the music file line, the directive lines, the back-fill. */
  method ReadTimings(contents: seq<string>, timingFile: string, musicExists: string -> bool,
                     parse: string -> Result<Track, LineError>)
    returns (r: Result<Segmented, Diagnostic>)
    ensures r == ReadFile(contents, timingFile, musicExists, parse)
  {
    var reader := new Reader(contents);
    var musicFile, lines := GetNextLine(reader);
    if !musicExists(musicFile) {
      ReadFileMissingMusic(contents, timingFile, musicExists, parse);
      return Err(MissingMusicFile(musicFile, timingFile));
    }
    assert (musicFile, lines) == NextLine(contents, 0);
    var parsed := ReadTracks(reader, parse);
    assert parsed == ParseTracks(contents, lines, parse);
    ReadFileOutcome(contents, timingFile, musicExists, parse, parsed);
    match parsed
    case Err((problem, lineNum)) =>
      r := Err(BadLine(problem, timingFile, lineNum));
    case Ok(tracks) =>
      var resolved := ResolveEndTimes(tracks);
      r := Ok(Segmented(musicFile, resolved));
  }

  /** `get_timings`: the timing file read with `parse_track` as the directive parser. */
  method GetTimings(contents: seq<string>, timingFile: string, musicExists: string -> bool)
    returns (r: Result<Segmented, Diagnostic>)
    ensures r == ReadFile(contents, timingFile, musicExists, ParseTrack)
  {
    r := ReadTimings(contents, timingFile, musicExists, ParseTrack);
  }
}
