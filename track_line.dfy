/**
 * One directive line of a timing file, `start[|end]|song[|artist]`, and the
 * track record it describes (`parse_track`).
 */
module TrackLine {
  import opened Results
  import opened Text
  import opened TimeSyntax

  /** A track: times in milliseconds; the end time and the artist are optional. */
  datatype Track = Track(
    startTime: nat,
    endTime: Option<nat>,
    songName: string,
    artist: Option<string>)

  /** The three ways a directive line is rejected. */
  datatype LineError =
    | MissingFields     // fewer than two `|`-separated fields
    | BadStartTime      // the first field is not a time
    | MissingSongName   // the second field is a time and there is no third

  const Separator: char := '|'

  /** `parse_track`: field 2 is the end time when it parses as a time, the song name otherwise. */
  function ParseTrack(line: string): Result<Track, LineError> {
    ParseFields(Split(line, Separator))
  }

  /** The decisions `parse_track` takes on the `|`-separated fields of its line. */
  function ParseFields(parts: seq<string>): Result<Track, LineError> {
    if |parts| < 2 then Err(MissingFields)
    else
      match ParseTime(parts[0])
      case None => Err(BadStartTime)
      case Some(start) =>
        var end := ParseTime(parts[1]);
        var nameIndex := if end.None? then 1 else 2;
        if nameIndex >= |parts| then Err(MissingSongName)
        else
          var artist := if nameIndex + 1 < |parts| then Some(parts[nameIndex + 1]) else None;
          Ok(Track(start, end, parts[nameIndex], artist))
  }

  /** The error cases, each stated over the fields of the line; no other line is rejected. */
  lemma ParseTrackRejects(line: string)
    ensures var parts := Split(line, Separator);
      && (ParseTrack(line) == Err(MissingFields) <==> |parts| < 2)
      && (ParseTrack(line) == Err(BadStartTime) <==> |parts| >= 2 && ParseTime(parts[0]).None?)
      && (ParseTrack(line) == Err(MissingSongName) <==>
            |parts| == 2 && ParseTime(parts[0]).Some? && ParseTime(parts[1]).Some?)
  {
  }

  /** Where each field of an accepted line ends up; fields after the artist are ignored. */
  lemma ParseTrackFields(line: string)
    requires ParseTrack(line).Ok?
    ensures var parts, t := Split(line, Separator), ParseTrack(line).value;
      var nameIndex := if ParseTime(parts[1]).Some? then 2 else 1;
      && Some(t.startTime) == ParseTime(parts[0])
      && t.endTime == ParseTime(parts[1])
      && t.songName == parts[nameIndex]
      && t.artist == (if nameIndex + 1 < |parts| then Some(parts[nameIndex + 1]) else None)
  {
  }

  /** The fields a track is written as, one per `|`-separated field. */
  function TrackFields(t: Track): seq<string> {
    [FormatTime(t.startTime)]
    + (if t.endTime.Some? then [FormatTime(t.endTime.value)] else [])
    + [t.songName]
    + (if t.artist.Some? then [t.artist.value] else [])
  }

  /** A directive line for a track, the inverse of `ParseTrack` on the tracks it can describe. */
  function FormatTrack(t: Track): string {
    Join(TrackFields(t), Separator)
  }

  /** A track whose texts hold no `|`, and whose song name is not itself a time when no end time is given, survives being written out and parsed again. */
  lemma ParseFormatTrack(t: Track)
    requires Separator !in t.songName
    requires t.artist.Some? ==> Separator !in t.artist.value
    requires t.endTime.None? ==> ParseTime(t.songName).None?
    ensures ParseTrack(FormatTrack(t)) == Ok(t)
  {
    TrackFieldsWithoutSeparator(t);
    SplitJoin(TrackFields(t), Separator);
    ParseTrackFieldsOf(t);
  }

  /** Written times hold no `|`, so neither does any field of such a track. */
  lemma TrackFieldsWithoutSeparator(t: Track)
    requires Separator !in t.songName
    requires t.artist.Some? ==> Separator !in t.artist.value
    ensures forall i :: 0 <= i < |TrackFields(t)| ==> Separator !in TrackFields(t)[i]
  {
    var fields := TrackFields(t);
    forall i | 0 <= i < |fields| ensures Separator !in fields[i] {
      if fields[i] == FormatTime(t.startTime) || (t.endTime.Some? && fields[i] == FormatTime(t.endTime.value)) {
        assert !IsDigit(Separator);
      }
    }
  }

  /** The fields a track is written as are read back as that track. */
  lemma ParseTrackFieldsOf(t: Track)
    requires t.endTime.None? ==> ParseTime(t.songName).None?
    ensures ParseFields(TrackFields(t)) == Ok(t)
  {
    var fields := TrackFields(t);
    assert ParseTime(fields[0]) == Some(t.startTime);
    assert ParseTime(fields[1]) == t.endTime;
  }

  /** Fields beyond the artist change nothing. */
  lemma ParseTrackIgnoresExtraFields(line: string, extra: string)
    requires ParseTrack(line).Ok? && ParseTrack(line).value.artist.Some?
    ensures ParseTrack(line + [Separator] + extra) == ParseTrack(line)
  {
    SplitConcat(line, extra, Separator);
  }

  lemma SplitTwo(a: string, b: string)
    requires Separator !in a && Separator !in b
    ensures Split(a + [Separator] + b, Separator) == [a, b]
  {
    SplitConcat(a, b, Separator);
    SplitWithoutSep(a, Separator);
    SplitWithoutSep(b, Separator);
  }

  lemma SplitThree(a: string, b: string, c: string)
    requires Separator !in a && Separator !in b && Separator !in c
    ensures Split(a + [Separator] + b + [Separator] + c, Separator) == [a, b, c]
  {
    assert a + [Separator] + b + [Separator] + c == a + [Separator] + (b + [Separator] + c);
    SplitConcat(a, b + [Separator] + c, Separator);
    SplitWithoutSep(a, Separator);
    SplitTwo(b, c);
  }

  /**
   * A song name that is itself a time is taken as the end time, the rule "a time wins
   * if it parses": `05|10` has no song name, and in `05|10|Artist` the song is "Artist".
   */
  lemma ParseTrackTimeWins(start: string, name: string, artist: string)
    requires Separator !in start && Separator !in name && Separator !in artist
    requires ParseTime(start).Some? && ParseTime(name).Some?
    ensures ParseTrack(start + [Separator] + name) == Err(MissingSongName)
    ensures ParseTrack(start + [Separator] + name + [Separator] + artist)
         == Ok(Track(ParseTime(start).value, ParseTime(name), artist, None))
  {
    SplitTwo(start, name);
    SplitThree(start, name, artist);
  }

  /** An empty song name is accepted: `start|` is a track named "" with neither end time nor artist. */
  lemma ParseTrackEmptyName(start: string)
    requires Separator !in start && ParseTime(start).Some?
    ensures ParseTrack(start + [Separator]) == Ok(Track(ParseTime(start).value, None, "", None))
  {
    SplitTwo(start, "");
    assert start + [Separator] + "" == start + [Separator];
  }
}
