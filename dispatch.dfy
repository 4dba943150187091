/**
 * The part of `split` that decides what ffmpeg is asked to do for one track:
 * where to cut, for how long, and the name of the file it writes.  Times are
 * milliseconds, as everywhere in the model.
 */
module Dispatch {
  import opened TrackLine

  /** One ffmpeg argument: a plain word, or a time written out in seconds. */
  datatype Arg = Word(text: string) | TimeArg(millis: int)

  /** Python's truthiness of the optional artist: present and not the empty string. */
  predicate HasArtist(t: Track) {
    t.artist.Some? && t.artist.value != []
  }

  /** The output file name without its directory and suffix: the song, then " by " and the artist when there is one. */
  function OutputName(t: Track): (name: string)
    ensures t.songName <= name
    ensures HasArtist(t) <==> |name| > |t.songName|
    ensures HasArtist(t) ==> name[|t.songName|..] == " by " + t.artist.value
  {
    if HasArtist(t) then t.songName + " by " + t.artist.value else t.songName
  }

  /** The `-t` pair: the duration, only for a track with an end time. */
  function DurationArgs(t: Track): seq<Arg> {
    if t.endTime.Some? then [Word("-t"), TimeArg(t.endTime.value - t.startTime)] else []
  }

  /** The whole ffmpeg command line for one track of `musicFile`, written into `musicDir` with the music file's suffix. */
  function Options(musicFile: string, musicDir: string, suffix: string, t: Track): seq<Arg> {
    [Word("ffmpeg"), Word("-ss"), TimeArg(t.startTime)]
    + DurationArgs(t)
    + [Word("-i"), Word(musicFile), Word("-c"), Word("copy"), Word("-y"),
       Word(musicDir + "/" + OutputName(t) + suffix)]
  }

  /**
   * The shape of the command line: it starts at the track's start time,
   * copies the codec, overwrites, and ends with the output path.
   */
  lemma OptionsLayout(musicFile: string, musicDir: string, suffix: string, t: Track)
    ensures var o := Options(musicFile, musicDir, suffix, t);
      && |o| == (if t.endTime.Some? then 11 else 9)
      && o[..3] == [Word("ffmpeg"), Word("-ss"), TimeArg(t.startTime)]
      && o[|o| - 6..] == [Word("-i"), Word(musicFile), Word("-c"), Word("copy"), Word("-y"),
                          Word(musicDir + "/" + OutputName(t) + suffix)]
  {
    var o := Options(musicFile, musicDir, suffix, t);
    assert o[|o| - 6..] == o[3 + |DurationArgs(t)|..];
  }

  /** A `-t` duration follows the start time exactly when the track has an end time, and is the time between the two. */
  lemma OptionsDuration(musicFile: string, musicDir: string, suffix: string, t: Track)
    ensures var o := Options(musicFile, musicDir, suffix, t);
      && (o[3] == Word("-t") <==> t.endTime.Some?)
      && (t.endTime.Some? ==> o[4] == TimeArg(t.endTime.value - t.startTime))
  {
    var o := Options(musicFile, musicDir, suffix, t);
    assert o[3] == (if t.endTime.Some? then Word("-t") else Word("-i"));
  }

  /** `split`'s construction of the option list, one `append` at a time. */
  method SplitOptions(musicFile: string, musicDir: string, suffix: string, track: Track)
    returns (options: seq<Arg>)
    ensures options == Options(musicFile, musicDir, suffix, track)
  {
    options := [Word("ffmpeg")];
    options := options + [Word("-ss")];
    options := options + [TimeArg(track.startTime)];
    if track.endTime.Some? {
      options := options + [Word("-t")];
      options := options + [TimeArg(track.endTime.value - track.startTime)];
    }
    options := options + [Word("-i")];
    options := options + [Word(musicFile)];
    options := options + [Word("-c")];
    options := options + [Word("copy")];
    options := options + [Word("-y")];
    var name := track.songName;
    if HasArtist(track) {
      name := name + " by " + track.artist.value;
    }
    options := options + [Word(musicDir + "/" + name + suffix)];
  }
}
