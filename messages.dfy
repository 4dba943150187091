/**
 * The messages `get_timings` returns instead of tracks.  A rejected directive
 * line is reported by the timing file's name (not the line's text) and the
 * line number, followed by what is wrong with the line.
 */
module Messages {
  import opened Text
  import opened TrackLine
  import opened Timings

  /** What is wrong with a rejected directive line, as worded after its line number. */
  function ProblemText(p: LineError): (text: string)
    ensures text != [] && text[0] == ' '
  {
    " must "
    + match p
      case MissingFields => "have a start time and a song name"
      case BadStartTime => "follow the correct time syntax in the start time"
      case MissingSongName => "have a song name"
  }

  /** The part of a line message that names the file and the line. */
  function LineLocation(timingFile: string, lineNum: nat): string {
    "'" + timingFile + "' at line " + NatToString(lineNum)
  }

  /** The message for a diagnostic, with the file names and the line number filled in. */
  function Message(d: Diagnostic): string {
    match d
    case MissingMusicFile(musicFile, timingFile) =>
      "The given music file '" + musicFile + "' in '" + timingFile + "' doesn't exist"
    case BadLine(problem, timingFile, lineNum) =>
      LineLocation(timingFile, lineNum) + ProblemText(problem)
  }

  /**
   * A line message names the timing file between quotes, then the line
   * number: the decimal digits up to the next space, whose value is the
   * number (see `NatToString`).
   */
  lemma MessageLocation(problem: LineError, timingFile: string, lineNum: nat)
    ensures var m, n, digits := Message(BadLine(problem, timingFile, lineNum)), |timingFile| + 11, NatToString(lineNum);
      && m[..|timingFile| + 1] == "'" + timingFile
      && m[|timingFile| + 1..n] == "' at line "
      && n + |digits| < |m| && m[n..n + |digits|] == digits && m[n + |digits|] == ' '
  {
    var m := Message(BadLine(problem, timingFile, lineNum));
    assert m == "'" + timingFile + "' at line " + NatToString(lineNum) + ProblemText(problem);
    ConcatParts("'" + timingFile, "' at line ", NatToString(lineNum), ProblemText(problem));
  }

  lemma ConcatParts(a: string, b: string, c: string, d: string)
    ensures var m := a + b + c + d;
      && m[..|a|] == a && m[|a|..|a| + |b|] == b && m[|a| + |b|..|a| + |b| + |c|] == c
      && (d != [] ==> m[|a| + |b| + |c|] == d[0])
  {
    var m := a + b + c + d;
    assert m[..|a|] == a;
    assert m[|a|..|a| + |b|] == b;
    assert m[|a| + |b|..|a| + |b| + |c|] == c;
  }

  /** The three problems read differently, whatever the file and the line. */
  lemma MessageTellsProblem(p: LineError, q: LineError, timingFile: string, lineNum: nat)
    requires p != q
    ensures Message(BadLine(p, timingFile, lineNum)) != Message(BadLine(q, timingFile, lineNum))
  {
    var loc := LineLocation(timingFile, lineNum);
    var mp, mq := Message(BadLine(p, timingFile, lineNum)), Message(BadLine(q, timingFile, lineNum));
    assert mp[|loc|..] == ProblemText(p);
    assert mq[|loc|..] == ProblemText(q);
  }

  /** A missing music file and a rejected line are never reported with the same message. */
  lemma MessageTellsKind(d: Diagnostic, e: Diagnostic)
    requires d.MissingMusicFile? && e.BadLine?
    ensures Message(d) != Message(e)
  {
    assert Message(d)[0] == 'T';
    assert Message(e)[0] == '\'';
  }
}
