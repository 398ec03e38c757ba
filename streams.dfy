/**
  A line reader over one file: reading consumes lines, so every user of the same
  reader shares its position. Decompression and line splitting are not modelled;
  the file is given as the sequence of its lines.
*/
module Streams {
  import opened Outcomes

  class LineReader {
    /** The lines not yet read. */
    var remaining: seq<string>

    constructor (lines: seq<string>)
      ensures remaining == lines
    {
      remaining := lines;
    }

    predicate EndOfStream()
      reads this
    {
      remaining == []
    }

    /** The next line, or None (a null line) once the stream is exhausted. */
    method ReadLine() returns (line: Option<string>)
      modifies this
      ensures old(remaining) == [] ==> line == None && remaining == []
      ensures old(remaining) != [] ==> line == Some(old(remaining)[0]) && remaining == old(remaining)[1..]
    {
      if remaining == [] {
        line := None;
      } else {
        line := Some(remaining[0]);
        remaining := remaining[1..];
      }
    }
  }
}
