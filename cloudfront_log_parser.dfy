/**
  The older CloudFront parser. Its file reader discards the first two lines of a
  file (the format version and the field list) whatever they hold, and yields
  every later line unfiltered; an entry's timestamp is read from its first 19
  characters exactly as the newer CloudFront reader reads it.
*/
module CloudFrontLogParser {
  import opened Outcomes
  import opened Calendar
  import opened DateTimeFormats
  import opened Streams
  import CloudFrontLogReader

  /**
    The timestamp in the first 19 characters of an entry: the slice fails on a
    shorter entry, and a prefix that is not a valid `yyyy-MM-dd<TAB>HH:mm:ss`
    raises the ParseException quoting the whole entry.
  */
  function ExtractDateTime(entry: string): (r: Result<DateTime>)
    ensures |entry| < 19 ==> r == Err(SliceOutOfRange)
    ensures |entry| >= 19 && r.Err? ==> r == Err(ParseError(UnableToFind(entry)))
    ensures r.Ok? ==> |entry| >= 19 && FormatCloudFront(r.value) == entry[..19]
  {
    CloudFrontLogReader.ExtractDateTime(entry)
  }

  /** The lines a file yields once its first two lines are skipped. */
  function Skipped(file: seq<string>): (r: seq<string>)
    ensures |r| == if |file| <= 2 then 0 else |file| - 2
    ensures forall k :: 2 <= k < |file| ==> r[k - 2] == file[k]
  {
    if |file| <= 2 then [] else file[2..]
  }

  /** Lines after the first two are never filtered: a '#' line there is an entry like any other. */
  lemma LateLinesAreEntries(file: seq<string>, k: int)
    requires 2 <= k < |file|
    ensures file[k] in Skipped(file)
  {
    assert Skipped(file)[k - 2] == file[k];
  }

  /** A CloudFront log file read through one shared reader. */
  class CloudFrontLogFileReader {
    const sr: LineReader

    constructor (file: seq<string>)
      ensures fresh(sr) && sr.remaining == file
    {
      sr := new LineReader(file);
    }

    /**
      Reads two lines and drops them (nothing happens when they are missing),
      then yields every line left. The shared reader ends at the end of the file.
    */
    method GetEnumerator() returns (lines: seq<string>)
      modifies sr
      ensures lines == Skipped(old(sr.remaining))
      ensures sr.remaining == []
    {
      var _ := sr.ReadLine();
      var _ := sr.ReadLine();
      lines := [];
      while !sr.EndOfStream()
        invariant lines + sr.remaining == Skipped(old(sr.remaining))
        decreases |sr.remaining|
      {
        var line := sr.ReadLine();
        lines := lines + [line.value];
      }
    }
  }

  /**
    Enumerating a file's reader a second time does not restart the file: the
    first enumeration has consumed it, so the second yields nothing.
  */
  method EnumerateTwice(file: seq<string>) returns (first: seq<string>, second: seq<string>)
    ensures first == Skipped(file)
    ensures second == []
  {
    var reader := new CloudFrontLogFileReader(file);
    first := reader.GetEnumerator();
    second := reader.GetEnumerator();
  }
}
