/**
  The older merge engine: every entry of every file (as the CloudFront parser
  enumerates it) is paired with its timestamp, all pairs are sorted ascending by
  timestamp, and the timestamps are dropped. Files are read one after another
  here; only facts that hold whatever order the files are read in are stated.
*/
module TemporalLogParser {
  import opened Outcomes
  import opened Calendar
  import opened Timeline
  import opened CloudFrontLogParser

  const NoFiles: string := "Source directory contains no files."

  /** The entries of all files, file after file. */
  function AllEntries(files: seq<seq<string>>): seq<string> {
    Gather(Skipped, files)
  }

  /** The entries of all files paired with their timestamps, or the first extraction error. */
  function AllPairs(files: seq<seq<string>>): Result<seq<Entry>> {
    Pairs(ExtractDateTime, AllEntries(files))
  }

  /**
    Fails on an empty file list; otherwise fails exactly when some entry's timestamp
    cannot be extracted, with that entry's error. On success the result is the entries
    of all files, each exactly once, in non-decreasing timestamp order; `order` is
    the sorted pairs the result is the lines of.
  */
  method Parse(files: seq<seq<string>>) returns (r: Result<seq<string>>, ghost order: seq<Entry>)
    ensures files == [] ==> r == Err(ParseError(NoFiles))
    ensures files != [] ==> (r.Ok? <==> AllPairs(files).Ok?)
    ensures files != [] && r.Err? ==>
      exists k :: 0 <= k < |AllEntries(files)| && ExtractDateTime(AllEntries(files)[k]) == Err(r.error)
    ensures r.Ok? ==> Sorted(order) && multiset(order) == multiset(AllPairs(files).value)
    ensures r.Ok? ==> r.value == Lines(order)
    ensures r.Ok? ==> multiset(r.value) == multiset(AllEntries(files))
  {
    order := [];
    if |files| == 0 {
      return Err(ParseError(NoFiles)), order;
    }
    var bag: seq<Entry> := [];
    ghost var seen: seq<string> := [];
    var fi := 0;
    while fi < |files|
      invariant 0 <= fi <= |files|
      invariant seen == Gather(Skipped, files[..fi])
      invariant Pairs(ExtractDateTime, seen) == Ok(bag)
    {
      var lines, pairs := ParseFile(files[fi]);
      PairsConcat(ExtractDateTime, seen, lines, bag);
      GatherNext(Skipped, files, fi);
      seen := seen + lines;
      if pairs.Err? {
        ReadFailure(files, fi + 1);
        return Err(pairs.error), order;
      }
      bag := bag + pairs.value;
      fi := fi + 1;
    }
    assert files[..|files|] == files;
    PairLines(ExtractDateTime, seen);
    var sorted := SortByTime(bag);
    order := sorted;
    r := Ok(Lines(sorted));
  }

  /** Opens one file with the parser's reader and pairs its entries with their timestamps. */
  method ParseFile(file: seq<string>) returns (lines: seq<string>, pairs: Result<seq<Entry>>)
    ensures lines == Skipped(file)
    ensures pairs == Pairs(ExtractDateTime, lines)
  {
    var reader := new CloudFrontLogFileReader(file);
    lines := reader.GetEnumerator();
    pairs := PairEach(ExtractDateTime, lines);
  }

  /** A failure among the entries of the first files read is the failure of all of them. */
  lemma ReadFailure(files: seq<seq<string>>, n: nat)
    requires n <= |files| && Pairs(ExtractDateTime, Gather(Skipped, files[..n])).Err?
    ensures AllPairs(files) == Pairs(ExtractDateTime, Gather(Skipped, files[..n]))
    ensures AllPairs(files).Err? &&
      exists k :: 0 <= k < |AllEntries(files)| && ExtractDateTime(AllEntries(files)[k]) == Err(AllPairs(files).error)
  {
    GatherPrefix(Skipped, files, n);
    PairsErrPrefix(ExtractDateTime, Gather(Skipped, files[..n]), AllEntries(files));
  }
}
