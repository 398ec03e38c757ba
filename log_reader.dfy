/**
  The merge engine shared by both log formats: every entry of every file is
  paired with its timestamp, the pairs are sorted ascending by timestamp, and the
  headers of the first file are returned beside them. Files are read one after
  another here; only facts that hold whatever order they are read in are stated.
*/
module LogReader {
  import opened Outcomes
  import opened Calendar
  import opened Timeline
  import CloudFrontLogReader
  import S3LogReader

  /** The concrete reader: which file reader and which timestamp extraction are used. */
  datatype LogFormat = CloudFront | S3

  /** Every line of an S3 file is an entry. */
  function EveryLine(file: seq<string>): seq<string> {
    file
  }

  /** The entries a format's file reader yields for a file. */
  function EntriesOf(format: LogFormat): (r: seq<string> -> seq<string>)
    ensures forall file :: |r(file)| <= |file|
    ensures format == CloudFront ==> forall file, i :: 0 <= i < |r(file)| ==> !CloudFrontLogReader.IsComment(r(file)[i])
  {
    match format
    case CloudFront => CloudFrontLogReader.NonComments
    case S3 => EveryLine
  }

  /** The timestamp extraction a format specifies. */
  function Extractor(format: LogFormat): (r: string -> Result<DateTime>)
    ensures forall entry :: r(entry).Err? ==> r(entry).error.ParseError? || r(entry).error == SliceOutOfRange
    ensures format == S3 ==> forall entry :: r(entry).Err? ==> r(entry).error.ParseError?
  {
    match format
    case CloudFront => CloudFrontLogReader.ExtractDateTime
    case S3 => S3LogReader.TimestampOf
  }

  /** The header lines of the first file; none when there are no files or the format has none. */
  function HeadersOf(format: LogFormat, files: seq<seq<string>>): (r: seq<string>)
    ensures files == [] ==> r == []
    ensures files != [] ==> r <= files[0]
    ensures forall i :: 0 <= i < |r| ==> CloudFrontLogReader.IsComment(r[i])
  {
    if files == [] then []
    else match format
      case CloudFront => CloudFrontLogReader.HeaderRun(files[0])
      case S3 => []
  }

  /** The entries of all files, file after file. */
  function AllEntries(format: LogFormat, files: seq<seq<string>>): seq<string> {
    Gather(EntriesOf(format), files)
  }

  /** The entries of all files paired with their timestamps, or the first extraction error. */
  function AllPairs(format: LogFormat, files: seq<seq<string>>): (r: Result<seq<Entry>>)
    ensures r.Ok? ==> Lines(r.value) == AllEntries(format, files)
    ensures r.Err? ==>
      exists k :: 0 <= k < |AllEntries(format, files)| && Extractor(format)(AllEntries(format, files)[k]) == Err(r.error)
  {
    var entries := AllEntries(format, files);
    PairsCharacterized(Extractor(format), entries);
    var p := Pairs(Extractor(format), entries);
    if p.Ok? then PairLines(Extractor(format), entries); p else p
  }

  /** Opens a file with the format's reader and reads its entries. */
  method GetEntries(format: LogFormat, file: seq<string>) returns (entries: seq<string>)
    ensures entries == EntriesOf(format)(file)
  {
    match format
    case CloudFront =>
      entries := CloudFrontLogReader.GetEntries(file);
    case S3 =>
      var reader := new S3LogReader.S3LogFileReader(file);
      entries := reader.GetEnumerator();
  }

  /** Extracts an entry's timestamp the way the format does. */
  method ExtractDateTime(format: LogFormat, entry: string) returns (r: Result<DateTime>)
    ensures r == Extractor(format)(entry)
  {
    match format
    case CloudFront =>
      r := CloudFrontLogReader.ExtractDateTime(entry);
    case S3 =>
      r := S3LogReader.ExtractDateTime(entry);
  }

  /** Reads one file's entries and pairs each with its timestamp, stopping at the first failure. */
  method ReadFile(format: LogFormat, file: seq<string>) returns (r: Result<seq<Entry>>)
    ensures r == Pairs(Extractor(format), EntriesOf(format)(file))
  {
    var entries := GetEntries(format, file);
    var bag: seq<Entry> := [];
    var i := 0;
    while i < |entries|
      invariant 0 <= i <= |entries|
      invariant Pairs(Extractor(format), entries[..i]) == Ok(bag)
    {
      var x := ExtractDateTime(format, entries[i]);
      PairsStep(Extractor(format), entries, i, bag, x);
      if x.Err? {
        return Err(x.error);
      }
      bag := bag + [Entry(x.value, entries[i])];
      i := i + 1;
    }
    assert entries[..i] == entries;
    r := Ok(bag);
  }

  /**
    Reads every file. Fails exactly when some entry's timestamp cannot be extracted,
    with that entry's error, and then computes no headers. Otherwise returns every
    (timestamp, entry) pair of every file exactly once, in non-decreasing timestamp
    order, with the headers of the first file.
  */
  method Read(format: LogFormat, files: seq<seq<string>>) returns (r: Result<seq<Entry>>, headers: seq<string>)
    ensures r.Ok? <==> AllPairs(format, files).Ok?
    ensures r.Err? ==>
      exists k :: 0 <= k < |AllEntries(format, files)| && Extractor(format)(AllEntries(format, files)[k]) == Err(r.error)
    ensures r.Ok? ==> Sorted(r.value) && multiset(r.value) == multiset(AllPairs(format, files).value)
    ensures r.Ok? ==> headers == HeadersOf(format, files)
    ensures files == [] ==> r == Ok([]) && headers == []
  {
    headers := [];
    var bag: seq<Entry> := [];
    ghost var seen: seq<string> := [];
    var fi := 0;
    while fi < |files|
      invariant 0 <= fi <= |files|
      invariant seen == Gather(EntriesOf(format), files[..fi])
      invariant Pairs(Extractor(format), seen) == Ok(bag)
    {
      var pairs := ReadFile(format, files[fi]);
      PairsConcat(Extractor(format), seen, EntriesOf(format)(files[fi]), bag);
      GatherNext(EntriesOf(format), files, fi);
      seen := seen + EntriesOf(format)(files[fi]);
      if pairs.Err? {
        ReadFailure(format, files, fi + 1);
        return Err(pairs.error), headers;
      }
      bag := bag + pairs.value;
      fi := fi + 1;
    }
    assert files[..|files|] == files;
    if |files| > 0 {
      match format
      case CloudFront =>
        headers := CloudFrontLogReader.GetHeaders(files[0]);
      case S3 =>
    }
    r := Ok(SortByTime(bag));
  }

  /** A failure among the entries of the first files read is the failure of all of them. */
  lemma ReadFailure(format: LogFormat, files: seq<seq<string>>, n: nat)
    requires n <= |files| && Pairs(Extractor(format), Gather(EntriesOf(format), files[..n])).Err?
    ensures AllPairs(format, files) == Pairs(Extractor(format), Gather(EntriesOf(format), files[..n]))
    ensures AllPairs(format, files).Err? &&
      exists k :: 0 <= k < |AllEntries(format, files)| && Extractor(format)(AllEntries(format, files)[k]) == Err(AllPairs(format, files).error)
  {
    GatherPrefix(EntriesOf(format), files, n);
    PairsErrPrefix(Extractor(format), Gather(EntriesOf(format), files[..n]), AllEntries(format, files));
  }
}
