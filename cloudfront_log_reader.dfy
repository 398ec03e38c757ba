/**
  The CloudFront (edge-CDN) format reader: headers are the leading run of lines
  that begin with '#', entries are every line that does not begin with '#', and
  an entry's timestamp is the `yyyy-MM-dd<TAB>HH:mm:ss` text in its first 19
  characters, read as UTC. A file is given as the sequence of its lines; each
  call reads it again from the start.
*/
module CloudFrontLogReader {
  import opened Outcomes
  import opened Calendar
  import opened DateTimeFormats

  /** Lines that start with '#' are format metadata or comments. */
  predicate IsComment(line: string) {
    |line| > 0 && line[0] == '#'
  }

  /** The longest prefix of `lines` made only of comment lines. */
  function HeaderRun(lines: seq<string>): (r: seq<string>)
    ensures r <= lines
    ensures forall i :: 0 <= i < |r| ==> IsComment(lines[i])
    ensures |r| < |lines| ==> !IsComment(lines[|r|])
  {
    if lines == [] || !IsComment(lines[0]) then []
    else
      assert lines == [lines[0]] + lines[1..];
      [lines[0]] + HeaderRun(lines[1..])
  }

  /** The lines that are not comments, in file order. */
  function NonComments(lines: seq<string>): (r: seq<string>)
    ensures |r| <= |lines|
    ensures forall i :: 0 <= i < |r| ==> !IsComment(r[i])
  {
    if lines == [] then [] else (if IsComment(lines[0]) then [] else [lines[0]]) + NonComments(lines[1..])
  }

  /** Reads lines while they start with '#'; stops at the first one that does not. */
  method GetHeaders(lines: seq<string>) returns (headers: seq<string>)
    ensures headers == HeaderRun(lines)
  {
    headers := [];
    var i := 0;
    while i < |lines|
      invariant 0 <= i <= |lines|
      invariant headers == lines[..i]
      invariant forall k :: 0 <= k < i ==> IsComment(lines[k])
    {
      var line := lines[i];
      if !IsComment(line) {
        break;
      }
      headers := headers + [line];
      i := i + 1;
    }
    HeaderRunIsTheCommentPrefix(lines, i);
  }

  /** A prefix of comment lines followed by a non-comment line (or by nothing) is the header run. */
  lemma {:induction false} HeaderRunIsTheCommentPrefix(lines: seq<string>, n: int)
    requires 0 <= n <= |lines|
    requires forall k :: 0 <= k < n ==> IsComment(lines[k])
    requires n == |lines| || !IsComment(lines[n])
    ensures HeaderRun(lines) == lines[..n]
  {
    if n > 0 {
      HeaderRunIsTheCommentPrefix(lines[1..], n - 1);
      assert lines[..n] == [lines[0]] + lines[1..][..n - 1];
    }
  }

  /** Reads every line, skipping those that start with '#'. */
  method GetEntries(lines: seq<string>) returns (entries: seq<string>)
    ensures entries == NonComments(lines)
  {
    entries := [];
    var i := 0;
    while i < |lines|
      invariant 0 <= i <= |lines|
      invariant NonComments(lines) == entries + NonComments(lines[i..])
    {
      var line := lines[i];
      assert lines[i..] == [line] + lines[i + 1..];
      if !IsComment(line) {
        entries := entries + [line];
      }
      i := i + 1;
    }
  }

  /**
    The timestamp in the first 19 characters of an entry. A shorter entry fails at the
    slice; a prefix that is not a valid `yyyy-MM-dd<TAB>HH:mm:ss` date and time raises a
    ParseException quoting the whole entry.
  */
  function ExtractDateTime(entry: string): (r: Result<DateTime>)
    ensures |entry| < 19 ==> r == Err(SliceOutOfRange)
    ensures |entry| >= 19 && r.Err? ==> r == Err(ParseError(UnableToFind(entry)))
    ensures r.Ok? ==> |entry| >= 19 && FormatCloudFront(r.value) == entry[..19]
  {
    if |entry| < 19 then Err(SliceOutOfRange)
    else
      match ParseCloudFront(entry[..19])
      case Some(t) =>
        ParsedCloudFrontIsFormatted(entry[..19]);
        Ok(t)
      case None => Err(ParseError(UnableToFind(entry)))
  }

  /** An entry that begins with a formatted timestamp yields exactly that timestamp. */
  lemma ExtractFormatted(t: DateTime, rest: string)
    ensures ExtractDateTime(FormatCloudFront(t) + rest) == Ok(t)
  {
    var entry := FormatCloudFront(t) + rest;
    assert entry[..19] == FormatCloudFront(t);
    ParseFormatCloudFront(t);
  }

  /** Only the first 19 characters decide whether, and to what, an entry's timestamp parses. */
  lemma OnlyPrefixMatters(a: string, b: string)
    requires |a| >= 19 && |b| >= 19 && a[..19] == b[..19]
    ensures ExtractDateTime(a).Ok? <==> ExtractDateTime(b).Ok?
    ensures ExtractDateTime(a).Ok? ==> ExtractDateTime(a).value == ExtractDateTime(b).value
  {
  }

  // Properties of the header and entry split.

  /** A line is an entry exactly when it is a line of the file that does not start with '#'. */
  lemma {:induction false} EntriesAreTheNonComments(lines: seq<string>)
    ensures forall x :: x in NonComments(lines) <==> x in lines && !IsComment(x)
  {
    if lines != [] {
      EntriesAreTheNonComments(lines[1..]);
      assert lines == [lines[0]] + lines[1..];
    }
  }

  /** Headers and entries never share a line: a '#' line after the first entry is in neither. */
  lemma {:induction false} LateCommentsAreDropped(lines: seq<string>, k: int)
    requires 0 <= k < |lines| && IsComment(lines[k])
    requires exists j :: 0 <= j < k && !IsComment(lines[j])
    ensures k >= |HeaderRun(lines)|
    ensures lines[k] !in NonComments(lines)
  {
    EntriesAreTheNonComments(lines);
  }

  /** When every '#' line leads the file, headers followed by entries are the whole file. */
  lemma {:induction false} LeadingCommentsSplitTheFile(lines: seq<string>, n: nat)
    requires n <= |lines|
    requires forall i :: 0 <= i < n ==> IsComment(lines[i])
    requires forall i :: n <= i < |lines| ==> !IsComment(lines[i])
    ensures HeaderRun(lines) + NonComments(lines) == lines
  {
    if n > 0 {
      LeadingCommentsSplitTheFile(lines[1..], n - 1);
      assert lines == [lines[0]] + lines[1..];
    } else {
      NoCommentsKeepsAll(lines);
    }
  }

  lemma {:induction false} NoCommentsKeepsAll(lines: seq<string>)
    requires forall i :: 0 <= i < |lines| ==> !IsComment(lines[i])
    ensures NonComments(lines) == lines
    ensures HeaderRun(lines) == []
  {
    if lines != [] {
      NoCommentsKeepsAll(lines[1..]);
      assert lines == [lines[0]] + lines[1..];
    }
  }
}
