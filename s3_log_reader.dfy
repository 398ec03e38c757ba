/**
  The S3 (object-storage) format reader. Every line of a file is an entry. An
  entry's timestamp is found by an index scan: the second space, then the first
  ']' at least two characters after it; the text in between (after the '[') is
  parsed as `dd/MMM/yyyy:HH:mm:ss zzz` and converted to UTC.
*/
module S3LogReader {
  import opened Outcomes
  import opened Calendar
  import opened DateTimeFormats
  import opened Streams

  /** The first index at or after `from` where `s` holds `c`. */
  function IndexOf(s: string, c: char, from: nat): (r: Option<nat>)
    ensures r.Some? ==> from <= r.value < |s| && s[r.value] == c
    ensures r.Some? ==> forall k :: from <= k < r.value ==> s[k] != c
    ensures r.None? ==> forall k :: from <= k < |s| ==> s[k] != c
    decreases |s| - from
  {
    if from >= |s| then None
    else if s[from] == c then Some(from)
    else IndexOf(s, c, from + 1)
  }

  /** The index of the second space of the entry, if it has two. */
  function SecondSpace(entry: string): (r: Option<nat>)
    ensures r.Some? ==> r.value < |entry| && entry[r.value] == ' '
    ensures r.Some? ==> exists a :: 0 <= a < r.value && entry[a] == ' '
    ensures r.Some? ==> forall a, b :: 0 <= a < b < r.value && entry[a] == ' ' ==> entry[b] != ' '
    ensures r.None? ==> forall a, b :: 0 <= a < b < |entry| && entry[a] == ' ' ==> entry[b] != ' '
  {
    match IndexOf(entry, ' ', 0)
    case None => None
    case Some(a) => IndexOf(entry, ' ', a + 1)
  }

  /** The result of parsing located timestamp text: its UTC time, or the parse error quoting it. */
  function ParseLocated(text: string): (r: Result<DateTime>)
    ensures r.Ok? <==> ParseS3(text).Some?
    ensures r.Ok? ==> ParseS3(text) == Some(r.value)
    ensures r.Err? ==> r.error == ParseError(UnableToParse(text))
  {
    match ParseS3(text)
    case Some(t) => Ok(t)
    case None => Err(ParseError(UnableToParse(text)))
  }

  /**
    The text from two past the second space up to the first ']' from there, if both are
    found: it holds no ']', and a ']' follows it.
  */
  function LocatedText(entry: string): (r: Option<string>)
    ensures r.None? <==> SecondSpace(entry).None? || IndexOf(entry, ']', SecondSpace(entry).value + 2).None?
    ensures r.Some? ==> ']' !in r.value
    ensures r.Some? ==>
      var start := SecondSpace(entry).value + 2;
      && start + |r.value| < |entry|
      && entry[start..start + |r.value|] == r.value
      && entry[start + |r.value|] == ']'
  {
    match SecondSpace(entry)
    case None => None
    case Some(i) =>
      match IndexOf(entry, ']', i + 2)
      case None => None
      case Some(j) =>
        Some(entry[i + 2..j])
  }

  /**
    What the scan of an entry is specified to produce: the parse of the located text, the
    parse error quoting that text, or, when there is no text to locate, the find error
    quoting the whole entry.
  */
  function TimestampOf(entry: string): (r: Result<DateTime>)
    ensures LocatedText(entry).None? ==> r == Err(ParseError(UnableToFind(entry)))
    ensures r.Ok? ==> LocatedText(entry).Some? && ParseS3(LocatedText(entry).value) == Some(r.value)
    ensures LocatedText(entry).Some? && r.Err? ==> r.error == ParseError(UnableToParse(LocatedText(entry).value))
  {
    match LocatedText(entry)
    case None => Err(ParseError(UnableToFind(entry)))
    case Some(text) => ParseLocated(text)
  }

  /** Once the second space and the closing ']' are known, the timestamp is the parse of the text between. */
  lemma Located(entry: string, i: nat, j: nat)
    requires SecondSpace(entry) == Some(i) && IndexOf(entry, ']', i + 2) == Some(j)
    ensures TimestampOf(entry) == ParseLocated(entry[i + 2..j])
  {
    assert LocatedText(entry) == Some(entry[i + 2..j]);
  }

  /**
    Scans for the second space with a counter of the spaces seen; from two
    characters past it, scans for ']' and parses the text in between. Spaces
    after the second never restart the inner scan.
  */
  method ExtractDateTime(entry: string) returns (r: Result<DateTime>)
    ensures r == TimestampOf(entry)
  {
    var seenFields := 0;
    var i := 0;
    while i < |entry|
      invariant 0 <= i <= |entry|
      invariant seenFields == 0 ==> forall k :: 0 <= k < i ==> entry[k] != ' '
      invariant seenFields == 1 ==> IndexOf(entry, ' ', 0).Some? && IndexOf(entry, ' ', 0).value < i
      invariant seenFields == 1 ==> forall k :: IndexOf(entry, ' ', 0).value < k < i ==> entry[k] != ' '
      invariant seenFields >= 2 ==> SecondSpace(entry).Some? && SecondSpace(entry).value < i
      invariant seenFields >= 2 ==> IndexOf(entry, ']', SecondSpace(entry).value + 2).None?
    {
      if entry[i] == ' ' {
        seenFields := seenFields + 1;
        if seenFields == 2 {
          assert SecondSpace(entry) == Some(i);
          var j := i + 2;
          while j < |entry|
            invariant i + 2 <= j
            invariant forall k :: i + 2 <= k < j && k < |entry| ==> entry[k] != ']'
          {
            if entry[j] == ']' {
              assert IndexOf(entry, ']', i + 2) == Some(j);
              var text := entry[i + 2..j];
              match ParseS3(text)
              case Some(t) =>
                return Ok(t);
              case None =>
                return Err(ParseError(UnableToParse(text)));
            }
            j := j + 1;
          }
          assert IndexOf(entry, ']', i + 2).None?;
        }
      }
      i := i + 1;
    }
    r := Err(ParseError(UnableToFind(entry)));
  }

  /** An entry with fewer than two spaces has no locatable timestamp. */
  lemma FewerThanTwoSpaces(entry: string)
    requires forall a, b :: 0 <= a < b < |entry| && entry[a] == ' ' ==> entry[b] != ' '
    ensures TimestampOf(entry) == Err(ParseError(UnableToFind(entry)))
  {
  }

  /** Two spaces are enough to locate the timestamp, provided a ']' follows. */
  lemma SecondSpaceExists(entry: string, a: nat, b: nat)
    requires a < b < |entry| && entry[a] == ' ' && entry[b] == ' '
    ensures SecondSpace(entry).Some? && SecondSpace(entry).value <= b
  {
  }

  /** The located text lies strictly between the second space and the first ']' after it. */
  lemma LocatedTextBounds(entry: string)
    requires SecondSpace(entry).Some? && IndexOf(entry, ']', SecondSpace(entry).value + 2).Some?
    ensures var i, j := SecondSpace(entry).value, IndexOf(entry, ']', SecondSpace(entry).value + 2).value;
      && i + 2 <= j < |entry| && entry[i] == ' ' && entry[j] == ']'
      && (forall k :: i + 2 <= k < j ==> entry[k] != ']')
      && |set k | 0 <= k < i && entry[k] == ' '| == 1
  {
    var i := SecondSpace(entry).value;
    var a := IndexOf(entry, ' ', 0).value;
    assert (set k | 0 <= k < i && entry[k] == ' ') == {a};
  }

  /** The search for `c` from `from` only looks at the characters up to where it stops. */
  lemma {:induction false} IndexOfAgree(s: string, t: string, c: char, from: nat, x: nat)
    requires IndexOf(s, c, from) == Some(x) && x < |t|
    requires forall k :: from <= k <= x ==> t[k] == s[k]
    ensures IndexOf(t, c, from) == Some(x)
  {
    var y := IndexOf(t, c, from);
    assert t[x] == c;
  }

  /** Cutting an entry after its closing ']' and appending anything keeps both delimiters in place. */
  lemma CutKeepsLocation(entry: string, suffix: string, i: nat, j: nat)
    requires SecondSpace(entry) == Some(i) && IndexOf(entry, ']', i + 2) == Some(j)
    ensures SecondSpace(entry[..j + 1] + suffix) == Some(i)
    ensures IndexOf(entry[..j + 1] + suffix, ']', i + 2) == Some(j)
    ensures (entry[..j + 1] + suffix)[i + 2..j] == entry[i + 2..j]
  {
    var a := IndexOf(entry, ' ', 0).value;
    var e2 := entry[..j + 1] + suffix;
    assert forall k :: 0 <= k <= j ==> e2[k] == entry[k];
    assert SecondSpace(e2) == Some(i) by {
      IndexOfAgree(entry, e2, ' ', 0, a);
      IndexOfAgree(entry, e2, ' ', a + 1, i);
    }
    IndexOfAgree(entry, e2, ']', i + 2, j);
    assert e2[i + 2..j] == entry[i + 2..j];
  }

  /**
    Whatever follows the closing ']' (at `j`, found from the second space at `i`)
    never affects the timestamp found.
  */
  lemma LaterTextIgnored(entry: string, suffix: string, i: nat, j: nat)
    requires SecondSpace(entry) == Some(i) && IndexOf(entry, ']', i + 2) == Some(j)
    ensures TimestampOf(entry[..j + 1] + suffix) == TimestampOf(entry)
  {
    CutKeepsLocation(entry, suffix, i, j);
    Located(entry, i, j);
    Located(entry[..j + 1] + suffix, i, j);
  }

  /** In an `owner bucket [text]rest` line, the scan finds the two spaces and the ']' closing `text`. */
  lemma LayoutLocation(owner: string, bucket: string, text: string, rest: string)
    requires ' ' !in owner && ' ' !in bucket && ']' !in text
    ensures var entry := owner + " " + bucket + " [" + text + "]" + rest;
      var i := |owner| + 1 + |bucket|;
      && SecondSpace(entry) == Some(i)
      && IndexOf(entry, ']', i + 2) == Some(i + 2 + |text|)
      && entry[i + 2..i + 2 + |text|] == text
  {
    var entry := owner + " " + bucket + " [" + text + "]" + rest;
    var a, i := |owner|, |owner| + 1 + |bucket|;
    assert entry[a] == ' ' && entry[i] == ' ';
    assert forall k :: 0 <= k < a ==> entry[k] == owner[k];
    assert forall k :: a < k < i ==> entry[k] == bucket[k - a - 1];
    assert IndexOf(entry, ' ', 0) == Some(a);
    assert SecondSpace(entry) == Some(i);
    var j := i + 2 + |text|;
    assert entry[i + 2..j] == text;
    assert forall k :: i + 2 <= k < j ==> entry[k] == text[k - i - 2];
    assert entry[j] == ']';
  }

  /**
    A line laid out as S3 writes it (owner, bucket, then the bracketed time) yields the
    written local time converted to UTC, or the parse error quoting the bracketed text
    when that conversion leaves the representable range.
  */
  lemma ExtractFromLayout(owner: string, bucket: string, local: DateTime, offset: int, rest: string)
    requires -840 <= offset <= 840
    requires ' ' !in owner && ' ' !in bucket
    ensures var text := FormatS3(local, offset);
      TimestampOf(owner + " " + bucket + " [" + text + "]" + rest)
        == if ToUniversal(local, offset).Some? then Ok(ToUniversal(local, offset).value)
           else Err(ParseError(UnableToParse(text)))
  {
    var text := FormatS3(local, offset);
    FormattedS3HasNoBracket(local, offset);
    ExtractFromBracketed(owner, bucket, text, rest);
    ParseLocatedFormatted(local, offset);
  }

  /** In an `owner bucket [text]rest` line, the timestamp is the parse of `text`. */
  lemma ExtractFromBracketed(owner: string, bucket: string, text: string, rest: string)
    requires ' ' !in owner && ' ' !in bucket && ']' !in text
    ensures TimestampOf(owner + " " + bucket + " [" + text + "]" + rest) == ParseLocated(text)
  {
    var entry := owner + " " + bucket + " [" + text + "]" + rest;
    assert LocatedText(entry) == Some(text) by {
      LayoutLocation(owner, bucket, text, rest);
    }
  }

  /** Formatted S3 text parses to the local time in UTC, or fails quoting itself when UTC is out of range. */
  lemma ParseLocatedFormatted(local: DateTime, offset: int)
    requires -840 <= offset <= 840
    ensures ParseLocated(FormatS3(local, offset))
      == if ToUniversal(local, offset).Some? then Ok(ToUniversal(local, offset).value)
         else Err(ParseError(UnableToParse(FormatS3(local, offset))))
  {
    ParseFormatS3(local, offset);
  }

  lemma FormattedS3HasNoBracket(local: DateTime, offset: int)
    requires -840 <= offset <= 840
    ensures ']' !in FormatS3(local, offset)
  {
    var a := if offset < 0 then -offset else offset;
    DigitsHaveNoBracket(Decimal.Pad(local.day, 2));
    DigitsHaveNoBracket(Decimal.Pad(local.year, 4));
    DigitsHaveNoBracket(Decimal.Pad(local.hour, 2));
    DigitsHaveNoBracket(Decimal.Pad(local.minute, 2));
    DigitsHaveNoBracket(Decimal.Pad(local.second, 2));
    DigitsHaveNoBracket(Decimal.Pad(a / 60, 2));
    DigitsHaveNoBracket(Decimal.Pad(a % 60, 2));
    assert ']' !in MonthNames[local.month - 1];
    assert ']' !in FormatS3Local(local);
    assert ']' !in FormatOffset(offset);
  }

  lemma DigitsHaveNoBracket(s: string)
    requires Decimal.AllDigits(s)
    ensures ']' !in s
  {
    forall k | 0 <= k < |s|
      ensures s[k] != ']'
    {
      assert Decimal.IsDigit(s[k]);
    }
  }

  /** An S3 log file: its lines are read through one shared reader. */
  class S3LogFileReader {
    const sr: LineReader

    constructor (file: seq<string>)
      ensures fresh(sr) && sr.remaining == file
    {
      sr := new LineReader(file);
    }

    /**
      Yields every line the shared reader has not yet read, in order, skipping none.
      The reader is left at the end, so enumerating again yields nothing.
    */
    method GetEnumerator() returns (lines: seq<string>)
      modifies sr
      ensures lines == old(sr.remaining)
      ensures sr.remaining == []
    {
      lines := [];
      while !sr.EndOfStream()
        invariant lines + sr.remaining == old(sr.remaining)
        decreases |sr.remaining|
      {
        var line := sr.ReadLine();
        lines := lines + [line.value];
      }
    }
  }

  /**
    The reader state is the one shared line reader, so a second enumeration continues
    where the first stopped; after a full enumeration it yields nothing.
  */
  method EnumerateTwice(file: seq<string>) returns (first: seq<string>, second: seq<string>)
    ensures first == file
    ensures second == []
  {
    var reader := new S3LogFileReader(file);
    first := reader.GetEnumerator();
    second := reader.GetEnumerator();
  }
}
