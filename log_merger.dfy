/**
  The merger: reads every file with the configured reader, groups the merged
  entries by the period their timestamp falls in, and writes each group (with
  the first file's headers in front, unless headers are turned off) to the
  configured writer under the group's period label.

  Period labels are the ISO 8601 calendar representations of section 4.1.2 of
  ISO 8601:2004 (`yyyy-MM-ddTHH`, `yyyy-MM-dd`, `yyyy-MM`, `yyyy`), the ISO week
  date of section 4.1.4 (`yyyy-Www`), or the constant `all`.
*/
module LogMerger {
  import opened Outcomes
  import opened Calendar
  import opened Decimal
  import opened Sequences
  import opened Timeline
  import opened LogReader

  const NoFiles: string := "Source directory contains no files."

  /** The size of the period over which entries are combined. */
  datatype Period = Hourly | Daily | Weekly | Monthly | Yearly | All

  // Period labels

  /** The label of the period of the given size that a timestamp falls in. */
  function PeriodKey(period: Period, t: DateTime): (r: string)
    ensures r == "all" <==> period == All
  {
    assert period != All ==> IsDigit(Pad(if period == Weekly then IsoWeekYear(t) else t.year, 4)[0]);
    match period
    case Hourly => Pad(t.year, 4) + "-" + Pad(t.month, 2) + "-" + Pad(t.day, 2) + "T" + Pad(t.hour, 2)
    case Daily => Pad(t.year, 4) + "-" + Pad(t.month, 2) + "-" + Pad(t.day, 2)
    case Weekly => Pad(IsoWeekYear(t), 4) + "-W" + Pad(IsoWeekOfYear(t), 2)
    case Monthly => Pad(t.year, 4) + "-" + Pad(t.month, 2)
    case Yearly => Pad(t.year, 4)
    case All => "all"
  }

  /** The calendar fields that identify a timestamp's period: its year, month, ... down to the period's size. */
  function PeriodFields(period: Period, t: DateTime): seq<int> {
    match period
    case Hourly => [t.year, t.month, t.day, t.hour]
    case Daily => [t.year, t.month, t.day]
    case Weekly => [IsoWeekYear(t), IsoWeekOfYear(t)]
    case Monthly => [t.year, t.month]
    case Yearly => [t.year]
    case All => []
  }

  /** The calendar fields of a timestamp print at their fixed widths. */
  lemma FixedWidths(t: DateTime)
    ensures |Pad(t.year, 4)| == 4 && |Pad(t.month, 2)| == 2 && |Pad(t.day, 2)| == 2 && |Pad(t.hour, 2)| == 2
    ensures |Pad(IsoWeekYear(t), 4)| == 4 && |Pad(IsoWeekOfYear(t), 2)| == 2
  {
    assert Pow10(2) == 100;
    assert Pow10(4) == 10000;
  }

  /**
    Calendar labels have the fixed lengths of their patterns, with '-' between the
    date fields and 'T' before the hour; a week label is a four-digit week-year,
    "-W" and a two-digit week.
  */
  lemma KeyShape(period: Period, t: DateTime)
    ensures period == Hourly ==> |PeriodKey(period, t)| == 13 && PeriodKey(period, t)[10] == 'T'
    ensures period == Daily ==> |PeriodKey(period, t)| == 10
    ensures period == Monthly ==> |PeriodKey(period, t)| == 7
    ensures period in {Hourly, Daily, Monthly} ==> PeriodKey(period, t)[4] == '-'
    ensures period in {Hourly, Daily} ==> PeriodKey(period, t)[7] == '-'
    ensures period == Yearly ==> |PeriodKey(period, t)| == 4 && AllDigits(PeriodKey(period, t))
    ensures period == Weekly ==>
      var k := PeriodKey(period, t);
      |k| == 8 && k[4..6] == "-W" && AllDigits(k[6..])
  {
    FixedWidths(t);
    var k := PeriodKey(period, t);
    if period == Weekly {
      var w := Pad(IsoWeekOfYear(t), 2);
      assert k[|k| - 2..] == w;
    }
  }

  // Where the calendar fields sit in a calendar label.

  lemma YearPiece(period: Period, t: DateTime)
    requires period != Weekly && period != All
    ensures PeriodKey(period, t)[..4] == Pad(t.year, 4)
  {
    FixedWidths(t);
  }

  lemma MonthPiece(period: Period, t: DateTime)
    requires period == Monthly || period == Daily || period == Hourly
    ensures PeriodKey(period, t)[5..7] == Pad(t.month, 2)
  {
    FixedWidths(t);
  }

  lemma DayPiece(period: Period, t: DateTime)
    requires period == Daily || period == Hourly
    ensures PeriodKey(period, t)[8..10] == Pad(t.day, 2)
  {
    FixedWidths(t);
  }

  lemma HourPiece(t: DateTime)
    ensures PeriodKey(Hourly, t)[11..13] == Pad(t.hour, 2)
  {
    FixedWidths(t);
  }

  /** Where the week-year and the week sit in a week label. */
  lemma WeeklyKeyPieces(t: DateTime)
    ensures var k := PeriodKey(Weekly, t);
      && |k| >= 4
      && k[|k| - 2..] == Pad(IsoWeekOfYear(t), 2)
      && k[..|k| - 4] == Pad(IsoWeekYear(t), 4)
  {
    FixedWidths(t);
  }

  /** Two timestamps get the same label exactly when they lie in the same period. */
  lemma SameKeyIffSamePeriod(period: Period, a: DateTime, b: DateTime)
    ensures PeriodKey(period, a) == PeriodKey(period, b) <==> PeriodFields(period, a) == PeriodFields(period, b)
  {
    if PeriodKey(period, a) == PeriodKey(period, b) {
      if period == Weekly {
        WeeklyKeyPieces(a);
        WeeklyKeyPieces(b);
        PadInjective(IsoWeekYear(a), IsoWeekYear(b), 4);
        PadInjective(IsoWeekOfYear(a), IsoWeekOfYear(b), 2);
      } else if period != All {
        YearPiece(period, a);
        YearPiece(period, b);
        PadInjective(a.year, b.year, 4);
        if period != Yearly {
          MonthPiece(period, a);
          MonthPiece(period, b);
          PadInjective(a.month, b.month, 2);
        }
        if period == Daily || period == Hourly {
          DayPiece(period, a);
          DayPiece(period, b);
          PadInjective(a.day, b.day, 2);
        }
        if period == Hourly {
          HourPiece(a);
          HourPiece(b);
          PadInjective(a.hour, b.hour, 2);
        }
      }
    }
  }

  // Grouping

  /** The entries of one period: its label and their lines, timestamps dropped. */
  datatype Group = Group(key: string, lines: seq<string>)

  /** Appends a line to the group with the given key, or opens a new group for it at the end. */
  function AddToGroups(groups: seq<Group>, key: string, line: string): (r: seq<Group>)
    ensures Keys(r) == if key in Keys(groups) then Keys(groups) else Keys(groups) + [key]
  {
    if groups == [] then [Group(key, [line])]
    else if groups[0].key == key then [Group(key, groups[0].lines + [line])] + groups[1..]
    else
      assert Keys(groups) == [groups[0].key] + Keys(groups[1..]);
      [groups[0]] + AddToGroups(groups[1..], key, line)
  }

  /**
    The entries grouped by the label of their period: groups in the order their
    labels first occur, each group's lines in entry order.
  */
  function GroupByPeriod(entries: seq<Entry>, period: Period): (r: seq<Group>)
    ensures |r| <= |entries|
    ensures r == [] <==> entries == []
  {
    if entries == [] then []
    else
      var last := entries[|entries| - 1];
      AddToGroups(GroupByPeriod(entries[..|entries| - 1], period), PeriodKey(period, last.time), last.line)
  }

  // The reference description of the grouping

  function Keys(groups: seq<Group>): (r: seq<string>)
    ensures |r| == |groups|
  {
    if groups == [] then [] else [groups[0].key] + Keys(groups[1..])
  }

  /** The lines of the first group with the given key; none when there is no such group. */
  function LinesFor(groups: seq<Group>, key: string): seq<string> {
    if groups == [] then []
    else if groups[0].key == key then groups[0].lines
    else LinesFor(groups[1..], key)
  }

  /** The lines of all groups, group after group. */
  function Flatten(groups: seq<Group>): seq<string> {
    if groups == [] then [] else groups[0].lines + Flatten(groups[1..])
  }

  /** The period labels of the entries, in entry order. */
  function KeysOf(entries: seq<Entry>, period: Period): (r: seq<string>)
    ensures |r| == |entries|
  {
    if entries == [] then []
    else KeysOf(entries[..|entries| - 1], period) + [PeriodKey(period, entries[|entries| - 1].time)]
  }

  predicate Distinct(s: seq<string>) {
    forall i, j :: 0 <= i < j < |s| ==> s[i] != s[j]
  }

  /** Each element of `s` once, in the order of its first occurrence. */
  function Dedup(s: seq<string>): (r: seq<string>)
    ensures Distinct(r)
    ensures forall x :: x in r <==> x in s
  {
    if s == [] then []
    else
      var d := Dedup(s[..|s| - 1]);
      var x := s[|s| - 1];
      assert s == s[..|s| - 1] + [x];
      if x in d then d else d + [x]
  }

  /** The entries whose timestamp falls in the period labelled `key`, in entry order. */
  function WithKey(entries: seq<Entry>, period: Period, key: string): (r: seq<Entry>)
    ensures forall e :: e in r ==> e in entries && PeriodKey(period, e.time) == key
  {
    if entries == [] then []
    else
      var last := entries[|entries| - 1];
      WithKey(entries[..|entries| - 1], period, key) + (if PeriodKey(period, last.time) == key then [last] else [])
  }

  lemma {:induction false} AddLinesFor(groups: seq<Group>, key: string, line: string, k: string)
    ensures LinesFor(AddToGroups(groups, key, line), k)
      == if k == key then LinesFor(groups, k) + [line] else LinesFor(groups, k)
  {
    if groups != [] && groups[0].key != key {
      AddLinesFor(groups[1..], key, line, k);
    }
  }

  lemma {:induction false} AddFlatten(groups: seq<Group>, key: string, line: string)
    ensures multiset(Flatten(AddToGroups(groups, key, line))) == multiset(Flatten(groups)) + multiset{line}
  {
    if groups != [] {
      if groups[0].key == key {
        assert [Group(key, groups[0].lines + [line])] + groups[1..] == AddToGroups(groups, key, line);
      } else {
        AddFlatten(groups[1..], key, line);
      }
    }
  }

  /** The groups appear in the order in which their labels first occur among the entries, once each. */
  lemma {:induction false} GroupsInFirstSeenOrder(entries: seq<Entry>, period: Period)
    ensures Keys(GroupByPeriod(entries, period)) == Dedup(KeysOf(entries, period))
    ensures Distinct(Keys(GroupByPeriod(entries, period)))
  {
    if entries != [] {
      var init := entries[..|entries| - 1];
      var last := entries[|entries| - 1];
      GroupsInFirstSeenOrder(init, period);
      var ks := KeysOf(entries, period);
      assert ks[..|ks| - 1] == KeysOf(init, period);
    }
  }

  /** The group labelled `key` holds exactly the lines of the entries in that period, in entry order. */
  lemma {:induction false} GroupHoldsItsPeriod(entries: seq<Entry>, period: Period, key: string)
    ensures LinesFor(GroupByPeriod(entries, period), key) == Lines(WithKey(entries, period, key))
  {
    if entries != [] {
      var init := entries[..|entries| - 1];
      var last := entries[|entries| - 1];
      GroupHoldsItsPeriod(init, period, key);
      AddLinesFor(GroupByPeriod(init, period), PeriodKey(period, last.time), last.line, key);
      var tail := if PeriodKey(period, last.time) == key then [last] else [];
      LinesAppend(WithKey(init, period, key), tail);
    }
  }

  /** Grouping loses no line and invents none: the groups together hold the entries' lines. */
  lemma {:induction false} GroupsPartitionLines(entries: seq<Entry>, period: Period)
    ensures multiset(Flatten(GroupByPeriod(entries, period))) == multiset(Lines(entries))
  {
    if entries != [] {
      var init := entries[..|entries| - 1];
      var last := entries[|entries| - 1];
      GroupsPartitionLines(init, period);
      AddFlatten(GroupByPeriod(init, period), PeriodKey(period, last.time), last.line);
      InitLast(entries);
      LinesAppend(init, [last]);
    }
  }

  /** With distinct labels, each group's lines are the lines looked up by its own label. */
  lemma {:induction false} LinesForOwnKey(groups: seq<Group>, i: int)
    requires Distinct(Keys(groups)) && 0 <= i < |groups|
    ensures LinesFor(groups, groups[i].key) == groups[i].lines
  {
    if i > 0 {
      assert Keys(groups)[0] == groups[0].key;
      assert Keys(groups)[i] == groups[i].key by {
        KeysAt(groups, i);
      }
      assert Keys(groups[1..]) == Keys(groups)[1..];
      LinesForOwnKey(groups[1..], i - 1);
    }
  }

  lemma {:induction false} KeysAt(groups: seq<Group>, i: int)
    requires 0 <= i < |groups|
    ensures Keys(groups)[i] == groups[i].key
  {
    if i > 0 {
      KeysAt(groups[1..], i - 1);
    }
  }

  /**
    Every entry lands in the one group labelled with its period: that group exists,
    no other group has its label, and the group's lines include the entry's line.
  */
  lemma EveryEntryInItsGroup(entries: seq<Entry>, period: Period, n: int)
    requires 0 <= n < |entries|
    ensures var groups := GroupByPeriod(entries, period);
      var key := PeriodKey(period, entries[n].time);
      exists i :: 0 <= i < |groups| && groups[i].key == key && entries[n].line in groups[i].lines
        && forall j :: 0 <= j < |groups| && j != i ==> groups[j].key != key
  {
    var groups := GroupByPeriod(entries, period);
    var key := PeriodKey(period, entries[n].time);
    GroupsInFirstSeenOrder(entries, period);
    KeysOfAt(entries, period, n);
    assert key in Keys(groups);
    var i :| 0 <= i < |groups| && Keys(groups)[i] == key;
    KeysAt(groups, i);
    LinesForOwnKey(groups, i);
    GroupHoldsItsPeriod(entries, period, key);
    LineInItsPeriod(entries, period, n);
    OnlyGroupWithKey(groups, i);
  }

  /** With distinct labels, no other group shares the label of group `i`. */
  lemma OnlyGroupWithKey(groups: seq<Group>, i: int)
    requires Distinct(Keys(groups)) && 0 <= i < |groups|
    ensures forall j :: 0 <= j < |groups| && j != i ==> groups[j].key != groups[i].key
  {
    forall j | 0 <= j < |groups| && j != i
      ensures groups[j].key != groups[i].key
    {
      KeysAt(groups, i);
      KeysAt(groups, j);
    }
  }

  /** An entry's line is among the lines of the entries of its own period. */
  lemma LineInItsPeriod(entries: seq<Entry>, period: Period, n: int)
    requires 0 <= n < |entries|
    ensures entries[n].line in Lines(WithKey(entries, period, PeriodKey(period, entries[n].time)))
  {
    var mine := WithKey(entries, period, PeriodKey(period, entries[n].time));
    WithKeyKeeps(entries, period, n);
    var m :| 0 <= m < |mine| && mine[m] == entries[n];
    LinesAt(mine, m);
  }

  lemma {:induction false} KeysOfAt(entries: seq<Entry>, period: Period, n: int)
    requires 0 <= n < |entries|
    ensures KeysOf(entries, period)[n] == PeriodKey(period, entries[n].time)
  {
    if n < |entries| - 1 {
      KeysOfAt(entries[..|entries| - 1], period, n);
    }
  }

  lemma {:induction false} WithKeyKeeps(entries: seq<Entry>, period: Period, n: int)
    requires 0 <= n < |entries|
    ensures entries[n] in WithKey(entries, period, PeriodKey(period, entries[n].time))
  {
    if n < |entries| - 1 {
      WithKeyKeeps(entries[..|entries| - 1], period, n);
    }
  }

  /** The entries of one period, taken from sorted entries, are still in timestamp order. */
  lemma {:induction false} PeriodStaysSorted(entries: seq<Entry>, period: Period, key: string)
    requires Sorted(entries)
    ensures Sorted(WithKey(entries, period, key))
  {
    if entries != [] {
      var init := entries[..|entries| - 1];
      var last := entries[|entries| - 1];
      SortedInit(entries);
      PeriodStaysSorted(init, period, key);
      if PeriodKey(period, last.time) == key {
        SortedSnoc(WithKey(init, period, key), last);
      }
    }
  }

  /** Dropping the last of sorted entries leaves them sorted, and none of them is later than the last. */
  lemma SortedInit(s: seq<Entry>)
    requires s != [] && Sorted(s)
    ensures Sorted(s[..|s| - 1])
    ensures forall x | x in s[..|s| - 1] :: Instant(x.time) <= Instant(s[|s| - 1].time)
  {
    var init := s[..|s| - 1];
    forall x | x in init
      ensures Instant(x.time) <= Instant(s[|s| - 1].time)
    {
      var k :| 0 <= k < |init| && init[k] == x;
      assert s[k] == x;
    }
  }

  lemma SortedSnoc(s: seq<Entry>, e: Entry)
    requires Sorted(s)
    requires forall x | x in s :: Instant(x.time) <= Instant(e.time)
    ensures Sorted(s + [e])
  {
    var r := s + [e];
    forall i, j | 0 <= i < j < |r|
      ensures Instant(r[i].time) <= Instant(r[j].time)
    {
      assert r[i] == s[i];
      assert s[i] in s;
    }
  }

  /** Over the whole time range, a non-empty input makes one group, labelled "all", of every line. */
  lemma {:induction false} AllMakesOneGroup(entries: seq<Entry>)
    requires entries != []
    ensures GroupByPeriod(entries, All) == [Group("all", Lines(entries))]
  {
    var init := entries[..|entries| - 1];
    var last := entries[|entries| - 1];
    InitLast(entries);
    LinesAppend(init, [last]);
    assert Lines([last]) == [last.line] by {
      assert [last][1..] == [];
    }
    if init != [] {
      AllMakesOneGroup(init);
    }
  }

  // Writing

  /** One call of the writer: the name of the log and its content. */
  datatype WriteCall = WriteCall(name: string, content: seq<string>)

  /** The write calls that output the groups with the headers in front of each. */
  function Contents(groups: seq<Group>, headers: seq<string>): (r: seq<WriteCall>)
    ensures |r| == |groups|
  {
    if groups == [] then [] else [WriteCall(groups[0].key, headers + groups[0].lines)] + Contents(groups[1..], headers)
  }

  lemma {:induction false} ContentsAppend(a: seq<Group>, b: seq<Group>, headers: seq<string>)
    ensures Contents(a + b, headers) == Contents(a, headers) + Contents(b, headers)
  {
    if a == [] {
      assert a + b == b;
    } else {
      assert (a + b)[1..] == a[1..] + b;
      ContentsAppend(a[1..], b, headers);
    }
  }

  lemma ContentsNext(groups: seq<Group>, i: int, headers: seq<string>)
    requires 0 <= i < |groups|
    ensures Contents(groups[..i + 1], headers) == Contents(groups[..i], headers) + [WriteCall(groups[i].key, headers + groups[i].lines)]
  {
    ContentsAppend(groups[..i], [groups[i]], headers);
    assert groups[..i + 1] == groups[..i] + [groups[i]];
  }

  /** Taking any one group out of the pending ones takes its write call out of theirs. */
  lemma TakeOne(pending: seq<Group>, k: int, headers: seq<string>)
    requires 0 <= k < |pending|
    ensures multiset(Contents(pending, headers))
      == multiset(Contents(pending[..k] + pending[k + 1..], headers)) + multiset{WriteCall(pending[k].key, headers + pending[k].lines)}
  {
    ContentsAppend(pending[..k], pending[k..], headers);
    ContentsAppend(pending[..k], pending[k + 1..], headers);
    assert pending[k..] == [pending[k]] + pending[k + 1..];
    assert pending[..k] + pending[k..] == pending;
  }

  /** `s` without its element at `k`. */
  function Without<T>(s: seq<T>, k: int): (r: seq<T>)
    requires 0 <= k < |s|
    ensures |r| == |s| - 1
  {
    s[..k] + s[k + 1..]
  }

  /** Writing pending group `k` moves exactly its write call from the pending ones to those made. */
  lemma TakeOneStep(pending: seq<Group>, k: int, headers: seq<string>, added: seq<WriteCall>, all: seq<Group>)
    requires 0 <= k < |pending|
    requires multiset(added) + multiset(Contents(pending, headers)) == multiset(Contents(all, headers))
    ensures multiset(added + [WriteCall(pending[k].key, headers + pending[k].lines)])
      + multiset(Contents(Without(pending, k), headers)) == multiset(Contents(all, headers))
  {
    TakeOne(pending, k, headers);
  }

  /** Each group is written once under its own label, with the headers followed by its lines. */
  lemma {:induction false} ContentsAt(groups: seq<Group>, headers: seq<string>, i: int)
    requires 0 <= i < |groups|
    ensures Contents(groups, headers)[i] == WriteCall(groups[i].key, headers + groups[i].lines)
  {
    if i > 0 {
      ContentsAt(groups[1..], headers, i - 1);
    }
  }

  /** A sink that records every log written to it. */
  class LogWriter {
    /** Whether several logs may be written at the same time. */
    const supportsParallelWriting: bool
    /** The write calls received so far, in the order they were made. */
    var written: seq<WriteCall>

    constructor (supportsParallelWriting: bool)
      ensures this.supportsParallelWriting == supportsParallelWriting && written == []
    {
      this.supportsParallelWriting := supportsParallelWriting;
      written := [];
    }

    method Write(name: string, content: seq<string>)
      modifies this
      ensures written == old(written) + [WriteCall(name, content)]
    {
      written := written + [WriteCall(name, content)];
    }
  }

  class LogMerger {
    const format: LogFormat
    const writer: LogWriter
    const addHeaders: bool

    constructor (format: LogFormat, writer: LogWriter, addHeaders: bool)
      ensures this.format == format && this.writer == writer && this.addHeaders == addHeaders
    {
      this.format := format;
      this.writer := writer;
      this.addHeaders := addHeaders;
    }

    /**
      Reads and merges the files and writes one log per period. With no files, fails
      before reading anything; when reading fails, fails with the extraction error of
      some entry and writes nothing. Otherwise `merged` is the read entries, a sorted
      permutation of every entry's (timestamp, line) pair, and one log is written per
      period group of `merged`, holding the first file's headers (or none, when headers
      are turned off) followed by the group's lines.
    */
    method Merge(files: seq<seq<string>>, period: Period) returns (r: Result<()>, ghost merged: seq<Entry>)
      modifies writer
      ensures files == [] ==> r == Err(GeneralError(NoFiles))
      ensures files != [] ==> (r.Ok? <==> AllPairs(format, files).Ok?)
      ensures files != [] && r.Err? ==>
        exists k :: 0 <= k < |AllEntries(format, files)| && Extractor(format)(AllEntries(format, files)[k]) == Err(r.error)
      ensures r.Err? ==> writer.written == old(writer.written)
      ensures r.Ok? ==> Sorted(merged) && multiset(merged) == multiset(AllPairs(format, files).value)
      ensures r.Ok? ==> WroteAll(old(writer.written), writer.written, writer.supportsParallelWriting,
        Contents(GroupByPeriod(merged, period), if addHeaders then HeadersOf(format, files) else []))
    {
      merged := [];
      if |files| == 0 {
        return Err(GeneralError(NoFiles)), merged;
      }
      var entries, headers := Read(format, files);
      if entries.Err? {
        return Err(entries.error), merged;
      }
      var outputGroups := GroupByPeriod(entries.value, period);
      if !addHeaders {
        headers := [];
      }
      WriteOutput(outputGroups, headers);
      merged := entries.value;
      r := Ok(());
    }

    /**
      Writes every group with the headers in front. A writer that cannot write in
      parallel receives the groups one at a time in group order; one that can may
      receive them in any order, each exactly once.
    */
    method WriteOutput(outputGroups: seq<Group>, headers: seq<string>)
      modifies writer
      ensures WroteAll(old(writer.written), writer.written, writer.supportsParallelWriting, Contents(outputGroups, headers))
    {
      if writer.supportsParallelWriting {
        WriteInAnyOrder(outputGroups, headers);
      } else {
        WriteInOrder(outputGroups, headers);
      }
    }

    /** The parallel branch: each pending group is written once, in an order the model leaves open. */
    method WriteInAnyOrder(outputGroups: seq<Group>, headers: seq<string>)
      modifies writer
      ensures old(writer.written) <= writer.written
      ensures multiset(writer.written[|old(writer.written)|..]) == multiset(Contents(outputGroups, headers))
    {
      ghost var start := writer.written;
      var pending := outputGroups;
      ghost var added: seq<WriteCall> := [];
      while pending != []
        invariant writer.written == start + added
        invariant multiset(added) + multiset(Contents(pending, headers)) == multiset(Contents(outputGroups, headers))
        decreases |pending|
      {
        var k :| 0 <= k < |pending|;
        var outputGroup := pending[k];
        writer.Write(outputGroup.key, headers + outputGroup.lines);
        TakeOneStep(pending, k, headers, added, outputGroups);
        AppendAssoc(start, added, [WriteCall(outputGroup.key, headers + outputGroup.lines)]);
        added := added + [WriteCall(outputGroup.key, headers + outputGroup.lines)];
        pending := Without(pending, k);
      }
      AfterPrefix(start, added);
    }

    /** The sequential branch: the groups are written one after another, in order. */
    method WriteInOrder(outputGroups: seq<Group>, headers: seq<string>)
      modifies writer
      ensures writer.written == old(writer.written) + Contents(outputGroups, headers)
    {
      ghost var start := writer.written;
      var i := 0;
      while i < |outputGroups|
        invariant 0 <= i <= |outputGroups|
        invariant writer.written == start + Contents(outputGroups[..i], headers)
      {
        var outputGroup := outputGroups[i];
        writer.Write(outputGroup.key, headers + outputGroup.lines);
        ContentsNext(outputGroups, i, headers);
        i := i + 1;
      }
      assert outputGroups[..i] == outputGroups;
    }
  }

  /**
    `after` is `before` followed by the write calls `calls`: in their order for a
    writer that writes one log at a time, in some order, each exactly once, for one
    that writes in parallel.
  */
  predicate WroteAll(before: seq<WriteCall>, after: seq<WriteCall>, parallel: bool, calls: seq<WriteCall>)
    ensures WroteAll(before, after, parallel, calls) ==> |after| == |before| + |calls|
  {
    if parallel then
      && before <= after
      && var rest := after[|before|..];
        assert |multiset(rest)| == |rest| && |multiset(calls)| == |calls|;
        multiset(rest) == multiset(calls)
    else
      after == before + calls
  }
}
