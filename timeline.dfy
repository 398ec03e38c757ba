/** Log entries paired with their timestamps, and the ascending sort applied to all of them. */
module Timeline {
  import opened Outcomes
  import opened Calendar
  import opened Sequences

  /** One data line of a log file with the timestamp extracted from it. */
  datatype Entry = Entry(time: DateTime, line: string)

  /** Non-decreasing by timestamp. Entries with equal timestamps may come in any order. */
  predicate Sorted(s: seq<Entry>) {
    forall i, j :: 0 <= i < j < |s| ==> Instant(s[i].time) <= Instant(s[j].time)
  }

  /** The lines of the entries, timestamps dropped. */
  function Lines(s: seq<Entry>): (r: seq<string>)
    ensures |r| == |s|
  {
    if s == [] then [] else [s[0].line] + Lines(s[1..])
  }

  lemma {:induction false} LinesAt(s: seq<Entry>, i: int)
    requires 0 <= i < |s|
    ensures Lines(s)[i] == s[i].line
  {
    if i > 0 {
      LinesAt(s[1..], i - 1);
    }
  }

  lemma {:induction false} LinesAppend(a: seq<Entry>, b: seq<Entry>)
    ensures Lines(a + b) == Lines(a) + Lines(b)
  {
    if a != [] {
      assert (a + b)[0] == a[0];
      assert (a + b)[1..] == a[1..] + b;
      LinesAppend(a[1..], b);
    } else {
      assert a + b == b;
    }
  }

  /** Places `e` into a sorted sequence after every entry with an earlier timestamp. */
  function Insert(e: Entry, s: seq<Entry>): (r: seq<Entry>)
    requires Sorted(s)
    ensures Sorted(r)
    ensures multiset(r) == multiset(s) + multiset{e}
    ensures multiset(Lines(r)) == multiset(Lines(s)) + multiset{e.line}
  {
    if s == [] then [e]
    else if Instant(e.time) <= Instant(s[0].time) then
      InsertFirst(e, s);
      [e] + s
    else
      var rest := Insert(e, s[1..]);
      InsertAfterHead(e, s, rest);
      ConsHead(e, s, rest);
      [s[0]] + rest
  }

  lemma LinesCons(e: Entry, s: seq<Entry>)
    ensures Lines([e] + s) == [e.line] + Lines(s)
  {
    assert ([e] + s)[1..] == s;
  }

  /** When `e` goes before the head of sorted `s`, the result is sorted and holds `e` besides `s`. */
  lemma InsertFirst(e: Entry, s: seq<Entry>)
    requires s != [] && Sorted(s)
    requires Instant(e.time) <= Instant(s[0].time)
    ensures Sorted([e] + s)
    ensures multiset(Lines([e] + s)) == multiset(Lines(s)) + multiset{e.line}
  {
    LinesCons(e, s);
    forall x | x in s
      ensures Instant(e.time) <= Instant(x.time)
    {
      var k :| 0 <= k < |s| && s[k] == x;
    }
    SortedCons(e, s);
  }

  /** When `e` goes after the head of `s`, the head stays first in sorted order. */
  lemma InsertAfterHead(e: Entry, s: seq<Entry>, rest: seq<Entry>)
    requires s != [] && Sorted(s) && Sorted(rest)
    requires Instant(s[0].time) < Instant(e.time)
    requires multiset(rest) == multiset(s[1..]) + multiset{e}
    ensures Sorted([s[0]] + rest)
  {
    HeadBeforeRest(e, s, rest);
    SortedCons(s[0], rest);
  }

  /** Putting the head of `s` back in front of `rest`, which holds the tail of `s` and `e`, holds `s` and `e`. */
  lemma ConsHead(e: Entry, s: seq<Entry>, rest: seq<Entry>)
    requires s != []
    requires multiset(rest) == multiset(s[1..]) + multiset{e}
    requires multiset(Lines(rest)) == multiset(Lines(s[1..])) + multiset{e.line}
    ensures multiset([s[0]] + rest) == multiset(s) + multiset{e}
    ensures multiset(Lines([s[0]] + rest)) == multiset(Lines(s)) + multiset{e.line}
  {
    HeadTail(s);
    LinesCons(s[0], rest);
    LinesCons(s[0], s[1..]);
  }

  /** Every entry of `rest`, which holds the tail of sorted `s` and a later `e`, is no earlier than the head of `s`. */
  lemma HeadBeforeRest(e: Entry, s: seq<Entry>, rest: seq<Entry>)
    requires s != [] && Sorted(s)
    requires Instant(s[0].time) < Instant(e.time)
    requires multiset(rest) == multiset(s[1..]) + multiset{e}
    ensures forall x | x in rest :: Instant(s[0].time) <= Instant(x.time)
  {
    forall x | x in rest
      ensures Instant(s[0].time) <= Instant(x.time)
    {
      assert x in multiset(rest);
      if x != e {
        assert x in multiset(s[1..]);
        var k :| 0 <= k < |s[1..]| && s[1..][k] == x;
        assert s[k + 1] == x;
      }
    }
  }

  lemma SortedCons(h: Entry, rest: seq<Entry>)
    requires Sorted(rest)
    requires forall x | x in rest :: Instant(h.time) <= Instant(x.time)
    ensures Sorted([h] + rest)
  {
    var r := [h] + rest;
    forall i, j | 0 <= i < j < |r|
      ensures Instant(r[i].time) <= Instant(r[j].time)
    {
      ConsAt(h, rest, j);
      if i == 0 {
        assert rest[j - 1] in rest;
      } else {
        ConsAt(h, rest, i);
      }
    }
  }

  /**
    The entries in ascending timestamp order. How entries with equal timestamps
    are ordered is not part of the contract.
  */
  function SortByTime(s: seq<Entry>): (r: seq<Entry>)
    ensures Sorted(r)
    ensures multiset(r) == multiset(s)
    ensures multiset(Lines(r)) == multiset(Lines(s))
  {
    if s == [] then []
    else
      assert s == [s[0]] + s[1..];
      Insert(s[0], SortByTime(s[1..]))
  }

  /** The entries of every file, file after file, each file's entries in file order. */
  function Gather(entriesOf: seq<string> -> seq<string>, files: seq<seq<string>>): seq<string>
    decreases |files|
  {
    if files == [] then []
    else Gather(entriesOf, files[..|files| - 1]) + entriesOf(files[|files| - 1])
  }

  lemma GatherNext(entriesOf: seq<string> -> seq<string>, files: seq<seq<string>>, n: nat)
    requires n < |files|
    ensures Gather(entriesOf, files[..n + 1]) == Gather(entriesOf, files[..n]) + entriesOf(files[n])
  {
    assert files[..n + 1][..n] == files[..n];
  }

  /** A line is gathered exactly when it is among the entries of some file. */
  lemma {:induction false} GatherMembers(entriesOf: seq<string> -> seq<string>, files: seq<seq<string>>)
    ensures forall x :: x in Gather(entriesOf, files) <==> exists k :: 0 <= k < |files| && x in entriesOf(files[k])
    decreases |files|
  {
    if files != [] {
      var init := files[..|files| - 1];
      GatherMembers(entriesOf, init);
      assert forall k :: 0 <= k < |init| ==> init[k] == files[k];
    }
  }

  /** Gathering a prefix of the files gives a prefix of everything gathered. */
  lemma {:induction false} GatherPrefix(entriesOf: seq<string> -> seq<string>, files: seq<seq<string>>, n: nat)
    requires n <= |files|
    ensures Gather(entriesOf, files[..n]) <= Gather(entriesOf, files)
    decreases |files| - n
  {
    if n < |files| {
      GatherNext(entriesOf, files, n);
      GatherPrefix(entriesOf, files, n + 1);
    } else {
      assert files[..n] == files;
    }
  }

  /**
    Every entry paired with its extracted timestamp, in entry order; when some
    extraction fails, the error of the first entry that fails.
  */
  function Pairs(extract: string -> Result<DateTime>, entries: seq<string>): Result<seq<Entry>>
    decreases |entries|
  {
    if entries == [] then Ok([])
    else
      var init, last := entries[..|entries| - 1], entries[|entries| - 1];
      match Pairs(extract, init)
      case Err(e) => Err(e)
      case Ok(p) =>
        match extract(last)
        case Err(e) => Err(e)
        case Ok(t) => Ok(p + [Entry(t, last)])
  }

  /**
    Pairing succeeds exactly when every entry's extraction does, and then pairs each
    entry, in place, with its own timestamp; a failure is some entry's extraction error.
  */
  lemma {:induction false} PairsCharacterized(extract: string -> Result<DateTime>, entries: seq<string>)
    ensures Pairs(extract, entries).Ok? <==> forall k :: 0 <= k < |entries| ==> extract(entries[k]).Ok?
    ensures Pairs(extract, entries).Ok? ==> |Pairs(extract, entries).value| == |entries|
    ensures Pairs(extract, entries).Ok? ==>
      forall k :: 0 <= k < |entries| ==> Pairs(extract, entries).value[k] == Entry(extract(entries[k]).value, entries[k])
    ensures Pairs(extract, entries).Err? ==>
      exists k :: 0 <= k < |entries| && extract(entries[k]) == Err(Pairs(extract, entries).error)
    decreases |entries|
  {
    if entries != [] {
      var init := entries[..|entries| - 1];
      PairsCharacterized(extract, init);
      assert forall k :: 0 <= k < |init| ==> init[k] == entries[k];
    }
  }

  /** Extending the entries by one extends the pairs by that entry's pair, or fails with its error. */
  lemma PairsNext(extract: string -> Result<DateTime>, entries: seq<string>, line: string, p: seq<Entry>)
    requires Pairs(extract, entries) == Ok(p)
    ensures extract(line).Ok? ==> Pairs(extract, entries + [line]) == Ok(p + [Entry(extract(line).value, line)])
    ensures extract(line).Err? ==> Pairs(extract, entries + [line]) == Err(extract(line).error)
  {
    assert (entries + [line])[..|entries|] == entries;
  }

  /** Dropping the timestamps of successfully paired entries gives back the entries. */
  lemma PairLines(extract: string -> Result<DateTime>, entries: seq<string>)
    requires Pairs(extract, entries).Ok?
    ensures Lines(Pairs(extract, entries).value) == entries
  {
    PairsCharacterized(extract, entries);
    var p := Pairs(extract, entries).value;
    forall k | 0 <= k < |entries|
      ensures Lines(p)[k] == entries[k]
    {
      LinesAt(p, k);
    }
  }

  /** Once some entry fails, entries appended after it do not change the outcome. */
  lemma {:induction false} PairsErrPersists(extract: string -> Result<DateTime>, a: seq<string>, b: seq<string>)
    requires Pairs(extract, a).Err?
    ensures Pairs(extract, a + b) == Pairs(extract, a)
    decreases |b|
  {
    if b == [] {
      assert a + b == a;
    } else {
      var init := b[..|b| - 1];
      PairsErrPersists(extract, a, init);
      assert (a + b)[..|a + b| - 1] == a + init;
    }
  }

  /** A failure among the first entries is the failure of all of them, and names a failing entry. */
  lemma PairsErrPrefix(extract: string -> Result<DateTime>, a: seq<string>, b: seq<string>)
    requires a <= b && Pairs(extract, a).Err?
    ensures Pairs(extract, b) == Pairs(extract, a)
    ensures exists k :: 0 <= k < |b| && extract(b[k]) == Err(Pairs(extract, b).error)
  {
    PairsErrPersists(extract, a, b[|a|..]);
    assert a + b[|a|..] == b;
    PairsCharacterized(extract, b);
  }

  /**
    One step of a scan over `entries`: with the first `i` entries paired as `bag`, the
    next entry's extraction `x` either ends the whole scan with its error or extends `bag`.
  */
  lemma PairsStep(extract: string -> Result<DateTime>, entries: seq<string>, i: nat, bag: seq<Entry>, x: Result<DateTime>)
    requires i < |entries| && Pairs(extract, entries[..i]) == Ok(bag) && x == extract(entries[i])
    ensures x.Err? ==> Pairs(extract, entries) == Err(x.error)
    ensures x.Ok? ==> Pairs(extract, entries[..i + 1]) == Ok(bag + [Entry(x.value, entries[i])])
  {
    var upto := entries[..i + 1];
    TakeNext(entries, i);
    PairsNext(extract, entries[..i], entries[i], bag);
    if x.Err? {
      assert Pairs(extract, entries) == Pairs(extract, upto) by {
        TakeDrop(entries, i + 1);
        PairsErrPersists(extract, upto, entries[i + 1..]);
      }
    }
  }

  /** Pairing two runs of entries one after the other pairs their concatenation. */
  lemma {:induction false} PairsConcat(extract: string -> Result<DateTime>, a: seq<string>, b: seq<string>, p: seq<Entry>)
    requires Pairs(extract, a) == Ok(p)
    ensures Pairs(extract, b).Ok? ==> Pairs(extract, a + b) == Ok(p + Pairs(extract, b).value)
    ensures Pairs(extract, b).Err? ==> Pairs(extract, a + b) == Pairs(extract, b)
    decreases |b|
  {
    if b == [] {
      assert a + b == a;
      assert p + [] == p;
    } else {
      var init, last := b[..|b| - 1], b[|b| - 1];
      PairsConcat(extract, a, init, p);
      assert (a + b)[..|a + b| - 1] == a + init;
      assert (a + b)[|a + b| - 1] == last;
      if Pairs(extract, b).Ok? {
        var q := Pairs(extract, init).value;
        var e := Entry(extract(last).value, last);
        assert Pairs(extract, b).value == q + [e];
        assert p + (q + [e]) == (p + q) + [e];
      }
    }
  }

  /**
    Pairs each entry with its timestamp in order; the first entry whose extraction
    fails ends the scan with its error.
  */
  method PairEach(extract: string -> Result<DateTime>, entries: seq<string>) returns (r: Result<seq<Entry>>)
    ensures r == Pairs(extract, entries)
  {
    var bag: seq<Entry> := [];
    var i := 0;
    while i < |entries|
      invariant 0 <= i <= |entries|
      invariant Pairs(extract, entries[..i]) == Ok(bag)
    {
      var x := extract(entries[i]);
      PairsStep(extract, entries, i, bag, x);
      if x.Err? {
        return Err(x.error);
      }
      bag := bag + [Entry(x.value, entries[i])];
      i := i + 1;
    }
    assert entries[..i] == entries;
    r := Ok(bag);
  }
}
