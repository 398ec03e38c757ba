/**
  The two exact timestamp layouts the log readers parse: the CloudFront layout
  `yyyy-MM-dd<TAB>HH:mm:ss` (UTC) and the S3 layout `dd/MMM/yyyy:HH:mm:ss zzz`
  (local time with a numeric UTC offset), each with the formatter it inverts.
  Digits are ASCII, month names are the invariant culture's English abbreviations.
*/
module DateTimeFormats {
  import opened Outcomes
  import opened Calendar
  import opened Decimal
  import opened Sequences

  /** In a layout, '0' stands for any digit and every other character for itself. */
  predicate FitsLayout(t: string, layout: string) {
    && |t| == |layout|
    && forall i :: 0 <= i < |t| ==> if layout[i] == '0' then IsDigit(t[i]) else t[i] == layout[i]
  }

  /** Digits of a field that a layout has already checked. */
  function Field(t: string, lo: nat, hi: nat): nat
    requires lo <= hi <= |t|
    requires forall i :: lo <= i < hi ==> IsDigit(t[i])
  {
    Value(t[lo..hi])
  }

  // ---- CloudFront: yyyy-MM-dd<TAB>HH:mm:ss ----

  const CloudFrontLayout: string := "0000-00-00\t00:00:00"

  /** Parses exactly the 19 characters of the CloudFront layout into a valid date and time. */
  function ParseCloudFront(t: string): (r: Option<DateTime>)
    ensures r.Some? ==> FitsLayout(t, CloudFrontLayout)
  {
    if !FitsLayout(t, CloudFrontLayout) then None
    else
      var f := Fields(Field(t, 0, 4), Field(t, 5, 7), Field(t, 8, 10),
                      Field(t, 11, 13), Field(t, 14, 16), Field(t, 17, 19));
      if ValidFields(f) then Some(f) else None
  }

  function FormatCloudFront(t: DateTime): (s: string)
    ensures |s| == 19
  {
    Pad(t.year, 4) + "-" + Pad(t.month, 2) + "-" + Pad(t.day, 2) + "\t"
      + Pad(t.hour, 2) + ":" + Pad(t.minute, 2) + ":" + Pad(t.second, 2)
  }

  /** Parsing the formatted text of a timestamp gives the timestamp back. */
  lemma ParseFormatCloudFront(t: DateTime)
    ensures ParseCloudFront(FormatCloudFront(t)) == Some(t)
  {
    FormattedCloudFrontFits(t);
    FormattedCloudFrontFields(t);
  }

  /** The formatted text puts digits and separators where the layout has them. */
  lemma FormattedCloudFrontFits(t: DateTime)
    ensures FitsLayout(FormatCloudFront(t), CloudFrontLayout)
  {
    var s := FormatCloudFront(t);
    var y, mo, d := Pad(t.year, 4), Pad(t.month, 2), Pad(t.day, 2);
    var h, mi, se := Pad(t.hour, 2), Pad(t.minute, 2), Pad(t.second, 2);
    forall i | 0 <= i < 19
      ensures if CloudFrontLayout[i] == '0' then IsDigit(s[i]) else s[i] == CloudFrontLayout[i]
    {
      if i < 4 { assert s[i] == y[i]; }
      else if 5 <= i < 7 { assert s[i] == mo[i - 5]; }
      else if 8 <= i < 10 { assert s[i] == d[i - 8]; }
      else if 11 <= i < 13 { assert s[i] == h[i - 11]; }
      else if 14 <= i < 16 { assert s[i] == mi[i - 14]; }
      else if 17 <= i < 19 { assert s[i] == se[i - 17]; }
    }
  }

  /** The digit fields of the formatted text read back as the fields of the timestamp. */
  lemma FormattedCloudFrontFields(t: DateTime)
    ensures var s := FormatCloudFront(t);
      && Value(s[0..4]) == t.year && Value(s[5..7]) == t.month && Value(s[8..10]) == t.day
      && Value(s[11..13]) == t.hour && Value(s[14..16]) == t.minute && Value(s[17..19]) == t.second
  {
    var s := FormatCloudFront(t);
    assert s[0..4] == Pad(t.year, 4) && s[5..7] == Pad(t.month, 2) && s[8..10] == Pad(t.day, 2);
    assert s[11..13] == Pad(t.hour, 2) && s[14..16] == Pad(t.minute, 2) && s[17..19] == Pad(t.second, 2);
    ValueOfPad(t.year, 4);
    ValueOfPad(t.month, 2);
    ValueOfPad(t.day, 2);
    ValueOfPad(t.hour, 2);
    ValueOfPad(t.minute, 2);
    ValueOfPad(t.second, 2);
  }

  /** A successful parse reads a text that is exactly the formatted result: the layout admits no other spelling. */
  lemma ParsedCloudFrontIsFormatted(s: string)
    requires ParseCloudFront(s).Some?
    ensures FormatCloudFront(ParseCloudFront(s).value) == s
  {
    var t := ParseCloudFront(s).value;
    PadOfValue(s[0..4]);
    PadOfValue(s[5..7]);
    PadOfValue(s[8..10]);
    PadOfValue(s[11..13]);
    PadOfValue(s[14..16]);
    PadOfValue(s[17..19]);
    assert CloudFrontLayout[4] == '-' && CloudFrontLayout[7] == '-' && CloudFrontLayout[10] == '\t';
    assert CloudFrontLayout[13] == ':' && CloudFrontLayout[16] == ':';
    SpelledCloudFront(s, t);
  }

  /** Text whose fields print the fields of `t`, between the layout's separators, is the formatted `t`. */
  lemma SpelledCloudFront(s: string, t: DateTime)
    requires |s| == 19
    requires s[0..4] == Pad(t.year, 4) && s[5..7] == Pad(t.month, 2) && s[8..10] == Pad(t.day, 2)
    requires s[11..13] == Pad(t.hour, 2) && s[14..16] == Pad(t.minute, 2) && s[17..19] == Pad(t.second, 2)
    requires s[4] == '-' && s[7] == '-' && s[10] == '\t' && s[13] == ':' && s[16] == ':'
    ensures FormatCloudFront(t) == s
  {
    var f := FormatCloudFront(t);
    var y, mo, d := Pad(t.year, 4), Pad(t.month, 2), Pad(t.day, 2);
    var h, mi, se := Pad(t.hour, 2), Pad(t.minute, 2), Pad(t.second, 2);
    forall i | 0 <= i < 19
      ensures f[i] == s[i]
    {
      if i < 4 { assert f[i] == y[i] && s[i] == s[0..4][i]; }
      else if 5 <= i < 7 { assert f[i] == mo[i - 5] && s[i] == s[5..7][i - 5]; }
      else if 8 <= i < 10 { assert f[i] == d[i - 8] && s[i] == s[8..10][i - 8]; }
      else if 11 <= i < 13 { assert f[i] == h[i - 11] && s[i] == s[11..13][i - 11]; }
      else if 14 <= i < 16 { assert f[i] == mi[i - 14] && s[i] == s[14..16][i - 14]; }
      else if 17 <= i < 19 { assert f[i] == se[i - 17] && s[i] == s[17..19][i - 17]; }
    }
  }

  // ---- S3: dd/MMM/yyyy:HH:mm:ss zzz ----

  const MonthNames: seq<string> :=
    ["Jan", "Feb", "Mar", "Apr", "May", "Jun", "Jul", "Aug", "Sep", "Oct", "Nov", "Dec"]

  function LowerAscii(c: char): char {
    if 'A' <= c <= 'Z' then (c as int + 32) as char else c
  }

  predicate SameIgnoringCase(a: string, b: string) {
    |a| == |b| && forall i :: 0 <= i < |a| ==> LowerAscii(a[i]) == LowerAscii(b[i])
  }

  /** `name` spells the abbreviation of month `m`, in any letter case. */
  predicate NamesMonth(name: string, m: int) {
    1 <= m <= 12 && SameIgnoringCase(name, MonthNames[m - 1])
  }

  /** The month (1..12) whose abbreviated name the text spells, in any letter case. */
  function MonthOfName(name: string): (r: Option<int>)
    ensures r.Some? ==> NamesMonth(name, r.value)
    ensures r.None? ==> forall m :: !NamesMonth(name, m)
  {
    MonthFrom(name, 1)
  }

  function MonthFrom(name: string, m: int): (r: Option<int>)
    requires 1 <= m <= 13
    ensures r.Some? ==> m <= r.value && NamesMonth(name, r.value)
    ensures r.None? ==> forall k :: m <= k ==> !NamesMonth(name, k)
    decreases 13 - m
  {
    if m == 13 then None
    else if SameIgnoringCase(name, MonthNames[m - 1]) then Some(m)
    else MonthFrom(name, m + 1)
  }

  /** Each abbreviation is read as its own month, and not as an earlier one. */
  lemma MonthOfAbbreviation(m: int)
    requires 1 <= m <= 12
    ensures MonthOfName(MonthNames[m - 1]) == Some(m)
  {
    var name := MonthNames[m - 1];
    forall k | 1 <= k < m
      ensures !NamesMonth(name, k)
    {
      var b := MonthNames[k - 1];
      assert LowerAscii(name[0]) != LowerAscii(b[0]) || LowerAscii(name[1]) != LowerAscii(b[1])
          || LowerAscii(name[2]) != LowerAscii(b[2]);
    }
    assert NamesMonth(name, m);
    MonthFromFinds(name, 1, m);
  }

  lemma {:induction false} MonthFromFinds(name: string, from: int, m: int)
    requires 1 <= from <= m <= 12
    requires NamesMonth(name, m)
    requires forall k :: from <= k < m ==> !NamesMonth(name, k)
    ensures MonthFrom(name, from) == Some(m)
    decreases m - from
  {
    if from < m {
      MonthFromFinds(name, from + 1, m);
    }
  }

  /** Text before the offset: `dd/MMM/yyyy:HH:mm:ss ` with the letters checked separately. */
  const S3Layout: string := "00/MMM/0000:00:00:00 "

  /** The digits and separators of the S3 layout are in place (the month letters are checked by name). */
  predicate FitsS3Head(head: string)
    requires |head| == |S3Layout|
  {
    forall i :: 0 <= i < |S3Layout| ==>
      if S3Layout[i] == '0' then IsDigit(head[i]) else S3Layout[i] == 'M' || head[i] == S3Layout[i]
  }

  /** Parses the local date and time that open the S3 layout (exactly 21 characters). */
  function ParseS3Local(head: string): (r: Option<DateTime>)
    ensures r.Some? ==> |head| == |S3Layout| && FitsS3Head(head) && NamesMonth(head[3..6], r.value.month)
  {
    if |head| != |S3Layout| then None
    else if !FitsS3Head(head) then None
    else
      match MonthOfName(head[3..6])
      case None => None
      case Some(month) =>
        var f := Fields(Field(head, 7, 11), month, Field(head, 0, 2),
                        Field(head, 12, 14), Field(head, 15, 17), Field(head, 18, 20));
        if ValidFields(f) then Some(f) else None
  }

  /**
    A UTC offset `+hh:mm`, `+hhmm`, `-hh:mm` or `-hhmm`, in minutes east of UTC,
    no larger than fourteen hours.
  */
  function ParseOffset(z: string): (r: Option<int>)
    ensures r.Some? ==> -840 <= r.value <= 840
    ensures r.Some? ==> (|z| == 5 || |z| == 6) && (z[0] == '+' || z[0] == '-')
  {
    if !(|z| == 5 || |z| == 6) || !(z[0] == '+' || z[0] == '-') then None
    else
      var digits := if |z| == 6 then z[1..3] + z[4..6] else z[1..5];
      if (|z| == 6 && z[3] != ':') || !AllDigits(digits) then None
      else
        var h, m := Value(digits[..2]), Value(digits[2..]);
        if m >= 60 || h * 60 + m > 840 then None
        else Some(if z[0] == '-' then -(h * 60 + m) else h * 60 + m)
  }

  /** Parses the S3 layout and converts the local time to UTC by its offset. */
  function ParseS3(t: string): (r: Option<DateTime>)
    ensures r.Some? ==> |t| == |S3Layout| + 5 || |t| == |S3Layout| + 6
  {
    if |t| < |S3Layout| then None
    else
      match ParseS3Local(t[..|S3Layout|])
      case None => None
      case Some(local) =>
        match ParseOffset(t[|S3Layout|..])
        case None => None
        case Some(offset) => ToUniversal(local, offset)
  }

  function FormatS3Local(local: DateTime): (s: string)
    ensures |s| == |S3Layout|
  {
    Pad(local.day, 2) + "/" + MonthNames[local.month - 1] + "/" + Pad(local.year, 4) + ":"
      + Pad(local.hour, 2) + ":" + Pad(local.minute, 2) + ":" + Pad(local.second, 2) + " "
  }

  /** An offset in minutes written as `+hhmm` or `-hhmm`. */
  function FormatOffset(offset: int): (s: string)
    requires -840 <= offset <= 840
    ensures |s| == 5
  {
    var a := if offset < 0 then -offset else offset;
    (if offset < 0 then "-" else "+") + Pad(a / 60, 2) + Pad(a % 60, 2)
  }

  /** Formats a local time and its offset (in minutes) the way S3 writes them. */
  function FormatS3(local: DateTime, offset: int): string
    requires -840 <= offset <= 840
  {
    FormatS3Local(local) + FormatOffset(offset)
  }

  lemma FormattedS3LocalFits(local: DateTime)
    ensures FitsS3Head(FormatS3Local(local))
  {
    var head := FormatS3Local(local);
    var d, y := Pad(local.day, 2), Pad(local.year, 4);
    var h, mi, se := Pad(local.hour, 2), Pad(local.minute, 2), Pad(local.second, 2);
    forall i | 0 <= i < 21
      ensures if S3Layout[i] == '0' then IsDigit(head[i]) else S3Layout[i] == 'M' || head[i] == S3Layout[i]
    {
      if i < 2 { assert head[i] == d[i]; }
      else if 7 <= i < 11 { assert head[i] == y[i - 7]; }
      else if 12 <= i < 14 { assert head[i] == h[i - 12]; }
      else if 15 <= i < 17 { assert head[i] == mi[i - 15]; }
      else if 18 <= i < 20 { assert head[i] == se[i - 18]; }
    }
  }

  lemma ParseFormatS3Local(local: DateTime)
    ensures ParseS3Local(FormatS3Local(local)) == Some(local)
  {
    var head := FormatS3Local(local);
    FormattedS3LocalFits(local);
    FormattedS3LocalFields(local);
    MonthOfAbbreviation(local.month);
  }

  /** The digit fields of the formatted local part read back as the fields of the local time. */
  lemma FormattedS3LocalFields(local: DateTime)
    ensures var head := FormatS3Local(local);
      && head[3..6] == MonthNames[local.month - 1]
      && AllDigits(head[0..2]) && Value(head[0..2]) == local.day
      && AllDigits(head[7..11]) && Value(head[7..11]) == local.year
      && AllDigits(head[12..14]) && Value(head[12..14]) == local.hour
      && AllDigits(head[15..17]) && Value(head[15..17]) == local.minute
      && AllDigits(head[18..20]) && Value(head[18..20]) == local.second
  {
    FormattedS3LocalSlices(local);
    ValueOfPad(local.year, 4);
    ValueOfPad(local.day, 2);
    ValueOfPad(local.hour, 2);
    ValueOfPad(local.minute, 2);
    ValueOfPad(local.second, 2);
  }

  /** Each field of the formatted local part sits at its place in the layout. */
  lemma FormattedS3LocalSlices(local: DateTime)
    ensures var head := FormatS3Local(local);
      && head[0..2] == Pad(local.day, 2) && head[3..6] == MonthNames[local.month - 1]
      && head[7..11] == Pad(local.year, 4) && head[12..14] == Pad(local.hour, 2)
      && head[15..17] == Pad(local.minute, 2) && head[18..20] == Pad(local.second, 2)
  {
    var head := FormatS3Local(local);
    var d, mon, y := Pad(local.day, 2), MonthNames[local.month - 1], Pad(local.year, 4);
    var h, mi, se := Pad(local.hour, 2), Pad(local.minute, 2), Pad(local.second, 2);
    assert head[0..2] == d && head[3..6] == mon && head[7..11] == y;
    assert head[12..14] == h && head[15..17] == mi && head[18..20] == se;
  }

  lemma ParseFormatOffset(offset: int)
    requires -840 <= offset <= 840
    ensures ParseOffset(FormatOffset(offset)) == Some(offset)
  {
    var a := if offset < 0 then -offset else offset;
    var z := FormatOffset(offset);
    OffsetFields(offset, a / 60, a % 60);
    var digits := z[1..5];
    assert digits == Pad(a / 60, 2) + Pad(a % 60, 2);
    assert digits[..2] == Pad(a / 60, 2) && digits[2..] == Pad(a % 60, 2);
    ValueOfPad(a / 60, 2);
    ValueOfPad(a % 60, 2);
  }

  /** Parsing a formatted S3 timestamp yields the local time converted to UTC by its offset. */
  lemma ParseFormatS3(local: DateTime, offset: int)
    requires -840 <= offset <= 840
    ensures ParseS3(FormatS3(local, offset)) == ToUniversal(local, offset)
  {
    var s := FormatS3(local, offset);
    assert s[..|S3Layout|] == FormatS3Local(local);
    assert s[|S3Layout|..] == FormatOffset(offset);
    ParseFormatS3Local(local);
    ParseFormatOffset(offset);
  }

  /**
    How the local part may be spelled: the formatted local time, except that the month
    abbreviation may be in any letter case.
  */
  predicate SpellsS3Local(head: string, local: DateTime) {
    var name := MonthNames[local.month - 1];
    && |head| == |S3Layout|
    && SameIgnoringCase(head[3..6], name)
    && head[..3] + name + head[6..] == FormatS3Local(local)
  }

  /**
    How an offset may be spelled: the formatted offset, or the same with a ':' between
    hours and minutes; a zero offset may carry either sign.
  */
  predicate SpellsOffset(z: string, offset: int)
    requires -840 <= offset <= 840
  {
    var f := FormatOffset(offset);
    && (|z| == 5 || |z| == 6)
    && (z[0] == f[0] || (offset == 0 && z[0] == '-'))
    && (if |z| == 5 then z[1..] == f[1..] else z[1..] == f[1..3] + ":" + f[3..])
  }

  /** Text that parses as the local part is a spelling of the local time it parses to. */
  lemma ParsedS3LocalIsFormatted(head: string)
    requires ParseS3Local(head).Some?
    ensures SpellsS3Local(head, ParseS3Local(head).value)
  {
    var local := ParseS3Local(head).value;
    S3HeadFields(head);
    PadOfValue(head[0..2]);
    PadOfValue(head[7..11]);
    PadOfValue(head[12..14]);
    PadOfValue(head[15..17]);
    PadOfValue(head[18..20]);
    assert S3Layout[2] == '/' && S3Layout[6] == '/' && S3Layout[11] == ':';
    assert S3Layout[14] == ':' && S3Layout[17] == ':' && S3Layout[20] == ' ';
    SpelledLocal(head, local);
  }

  /** A local part whose fields print the fields of `local` spells `local`, month letters aside. */
  lemma SpelledLocal(head: string, local: DateTime)
    requires |head| == |S3Layout|
    requires head[0..2] == Pad(local.day, 2) && head[7..11] == Pad(local.year, 4)
    requires head[12..14] == Pad(local.hour, 2) && head[15..17] == Pad(local.minute, 2)
    requires head[18..20] == Pad(local.second, 2)
    requires head[2] == '/' && head[6] == '/' && head[11] == ':' && head[14] == ':' && head[17] == ':' && head[20] == ' '
    ensures head[..3] + MonthNames[local.month - 1] + head[6..] == FormatS3Local(local)
  {
    var name := MonthNames[local.month - 1];
    var s, f := head[..3] + name + head[6..], FormatS3Local(local);
    var d, y := Pad(local.day, 2), Pad(local.year, 4);
    var h, mi, se := Pad(local.hour, 2), Pad(local.minute, 2), Pad(local.second, 2);
    SpliceMonth(head, name);
    forall i | 0 <= i < 21
      ensures s[i] == f[i]
    {
      if i < 2 { assert f[i] == d[i] && head[i] == head[0..2][i]; }
      else if 3 <= i < 6 { assert f[i] == name[i - 3]; }
      else if 7 <= i < 11 { assert f[i] == y[i - 7] && head[i] == head[7..11][i - 7]; }
      else if 12 <= i < 14 { assert f[i] == h[i - 12] && head[i] == head[12..14][i - 12]; }
      else if 15 <= i < 17 { assert f[i] == mi[i - 15] && head[i] == head[15..17][i - 15]; }
      else if 18 <= i < 20 { assert f[i] == se[i - 18] && head[i] == head[18..20][i - 18]; }
    }
  }

  /** The digit fields of a local part that fits the layout are digit strings. */
  lemma S3HeadFields(head: string)
    requires |head| == |S3Layout| && FitsS3Head(head)
    ensures AllDigits(head[0..2]) && AllDigits(head[7..11]) && AllDigits(head[12..14])
    ensures AllDigits(head[15..17]) && AllDigits(head[18..20])
  {
    assert forall i :: 0 <= i < 21 && S3Layout[i] == '0' ==> IsDigit(head[i]);
  }

  /** Putting a three-letter month name in place of characters 3 to 5 of the local part. */
  lemma SpliceMonth(head: string, name: string)
    requires |head| == |S3Layout| && |name| == 3
    ensures |head[..3] + name + head[6..]| == |S3Layout|
    ensures forall i :: 0 <= i < |S3Layout| ==> (head[..3] + name + head[6..])[i] == if 3 <= i < 6 then name[i - 3] else head[i]
  {
  }

  /** Text that parses as an offset is a spelling of the offset it parses to. */
  lemma ParsedOffsetIsFormatted(z: string)
    requires ParseOffset(z).Some?
    ensures SpellsOffset(z, ParseOffset(z).value)
  {
    var offset := ParseOffset(z).value;
    var digits := if |z| == 6 then z[1..3] + z[4..6] else z[1..5];
    var hh, mm := digits[..2], digits[2..];
    assert hh + mm == digits;
    OffsetDigits(offset, hh, mm);
    if |z| == 6 {
      assert z[1..] == z[1..3] + ":" + z[4..6];
      assert hh == z[1..3] && mm == z[4..6];
    }
  }

  /** An offset read from digit strings `hh` and `mm` is formatted as those digits. */
  lemma OffsetDigits(offset: int, hh: string, mm: string)
    requires |hh| == 2 && |mm| == 2 && AllDigits(hh) && AllDigits(mm)
    requires Value(mm) < 60 && Value(hh) * 60 + Value(mm) <= 840
    requires offset == Value(hh) * 60 + Value(mm) || offset == -(Value(hh) * 60 + Value(mm))
    ensures FormatOffset(offset)[1..] == hh + mm
    ensures offset != 0 ==> FormatOffset(offset)[0] == if offset < 0 then '-' else '+'
  {
    PadOfValue(hh);
    PadOfValue(mm);
    OffsetFields(offset, Value(hh), Value(mm));
  }

  /** The formatted offset of h hours and m minutes (either sign) is its sign, then h and m in two digits each. */
  lemma OffsetFields(offset: int, h: nat, m: nat)
    requires m < 60 && h * 60 + m <= 840
    requires offset == h * 60 + m || offset == -(h * 60 + m)
    ensures FormatOffset(offset)[1..] == Pad(h, 2) + Pad(m, 2)
    ensures offset != 0 ==> FormatOffset(offset)[0] == if offset < 0 then '-' else '+'
  {
    var a := h * 60 + m;
    assert a / 60 == h && a % 60 == m;
  }

  /**
    Text that parses in the S3 layout is a spelling of a local time followed by a
    spelling of an offset, and parses to that local time adjusted to UTC.
  */
  lemma ParsedS3IsFormatted(t: string)
    requires ParseS3(t).Some?
    ensures |t| >= |S3Layout|
    ensures ParseS3Local(t[..|S3Layout|]).Some? && ParseOffset(t[|S3Layout|..]).Some?
    ensures var local, offset := ParseS3Local(t[..|S3Layout|]).value, ParseOffset(t[|S3Layout|..]).value;
      && SpellsS3Local(t[..|S3Layout|], local)
      && SpellsOffset(t[|S3Layout|..], offset)
      && ParseS3(t) == ToUniversal(local, offset)
  {
    ParsedS3LocalIsFormatted(t[..|S3Layout|]);
    ParsedOffsetIsFormatted(t[|S3Layout|..]);
  }
}
