# AWS log merger — a Dafny model

AWSLogMerger combines many AWS access-log files into one log per time period. The
model covers its read → sort → group → write pipeline:

- **Readers.** A CloudFront reader takes the leading run of `#` lines of a file as
  its headers. Its entries are the lines that do not start with `#`: every `#` line
  is dropped from them, not only the leading run, so a `#` line after the first
  entry is neither a header nor an entry
  (`CloudFrontLogReader.LateCommentsAreDropped`). It
  reads each entry's timestamp from the fixed 19-character `yyyy-MM-dd<TAB>HH:mm:ss`
  prefix, as UTC.
- **S3 reader.** Every line of an S3 file is an entry. The reader finds the entry's
  timestamp by an index scan: first the second space, then the first `]` at least
  two characters after it. It parses the text in between as
  `dd/MMM/yyyy:HH:mm:ss zzz` and converts it to UTC.
- **Older parser.** The older CloudFront parser skips the first two lines of a file
  and keeps the rest.
- **Merge engine.** `LogReader.Read`, and the older `TemporalLogParser.Parse`, pair
  every entry of every file with its timestamp and sort the pairs ascending by time.
  `Read` returns the sorted (timestamp, entry) pairs with the first file's headers;
  `Parse` drops the timestamps and returns only the sorted entry lines, with no
  headers.
- **Merger.** `LogMerger` labels each entry with the period its timestamp falls in:
  hourly, daily, monthly or yearly ISO 8601 calendar labels, ISO week dates, or the
  constant `all`. It groups the entries by label in first-seen order. It writes each
  group, with the headers in front unless they are turned off, to a writer that
  writes either one log at a time or in parallel.

A file is given as the sequence of its lines. A file path is the file's content,
and a directory listing is a sequence of files. Timestamps are proleptic Gregorian
calendar fields between years 1 and 9999, ordered by seconds since
0001-01-01T00:00:00. Exceptions become `Err` values of `Outcomes.Error`:
`ParseError` for a ParseException, `SliceOutOfRange` for slicing a short entry, and
`GeneralError` for a plain Exception.

The readers' format dispatch (the abstract `ExtractDateTime` / `GetLogFileReader`
pair) is a `LogFormat` value. A stream reader shared by an enumerator is the class
`Streams.LineReader`, whose unread lines are consumed.

## Model

| member | source | states |
|---|---|---|
| CloudFrontLogReader.HeaderRun | AWSLogMerger/CloudFrontLogReader.cs:49-59 | the header run is a prefix of the file's lines, every line of it starts with '#', and the line after it (if any) does not: it is the longest such prefix |
| CloudFrontLogReader.NonComments | AWSLogMerger/CloudFrontLogReader.cs:61-73 | the entries are never more than the lines, and none of them starts with '#' |
| CloudFrontLogReader.GetHeaders | AWSLogMerger/CloudFrontLogReader.cs:49-59 | the loop that reads lines until one does not start with '#' returns exactly the header run |
| CloudFrontLogReader.HeaderRunIsTheCommentPrefix | AWSLogMerger/CloudFrontLogReader.cs:53-58 | a prefix of '#' lines followed by a non-'#' line or by the end of the file is the header run |
| CloudFrontLogReader.GetEntries | AWSLogMerger/CloudFrontLogReader.cs:61-73 | the entries are the lines that do not start with '#', in file order |
| CloudFrontLogReader.EntriesAreTheNonComments | AWSLogMerger/CloudFrontLogReader.cs:65-72 | a line is an entry exactly when it is a line of the file not starting with '#' |
| CloudFrontLogReader.LateCommentsAreDropped | AWSLogMerger/CloudFrontLogReader.cs:56-69 | a '#' line after the first non-'#' line is in neither the headers nor the entries |
| CloudFrontLogReader.LeadingCommentsSplitTheFile | AWSLogMerger/CloudFrontLogReader.cs:49-73 | when all '#' lines lead the file, headers followed by entries are the whole file |
| CloudFrontLogReader.NoCommentsKeepsAll | AWSLogMerger/CloudFrontLogReader.cs:49-73 | a file without '#' lines has no headers and all its lines as entries |
| CloudFrontLogReader.ExtractDateTime | AWSLogMerger/CloudFrontLogReader.cs:20-27 | an entry shorter than 19 characters fails at the slice; a prefix that does not parse gives the "Unable to find time" ParseException quoting the whole entry; a success is the timestamp whose formatted text is the 19-character prefix |
| CloudFrontLogReader.ExtractFormatted | AWSLogMerger/CloudFrontLogReader.cs:22-24 | an entry that begins with a formatted timestamp yields exactly that timestamp, whatever follows |
| CloudFrontLogReader.OnlyPrefixMatters | AWSLogMerger/CloudFrontLogReader.cs:22 | two entries with the same first 19 characters extract the same timestamp, or both fail |
| DateTimeFormats.ParseCloudFront | AWSLogMerger/CloudFrontLogReader.cs:23 | a text that parses has digits and separators exactly where the `yyyy-MM-dd<TAB>HH:mm:ss` layout has them |
| DateTimeFormats.FormatCloudFront | AWSLogMerger/CloudFrontLogReader.cs:23 | the `yyyy-MM-dd<TAB>HH:mm:ss` text of a timestamp is 19 characters long |
| DateTimeFormats.ParseFormatCloudFront | AWSLogMerger/CloudFrontLogReader.cs:23 | parsing the formatted text of any timestamp gives it back |
| DateTimeFormats.ParsedCloudFrontIsFormatted | AWSLogMerger/CloudFrontLogReader.cs:23 | any text that parses is exactly the formatted text of its result: the exact layout admits one spelling per timestamp |
| DateTimeFormats.SpelledCloudFront | AWSLogMerger/CloudFrontLogReader.cs:23 | a text whose digit fields print the fields of a timestamp, between the layout's separators, is that timestamp's formatted text |
| DateTimeFormats.MonthOfName | AWSLogMerger/S3LogReader.cs:30 | a month is found exactly when the text spells that month's abbreviation in some letter case; no other month is found |
| DateTimeFormats.MonthFrom | AWSLogMerger/S3LogReader.cs:30 | the search from month m finds the first month at or after m whose abbreviation the text spells, or reports that none does |
| DateTimeFormats.MonthOfAbbreviation | AWSLogMerger/S3LogReader.cs:30 | each English month abbreviation is read as its own month |
| DateTimeFormats.MonthFromFinds | AWSLogMerger/S3LogReader.cs:30 | the search finds month m when no earlier month from the start point is named |
| DateTimeFormats.ParseOffset | AWSLogMerger/S3LogReader.cs:30 | an accepted `zzz` offset is at most fourteen hours either side of UTC and is written as a sign followed by four digits with an optional ':' |
| DateTimeFormats.FormatS3Local | AWSLogMerger/S3LogReader.cs:30 | the local part `dd/MMM/yyyy:HH:mm:ss ` of the S3 layout has its fixed length of 21 |
| DateTimeFormats.FormatOffset | AWSLogMerger/S3LogReader.cs:30 | an offset is written in five characters, sign and four digits |
| DateTimeFormats.FormattedS3LocalFits | AWSLogMerger/S3LogReader.cs:30 | the formatted local part puts digits and separators where the layout has them |
| DateTimeFormats.ParseFormatS3Local | AWSLogMerger/S3LogReader.cs:30 | parsing the formatted local part gives the local time back |
| DateTimeFormats.ParseFormatOffset | AWSLogMerger/S3LogReader.cs:30 | parsing a formatted offset gives the offset back |
| DateTimeFormats.ParseFormatS3 | AWSLogMerger/S3LogReader.cs:30-31 | parsing a formatted local time with its offset gives that local time adjusted to UTC |
| DateTimeFormats.ParseS3Local | AWSLogMerger/S3LogReader.cs:30 | a local part that parses has the layout's length, digits and separators where the layout has them, and a month field naming the month read |
| DateTimeFormats.ParseS3 | AWSLogMerger/S3LogReader.cs:30 | a text that parses is the 21-character local part followed by a five- or six-character offset |
| DateTimeFormats.ParsedS3IsFormatted | AWSLogMerger/S3LogReader.cs:30 | any text that parses is a local part that is the formatted local time up to the letter case of the month, followed by an offset that is the formatted offset up to an optional ':' (and '-' for a zero offset); the result is that local time adjusted to UTC |
| DateTimeFormats.ParsedS3LocalIsFormatted | AWSLogMerger/S3LogReader.cs:30 | a local part that parses is the formatted local time once its month field is spelled as the standard abbreviation |
| DateTimeFormats.SpelledLocal | AWSLogMerger/S3LogReader.cs:30 | a local part whose digit fields print the fields of a local time, between the layout's separators, is that time's formatted text once the month is spelled in standard case |
| DateTimeFormats.S3HeadFields | AWSLogMerger/S3LogReader.cs:30 | the day, year, hour, minute and second fields of a local part that fits the layout are digit strings |
| DateTimeFormats.SpliceMonth | AWSLogMerger/S3LogReader.cs:30 | replacing the month field of a local part keeps every other character in place |
| DateTimeFormats.ParsedOffsetIsFormatted | AWSLogMerger/S3LogReader.cs:30 | an offset that parses is the formatted offset, written with or without the ':' between hours and minutes, with '-' also allowed for zero |
| DateTimeFormats.OffsetDigits | AWSLogMerger/S3LogReader.cs:30 | the hour and minute digit fields of a parsed offset are the four digits of its formatted text |
| DateTimeFormats.OffsetFields | AWSLogMerger/S3LogReader.cs:30 | the formatted offset is its sign followed by the zero-padded hours and minutes of its size |
| Calendar.DaysInMonth | AWSLogMerger/CloudFrontLogReader.cs:23 | a month has 28 to 31 days, and 29 exactly for February of a leap year; only such dates parse |
| Calendar.NextDay | AWSLogMerger/S3LogReader.cs:30 | the same time on the next date is one day number later; it is missing only after 9999-12-31 |
| Calendar.PrevDay | AWSLogMerger/S3LogReader.cs:30 | the same time on the previous date is one day number earlier; it is missing only before 0001-01-01 |
| Calendar.ToUniversal | AWSLogMerger/S3LogReader.cs:30 | the UTC time of a local time with an offset of n minutes is the instant n minutes earlier |
| Calendar.ToUniversalFailsOutsideRange | AWSLogMerger/S3LogReader.cs:30-33 | the conversion fails exactly when the UTC instant is before year 1 or after year 9999 |
| Calendar.DayNumberRange | AWSLogMerger/S3LogReader.cs:30 | every representable date has a day number from 0 to the last day of year 9999 |
| Calendar.IsoWeekday | AWSLogMerger/LogMerger.cs:64 | ISO weekdays run from 1 (Monday) to 7 (Sunday) |
| Calendar.WeeksInYear | AWSLogMerger/LogMerger.cs:64 | an ISO week-numbering year has 52 or 53 weeks |
| Calendar.RawWeekNumber | AWSLogMerger/LogMerger.cs:64 | the week counted from the Monday on or before January 4 lies between 0 and 53 |
| Calendar.IsoWeekYear | AWSLogMerger/LogMerger.cs:64 | the ISO week-year of a date is its calendar year or a neighbouring one, and always between years 1 and 9999 (year 9999 ends on a Friday: `Calendar.LastYearEndsInItsOwnWeeks`; the year holding the date's Thursday: `Calendar.IsoWeekIsThursdayWeek`) |
| Calendar.IsoWeekOfYear | AWSLogMerger/LogMerger.cs:64 | the ISO week number lies between 1 and the number of weeks of the date's ISO week-year (the count of that year's Thursdays up to the date's Thursday: `Calendar.IsoWeekIsThursdayWeek`) |
| Calendar.WeekThursday | AWSLogMerger/LogMerger.cs:64 | the Thursday of a date's Monday-to-Sunday week is a Thursday at most three days from the date |
| Calendar.ThursdaysInYear | AWSLogMerger/LogMerger.cs:64 | a year holds exactly as many Thursdays as it has ISO weeks |
| Calendar.IsoWeekIsThursdayWeek | AWSLogMerger/LogMerger.cs:64 | the ISO week-year of a date is the calendar year holding the Thursday of its week, and the ISO week number counts that year's Thursdays up to and including that one |
| Calendar.ThursdayInPreviousYear | AWSLogMerger/LogMerger.cs:64 | a Thursday in the last seven days of a year is in that year's last ISO week |
| Calendar.SameIsoWeekIffSameThursday | AWSLogMerger/LogMerger.cs:64 | two dates have the same ISO week-year and week exactly when their Monday-to-Sunday weeks share their Thursday |
| Calendar.SameThursdaySameIsoWeek | AWSLogMerger/LogMerger.cs:64 | dates of the same Monday-to-Sunday week have the same ISO week-year and week |
| Calendar.OtherThursdayOtherIsoWeek | AWSLogMerger/LogMerger.cs:64 | dates of different Monday-to-Sunday weeks differ in ISO week-year or week |
| Calendar.MondayStartsIsoWeek | AWSLogMerger/LogMerger.cs:64 | the day after a date is in the same ISO week exactly when it is not a Monday |
| Calendar.LastYearEndsInItsOwnWeeks | AWSLogMerger/LogMerger.cs:64 | every date of year 9999 falls in one of that year's own ISO weeks, so the week-year never passes 9999 |
| Calendar.FirstWeekIsInYear | AWSLogMerger/LogMerger.cs:64 | no date of year 1 falls in week 0, so the previous week-year never goes below year 1 |
| Calendar.YearEndWeekdayIsDecember31 | AWSLogMerger/LogMerger.cs:64 | the year-end weekday formula is the weekday of December 31 |
| Calendar.YearStartWeekday | AWSLogMerger/LogMerger.cs:64 | January 1 falls on the weekday after the previous December 31 |
| Calendar.StartsOnThursday | AWSLogMerger/LogMerger.cs:64 | January 1 is a Thursday exactly when the previous year ends on a Wednesday |
| Calendar.EndsOnThursday | AWSLogMerger/LogMerger.cs:64 | December 31 is a Thursday exactly when the year-end formula gives Thursday |
| Calendar.WeekdayAfter | AWSLogMerger/LogMerger.cs:64 | the day after a weekday is a Thursday exactly when that weekday is a Wednesday |
| Calendar.LongYearStartsOrEndsOnThursday | AWSLogMerger/LogMerger.cs:64 | a year has 53 ISO weeks exactly when it begins or ends on a Thursday |
| Decimal.DigitValue | AWSLogMerger/LogMerger.cs:62-66 | a digit character has a value below ten |
| Decimal.DigitChar | AWSLogMerger/LogMerger.cs:62-66 | the character of a digit is a digit character with that value |
| Decimal.Fixed | AWSLogMerger/LogMerger.cs:62-66 | the fixed-width digit text has exactly the requested width and only digits |
| Decimal.NumDigits | AWSLogMerger/LogMerger.cs:62-66 | a number is below ten to the power of its digit count |
| Decimal.Pad | AWSLogMerger/LogMerger.cs:62-66 | zero-padded text is all digits, at least the requested width, and exactly that width when the number fits |
| Decimal.ValueOfFixed | AWSLogMerger/LogMerger.cs:62-66 | reading back the fixed-width text of a number that fits gives the number |
| Decimal.ValueOfPad | AWSLogMerger/LogMerger.cs:62-66 | reading back zero-padded text gives the number |
| Decimal.ValueBound | AWSLogMerger/CloudFrontLogReader.cs:23 | a digit string of length n denotes a number below 10^n |
| Decimal.PadOfValue | AWSLogMerger/CloudFrontLogReader.cs:23 | a digit field read by the parser is the zero-padded text of its value at its own width |
| Decimal.FixedOfValue | AWSLogMerger/CloudFrontLogReader.cs:23 | a digit string is the fixed-width text of its own value |
| Decimal.PadInjective | AWSLogMerger/LogMerger.cs:62-66 | different numbers have different zero-padded texts |
| S3LogReader.IndexOf | AWSLogMerger/S3LogReader.cs:19-27 | the index found holds the character and is the first one at or after the start; when none is found, no such index exists |
| S3LogReader.SecondSpace | AWSLogMerger/S3LogReader.cs:19-22 | the position found holds a space with exactly one space before it; none is found only when the entry has fewer than two spaces |
| S3LogReader.LocatedText | AWSLogMerger/S3LogReader.cs:22-29 | the text is missing exactly when there is no second space or no ']' from two past it; otherwise it starts two past the second space, holds no ']', and is followed by ']' |
| S3LogReader.ParseLocated | AWSLogMerger/S3LogReader.cs:30-33 | located text gives its S3 parse when it parses, and otherwise the "Unable to parse" ParseException quoting it |
| S3LogReader.TimestampOf | AWSLogMerger/S3LogReader.cs:16-39 | no located text gives the "Unable to find time" ParseException quoting the entry; otherwise the timestamp is the parse of the located text or the parse error quoting it |
| S3LogReader.Located | AWSLogMerger/S3LogReader.cs:22-30 | once the second space and the closing ']' are known, the timestamp is the parse of the text between them |
| S3LogReader.ExtractDateTime | AWSLogMerger/S3LogReader.cs:16-39 | the scan with its space counter and inner bracket loop gives exactly the specified timestamp: the find error quoting the entry, the parse error quoting the located text, or the parsed UTC time |
| S3LogReader.FewerThanTwoSpaces | AWSLogMerger/S3LogReader.cs:19-38 | an entry with fewer than two spaces gives the "Unable to find time" ParseException quoting the whole entry |
| S3LogReader.SecondSpaceExists | AWSLogMerger/S3LogReader.cs:19-22 | two spaces are enough for the second space to be found, no later than the second of them |
| S3LogReader.LocatedTextBounds | AWSLogMerger/S3LogReader.cs:22-29 | the located text starts two past the second space and ends at the first ']' from there, and exactly one space precedes the second space |
| S3LogReader.IndexOfAgree | AWSLogMerger/S3LogReader.cs:24-27 | the search for a character looks only at the characters up to where it stops |
| S3LogReader.CutKeepsLocation | AWSLogMerger/S3LogReader.cs:27-29 | cutting an entry after its closing ']' and appending anything keeps the second space, the ']' and the text between them |
| S3LogReader.LaterTextIgnored | AWSLogMerger/S3LogReader.cs:27-33 | text after the first ']' never changes the timestamp extracted |
| S3LogReader.LayoutLocation | AWSLogMerger/S3LogReader.cs:18-29 | in an `owner bucket [text]rest` line the scan locates exactly `text` |
| S3LogReader.ExtractFromLayout | AWSLogMerger/S3LogReader.cs:29-33 | a line laid out as S3 writes it yields its local time adjusted to UTC, or the parse error quoting the bracketed text when UTC is out of range |
| S3LogReader.ExtractFromBracketed | AWSLogMerger/S3LogReader.cs:18-30 | in an `owner bucket [text]rest` line, the timestamp is the parse of `text` |
| S3LogReader.ParseLocatedFormatted | AWSLogMerger/S3LogReader.cs:30-33 | formatted S3 text parses to the local time in UTC, or to the parse error quoting it when UTC is out of range |
| S3LogReader.DigitsHaveNoBracket | AWSLogMerger/S3LogReader.cs:27 | digit fields never contain the ']' the scan stops at |
| S3LogReader.FormattedS3HasNoBracket | AWSLogMerger/S3LogReader.cs:27 | a formatted S3 timestamp contains no ']' |
| S3LogReader.S3LogFileReader.GetEnumerator | AWSLogMerger/S3LogReader.cs:51-55 | yields every unread line in order, skipping none, and leaves the shared reader at the end |
| S3LogReader.EnumerateTwice | AWSLogMerger/S3LogReader.cs:43-55 | a second enumeration continues from where the first stopped, so after a full one it yields nothing |
| Streams.LineReader.ReadLine | AWSLogMerger/S3LogReader.cs:54 | a read returns the next line and consumes it, or nothing at the end of the stream |
| CloudFrontLogParser.ExtractDateTime | AWSLogMerger/CloudFrontLogParser.cs:21-28 | the same 19-character prefix parse: a short entry fails at the slice, a mismatch gives the ParseException quoting the whole entry |
| CloudFrontLogParser.Skipped | AWSLogMerger/CloudFrontLogParser.cs:47-52 | a file of n lines leaves max(0, n−2) lines, each the line two further on |
| CloudFrontLogParser.LateLinesAreEntries | AWSLogMerger/CloudFrontLogParser.cs:51-52 | every line from the third on is yielded, '#' lines included |
| CloudFrontLogParser.CloudFrontLogFileReader.GetEnumerator | AWSLogMerger/CloudFrontLogParser.cs:45-53 | two reads are discarded whatever they hold, then every remaining line is yielded in order, and the shared reader ends at the end |
| CloudFrontLogParser.EnumerateTwice | AWSLogMerger/CloudFrontLogParser.cs:32-53 | enumerating again does not restart the file: the second enumeration yields nothing |
| Timeline.Lines | AWSLogMerger/TemporalLogParser.cs:27 | dropping the timestamps keeps one line per entry |
| Timeline.LinesAt | AWSLogMerger/TemporalLogParser.cs:27 | the i-th line is the line of the i-th entry |
| Timeline.LinesAppend | AWSLogMerger/TemporalLogParser.cs:27 | the lines of two runs of entries are the lines of each run, one after the other |
| Timeline.Insert | AWSLogMerger/LogReader.cs:35-36 | inserting into sorted entries keeps them sorted and adds exactly the one entry |
| Timeline.LinesCons | AWSLogMerger/TemporalLogParser.cs:27 | the lines of an entry put in front are its line followed by the others' lines |
| Timeline.InsertFirst | AWSLogMerger/LogReader.cs:35-36 | an entry no later than the head of sorted entries goes in front, keeping them sorted |
| Timeline.InsertAfterHead | AWSLogMerger/LogReader.cs:35-36 | an entry later than the head goes after it, and the head stays first in sorted order |
| Timeline.HeadBeforeRest | AWSLogMerger/LogReader.cs:35-36 | the tail of sorted entries together with a later entry holds nothing earlier than the head |
| Timeline.ConsHead | AWSLogMerger/LogReader.cs:35-36 | putting the head back in front keeps exactly the head, the tail and the inserted entry, lines included |
| Timeline.SortedCons | AWSLogMerger/LogReader.cs:35-36 | an entry no later than every entry of sorted entries can go in front |
| Timeline.SortByTime | AWSLogMerger/LogReader.cs:35-36 | the sorted entries are in non-decreasing timestamp order and are a permutation of the input, lines included |
| Timeline.GatherNext | AWSLogMerger/LogReader.cs:24-29 | gathering one more file appends that file's entries |
| Timeline.GatherMembers | AWSLogMerger/LogReader.cs:24-29 | an entry is among all files' entries exactly when it is an entry of one of the files |
| Timeline.GatherPrefix | AWSLogMerger/LogReader.cs:24-29 | the entries of the first files read are a prefix of the entries of all files |
| Timeline.PairsCharacterized | AWSLogMerger/LogReader.cs:27-28 | pairing succeeds exactly when every entry's timestamp extracts; each pair is then the entry with its own timestamp, in place; a failure is some entry's extraction error |
| Timeline.PairsNext | AWSLogMerger/LogReader.cs:28 | one more entry adds its pair, or fails with its extraction error |
| Timeline.PairLines | AWSLogMerger/TemporalLogParser.cs:22-27 | dropping the timestamps of the pairs gives back the entries |
| Timeline.PairsErrPersists | AWSLogMerger/LogReader.cs:28 | once an entry fails, entries added after it do not change the failure |
| Timeline.PairsErrPrefix | AWSLogMerger/LogReader.cs:28 | a failure among the first entries is the failure of all of them, and some entry has that error |
| Timeline.PairsStep | AWSLogMerger/LogReader.cs:27-28 | one step of the scan either ends it with the entry's error or adds the entry's pair |
| Timeline.PairsConcat | AWSLogMerger/LogReader.cs:24-29 | pairing two runs of entries one after the other pairs their concatenation |
| Timeline.PairEach | AWSLogMerger/TemporalLogParser.cs:21-22 | the loop over a file's entries pairs them exactly as specified, stopping at the first failure |
| TemporalLogParser.Parse | AWSLogMerger/TemporalLogParser.cs:12-28 | an empty file list fails with "Source directory contains no files."; any failing entry aborts with its error; otherwise the result is all files' entries, each once, in non-decreasing timestamp order, timestamps dropped |
| TemporalLogParser.ParseFile | AWSLogMerger/TemporalLogParser.cs:18-23 | one file, opened with the CloudFront parser's reader, gives its lines after the first two, paired with their timestamps or failing at the first that does not extract |
| TemporalLogParser.ReadFailure | AWSLogMerger/TemporalLogParser.cs:22 | a failure in the files read so far is the failure of the whole parse and comes from some entry |
| LogReader.EntriesOf | AWSLogMerger/LogReader.cs:26-27 | a format's reader never yields more entries than the file has lines, and a CloudFront reader yields no '#' line |
| LogReader.HeadersOf | AWSLogMerger/LogReader.cs:31-33 | the headers are a prefix of the first file's lines, all starting with '#', and there are none without files |
| LogReader.Extractor | AWSLogMerger/LogReader.cs:44 | an extraction fails only with a ParseException or a short-entry slice error, and an S3 extraction only with a ParseException |
| LogReader.AllPairs | AWSLogMerger/LogReader.cs:24-29 | pairing all files' entries either keeps every entry in order, or fails with the extraction error of some entry |
| LogReader.GetEntries | AWSLogMerger/LogReader.cs:26-27 | a file's entries are what its format's reader yields |
| LogReader.ExtractDateTime | AWSLogMerger/LogReader.cs:44 | a format extracts timestamps as its reader specifies |
| LogReader.ReadFile | AWSLogMerger/LogReader.cs:26-28 | reading one file pairs its entries with their timestamps, or fails at the first entry that does not extract |
| LogReader.Read | AWSLogMerger/LogReader.cs:20-37 | fails exactly when some entry's timestamp cannot be extracted, with that entry's error; otherwise every (timestamp, entry) pair of every file, each once, in non-decreasing timestamp order, with the headers of the first file; no files give no entries and no headers |
| LogReader.ReadFailure | AWSLogMerger/LogReader.cs:24-29 | a failure in the files read so far is the failure of the whole read and comes from some entry |
| LogMerger.FixedWidths | AWSLogMerger/LogMerger.cs:62-66 | year, month, day, hour and ISO week print at their fixed widths |
| LogMerger.KeyShape | AWSLogMerger/LogMerger.cs:62-67 | hourly labels have 13 characters with 'T' at index 10, daily 10, monthly 7, yearly 4 digits; '-' separates year, month and day in hourly, daily and monthly labels; week labels are eight characters: four digits, "-W" and two digits |
| LogMerger.YearPiece | AWSLogMerger/LogMerger.cs:62-66 | a calendar label starts with the four-digit year |
| LogMerger.MonthPiece | AWSLogMerger/LogMerger.cs:62-65 | hourly, daily and monthly labels hold the two-digit month after the year |
| LogMerger.DayPiece | AWSLogMerger/LogMerger.cs:62-63 | hourly and daily labels hold the two-digit day after the month |
| LogMerger.HourPiece | AWSLogMerger/LogMerger.cs:62 | an hourly label ends with the two-digit hour |
| LogMerger.WeeklyKeyPieces | AWSLogMerger/LogMerger.cs:64 | a week label is the padded ISO week-year, "-W", and the two-digit ISO week |
| LogMerger.SameKeyIffSamePeriod | AWSLogMerger/LogMerger.cs:60-68 | two timestamps get the same label exactly when they agree on the calendar fields of the period (year … hour, or ISO week-year and week) |
| LogMerger.PeriodKey | AWSLogMerger/LogMerger.cs:60-69 | the label is "all" exactly for the All period |
| LogMerger.AddToGroups | AWSLogMerger/LogMerger.cs:58 | adding a line opens a new group, at the end, only for a label not seen before, and keeps the existing labels in order |
| LogMerger.GroupByPeriod | AWSLogMerger/LogMerger.cs:54-73 | there are never more groups than entries, and no groups exactly when there are no entries |
| LogMerger.Keys | AWSLogMerger/LogMerger.cs:58-72 | one key per group |
| LogMerger.KeysOf | AWSLogMerger/LogMerger.cs:60-68 | one label per entry |
| LogMerger.Dedup | AWSLogMerger/LogMerger.cs:58 | the first-seen list of labels has no repeats and holds exactly the labels that occur |
| LogMerger.WithKey | AWSLogMerger/LogMerger.cs:58-72 | the entries of a period are entries of the input carrying that period's label |
| LogMerger.AddLinesFor | AWSLogMerger/LogMerger.cs:58-71 | adding a line appends it to its label's group and changes no other group |
| LogMerger.AddFlatten | AWSLogMerger/LogMerger.cs:58-71 | adding a line adds exactly that line to the groups' contents |
| LogMerger.GroupsInFirstSeenOrder | AWSLogMerger/LogMerger.cs:56-72 | the groups' labels are the entries' labels in first-seen order, each once |
| LogMerger.GroupHoldsItsPeriod | AWSLogMerger/LogMerger.cs:56-72 | the group of a label holds exactly the lines of the entries with that label, in entry order |
| LogMerger.GroupsPartitionLines | AWSLogMerger/LogMerger.cs:56-72 | together the groups hold every entry's line exactly once, and nothing else |
| LogMerger.LinesForOwnKey | AWSLogMerger/LogMerger.cs:58 | with distinct labels, looking a group up by its own label finds that group |
| LogMerger.KeysAt | AWSLogMerger/LogMerger.cs:58 | the i-th key is the i-th group's label |
| LogMerger.EveryEntryInItsGroup | AWSLogMerger/LogMerger.cs:56-72 | every entry's line is in the one group labelled with the entry's period, and no other group has that label |
| LogMerger.OnlyGroupWithKey | AWSLogMerger/LogMerger.cs:56-72 | no two groups share a label |
| LogMerger.LineInItsPeriod | AWSLogMerger/LogMerger.cs:56-72 | each entry's line is among the lines of the entries of its own period |
| LogMerger.KeysOfAt | AWSLogMerger/LogMerger.cs:60-68 | the i-th label is the label of the i-th entry |
| LogMerger.WithKeyKeeps | AWSLogMerger/LogMerger.cs:58-72 | every entry is among the entries of its own period |
| LogMerger.PeriodStaysSorted | AWSLogMerger/LogMerger.cs:41-72 | from sorted input, each period's entries are in non-decreasing timestamp order |
| LogMerger.SortedSnoc | AWSLogMerger/LogMerger.cs:41-42 | an entry no earlier than all others can be appended to sorted entries |
| LogMerger.SortedInit | AWSLogMerger/LogMerger.cs:41-42 | dropping the last of sorted entries leaves them sorted, none later than the last |
| LogMerger.AllMakesOneGroup | AWSLogMerger/LogMerger.cs:67 | over the whole time range, non-empty input makes one group "all" of every line in order |
| LogMerger.Contents | AWSLogMerger/LogMerger.cs:86-93 | one write call per group |
| LogMerger.ContentsAppend | AWSLogMerger/LogMerger.cs:91-94 | the write calls of two runs of groups are those of each run in turn |
| LogMerger.ContentsNext | AWSLogMerger/LogMerger.cs:91-94 | one more group adds its own write call |
| LogMerger.TakeOne | AWSLogMerger/LogMerger.cs:84-87 | writing any one pending group removes exactly its write call from those pending |
| LogMerger.TakeOneStep | AWSLogMerger/LogMerger.cs:84-87 | writing pending group k moves exactly its write call from the pending calls to the calls made |
| LogMerger.ContentsAt | AWSLogMerger/LogMerger.cs:86-93 | each group is written under its label with the headers followed by its lines |
| LogMerger.WroteAll | AWSLogMerger/LogMerger.cs:80-96 | when the calls made are the calls before plus the pending calls in some order, exactly that many calls were added |
| LogMerger.LogWriter.Write | AWSLogMerger/LogMerger.cs:86-93 | the sink records the call after all earlier ones |
| LogMerger.LogMerger.WriteOutput | AWSLogMerger/LogMerger.cs:80-96 | a one-at-a-time writer gets exactly one call per group, in group order, and nothing else; a parallel writer gets exactly one call per group in some order |
| LogMerger.LogMerger.WriteInAnyOrder | AWSLogMerger/LogMerger.cs:82-88 | the parallel writer receives exactly one call per group, in some order, after the calls it already had |
| LogMerger.LogMerger.WriteInOrder | AWSLogMerger/LogMerger.cs:89-95 | the sequential writer receives one call per group, in group order, after the calls it already had |
| LogMerger.LogMerger.Merge | AWSLogMerger/LogMerger.cs:36-46 | an empty file list fails before reading or writing; a read failure propagates the extraction error and writes nothing; otherwise the groups of the sorted merged entries are written, with the first file's headers or with none when headers are off |

## Left out

- Concurrency: `Parallel.ForEach`, `ConcurrentBag` and PLINQ ordering are modelled as sequential loops. Contracts state only the facts that hold in any interleaving: permutation, sortedness, and one write per group. Ties between equal timestamps are not ordered.
- Gzip decompression chosen by the `.gz` extension, `StreamReader` line splitting, `File.OpenRead`, file-handle disposal, and the order of `Directory.GetFiles`: a file is given as its sequence of lines and a directory as its sequence of files.
- The file and console writers, the writer's name prefix, and the overwrite check: the writer is a sink that records `(name, content)` calls and carries the parallel-writing flag.
- The command line and `Program.cs`, which are glue with no algorithm.
- The `ArgumentOutOfRangeException` arm for an unknown period: `Period` is a closed datatype, so the arm cannot be reached.
- Culture and calendar details of `DateTime.TryParseExact` and `ToString`. The invariant culture's Gregorian calendar, ASCII digits and English month abbreviations are assumed, and month names match in any ASCII letter case. Fractional seconds do not arise.
- DateTimeFormats.ParseOffset: accepts `zzz` only as a sign, two hour digits, an optional ':' and two minute digits, up to fourteen hours. The platform also accepts a one-digit hour before the colon (`+h:mm`).
- CloudFrontLogParser.ExtractDateTime: the older parser asks for `AssumeUniversal` without `AdjustToUniversal`, which converts the result to the machine's local time zone. The model returns the parsed fields as they are, because the time zone is not part of the model.
- TemporalLogParser.Parse: the older base class enumerates files through `GetEntryEnumerator`, which the CloudFront parser does not implement (it overrides `GetLogFileReader` instead). The model enumerates with the CloudFront parser's file reader.
- LogReader.Read, TemporalLogParser.Parse, LogMerger.LogMerger.Merge: `Parallel.ForEach` throws an `AggregateException` that wraps the exceptions of every iteration that failed before the loop stopped, so it may carry several entries' errors. The model drops the wrapper and reports a single entry's error. The contracts say only that the reported error is some entry's error; the sequential model reports the first.
- S3 headers: the S3 file reader implements only an enumerator, not `GetHeaders`/`GetEntries`. The model takes its enumeration as the entries and gives S3 files no headers.
- CloudFrontLogReader.ExtractDateTime, S3LogReader.ExtractDateTime, CloudFrontLogParser.ExtractDateTime: strings are sequences of Unicode scalar values, while the platform indexes UTF-16 code units. Text with characters outside the Basic Multilingual Plane is cut at different places. Ten such characters are twenty code units, so the platform's 19-unit slice succeeds and the parse fails with "Unable to find time", while the model reports the slice error. Such a character right after the second space of an S3 entry is two code units, so the platform's cut two units past the space falls inside it, while the model's cut falls after it.
- Calendar.ToUniversalFailsOutsideRange, DateTimeFormats.ParseS3: when the offset moves a local time on 0001-01-01 before midnight UTC, the platform's UTC adjustment adds a day instead of failing: "01/Jan/0001:00:30:00 +0100" gives 0001-01-01T23:30:00Z there. The model reports the parse failure for every instant outside the range.
