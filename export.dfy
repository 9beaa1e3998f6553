/**
  * `exportToCSV`: a header line of eleven column names, then one line per
  * record, each line ended by a newline. Fields are joined by commas; the
  * patient name and the diagnosis are wrapped in double quotes, nothing is
  * escaped. The displayed date comes from `formatDate`, a locale function
  * taken here as a parameter.
  *
  * A CSV reader splits a line at the commas that are not inside double
  * quotes; `Commas` counts those, so a line has `Commas + 1` fields.
  */
module Export {
  import opened Base
  import opened Text
  import opened Dispensation

  /** The column names, in order. */
  const Headers: seq<string> := ["Date", "Patient Name", "Age", "Gender", "Diagnosis", "Allergy",
                                 "Total Amount (g)", "Status", "Frequency", "Duration (days)", "Pharmacist ID"]

  /** The header line: `headers.join(',')`. */
  const HeaderLine: string := Join(Headers, ",")

  function Quoted(s: string): string {
    "\"" + s + "\""
  }

  function StatusText(synced: bool): string {
    if synced then "Synced" else "Pending"
  }

  /** The commas of `s` outside double quotes, reading from the state `inQuotes`. */
  function Commas(s: string, inQuotes: bool): nat {
    if s == [] then 0
    else if s[0] == '"' then Commas(s[1..], !inQuotes)
    else (if s[0] == ',' && !inQuotes then 1 else 0) + Commas(s[1..], inQuotes)
  }

  /** Whether reading `s` from the state `inQuotes` ends inside double quotes. */
  function EndsInQuotes(s: string, inQuotes: bool): bool {
    if s == [] then inQuotes
    else EndsInQuotes(s[1..], if s[0] == '"' then !inQuotes else inQuotes)
  }

  lemma {:induction false} ScanAppend(a: string, b: string, inQuotes: bool)
    ensures Commas(a + b, inQuotes) == Commas(a, inQuotes) + Commas(b, EndsInQuotes(a, inQuotes))
    ensures EndsInQuotes(a + b, inQuotes) == EndsInQuotes(b, EndsInQuotes(a, inQuotes))
  {
    if a == [] {
      assert a + b == b;
    } else {
      assert (a + b)[0] == a[0] && (a + b)[1..] == a[1..] + b;
      ScanAppend(a[1..], b, if a[0] == '"' then !inQuotes else inQuotes);
    }
  }

  /** No double quote in `s`. */
  predicate Unquoted(s: string) {
    forall i | 0 <= i < |s| :: s[i] != '"'
  }

  /** Neither a comma nor a double quote in `s`: safe to write unquoted. */
  predicate Plain(s: string) {
    Unquoted(s) && forall i | 0 <= i < |s| :: s[i] != ','
  }

  /** A field that reads as exactly one field: no comma outside quotes, and it closes every quote it opens. */
  predicate OneField(s: string) {
    Commas(s, false) == 0 && !EndsInQuotes(s, false)
  }

  /** Without double quotes the quote state never changes, and outside quotes every comma counts. */
  lemma {:induction false} UnquotedScan(s: string, inQuotes: bool)
    requires Unquoted(s)
    ensures EndsInQuotes(s, inQuotes) == inQuotes
    ensures Commas(s, inQuotes) == if inQuotes then 0 else CountChar(s, ',')
  {
    if s != [] {
      UnquotedScan(s[1..], inQuotes);
    }
  }

  /** A plain text is one field. */
  lemma PlainIsOneField(s: string)
    requires Plain(s)
    ensures OneField(s)
  {
    UnquotedScan(s, false);
    assert CountChar(s, ',') == 0 by {
      CommaFreeCount(s);
    }
  }

  lemma {:induction false} CommaFreeCount(s: string)
    requires forall i | 0 <= i < |s| :: s[i] != ','
    ensures CountChar(s, ',') == 0
  {
    if s != [] {
      CommaFreeCount(s[1..]);
    }
  }

  /** A quoted text without double quotes inside is one field, whatever commas it holds. */
  lemma QuotedIsOneField(s: string)
    requires Unquoted(s)
    ensures OneField(Quoted(s))
  {
    ScanAppend("\"", s, false);
    ScanAppend("\"" + s, "\"", false);
    UnquotedScan(s, true);
  }

  /** Joining one-field texts with commas gives one field per part. */
  lemma {:induction false} JoinFields(parts: seq<string>)
    requires parts != []
    requires forall k | 0 <= k < |parts| :: OneField(parts[k])
    ensures Commas(Join(parts, ","), false) == |parts| - 1
    ensures !EndsInQuotes(Join(parts, ","), false)
  {
    if |parts| > 1 {
      JoinFields(parts[1..]);
      ScanAppend(parts[0], ",", false);
      ScanAppend(parts[0] + ",", Join(parts[1..], ","), false);
    }
  }

  /** Joining a first field onto the rest puts one comma between them. */
  lemma JoinCons(x: string, rest: seq<string>)
    requires rest != []
    ensures Join([x] + rest, ",") == x + "," + Join(rest, ",")
  {
    assert ([x] + rest)[1..] == rest;
  }

  /** The digits of a number, after an optional minus sign: one field. */
  lemma IntIsPlain(n: int)
    ensures Plain(IntToString(n))
  {
    var s := IntToString(n);
    if n < 0 {
      assert forall i | 1 <= i < |s| :: s[i] == NatToString(-n)[i - 1];
    }
  }

  /** A rendered amount (sign, digits, point, digit): one field. */
  lemma AmountIsPlain(h: int)
    ensures Plain(HalvesToFixed1(h))
  {
    var a := if h < 0 then -h else h;
    var sign := if h < 0 then "-" else "";
    var digits := NatToString(a / 2);
    var s := HalvesToFixed1(h);
    assert s == sign + digits + "." + (if a % 2 == 1 then "5" else "0");
    forall i | 0 <= i < |s| ensures s[i] != ',' && s[i] != '"' {
      if |sign| <= i < |sign| + |digits| {
        assert s[i] == digits[i - |sign|];
      }
    }
  }

  /**
    * Free-text fields a line can carry safely: the quoted name and
    * diagnosis hold no double quote, and the unquoted text fields hold no
    * comma and no double quote.
    */
  predicate CsvSafe(e: Entry) {
    && Unquoted(e.patientName) && Unquoted(e.diagnosis)
    && Plain(e.gender) && Plain(e.allergyTest) && Plain(e.frequency) && Plain(e.pharmacistId)
  }

  /** The ten fields after the date, as `exportToCSV` writes them. */
  function RowTail(r: Record): (fields: seq<string>)
    ensures |fields| == 10
    ensures fields[6] == StatusText(r.entry.synced)
    ensures CsvSafe(r.entry) ==> forall k | 0 <= k < 10 :: OneField(fields[k])
  {
    var e := r.entry;
    var fields := [Quoted(e.patientName), IntToString(e.age), e.gender, Quoted(e.diagnosis), e.allergyTest,
                   HalvesToFixed1(e.totalHalves), StatusText(e.synced), e.frequency, IntToString(e.duration),
                   e.pharmacistId];
    if CsvSafe(e) then
      FieldsOneEach(e);
      fields
    else
      fields
  }

  /** Each field written for a record with CSV-safe free text reads as exactly one field. */
  lemma FieldsOneEach(e: Entry)
    requires CsvSafe(e)
    ensures OneField(Quoted(e.patientName)) && OneField(Quoted(e.diagnosis))
    ensures OneField(IntToString(e.age)) && OneField(IntToString(e.duration))
    ensures OneField(HalvesToFixed1(e.totalHalves)) && OneField(StatusText(e.synced))
    ensures OneField(e.gender) && OneField(e.allergyTest) && OneField(e.frequency) && OneField(e.pharmacistId)
  {
    QuotedIsOneField(e.patientName);
    QuotedIsOneField(e.diagnosis);
    IntIsPlain(e.age);
    IntIsPlain(e.duration);
    AmountIsPlain(e.totalHalves);
    PlainIsOneField(IntToString(e.age));
    PlainIsOneField(IntToString(e.duration));
    PlainIsOneField(HalvesToFixed1(e.totalHalves));
    PlainIsOneField(e.gender);
    PlainIsOneField(e.allergyTest);
    PlainIsOneField(e.frequency);
    PlainIsOneField(e.pharmacistId);
    PlainIsOneField(StatusText(e.synced));
  }


  /** A record's line as written: the formatted date goes in unquoted. */
  function RowAsWritten(r: Record, formatDate: Timestamp -> string): string {
    Join([formatDate(r.entry.createdAt)] + RowTail(r), ",")
  }

  /** A record's line with the date quoted like the name and the diagnosis. */
  function Row(r: Record, formatDate: Timestamp -> string): string {
    Join([Quoted(formatDate(r.entry.createdAt))] + RowTail(r), ",")
  }

  /**
    * As written, a line has eleven fields plus one for every comma in the
    * formatted date.
    */
  lemma RowAsWrittenFields(r: Record, formatDate: Timestamp -> string)
    requires CsvSafe(r.entry) && Unquoted(formatDate(r.entry.createdAt))
    ensures Commas(RowAsWritten(r, formatDate), false) == 10 + CountChar(formatDate(r.entry.createdAt), ',')
  {
    var date := formatDate(r.entry.createdAt);
    var tail := RowTail(r);
    JoinCons(date, tail);
    JoinFields(tail);
    UnquotedScan(date, false);
    ScanAppend(date, ",", false);
    ScanAppend(date + ",", Join(tail, ","), false);
  }

  /** A date rendered as three comma-free parts joined by commas holds two commas and no quote. */
  lemma ThreePartDate(a: string, b: string, c: string)
    requires Plain(a) && Plain(b) && Plain(c)
    ensures Unquoted(a + "," + b + "," + c)
    ensures CountChar(a + "," + b + "," + c, ',') == 2
  {
    CommaFreeCount(a);
    CommaFreeCount(b);
    CommaFreeCount(c);
    CountCharAppend(a, ",", ',');
    CountCharAppend(a + ",", b, ',');
    CountCharAppend(a + "," + b, ",", ',');
    CountCharAppend(a + "," + b + ",", c, ',');
  }

  /**
    * The `en-US` rendering of 18 October 2026, 4:18 pm with the options
    * `formatDate` passes: "Oct 18, 2026, 04:18 PM".
    */
  const SampleDate: string := "Oct 18" + "," + " 2026" + "," + " 04:18 PM"

  /** A `formatDate` that renders every time as the `en-US` sample. */
  const SampleFormat: Timestamp -> string := (t: Timestamp) => SampleDate

  /**
    * With the `en-US` date format, whose output holds two commas, each
    * record line has thirteen fields under an eleven-field header.
    */
  lemma RowAsWrittenMisaligned(r: Record)
    requires CsvSafe(r.entry)
    ensures Commas(RowAsWritten(r, SampleFormat), false) + 1 == 13
  {
    ThreePartDate("Oct 18", " 2026", " 04:18 PM");
    RowAsWrittenFields(r, SampleFormat);
  }

  /** With the date quoted, every record line has the header's eleven fields. */
  lemma RowFields(r: Record, formatDate: Timestamp -> string)
    requires CsvSafe(r.entry) && Unquoted(formatDate(r.entry.createdAt))
    ensures Commas(Row(r, formatDate), false) + 1 == |Headers|
    ensures !EndsInQuotes(Row(r, formatDate), false)
  {
    var date := Quoted(formatDate(r.entry.createdAt));
    var fields := [date] + RowTail(r);
    QuotedIsOneField(formatDate(r.entry.createdAt));
    assert forall k | 1 <= k < |fields| :: fields[k] == RowTail(r)[k - 1];
    JoinFields(fields);
  }

  /** The header line has eleven fields. */
  lemma HeaderFields()
    ensures Commas(HeaderLine, false) + 1 == |Headers| == 11
  {
    HeadersPlain();
    forall k | 0 <= k < |Headers| ensures OneField(Headers[k]) {
      PlainIsOneField(Headers[k]);
    }
    JoinFields(Headers);
  }

  /** No column name holds a comma or a double quote. */
  lemma HeadersPlain()
    ensures forall k | 0 <= k < |Headers| :: Plain(Headers[k])
  {
    forall k | 0 <= k < |Headers| ensures Plain(Headers[k]) {
      var h := Headers[k];
      forall i | 0 <= i < |h| ensures h[i] != ',' && h[i] != '"' {
        assert 'A' <= h[i] <= 'z' || h[i] in " ()";
      }
    }
  }

  /** A record's line, with the date as written (bare) or quoted. */
  function RowOf(r: Record, formatDate: Timestamp -> string, quoteDate: bool): string {
    if quoteDate then Row(r, formatDate) else RowAsWritten(r, formatDate)
  }

  /** The lines of the export: the header, then one per record in cache order. */
  function CsvLines(header: string, rs: seq<Record>, formatDate: Timestamp -> string, quoteDate: bool)
    : (lines: seq<string>)
    ensures |lines| == |rs| + 1
    ensures lines[0] == header
    ensures forall i | 0 <= i < |rs| :: lines[i + 1] == RowOf(rs[i], formatDate, quoteDate)
  {
    [header] + seq(|rs|, i requires 0 <= i < |rs| => RowOf(rs[i], formatDate, quoteDate))
  }

  /** Each line followed by a newline. */
  function Terminated(lines: seq<string>): string {
    if lines == [] then "" else Terminated(lines[..|lines| - 1]) + lines[|lines| - 1] + "\n"
  }

  /** A text of lines holding no newline has exactly one newline per line. */
  lemma {:induction false} TerminatedNewlines(lines: seq<string>)
    requires forall k | 0 <= k < |lines| :: CountChar(lines[k], '\n') == 0
    ensures CountChar(Terminated(lines), '\n') == |lines|
  {
    if lines != [] {
      var init := lines[..|lines| - 1];
      assert forall k | 0 <= k < |init| :: init[k] == lines[k];
      TerminatedNewlines(init);
      CountCharAppend(Terminated(init), lines[|lines| - 1], '\n');
      CountCharAppend(Terminated(init) + lines[|lines| - 1], "\n", '\n');
    }
  }

  lemma CsvStart(header: string, rs: seq<Record>, formatDate: Timestamp -> string, quoteDate: bool)
    ensures Terminated(CsvLines(header, rs[..0], formatDate, quoteDate)) == header + "\n"
  {
    assert CsvLines(header, rs[..0], formatDate, quoteDate) == [header];
  }

  /** One more record adds its line at the end. */
  lemma CsvStep(header: string, rs: seq<Record>, formatDate: Timestamp -> string, quoteDate: bool, i: nat)
    requires i < |rs|
    ensures Terminated(CsvLines(header, rs[..i + 1], formatDate, quoteDate))
         == Terminated(CsvLines(header, rs[..i], formatDate, quoteDate)) + RowOf(rs[i], formatDate, quoteDate) + "\n"
  {
    var next := CsvLines(header, rs[..i + 1], formatDate, quoteDate);
    var prev := CsvLines(header, rs[..i], formatDate, quoteDate);
    assert next[|next| - 1] == RowOf(rs[..i + 1][i], formatDate, quoteDate);
    assert rs[..i + 1][i] == rs[i];
    assert next[..|next| - 1] == prev;
  }

  /**
    * `exportToCSV` as written: nothing for an empty cache; otherwise the
    * header line followed by one line per record, the date bare, each line
    * newline-terminated.
    */
  method ExportCsv(rs: seq<Record>, formatDate: Timestamp -> string) returns (csv: Option<string>)
    ensures csv.None? <==> rs == []
    ensures csv.Some? ==> csv.value == Terminated(CsvLines(HeaderLine, rs, formatDate, false))
  {
    if |rs| == 0 {
      return None;
    }
    var text := BuildCsv(HeaderLine, rs, formatDate, false);
    csv := Some(text);
  }

  /** `exportToCSV` with the date column quoted like the name and the diagnosis. */
  method ExportCsvQuoted(rs: seq<Record>, formatDate: Timestamp -> string) returns (csv: Option<string>)
    ensures csv.None? <==> rs == []
    ensures csv.Some? ==> csv.value == Terminated(CsvLines(HeaderLine, rs, formatDate, true))
  {
    if |rs| == 0 {
      return None;
    }
    var text := BuildCsv(HeaderLine, rs, formatDate, true);
    csv := Some(text);
  }

  /** The `csv +=` accumulation: the header line, then one line per record, each ended by a newline. */
  method BuildCsv(header: string, rs: seq<Record>, formatDate: Timestamp -> string, quoteDate: bool)
    returns (text: string)
    ensures text == Terminated(CsvLines(header, rs, formatDate, quoteDate))
  {
    text := header + "\n";
    CsvStart(header, rs, formatDate, quoteDate);
    var i := 0;
    while i < |rs|
      invariant 0 <= i <= |rs|
      invariant text == Terminated(CsvLines(header, rs[..i], formatDate, quoteDate))
    {
      CsvStep(header, rs, formatDate, quoteDate, i);
      text := text + RowOf(rs[i], formatDate, quoteDate) + "\n";
      i := i + 1;
    }
    assert rs[..i] == rs;
  }

  /**
    * As written, with the `en-US` date format every record line of the
    * export has thirteen fields, two more than the header line's eleven.
    */
  lemma ExportAsWrittenMisaligned(rs: seq<Record>)
    requires forall i | 0 <= i < |rs| :: CsvSafe(rs[i].entry)
    ensures Commas(CsvLines(HeaderLine, rs, SampleFormat, false)[0], false) + 1 == 11
    ensures forall k | 1 <= k < |rs| + 1 :: Commas(CsvLines(HeaderLine, rs, SampleFormat, false)[k], false) + 1 == 13
  {
    HeaderFields();
    var lines := CsvLines(HeaderLine, rs, SampleFormat, false);
    forall k | 1 <= k < |lines| ensures Commas(lines[k], false) + 1 == 13 {
      RowAsWrittenMisaligned(rs[k - 1]);
    }
  }

  /**
    * Every line of the export with the date quoted, header included, has
    * the header's eleven fields, when the record fields are safe to write
    * and the formatted dates hold no double quote.
    */
  lemma ExportLinesAligned(rs: seq<Record>, formatDate: Timestamp -> string)
    requires forall i | 0 <= i < |rs| :: CsvSafe(rs[i].entry) && Unquoted(formatDate(rs[i].entry.createdAt))
    ensures forall k | 0 <= k < |rs| + 1 :: Commas(CsvLines(HeaderLine, rs, formatDate, true)[k], false) + 1 == |Headers|
  {
    HeaderFields();
    RowsAligned(HeaderLine, rs, formatDate);
  }

  /** Under a header line of as many fields as there are column names, every line has that many fields. */
  lemma RowsAligned(header: string, rs: seq<Record>, formatDate: Timestamp -> string)
    requires Commas(header, false) + 1 == |Headers|
    requires forall i | 0 <= i < |rs| :: CsvSafe(rs[i].entry) && Unquoted(formatDate(rs[i].entry.createdAt))
    ensures forall k | 0 <= k < |rs| + 1 :: Commas(CsvLines(header, rs, formatDate, true)[k], false) + 1 == |Headers|
  {
    var lines := CsvLines(header, rs, formatDate, true);
    forall k | 1 <= k < |lines| ensures Commas(lines[k], false) + 1 == |Headers| {
      RowFields(rs[k - 1], formatDate);
    }
  }
}
