/**
 Reading the sensor id and raster size out of an IMD metadata file: a loose
 `key = value;` text dump scanned line by line.
 */
module Imd {
  import opened Errors
  import opened Text

  const SatIdKey: string := "satId"
  const BandIdKey: string := "bandId"
  const NumRowsKey: string := "numRows"
  const NumColumnsKey: string := "numColumns"

  /** The characters removed from every line before it is matched. */
  const Stripped: set<char> := {' ', '\t', '\n', ';', '\"'}

  /** What a successful IMD read returns: `<satId>_<bandId>`, the row count and the column count, all as text. */
  datatype ImdReading = ImdReading(sensorId: string, rows: string, cols: string)

  /** The four values found so far; `None` until a line for the key is seen. */
  datatype ImdValues = ImdValues(
    satId: Option<string>,
    bandId: Option<string>,
    numRows: Option<string>,
    numColumns: Option<string>)

  /** A line as the scanner sees it: the line without any of the `Stripped` characters. */
  function Normalize(line: string): string
  {
    Delete(line, Stripped)
  }

  /** Normalising keeps every character except the `Stripped` ones; a carriage return, for one, survives. */
  lemma NormalizeKeeps(line: string)
    ensures forall c :: c in Normalize(line) <==> c in line && c !in Stripped
    ensures '\r' in line ==> '\r' in Normalize(line)
    ensures '=' in line <==> '=' in Normalize(line)
  {
    DeleteKeeps(line, Stripped);
  }

  /** The five chained `replace(c, '')` calls the scanner applies to each line, in their order. */
  function ChainedReplaces(line: string): string {
    Delete(Delete(Delete(Delete(Delete(line, {' '}), {'\t'}), {'\n'}), {';'}), {'\"'})
  }

  /** The chained replacements delete exactly the `Stripped` characters: `\r`, `=` and every other character survive. */
  lemma ChainedReplacesNormalize(line: string)
    ensures ChainedReplaces(line) == Normalize(line)
  {
    DeleteTwice(line, {' '}, {'\t'});
    DeleteTwice(line, {' ', '\t'}, {'\n'});
    DeleteTwice(line, {' ', '\t', '\n'}, {';'});
    DeleteTwice(line, {' ', '\t', '\n', ';'}, {'\"'});
    assert {' '} + {'\t'} == {' ', '\t'};
    assert {' ', '\t'} + {'\n'} == {' ', '\t', '\n'};
    assert {' ', '\t', '\n'} + {';'} == {' ', '\t', '\n', ';'};
    assert {' ', '\t', '\n', ';'} + {'\"'} == Stripped;
  }

  /** `raw.split('=')[1]`: the text between the first and second `=`, or `None` where indexing fails. */
  function FieldValue(raw: string): (v: Option<string>)
    ensures v.Some? <==> '=' in raw
    ensures v.Some? ==> '=' !in v.value
  {
    var parts := Split(raw, '=');
    if |parts| >= 2 then Some(parts[1]) else None
  }

  /** The value of a key line is whatever lies between its first and second `=`. */
  lemma FieldValueBetweenFirstAndSecond(a: string, v: string, rest: string)
    requires '=' !in a && '=' !in v
    requires rest == "" || rest[0] == '='
    ensures FieldValue(a + "=" + v + rest) == Some(v)
  {
    assert a + "=" + v + rest == a + ['='] + (v + rest);
    SplitAtFirst(a, '=', v + rest);
    if rest == "" {
      assert v + rest == v;
      SplitWithoutSeparator(v, '=');
    } else {
      assert v + rest == v + ['='] + rest[1..];
      SplitAtFirst(v, '=', rest[1..]);
    }
  }

  /** One `if raw_str.startswith(key): value = raw_str.split('=')[1]` step. */
  function Assign(current: Option<string>, raw: string, key: string): (r: Result<Option<string>>)
    ensures r.Err? <==> StartsWith(raw, key) && '=' !in raw
    ensures r.Err? ==> r.error == IndexError
    ensures r.Ok? && StartsWith(raw, key) ==> r.value == FieldValue(raw)
    ensures r.Ok? && !StartsWith(raw, key) ==> r.value == current
  {
    if StartsWith(raw, key) then
      var parts := Split(raw, '=');
      if |parts| >= 2 then Ok(Some(parts[1])) else Err(IndexError)
    else Ok(current)
  }

  /** True when the line, once normalised, starts with `key`. */
  predicate IsKeyLine(line: string, key: string) {
    StartsWith(Normalize(line), key)
  }

  /** A line that starts with one of the four keys but has no `=` to split on. */
  predicate Malformed(line: string) {
    && (IsKeyLine(line, SatIdKey) || IsKeyLine(line, BandIdKey)
        || IsKeyLine(line, NumRowsKey) || IsKeyLine(line, NumColumnsKey))
    && '=' !in Normalize(line)
  }

  /** The body of the scanning loop for one line: the four key checks in order. */
  function ScanLine(v: ImdValues, line: string): (r: Result<ImdValues>)
  {
    var raw := Normalize(line);
    var sat :- Assign(v.satId, raw, SatIdKey);
    var band :- Assign(v.bandId, raw, BandIdKey);
    var rows :- Assign(v.numRows, raw, NumRowsKey);
    var cols :- Assign(v.numColumns, raw, NumColumnsKey);
    Ok(ImdValues(sat, band, rows, cols))
  }

  /** Runs the scanning loop over every line, stopping at the first exception. */
  function Scan(lines: seq<string>): (r: Result<ImdValues>)
    ensures r.Err? ==> r.error == IndexError
  {
    if |lines| == 0 then Ok(ImdValues(None, None, None, None))
    else
      var before :- Scan(lines[..|lines| - 1]);
      ScanLine(before, lines[|lines| - 1])
  }

  /**
   Reference definition of what the scan keeps for `key`: the value on the last
   line that starts with the key, or `None` when no line does.
   */
  function LastValue(lines: seq<string>, key: string): Option<string>
  {
    if |lines| == 0 then None
    else if IsKeyLine(lines[|lines| - 1], key) then FieldValue(Normalize(lines[|lines| - 1]))
    else LastValue(lines[..|lines| - 1], key)
  }

  /** One scanned line fails exactly when it is malformed. */
  lemma ScanLineFails(v: ImdValues, line: string)
    ensures ScanLine(v, line).Err? <==> Malformed(line)
  {
  }

  /** A line that scans successfully overwrites exactly the keys it carries. */
  lemma ScanLineStep(v: ImdValues, line: string)
    ensures ScanLine(v, line).Ok? ==> ScanLine(v, line).value == ImdValues(
      if IsKeyLine(line, SatIdKey) then FieldValue(Normalize(line)) else v.satId,
      if IsKeyLine(line, BandIdKey) then FieldValue(Normalize(line)) else v.bandId,
      if IsKeyLine(line, NumRowsKey) then FieldValue(Normalize(line)) else v.numRows,
      if IsKeyLine(line, NumColumnsKey) then FieldValue(Normalize(line)) else v.numColumns)
  {
  }

  /** True when some line satisfies `p`, decided from the last line backwards as the scan is defined. */
  predicate AnyLine(lines: seq<string>, p: string -> bool) {
    |lines| > 0 && (AnyLine(lines[..|lines| - 1], p) || p(lines[|lines| - 1]))
  }

  /** `AnyLine` is the existential it names. */
  lemma {:induction false} AnyLineExists(lines: seq<string>, p: string -> bool)
    ensures AnyLine(lines, p) <==> exists i :: 0 <= i < |lines| && p(lines[i])
  {
    if |lines| > 0 {
      var prefix := lines[..|lines| - 1];
      AnyLineExists(prefix, p);
      if AnyLine(prefix, p) {
        var i :| 0 <= i < |prefix| && p(prefix[i]);
        assert lines[i] == prefix[i];
      } else if !p(lines[|lines| - 1]) {
        forall i | 0 <= i < |lines|
          ensures !p(lines[i])
        {
          if i < |prefix| {
            assert lines[i] == prefix[i];
          }
        }
      }
    }
  }

  /** The scan fails exactly when some line is malformed (the recursive form). */
  lemma {:induction false} ScanFailsOnAnyMalformed(lines: seq<string>)
    ensures Scan(lines).Err? <==> AnyLine(lines, Malformed)
  {
    if |lines| > 0 {
      var prefix := lines[..|lines| - 1];
      ScanFailsOnAnyMalformed(prefix);
      if Scan(prefix).Ok? {
        ScanLineFails(Scan(prefix).value, lines[|lines| - 1]);
      }
    }
  }

  /** The scan fails exactly when some line is malformed. */
  lemma ScanFailsOnMalformed(lines: seq<string>)
    ensures Scan(lines).Err? <==> exists i :: 0 <= i < |lines| && Malformed(lines[i])
  {
    ScanFailsOnAnyMalformed(lines);
    AnyLineExists(lines, Malformed);
  }

  /** A scan that succeeds holds, for every key, the value of the last line carrying it. */
  lemma {:induction false} ScanKeepsLastValues(lines: seq<string>)
    ensures Scan(lines).Ok? ==> Scan(lines).value == ImdValues(
      LastValue(lines, SatIdKey), LastValue(lines, BandIdKey),
      LastValue(lines, NumRowsKey), LastValue(lines, NumColumnsKey))
  {
    if |lines| > 0 && Scan(lines).Ok? {
      var prefix := lines[..|lines| - 1];
      var last := lines[|lines| - 1];
      ScanKeepsLastValues(prefix);
      var v := Scan(prefix).value;
      assert Scan(lines) == ScanLine(v, last);
      ScanLineStep(v, last);
    }
  }

  /** Python truthiness of a value that is a string or `None`: present and non-empty. */
  predicate Present(v: Option<string>) {
    v.Some? && v.value != ""
  }

  /**
   The IMD reader. It fails with IndexError on a key line without `=`, with
   MetaDataError when any of the four values is missing or empty, and otherwise
   returns the last value of each key with its casing untouched.
   */
  function ParseImd(lines: seq<string>): (r: Result<ImdReading>)
    ensures r == Err(IndexError) <==> exists i :: 0 <= i < |lines| && Malformed(lines[i])
    ensures r == Err(MetaDataError) <==>
      && (forall i :: 0 <= i < |lines| ==> !Malformed(lines[i]))
      && !(Present(LastValue(lines, SatIdKey)) && Present(LastValue(lines, BandIdKey))
           && Present(LastValue(lines, NumRowsKey)) && Present(LastValue(lines, NumColumnsKey)))
    ensures r.Err? ==> r.error == IndexError || r.error == MetaDataError
    ensures r.Ok? ==> r.value == ImdReading(
      LastValue(lines, SatIdKey).value + "_" + LastValue(lines, BandIdKey).value,
      LastValue(lines, NumRowsKey).value,
      LastValue(lines, NumColumnsKey).value)
  {
    ScanFailsOnMalformed(lines);
    ScanKeepsLastValues(lines);
    var v :- Scan(lines);
    if !(Present(v.satId) && Present(v.bandId) && Present(v.numRows) && Present(v.numColumns)) then
      Err(MetaDataError)
    else
      Ok(ImdReading(v.satId.value + "_" + v.bandId.value, v.numRows.value, v.numColumns.value))
  }

  /** Well-formed lines whose four keys last carry non-empty values read as those values. */
  lemma ParseImdReadsLastValues(lines: seq<string>, sat: string, band: string, rows: string, cols: string)
    requires forall i :: 0 <= i < |lines| ==> !Malformed(lines[i])
    requires LastValue(lines, SatIdKey) == Some(sat) && sat != ""
    requires LastValue(lines, BandIdKey) == Some(band) && band != ""
    requires LastValue(lines, NumRowsKey) == Some(rows) && rows != ""
    requires LastValue(lines, NumColumnsKey) == Some(cols) && cols != ""
    ensures ParseImd(lines) == Ok(ImdReading(sat + "_" + band, rows, cols))
  {
  }

  /** The last line carrying the key decides its value, whatever the earlier lines held. */
  lemma {:induction false} LastValueAt(lines: seq<string>, key: string, i: nat)
    requires i < |lines| && IsKeyLine(lines[i], key)
    requires forall j :: i < j < |lines| ==> !IsKeyLine(lines[j], key)
    ensures LastValue(lines, key) == FieldValue(Normalize(lines[i]))
    decreases |lines|
  {
    if i < |lines| - 1 {
      var prefix := lines[..|lines| - 1];
      assert prefix[i] == lines[i];
      forall j | i < j < |prefix|
        ensures !IsKeyLine(prefix[j], key)
      {
        assert prefix[j] == lines[j];
      }
      LastValueAt(prefix, key, i);
    }
  }

  /** A key no line carries keeps no value. */
  lemma {:induction false} LastValueNone(lines: seq<string>, key: string)
    requires forall j :: 0 <= j < |lines| ==> !IsKeyLine(lines[j], key)
    ensures LastValue(lines, key) == None
    decreases |lines|
  {
    if |lines| > 0 {
      var prefix := lines[..|lines| - 1];
      forall j | 0 <= j < |prefix|
        ensures !IsKeyLine(prefix[j], key)
      {
        assert prefix[j] == lines[j];
      }
      LastValueNone(prefix, key);
    }
  }

  /** The normalised line `key=value`. */
  function Entry(key: string, value: string): string {
    key + "=" + value
  }

  /** A `key=value` line has an `=`. */
  lemma EntryHasSeparator(key: string, value: string)
    ensures '=' in Entry(key, value)
  {
    assert Entry(key, value)[|key|] == '=';
  }

  /** A line `key=value` with no other `=` starts with the key and carries the value. */
  lemma EntryValue(key: string, value: string)
    requires '=' !in key && '=' !in value
    ensures StartsWith(Entry(key, value), key)
    ensures FieldValue(Entry(key, value)) == Some(value)
  {
    FieldValueBetweenFirstAndSecond(key, value, "");
    assert key + "=" + value + "" == Entry(key, value);
    assert Entry(key, value)[..|key|] == key;
  }

  /** A prefix test fails as soon as one character differs. */
  lemma DiffersAt(s: string, key: string, i: nat)
    requires i < |key| && i < |s| && s[i] != key[i]
    ensures !StartsWith(s, key)
  {
    assert |key| > |s| || s[..|key|][i] != key[i];
  }

  /** Four lines that, once normalised, are `satId=…`, `bandId=…`, `numRows=…` and `numColumns=…` in that order. */
  predicate FourKeyLines(lines: seq<string>, sat: string, band: string, rows: string, cols: string) {
    && |lines| == 4
    && '=' !in sat && '=' !in band && '=' !in rows && '=' !in cols
    && Normalize(lines[0]) == Entry(SatIdKey, sat)
    && Normalize(lines[1]) == Entry(BandIdKey, band)
    && Normalize(lines[2]) == Entry(NumRowsKey, rows)
    && Normalize(lines[3]) == Entry(NumColumnsKey, cols)
  }

  /** The `satId` of four key lines is the first line's value: no later line starts with `satId`. */
  lemma FourKeyLinesSatId(lines: seq<string>, sat: string, band: string, rows: string, cols: string)
    requires FourKeyLines(lines, sat, band, rows, cols)
    ensures LastValue(lines, SatIdKey) == Some(sat)
  {
    EntryValue(SatIdKey, sat);
    DiffersAt(Entry(BandIdKey, band), SatIdKey, 0);
    DiffersAt(Entry(NumRowsKey, rows), SatIdKey, 0);
    DiffersAt(Entry(NumColumnsKey, cols), SatIdKey, 0);
    LastValueAt(lines, SatIdKey, 0);
  }

  /** The `bandId` of four key lines is the second line's value. */
  lemma FourKeyLinesBandId(lines: seq<string>, sat: string, band: string, rows: string, cols: string)
    requires FourKeyLines(lines, sat, band, rows, cols)
    ensures LastValue(lines, BandIdKey) == Some(band)
  {
    EntryValue(BandIdKey, band);
    DiffersAt(Entry(NumRowsKey, rows), BandIdKey, 0);
    DiffersAt(Entry(NumColumnsKey, cols), BandIdKey, 0);
    LastValueAt(lines, BandIdKey, 1);
  }

  /** The row and column counts of four key lines are the last two lines' values. */
  lemma FourKeyLinesSize(lines: seq<string>, sat: string, band: string, rows: string, cols: string)
    requires FourKeyLines(lines, sat, band, rows, cols)
    ensures LastValue(lines, NumRowsKey) == Some(rows)
    ensures LastValue(lines, NumColumnsKey) == Some(cols)
  {
    EntryValue(NumRowsKey, rows);
    EntryValue(NumColumnsKey, cols);
    DiffersAt(Entry(NumColumnsKey, cols), NumRowsKey, 3);
    LastValueAt(lines, NumRowsKey, 2);
    LastValueAt(lines, NumColumnsKey, 3);
  }

  /** Four key lines each have an `=` to split on. */
  lemma FourKeyLinesWellFormed(lines: seq<string>, sat: string, band: string, rows: string, cols: string)
    requires FourKeyLines(lines, sat, band, rows, cols)
    ensures forall i :: 0 <= i < |lines| ==> !Malformed(lines[i])
  {
    forall i | 0 <= i < |lines|
      ensures !Malformed(lines[i])
    {
      if i == 0 {
        EntryHasSeparator(SatIdKey, sat);
      } else if i == 1 {
        EntryHasSeparator(BandIdKey, band);
      } else if i == 2 {
        EntryHasSeparator(NumRowsKey, rows);
      } else {
        EntryHasSeparator(NumColumnsKey, cols);
      }
    }
  }

  /**
   An IMD whose key lines are `satId`, `bandId`, `numRows` and `numColumns`, in
   that order and with non-empty values, reads as `<sat>_<band>` with those
   rows and columns.
   */
  lemma ParseFourKeyLines(lines: seq<string>, sat: string, band: string, rows: string, cols: string)
    requires FourKeyLines(lines, sat, band, rows, cols)
    requires sat != "" && band != "" && rows != "" && cols != ""
    ensures ParseImd(lines) == Ok(ImdReading(sat + "_" + band, rows, cols))
  {
    FourKeyLinesSatId(lines, sat, band, rows, cols);
    FourKeyLinesBandId(lines, sat, band, rows, cols);
    FourKeyLinesSize(lines, sat, band, rows, cols);
    FourKeyLinesWellFormed(lines, sat, band, rows, cols);
    ParseImdReadsLastValues(lines, sat, band, rows, cols);
  }

  /**
   The sample IMD of `EnviHdr`'s tests, whatever whitespace, tab, quote and
   semicolon noise its four key lines carry: it reads as `WV02_Multi`, 7100 rows
   and 8610 columns.
   */
  lemma ParseImdSample(lines: seq<string>)
    requires FourKeyLines(lines, "WV02", "Multi", "7100", "8610")
    ensures ParseImd(lines) == Ok(ImdReading("WV02_Multi", "7100", "8610"))
  {
    assert "WV02" + "_" + "Multi" == "WV02_Multi" by {
      var id := "WV02" + "_" + "Multi";
      assert |id| == 10 && id[4] == '_';
      assert id[..4] == "WV02" && id[5..] == "Multi";
    }
    ParseFourKeyLines(lines, "WV02", "Multi", "7100", "8610");
  }
}
