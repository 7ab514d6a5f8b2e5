/**
 Building and writing one ENVI header: the ordered `field = value` pairs, the
 rule that turns any three-band sensor into a red-green-blue image, and the
 text written to the `.hdr` file.
 */
module Header {
  import opened Errors
  import opened Text
  import opened SensorTables

  /** One `name = value` line of a header. */
  datatype Field = Field(name: string, value: string)

  /** The row and column counts, written as `lines` and `samples`. */
  datatype Dimensions = Dimensions(lines: string, samples: string)

  /** The contents of one header, one slot per field. */
  datatype Header = Header(
    sensorType: string,
    dims: Option<Dimensions>,
    bandCount: nat,             // the number of bands of the sensor profile
    bandNames: seq<string>,
    wavelengths: seq<string>,
    units: string)

  /** The fixed value of the `description` field. */
  const Description: string := "{Creating ENVI hdr file from image data}"

  /** The first line of every header. */
  const Magic: string := "ENVI\n"

  /** A list value: its items joined by comma-space inside braces. */
  function Braced(items: seq<string>): string {
    "{" + Join(items, ", ") + "}"
  }

  /** The field names, in the order a header writes them. */
  function FieldOrder(withDims: bool): seq<string> {
    ["description", "sensor type"]
    + (if withDims then ["lines", "samples"] else [])
    + ["bands", "band names", "wavelength", "wavelength units"]
  }

  /** The names of a field list, in order. */
  function Names(fields: seq<Field>): (names: seq<string>)
    ensures |names| == |fields|
    ensures forall i :: 0 <= i < |fields| ==> names[i] == fields[i].name
  {
    if |fields| == 0 then [] else [fields[0].name] + Names(fields[1..])
  }

  /** The ordered field list of a header: `lines` and `samples` together or not at all. */
  function Fields(h: Header): (fields: seq<Field>)
    ensures Names(fields) == FieldOrder(h.dims.Some?)
    ensures fields[0] == Field("description", Description)
    ensures fields[1] == Field("sensor type", h.sensorType)
    ensures h.dims.Some? ==> fields[2] == Field("lines", h.dims.value.lines)
                             && fields[3] == Field("samples", h.dims.value.samples)
    ensures fields[|fields| - 4] == Field("bands", Decimal(h.bandCount))
    ensures fields[|fields| - 3] == Field("band names", Braced(h.bandNames))
    ensures fields[|fields| - 2] == Field("wavelength", Braced(h.wavelengths))
    ensures fields[|fields| - 1] == Field("wavelength units", h.units)
  {
    var dims := match h.dims
      case Some(d) => [Field("lines", d.lines), Field("samples", d.samples)]
      case None => [];
    var fields := [Field("description", Description), Field("sensor type", h.sensorType)]
      + dims
      + [Field("bands", Decimal(h.bandCount)),
         Field("band names", Braced(h.bandNames)),
         Field("wavelength", Braced(h.wavelengths)),
         Field("wavelength units", h.units)];
    assert Names(fields) == FieldOrder(h.dims.Some?);
    fields
  }

  /**
   The indices of the profile's bands whose name is one of the RGB names, in
   profile order: `[i for i, v in enumerate(names) if v in rgb]`.
   */
  function RgbIndexes(names: seq<string>, rgb: seq<string>): (idx: seq<nat>)
    ensures |idx| <= |names|
    ensures forall k :: 0 <= k < |idx| ==> idx[k] < |names| && names[idx[k]] in rgb
    ensures forall i :: 0 <= i < |names| && names[i] in rgb ==> i in idx
    ensures forall k, l :: 0 <= k < l < |idx| ==> idx[k] < idx[l]
  {
    if |names| == 0 then []
    else
      var n := |names| - 1;
      var before := RgbIndexes(names[..n], rgb);
      assert forall i :: 0 <= i < n ==> names[..n][i] == names[i];
      before + (if names[n] in rgb then [n] else [])
  }

  /** `[centers[i] for i in idx]`, or `None` where an index runs past the list (an IndexError). */
  function Pick(centers: seq<string>, idx: seq<nat>): (r: Option<seq<string>>)
    ensures r.Some? <==> forall k :: 0 <= k < |idx| ==> idx[k] < |centers|
    ensures r.Some? ==> |r.value| == |idx| && forall k :: 0 <= k < |idx| ==> r.value[k] == centers[idx[k]]
  {
    if |idx| == 0 then Some([])
    else if idx[0] >= |centers| then None
    else match Pick(centers, idx[1..])
      case None => None
      case Some(rest) => Some([centers[idx[0]]] + rest)
  }

  /** True when the RGB branch can pick a center for every profile band named in `rgb`. */
  predicate RgbCentersInRange(names: seq<string>, centers: seq<string>, rgb: seq<string>) {
    forall i :: 0 <= i < |names| && names[i] in rgb ==> i < |centers|
  }

  /**
   The header for a sensor id and optional raster size. Band names and centers
   are found under the upper-cased id, the sensor type under the id's family as
   written. A profile of exactly three bands is written as the fixed RGB names
   with the centers of the profile's RGB-named bands, in profile order; any other
   profile is written as its own names and centers.
   */
  function Compose(sensorId: string, rows: Option<string>, cols: Option<string>, t: Tables): (r: Result<Header>)
    ensures ProfileKey(sensorId) !in t.bandNames ==> r == Err(KeyError(ProfileKey(sensorId)))
    ensures ProfileKey(sensorId) in t.bandNames && ProfileKey(sensorId) !in t.bandCenters
            ==> r == Err(KeyError(ProfileKey(sensorId)))
    ensures (ProfileKey(sensorId) in t.bandNames && ProfileKey(sensorId) in t.bandCenters
             && Family(sensorId) !in t.enviSensorTypes) ==> r == Err(KeyError(Family(sensorId)))
    ensures r.Ok? <==>
      && ProfileKey(sensorId) in t.bandNames
      && ProfileKey(sensorId) in t.bandCenters
      && Family(sensorId) in t.enviSensorTypes
      && (|t.bandNames[ProfileKey(sensorId)]| == 3 ==>
            RgbCentersInRange(t.bandNames[ProfileKey(sensorId)], t.bandCenters[ProfileKey(sensorId)], t.rgbBands))
    ensures r.Err? && !r.error.KeyError? ==> r.error == IndexError
    ensures (ProfileKey(sensorId) in t.bandNames && ProfileKey(sensorId) in t.bandCenters
             && Family(sensorId) in t.enviSensorTypes && r.Err?) ==> r == Err(IndexError)
    ensures r.Ok? ==>
      var names := t.bandNames[ProfileKey(sensorId)];
      var centers := t.bandCenters[ProfileKey(sensorId)];
      && r.value.sensorType == t.enviSensorTypes[Family(sensorId)]
      && (r.value.dims.Some? <==> rows.Some? && cols.Some?)
      && (r.value.dims.Some? ==> r.value.dims.value == Dimensions(rows.value, cols.value))
      && r.value.bandCount == |names|
      && r.value.units == t.wavelengthUnits
      && (|names| != 3 ==> r.value.bandNames == names && r.value.wavelengths == centers)
      && (|names| == 3 ==>
            var idx := RgbIndexes(names, t.rgbBands);
            && r.value.bandNames == t.rgbBands
            && |r.value.wavelengths| == |idx|
            && forall k :: 0 <= k < |idx| ==> r.value.wavelengths[k] == centers[idx[k]])
  {
    var names :- Lookup(t.bandNames, ProfileKey(sensorId));
    var centers :- Lookup(t.bandCenters, ProfileKey(sensorId));
    var sensorType :- Lookup(t.enviSensorTypes, Family(sensorId));
    var dims := if rows.Some? && cols.Some? then Some(Dimensions(rows.value, cols.value)) else None;
    DecimalIsThree(|names|);
    if Decimal(|names|) == "3" then
      var idx := RgbIndexes(names, t.rgbBands);
      match Pick(centers, idx)
      case None =>
        Err(IndexError)
      case Some(wavelengths) =>
        Ok(Header(sensorType, dims, |names|, t.rgbBands, wavelengths, t.wavelengthUnits))
    else
      Ok(Header(sensorType, dims, |names|, names, centers, t.wavelengthUnits))
  }

  /** One header line: `name = value` and a newline. */
  function Line(f: Field): string {
    f.name + " = " + f.value + "\n"
  }

  /** The lines of a field list, one after the other. */
  function Lines(fields: seq<Field>): string {
    if |fields| == 0 then "" else Line(fields[0]) + Lines(fields[1..])
  }

  /** The text of a header file: the `ENVI` line, then one line per field in order. */
  function Serialize(fields: seq<Field>): string {
    Magic + Lines(fields)
  }

  /** A field line without its newline: `name = value`. */
  function Body(f: Field): string {
    f.name + " = " + f.value
  }

  /** The line bodies of a field list, in order. */
  function Bodies(fields: seq<Field>): (bodies: seq<string>)
    ensures |bodies| == |fields|
    ensures forall i :: 0 <= i < |fields| ==> bodies[i] == Body(fields[i])
  {
    if |fields| == 0 then [] else [Body(fields[0])] + Bodies(fields[1..])
  }

  /** Reads one `name = value` line, splitting at its first `=`. */
  function ParseLine(line: string): Option<Field> {
    var i := IndexOf(line, '=');
    if 1 <= i && line[i - 1] == ' ' && i + 1 < |line| && line[i + 1] == ' ' then
      Some(Field(line[..i - 1], line[i + 2..]))
    else None
  }

  /** Reads every line as a field, failing if any line does not read. */
  function ParseLines(lines: seq<string>): Option<seq<Field>> {
    if |lines| == 0 then Some([])
    else match (ParseLine(lines[0]), ParseLines(lines[1..]))
      case (Some(f), Some(rest)) => Some([f] + rest)
      case _ => None
  }

  /** Reads header text back into its field list: an `ENVI` line, field lines, a final newline. */
  function ParseHeader(text: string): Option<seq<Field>> {
    var pieces := Split(text, '\n');
    if |pieces| >= 2 && pieces[0] == "ENVI" && pieces[|pieces| - 1] == "" then
      ParseLines(pieces[1..|pieces| - 1])
    else None
  }

  /** Fields that survive a round trip: names without `=` or newline, values without newline. */
  predicate Writable(fields: seq<Field>) {
    forall i :: 0 <= i < |fields| ==>
      '=' !in fields[i].name && '\n' !in fields[i].name && '\n' !in fields[i].value
  }

  /** A field line reads back as the field. */
  lemma ParseBody(f: Field)
    requires '=' !in f.name
    ensures ParseLine(Body(f)) == Some(f)
  {
    var line := Body(f);
    assert line == (f.name + " ") + ['='] + (" " + f.value);
    IndexOfAfter(f.name + " ", '=', " " + f.value);
    assert line[..|f.name|] == f.name;
    assert line[|f.name| + 3..] == f.value;
  }

  /** The line bodies of writable fields read back as the fields. */
  lemma {:induction false} ParseBodies(fields: seq<Field>)
    requires Writable(fields)
    ensures ParseLines(Bodies(fields)) == Some(fields)
  {
    if |fields| > 0 {
      ParseBody(fields[0]);
      assert Writable(fields[1..]) by {
        forall i | 0 <= i < |fields| - 1
          ensures '=' !in fields[1..][i].name && '\n' !in fields[1..][i].name && '\n' !in fields[1..][i].value
        {
          assert fields[1..][i] == fields[i + 1];
        }
      }
      ParseBodies(fields[1..]);
      assert Bodies(fields)[1..] == Bodies(fields[1..]);
      assert [fields[0]] + fields[1..] == fields;
    }
  }

  /** The field lines are the line bodies joined by newlines, with a final newline. */
  lemma {:induction false} LinesAsJoin(fields: seq<Field>)
    ensures Lines(fields) == Join(Bodies(fields) + [""], "\n")
  {
    if |fields| > 0 {
      LinesAsJoin(fields[1..]);
      var parts := Bodies(fields) + [""];
      assert parts[1..] == Bodies(fields[1..]) + [""];
      assert Line(fields[0]) == Body(fields[0]) + "\n";
    }
  }

  /** Reading back written fields gives the fields, as long as no name holds `=` and no text a newline. */
  lemma ParseSerialize(fields: seq<Field>)
    requires Writable(fields)
    ensures ParseHeader(Serialize(fields)) == Some(fields)
  {
    LinesAsJoin(fields);
    var parts := ["ENVI"] + Bodies(fields) + [""];
    assert parts[1..] == Bodies(fields) + [""];
    assert Serialize(fields) == Join(parts, "\n");
    forall i | 0 <= i < |parts|
      ensures '\n' !in parts[i]
    {
      if 0 < i < |parts| - 1 {
        assert parts[i] == Body(fields[i - 1]);
      }
    }
    SplitJoin(parts, '\n');
    assert parts[1..|parts| - 1] == Bodies(fields);
    ParseBodies(fields);
  }

  /** What `write_header_data` leaves in the header file, and the exception it raised, if any. */
  datatype Written = Written(text: string, failure: Option<Error>)

  /**
   Writing a header: the band lookups come before anything is written, the
   `ENVI` line is written before the sensor-type lookup and the RGB selection,
   and the field lines are written only once every value is known.
   */
  function WriteHeaderData(sensorId: string, rows: Option<string>, cols: Option<string>, t: Tables): (w: Written)
    ensures w.failure.None? <==> Compose(sensorId, rows, cols, t).Ok?
    ensures w.failure.Some? ==> w.failure == Some(Compose(sensorId, rows, cols, t).error)
    ensures w.failure.Some? ==>
      (w.text == "" <==> ProfileKey(sensorId) !in t.bandNames || ProfileKey(sensorId) !in t.bandCenters)
    ensures w.failure.Some? && w.text != "" ==> w.text == Magic
    ensures w.failure.None? ==> StartsWith(w.text, Magic)
    ensures w.failure.None? && Writable(Fields(Compose(sensorId, rows, cols, t).value))
            ==> ParseHeader(w.text) == Some(Fields(Compose(sensorId, rows, cols, t).value))
  {
    var key := ProfileKey(sensorId);
    if key !in t.bandNames || key !in t.bandCenters then
      Written("", Some(Compose(sensorId, rows, cols, t).error))
    else
      match Compose(sensorId, rows, cols, t)
      case Err(e) => Written(Magic, Some(e))
      case Ok(h) =>
        assert Writable(Fields(h)) ==> ParseHeader(Serialize(Fields(h))) == Some(Fields(h)) by {
          if Writable(Fields(h)) {
            ParseSerialize(Fields(h));
          }
        }
        Written(Serialize(Fields(h)), None)
  }

  /** `lines` and `samples` are written together or not at all, exactly when the raster size is known. */
  lemma LinesAndSamplesTogether(h: Header)
    ensures "lines" in Names(Fields(h)) <==> h.dims.Some?
    ensures "samples" in Names(Fields(h)) <==> h.dims.Some?
  {
    var names := Names(Fields(h));
    if h.dims.Some? {
      assert names[2] == "lines" && names[3] == "samples";
    } else {
      assert names == ["description", "sensor type", "bands", "band names", "wavelength", "wavelength units"];
    }
  }

  /** A sensor whose family has no ENVI type leaves a header holding only the `ENVI` line. */
  lemma UnknownFamilyLeavesOnlyMagic(sensorId: string, rows: Option<string>, cols: Option<string>, t: Tables)
    requires ProfileKey(sensorId) in t.bandNames && ProfileKey(sensorId) in t.bandCenters
    requires Family(sensorId) !in t.enviSensorTypes
    ensures WriteHeaderData(sensorId, rows, cols, t) == Written(Magic, Some(KeyError(Family(sensorId))))
  {
  }

  /** A three-band profile whose RGB-named band `i` has no center leaves only `ENVI` in the file and raises IndexError. */
  lemma MissingRgbCenterLeavesOnlyMagic(sensorId: string, rows: Option<string>, cols: Option<string>, t: Tables, i: nat)
    requires ProfileKey(sensorId) in t.bandNames && ProfileKey(sensorId) in t.bandCenters
    requires Family(sensorId) in t.enviSensorTypes
    requires |t.bandNames[ProfileKey(sensorId)]| == 3
    requires i < 3 && t.bandNames[ProfileKey(sensorId)][i] in t.rgbBands
    requires |t.bandCenters[ProfileKey(sensorId)]| <= i
    ensures WriteHeaderData(sensorId, rows, cols, t) == Written(Magic, Some(IndexError))
  {
    assert !RgbCentersInRange(t.bandNames[ProfileKey(sensorId)], t.bandCenters[ProfileKey(sensorId)], t.rgbBands);
  }

  /** When the profile already lists exactly the RGB names in RGB order, every wavelength lines up with its name. */
  lemma RgbAlignedWhenProfileInRgbOrder(sensorId: string, rows: Option<string>, cols: Option<string>, t: Tables)
    requires ProfileKey(sensorId) in t.bandNames && ProfileKey(sensorId) in t.bandCenters
    requires Family(sensorId) in t.enviSensorTypes
    requires t.bandNames[ProfileKey(sensorId)] == t.rgbBands && |t.rgbBands| == 3
    requires |t.bandCenters[ProfileKey(sensorId)]| == 3
    ensures Compose(sensorId, rows, cols, t).Ok?
    ensures Compose(sensorId, rows, cols, t).value.bandNames == t.rgbBands
    ensures Compose(sensorId, rows, cols, t).value.wavelengths == t.bandCenters[ProfileKey(sensorId)]
  {
    var names := t.rgbBands;
    RgbIndexesOfAllRgb(names, names);
    PickEverything(t.bandCenters[ProfileKey(sensorId)]);
  }

  /** Picking every index in order gives the whole list back. */
  lemma PickEverything(centers: seq<string>)
    ensures Pick(centers, Range(|centers|)) == Some(centers)
  {
    var idx := Range(|centers|);
    assert forall k :: 0 <= k < |idx| ==> idx[k] < |centers|;
    var picked := Pick(centers, idx).value;
    forall k | 0 <= k < |centers|
      ensures picked[k] == centers[k]
    {
      assert idx[k] == k;
    }
    assert |picked| == |centers|;
    assert picked == centers;
  }

  /** The indices `0, 1, …, n - 1`, in order. */
  function Range(n: nat): (r: seq<nat>)
    ensures |r| == n
    ensures forall k :: 0 <= k < n ==> r[k] == k
  {
    if n == 0 then [] else Range(n - 1) + [n - 1]
  }

  /** When every profile band has an RGB name, the RGB branch picks every index, in order. */
  lemma {:induction false} RgbIndexesOfAllRgb(names: seq<string>, rgb: seq<string>)
    requires forall i :: 0 <= i < |names| ==> names[i] in rgb
    ensures RgbIndexes(names, rgb) == Range(|names|)
  {
    if |names| > 0 {
      var n := |names| - 1;
      var prefix := names[..n];
      assert forall i :: 0 <= i < n ==> prefix[i] == names[i];
      RgbIndexesOfAllRgb(prefix, rgb);
    }
  }

  /**
   The RGB branch keeps the profile's order, not the RGB order: a profile
   listing blue, green, red gets the names red, green, blue written beside the
   centers of blue, green, red, so the first wavelength written under `Red` is
   the blue center.
   */
  lemma RgbWavelengthsKeepProfileOrder(sensorId: string, rows: Option<string>, cols: Option<string>, t: Tables)
    requires ProfileKey(sensorId) in t.bandNames && ProfileKey(sensorId) in t.bandCenters
    requires Family(sensorId) in t.enviSensorTypes
    requires t.rgbBands == ["Red", "Green", "Blue"]
    requires t.bandNames[ProfileKey(sensorId)] == ["Blue", "Green", "Red"]
    requires t.bandCenters[ProfileKey(sensorId)] == ["0.48", "0.55", "0.66"]
    ensures Compose(sensorId, rows, cols, t).Ok?
    ensures Compose(sensorId, rows, cols, t).value.bandNames == ["Red", "Green", "Blue"]
    ensures Compose(sensorId, rows, cols, t).value.wavelengths == ["0.48", "0.55", "0.66"]
  {
    var names := t.bandNames[ProfileKey(sensorId)];
    assert names[0] in t.rgbBands && names[1] in t.rgbBands && names[2] in t.rgbBands;
    RgbIndexesOfAllRgb(names, t.rgbBands);
  }

  /**
   A three-band profile with only two RGB-named bands gets all the RGB names
   but only two wavelengths.
   */
  lemma RgbWavelengthsMayBeFewer(sensorId: string, rows: Option<string>, cols: Option<string>, t: Tables)
    requires ProfileKey(sensorId) in t.bandNames && ProfileKey(sensorId) in t.bandCenters
    requires Family(sensorId) in t.enviSensorTypes
    requires t.rgbBands == ["Red", "Green", "Blue"]
    requires t.bandNames[ProfileKey(sensorId)] == ["Green", "Red", "NIR1"]
    requires t.bandCenters[ProfileKey(sensorId)] == ["0.55", "0.66", "0.83"]
    ensures Compose(sensorId, rows, cols, t).Ok?
    ensures Compose(sensorId, rows, cols, t).value.bandNames == ["Red", "Green", "Blue"]
    ensures Compose(sensorId, rows, cols, t).value.wavelengths == ["0.55", "0.66"]
  {
    var names := t.bandNames[ProfileKey(sensorId)];
    var idx := RgbIndexes(names, t.rgbBands);
    assert names[0] in t.rgbBands && names[1] in t.rgbBands;
    assert names[2] !in t.rgbBands;
    assert idx == [0, 1] by {
      assert 0 in idx && 1 in idx && 2 !in idx;
      var k0 :| 0 <= k0 < |idx| && idx[k0] == 0;
      var k1 :| 0 <= k1 < |idx| && idx[k1] == 1;
      assert k0 < k1;
      assert |idx| == 2;
    }
  }

  /** A profile of any size other than three is written whole, in profile order: eight bands give eight names and eight wavelengths. */
  lemma EightBandProfileWrittenWhole(sensorId: string, rows: Option<string>, cols: Option<string>, t: Tables)
    requires ProfileKey(sensorId) in t.bandNames && ProfileKey(sensorId) in t.bandCenters
    requires Family(sensorId) in t.enviSensorTypes
    requires |t.bandNames[ProfileKey(sensorId)]| == 8
    ensures Compose(sensorId, rows, cols, t).Ok?
    ensures Compose(sensorId, rows, cols, t).value.bandNames == t.bandNames[ProfileKey(sensorId)]
    ensures Compose(sensorId, rows, cols, t).value.wavelengths == t.bandCenters[ProfileKey(sensorId)]
    ensures Fields(Compose(sensorId, rows, cols, t).value)[|Fields(Compose(sensorId, rows, cols, t).value)| - 4]
            == Field("bands", "8")
  {
    assert Decimal(8) == "8";
  }
}
