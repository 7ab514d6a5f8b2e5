/**
 The static sensor tables `EnviHdr` reads. Their contents are a fixed,
 hand-maintained list of DigitalGlobe sensor configurations kept outside the
 `EnviHdr` code, so the model takes them as a parameter.
 */
module SensorTables {
  import opened Errors
  import opened Text

  /** One value for every constant `EnviHdr` imports. */
  datatype Tables = Tables(
    bandNames: map<string, seq<string>>,   // upper-case sensor id -> band names, in profile order
    bandCenters: map<string, seq<string>>, // upper-case sensor id -> weighted band centers, already rendered by str()
    enviSensorTypes: map<string, string>,  // satellite family, as written -> ENVI sensor type
    rgbBands: seq<string>,                 // the fixed red, green, blue band names
    wavelengthUnits: string)               // the wavelength units written into every header

  /** Python's `m[k]`: the entry, or a KeyError naming the key. */
  function Lookup<V>(m: map<string, V>, k: string): (r: Result<V>)
    ensures r.Ok? <==> k in m
    ensures r.Ok? ==> r.value == m[k]
    ensures r.Err? ==> r.error == KeyError(k)
  {
    if k in m then Ok(m[k]) else Err(KeyError(k))
  }

  /** The key of the band tables: the sensor id upper-cased. */
  function ProfileKey(sensorId: string): string {
    Upper(sensorId)
  }

  /** The satellite family of a sensor id, `sensorId.split('_')[0]`: everything before the first underscore. */
  function Family(sensorId: string): (f: string)
    ensures '_' !in f
    ensures StartsWith(sensorId, f)
    ensures |f| < |sensorId| ==> sensorId[|f|] == '_'
  {
    Split(sensorId, '_')[0]
  }
}
