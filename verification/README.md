# ENVI header generation, modelled in Dafny

This project models the metadata-to-header core of the `envi_hdr` GBDX task (`EnviHdr`).
`EnviHdr` turns the metadata files that come with DigitalGlobe GeoTIFF rasters
into ENVI `.hdr` files. For each raster it reads the sensor id and raster size
from an IMD sidecar, or it takes a sensor id given as an override. It then
looks up the sensor's bands in static tables and writes the header text.

Modules, one per part of `gbdx_envi_hdr/envi_hdr.py`:

- `Errors` (errors.dfy): `Option`, `Result` and the exceptions `EnviHdr` raises or lets escape. These are `MetaDataError`, `KeyError`, `IndexError`, `NotImplementedError`, and the `ValueError` for an empty image port (`NoImageFiles`).
- `Text` (text.dfy): the Python string operations `EnviHdr` uses. These are `str.replace(c, '')`, `split`, `join`, `startswith`, `upper`/`lower` and `str(int)`. It also holds `find`, which only the model's own header reader `ParseHeader` uses, and `rfind`, which stands in for the last-separator search that `os.path.split` and `os.path.splitext` do internally. Split and join are proved to be inverses.
- `SensorTables` (sensor_tables.dfy): the constants `EnviHdr` imports, as a `Tables` parameter. This covers the band names and band centers by upper-cased sensor id, the ENVI sensor type by family, the RGB band names and the wavelength units. It also holds the dictionary lookup and the family prefix (`id.split('_')[0]`).
- `Imd` (imd.dfy): `get_sensor_id_imd` over the file's lines. The model includes line normalisation, the four key checks, the last-match-wins scan and the final truthiness check. It also has a reference definition (`LastValue`) that the scan is proved to match.
- `Header` (header.dfy): `write_header_data` in four parts. `Compose` builds the header contents, including the three-band RGB rule. `Fields` gives the ordered field list. `Serialize` produces the text. `WriteHeaderData` gives what is left in the file when an exception interrupts it. `ParseHeader` is the inverse of `Serialize` when no field name holds `=` and no field holds a newline.
- `Driver` (driver.dfy): the dispatch part of `create_hdr` (sidecar classification by lower-cased extension, override, then IMD, then XML, then `MetaDataError`) and the per-raster isolation loop of `invoke`.

All operations are pure functions of their inputs and the tables. The one
exception is the batch loop (`Invoke` and `EachRaster`), a method whose loop
invariant carries the per-raster isolation property.

Behaviours of the code worth knowing:

- `write_header_data` picks wavelengths for a three-band profile in the profile's order, not in RGB order (envi_hdr.py:193-197). The names written are always the RGB names in RGB order. `Header.RgbWavelengthsKeepProfileOrder` shows a profile where the value written under `Red` is the blue center.
- `split('=')[1]` takes the text between the first and second `=` of a cleaned-up IMD line (envi_hdr.py:146).
- A key that is present with an empty value fails the truthiness check with `MetaDataError`, exactly like a key that is never found (envi_hdr.py:159-160).
- A key line without `=` makes `split('=')[1]` raise `IndexError` (envi_hdr.py:146).
- `lines` and `samples` are written only when both rows and columns are known (envi_hdr.py:187-189).
- Band names and centers are looked up under the upper-cased id, so the tables' keys must be upper-case. The sensor type is looked up under the family of the id as written (envi_hdr.py:171-172, 185).
- `invoke` returns nothing. It logs each raster's exception and sets a fixed success reason whatever failed (envi_hdr.py:66-74).

## Model

| member | source | states |
|---|---|---|
| Text.Split | gbdx_envi_hdr/envi_hdr.py:146 | `split` on one character yields at least one piece and none holds the separator; more than one piece exactly when the separator occurs; the first piece is the text before the first separator |
| Text.JoinSplit | gbdx_envi_hdr/envi_hdr.py:146 | joining the split pieces with the separator gives the line back |
| Text.SplitJoin | gbdx_envi_hdr/envi_hdr.py:185 | splitting pieces joined by a separator they do not contain gives the pieces back |
| Text.Upper | gbdx_envi_hdr/envi_hdr.py:171-172 | `upper()` keeps the length and maps each character to its upper case |
| Text.Lower | gbdx_envi_hdr/envi_hdr.py:92-96 | `lower()` keeps the length and maps each character to its lower case |
| Text.DecimalRoundTrip | gbdx_envi_hdr/envi_hdr.py:191 | `str(len(band_names))` reads back as the band count |
| Imd.Normalize | gbdx_envi_hdr/envi_hdr.py:143-144 | the line with the stripped characters removed; `ChainedReplacesNormalize` proves it equals the five chained `replace` calls and `NormalizeKeeps` says which characters survive |
| Imd.ChainedReplacesNormalize | gbdx_envi_hdr/envi_hdr.py:143-144 | the five chained `replace` calls delete exactly space, tab, newline, semicolon and double quote |
| Imd.NormalizeKeeps | gbdx_envi_hdr/envi_hdr.py:143-145 | every other character survives normalisation, including carriage return and `=` |
| Imd.FieldValueBetweenFirstAndSecond | gbdx_envi_hdr/envi_hdr.py:146 | the extracted value is the segment between the first and the second `=` of the normalised line |
| Imd.FieldValue | gbdx_envi_hdr/envi_hdr.py:146 | `split('=')[1]` exists exactly when the line has an `=`, and the value holds no `=` |
| Imd.Assign | gbdx_envi_hdr/envi_hdr.py:145-156 | a line starting with the key overwrites the value; one with the key but no `=` raises IndexError; any other line leaves the value alone |
| Imd.Scan | gbdx_envi_hdr/envi_hdr.py:141-156 | the scanning loop; only IndexError escapes it; `ScanFailsOnMalformed` says when it raises and `ScanKeepsLastValues` what it keeps |
| Imd.ScanLineFails | gbdx_envi_hdr/envi_hdr.py:141-156 | one line makes the loop raise exactly when it starts with a key and has no `=` |
| Imd.ScanFailsOnMalformed | gbdx_envi_hdr/envi_hdr.py:141-156 | the scan raises exactly when some line is a key line without `=` |
| Imd.ScanKeepsLastValues | gbdx_envi_hdr/envi_hdr.py:141-156 | after a clean scan each key holds the value of the last line that starts with it (later lines overwrite earlier ones) |
| Imd.ParseImd | gbdx_envi_hdr/envi_hdr.py:127-162 | IndexError exactly on a malformed key line; MetaDataError exactly when one of the four values is absent or empty; otherwise (`satId_bandId`, rows, cols) with casing kept |
| Imd.ParseImdReadsLastValues | gbdx_envi_hdr/envi_hdr.py:159-162 | well-formed lines whose keys last carry non-empty values read as exactly those values |
| Imd.LastValueAt | gbdx_envi_hdr/envi_hdr.py:141-156 | the value kept for a key is the one on the last line starting with it, whatever earlier lines held |
| Imd.LastValueNone | gbdx_envi_hdr/envi_hdr.py:134-137 | a key that no line starts with keeps its initial `None` |
| Imd.ParseFourKeyLines | gbdx_envi_hdr/envi_hdr.py:127-162 | a file whose normalised lines are `satId=…`, `bandId=…`, `numRows=…`, `numColumns=…` with non-empty values reads as `<sat>_<band>`, rows, cols |
| Imd.ParseImdSample | gbdx_envi_hdr/test.py:43-54 | the four sample IMD lines, with any whitespace, tab, quote or semicolon noise, read as `WV02_Multi`, `7100`, `8610` |
| SensorTables.Lookup | gbdx_envi_hdr/envi_hdr.py:171-172 | a table lookup succeeds exactly for a present key and fails with a KeyError naming it |
| SensorTables.Family | gbdx_envi_hdr/envi_hdr.py:185 | the family is the prefix of the id before its first underscore (the whole id if there is none) |
| Header.Fields | gbdx_envi_hdr/envi_hdr.py:180-202 | the field order is description, sensor type, [lines, samples], bands, band names, wavelength, wavelength units, with the listed values |
| Header.LinesAndSamplesTogether | gbdx_envi_hdr/envi_hdr.py:187-189 | `lines` and `samples` are both present or both absent, exactly when the raster size is known |
| Header.RgbIndexes | gbdx_envi_hdr/envi_hdr.py:194 | the selected indices are exactly the profile positions whose name is an RGB name, increasing |
| Header.Pick | gbdx_envi_hdr/envi_hdr.py:195 | the picked centers are the centers at the selected indices, in order; an index past the list raises IndexError |
| Header.Compose | gbdx_envi_hdr/envi_hdr.py:168-202 | which KeyError or IndexError is raised and when (after all three lookups succeed, the only failure is the IndexError of an RGB-named band past the centers list); sensor type by family as written; bands by upper-cased id; size only with both rows and cols; three bands give the RGB names with the profile-order centers of RGB-named bands; any other count gives the whole profile |
| Header.MissingRgbCenterLeavesOnlyMagic | gbdx_envi_hdr/envi_hdr.py:178-195 | a three-band profile with an RGB-named band past the centers list leaves only `ENVI\n` in the file and raises IndexError |
| Header.RgbIndexesOfAllRgb | gbdx_envi_hdr/envi_hdr.py:194 | when every profile band has an RGB name, every index is selected, in order |
| Header.RgbAlignedWhenProfileInRgbOrder | gbdx_envi_hdr/envi_hdr.py:193-197 | a profile that lists the RGB names in RGB order gets its own centers, aligned with the names |
| Header.RgbWavelengthsKeepProfileOrder | gbdx_envi_hdr/envi_hdr.py:193-197 | a blue-green-red profile is written with names red, green, blue beside centers in blue, green, red order |
| Header.RgbWavelengthsMayBeFewer | gbdx_envi_hdr/envi_hdr.py:193-197 | a three-band profile with two RGB-named bands gets all three RGB names but only two wavelengths |
| Header.EightBandProfileWrittenWhole | gbdx_envi_hdr/test.py:122-135 | an eight-band profile is written with `bands = 8` and all its names and centers in profile order |
| Text.DecimalIsThree | gbdx_envi_hdr/envi_hdr.py:191-193 | the `bands` text equals `"3"` exactly when the profile has three bands |
| Header.Serialize | gbdx_envi_hdr/envi_hdr.py:204-206 | the `ENVI` line (written first, at line 178) followed by one `name = value` line per field in order; `ParseSerialize` reads it back as the fields |
| Header.ParseSerialize | gbdx_envi_hdr/envi_hdr.py:204-206 | the written text (`ENVI` line, then `name = value` lines) reads back as the field list, when no field name holds `=` and no field holds a newline |
| Header.WriteHeaderData | gbdx_envi_hdr/envi_hdr.py:168-209 | a failed band lookup leaves the file empty; a later failure leaves only `ENVI\n`; success writes the text that reads back as the composed fields when no field name holds `=` and no field holds a newline |
| Header.UnknownFamilyLeavesOnlyMagic | gbdx_envi_hdr/envi_hdr.py:178-185 | an unknown family, after the band lookups succeed, leaves only `ENVI\n` and raises KeyError on the family |
| Driver.SplitExt | gbdx_envi_hdr/envi_hdr.py:92 | `os.path.splitext`, also used for the header name at line 79: the two parts rebuild the path; `ExtensionOfDottedName` says where a dotted name splits |
| Driver.Extension | gbdx_envi_hdr/envi_hdr.py:92-96 | the extension is empty or one dot followed by no other dot |
| Driver.ExtensionOfDottedName | gbdx_envi_hdr/envi_hdr.py:92-96 | `splitext` of `<stem>.<ext>` gives back the stem and `.<ext>` whenever the stem's last component holds a character other than a dot (`a..imd` splits as `a.` and `.imd`) |
| Driver.AnyCaseImdIsImd | gbdx_envi_hdr/envi_hdr.py:92-96 | a sidecar whose extension lower-cases to `.imd` (`.IMD`, `.Imd`, …) is taken as the IMD and never as the XML |
| Driver.LastWhere | gbdx_envi_hdr/envi_hdr.py:90-98 | the kept sidecar is the last one of its kind, and none is kept when there is none of that kind |
| Driver.HdrFileName | gbdx_envi_hdr/envi_hdr.py:78-79 | the header name ends in `.hdr` and holds no directory |
| Driver.HdrFileNameOf | gbdx_envi_hdr/envi_hdr.py:78-79 | the header of a raster `<dir><stem>.<ext>` is named `<stem>.hdr`: directory and extension dropped, stem kept whole |
| Driver.CreateHdr | gbdx_envi_hdr/envi_hdr.py:76-125 | handling of one raster; its dispatch is stated by `CreateHdrDispatch`, and `OverrideIgnoresSidecars` and `Invoke` rely on it |
| Driver.CreateHdrDispatch | gbdx_envi_hdr/envi_hdr.py:76-125 | an override is used with no size; otherwise the last IMD decides and XML is ignored; XML alone raises NotImplementedError; neither raises MetaDataError with an empty header |
| Driver.OverrideIgnoresSidecars | gbdx_envi_hdr/envi_hdr.py:111-125 | with an override, the sidecars have no effect on the outcome |
| Driver.OverrideWritesNoSize | gbdx_envi_hdr/envi_hdr.py:124-125 | a header written from an override has neither `lines` nor `samples` |
| Driver.Invoke | gbdx_envi_hdr/envi_hdr.py:55-74 | no raster is fatal (ValueError); otherwise every raster is attempted and each outcome is the one that raster has alone |
| Driver.EachRaster | gbdx_envi_hdr/envi_hdr.py:62-72 | the loop yields one outcome per raster, in order, each computed from that raster only |

## Left out

- Logging: the logger setup and every logger call are side effects only.
- Filesystem work: creating directories (including the "file exists" check on the output port), glob discovery of `.tif`/`.TIF` rasters and their sidecars, copying sidecars, and opening and closing files are left out. Rasters arrive as a sequence with their sidecars already listed. Lines already read from the IMD arrive as `seq<string>`.
- The output sub-directory path computed for each raster is path glue and is not modelled.
- Header files are not closed on the error paths. Python may flush `ENVI\n` only when the file object is collected. The model records the text as written.
- The GBDX runner interface (input and output ports, the `sensor_id` string port) and the `__main__` entry point belong to a framework that is not part of this model. The override reaches the model as an `Option<string>`.
- `get_sensor_id_xml` is a stub in the source. It is modelled only as the NotImplementedError outcome.
- The constants module is not part of this model. Its tables are the `Tables` parameter.
- Band centers are floats that the source renders with `str()`. They appear here as already-rendered strings, because float formatting is not modelled.
- Text.Upper: models only ASCII upper-casing. Python 2's `str.upper()` works byte by byte and depends on the locale for non-ASCII bytes; that is not modelled.
- Text.Lower: models only the ASCII part of `str.lower()`. For the comparison with `.imd` and `.xml` this is exact for byte-string (`str`) paths. A path that reaches `create_hdr` as `unicode` is lower-cased by `unicode.lower()`, which maps `İ` (U+0130) to `i`, so the code classes `a.İMD` as the IMD; the model does not.
- The workflow submission example script has no logic to model.
