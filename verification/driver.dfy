/**
 The batch side of `EnviHdr`: picking each raster's metadata sidecar, choosing
 between the sensor-id override, the IMD reader and the XML stub, and running
 every raster of the image port on its own.
 */
module Driver {
  import opened Errors
  import opened Text
  import opened SensorTables
  import opened Imd
  import opened Header

  /** A file found next to a raster: its path and, for an IMD, its lines. */
  datatype SidecarFile = SidecarFile(path: string, lines: seq<string>)

  /** A raster file and every file `<stem>.*` beside it, in discovery order (the raster itself may be among them). */
  datatype Raster = Raster(path: string, sidecars: seq<SidecarFile>)

  /** What processing one raster leaves behind: the header file's name and contents, and any exception. */
  datatype Outcome = Outcome(hdrName: string, written: Written)

  /** True when every character of `s` is a dot. */
  predicate AllDots(s: string) {
    forall i :: 0 <= i < |s| ==> s[i] == '.'
  }

  /**
   `os.path.splitext(path)`: the extension runs from the last dot of the final
   path component, unless only dots precede it in that component.
   */
  function SplitExt(path: string): (parts: (string, string))
    ensures parts.0 + parts.1 == path
  {
    var sep := LastIndexOf(path, '/');
    var dot := LastIndexOf(path, '.');
    if dot > sep && !AllDots(path[sep + 1..dot]) then
      (path[..dot], path[dot..])
    else (path, "")
  }

  /** The extension part of `os.path.splitext(path)`: empty, or a dot followed by no other dot. */
  function Extension(path: string): (ext: string)
    ensures ext == "" || (ext[0] == '.' && '.' !in ext[1..])
  {
    var dot := LastIndexOf(path, '.');
    var ext := SplitExt(path).1;
    assert ext != "" ==> ext[0] == '.' && ext[1..] == path[dot + 1..] by {
      if ext != "" {
        assert ext == path[dot..];
      }
    }
    ext
  }

  /** `os.path.split(path)[1]`: the text after the last slash. */
  function BaseName(path: string): (name: string)
    ensures '/' !in name
    ensures |name| <= |path| && path[|path| - |name|..] == name
  {
    path[LastIndexOf(path, '/') + 1..]
  }

  /** The header's file name: the raster's file name with its extension replaced by `.hdr`. */
  function HdrFileName(imgPath: string): (name: string)
    ensures |name| >= 4 && name[|name| - 4..] == ".hdr"
    ensures '/' !in name
  {
    var base := BaseName(imgPath);
    var stem := SplitExt(base).0;
    assert forall i :: 0 <= i < |stem| ==> stem[i] == base[i] by {
      assert stem + SplitExt(base).1 == base;
    }
    stem + ".hdr"
  }

  /** True when the file's extension, lower-cased, is `ext`. */
  predicate HasExt(f: SidecarFile, ext: string) {
    Lower(Extension(f.path)) == ext
  }

  /** A sidecar whose lower-cased extension is `.imd`. */
  predicate IsImd(f: SidecarFile) {
    HasExt(f, ".imd")
  }

  /** A sidecar whose lower-cased extension is `.xml`. */
  predicate IsXml(f: SidecarFile) {
    HasExt(f, ".xml")
  }

  /** The last file satisfying `p`: the one a loop that overwrites on every match keeps. */
  function LastWhere(files: seq<SidecarFile>, p: SidecarFile -> bool): (r: Option<SidecarFile>)
    ensures r.None? <==> forall i :: 0 <= i < |files| ==> !p(files[i])
    ensures r.Some? ==> exists i :: 0 <= i < |files| && files[i] == r.value && p(files[i])
                                    && forall j :: i < j < |files| ==> !p(files[j])
  {
    if |files| == 0 then None
    else
      var n := |files| - 1;
      if p(files[n]) then Some(files[n])
      else
        var r := LastWhere(files[..n], p);
        assert forall i :: 0 <= i < n ==> files[..n][i] == files[i];
        r
  }

  /**
   One raster: an override id is used as is with no raster size; otherwise the
   last IMD sidecar is read, then an XML sidecar is tried (and is not
   supported), and with neither the raster fails with MetaDataError. A failure
   before writing starts leaves the header file empty.
   */
  function CreateHdr(img: Raster, sensorOverride: Option<string>, t: Tables): Outcome
  {
    var name := HdrFileName(img.path);
    match sensorOverride
    case Some(id) =>
      Outcome(name, WriteHeaderData(id, None, None, t))
    case None =>
      match LastWhere(img.sidecars, IsImd)
      case Some(imd) =>
        (match ParseImd(imd.lines)
         case Ok(rd) => Outcome(name, WriteHeaderData(rd.sensorId, Some(rd.rows), Some(rd.cols), t))
         case Err(e) => Outcome(name, Written("", Some(e))))
      case None =>
        if LastWhere(img.sidecars, IsXml).Some? then Outcome(name, Written("", Some(NotImplementedError)))
        else Outcome(name, Written("", Some(MetaDataError)))
  }

  /**
   How one raster is handled: the header is named after the raster; an override
   wins over any sidecar and carries no size; otherwise the last IMD decides
   and an XML sidecar is ignored; an XML sidecar alone is not supported; with
   neither, the raster fails with MetaDataError and an empty header.
   */
  lemma CreateHdrDispatch(img: Raster, sensorOverride: Option<string>, t: Tables)
    ensures CreateHdr(img, sensorOverride, t).hdrName == HdrFileName(img.path)
    ensures sensorOverride.Some? ==>
      CreateHdr(img, sensorOverride, t).written == WriteHeaderData(sensorOverride.value, None, None, t)
    ensures sensorOverride.None? && (exists i :: 0 <= i < |img.sidecars| && IsImd(img.sidecars[i])) ==>
      var imd := LastWhere(img.sidecars, IsImd).value;
      match ParseImd(imd.lines)
      case Ok(rd) => CreateHdr(img, sensorOverride, t).written == WriteHeaderData(rd.sensorId, Some(rd.rows), Some(rd.cols), t)
      case Err(e) => CreateHdr(img, sensorOverride, t).written == Written("", Some(e))
    ensures sensorOverride.None? && (forall i :: 0 <= i < |img.sidecars| ==> !IsImd(img.sidecars[i]))
            && (exists i :: 0 <= i < |img.sidecars| && IsXml(img.sidecars[i]))
            ==> CreateHdr(img, sensorOverride, t).written == Written("", Some(NotImplementedError))
    ensures sensorOverride.None? && (forall i :: 0 <= i < |img.sidecars| ==> !IsImd(img.sidecars[i]))
            && (forall i :: 0 <= i < |img.sidecars| ==> !IsXml(img.sidecars[i]))
            ==> CreateHdr(img, sensorOverride, t).written == Written("", Some(MetaDataError))
  {
    if sensorOverride.None? {
      var imd := LastWhere(img.sidecars, IsImd);
      if imd.None? {
        var xml := LastWhere(img.sidecars, IsXml);
        assert xml.Some? <==> exists i :: 0 <= i < |img.sidecars| && IsXml(img.sidecars[i]);
      }
    }
  }

  /**
   The batch: no raster at all is fatal; otherwise every raster is processed,
   and each one's outcome is the one it would have alone, whatever the others do.
   */
  method Invoke(images: seq<Raster>, sensorOverride: Option<string>, t: Tables) returns (r: Result<seq<Outcome>>)
    ensures r.Err? <==> |images| == 0
    ensures r.Err? ==> r.error == NoImageFiles
    ensures r.Ok? ==> |r.value| == |images|
    ensures r.Ok? ==> forall i :: 0 <= i < |images| ==> r.value[i] == CreateHdr(images[i], sensorOverride, t)
  {
    if |images| == 0 {
      return Err(NoImageFiles);
    }
    var outcomes := EachRaster(images, img => CreateHdr(img, sensorOverride, t));
    return Ok(outcomes);
  }

  /**
   The loop over the rasters: each raster is handled on its own, inside its own
   exception guard, so one raster's failure reaches no other.
   */
  method EachRaster(images: seq<Raster>, handle: Raster -> Outcome) returns (outcomes: seq<Outcome>)
    ensures |outcomes| == |images|
    ensures forall i :: 0 <= i < |images| ==> outcomes[i] == handle(images[i])
  {
    outcomes := [];
    var k := 0;
    while k < |images|
      invariant 0 <= k <= |images|
      invariant |outcomes| == k
      invariant forall i :: 0 <= i < k ==> outcomes[i] == handle(images[i])
    {
      outcomes := outcomes + [handle(images[k])];
      k := k + 1;
    }
  }

  /** With an override, the sidecars make no difference at all. */
  lemma OverrideIgnoresSidecars(img: Raster, other: seq<SidecarFile>, id: string, t: Tables)
    ensures CreateHdr(img, Some(id), t) == CreateHdr(Raster(img.path, other), Some(id), t)
  {
  }

  /** An override header that is written has neither `lines` nor `samples`. */
  lemma OverrideWritesNoSize(img: Raster, id: string, t: Tables)
    ensures CreateHdr(img, Some(id), t).written.failure.None? ==>
      && Compose(id, None, None, t).Ok?
      && "lines" !in Names(Fields(Compose(id, None, None, t).value))
      && "samples" !in Names(Fields(Compose(id, None, None, t).value))
  {
    if Compose(id, None, None, t).Ok? {
      LinesAndSamplesTogether(Compose(id, None, None, t).value);
    }
  }

  /** True when the last path component of `stem` holds a character other than a dot. */
  predicate HasPlainChar(stem: string) {
    exists i :: 0 <= i < |stem| && stem[i] != '.' && '/' !in stem[i..]
  }

  /**
   A file name `<stem>.<ext>` has extension `.<ext>` whenever the stem's last
   path component holds a character other than a dot (`a..imd` splits as
   `a.` and `.imd`); a component of dots alone has no extension.
   */
  lemma ExtensionOfDottedName(stem: string, ext: string)
    requires HasPlainChar(stem)
    requires '.' !in ext && '/' !in ext
    ensures SplitExt(stem + "." + ext) == (stem, "." + ext)
  {
    var i :| 0 <= i < |stem| && stem[i] != '.' && '/' !in stem[i..];
    SplitExtAfterPlainChar(stem, ext, i);
  }

  /** `ExtensionOfDottedName`, given the position of a character other than a dot in the stem's last component. */
  lemma SplitExtAfterPlainChar(stem: string, ext: string, i: nat)
    requires i < |stem| && stem[i] != '.' && '/' !in stem[i..]
    requires '.' !in ext && '/' !in ext
    ensures SplitExt(stem + "." + ext) == (stem, "." + ext)
  {
    var path := stem + "." + ext;
    var dot := LastIndexOf(path, '.');
    var sep := LastIndexOf(path, '/');
    assert dot == |stem| by {
      assert path == (stem + ".") + ext;
      LastIndexOfPrefix(stem + ".", ext, '.');
    }
    assert sep < i by {
      assert path == (stem + ".") + ext;
      LastIndexOfPrefix(stem + ".", ext, '/');
      LastIndexOfPrefix(stem, ".", '/');
      LastSlashBefore(stem, i);
    }
    assert !AllDots(path[sep + 1..dot]) by {
      assert path[sep + 1..dot][i - sep - 1] == stem[i];
    }
    assert path[..dot] == stem;
    assert path[dot..] == "." + ext;
  }

  /** A slash-free tail of the text puts its last slash, if any, before the tail. */
  lemma LastSlashBefore(s: string, i: nat)
    requires i <= |s| && '/' !in s[i..]
    ensures LastIndexOf(s, '/') < i
  {
  }

  /**
   The header of a raster `<dir><stem>.<ext>` is `<stem>.hdr`: the directory
   and the extension are dropped and the stem is kept whole.
   */
  lemma HdrFileNameOf(dir: string, stem: string, ext: string)
    requires dir == "" || dir[|dir| - 1] == '/'
    requires '/' !in stem && HasPlainChar(stem)
    requires '.' !in ext && '/' !in ext
    ensures HdrFileName(dir + stem + "." + ext) == stem + ".hdr"
  {
    var name := stem + "." + ext;
    assert '/' !in name;
    assert dir + stem + "." + ext == dir + name;
    LastIndexOfPrefix(dir, name, '/');
    assert BaseName(dir + name) == name;
    ExtensionOfDottedName(stem, ext);
  }

  /**
   A sidecar `<stem>.<ext>` whose extension lower-cases to `.imd` is found as
   the IMD and never as the XML, whatever its case (`.IMD`, `.Imd`, …): the
   extension is compared lower-cased.
   */
  lemma AnyCaseImdIsImd(stem: string, ext: string, lines: seq<string>)
    requires HasPlainChar(stem)
    requires '.' !in ext && '/' !in ext
    requires Lower("." + ext) == ".imd"
    ensures IsImd(SidecarFile(stem + "." + ext, lines))
    ensures !IsXml(SidecarFile(stem + "." + ext, lines))
  {
    ExtensionOfDottedName(stem, ext);
    assert ".imd"[1] != ".xml"[1];
  }
}
