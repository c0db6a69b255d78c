/** The location publisher (`LocationPublisher`): throttling by the update
    interval, the choice of output, the record a location is written as,
    and the two ways of writing the output file. The file system is a map
    from paths to what each file holds; the clock, a failing file
    operation and a raising callback are inputs. */
module Publisher {
  import opened Values
  import Nmea

  // ---------------------------------------------------------------------
  // What is published

  /** What `publish` is given: a dictionary, or a location object. */
  datatype Location = Record(fields: map<string, Value>) | Fix(data: Nmea.LocationData)

  /** The dictionary written for a location: a dictionary as it is, an
      object as the eight attributes of a fix. */
  function Serialise(location: Location): (d: map<string, Value>)
    ensures location.Record? ==> d == location.fields
    ensures location.Fix? ==> d.Keys == {"timestamp", "latitude", "longitude", "altitude",
                                         "quality", "satellites", "hdop", "raw_nmea"}
  {
    match location
    case Record(fields) => fields
    case Fix(l) =>
      map["timestamp" := Float(l.timestamp), "latitude" := Float(l.latitude),
          "longitude" := Float(l.longitude), "altitude" := Float(l.altitude),
          "quality" := Int(l.quality), "satellites" := Int(l.satellites),
          "hdop" := Float(l.hdop), "raw_nmea" := Str(l.rawNmea)]
  }

  /** The fix a serialised record describes, read back attribute by
      attribute; None when a field is missing or of another type. */
  function FixOf(d: map<string, Value>): Option<Nmea.LocationData> {
    if "timestamp" in d && d["timestamp"].Float? && "latitude" in d && d["latitude"].Float?
       && "longitude" in d && d["longitude"].Float? && "altitude" in d && d["altitude"].Float?
       && "quality" in d && d["quality"].Int? && "satellites" in d && d["satellites"].Int?
       && "hdop" in d && d["hdop"].Float? && "raw_nmea" in d && d["raw_nmea"].Str?
    then Some(Nmea.LocationData(d["timestamp"].r, d["latitude"].r, d["longitude"].r, d["altitude"].r,
                                d["quality"].i, d["satellites"].i, d["hdop"].r, d["raw_nmea"].s))
    else None
  }

  /** The record of a fix describes exactly that fix. */
  lemma {:induction false} SerialiseFix(l: Nmea.LocationData)
    ensures FixOf(Serialise(Fix(l))) == Some(l)
  {
  }

  /** `json.dumps` succeeds: nothing in the value is a callable (the kind
      of value it rejects with `TypeError`). */
  predicate Serialisable(v: Value) {
    match v
    case Callable(_) => false
    case List(items) => forall i :: 0 <= i < |items| ==> Serialisable(items[i])
    case Dict(entries) => forall k :: k in entries ==> Serialisable(entries[k])
    case _ => true
  }

  /** The record of a fix can always be written. */
  lemma {:induction false} FixSerialisable(l: Nmea.LocationData)
    ensures Serialisable(Dict(Serialise(Fix(l))))
  {
  }

  // ---------------------------------------------------------------------
  // The file system

  /** What a file holds: the JSON document of a value, or text cut short
      by a failed write. */
  datatype Content = Json(document: Value) | Incomplete

  /** Which step of a file write fails, if any: opening (or creating) the
      file, writing and syncing the data, or the rename. */
  datatype Fault = NoFault | OpenFails | WriteFails | RenameFails

  /** The files, by path. */
  class FileSystem {
    var files: map<string, Content>

    constructor (files: map<string, Content>)
      ensures this.files == files
    {
      this.files := files;
    }
  }

  /** The temporary file of an atomic write. */
  function TempPath(path: string): (t: string)
    ensures t != path
  {
    path + ".tmp"
  }

  /** The files after `_atomic_write`: the temporary file is gone either
      way, and the target holds the document only when no step failed. */
  function AtomicFiles(files: map<string, Content>, path: string, doc: Value, fault: Fault): map<string, Content> {
    if fault == NoFault then (files - {TempPath(path)})[path := Json(doc)]
    else files - {TempPath(path)}
  }

  /** An atomic write is all or nothing: the target holds the new document
      or what it held before, never a partial one; no temporary file is
      left; and no other file changes. */
  lemma {:induction false} AtomicAllOrNothing(files: map<string, Content>, path: string, doc: Value, fault: Fault)
    ensures var after := AtomicFiles(files, path, doc, fault);
            (fault == NoFault ==> path in after && after[path] == Json(doc))
            && (fault != NoFault ==> (path in after <==> path in files) && (path in files ==> after[path] == files[path]))
            && TempPath(path) !in after
            && forall k :: k != path && k != TempPath(path) ==>
                 (k in after <==> k in files) && (k in files ==> after[k] == files[k])
  {
  }

  /** The files after `_direct_write`: opened with mode `w`, the file is
      emptied, so a failed write leaves it incomplete; an open that fails
      changes nothing. */
  function DirectFiles(files: map<string, Content>, path: string, doc: Value, fault: Fault): map<string, Content> {
    match fault
    case OpenFails => files
    case WriteFails => files[path := Incomplete]
    case _ => files[path := Json(doc)]
  }

  /** A direct write that succeeds replaces the whole file and nothing
      else; one that fails may leave the file incomplete, which the atomic
      write never does. */
  lemma {:induction false} DirectReplaces(files: map<string, Content>, path: string, doc: Value, fault: Fault)
    ensures DirectSucceeds(fault) ==> DirectFiles(files, path, doc, fault) == files[path := Json(doc)]
    ensures fault == WriteFails ==> DirectFiles(files, path, doc, fault)[path] == Incomplete
    ensures forall k :: k != path ==> (k in DirectFiles(files, path, doc, fault) <==> k in files)
    ensures forall k :: k != path && k in files ==> DirectFiles(files, path, doc, fault)[k] == files[k]
  {
  }

  /** A direct write fails only at the open or the write; it renames
      nothing. */
  predicate DirectSucceeds(fault: Fault) {
    fault != OpenFails && fault != WriteFails
  }

  // ---------------------------------------------------------------------
  // Configuration-derived settings

  /** `config.get('file_path', '/tmp/gnss_location.json')`; None when it is
      not a path (opening it raises). */
  function FilePath(config: map<string, Value>): Option<string> {
    match GetOr(config, "file_path", Str("/tmp/gnss_location.json"))
    case Str(p) => Some(p)
    case _ => None
  }

  /** The number a configuration value compares as; None where `<` raises. */
  function Number(v: Value): Option<real> {
    match v
    case Int(i) => Some(i as real)
    case Float(r) => Some(r)
    case Bool(b) => Some(if b then 1.0 else 0.0)
    case _ => None
  }

  /** The result of `_publish_to_file` and the files after it. */
  function FileOutcome(config: map<string, Value>, location: Location, files: map<string, Content>, fault: Fault)
    : (bool, map<string, Content>)
  {
    var doc := Dict(Serialise(location));
    match FilePath(config)
    case None => (false, files)
    case Some(path) =>
      if !Serialisable(doc) then (false, files)
      else if Truthy(GetOr(config, "atomic_write", Bool(true))) then
        (fault == NoFault, AtomicFiles(files, path, doc, fault))
      else (DirectSucceeds(fault), DirectFiles(files, path, doc, fault))
  }

  /** What publishing to a file promises: on success the file holds the
      record of the location (a dictionary unchanged), and an atomic write
      that got as far as writing leaves no temporary file. */
  lemma {:induction false} FilePublished(config: map<string, Value>, location: Location, files: map<string, Content>, fault: Fault,
                      path: string)
    requires FilePath(config) == Some(path)
    ensures FileOutcome(config, location, files, fault).0 ==>
              path in FileOutcome(config, location, files, fault).1
              && FileOutcome(config, location, files, fault).1[path] == Json(Dict(Serialise(location)))
    ensures location.Record? && FileOutcome(config, location, files, fault).0 ==>
              FileOutcome(config, location, files, fault).1[path] == Json(Dict(location.fields))
    ensures Truthy(GetOr(config, "atomic_write", Bool(true))) && Serialisable(Dict(Serialise(location))) ==>
              TempPath(path) !in FileOutcome(config, location, files, fault).1
  {
  }

  /** `callback and callable(callback)` */
  predicate HasCallback(config: map<string, Value>) {
    Get(config, "callback").Callable?
  }

  // ---------------------------------------------------------------------
  // The publisher object

  /** `LocationPublisher`: its configuration, its output type and update
      interval, when it last published, and the locations its callback
      was given. */
  class LocationPublisher {
    var config: map<string, Value>
    const outputType: Value
    const updateInterval: Value
    var lastPublishTime: real
    var notified: seq<Location>

    /** `__init__(config)`: the output type is the `type` ATTRIBUTE of the
        configuration object (`typeAttribute`; a dictionary has none, so
        it is `file`), not its `type` key. */
    constructor (config: map<string, Value>, typeAttribute: Option<Value>)
      ensures this.config == config
      ensures outputType == if typeAttribute.Some? then typeAttribute.value else Str("file")
      ensures updateInterval == GetOr(config, "update_interval", Float(1.0))
      ensures lastPublishTime == 0.0 && notified == []
    {
      this.config := config;
      outputType := if typeAttribute.Some? then typeAttribute.value else Str("file");
      updateInterval := GetOr(config, "update_interval", Float(1.0));
      lastPublishTime := 0.0;
      notified := [];
    }

    /** `FileLocationPublisher(config)`: also sets the `type` key to
        `file`, which the output type computed before never reads. */
    constructor ForFile(config: map<string, Value>, typeAttribute: Option<Value>)
      ensures this.config == config["type" := Str("file")]
      ensures outputType == if typeAttribute.Some? then typeAttribute.value else Str("file")
      ensures updateInterval == GetOr(config, "update_interval", Float(1.0))
      ensures lastPublishTime == 0.0 && notified == []
    {
      this.config := config["type" := Str("file")];
      outputType := if typeAttribute.Some? then typeAttribute.value else Str("file");
      updateInterval := GetOr(config, "update_interval", Float(1.0));
      lastPublishTime := 0.0;
      notified := [];
    }

    /** `_atomic_write(path, doc)`: writes the temporary file, then renames
        it over the target; on any failure removes the temporary file and
        raises (`ok` False). */
    method AtomicWrite(fs: FileSystem, path: string, doc: Value, fault: Fault) returns (ok: bool)
      modifies fs
      ensures ok == (fault == NoFault)
      ensures fs.files == AtomicFiles(old(fs.files), path, doc, fault)
    {
      var temp := TempPath(path);
      if fault == OpenFails {
        fs.files := fs.files - {temp};
        return false;
      }
      fs.files := fs.files[temp := Incomplete];
      if fault == WriteFails {
        fs.files := fs.files - {temp};
        return false;
      }
      fs.files := fs.files[temp := Json(doc)];
      if fault == RenameFails {
        fs.files := fs.files - {temp};
        return false;
      }
      fs.files := (fs.files - {temp})[path := Json(doc)];
      ok := true;
    }

    /** `_direct_write(path, doc)`: opens the target with mode `w` and
        writes; any error gives False. */
    method DirectWrite(fs: FileSystem, path: string, doc: Value, fault: Fault) returns (ok: bool)
      modifies fs
      ensures ok == DirectSucceeds(fault)
      ensures fs.files == DirectFiles(old(fs.files), path, doc, fault)
    {
      if fault == OpenFails {
        return false;
      }
      fs.files := fs.files[path := Incomplete];
      if fault == WriteFails {
        return false;
      }
      fs.files := fs.files[path := Json(doc)];
      ok := true;
    }

    /** `_publish_to_file(location)`: the record goes to `file_path`,
        atomically unless `atomic_write` is falsy. An exception from the
        atomic write or from `json.dumps` gives `ok` False. */
    method PublishToFile(fs: FileSystem, location: Location, fault: Fault) returns (ok: bool)
      modifies fs
      ensures (ok, fs.files) == FileOutcome(config, location, old(fs.files), fault)
    {
      var doc := Dict(Serialise(location));
      var path := FilePath(config);
      if path.None? || !Serialisable(doc) {
        return false;
      }
      if Truthy(GetOr(config, "atomic_write", Bool(true))) {
        ok := AtomicWrite(fs, path.value, doc, fault);
      } else {
        ok := DirectWrite(fs, path.value, doc, fault);
      }
    }

    /** `_publish_to_callback(location)`: True exactly when a callable is
        configured and it returns without raising. */
    method PublishToCallback(location: Location, raises: bool) returns (ok: bool)
      modifies this`notified
      ensures ok == (HasCallback(config) && !raises)
      ensures notified == if HasCallback(config) then old(notified) + [location] else old(notified)
    {
      if !HasCallback(config) {
        return false;
      }
      notified := notified + [location];
      ok := !raises;
    }

    /** `publish(location)` at clock reading `now`. Within the update
        interval it returns True and does nothing; otherwise it records
        `now` before writing, so a failed write still uses up the
        interval. It never raises: an exception gives False. */
    method Publish(fs: FileSystem, location: Location, now: real, fault: Fault, raises: bool) returns (ok: bool)
      modifies this`lastPublishTime, this`notified, fs
      ensures Number(updateInterval).None? ==>
                !ok && lastPublishTime == old(lastPublishTime) && fs.files == old(fs.files) && notified == old(notified)
      ensures Number(updateInterval).Some? && now - old(lastPublishTime) < Number(updateInterval).value ==>
                ok && lastPublishTime == old(lastPublishTime) && fs.files == old(fs.files) && notified == old(notified)
      ensures Number(updateInterval).Some? && now - old(lastPublishTime) >= Number(updateInterval).value ==>
                lastPublishTime == now
      ensures Number(updateInterval).Some? && now - old(lastPublishTime) >= Number(updateInterval).value
              && outputType == Str("file") ==>
                (ok, fs.files) == FileOutcome(config, location, old(fs.files), fault) && notified == old(notified)
      ensures Number(updateInterval).Some? && now - old(lastPublishTime) >= Number(updateInterval).value
              && outputType == Str("callback") ==>
                ok == (HasCallback(config) && !raises) && fs.files == old(fs.files)
                && notified == if HasCallback(config) then old(notified) + [location] else old(notified)
      ensures outputType != Str("file") && outputType != Str("callback") ==>
                fs.files == old(fs.files) && notified == old(notified)
                && (Number(updateInterval).Some? && now - old(lastPublishTime) >= Number(updateInterval).value ==> !ok)
    {
      var interval := Number(updateInterval);
      if interval.None? {
        return false;
      }
      if now - lastPublishTime < interval.value {
        return true;
      }
      lastPublishTime := now;
      if outputType == Str("file") {
        ok := PublishToFile(fs, location, fault);
      } else if outputType == Str("callback") {
        ok := PublishToCallback(location, raises);
      } else {
        ok := false;
      }
    }
  }
}
