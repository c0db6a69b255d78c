/** The configuration (`Config`): a dictionary of sections (`ntrip`,
    `serial`, `output`, `logging`, `positioning`) with dictionary-style
    access, its validation, the log directory it names, and the two ways
    it is loaded: from a JSON document and from environment variables. */
module Configuration {
  import opened Values
  import opened Text
  import Serial
  import Logging

  // ---------------------------------------------------------------------
  // Sections

  /** `data.get(name, {})`: a section, empty when absent. */
  function Section(data: map<string, Value>, name: string): (v: Value)
    ensures name in data ==> v == data[name]
    ensures name !in data ==> v == Dict(map[])
  {
    GetOr(data, name, Dict(map[]))
  }

  /** `section.get(key)` on a section; None where the section is no
      dictionary and `.get` raises. */
  function Lookup(section: Value, key: string): (r: Option<Value>)
    ensures r.Some? <==> section.Dict?
    ensures section.Dict? && key !in section.entries ==> r == Some(Null)
    ensures section.Dict? && key in section.entries ==> r == Some(section.entries[key])
  {
    if section.Dict? then Some(Get(section.entries, key)) else None
  }

  // ---------------------------------------------------------------------
  // validate()

  /** The required NTRIP fields, with the error each one's absence gives. */
  const Required: seq<(string, string)> := [
    ("server", "NTRIP server is required"),
    ("username", "NTRIP username is required"),
    ("password", "NTRIP password is required"),
    ("mountpoint", "NTRIP mountpoint is required")]

  const SerialMissing := "Serial port or host is required"

  /** The error of the `i`-th required field: none when it is truthy. */
  function FieldError(ntrip: map<string, Value>, i: nat): (e: seq<string>)
    requires i < |Required|
    ensures e == [] <==> Truthy(Get(ntrip, Required[i].0))
    ensures e != [] ==> e == [Required[i].1]
  {
    if Truthy(Get(ntrip, Required[i].0)) then [] else [Required[i].1]
  }

  /** The errors of the required NTRIP fields from the `i`-th on, in
      order: one for each field that is not truthy. */
  function FieldErrors(ntrip: map<string, Value>, i: nat): (errors: seq<string>)
    requires i <= |Required|
    ensures errors == [] <==> forall j :: i <= j < |Required| ==> Truthy(Get(ntrip, Required[j].0))
    decreases |Required| - i
  {
    if i == |Required| then [] else FieldError(ntrip, i) + FieldErrors(ntrip, i + 1)
  }

  /** The table spelled out: the errors of server, user name, password
      and mountpoint, in that order. */
  lemma {:induction false} FieldErrorsTable(ntrip: map<string, Value>)
    ensures FieldErrors(ntrip, 0) ==
              FieldError(ntrip, 0) + FieldError(ntrip, 1) + FieldError(ntrip, 2) + FieldError(ntrip, 3)
  {
    assert FieldErrors(ntrip, 4) == [];
    assert FieldErrors(ntrip, 3) == FieldError(ntrip, 3);
    assert FieldErrors(ntrip, 2) == FieldError(ntrip, 2) + FieldError(ntrip, 3);
    assert FieldErrors(ntrip, 0) == FieldError(ntrip, 0) + (FieldError(ntrip, 1) + (FieldError(ntrip, 2) + FieldError(ntrip, 3)));
  }

  /** Whether the serial section names a port or a host. */
  predicate HasLink(serial: map<string, Value>) {
    Truthy(Get(serial, "port")) || Truthy(Get(serial, "host"))
  }

  /** The errors `validate` collects; None where a section is no
      dictionary. */
  function Errors(data: map<string, Value>): Option<seq<string>> {
    var ntrip := Section(data, "ntrip");
    var serial := Section(data, "serial");
    if !ntrip.Dict? || !serial.Dict? then None
    else Some(FieldErrors(ntrip.entries, 0) + (if HasLink(serial.entries) then [] else [SerialMissing]))
  }

  /** The configuration is valid exactly when the server, user name,
      password and mountpoint are truthy and the serial section names a
      port or a host. */
  lemma {:induction false} ErrorsEmptyIff(data: map<string, Value>, ntrip: map<string, Value>, serial: map<string, Value>)
    requires Section(data, "ntrip") == Dict(ntrip) && Section(data, "serial") == Dict(serial)
    ensures Errors(data) == Some([]) <==>
              Truthy(Get(ntrip, "server")) && Truthy(Get(ntrip, "username"))
              && Truthy(Get(ntrip, "password")) && Truthy(Get(ntrip, "mountpoint"))
              && HasLink(serial)
  {
    var e := FieldErrors(ntrip, 0);
    assert Errors(data) == Some(e + (if HasLink(serial) then [] else [SerialMissing]));
    assert Required[0].0 == "server" && Required[1].0 == "username";
    assert Required[2].0 == "password" && Required[3].0 == "mountpoint";
    FieldErrorsTable(ntrip);
  }

  /** Each error is logged with the same prefix. */
  function Logged(errors: seq<string>): (lines: seq<string>)
    ensures |lines| == |errors|
    ensures forall i :: 0 <= i < |errors| ==> lines[i] == "Config validation error: " + errors[i]
  {
    seq(|errors|, i requires 0 <= i < |errors| => "Config validation error: " + errors[i])
  }

  /** Logging one more error logs one more line. */
  lemma {:induction false} LoggedSnoc(errors: seq<string>, e: string)
    ensures Logged(errors + [e]) == Logged(errors) + ["Config validation error: " + e]
  {
  }

  /** The loop of `validate` that logs each error in turn. */
  method LogErrors(errors: seq<string>) returns (logged: seq<string>)
    ensures logged == Logged(errors)
  {
    logged := [];
    for i := 0 to |errors|
      invariant logged == Logged(errors[..i])
    {
      LoggedSnoc(errors[..i], errors[i]);
      assert errors[..i + 1] == errors[..i] + [errors[i]];
      logged := logged + ["Config validation error: " + errors[i]];
    }
    assert errors[..|errors|] == errors;
  }

  // ---------------------------------------------------------------------
  // get_log_directory()

  /** `get_log_directory()`: the directory of the log file (by default
      `/var/log/rtk-gnss-worker.log`), with no directory, `.` and
      `/var/log` mapped to `logs`. None where the logging section is no
      dictionary or the file is no string. */
  function LogDirectory(data: map<string, Value>): (r: Option<string>)
    ensures r.Some? ==> r.value != "" && r.value != "." && r.value != "/var/log"
    ensures r.Some? <==> Section(data, "logging").Dict?
                         && GetOr(Section(data, "logging").entries, "file", Str(Logging.DefaultLogFile)).Str?
  {
    var logging := Section(data, "logging");
    if !logging.Dict? then None
    else
      match GetOr(logging.entries, "file", Str(Logging.DefaultLogFile))
      case Str(file) => Some(Logging.LogDirFor(file))
      case _ => None
  }

  /** A log file in a directory of its own is logged there. */
  lemma {:induction false} LogDirectoryOf(data: map<string, Value>, dir: string, name: string)
    requires '/' !in name && dir != [] && dir[|dir| - 1] != '/'
    requires dir != "." && dir != "/var/log"
    requires Section(data, "logging").Dict? && "file" in Section(data, "logging").entries
    requires Section(data, "logging").entries["file"] == Str(dir + "/" + name)
    ensures LogDirectory(data) == Some(dir)
  {
    Logging.LogDirForJoin(dir, name);
  }

  /** The default log file and a bare file name both give `logs`. */
  lemma {:induction false} LogDirectoryDefault(data: map<string, Value>, name: string)
    requires Section(data, "logging").Dict? && '/' !in name
    requires "file" !in Section(data, "logging").entries
             || Section(data, "logging").entries["file"] == Str(name)
    ensures LogDirectory(data) == Some("logs")
  {
    if "file" !in Section(data, "logging").entries {
      Logging.LogDirForDefault();
    } else {
      Logging.LogDirForBare(name);
    }
  }

  /** The logger's set-up from a configuration dictionary finds the same
      directory as `get_log_directory`. */
  lemma {:induction false} LogDirectoriesAgree(data: map<string, Value>)
    ensures Logging.SectionLogDir(Dict(data)) == LogDirectory(data)
  {
    if "logging" !in data {
      Logging.LogDirForDefault();
    }
  }

  // ---------------------------------------------------------------------
  // Loading

  /** `from_file` on the parsed document: its `rtk` object when it has
      one, else the whole document. None where the document (or its `rtk`
      object) is no dictionary. */
  function FromDocument(document: Value): (r: Option<map<string, Value>>)
    ensures document.Dict? && "rtk" !in document.entries ==> r == Some(document.entries)
    ensures document.Dict? && "rtk" in document.entries && document.entries["rtk"].Dict? ==>
              r == Some(document.entries["rtk"].entries)
    ensures !document.Dict? ==> r.None?
  {
    if !document.Dict? then None
    else if "rtk" in document.entries then
      (if document.entries["rtk"].Dict? then Some(document.entries["rtk"].entries) else None)
    else Some(document.entries)
  }

  /** `os.getenv(name, default)` */
  function Env(env: map<string, string>, name: string, default: string): string {
    if name in env then env[name] else default
  }

  /** The TCP section `from_env` builds; None where `int()` of the port or
      `float()` of the timeout raised. */
  function TcpSection(host: string, port: Option<int>, timeout: Option<real>): (r: Option<map<string, Value>>)
    ensures r.Some? <==> port.Some? && timeout.Some?
    ensures r.Some? ==> r.value.Keys == {"host", "port", "timeout"} && r.value["host"] == Str(host)
                        && r.value["port"] == Int(port.value) && r.value["timeout"] == Float(timeout.value)
  {
    if port.None? || timeout.None? then None
    else Some(map["host" := Str(host), "port" := Int(port.value), "timeout" := Float(timeout.value)])
  }

  /** The serial-port section `from_env` builds; None where `int()` of the
      baud rate or `float()` of the timeout raised. */
  function PortSection(port: string, baudrate: Option<int>, timeout: Option<real>): (r: Option<map<string, Value>>)
    ensures r.Some? <==> baudrate.Some? && timeout.Some?
    ensures r.Some? ==> r.value.Keys == {"port", "baudrate", "timeout"} && r.value["port"] == Str(port)
                        && r.value["baudrate"] == Int(baudrate.value) && r.value["timeout"] == Float(timeout.value)
  {
    if baudrate.None? || timeout.None? then None
    else Some(map["port" := Str(port), "baudrate" := Int(baudrate.value), "timeout" := Float(timeout.value)])
  }

  /** The serial section `from_env` builds: with a non-empty
      `SERIAL_HOST`, a TCP section (port 8888 and a 1 s timeout by
      default); without, a serial-port section (`/dev/ttyUSB0`, 115200
      baud and a 1 s timeout by default). */
  function SerialFromEnv(env: map<string, string>, prefix: string): (r: Option<map<string, Value>>)
    ensures Env(env, prefix + "SERIAL_HOST", "") != "" ==>
              r == TcpSection(Env(env, prefix + "SERIAL_HOST", ""),
                              ParseInt(Env(env, prefix + "SERIAL_PORT", "8888")),
                              ParseFloat(Env(env, prefix + "SERIAL_TIMEOUT", "1.0")))
    ensures Env(env, prefix + "SERIAL_HOST", "") == "" ==>
              r == PortSection(Env(env, prefix + "SERIAL_PORT", "/dev/ttyUSB0"),
                               ParseInt(Env(env, prefix + "SERIAL_BAUDRATE", "115200")),
                               ParseFloat(Env(env, prefix + "SERIAL_TIMEOUT", "1.0")))
  {
    var host := Env(env, prefix + "SERIAL_HOST", "");
    var timeout := ParseFloat(Env(env, prefix + "SERIAL_TIMEOUT", "1.0"));
    if host != "" then TcpSection(host, ParseInt(Env(env, prefix + "SERIAL_PORT", "8888")), timeout)
    else PortSection(Env(env, prefix + "SERIAL_PORT", "/dev/ttyUSB0"),
                     ParseInt(Env(env, prefix + "SERIAL_BAUDRATE", "115200")), timeout)
  }

  /** The link handler reads a TCP section built from the environment as
      a TCP link and uses it unchanged. */
  lemma {:induction false} TcpSectionTransport(host: string, port: Option<int>, timeout: Option<real>)
    requires host != [] && TcpSection(host, port, timeout).Some?
    ensures Serial.Init(TcpSection(host, port, timeout).value)
            == Some(Serial.Setup(true, TcpSection(host, port, timeout).value))
  {
    var section := TcpSection(host, port, timeout).value;
    assert Get(section, "host") == Str(host);
  }

  /** The link handler reads a serial-port section built from the
      environment as a serial link, given a port that is no URL, and uses
      it unchanged. */
  lemma {:induction false} PortSectionTransport(port: string, baudrate: Option<int>, timeout: Option<real>)
    requires !Serial.IsUrl(port) && PortSection(port, baudrate, timeout).Some?
    ensures Serial.Init(PortSection(port, baudrate, timeout).value)
            == Some(Serial.Setup(false, PortSection(port, baudrate, timeout).value))
  {
    var section := PortSection(port, baudrate, timeout).value;
    assert Get(section, "host") == Null && Get(section, "tcp_port") == Null;
    assert GetOr(section, "port", Str("")) == Str(port);
  }

  /** The sections of `Config.default()`. */
  const DefaultNtrip: map<string, Value> :=
    map["server" := Str("220.180.239.212"), "port" := Int(7990), "username" := Str("QL_NTRIP"),
        "password" := Str("123456"), "mountpoint" := Str("HeFei"), "timeout" := Float(30.0),
        "reconnect_interval" := Int(5), "max_retries" := Int(3)]
  const DefaultSerial: map<string, Value> :=
    map["port" := Str("/dev/ttyUSB0"), "baudrate" := Int(115200), "timeout" := Float(1.0), "host" := Null]
  const DefaultOutput: map<string, Value> :=
    map["type" := Str("file"), "file_path" := Str("/tmp/gnss_location.json"),
        "atomic_write" := Bool(true), "update_interval" := Float(1.0)]
  const DefaultLogging: map<string, Value> :=
    map["level" := Str("INFO"), "file" := Str(Logging.DefaultLogFile), "max_size" := Str("10MB"),
        "backup_count" := Int(5)]
  const DefaultPositioning: map<string, Value> :=
    map["min_satellites" := Int(4), "min_quality" := Int(1), "gga_interval" := Int(30), "position_timeout" := Int(60)]

  /** `Config.default()`: the built-in configuration. */
  const DefaultData: map<string, Value> :=
    map["ntrip" := Dict(DefaultNtrip), "serial" := Dict(DefaultSerial), "output" := Dict(DefaultOutput),
        "logging" := Dict(DefaultLogging), "positioning" := Dict(DefaultPositioning)]

  /** The built-in NTRIP section names every required field. */
  lemma {:induction false} DefaultNtripComplete()
    ensures Truthy(Get(DefaultNtrip, "server")) && Truthy(Get(DefaultNtrip, "username"))
    ensures Truthy(Get(DefaultNtrip, "password")) && Truthy(Get(DefaultNtrip, "mountpoint"))
  {
  }

  /** The built-in serial section names a port and no host. */
  lemma {:induction false} DefaultSerialPort()
    ensures HasLink(DefaultSerial) && Get(DefaultSerial, "host") == Null
  {
  }

  /** The sections the built-in configuration holds: exactly the five named ones. */
  lemma {:induction false} DefaultSections()
    ensures DefaultData.Keys == {"ntrip", "serial", "output", "logging", "positioning"}
    ensures Section(DefaultData, "ntrip") == Dict(DefaultNtrip)
    ensures Section(DefaultData, "serial") == Dict(DefaultSerial)
    ensures Section(DefaultData, "output") == Dict(DefaultOutput)
    ensures Section(DefaultData, "logging") == Dict(DefaultLogging)
    ensures Section(DefaultData, "positioning") == Dict(DefaultPositioning)
  {
  }

  /** The built-in configuration validates. */
  lemma {:induction false} DefaultValid()
    ensures Errors(DefaultData) == Some([])
  {
    DefaultSections();
    DefaultNtripComplete();
    DefaultSerialPort();
    ErrorsEmptyIff(DefaultData, DefaultNtrip, DefaultSerial);
  }

  /** The built-in configuration logs to `logs`. */
  lemma {:induction false} DefaultLogDirectory()
    ensures LogDirectory(DefaultData) == Some("logs")
  {
    assert Section(DefaultData, "logging") == Dict(DefaultLogging) by {
      DefaultSections();
    }
    assert GetOr(DefaultLogging, "file", Str(Logging.DefaultLogFile)) == Str(Logging.DefaultLogFile);
    Logging.LogDirForDefault();
  }

  // ---------------------------------------------------------------------
  // The configuration object

  /** `Config`: the dictionary it wraps. */
  class Config {
    var data: map<string, Value>

    constructor (data: map<string, Value>)
      ensures this.data == data
    {
      this.data := data;
    }

    /** `config[key]`; None where the key is missing (`KeyError`). */
    method GetItem(key: string) returns (v: Option<Value>)
      ensures key in data ==> v == Some(data[key])
      ensures key !in data ==> v == None
    {
      v := if key in data then Some(data[key]) else None;
    }

    /** `config[key] = value` */
    method SetItem(key: string, value: Value)
      modifies this
      ensures data == old(data)[key := value]
    {
      data := data[key := value];
    }

    /** `key in config` */
    method Contains(key: string) returns (b: bool)
      ensures b <==> key in data
    {
      b := key in data;
    }

    /** `config.get(key, default)` */
    method Get(key: string, default: Value) returns (v: Value)
      ensures key in data ==> v == data[key]
      ensures key !in data ==> v == default
    {
      v := GetOr(data, key, default);
    }

    /** `copy()`: a new configuration with a deep copy of the dictionary. */
    method Copy() returns (c: Config)
      ensures fresh(c) && c.data == data
    {
      c := new Config(data);
    }

    /** `validate()`: collects the errors, logs each one, and is True
        exactly when there are none. None where a section is no
        dictionary. */
    method Validate() returns (valid: Option<bool>, logged: seq<string>)
      ensures Errors(data).None? ==> valid.None? && logged == []
      ensures Errors(data).Some? ==> valid == Some(Errors(data).value == []) && logged == Logged(Errors(data).value)
    {
      var ntrip := Section(data, "ntrip");
      if !ntrip.Dict? {
        return None, [];
      }
      var serial := Section(data, "serial");
      if !serial.Dict? {
        return None, [];
      }
      var fields := ntrip.entries;
      var errors: seq<string> := [];
      if !Truthy(Values.Get(fields, Required[0].0)) {
        errors := errors + [Required[0].1];
      }
      assert errors == FieldError(fields, 0);
      if !Truthy(Values.Get(fields, Required[1].0)) {
        errors := errors + [Required[1].1];
      }
      assert errors == FieldError(fields, 0) + FieldError(fields, 1);
      if !Truthy(Values.Get(fields, Required[2].0)) {
        errors := errors + [Required[2].1];
      }
      assert errors == FieldError(fields, 0) + FieldError(fields, 1) + FieldError(fields, 2);
      if !Truthy(Values.Get(fields, Required[3].0)) {
        errors := errors + [Required[3].1];
      }
      assert errors == FieldErrors(fields, 0) by {
        FieldErrorsTable(fields);
      }
      if !HasLink(serial.entries) {
        errors := errors + [SerialMissing];
      }
      assert errors == Errors(data).value;
      logged := LogErrors(errors);
      valid := Some(errors == []);
    }
  }

  /** Changing a copy leaves the original as it was. */
  method CopyIndependent(original: Config, key: string, value: Value) returns (copy: Config)
    ensures fresh(copy) && copy.data == original.data[key := value]
    ensures original.data == old(original.data)
  {
    copy := original.Copy();
    copy.SetItem(key, value);
  }
}
