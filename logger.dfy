/** The logging set-up (`RTKLogger`): the singleton that installs the
    console and file handlers, the normalisation of module names under the
    `rtk_gnss_worker` logger, the level names `set_level` and
    `set_console_level` accept, and the log directory
    `setup_logging_from_config` derives from a configuration. */
module Logging {
  import opened Values
  import opened Text

  // ---------------------------------------------------------------------
  // Logger names (src/logger.py:110-127)

  const Root := "rtk_gnss_worker"

  /** The name `get_logger` asks the logging registry for: every module's
      logger lies under `rtk_gnss_worker`, a `src.` package prefix is
      dropped, and a name already under the root is kept. */
  function NormaliseName(name: string): (r: string)
    ensures StartsWith(r, Root)
    ensures StartsWith(name, Root) ==> r == name
    ensures !StartsWith(name, Root) ==> StartsWith(r, Root + ".")
  {
    if StartsWith(name, Root) then name
    else if StartsWith(name, "src.") then Root + "." + name[4..]
    else if '.' !in name then Root + "." + name
    else Root + "." + name
  }

  /** Normalising a normalised name changes nothing. */
  lemma {:induction false} NormaliseIdempotent(name: string)
    ensures NormaliseName(NormaliseName(name)) == NormaliseName(name)
  {
  }

  /** A module imported through the `src` package and the same module
      imported by its bare name share one logger. */
  lemma {:induction false} SourcePackageAlias(name: string)
    requires !StartsWith(name, Root) && !StartsWith(name, "src.")
    ensures NormaliseName("src." + name) == NormaliseName(name) == Root + "." + name
  {
    var s := "src." + name;
    assert s[4..] == name;
    assert !StartsWith(s, Root) by {
      if |Root| <= |s| {
        assert s[..|Root|][0] == 's';
      }
    }
  }

  /** Every name outside the root gets the root and a dot put in front;
      only a `src.` prefix is taken off first. */
  lemma {:induction false} NormaliseOutside(name: string)
    requires !StartsWith(name, Root)
    ensures StartsWith(name, "src.") ==> NormaliseName(name) == Root + "." + name[4..]
    ensures !StartsWith(name, "src.") ==> NormaliseName(name) == Root + "." + name
  {
  }

  // ---------------------------------------------------------------------
  // Levels (src/logger.py:129-160)

  const NotSet := 0
  const Debug := 10
  const Info := 20
  const Warning := 30
  const Error := 40
  const Critical := 50

  /** `level_map` */
  const Levels: map<string, int> :=
    map["DEBUG" := Debug, "INFO" := Info, "WARNING" := Warning, "ERROR" := Error, "CRITICAL" := Critical]

  /** The level a name selects, whatever its case; None for a name that
      is none of the five. */
  function LevelOf(name: string): (r: Option<int>)
    ensures r.Some? <==> Upper(name) in Levels
    ensures r.Some? ==> r.value == Levels[Upper(name)] && r.value in Levels.Values
  {
    if Upper(name) in Levels then Some(Levels[Upper(name)]) else None
  }

  /** The level names are case-insensitive: a name and its upper-case
      form select the same level. */
  lemma {:induction false} LevelCaseInsensitive(name: string)
    ensures LevelOf(Upper(name)) == LevelOf(name)
  {
    UpperIdempotent(name);
  }

  /** Where a handler writes. */
  datatype Target = Stdout | LogFile(dir: string, name: string)

  datatype Handler = Handler(target: Target, level: int)

  /** `isinstance(handler, logging.StreamHandler) and handler.stream ==
      sys.stdout`: a file handler is a stream handler, but not on stdout. */
  predicate IsConsole(h: Handler) {
    h.target == Stdout
  }

  /** Every console handler at `level`, every other handler as it was. */
  function ConsoleLevels(hs: seq<Handler>, level: int): (r: seq<Handler>)
    ensures |r| == |hs|
  {
    if hs == [] then []
    else [if IsConsole(hs[0]) then hs[0].(level := level) else hs[0]] + ConsoleLevels(hs[1..], level)
  }

  /** `set_level` moves the console handlers, and only their levels. */
  lemma {:induction false} ConsoleLevelsEffect(hs: seq<Handler>, level: int)
    ensures forall i :: 0 <= i < |hs| ==> ConsoleLevels(hs, level)[i].target == hs[i].target
    ensures forall i :: 0 <= i < |hs| && IsConsole(hs[i]) ==> ConsoleLevels(hs, level)[i].level == level
    ensures forall i :: 0 <= i < |hs| && !IsConsole(hs[i]) ==> ConsoleLevels(hs, level)[i] == hs[i]
  {
    if hs != [] {
      ConsoleLevelsEffect(hs[1..], level);
      assert forall i :: 1 <= i < |hs| ==> ConsoleLevels(hs, level)[i] == ConsoleLevels(hs[1..], level)[i - 1];
    }
  }

  /** One step of the `set_level` loop. */
  lemma {:induction false} ConsoleLevelsSnoc(hs: seq<Handler>, h: Handler, level: int)
    ensures ConsoleLevels(hs + [h], level)
            == ConsoleLevels(hs, level) + [if IsConsole(h) then h.(level := level) else h]
  {
    if hs != [] {
      assert (hs + [h])[1..] == hs[1..] + [h];
      ConsoleLevelsSnoc(hs[1..], h, level);
    } else {
      assert ConsoleLevels([h], level) == [if IsConsole(h) then h.(level := level) else h] + ConsoleLevels([], level);
    }
  }

  /** One step of `set_level`'s loop over the handlers. */
  lemma {:induction false} SetLevelStep(was: seq<Handler>, hs: seq<Handler>, i: nat, level: int)
    requires i < |hs| == |was|
    requires hs[..i] == ConsoleLevels(was[..i], level) && hs[i..] == was[i..]
    ensures var h := if IsConsole(hs[i]) then hs[i].(level := level) else hs[i];
            hs[i := h][..i + 1] == ConsoleLevels(was[..i + 1], level) && hs[i := h][i + 1..] == was[i + 1..]
  {
    ConsoleLevelsSnoc(was[..i], was[i], level);
    assert was[..i + 1] == was[..i] + [was[i]];
    assert hs[i] == hs[i..][0] == was[i];
    var h := if IsConsole(hs[i]) then hs[i].(level := level) else hs[i];
    assert hs[i := h][..i + 1] == hs[..i] + [h];
    assert hs[i := h][i + 1..] == hs[i + 1..] == hs[i..][1..];
  }

  /** The index of the first console handler, `|hs|` when there is none. */
  function FirstConsole(hs: seq<Handler>): (i: nat)
    ensures i <= |hs| && (i < |hs| ==> IsConsole(hs[i]))
    ensures forall j :: 0 <= j < i ==> !IsConsole(hs[j])
  {
    if hs == [] then 0 else if IsConsole(hs[0]) then 0 else 1 + FirstConsole(hs[1..])
  }

  /** `set_console_level`: the first console handler at `level` (the loop
      breaks there), every other handler as it was. */
  function FirstConsoleLevel(hs: seq<Handler>, level: int): (r: seq<Handler>)
    ensures |r| == |hs|
    ensures forall j :: 0 <= j < |hs| && j != FirstConsole(hs) ==> r[j] == hs[j]
    ensures FirstConsole(hs) < |hs| ==> r[FirstConsole(hs)] == hs[FirstConsole(hs)].(level := level)
  {
    var i := FirstConsole(hs);
    if i == |hs| then hs else hs[i := hs[i].(level := level)]
  }

  /** With a single console handler, `set_console_level` and `set_level`
      leave the same handlers. */
  lemma {:induction false} SingleConsole(hs: seq<Handler>, level: int)
    requires forall i, j :: 0 <= i < j < |hs| && IsConsole(hs[i]) ==> !IsConsole(hs[j])
    ensures FirstConsoleLevel(hs, level) == ConsoleLevels(hs, level)
  {
    ConsoleLevelsEffect(hs, level);
    var a, b := FirstConsoleLevel(hs, level), ConsoleLevels(hs, level);
    forall k | 0 <= k < |hs|
      ensures a[k] == b[k]
    {
      if IsConsole(hs[k]) {
        var f := FirstConsole(hs);
        assert f < |hs| ==> IsConsole(hs[f]);
      }
    }
  }

  // ---------------------------------------------------------------------
  // Log directories (src/config.py:159-173 and src/logger.py:267-277)

  const DefaultLogFile := "/var/log/rtk-gnss-worker.log"

  /** The directory of a log file, except that no directory, `.` and the
      system directory `/var/log` become the local `logs`. */
  function LogDirFor(file: string): (dir: string)
    ensures dir != "" && dir != "." && dir != "/var/log"
    ensures Dirname(file) == "" || Dirname(file) == "." || Dirname(file) == "/var/log" ==> dir == "logs"
    ensures Dirname(file) != "" && Dirname(file) != "." && Dirname(file) != "/var/log" ==> dir == Dirname(file)
  {
    var d := Dirname(file);
    if d == "" || d == "." || d == "/var/log" then "logs" else d
  }

  /** A log file in a directory of its own is logged there. */
  lemma {:induction false} LogDirForJoin(dir: string, name: string)
    requires '/' !in name && dir != [] && dir[|dir| - 1] != '/'
    requires dir != "." && dir != "/var/log"
    ensures LogDirFor(dir + "/" + name) == dir
  {
    DirnameJoin(dir, name);
  }

  /** A bare file name is logged in `logs`. */
  lemma {:induction false} LogDirForBare(name: string)
    requires '/' !in name
    ensures LogDirFor(name) == "logs"
  {
    DirnameBare(name);
  }

  /** The default log file is logged in `logs`. */
  lemma {:induction false} LogDirForDefault()
    ensures LogDirFor(DefaultLogFile) == "logs"
  {
    var dir, name := "/var/log", "rtk-gnss-worker.log";
    assert DefaultLogFile == dir + "/" + name;
    DirnameJoin(dir, name);
  }

  /** Lines 267-277 of `setup_logging_from_config` on the dictionary it
      ends up with: `logs` unless the dictionary is truthy and has a
      `logging` section, whose log file then decides. None where that
      section is no dictionary, or the file no string, and Python raises
      (a non-dictionary that is truthy is taken to raise too). */
  function SectionLogDir(dict: Value): (r: Option<string>)
    ensures !Truthy(dict) ==> r == Some("logs")
    ensures dict.Dict? && "logging" !in dict.entries ==> r == Some("logs")
    ensures dict.Dict? && "logging" in dict.entries && dict.entries["logging"].Dict? ==>
              r == match GetOr(dict.entries["logging"].entries, "file", Str(DefaultLogFile))
                   case Str(file) => Some(LogDirFor(file))
                   case _ => None
  {
    if !Truthy(dict) then Some("logs")
    else if !dict.Dict? then None
    else if "logging" !in dict.entries then Some("logs")
    else
      var logging := dict.entries["logging"];
      if !logging.Dict? then None
      else
        match GetOr(logging.entries, "file", Str(DefaultLogFile))
        case Str(file) => Some(LogDirFor(file))
        case _ => None
  }

  /** The dictionary `setup_logging_from_config` reads AS WRITTEN: with a
      configuration file that could be read, the file's `logging` section
      replaces `config_dict`; on a read error (or a document that is no
      dictionary, so that `.get` raises inside the `try`) `config_dict`
      stays. `document` is the parsed file, None where reading failed. */
  function ConfigDictAsWritten(configDict: Value, fileGiven: bool, document: Option<Value>): Value {
    if fileGiven && document.Some? && document.value.Dict? then
      GetOr(document.value.entries, "logging", Dict(map[]))
    else configDict
  }

  /** The directory `setup_logging_from_config` derives as written. */
  function SetupDirAsWritten(configDict: Value, fileGiven: bool, document: Option<Value>): (r: Option<string>)
    ensures r == SectionLogDir(ConfigDictAsWritten(configDict, fileGiven, document))
  {
    SectionLogDir(ConfigDictAsWritten(configDict, fileGiven, document))
  }

  /** As written, the log file a configuration file names is never used:
      the `logging` section is taken out of the file and then searched
      for a `logging` key of its own. */
  lemma {:induction false} FileLogDirIgnored(configDict: Value, document: Value, section: map<string, Value>,
                          dir: string, name: string)
    requires '/' !in name && dir != [] && dir[|dir| - 1] != '/' && dir != "." && dir != "/var/log"
    requires document.Dict? && "logging" in document.entries && document.entries["logging"] == Dict(section)
    requires "logging" !in section && "file" in section && section["file"] == Str(dir + "/" + name)
    ensures SetupDirAsWritten(configDict, true, Some(document)) == Some("logs")
    ensures SetupDir(configDict, true, Some(document)) == Some(dir)
  {
    LogDirForJoin(dir, name);
  }

  /** The dictionary `setup_logging_from_config` is evidently meant to
      read: the whole configuration file where one could be read, else
      `config_dict`, so that its `logging` section is the one consulted. */
  function ConfigDict(configDict: Value, fileGiven: bool, document: Option<Value>): (d: Value)
    ensures fileGiven && document.Some? && document.value.Dict? ==> d == document.value
    ensures !(fileGiven && document.Some? && document.value.Dict?) ==> d == configDict
  {
    if fileGiven && document.Some? && document.value.Dict? then document.value else configDict
  }

  /** The directory `setup_logging_from_config` evidently intends: the
      one the file's (or else the dictionary's) logging section names. */
  function SetupDir(configDict: Value, fileGiven: bool, document: Option<Value>): (r: Option<string>)
    ensures fileGiven && document.Some? && document.value.Dict? ==> r == SectionLogDir(document.value)
    ensures !(fileGiven && document.Some? && document.value.Dict?) ==> r == SectionLogDir(configDict)
  {
    SectionLogDir(ConfigDict(configDict, fileGiven, document))
  }

  /** Without a configuration file both read the same dictionary. */
  lemma {:induction false} SetupDirAgrees(configDict: Value, document: Option<Value>)
    ensures SetupDir(configDict, false, document) == SetupDirAsWritten(configDict, false, document)
  {
  }

  // ---------------------------------------------------------------------
  // The logger object (src/logger.py:16-160)

  /** A logger other than the root one: its level and how many handlers
      it has. */
  datatype Child = Child(level: int, handlers: nat)

  /** The handlers `_setup_logging` installs in the directory `dir`: the
      console at INFO, the day's file at DEBUG, the day's error file at
      WARNING. */
  function Installed(dir: string, today: string): (hs: seq<Handler>)
    ensures |hs| == 3 && IsConsole(hs[0]) && !IsConsole(hs[1]) && !IsConsole(hs[2])
    ensures hs[0].level == Info && hs[1].level == Debug && hs[2].level == Warning
    ensures hs[1].target.dir == dir && hs[2].target.dir == dir
  {
    [Handler(Stdout, Info),
     Handler(LogFile(dir, "rtk_gnss_" + today + ".log"), Debug),
     Handler(LogFile(dir, "rtk_gnss_errors_" + today + ".log"), Warning)]
  }

  /** The installed handlers have one console handler, so both level
      setters act alike on them. */
  lemma {:induction false} InstalledSingleConsole(dir: string, today: string, level: int)
    ensures FirstConsoleLevel(Installed(dir, today), level) == ConsoleLevels(Installed(dir, today), level)
  {
    SingleConsole(Installed(dir, today), level);
  }

  /** The directory `_setup_logging` settles on: the override when it is
      truthy, else `logs`, and `.` when that directory cannot be made. */
  function SetupDirectory(logDirOverride: Option<string>, dirReady: bool): (dir: string)
    ensures !dirReady ==> dir == "."
    ensures dirReady && logDirOverride.Some? && logDirOverride.value != "" ==> dir == logDirOverride.value
    ensures dirReady && (logDirOverride.None? || logDirOverride.value == "") ==> dir == "logs"
  {
    if !dirReady then "."
    else if logDirOverride.Some? && logDirOverride.value != "" then logDirOverride.value
    else "logs"
  }

  /** The third-party loggers held at WARNING. */
  function Quietened(loggers: map<string, Child>): (r: map<string, Child>)
    ensures r.Keys == loggers.Keys + {"urllib3", "requests"}
    ensures r["urllib3"].level == Warning && r["requests"].level == Warning
    ensures forall k :: k in loggers && k != "urllib3" && k != "requests" ==> r[k] == loggers[k]
  {
    var u := if "urllib3" in loggers then loggers["urllib3"] else Child(NotSet, 0);
    var l := loggers["urllib3" := u.(level := Warning)];
    var q := if "requests" in l then l["requests"] else Child(NotSet, 0);
    l["requests" := q.(level := Warning)]
  }

  /** The registry after `logging.getLogger(n)` for a logger other than
      the root: `n` is registered, and when it has no handlers it is set
      to DEBUG; every other logger stays as it was. */
  predicate Registered(before: map<string, Child>, n: string, after: map<string, Child>)
  {
    && n in after
    && (n in before && before[n].handlers > 0 ==> after == before)
    && (!(n in before && before[n].handlers > 0) ==>
          after[n].level == Debug && after.Keys == before.Keys + {n}
          && forall k :: k in before && k != n ==> after[k] == before[k])
  }

  /** The registry once the one instance is set up: as it was when it
      already was, else with the third-party loggers quietened. */
  function SetUpLoggers(wasInitialized: bool, had: map<string, Child>): map<string, Child>
  {
    if wasInitialized then had else Quietened(had)
  }

  /** `RTKLogger`: the directory its files go to, the root logger's level
      and handlers, and the other loggers of the registry. */
  class RTKLogger {
    var logDir: string
    var rootLevel: int
    var handlers: seq<Handler>
    var loggers: map<string, Child>

    /** `super().__new__(cls)`: an instance nothing has been set up on. */
    constructor ()
      ensures logDir == "" && rootLevel == NotSet && handlers == [] && loggers == map[]
    {
      logDir := "";
      rootLevel := NotSet;
      handlers := [];
      loggers := map[];
    }

    /** `_setup_logging`: the directory (`dirReady` says whether it could
        be made), the root logger at DEBUG with exactly the installed
        handlers, and the third-party loggers at WARNING. */
    method Setup(logDirOverride: Option<string>, dirReady: bool, today: string)
      modifies this
      ensures logDir == SetupDirectory(logDirOverride, dirReady)
      ensures rootLevel == Debug && handlers == Installed(logDir, today)
      ensures loggers == Quietened(old(loggers))
    {
      var dir := if logDirOverride.Some? && logDirOverride.value != "" then logDirOverride.value else "logs";
      if !dirReady {
        dir := ".";
      }
      logDir := dir;
      rootLevel := Debug;
      handlers := [];
      handlers := handlers + [Handler(Stdout, Info)];
      handlers := handlers + [Handler(LogFile(dir, "rtk_gnss_" + today + ".log"), Debug)];
      handlers := handlers + [Handler(LogFile(dir, "rtk_gnss_errors_" + today + ".log"), Warning)];
      loggers := Quietened(loggers);
    }

    /** `get_logger`: the normalised name; a logger without handlers is
        set to DEBUG (the root logger has handlers once set up). */
    method GetLogger(name: string) returns (n: string)
      modifies this
      ensures n == NormaliseName(name) && StartsWith(n, Root)
      ensures logDir == old(logDir) && handlers == old(handlers)
      ensures n == Root ==> loggers == old(loggers)
                            && rootLevel == (if handlers == [] then Debug else old(rootLevel))
      ensures n != Root ==> rootLevel == old(rootLevel) && Registered(old(loggers), n, loggers)
    {
      n := NormaliseName(name);
      if n == Root {
        if handlers == [] {
          rootLevel := Debug;
        }
      } else {
        var child := if n in loggers then loggers[n] else Child(NotSet, 0);
        if child.handlers == 0 {
          child := child.(level := Debug);
        }
        loggers := loggers[n := child];
      }
    }

    /** `set_level`: a known level name sets the root logger and every
        console handler; an unknown one changes nothing. */
    method SetLevel(level: string)
      modifies this
      ensures LevelOf(level).None? ==> rootLevel == old(rootLevel) && handlers == old(handlers)
      ensures LevelOf(level).Some? ==> rootLevel == LevelOf(level).value
                                       && handlers == ConsoleLevels(old(handlers), LevelOf(level).value)
      ensures logDir == old(logDir) && loggers == old(loggers)
    {
      var v := LevelOf(level);
      if v.Some? {
        rootLevel := v.value;
        ghost var was := handlers;
        var i := 0;
        while i < |handlers|
          invariant 0 <= i <= |handlers| == |was|
          invariant handlers[..i] == ConsoleLevels(was[..i], v.value) && handlers[i..] == was[i..]
          invariant rootLevel == v.value && logDir == old(logDir) && loggers == old(loggers)
        {
          SetLevelStep(was, handlers, i, v.value);
          var h := if IsConsole(handlers[i]) then handlers[i].(level := v.value) else handlers[i];
          handlers := handlers[i := h];
          i := i + 1;
        }
        assert handlers == handlers[..i] && was == was[..i];
      }
    }

    /** `set_console_level`: a known level name sets the first console
        handler only; an unknown one changes nothing. */
    method SetConsoleLevel(level: string)
      modifies this
      ensures LevelOf(level).None? ==> handlers == old(handlers)
      ensures LevelOf(level).Some? ==> handlers == FirstConsoleLevel(old(handlers), LevelOf(level).value)
      ensures rootLevel == old(rootLevel) && logDir == old(logDir) && loggers == old(loggers)
    {
      var v := LevelOf(level);
      if v.Some? {
        var i := 0;
        while i < |handlers|
          invariant 0 <= i <= |handlers| == |old(handlers)|
          invariant handlers == old(handlers)
          invariant forall j :: 0 <= j < i ==> !IsConsole(handlers[j])
        {
          if IsConsole(handlers[i]) {
            handlers := handlers[i := handlers[i].(level := v.value)];
            return;
          }
          i := i + 1;
        }
      }
    }
  }

  // ---------------------------------------------------------------------
  // The process-wide state (src/logger.py:19-30, 163-218, 246-286)

  /** The class attributes `RTKLogger._instance` and
      `RTKLogger._initialized`, and the module's `_rtk_logger_instance`. */
  class Process {
    var instance: RTKLogger?
    var initialized: bool
    var global: RTKLogger?

    /** Set up only once there is an instance, and the module's instance
        is the class's. */
    predicate Valid()
      reads this
    {
      (initialized ==> instance != null) && (global != null ==> global == instance && initialized)
    }

    /** A fresh interpreter: nothing created yet. */
    constructor ()
      ensures Valid() && instance == null && !initialized && global == null
    {
      instance := null;
      initialized := false;
      global := null;
    }

    /** The objects a construction may change. */
    function Instances(): set<object>
      reads this
    {
      if instance == null then {} else {instance}
    }

    /** `RTKLogger(log_dir)`: `__new__` hands out the one instance,
        creating it the first time; `__init__` sets it up only while
        `_initialized` is False. */
    method Construct(logDir: Option<string>, dirReady: bool, today: string) returns (l: RTKLogger)
      requires Valid()
      modifies this, Instances()
      ensures Valid() && instance == l && initialized && global == old(global)
      ensures old(instance) != null ==> l == old(instance)
      ensures old(instance) == null ==> fresh(l)
      ensures old(initialized) ==> unchanged(l)
      ensures !old(initialized) ==> l.logDir == SetupDirectory(logDir, dirReady)
                                    && l.rootLevel == Debug && l.handlers == Installed(l.logDir, today)
                                    && l.loggers == Quietened(if old(instance) == null then map[] else old(instance.loggers))
    {
      if instance == null {
        instance := new RTKLogger();
      }
      l := instance;
      if !initialized {
        l.Setup(logDir, dirReady, today);
        initialized := true;
      }
    }

    /** Two constructions give the same object, and the second sets
        nothing up: the instance is as the first construction left it, in
        the first one's directory, whatever the second one asks for. */
    method ConstructTwice(dir1: Option<string>, dir2: Option<string>, dirReady: bool, today: string)
      returns (a: RTKLogger, b: RTKLogger)
      requires Valid()
      modifies this, Instances()
      ensures a == b && Valid() && instance == b && initialized && global == old(global)
      ensures old(initialized) ==> b == old(instance) && unchanged(b)
      ensures !old(initialized) ==> b.logDir == SetupDirectory(dir1, dirReady)
                                    && b.rootLevel == Debug && b.handlers == Installed(b.logDir, today)
                                    && b.loggers == Quietened(if old(instance) == null then map[] else old(instance.loggers))
    {
      a := Construct(dir1, dirReady, today);
      b := Construct(dir2, dirReady, today);
    }

    /** The module's instance, created on first use. */
    method Shared(logDir: Option<string>, dirReady: bool, today: string) returns (l: RTKLogger)
      requires Valid()
      modifies this, Instances()
      ensures Valid() && global == l && instance == l && initialized
      ensures old(global) != null ==> l == old(global)
      ensures old(instance) != null ==> l == old(instance)
      ensures old(instance) == null ==> fresh(l)
      ensures old(initialized) ==> unchanged(l)
      ensures !old(initialized) ==> l.logDir == SetupDirectory(logDir, dirReady)
                                    && l.rootLevel == Debug && l.handlers == Installed(l.logDir, today)
                                    && l.loggers == Quietened(if old(instance) == null then map[] else old(instance.loggers))
    {
      if global == null {
        l := Construct(logDir, dirReady, today);
        global := l;
      } else {
        l := global;
      }
    }

    /** The module's `get_logger(name, log_dir)`: the caller's module name
        stands in for a missing name. */
    method GetLogger(name: Option<string>, caller: string, logDir: Option<string>, dirReady: bool, today: string)
      returns (n: string)
      requires Valid()
      modifies this, Instances()
      ensures Valid() && global != null && global == instance
      ensures old(instance) != null ==> global == old(instance)
      ensures n == NormaliseName(if name.Some? then name.value else caller)
      ensures global.logDir == if old(initialized) then old(instance.logDir) else SetupDirectory(logDir, dirReady)
      ensures global.handlers == if old(initialized) then old(instance.handlers) else Installed(global.logDir, today)
      ensures n == Root ==>
                global.rootLevel == (if old(initialized) && old(instance.handlers) != [] then old(instance.rootLevel) else Debug)
                && global.loggers == SetUpLoggers(old(initialized), old(if instance == null then map[] else instance.loggers))
      ensures n != Root ==>
                global.rootLevel == (if old(initialized) then old(instance.rootLevel) else Debug)
                && Registered(SetUpLoggers(old(initialized), old(if instance == null then map[] else instance.loggers)), n, global.loggers)
    {
      var l := Shared(logDir, dirReady, today);
      n := l.GetLogger(if name.Some? then name.value else caller);
    }

    /** The module's `set_log_level`. */
    method SetLogLevel(level: string, dirReady: bool, today: string)
      requires Valid()
      modifies this, Instances()
      ensures Valid() && global != null && global == instance
      ensures old(instance) != null ==> global == old(instance)
      ensures global.logDir == if old(initialized) then old(instance.logDir) else SetupDirectory(None, dirReady)
      ensures global.loggers == SetUpLoggers(old(initialized), old(if instance == null then map[] else instance.loggers))
      ensures LevelOf(level).Some? ==>
                global.rootLevel == LevelOf(level).value
                && global.handlers == ConsoleLevels(if old(initialized) then old(instance.handlers) else Installed(global.logDir, today),
                                                    LevelOf(level).value)
      ensures LevelOf(level).None? ==>
                global.rootLevel == (if old(initialized) then old(instance.rootLevel) else Debug)
                && global.handlers == (if old(initialized) then old(instance.handlers) else Installed(global.logDir, today))
    {
      var l := Shared(None, dirReady, today);
      l.SetLevel(level);
    }

    /** The module's `set_console_log_level`. */
    method SetConsoleLogLevel(level: string, dirReady: bool, today: string)
      requires Valid()
      modifies this, Instances()
      ensures Valid() && global != null && global == instance
      ensures old(instance) != null ==> global == old(instance)
      ensures global.logDir == if old(initialized) then old(instance.logDir) else SetupDirectory(None, dirReady)
      ensures global.loggers == SetUpLoggers(old(initialized), old(if instance == null then map[] else instance.loggers))
      ensures global.rootLevel == if old(initialized) then old(instance.rootLevel) else Debug
      ensures LevelOf(level).Some? ==>
                global.handlers == FirstConsoleLevel(if old(initialized) then old(instance.handlers) else Installed(global.logDir, today),
                                                     LevelOf(level).value)
      ensures LevelOf(level).None? ==>
                global.handlers == if old(initialized) then old(instance.handlers) else Installed(global.logDir, today)
    {
      var l := Shared(None, dirReady, today);
      l.SetConsoleLevel(level);
    }

    /** `setup_logging_from_config`: the directory the configuration names
        (None where Python raises, before anything changes); any module
        instance is dropped and `_initialized` cleared, so that the one
        instance is set up again in that directory. */
    method SetupFromConfig(configDict: Value, fileGiven: bool, document: Option<Value>, dirReady: bool, today: string)
      returns (l: Option<RTKLogger>)
      requires Valid()
      modifies this, Instances()
      ensures Valid()
      ensures SetupDir(configDict, fileGiven, document).None? ==>
                l.None? && unchanged(this) && (old(instance) != null ==> unchanged(old(instance)))
      ensures SetupDir(configDict, fileGiven, document).Some? ==>
                l.Some? && global == l.value && instance == l.value && initialized
                && (old(instance) != null ==> l.value == old(instance))
                && (old(instance) == null ==> fresh(l.value))
      ensures SetupDir(configDict, fileGiven, document).Some? && (old(global) != null || !old(initialized)) ==>
                l.Some?
                && l.value.logDir == SetupDirectory(SetupDir(configDict, fileGiven, document), dirReady)
                && l.value.rootLevel == Debug && l.value.handlers == Installed(l.value.logDir, today)
                && l.value.loggers == Quietened(if old(instance) == null then map[] else old(instance.loggers))
      ensures SetupDir(configDict, fileGiven, document).Some? && old(global) == null && old(initialized) ==>
                l.Some? && l.value == old(instance) && unchanged(l.value)
    {
      var dir := SetupDir(configDict, fileGiven, document);
      if dir.None? {
        return None;
      }
      if global != null {
        global := null;
        initialized := false;
      }
      var r := Construct(Some(dir.value), dirReady, today);
      global := r;
      l := Some(r);
    }
  }
}
