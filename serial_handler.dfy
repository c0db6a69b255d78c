/** The link to the GNSS receiver (`SerialHandler`): the choice between a
    TCP socket and a serial port from the shape of its configuration, the
    parsing of `socket://host:port` and `tcp://host:port` ports, opening and
    closing the connection, writing correction data and reading NMEA lines.
    The receiver's side of the link is an input: the events the reads meet
    (`incoming`), and whether each write or open succeeds. */
module Serial {
  import opened Values
  import opened Text
  import Utf8

  // ---------------------------------------------------------------------
  // Choosing the transport (__init__)

  /** The TCP port of a URL-form port that names none. */
  const DefaultTcpPort := 9999

  /** `port.startswith('socket://') or port.startswith('tcp://')` */
  predicate IsUrl(port: string) {
    StartsWith(port, "socket://") || StartsWith(port, "tcp://")
  }

  /** `port.replace('socket://', '').replace('tcp://', '')` */
  function UrlPart(port: string): string {
    ReplaceAll(ReplaceAll(port, "socket://", ""), "tcp://", "")
  }

  /** Python's `isinstance(port, int)`, which holds for booleans too. */
  predicate IsInt(v: Value) {
    v.Int? || v.Bool?
  }

  /** What `__init__` settles: the transport, and the configuration after
      `host` and `tcp_port` are filled in from a URL-form port. */
  datatype Setup = Setup(isTcp: bool, config: map<string, Value>)

  /** `int(port_str)` of the text after the first `:` failed. */
  predicate BadUrlPort(url: string) {
    ':' in url && ParseInt(url[IndexOf(url, ':') + 1..]).None?
  }

  /** `config['host'] = host; config['tcp_port'] = port`: only those two
      keys change. */
  function Filled(config: map<string, Value>, host: Value, port: Value): (c: map<string, Value>)
    ensures c.Keys == config.Keys + {"host", "tcp_port"}
    ensures c["host"] == host && c["tcp_port"] == port
    ensures forall k :: k in config && k != "host" && k != "tcp_port" ==> c[k] == config[k]
  {
    config["host" := host]["tcp_port" := port]
  }

  /** The configuration a URL-form port fills in: the text before the first
      `:` is the host, the rest the TCP port (9999 with no `:`). */
  function UrlSetup(config: map<string, Value>, url: string): (r: Option<Setup>)
    ensures r.None? <==> BadUrlPort(url)
    ensures r.Some? ==> r.value.isTcp
    ensures r.Some? && ':' !in url ==> r.value.config == Filled(config, Str(url), Int(DefaultTcpPort))
  {
    if ':' in url then
      var i := IndexOf(url, ':');
      match ParseInt(url[i + 1..])
      case None => None
      case Some(n) => Some(Setup(true, Filled(config, Str(url[..i]), Int(n))))
    else Some(Setup(true, Filled(config, Str(url), Int(DefaultTcpPort))))
  }

  /** `SerialHandler.__init__(config)`: None where `int(port_str)` raises
      `ValueError`. */
  function Init(config: map<string, Value>): (r: Option<Setup>)
    ensures r.None? <==> !Truthy(Get(config, "host")) && !IsInt(GetOr(config, "port", Str("")))
                         && GetOr(config, "port", Str("")).Str? && IsUrl(GetOr(config, "port", Str("")).s)
                         && BadUrlPort(UrlPart(GetOr(config, "port", Str("")).s))
  {
    var port := GetOr(config, "port", Str(""));
    if Truthy(Get(config, "host")) || IsInt(port) then Some(Setup(true, config))
    else if port.Str? && IsUrl(port.s) then UrlSetup(config, UrlPart(port.s))
    else Some(Setup(Truthy(Get(config, "tcp_port")), config))
  }

  /** The transport is TCP exactly when `host` is truthy, the port is an
      integer or a URL, or `tcp_port` is truthy. */
  lemma {:induction false} TransportChoice(config: map<string, Value>, port: Value)
    requires port == GetOr(config, "port", Str("")) && Init(config).Some?
    ensures Init(config).value.isTcp <==>
              (Truthy(Get(config, "host")) || IsInt(port) || (port.Str? && IsUrl(port.s))
               || Truthy(Get(config, "tcp_port")))
  {
  }

  /** Only a URL-form port changes the configuration, and then only `host`
      and `tcp_port`. */
  lemma {:induction false} InitKeeps(config: map<string, Value>, port: Value)
    requires port == GetOr(config, "port", Str("")) && Init(config).Some?
    ensures !(port.Str? && IsUrl(port.s)) || Truthy(Get(config, "host")) ==> Init(config).value.config == config
    ensures forall k :: k in config && k != "host" && k != "tcp_port" ==>
              k in Init(config).value.config && Init(config).value.config[k] == config[k]
    ensures Init(config).value.config.Keys <= config.Keys + {"host", "tcp_port"}
  {
    if !Truthy(Get(config, "host")) && !IsInt(port) && port.Str? && IsUrl(port.s) {
      var url := UrlPart(port.s);
      assert Init(config) == UrlSetup(config, url);
      if ':' in url {
        var i := IndexOf(url, ':');
        var n := ParseInt(url[i + 1..]);
        assert Init(config).value.config == Filled(config, Str(url[..i]), Int(n.value));
      }
    }
  }

  /** A URL-form port on a configuration without a truthy host is parsed. */
  lemma {:induction false} InitUrl(config: map<string, Value>, port: string)
    requires "port" in config && config["port"] == Str(port) && IsUrl(port)
    requires !Truthy(Get(config, "host"))
    ensures Init(config) == UrlSetup(config, UrlPart(port))
  {
  }

  /** Both schemes come off a port whose rest has no `/`. */
  lemma {:induction false} SchemeRemoved(scheme: string, rest: string)
    requires scheme == "socket://" || scheme == "tcp://"
    requires '/' !in rest
    ensures IsUrl(scheme + rest) && UrlPart(scheme + rest) == rest
  {
    assert (scheme + rest)[..|scheme|] == scheme;
    assert "socket://"[7] == '/' && "tcp://"[4] == '/';
    ReplaceAbsent(rest, "socket://", "", '/');
    ReplaceAbsent(rest, "tcp://", "", '/');
    var u := ReplaceAll(scheme + rest, "socket://", "");
    if scheme == "socket://" {
      ReplaceLeading(rest, "socket://", "");
      assert u == "" + rest == rest;
    } else {
      ReplaceAfter(scheme, rest, "socket://", "");
      assert u == scheme + rest;
      ReplaceLeading(rest, "tcp://", "");
      assert ReplaceAll(u, "tcp://", "") == "" + rest;
    }
  }

  /** `host:str(n)` splits into the host and the port number. */
  lemma {:induction false} HostAndPort(config: map<string, Value>, host: string, n: nat)
    requires ':' !in host
    ensures UrlSetup(config, host + ":" + IntText(n)) == Some(Setup(true, Filled(config, Str(host), Int(n))))
  {
    var url := host + ":" + IntText(n);
    ParseIntPadded(n, 0);
    IndexOfUnique(url, ':', |host|);
    assert url[|host| + 1..] == IntText(n) && url[..|host|] == host;
  }

  /** The text of a natural number holds no `/` and no `:`. */
  lemma {:induction false} NumberPlain(n: nat)
    ensures '/' !in IntText(n) && ':' !in IntText(n)
  {
    assert IntText(n) == NatText(n);
    assert forall i :: 0 <= i < |NatText(n)| ==> IsDigit(NatText(n)[i]);
  }

  /** A port `scheme + host + ":" + str(n)` on a configuration without a
      truthy host selects TCP with that host and TCP port. */
  lemma {:induction false} UrlWithPort(config: map<string, Value>, scheme: string, host: string, n: nat)
    requires scheme == "socket://" || scheme == "tcp://"
    requires ':' !in host && '/' !in host
    requires "port" in config && config["port"] == Str(scheme + host + ":" + IntText(n))
    requires !Truthy(Get(config, "host"))
    ensures Init(config) == Some(Setup(true, Filled(config, Str(host), Int(n))))
  {
    var rest := host + ":" + IntText(n);
    assert scheme + host + ":" + IntText(n) == scheme + rest;
    NumberPlain(n);
    assert '/' !in rest;
    SchemeRemoved(scheme, rest);
    InitUrl(config, scheme + rest);
    HostAndPort(config, host, n);
  }

  /** A port `scheme + host` without `:` gets the default TCP port. */
  lemma {:induction false} UrlWithoutPort(config: map<string, Value>, scheme: string, host: string)
    requires scheme == "socket://" || scheme == "tcp://"
    requires ':' !in host && '/' !in host
    requires "port" in config && config["port"] == Str(scheme + host)
    requires !Truthy(Get(config, "host"))
    ensures Init(config) == Some(Setup(true, Filled(config, Str(host), Int(DefaultTcpPort))))
  {
    SchemeRemoved(scheme, host);
    InitUrl(config, scheme + host);
  }

  // ---------------------------------------------------------------------
  // The address _open_tcp connects to

  /** The value `socket.connect` is given. */
  datatype Peer = Peer(host: Value, port: Value)

  /** `int(v)` of a configuration value: None where Python raises. */
  function IntOf(v: Value): Option<int> {
    match v
    case Int(i) => Some(i)
    case Bool(b) => Some(if b then 1 else 0)
    case Float(r) => Some(Truncate(r))
    case Str(s) => ParseInt(s)
    case _ => None
  }

  /** `int(config.get('port', 9999))`, the default port of `_open_tcp`. */
  function PortNumber(config: map<string, Value>): Option<int> {
    IntOf(GetOr(config, "port", Int(DefaultTcpPort)))
  }

  /** The address of `_open_tcp` AS WRITTEN (src/serial_handler.py:61-62):
      the default `int(port)` is evaluated before `get` looks at
      `tcp_port`, so a port `int()` rejects fails the open even when
      `tcp_port` is set. None where the lookups raise. */
  function PeerAsWritten(config: map<string, Value>): (r: Option<Peer>)
    ensures r.Some? <==> "host" in config && PortNumber(config).Some?
    ensures r.Some? ==> r.value.host == config["host"]
    ensures r.Some? && "tcp_port" in config ==> r.value.port == config["tcp_port"]
    ensures r.Some? && "tcp_port" !in config ==> r.value.port == Int(PortNumber(config).value)
  {
    if "host" !in config then None
    else
      match PortNumber(config)
      case None => None
      case Some(p) => Some(Peer(config["host"], GetOr(config, "tcp_port", Int(p))))
  }

  /** The address `_open_tcp` evidently means: the host, and `tcp_port` when
      it is set, else `int(port)`, else 9999. */
  function PeerOf(config: map<string, Value>): (r: Option<Peer>)
    ensures r.Some? <==> "host" in config && ("tcp_port" in config || PortNumber(config).Some?)
    ensures r.Some? ==> r.value.host == config["host"]
    ensures r.Some? && "tcp_port" in config ==> r.value.port == config["tcp_port"]
    ensures r.Some? && "tcp_port" !in config ==> r.value.port == Int(PortNumber(config).value)
  {
    if "host" !in config then None
    else if "tcp_port" in config then Some(Peer(config["host"], config["tcp_port"]))
    else
      match PortNumber(config)
      case None => None
      case Some(p) => Some(Peer(config["host"], Int(p)))
  }

  /** The two agree wherever `int(port)` succeeds; the written one fails
      wherever it does not. */
  lemma {:induction false} PeerAgrees(config: map<string, Value>)
    ensures PortNumber(config).Some? ==> PeerAsWritten(config) == PeerOf(config)
    ensures PortNumber(config).None? ==> PeerAsWritten(config).None?
  {
  }

  /** A URL-form port is no integer, so as written it never opens, while
      the host and TCP port parsed from it are what the address means. */
  lemma {:induction false} UrlPortNeverOpens(config: map<string, Value>, scheme: string, host: string, n: nat)
    requires scheme == "socket://" || scheme == "tcp://"
    requires ':' !in host && '/' !in host
    requires "port" in config && config["port"] == Str(scheme + host + ":" + IntText(n))
    requires !Truthy(Get(config, "host"))
    ensures Init(config).Some? && Init(config).value.isTcp
    ensures PeerAsWritten(Init(config).value.config).None?
    ensures PeerOf(Init(config).value.config) == Some(Peer(Str(host), Int(n)))
  {
    UrlWithPort(config, scheme, host, n);
    var c := Init(config).value.config;
    var p := scheme + host + ":" + IntText(n);
    assert c["port"] == Str(p) && p[0] == scheme[0];
    ParseIntRejects(p);
    PeersOfUnreadPort(c, p, host, n);
  }

  /** With a port `int()` rejects, the written lookup fails and the intended
      one uses `tcp_port`. */
  lemma {:induction false} PeersOfUnreadPort(c: map<string, Value>, p: string, host: string, n: nat)
    requires "port" in c && c["port"] == Str(p) && ParseInt(p) == None
    requires "host" in c && c["host"] == Str(host) && "tcp_port" in c && c["tcp_port"] == Int(n)
    ensures PeerAsWritten(c).None?
    ensures PeerOf(c) == Some(Peer(Str(host), Int(n)))
  {
  }

  // ---------------------------------------------------------------------
  // The serial port's settings (_open_serial)

  /** The arguments of `serial.Serial(...)`. */
  datatype PortSettings = PortSettings(port: Value, baudrate: Value, timeout: Value,
                                        bytesize: Value, parity: Value, stopbits: Value)

  /** `_open_serial`'s arguments: `port` is required (None where the lookup
      raises), the others default to 115200 baud, a 1 s timeout, 8 data
      bits, no parity and one stop bit. */
  function PortSettingsOf(config: map<string, Value>): (r: Option<PortSettings>)
    ensures r.Some? <==> "port" in config
  {
    if "port" !in config then None
    else Some(PortSettings(config["port"], GetOr(config, "baudrate", Int(115200)),
                           GetOr(config, "timeout", Float(1.0)), GetOr(config, "bytesize", Int(8)),
                           GetOr(config, "parity", Str("N")), GetOr(config, "stopbits", Int(1))))
  }

  /** A configuration with only a port, a baud rate and a timeout opens the
      port with exactly those and the defaults for the rest. */
  lemma {:induction false} PortDefaults(config: map<string, Value>, port: Value, baudrate: Value, timeout: Value)
    requires config == map["port" := port, "baudrate" := baudrate, "timeout" := timeout]
    ensures PortSettingsOf(config) == Some(PortSettings(port, baudrate, timeout, Int(8), Str("N"), Int(1)))
  {
  }

  // ---------------------------------------------------------------------
  // Reading a line

  /** What reading one byte meets on the link: a byte, the end of the
      stream, the read timeout, or another error. */
  datatype Event = Arrived(b: byte) | Ended | Quiet | Fault

  /** Why a line read stopped. */
  datatype Stop = Newline | EndOfStream | TimedOut | Failed

  /** The bytes a line read collected, why it stopped, and how many events
      it consumed. */
  datatype Assembly = Assembly(bytes: seq<byte>, stop: Stop, used: nat)

  function StopAt(e: Event): Stop {
    match e
    case Arrived(_) => Newline
    case Ended => EndOfStream
    case Quiet => TimedOut
    case Fault => Failed
  }

  /** Reads single bytes from `events` until a newline (which is kept), the
      end of the stream, a timeout or an error; when no event is left the
      read times out. */
  function Assemble(events: seq<Event>): (a: Assembly)
    ensures |a.bytes| <= a.used <= |events|
    decreases |events|
  {
    if events == [] then Assembly([], TimedOut, 0)
    else
      match events[0]
      case Arrived(b) =>
        if b == 10 then Assembly([b], Newline, 1)
        else Extend(b, Assemble(events[1..]))
      case _ => Assembly([], StopAt(events[0]), 1)
  }

  /** One more byte in front of a read. */
  function Extend(b: byte, a: Assembly): Assembly {
    Assembly([b] + a.bytes, a.stop, a.used + 1)
  }

  /** A read collects the bytes that arrived in front of the first newline
      (and that newline), and stops at the event after them, or times out
      when the events run out. */
  lemma {:induction false} AssembleShape(events: seq<Event>)
    ensures var a := Assemble(events);
            (forall i :: 0 <= i < |a.bytes| ==> events[i] == Arrived(a.bytes[i]))
            && (forall i :: 0 <= i < |a.bytes| - 1 ==> a.bytes[i] != 10)
            && (a.stop == Newline <==> a.bytes != [] && a.bytes[|a.bytes| - 1] == 10)
            && (a.stop == Newline ==> a.used == |a.bytes|)
            && (a.stop != Newline ==>
                  (a.used == |a.bytes| == |events| && a.stop == TimedOut)
                  || (a.used == |a.bytes| + 1 && !events[|a.bytes|].Arrived? && a.stop == StopAt(events[|a.bytes|])))
    decreases |events|
  {
    if events != [] && events[0].Arrived? && events[0].b != 10 {
      AssembleShape(events[1..]);
      var r := Assemble(events[1..]);
      assert Assemble(events) == Extend(events[0].b, r);
    }
  }

  /** A read that has already collected `prefix`. */
  function Resume(prefix: seq<byte>, a: Assembly): Assembly {
    Assembly(prefix + a.bytes, a.stop, |prefix| + a.used)
  }

  /** One step of a read that has collected `prefix`. */
  lemma {:induction false} AssembleStep(prefix: seq<byte>, events: seq<Event>)
    ensures events == [] ==> Resume(prefix, Assemble(events)) == Assembly(prefix, TimedOut, |prefix|)
    ensures events != [] && events[0] == Arrived(10) ==>
              Resume(prefix, Assemble(events)) == Assembly(prefix + [10], Newline, |prefix| + 1)
    ensures events != [] && events[0].Arrived? && events[0].b != 10 ==>
              Resume(prefix, Assemble(events)) == Resume(prefix + [events[0].b], Assemble(events[1..]))
    ensures events != [] && !events[0].Arrived? ==>
              Resume(prefix, Assemble(events)) == Assembly(prefix, StopAt(events[0]), |prefix| + 1)
  {
    if events != [] && events[0].Arrived? && events[0].b != 10 {
      var r := Assemble(events[1..]);
      assert Assemble(events) == Extend(events[0].b, r);
      assert prefix + ([events[0].b] + r.bytes) == (prefix + [events[0].b]) + r.bytes;
    }
  }

  /** `_read_line_tcp`: the line, stripped, when the read stopped at a
      newline or at the end of the stream having collected something;
      None on a timeout or an error, which loses the bytes read. */
  function TcpLine(events: seq<Event>): Option<string> {
    var a := Assemble(events);
    if (a.stop == Newline || a.stop == EndOfStream) && a.bytes != [] then
      Some(Strip(Utf8.DecodeIgnore(a.bytes)))
    else None
  }

  /** `_read_line_serial`: pyserial's `readline` returns what it collected
      when the timeout ends it; a vanished device (the end of the stream)
      and other errors raise, which gives None. */
  function SerialLine(events: seq<Event>): Option<string> {
    var a := Assemble(events);
    if (a.stop == Newline || a.stop == TimedOut) && a.bytes != [] then
      Some(Strip(Utf8.DecodeIgnore(a.bytes)))
    else None
  }

  /** The text of bytes that hold a newline byte at most at their end has
      no newline once stripped, and no whitespace at either edge. */
  lemma {:induction false} CleanLine(bytes: seq<byte>)
    requires forall i :: 0 <= i < |bytes| - 1 ==> bytes[i] != 10
    ensures '\n' !in Strip(Utf8.DecodeIgnore(bytes))
    ensures Strip(Strip(Utf8.DecodeIgnore(bytes))) == Strip(Utf8.DecodeIgnore(bytes))
  {
    StripIdempotent(Utf8.DecodeIgnore(bytes));
    if bytes != [] && bytes[|bytes| - 1] == 10 {
      var body := bytes[..|bytes| - 1];
      assert 10 !in body;
      assert bytes == body + [10];
      Utf8.DecodeSnocAscii(body, 10);
      Utf8.DecodeAvoidsAscii(body, 10);
      StripDropsLast(Utf8.DecodeIgnore(body), '\n');
    } else {
      assert 10 !in bytes;
      Utf8.DecodeAvoidsAscii(bytes, 10);
      StripKeepsOut(Utf8.DecodeIgnore(bytes), '\n');
    }
  }

  /** A TCP line read gives text with no newline and no edge whitespace. */
  lemma {:induction false} TcpLineClean(events: seq<Event>, line: string)
    requires TcpLine(events) == Some(line)
    ensures '\n' !in line && Strip(line) == line
  {
    AssembleShape(events);
    CleanLine(Assemble(events).bytes);
  }

  /** So does a serial line read. */
  lemma {:induction false} SerialLineClean(events: seq<Event>, line: string)
    requires SerialLine(events) == Some(line)
    ensures '\n' !in line && Strip(line) == line
  {
    AssembleShape(events);
    CleanLine(Assemble(events).bytes);
  }

  /** The events of bytes arriving one after the other. */
  function Arrivals(b: seq<byte>): (r: seq<Event>)
    ensures |r| == |b| && forall i :: 0 <= i < |b| ==> r[i] == Arrived(b[i])
  {
    seq(|b|, i requires 0 <= i < |b| => Arrived(b[i]))
  }

  /** Bytes ending in the only newline among them are read as one line,
      and the read consumes exactly them. */
  lemma {:induction false} AssembleLine(b: seq<byte>, rest: seq<Event>)
    requires b != [] && b[|b| - 1] == 10 && forall i :: 0 <= i < |b| - 1 ==> b[i] != 10
    ensures Assemble(Arrivals(b) + rest) == Assembly(b, Newline, |b|)
    decreases |b|
  {
    var events := Arrivals(b) + rest;
    assert events[0] == Arrived(b[0]);
    if |b| > 1 {
      assert events[1..] == Arrivals(b[1..]) + rest;
      AssembleLine(b[1..], rest);
      assert b == [b[0]] + b[1..];
    }
  }

  /** An ASCII sentence sent with CRLF is read back as the sentence, on
      either transport (the `readline` of `$GNGGA,test*00\r\n` gives
      `$GNGGA,test*00`). */
  lemma {:induction false} ReadsSentLine(s: string, rest: seq<Event>)
    requires Ascii(s) && '\n' !in s
    requires s != [] && !IsWhitespace(s[0]) && !IsWhitespace(s[|s| - 1])
    ensures Assemble(Arrivals(Utf8.Encode(s + "\r\n")) + rest).used == |s| + 2
    ensures TcpLine(Arrivals(Utf8.Encode(s + "\r\n")) + rest) == Some(s)
    ensures SerialLine(Arrivals(Utf8.Encode(s + "\r\n")) + rest) == Some(s)
  {
    var t := s + "\r\n";
    assert Ascii(t) by {
      assert forall i :: 0 <= i < |t| ==> t[i] == (if i < |s| then s[i] else "\r\n"[i - |s|]);
    }
    Utf8.EncodeAscii(t);
    var b := Utf8.Encode(t);
    assert forall i :: 0 <= i < |s| ==> b[i] == s[i] as int && s[i] != '\n';
    assert b[|s|] == 13 && b[|s| + 1] == 10;
    AssembleLine(b, rest);
    Utf8.DecodeEncode(t);
    StripCrLf(s);
  }

  // ---------------------------------------------------------------------
  // Writing

  /** What `write(data)` may be given: text, bytes, or anything else. */
  datatype Payload = Chars(s: string) | Octets(b: seq<byte>) | Unsupported

  /** The bytes `write` hands to `write_rtcm`: text as UTF-8, bytes as
      they are; None for any other type. */
  function PayloadBytes(data: Payload): Option<seq<byte>> {
    match data
    case Chars(s) => Some(Utf8.Encode(s))
    case Octets(b) => Some(b)
    case Unsupported => None
  }

  /** What the receiver gets from `write` is what was written: bytes
      unchanged, text that decodes back to itself. */
  lemma {:induction false} PayloadFaithful(data: Payload)
    ensures data.Unsupported? <==> PayloadBytes(data).None?
    ensures data.Octets? ==> PayloadBytes(data) == Some(data.b)
    ensures data.Chars? ==> Utf8.DecodeIgnore(PayloadBytes(data).value) == data.s
  {
    if data.Chars? {
      Utf8.DecodeEncode(data.s);
    }
  }

  // ---------------------------------------------------------------------
  // The handler object

  /** `self.connection`: none yet, a socket (connected to `peer` once
      `connect` succeeded), or a serial port opened with `settings`. */
  datatype Connection = NoConnection | Socket(peer: Option<Peer>) | Port(settings: PortSettings)

  /** `SerialHandler`: its configuration, the transport, `is_open`, the
      connection with its read timeout and whether the socket or port
      underneath is open; and the link's other end: the events still to
      read and the writes received. */
  class Handler {
    var config: map<string, Value>
    const isTcp: bool
    var isOpen: bool
    var connection: Connection
    var live: bool
    var timeout: Value
    var incoming: seq<Event>
    var written: seq<seq<byte>>

    /** The connection matches the transport; without one the handler is
        not open. */
    ghost predicate Valid()
      reads this
    {
      (connection.Socket? ==> isTcp) && (connection.Port? ==> !isTcp)
      && (connection.NoConnection? ==> !isOpen && !live)
    }

    /** The handler `__init__` leaves: no connection, not open. */
    constructor (setup: Setup, incoming: seq<Event>)
      ensures config == setup.config && isTcp == setup.isTcp
      ensures !isOpen && connection == NoConnection && !live && timeout == Null
      ensures this.incoming == incoming && written == []
      ensures Valid()
    {
      config := setup.config;
      isTcp := setup.isTcp;
      isOpen := false;
      connection := NoConnection;
      live := false;
      timeout := Null;
      this.incoming := incoming;
      written := [];
    }

    /** `_open_tcp()`: a new socket; it opens when the address can be
        formed and `connects` (the connect and `settimeout` succeed), and
        then reads with the configured timeout (1 s by default). A failure
        leaves `is_open` as it was, on a socket that is not connected. */
    method OpenTcp(connects: bool) returns (ok: bool)
      requires Valid() && isTcp
      modifies this`isOpen, this`connection, this`live, this`timeout
      ensures ok == (PeerOf(config).Some? && connects)
      ensures connection == Socket(if ok then PeerOf(config) else None)
      ensures ok ==> isOpen && live && timeout == GetOr(config, "timeout", Float(1.0))
      ensures !ok ==> isOpen == old(isOpen) && !live && timeout == Null
      ensures Valid()
    {
      connection := Socket(None);
      live := false;
      timeout := Null;
      var peer := PeerOf(config);
      if peer.None? || !connects {
        return false;
      }
      connection := Socket(peer);
      live := true;
      timeout := GetOr(config, "timeout", Float(1.0));
      isOpen := true;
      ok := true;
    }

    /** `_open_serial()`: the port opens when `port` is configured and
        `opens` (pyserial accepts the settings); `is_open` then copies
        pyserial's own flag, `portOpen`, and the result is True even when
        that flag is False. A failure leaves the handler as it was. */
    method OpenSerial(opens: bool, portOpen: bool) returns (ok: bool)
      requires Valid() && !isTcp
      modifies this`isOpen, this`connection, this`live, this`timeout
      ensures ok == (PortSettingsOf(config).Some? && opens)
      ensures ok ==> connection == Port(PortSettingsOf(config).value) && isOpen == portOpen
                     && live == portOpen && timeout == PortSettingsOf(config).value.timeout
      ensures !ok ==> isOpen == old(isOpen) && connection == old(connection) && live == old(live)
                      && timeout == old(timeout)
      ensures Valid()
    {
      var settings := PortSettingsOf(config);
      if settings.None? || !opens {
        return false;
      }
      connection := Port(settings.value);
      live := portOpen;
      timeout := settings.value.timeout;
      isOpen := portOpen;
      ok := true;
    }

    /** `open()` (and `connect()`): the transport's own open. */
    method Open(connects: bool, opens: bool, portOpen: bool) returns (ok: bool)
      requires Valid()
      modifies this`isOpen, this`connection, this`live, this`timeout
      ensures isTcp ==> ok == (PeerOf(config).Some? && connects) && connection.Socket?
      ensures !isTcp ==> ok == (PortSettingsOf(config).Some? && opens)
      ensures ok && isTcp ==> isOpen && live && connection.peer == PeerOf(config)
      ensures ok && !isTcp ==> isOpen == live == portOpen && connection == Port(PortSettingsOf(config).value)
      ensures ok && isTcp ==> timeout == GetOr(config, "timeout", Float(1.0))
      ensures !ok && isTcp ==> isOpen == old(isOpen) && connection == Socket(None) && !live && timeout == Null
      ensures !ok && !isTcp ==> isOpen == old(isOpen) && connection == old(connection) && live == old(live)
                                && timeout == old(timeout)
      ensures ok && !isTcp ==> timeout == PortSettingsOf(config).value.timeout
      ensures Valid()
    {
      if isTcp {
        ok := OpenTcp(connects);
      } else {
        ok := OpenSerial(opens, portOpen);
      }
    }

    /** `close()`: closes the connection if there is one (the reference is
        kept) and clears `is_open`; closing twice changes nothing more. */
    method Close()
      requires Valid()
      modifies this`isOpen, this`live
      ensures !isOpen && !live
      ensures Valid()
    {
      if connection != NoConnection {
        live := false;
      }
      isOpen := false;
    }

    /** `write_rtcm(data)`: no I/O unless open with a connection; a write
        error (`fails`, or a connection that is not open underneath) gives
        False and leaves `is_open` as it was. */
    method WriteRtcm(data: seq<byte>, fails: bool) returns (ok: bool)
      modifies this`written
      ensures ok == (isOpen && connection != NoConnection && live && !fails)
      ensures written == if ok then old(written) + [data] else old(written)
    {
      if !isOpen || connection == NoConnection {
        return false;
      }
      if !live || fails {
        return false;
      }
      written := written + [data];
      ok := true;
    }

    /** `write(data)`: text is sent UTF-8-encoded, bytes unchanged; any
        other type gives False without I/O. */
    method Write(data: Payload, fails: bool) returns (ok: bool)
      modifies this`written
      ensures ok == (PayloadBytes(data).Some? && isOpen && connection != NoConnection && live && !fails)
      ensures written == if ok then old(written) + [PayloadBytes(data).value] else old(written)
    {
      match data
      case Chars(s) =>
        ok := WriteRtcm(Utf8.Encode(s), fails);
      case Octets(b) =>
        ok := WriteRtcm(b, fails);
      case Unsupported =>
        ok := false;
    }

    /** `recv(1)`: the next event; with none left the read times out
        without consuming anything. */
    method Receive() returns (e: Event)
      modifies this`incoming
      ensures old(incoming) == [] ==> e == Quiet && incoming == []
      ensures old(incoming) != [] ==> e == old(incoming)[0] && incoming == old(incoming)[1..]
    {
      if incoming == [] {
        return Quiet;
      }
      e := incoming[0];
      incoming := incoming[1..];
    }

    /** `_read_line_tcp(t)`: sets the socket's timeout, then reads single
        bytes until a newline, the end of the stream, a timeout or an
        error. On a socket that is not connected the first read raises. */
    method ReadLineTcp(t: real) returns (line: Option<string>)
      modifies this`incoming, this`timeout
      ensures live ==> line == TcpLine(old(incoming)) && incoming == old(incoming)[Assemble(old(incoming)).used..]
      ensures !live ==> line == None && incoming == old(incoming)
      ensures timeout == Float(t)
    {
      timeout := Float(t);
      if !live {
        return None;
      }
      ghost var events := incoming;
      var bytes: seq<byte> := [];
      var stop := TimedOut;
      var done := false;
      while !done
        invariant |incoming| <= |events| && incoming == events[|events| - |incoming|..]
        invariant timeout == Float(t)
        invariant !done ==> Assemble(events) == Resume(bytes, Assemble(incoming)) && |bytes| == |events| - |incoming|
        invariant done ==> Assemble(events) == Assembly(bytes, stop, |events| - |incoming|)
        decreases |incoming| + (if done then 0 else 1)
      {
        ghost var before := incoming;
        AssembleStep(bytes, before);
        var e := Receive();
        match e
        case Arrived(b) =>
          if b == 10 {
            stop := Newline;
            done := true;
          }
          bytes := bytes + [b];
        case _ =>
          stop := StopAt(e);
          done := true;
      }
      if (stop == Newline || stop == EndOfStream) && bytes != [] {
        line := Some(Strip(Utf8.DecodeIgnore(bytes)));
      } else {
        line := None;
      }
    }

    /** `_read_line_serial(t)`: reads one line with timeout `t` through
        pyserial's `readline` (which raises on a port that is not open) and
        always puts the previous timeout back. */
    method ReadLineSerial(t: real) returns (line: Option<string>)
      modifies this`incoming, this`timeout
      ensures live ==> line == SerialLine(old(incoming)) && incoming == old(incoming)[Assemble(old(incoming)).used..]
      ensures !live ==> line == None && incoming == old(incoming)
      ensures timeout == old(timeout)
    {
      var saved := timeout;
      timeout := Float(t);
      if live {
        var a := Assemble(incoming);
        incoming := incoming[a.used..];
        if (a.stop == Newline || a.stop == TimedOut) && a.bytes != [] {
          line := Some(Strip(Utf8.DecodeIgnore(a.bytes)));
        } else {
          line := None;
        }
      } else {
        line := None;
      }
      timeout := saved;
    }

    /** Whether `read_nmea` reaches the transport's read. */
    predicate Readable()
      reads this
    {
      isOpen && connection != NoConnection
    }

    /** `read_nmea(t)`: nothing is read unless open with a connection;
        then the transport's line read. */
    method ReadNmea(t: real) returns (line: Option<string>)
      modifies this`incoming, this`timeout
      ensures !Readable() || !live ==> line == None && incoming == old(incoming)
      ensures !Readable() ==> timeout == old(timeout)
      ensures Readable() && live ==> incoming == old(incoming)[Assemble(old(incoming)).used..]
      ensures Readable() && live && isTcp ==> line == TcpLine(old(incoming))
      ensures Readable() && live && !isTcp ==> line == SerialLine(old(incoming))
      ensures Readable() ==> timeout == if isTcp then Float(t) else old(timeout)
    {
      if !isOpen || connection == NoConnection {
        return None;
      }
      if isTcp {
        line := ReadLineTcp(t);
      } else {
        line := ReadLineSerial(t);
      }
    }

    /** `read_line()`: `read_nmea` with its default one-second timeout. */
    method ReadLine() returns (line: Option<string>)
      modifies this`incoming, this`timeout
      ensures !Readable() || !live ==> line == None && incoming == old(incoming)
      ensures Readable() && live && isTcp ==> line == TcpLine(old(incoming))
      ensures Readable() && live && !isTcp ==> line == SerialLine(old(incoming))
    {
      line := ReadNmea(1.0);
    }
  }

  /** `SerialHandler(config)`: None where `__init__` raises. */
  method Create(config: map<string, Value>, incoming: seq<Event>) returns (h: Option<Handler>)
    ensures Init(config).None? ==> h.None?
    ensures Init(config).Some? ==> h.Some? && fresh(h.value) && h.value.Valid()
                                   && h.value.config == Init(config).value.config
                                   && h.value.isTcp == Init(config).value.isTcp
                                   && !h.value.isOpen && h.value.connection == NoConnection
                                   && h.value.incoming == incoming && h.value.written == []
  {
    var setup := Init(config);
    if setup.None? {
      return None;
    }
    var handler := new Handler(setup.value, incoming);
    h := Some(handler);
  }
}
