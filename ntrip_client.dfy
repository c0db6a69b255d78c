/** The NTRIP 1.0 client: the request it sends to the caster, the reading of
    the caster's handshake, the classification of the reply, the source-table
    parser, the retrying connect with its mountpoint fallbacks, and the
    `connected` flag that guards sending GGA sentences and receiving RTCM.
    The network is an oracle: the n-th TCP connection the client opens meets
    `network(n)`, either a connect error or the chunks the caster sends. */
module Ntrip {
  import opened Values
  import opened Text
  import Utf8
  import Base64

  // ---------------------------------------------------------------------
  // The request

  /** The entries of the `ntrip` configuration section the requests use
      (`mountpoint` is kept apart: the client rewrites it). */
  datatype Settings = Settings(server: string, port: int, username: string, password: string,
                               userAgent: Option<string>)

  /** `config.get('user_agent', 'NTRIP Client')` */
  function Agent(s: Settings): (r: string)
    ensures s.userAgent.None? ==> r == "NTRIP Client"
    ensures s.userAgent.Some? ==> r == s.userAgent.value
  {
    if s.userAgent.Some? then s.userAgent.value else "NTRIP Client"
  }

  /** The HTTP Basic credentials of section 2 of RFC 7617: Base64 (section 4
      of RFC 4648) of the UTF-8 encoding of `username:password`. */
  function Credentials(username: string, password: string): string {
    Base64.Encode(Utf8.Encode(username + ":" + password))
  }

  /** The request line and the three header lines, each ending in CRLF,
      and the blank line that ends the request. */
  function Request(s: Settings, mountpoint: string): string {
    RequestOf(mountpoint, Agent(s), Credentials(s.username, s.password))
  }

  function RequestOf(mountpoint: string, agent: string, credentials: string): string {
    RequestLine(mountpoint) + Header("User-Agent", agent) + Header("Authorization", "Basic " + credentials)
    + Header("Connection", "close") + "\r\n"
  }

  /** `GET /<mountpoint> HTTP/1.1` and CRLF. */
  function RequestLine(mountpoint: string): string {
    "GET /" + mountpoint + " HTTP/1.1\r\n"
  }

  /** A header line `<name>: <value>` and CRLF. */
  function Header(name: string, value: string): (r: string)
    ensures |r| >= 2 && r[|r| - 2..] == "\r\n"
  {
    name + ": " + value + "\r\n"
  }

  /** The bytes that go over the socket for a request. */
  function RequestBytes(s: Settings, mountpoint: string): seq<byte> {
    Utf8.Encode(Request(s, mountpoint))
  }

  /** The caster reads back the user name and password the request carries. */
  lemma {:induction false} CredentialsRoundTrip(username: string, password: string)
    ensures Base64.Decode(Credentials(username, password)).Some?
    ensures Utf8.DecodeIgnore(Base64.Decode(Credentials(username, password)).value) == username + ":" + password
  {
    Base64.DecodeEncode(Utf8.Encode(username + ":" + password));
    Utf8.DecodeEncode(username + ":" + password);
  }

  /** The request opens with the request line for the mountpoint, carries
      the agent and the credentials in their header lines, and ends with the
      blank line. */
  lemma {:induction false} RequestShape(s: Settings, mountpoint: string)
    ensures StartsWith(Request(s, mountpoint), RequestLine(mountpoint))
    ensures Contains(Request(s, mountpoint), Header("User-Agent", Agent(s)))
    ensures Contains(Request(s, mountpoint), Header("Authorization", "Basic " + Credentials(s.username, s.password)))
    ensures |Request(s, mountpoint)| >= 4
    ensures Request(s, mountpoint)[|Request(s, mountpoint)| - 4..] == "\r\n\r\n"
  {
    var agent := Header("User-Agent", Agent(s));
    var auth := Header("Authorization", "Basic " + Credentials(s.username, s.password));
    RequestParts(Request(s, mountpoint), RequestLine(mountpoint), agent, auth, Header("Connection", "close"), "\r\n");
  }

  lemma {:induction false} RequestParts(r: string, line: string, agent: string, auth: string, close: string, blank: string)
    requires r == line + agent + auth + close + blank && |close| >= 2 && close[|close| - 2..] == "\r\n"
    requires blank == "\r\n"
    ensures StartsWith(r, line) && Contains(r, agent) && Contains(r, auth)
    ensures |r| >= 4 && r[|r| - 4..] == "\r\n\r\n"
  {
    assert r[..|line|] == line;
    assert r[|line|..|line| + |agent|] == agent;
    ContainsAt(r, agent, |line|);
    assert r[|line| + |agent|..|line| + |agent| + |auth|] == auth;
    ContainsAt(r, auth, |line| + |agent|);
    assert r[|r| - 4..] == close[|close| - 2..] + blank;
  }

  // ---------------------------------------------------------------------
  // Reading the handshake

  /** What one `recv(1024)` during the handshake gives: a chunk (empty when
      the caster closed the connection) or a socket timeout. The sequence of
      these an attempt meets ends where the handshake deadline falls. */
  datatype Recv = Chunk(data: seq<byte>) | RecvTimeout

  const Terminator: seq<byte> := [13, 10, 13, 10]

  /** `b'\r\n\r\n' in data` */
  predicate Terminated(data: seq<byte>)
    decreases |data|
  {
    (|data| >= 4 && data[..4] == Terminator) || (data != [] && Terminated(data[1..]))
  }

  /** The handshake buffer `buffer` grown by the rest of the receives: stop at
      the deadline, a timeout or an empty chunk, or after the first chunk
      that leaves the terminator in the buffer. */
  function Handshake(buffer: seq<byte>, replies: seq<Recv>): seq<byte>
    decreases |replies|
  {
    if replies == [] then buffer
    else match replies[0]
      case RecvTimeout => buffer
      case Chunk(d) =>
        if d == [] then buffer
        else if Terminated(buffer + d) then buffer + d
        else Handshake(buffer + d, replies[1..])
  }

  /** The bytes of the first `k` receives. */
  function Received(replies: seq<Recv>): seq<byte> {
    if replies == [] then [] else (if replies[0].Chunk? then replies[0].data else []) + Received(replies[1..])
  }

  /** How many receives the handshake consumes. */
  function Consumed(buffer: seq<byte>, replies: seq<Recv>): (k: nat)
    ensures k <= |replies|
    decreases |replies|
  {
    if replies == [] then 0
    else match replies[0]
      case RecvTimeout => 0
      case Chunk(d) =>
        if d == [] then 0
        else if Terminated(buffer + d) then 1
        else 1 + Consumed(buffer + d, replies[1..])
  }

  lemma {:induction false} ReceivedSnoc(replies: seq<Recv>, k: nat)
    requires k < |replies| && replies[k].Chunk?
    ensures Received(replies[..k + 1]) == Received(replies[..k]) + replies[k].data
  {
    ReceivedAppend(replies[..k], [replies[k]]);
    assert replies[..k + 1] == replies[..k] + [replies[k]];
  }

  lemma {:induction false} ReceivedAppend(a: seq<Recv>, b: seq<Recv>)
    ensures Received(a + b) == Received(a) + Received(b)
    decreases |a|
  {
    if a != [] {
      assert (a + b)[1..] == a[1..] + b;
      ReceivedAppend(a[1..], b);
    } else {
      assert a + b == b;
    }
  }

  /** The handshake keeps the buffer and appends exactly the chunks of the
      receives it consumes, and it stopped at the deadline, at a timeout or
      an empty chunk, or with the terminator in the buffer. */
  lemma {:induction false} HandshakeReads(buffer: seq<byte>, replies: seq<Recv>)
    ensures Handshake(buffer, replies) == buffer + Received(replies[..Consumed(buffer, replies)])
    ensures Consumed(buffer, replies) == |replies|
            || replies[Consumed(buffer, replies)] == RecvTimeout
            || replies[Consumed(buffer, replies)] == Chunk([])
            || Terminated(Handshake(buffer, replies))
    decreases |replies|
  {
    var k := Consumed(buffer, replies);
    if replies != [] && replies[0].Chunk? && replies[0].data != [] {
      var d := replies[0].data;
      assert Received(replies[..1]) == d by {
        assert replies[..1][1..] == [];
      }
      if !Terminated(buffer + d) {
        var rest := replies[1..];
        HandshakeReads(buffer + d, rest);
        var k' := Consumed(buffer + d, rest);
        assert replies[..k][1..] == rest[..k'];
        assert k' == |rest| || replies[k] == rest[k'];
      }
    } else {
      assert replies[..0] == [];
    }
  }

  /** Every receive the handshake consumes is a non-empty chunk, and none
      before the last leaves the terminator in the buffer. */
  lemma {:induction false} HandshakeChunks(buffer: seq<byte>, replies: seq<Recv>)
    ensures forall j :: 0 <= j < Consumed(buffer, replies) ==> replies[j].Chunk? && replies[j].data != []
    ensures forall j :: 0 < j < Consumed(buffer, replies) ==> !Terminated(buffer + Received(replies[..j]))
    decreases |replies|
  {
    var k := Consumed(buffer, replies);
    if replies != [] && replies[0].Chunk? && replies[0].data != [] && !Terminated(buffer + replies[0].data) {
      var d := replies[0].data;
      var rest := replies[1..];
      HandshakeChunks(buffer + d, rest);
      forall j | 0 <= j < k ensures replies[j].Chunk? && replies[j].data != [] {
        if j > 0 {
          assert replies[j] == rest[j - 1];
        }
      }
      forall j | 0 < j < k ensures !Terminated(buffer + Received(replies[..j])) {
        assert replies[..j][1..] == rest[..j - 1];
        if j == 1 {
          assert Received(replies[..1]) == d + Received(rest[..0]);
          assert buffer + Received(replies[..j]) == buffer + d;
        } else {
          assert buffer + Received(replies[..j]) == (buffer + d) + Received(rest[..j - 1]);
        }
      }
    }
  }

  /** The handshake read of `connect` and `_try_single_connection`: append
      each chunk, stop at a timeout, an empty chunk, the terminator or the
      deadline. */
  method ReadHandshake(replies: seq<Recv>) returns (data: seq<byte>)
    ensures data == Handshake([], replies)
  {
    data := [];
    var i := 0;
    while i < |replies|
      invariant 0 <= i <= |replies|
      invariant Handshake([], replies) == Handshake(data, replies[i..])
    {
      assert replies[i..][1..] == replies[i + 1..];
      match replies[i]
      case RecvTimeout =>
        break;
      case Chunk(d) =>
        if d == [] {
          break;
        }
        data := data + d;
        if Terminated(data) {
          break;
        }
      i := i + 1;
    }
  }

  // ---------------------------------------------------------------------
  // The caster's reply

  /** What the client makes of the decoded reply, in the order it tests. */
  datatype Reply = Accepted | Sourcetable | Denied | Rejected

  function Classify(response: string): (r: Reply)
    ensures r == Accepted <==> Contains(response, "ICY 200 OK")
    ensures r == Sourcetable <==> !Contains(response, "ICY 200 OK") && Contains(response, "SOURCETABLE")
    ensures r == Denied <==> !Contains(response, "ICY 200 OK") && !Contains(response, "SOURCETABLE")
                             && (Contains(response, "401") || Contains(response, "403"))
  {
    if Contains(response, "ICY 200 OK") then Accepted
    else if Contains(response, "SOURCETABLE") then Sourcetable
    else if Contains(response, "401") || Contains(response, "403") then Denied
    else Rejected
  }

  // ---------------------------------------------------------------------
  // The source table

  /** `line.startswith('STR;')` */
  predicate IsRecord(line: string) {
    |line| >= 4 && line[0] == 'S' && line[1] == 'T' && line[2] == 'R' && line[3] == ';'
  }

  /** The mountpoint a source-table line names: the stripped second
      `;`-field of a stripped line starting with `STR;`, when not empty. */
  function RecordName(line: string): (r: seq<string>)
    ensures |r| <= 1
  {
    var l := Strip(line);
    if IsRecord(l) then
      var parts := Split(l, ';');
      if |parts| > 1 && Strip(parts[1]) != [] then [Strip(parts[1])] else []
    else []
  }

  /** The names of the records among `lines`, in order. */
  function SourcetableNames(lines: seq<string>): seq<string> {
    if lines == [] then [] else RecordName(lines[0]) + SourcetableNames(lines[1..])
  }

  /** The steps of the loop body compute `RecordName`. */
  lemma {:induction false} RecordNameSteps(raw: string, line: string, parts: seq<string>, name: string)
    requires line == Strip(raw) && parts == Split(line, ';') && (|parts| > 1 ==> name == Strip(parts[1]))
    ensures RecordName(raw) == if IsRecord(line) && |parts| > 1 && name != [] then [name] else []
  {
  }

  lemma {:induction false} SourcetableCons(lines: seq<string>, i: nat)
    requires i < |lines|
    ensures SourcetableNames(lines[i..]) == RecordName(lines[i]) + SourcetableNames(lines[i + 1..])
  {
    assert lines[i..][1..] == lines[i + 1..];
  }

  lemma {:induction false} ConcatAssoc<T>(a: seq<T>, b: seq<T>, c: seq<T>)
    ensures a + (b + c) == (a + b) + c
  {
  }

  /** `_parse_sourcetable`: walks the lines and appends every record's name. */
  method ParseSourcetable(text: string) returns (names: seq<string>)
    ensures names == SourcetableNames(Split(text, '\n'))
  {
    var lines := Split(text, '\n');
    names := [];
    assert lines[0..] == lines;
    for i := 0 to |lines|
      invariant SourcetableNames(lines) == names + SourcetableNames(lines[i..])
    {
      ghost var before, found, after := names, RecordName(lines[i]), SourcetableNames(lines[i + 1..]);
      assert SourcetableNames(lines[i..]) == found + after by {
        SourcetableCons(lines, i);
      }
      var line := Strip(lines[i]);
      var parts := Split(line, ';');
      var name := if |parts| > 1 then Strip(parts[1]) else [];
      assert found == if IsRecord(line) && |parts| > 1 && name != [] then [name] else [] by {
        RecordNameSteps(lines[i], line, parts, name);
      }
      if IsRecord(line) {
        if |parts| > 1 {
          if name != [] {
            names := names + [name];
          }
        }
      }
      assert names == before + found;
      ConcatAssoc(before, found, after);
    }
  }

  /** A name a record can carry: not empty, no edge whitespace, no `;`
      and no line break. */
  predicate PlainName(n: string) {
    n != [] && !IsWhitespace(n[0]) && !IsWhitespace(n[|n| - 1]) && ';' !in n && '\n' !in n
  }

  /** The name of one record is not empty, stripped, and free of `;`. */
  lemma {:induction false} RecordNamePlain(line: string)
    ensures forall n :: n in RecordName(line) ==> n != [] && Strip(n) == n && ';' !in n
  {
    var l := Strip(line);
    var parts := Split(l, ';');
    if |parts| > 1 {
      var n := Strip(parts[1]);
      RecordNameSteps(line, l, parts, n);
      assert ';' !in parts[1];
      StripIdempotent(parts[1]);
      StripKeepsOut(parts[1], ';');
    } else {
      RecordNameSteps(line, l, parts, []);
    }
  }

  /** Every name found is not empty, stripped, and free of `;`. */
  lemma {:induction false} NamesPlain(lines: seq<string>)
    ensures forall n :: n in SourcetableNames(lines) ==> n != [] && Strip(n) == n && ';' !in n
    decreases |lines|
  {
    if lines != [] {
      NamesPlain(lines[1..]);
      RecordNamePlain(lines[0]);
    }
  }

  /** `STR;<name>;<rest>`: a record line. */
  function Record(name: string, rest: string): string {
    "STR;" + name + ";" + rest
  }

  /** A line `STR;<name>;<rest>` with a plain name names that name. */
  lemma {:induction false} RecordNamed(name: string, rest: string)
    requires PlainName(name)
    requires rest == [] || !IsWhitespace(rest[|rest| - 1])
    ensures RecordName(Record(name, rest)) == [name]
  {
    var l := Record(name, rest);
    var tail := name + ";" + rest;
    RecordFacts(l, name, rest, tail);
    assert Strip(l) == l by {
      StripEdges(l);
    }
    IndexOfUnique(l, ';', 3);
    IndexOfUnique(tail, ';', |name|);
    assert Split(l, ';')[1] == name;
    assert Strip(name) == name by {
      StripEdges(name);
    }
  }

  lemma {:induction false} RecordFacts(l: string, name: string, rest: string, tail: string)
    requires l == Record(name, rest) && tail == name + ";" + rest && name != [] && ';' !in name
    ensures IsRecord(l) && !IsWhitespace(l[0]) && l[|l| - 1] == (if rest == [] then ';' else rest[|rest| - 1])
    ensures l[..3] == "STR" && ';' !in l[..3] && l[4..] == tail && tail[..|name|] == name && tail[|name|] == ';'
    ensures tail[|name| + 1..] == rest
  {
  }

  lemma {:induction false} StripEdges(s: string)
    requires s != [] && !IsWhitespace(s[0]) && !IsWhitespace(s[|s| - 1])
    ensures Strip(s) == s
  {
    assert TrimStart(s) == s;
  }

  // ---------------------------------------------------------------------
  // Connecting

  /** How opening the TCP connection of one attempt can fail. */
  datatype Failure = ConnectTimeout | DnsFailure | Refused | OtherError

  /** What the n-th connection the client opens meets: a connect error;
      a connection on which the request is written and the caster's
      receives follow; or a connection on which the request is handed to
      `send` and then `send`, or a `recv` of the handshake, raises an error
      other than a receive timeout (a reset, say), so that the reply is
      never read. */
  datatype Attempt = Unreachable(failure: Failure) | Reached(replies: seq<Recv>) | Broken

  /** The caster's decoded reply on a reached connection. */
  function Response(replies: seq<Recv>): string {
    Utf8.DecodeIgnore(Handshake([], replies))
  }

  /** What the client makes of a connection: the connect error, or the
      class of the caster's reply and the mountpoints it names. */
  datatype Answer = Failed(failure: Failure) | Dropped | Replied(reply: Reply, names: seq<string>)

  function AnswerOf(a: Attempt): Answer {
    match a
    case Unreachable(f) => Failed(f)
    case Broken => Dropped
    case Reached(replies) =>
      Replied(Classify(Response(replies)), SourcetableNames(Split(Response(replies), '\n')))
  }

  /** `answers` says what the client makes of the n-th connection of
      `network`. */
  predicate Links(network: nat -> Attempt, answers: nat -> Answer, n: nat) {
    answers(n) == AnswerOf(network(n))
  }

  /** An answer is an acceptance exactly when the connection was reached
      and the caster's reply carries `ICY 200 OK`. */
  lemma {:induction false} AcceptedMeans(a: Attempt)
    ensures AnswerOf(a).Replied? && AnswerOf(a).reply == Accepted
            <==> a.Reached? && Contains(Response(a.replies), "ICY 200 OK")
  {
  }

  /** An answer is a refusal of the credentials exactly when the reply
      carries neither `ICY 200 OK` nor `SOURCETABLE` but `401` or `403`. */
  lemma {:induction false} DeniedMeans(a: Attempt)
    ensures AnswerOf(a).Replied? && AnswerOf(a).reply == Denied
            <==> a.Reached? && !Contains(Response(a.replies), "ICY 200 OK")
                 && !Contains(Response(a.replies), "SOURCETABLE")
                 && (Contains(Response(a.replies), "401") || Contains(Response(a.replies), "403"))
  {
  }

  /** The mountpoints a source-table answer names are the records of the
      reply's lines. */
  lemma {:induction false} NamesMeans(a: Attempt)
    requires a.Reached?
    ensures AnswerOf(a).names == SourcetableNames(Split(Response(a.replies), '\n'))
  {
  }

  /** What the client writes on a socket: the request for a mountpoint,
      or a GGA sentence. */
  datatype Message = Requested(mountpoint: string) | Gga(line: string)

  /** The bytes of a message on the wire. */
  function Wire(s: Settings, m: Message): seq<byte> {
    match m
    case Requested(mountpoint) => RequestBytes(s, mountpoint)
    case Gga(line) => Utf8.Encode(line)
  }

  /** The caster decodes every message back to the text the client wrote. */
  lemma {:induction false} WireDecodes(s: Settings, m: Message)
    ensures m.Requested? ==> Utf8.DecodeIgnore(Wire(s, m)) == Request(s, m.mountpoint)
    ensures m.Gga? ==> Utf8.DecodeIgnore(Wire(s, m)) == m.line
  {
    match m {
    case Requested(mountpoint) => Utf8.DecodeEncode(Request(s, mountpoint));
    case Gga(line) => Utf8.DecodeEncode(line);
    }
  }

  /** The mountpoints tried, in order, when the source table names none. */
  const Common: seq<string> := ["RTCM33_GRC", "RTCM33_GRCEJ", "RTCM3", "RTCM32"]

  /** One of the first two common mountpoints, for which no fallback is
      tried. */
  predicate IsGrc(mountpoint: string) {
    mountpoint in Common[..2]
  }

  /** `_try_single_connection(mountpoint)` on a connection answering `answer`:
      whether the caster accepted, and what was sent. */
  function Single(mountpoint: string, answer: Answer): (bool, seq<Message>) {
    match answer
    case Failed(_) => (false, [])
    case Dropped => (false, [Requested(mountpoint)])
    case Replied(reply, _) => (reply == Accepted, [Requested(mountpoint)])
  }

  /** The outcome of trying a list of mountpoints one connection each:
      the first accepted, the next connection index, the messages sent. */
  datatype Trial = Trial(found: Option<string>, next: nat, sent: seq<Message>)

  function Fallback(answers: nat -> Answer, at: nat, candidates: seq<string>): (t: Trial)
    ensures t.found.Some? ==> t.found.value in candidates
    ensures at <= t.next <= at + |candidates|
    decreases |candidates|
  {
    if candidates == [] then Trial(None, at, [])
    else
      var single := Single(candidates[0], answers(at));
      if single.0 then Trial(Some(candidates[0]), at + 1, single.1)
      else
        var t := Fallback(answers, at + 1, candidates[1..]);
        Trial(t.found, t.next, single.1 + t.sent)
  }

  /** The outcome of `connect`: success, the mountpoint in the
      configuration afterwards, the next connection index, whether
      `self.socket` is set, and the messages sent. */
  datatype Outcome = Outcome(ok: bool, mountpoint: string, next: nat, socket: bool, sent: seq<Message>)

  function Prepend(sent: seq<Message>, o: Outcome): Outcome {
    Outcome(o.ok, o.mountpoint, o.next, o.socket, sent + o.sent)
  }

  /** `connect(retry_count)` from attempt number `attempt` on, with
      connection index `at`: a DNS error or a 401/403 reply ends it at once,
      other errors and replies go on to the next attempt, `ICY 200 OK` ends
      it connected. In the first attempt a source table either names a
      mountpoint, which the client adopts and connects to again with one
      attempt (restoring the old name if that fails), or names none, and then
      the common mountpoints are tried unless the configured one is one of
      the first two. `fuel` bounds the nesting of the source-table retries,
      which the client itself does not bound. */
  function Attempts(answers: nat -> Answer, mountpoint: string, at: nat, attempt: nat,
                    retryCount: nat, fuel: nat, socket: bool): (o: Outcome)
    ensures o.next >= at
    decreases fuel, retryCount - attempt, 3
  {
    if attempt >= retryCount then Outcome(false, mountpoint, at, socket, [])
    else match answers(at)
      case Failed(f) =>
        if f == DnsFailure then Outcome(false, mountpoint, at + 1, true, [])
        else Attempts(answers, mountpoint, at + 1, attempt + 1, retryCount, fuel, false)
      case Dropped =>
        Prepend([Requested(mountpoint)], Attempts(answers, mountpoint, at + 1, attempt + 1, retryCount, fuel, false))
      case Replied(reply, names) =>
        Prepend([Requested(mountpoint)], Answered(answers, mountpoint, at + 1, attempt, retryCount, fuel,
                                                   reply, names))
  }

  /** The rest of an attempt once the caster's reply is classified. */
  function Answered(answers: nat -> Answer, mountpoint: string, at: nat, attempt: nat,
                    retryCount: nat, fuel: nat, reply: Reply, names: seq<string>): (o: Outcome)
    requires attempt < retryCount
    ensures o.next >= at
    decreases fuel, retryCount - attempt, 2
  {
    match reply
    case Accepted => Outcome(true, mountpoint, at, true, [])
    case Denied => Outcome(false, mountpoint, at, true, [])
    case Rejected => Attempts(answers, mountpoint, at, attempt + 1, retryCount, fuel, false)
    case Sourcetable => AfterSourcetable(answers, mountpoint, at, attempt, retryCount, fuel, names)
  }

  /** The rest of an attempt that received a source table naming `names`. */
  function AfterSourcetable(answers: nat -> Answer, mountpoint: string, at: nat, attempt: nat,
                            retryCount: nat, fuel: nat, names: seq<string>): (o: Outcome)
    requires attempt < retryCount
    ensures o.next >= at
    decreases fuel, retryCount - attempt, 1
  {
    if names != [] && attempt == 0 then
      if fuel == 0 then Outcome(false, mountpoint, at, false, [])
      else
        var o := Attempts(answers, names[0], at, 0, 1, fuel - 1, false);
        if o.ok then o else Outcome(false, mountpoint, o.next, o.socket, o.sent)
    else if names == [] && !IsGrc(mountpoint) && attempt == 0 then
      AfterFallback(answers, mountpoint, at, attempt, retryCount, fuel, Common)
    else Attempts(answers, mountpoint, at, attempt + 1, retryCount, fuel, false)
  }

  /** The rest of an attempt that tried the fallback `candidates`: the
      first accepted one is adopted, otherwise the next attempt follows. */
  function AfterFallback(answers: nat -> Answer, mountpoint: string, at: nat, attempt: nat,
                         retryCount: nat, fuel: nat, candidates: seq<string>): (o: Outcome)
    requires attempt < retryCount
    ensures o.next >= at
    decreases fuel, retryCount - attempt, 0
  {
    var t := Fallback(answers, at, candidates);
    if t.found.Some? then Outcome(true, t.found.value, t.next, true, t.sent)
    else Prepend(t.sent, Attempts(answers, mountpoint, t.next, attempt + 1, retryCount, fuel, false))
  }

  // ---------------------------------------------------------------------
  // What connect promises

  /** `connect` fails only with the mountpoint it started with: a
      source-table retry that fails puts the old name back. */
  lemma {:induction false} FailureRestores(answers: nat -> Answer, mountpoint: string, at: nat,
                                           attempt: nat, retryCount: nat, fuel: nat, socket: bool)
    ensures var o := Attempts(answers, mountpoint, at, attempt, retryCount, fuel, socket);
            !o.ok ==> o.mountpoint == mountpoint
    decreases fuel, retryCount - attempt, 2
  {
    if attempt < retryCount {
      match answers(at) {
      case Failed(f) =>
        if f != DnsFailure {
          FailureRestores(answers, mountpoint, at + 1, attempt + 1, retryCount, fuel, false);
        }
      case Dropped =>
        FailureRestores(answers, mountpoint, at + 1, attempt + 1, retryCount, fuel, false);
      case Replied(reply, names) =>
        var a := Answered(answers, mountpoint, at + 1, attempt, retryCount, fuel, reply, names);
        assert Attempts(answers, mountpoint, at, attempt, retryCount, fuel, socket)
               == Prepend([Requested(mountpoint)], a);
        match reply {
        case Accepted =>
        case Denied =>
        case Rejected =>
          FailureRestores(answers, mountpoint, at + 1, attempt + 1, retryCount, fuel, false);
        case Sourcetable =>
          SourcetableRestores(answers, mountpoint, at + 1, attempt, retryCount, fuel, names);
        }
      }
    }
  }

  lemma {:induction false} SourcetableRestores(answers: nat -> Answer, mountpoint: string, at: nat, attempt: nat,
                                               retryCount: nat, fuel: nat, names: seq<string>)
    requires attempt < retryCount
    ensures var o := AfterSourcetable(answers, mountpoint, at, attempt, retryCount, fuel, names);
            !o.ok ==> o.mountpoint == mountpoint
    decreases fuel, retryCount - attempt, 1
  {
    if names != [] && attempt == 0 {
    } else if names == [] && !IsGrc(mountpoint) && attempt == 0 {
      FallbackRestores(answers, mountpoint, at, attempt, retryCount, fuel, Common);
    } else {
      FailureRestores(answers, mountpoint, at, attempt + 1, retryCount, fuel, false);
    }
  }

  lemma {:induction false} FallbackRestores(answers: nat -> Answer, mountpoint: string, at: nat, attempt: nat,
                                            retryCount: nat, fuel: nat, candidates: seq<string>)
    requires attempt < retryCount
    ensures var o := AfterFallback(answers, mountpoint, at, attempt, retryCount, fuel, candidates);
            !o.ok ==> o.mountpoint == mountpoint
    decreases fuel, retryCount - attempt, 0
  {
    var t := Fallback(answers, at, candidates);
    if t.found.None? {
      FailureRestores(answers, mountpoint, t.next, attempt + 1, retryCount, fuel, false);
    }
  }

  /** The outcome `o` ends on a connection opened at index `at` or later,
      on which the caster's reply carried `ICY 200 OK`, after the request
      for the mountpoint `o` ends with; the client keeps that socket. */
  predicate AcceptedAfter(answers: nat -> Answer, at: nat, o: Outcome) {
    o.next > at && answers(o.next - 1).Replied? && answers(o.next - 1).reply == Accepted
    && o.sent != [] && o.sent[|o.sent| - 1] == Requested(o.mountpoint) && o.socket
  }

  lemma {:induction false} PrependAccepted(answers: nat -> Answer, at: nat, later: nat, sent: seq<Message>, o: Outcome)
    requires at <= later && AcceptedAfter(answers, later, o)
    ensures AcceptedAfter(answers, at, Prepend(sent, o))
  {
    assert (sent + o.sent)[|sent + o.sent| - 1] == o.sent[|o.sent| - 1];
  }

  /** `connect` succeeds only when the caster answered the last
      connection it opened with `ICY 200 OK`, to the request for the
      mountpoint the configuration ends up with. */
  lemma {:induction false} SuccessAccepted(answers: nat -> Answer, mountpoint: string, at: nat,
                                           attempt: nat, retryCount: nat, fuel: nat, socket: bool)
    ensures var o := Attempts(answers, mountpoint, at, attempt, retryCount, fuel, socket);
            o.ok ==> AcceptedAfter(answers, at, o)
    decreases fuel, retryCount - attempt, 2
  {
    if attempt < retryCount {
      match answers(at) {
      case Failed(f) =>
        if f != DnsFailure {
          SuccessAccepted(answers, mountpoint, at + 1, attempt + 1, retryCount, fuel, false);
        }
      case Dropped =>
        SuccessAccepted(answers, mountpoint, at + 1, attempt + 1, retryCount, fuel, false);
        var rest := Attempts(answers, mountpoint, at + 1, attempt + 1, retryCount, fuel, false);
        if rest.ok {
          PrependAccepted(answers, at, at + 1, [Requested(mountpoint)], rest);
        }
      case Replied(reply, names) =>
        var a := Answered(answers, mountpoint, at + 1, attempt, retryCount, fuel, reply, names);
        assert Attempts(answers, mountpoint, at, attempt, retryCount, fuel, socket)
               == Prepend([Requested(mountpoint)], a);
        match reply {
        case Accepted =>
        case Denied =>
        case Rejected =>
          SuccessAccepted(answers, mountpoint, at + 1, attempt + 1, retryCount, fuel, false);
          if a.ok {
            PrependAccepted(answers, at, at + 1, [Requested(mountpoint)], a);
          }
        case Sourcetable =>
          SourcetableAccepted(answers, mountpoint, at + 1, attempt, retryCount, fuel, names);
          if a.ok {
            PrependAccepted(answers, at, at + 1, [Requested(mountpoint)], a);
          }
        }
      }
    }
  }

  lemma {:induction false} SourcetableAccepted(answers: nat -> Answer, mountpoint: string, at: nat, attempt: nat,
                                               retryCount: nat, fuel: nat, names: seq<string>)
    requires attempt < retryCount
    ensures var o := AfterSourcetable(answers, mountpoint, at, attempt, retryCount, fuel, names);
            o.ok ==> AcceptedAfter(answers, at, o)
    decreases fuel, retryCount - attempt, 1
  {
    var whole := AfterSourcetable(answers, mountpoint, at, attempt, retryCount, fuel, names);
    if names != [] && attempt == 0 {
      if fuel > 0 {
        var o := Attempts(answers, names[0], at, 0, 1, fuel - 1, false);
        assert whole == if o.ok then o else Outcome(false, mountpoint, o.next, o.socket, o.sent);
        SuccessAccepted(answers, names[0], at, 0, 1, fuel - 1, false);
      }
    } else if names == [] && !IsGrc(mountpoint) && attempt == 0 {
      assert whole == AfterFallback(answers, mountpoint, at, attempt, retryCount, fuel, Common);
      FallbackThenAccepted(answers, mountpoint, at, attempt, retryCount, fuel, Common);
    } else {
      assert whole == Attempts(answers, mountpoint, at, attempt + 1, retryCount, fuel, false);
      SuccessAccepted(answers, mountpoint, at, attempt + 1, retryCount, fuel, false);
    }
  }

  lemma {:induction false} FallbackThenAccepted(answers: nat -> Answer, mountpoint: string, at: nat, attempt: nat,
                                                retryCount: nat, fuel: nat, candidates: seq<string>)
    requires attempt < retryCount
    ensures var o := AfterFallback(answers, mountpoint, at, attempt, retryCount, fuel, candidates);
            o.ok ==> AcceptedAfter(answers, at, o)
    decreases fuel, retryCount - attempt, 0
  {
    var t := Fallback(answers, at, candidates);
    if t.found.Some? {
      FallbackAccepted(answers, at, candidates);
    } else {
      SuccessAccepted(answers, mountpoint, t.next, attempt + 1, retryCount, fuel, false);
      var o := Attempts(answers, mountpoint, t.next, attempt + 1, retryCount, fuel, false);
      if o.ok {
        PrependAccepted(answers, at, t.next, t.sent, o);
      }
    }
  }

  /** A fallback mountpoint is adopted only when the caster accepted it on
      the last connection tried. */
  lemma {:induction false} FallbackAccepted(answers: nat -> Answer, at: nat, candidates: seq<string>)
    ensures var t := Fallback(answers, at, candidates);
            t.found.Some? ==> t.next > at && answers(t.next - 1).Replied? && answers(t.next - 1).reply == Accepted
                              && t.sent != [] && t.sent[|t.sent| - 1] == Requested(t.found.value)
    decreases |candidates|
  {
    if candidates != [] && !Single(candidates[0], answers(at)).0 {
      var t := Fallback(answers, at + 1, candidates[1..]);
      FallbackAccepted(answers, at + 1, candidates[1..]);
      if t.found.Some? {
        var first := Single(candidates[0], answers(at)).1;
        assert (first + t.sent)[|first + t.sent| - 1] == t.sent[|t.sent| - 1];
      }
    }
  }

  /** A DNS error, or a 401/403 reply, ends `connect` at once with no
      further connection. */
  lemma {:induction false} TerminalErrors(answers: nat -> Answer, mountpoint: string, at: nat, retryCount: nat,
                       fuel: nat, socket: bool)
    requires retryCount > 0
    requires answers(at) == Failed(DnsFailure)
             || (answers(at).Replied? && answers(at).reply == Denied)
    ensures !Attempts(answers, mountpoint, at, 0, retryCount, fuel, socket).ok
    ensures Attempts(answers, mountpoint, at, 0, retryCount, fuel, socket).next == at + 1
  {
  }

  /** When every connection times out, is refused or fails otherwise,
      `connect` makes exactly `retryCount` attempts and fails. */
  lemma {:induction false} RetriesExhausted(answers: nat -> Answer, mountpoint: string, at: nat,
                                            attempt: nat, retryCount: nat, fuel: nat, socket: bool)
    requires attempt <= retryCount
    requires forall i :: at <= i < at + (retryCount - attempt) ==>
               answers(i).Failed? && answers(i).failure != DnsFailure
    ensures !Attempts(answers, mountpoint, at, attempt, retryCount, fuel, socket).ok
    ensures Attempts(answers, mountpoint, at, attempt, retryCount, fuel, socket).next == at + (retryCount - attempt)
    ensures Attempts(answers, mountpoint, at, attempt, retryCount, fuel, socket).sent == []
    decreases retryCount - attempt
  {
    if attempt < retryCount {
      RetriesExhausted(answers, mountpoint, at + 1, attempt + 1, retryCount, fuel, false);
    }
  }

  /** One request for `mountpoint` for each dropped connection among the
      `count` connections from index `at` on. */
  function DroppedRequests(answers: nat -> Answer, at: nat, count: nat, mountpoint: string): seq<Message>
    decreases count
  {
    if count == 0 then []
    else (if answers(at).Dropped? then [Requested(mountpoint)] else []) + DroppedRequests(answers, at + 1, count - 1, mountpoint)
  }

  /** When every connection fails to open (but not in DNS) or is dropped
      after the request, `connect` makes exactly `retryCount` attempts and
      fails, and what it sent is the request of each dropped connection. */
  lemma {:induction false} DroppedRequestsKept(answers: nat -> Answer, mountpoint: string, at: nat,
                                               attempt: nat, retryCount: nat, fuel: nat, socket: bool)
    requires attempt <= retryCount
    requires forall i :: at <= i < at + (retryCount - attempt) ==>
               answers(i).Dropped? || (answers(i).Failed? && answers(i).failure != DnsFailure)
    ensures !Attempts(answers, mountpoint, at, attempt, retryCount, fuel, socket).ok
    ensures Attempts(answers, mountpoint, at, attempt, retryCount, fuel, socket).next == at + (retryCount - attempt)
    ensures Attempts(answers, mountpoint, at, attempt, retryCount, fuel, socket).sent
            == DroppedRequests(answers, at, retryCount - attempt, mountpoint)
    decreases retryCount - attempt
  {
    if attempt < retryCount {
      DroppedRequestsKept(answers, mountpoint, at + 1, attempt + 1, retryCount, fuel, false);
    }
  }

  // ---------------------------------------------------------------------
  // The client object

  /** The delivery of one `recv(4096)` on the stream: bytes, a timeout, or
      another socket error. */
  datatype Delivery = Delivered(data: seq<byte>) | TimedOut | Broken

  /** `NTRIPClient`: the settings, the mountpoint entry of its
      configuration, `connected`, whether `self.socket` is set, how many
      connections it has opened, and the messages it sent. */
  class Client {
    const settings: Settings
    const network: nat -> Attempt
    var mountpoint: string
    var connected: bool
    var hasSocket: bool
    var connections: nat
    var sent: seq<Message>
    /** What the client makes of each connection of `network`. */
    ghost const answers: nat -> Answer

    ghost predicate Valid() {
      forall n: nat :: Links(network, answers, n)
    }

    /** `__init__`: no socket, not connected. */
    constructor (settings: Settings, mountpoint: string, network: nat -> Attempt)
      ensures this.settings == settings && this.network == network && this.mountpoint == mountpoint
      ensures !connected && !hasSocket && connections == 0 && sent == []
      ensures Valid()
    {
      this.settings := settings;
      this.network := network;
      this.answers := (n: nat) => AnswerOf(network(n));
      this.mountpoint := mountpoint;
      connected := false;
      hasSocket := false;
      connections := 0;
      sent := [];
    }

    /** `_try_single_connection(candidate)`: one connection with its own
        socket; on `ICY 200 OK` it becomes the client's socket. */
    method TrySingleConnection(candidate: string) returns (ok: bool)
      requires Valid()
      modifies this`connected, this`hasSocket, this`connections, this`sent
      ensures ok == Single(candidate, answers(old(connections))).0
      ensures sent == old(sent) + Single(candidate, answers(old(connections))).1
      ensures connections == old(connections) + 1
      ensures connected == (ok || old(connected)) && hasSocket == (ok || old(hasSocket))
    {
      var outcome := network(connections);
      assert Links(network, answers, connections);
      connections := connections + 1;
      match outcome
      case Unreachable(_) =>
        ok := false;
      case Broken =>
        sent := sent + [Requested(candidate)];
        ok := false;
      case Reached(replies) =>
        sent := sent + [Requested(candidate)];
        var data := ReadHandshake(replies);
        var response := Utf8.DecodeIgnore(data);
        assert response == Response(replies);
        ok := Contains(response, "ICY 200 OK");
        if ok {
          hasSocket := true;
          connected := true;
        }
    }

    /** A connection that could not be opened is answered by its error. */
    lemma {:induction false} FailedAnswer(n: nat)
      requires Valid() && network(n).Unreachable?
      ensures answers(n) == Failed(network(n).failure)
    {
      assert Links(network, answers, n);
    }

    /** Reads the caster's reply on the connection numbered `n`, which
        reached it, and classifies it. */
    method ReadReply(replies: seq<Recv>, ghost n: nat) returns (reply: Reply, response: string)
      requires Valid() && network(n) == Reached(replies)
      ensures answers(n).Replied? && answers(n).reply == reply
      ensures response == Response(replies)
    {
      var data := ReadHandshake(replies);
      response := Utf8.DecodeIgnore(data);
      reply := Classify(response);
      assert Links(network, answers, n);
    }

    /** `_parse_sourcetable(response)` on the reply of the connection
        numbered `n`. */
    method ReadNames(response: string, ghost replies: seq<Recv>, ghost n: nat) returns (names: seq<string>)
      requires Valid() && network(n) == Reached(replies) && response == Response(replies)
      ensures answers(n).Replied? && names == answers(n).names
    {
      names := ParseSourcetable(response);
      assert Links(network, answers, n);
    }

    /** The loop over the common mountpoints: the first of `candidates`
        the caster accepts becomes the configured mountpoint. */
    method TryMountpoints(candidates: seq<string>) returns (found: bool)
      requires Valid()
      modifies this`mountpoint, this`connected, this`hasSocket, this`connections, this`sent
      ensures found == Fallback(answers, old(connections), candidates).found.Some?
      ensures connections == Fallback(answers, old(connections), candidates).next
      ensures sent == old(sent) + Fallback(answers, old(connections), candidates).sent
      ensures mountpoint == if found then Fallback(answers, old(connections), candidates).found.value
                            else old(mountpoint)
      ensures connected == (found || old(connected)) && hasSocket == (found || old(hasSocket))
    {
      ghost var whole := Fallback(answers, connections, candidates);
      ghost var sent0 := sent;
      for i := 0 to |candidates|
        invariant Pending(whole, sent0, Fallback(answers, connections, candidates[i..]), sent)
        invariant mountpoint == old(mountpoint) && connected == old(connected) && hasSocket == old(hasSocket)
      {
        ghost var before := sent;
        ghost var at := connections;
        var ok := TrySingleConnection(candidates[i]);
        if ok {
          PendingFound(whole, sent0, answers, at, candidates, i, before);
          mountpoint := candidates[i];
          return true;
        }
        PendingStep(whole, sent0, answers, at, candidates, i, before, sent);
      }
      assert candidates[|candidates|..] == [];
      return false;
    }

    /** `connect(retry_count)` with `fuel` bounding the nesting of its
        source-table retries: the outcome is `Attempts`, and `connected`
        becomes true exactly when it succeeds (it is left alone otherwise). */
    method Connect(retryCount: nat, fuel: nat) returns (ok: bool)
      requires Valid()
      modifies this`mountpoint, this`connected, this`hasSocket, this`connections, this`sent
      ensures Finished(Attempts(answers, old(mountpoint), old(connections), 0, retryCount, fuel, old(hasSocket)),
                       old(sent), ok, mountpoint, connections, hasSocket, sent)
      ensures connected == (ok || old(connected))
      decreases fuel, 2
    {
      ghost var whole := Attempts(answers, mountpoint, connections, 0, retryCount, fuel, hasSocket);
      ghost var sent0 := sent;
      var attempt := 0;
      while attempt < retryCount
        invariant attempt <= retryCount
        invariant mountpoint == old(mountpoint) && connected == old(connected)
        invariant Continues(whole, sent0, Attempts(answers, mountpoint, connections, attempt, retryCount, fuel, hasSocket), sent)
        decreases retryCount - attempt
      {
        ghost var current := Attempts(answers, mountpoint, connections, attempt, retryCount, fuel, hasSocket);
        ghost var before := sent;
        var done;
        done, ok := AttemptOnce(attempt, retryCount, fuel);
        if done {
          FinishedContinues(whole, sent0, current, before, ok, mountpoint, connections, hasSocket, sent);
          return;
        }
        ContinuesTrans(whole, sent0, current, before,
                       Attempts(answers, mountpoint, connections, attempt + 1, retryCount, fuel, hasSocket), sent);
        attempt := attempt + 1;
      }
      ok := false;
    }

    /** One pass of `connect`'s loop, the attempt numbered `attempt`: either
        `connect` returns (`done`) with what `Attempts` says, or the next
        attempt follows without a socket. */
    method AttemptOnce(attempt: nat, retryCount: nat, fuel: nat) returns (done: bool, ok: bool)
      requires Valid() && attempt < retryCount
      modifies this`mountpoint, this`connected, this`hasSocket, this`connections, this`sent
      ensures done ==> Finished(Attempts(answers, old(mountpoint), old(connections), attempt, retryCount, fuel,
                                         old(hasSocket)), old(sent), ok, mountpoint, connections, hasSocket, sent)
      ensures !done ==> Continues(Attempts(answers, old(mountpoint), old(connections), attempt, retryCount, fuel,
                                           old(hasSocket)), old(sent),
                                  Attempts(answers, mountpoint, connections, attempt + 1, retryCount, fuel, false), sent)
      ensures !done ==> !ok && !hasSocket && mountpoint == old(mountpoint)
      ensures connected == ((done && ok) || old(connected))
      decreases fuel, 1
    {
      ghost var here := connections;
      AttemptsStep(answers, mountpoint, here, attempt, retryCount, fuel, hasSocket);
      var outcome := network(connections);
      connections := connections + 1;
      match outcome {
      case Unreachable(f) =>
        FailedAnswer(here);
        if f == DnsFailure {
          hasSocket := true;
          return true, false;
        }
        hasSocket := false;
        return false, false;
      case Broken =>
        assert answers(here) == Dropped by {
          assert Links(network, answers, here);
        }
        ghost var before := sent;
        sent := sent + [Requested(mountpoint)];
        hasSocket := false;
        ContinuesPrepend(Attempts(answers, mountpoint, connections, attempt + 1, retryCount, fuel, false), before,
                         [Requested(mountpoint)],
                         Attempts(answers, mountpoint, connections, attempt + 1, retryCount, fuel, false), sent);
        return false, false;
      case Reached(replies) =>
        hasSocket := true;
        var reply, response := ReadReply(replies, here);
        ghost var before := sent;
        ghost var answered := Answered(answers, mountpoint, connections, attempt, retryCount, fuel,
                                       reply, answers(here).names);
        sent := sent + [Requested(mountpoint)];
        done, ok := AfterReply(attempt, retryCount, fuel, reply, response, replies, here);
        if done {
          FinishedPrepend(answered, before, [Requested(old(mountpoint))], ok, mountpoint, connections, hasSocket, sent);
        } else {
          ContinuesPrepend(answered, before, [Requested(old(mountpoint))],
                           Attempts(answers, mountpoint, connections, attempt + 1, retryCount, fuel, false), sent);
        }
      }
    }

    /** The rest of an attempt once the caster's reply on the connection
        numbered `n` is classified as `reply`: accepted or denied ends
        `connect`; a source table may adopt its first mountpoint or try the
        common ones; otherwise the next attempt follows. */
    method AfterReply(attempt: nat, retryCount: nat, fuel: nat, reply: Reply, response: string,
                      ghost replies: seq<Recv>, ghost n: nat) returns (done: bool, ok: bool)
      requires Valid() && attempt < retryCount && hasSocket
      requires network(n) == Reached(replies) && response == Response(replies)
      requires answers(n).Replied? && answers(n).reply == reply
      modifies this`mountpoint, this`connected, this`hasSocket, this`connections, this`sent
      ensures done ==> Finished(Answered(answers, old(mountpoint), old(connections), attempt, retryCount, fuel,
                                         reply, answers(n).names), old(sent), ok, mountpoint, connections, hasSocket, sent)
      ensures !done ==> Continues(Answered(answers, old(mountpoint), old(connections), attempt, retryCount, fuel,
                                           reply, answers(n).names), old(sent),
                                  Attempts(answers, mountpoint, connections, attempt + 1, retryCount, fuel, false), sent)
      ensures !done ==> !ok && !hasSocket && mountpoint == old(mountpoint)
      ensures connected == ((done && ok) || old(connected))
      decreases fuel, 0
    {
      ghost var answered := Answered(answers, mountpoint, connections, attempt, retryCount, fuel,
                                     reply, answers(n).names);
      if reply == Accepted {
        connected := true;
        return true, true;
      } else if reply == Denied {
        return true, false;
      } else if reply == Sourcetable {
        var names := ReadNames(response, replies, n);
        if names != [] {
          hasSocket := false;
          if attempt == 0 {
            if fuel == 0 {
              return true, false;
            }
            var original := mountpoint;
            mountpoint := names[0];
            ok := Connect(1, fuel - 1);
            if !ok {
              mountpoint := original;
            }
            return true, ok;
          }
        } else if !IsGrc(mountpoint) && attempt == 0 {
          ghost var t := Fallback(answers, connections, Common);
          assert answered == AfterFallback(answers, mountpoint, connections, attempt, retryCount, fuel, Common);
          var found := TryMountpoints(Common);
          if found {
            return true, true;
          }
          ghost var rest := Attempts(answers, mountpoint, t.next, attempt + 1, retryCount, fuel, false);
          assert answered == Prepend(t.sent, rest);
          ConcatAssoc(old(sent), t.sent, rest.sent);
        }
      }
      hasSocket := false;
      return false, false;
    }
    /** `disconnect()`: always leaves the client disconnected; the socket
        is closed but the reference kept. */
    method Disconnect()
      modifies this`connected
      ensures !connected
    {
      connected := false;
    }

    /** `send_gga(line)`: nothing is sent unless connected with a socket;
        a send error clears `connected`. */
    method SendGga(line: string, fails: bool) returns (ok: bool)
      modifies this`connected, this`sent
      ensures ok == (old(connected) && hasSocket && !fails)
      ensures sent == if ok then old(sent) + [Gga(line)] else old(sent)
      ensures connected == (old(connected) && (!hasSocket || !fails))
    {
      if !connected || !hasSocket {
        return false;
      }
      if fails {
        connected := false;
        return false;
      }
      sent := sent + [Gga(line)];
      ok := true;
    }

    /** `receive_rtcm()`: no bytes unless connected with a socket; a
        timeout gives no bytes and keeps the connection, another error
        clears `connected`. */
    method ReceiveRtcm(delivery: Delivery) returns (data: seq<byte>)
      modifies this`connected
      ensures old(connected) && hasSocket && delivery.Delivered? ==> data == delivery.data
      ensures !(old(connected) && hasSocket && delivery.Delivered?) ==> data == []
      ensures connected == (old(connected) && (!hasSocket || !delivery.Broken?))
    {
      if !connected || !hasSocket {
        return [];
      }
      match delivery
      case Delivered(d) =>
        data := d;
      case TimedOut =>
        data := [];
      case Broken =>
        connected := false;
        data := [];
    }

    /** `is_connected()` */
    function IsConnected(): (r: bool)
      reads this
      ensures r == connected
    {
      connected
    }
  }

  /** The fallback loop so far continues to the whole trial. */
  predicate Pending(whole: Trial, sent0: seq<Message>, rest: Trial, sent: seq<Message>) {
    whole.found == rest.found && whole.next == rest.next && sent0 + whole.sent == sent + rest.sent
  }

  /** One candidate of the fallback loop: accepted, or passed over with
      what its connection sent. */
  lemma {:induction false} FallbackStep(answers: nat -> Answer, at: nat, candidates: seq<string>, i: nat)
    requires i < |candidates|
    ensures var single := Single(candidates[i], answers(at));
            var rest := Fallback(answers, at + 1, candidates[i + 1..]);
            Fallback(answers, at, candidates[i..])
            == if single.0 then Trial(Some(candidates[i]), at + 1, single.1)
               else Trial(rest.found, rest.next, single.1 + rest.sent)
  {
    assert candidates[i..][1..] == candidates[i + 1..];
  }

  /** A candidate passed over keeps the fallback loop on course. */
  lemma {:induction false} PendingStep(whole: Trial, sent0: seq<Message>, answers: nat -> Answer, at: nat,
                                       candidates: seq<string>, i: nat, before: seq<Message>, sent: seq<Message>)
    requires i < |candidates|
    requires Pending(whole, sent0, Fallback(answers, at, candidates[i..]), before)
    requires !Single(candidates[i], answers(at)).0
    requires sent == before + Single(candidates[i], answers(at)).1
    ensures Pending(whole, sent0, Fallback(answers, at + 1, candidates[i + 1..]), sent)
  {
    FallbackStep(answers, at, candidates, i);
    ConcatAssoc(before, Single(candidates[i], answers(at)).1, Fallback(answers, at + 1, candidates[i + 1..]).sent);
  }

  /** The candidate accepted ends the fallback loop with the whole trial. */
  lemma {:induction false} PendingFound(whole: Trial, sent0: seq<Message>, answers: nat -> Answer, at: nat,
                                        candidates: seq<string>, i: nat, before: seq<Message>)
    requires i < |candidates|
    requires Pending(whole, sent0, Fallback(answers, at, candidates[i..]), before)
    requires Single(candidates[i], answers(at)).0
    ensures whole.found == Some(candidates[i]) && whole.next == at + 1
    ensures sent0 + whole.sent == before + Single(candidates[i], answers(at)).1
  {
    FallbackStep(answers, at, candidates, i);
  }

  /** The state reached so far continues to the whole outcome. */
  predicate Continues(whole: Outcome, sent0: seq<Message>, rest: Outcome, sent: seq<Message>) {
    whole.ok == rest.ok && whole.mountpoint == rest.mountpoint && whole.next == rest.next
    && whole.socket == rest.socket && sent0 + whole.sent == sent + rest.sent
  }

  /** The whole outcome, reached from `sent0`, ends in the state given. */
  predicate Finished(whole: Outcome, sent0: seq<Message>, ok: bool, mountpoint: string, next: nat, socket: bool,
                     sent: seq<Message>) {
    ok == whole.ok && mountpoint == whole.mountpoint && next == whole.next && socket == whole.socket
    && sent == sent0 + whole.sent
  }

  lemma {:induction false} ContinuesTrans(whole: Outcome, sent0: seq<Message>, mid: Outcome, sent1: seq<Message>, rest: Outcome,
                       sent2: seq<Message>)
    requires Continues(whole, sent0, mid, sent1) && Continues(mid, sent1, rest, sent2)
    ensures Continues(whole, sent0, rest, sent2)
  {
  }

  lemma {:induction false} FinishedContinues(whole: Outcome, sent0: seq<Message>, mid: Outcome, sent1: seq<Message>, ok: bool,
                          mountpoint: string, next: nat, socket: bool, sent: seq<Message>)
    requires Continues(whole, sent0, mid, sent1) && Finished(mid, sent1, ok, mountpoint, next, socket, sent)
    ensures Finished(whole, sent0, ok, mountpoint, next, socket, sent)
  {
  }

  /** A part that starts after `pre` was sent, seen from before `pre`. */
  lemma {:induction false} ContinuesPrepend(whole: Outcome, sent0: seq<Message>, pre: seq<Message>, rest: Outcome, sent: seq<Message>)
    requires Continues(whole, sent0 + pre, rest, sent)
    ensures Continues(Prepend(pre, whole), sent0, rest, sent)
  {
    ConcatAssoc(sent0, pre, whole.sent);
  }

  lemma {:induction false} FinishedPrepend(whole: Outcome, sent0: seq<Message>, pre: seq<Message>, ok: bool, mountpoint: string,
                        next: nat, socket: bool, sent: seq<Message>)
    requires Finished(whole, sent0 + pre, ok, mountpoint, next, socket, sent)
    ensures Finished(Prepend(pre, whole), sent0, ok, mountpoint, next, socket, sent)
  {
    ConcatAssoc(sent0, pre, whole.sent);
  }

  /** One attempt of `connect`: a connect error, or the request and the
      reply's consequences. */
  lemma {:induction false} AttemptsStep(answers: nat -> Answer, mountpoint: string, at: nat, attempt: nat, retryCount: nat,
                     fuel: nat, socket: bool)
    requires attempt < retryCount
    ensures answers(at).Failed? ==>
              Attempts(answers, mountpoint, at, attempt, retryCount, fuel, socket)
              == if answers(at).failure == DnsFailure then Outcome(false, mountpoint, at + 1, true, [])
                 else Attempts(answers, mountpoint, at + 1, attempt + 1, retryCount, fuel, false)
    ensures answers(at).Dropped? ==>
              Attempts(answers, mountpoint, at, attempt, retryCount, fuel, socket)
              == Prepend([Requested(mountpoint)], Attempts(answers, mountpoint, at + 1, attempt + 1, retryCount, fuel, false))
    ensures answers(at).Replied? ==>
              Attempts(answers, mountpoint, at, attempt, retryCount, fuel, socket)
              == Prepend([Requested(mountpoint)], Answered(answers, mountpoint, at + 1, attempt, retryCount, fuel,
                                                           answers(at).reply, answers(at).names))
  {
  }
}
