# RTK GNSS worker — a Dafny model

The RTK GNSS worker sits between an NTRIP caster and a GNSS receiver on a
Raspberry Pi:

- The NTRIP client logs in to a caster. It follows the caster's source table
  when the configured mountpoint is unknown.
- The worker forwards the caster's RTCM correction bytes to the receiver. The
  link to the receiver is a serial port or a TCP bridge.
- The worker sends a GGA heartbeat sentence back to the caster.
- It parses the receiver's NMEA sentences (GGA and RMC, checksum-validated).
- It publishes each fix to a JSON file (atomically, by write and rename) or to
  a callback.
- A configuration object gathers settings from a file, the environment or
  built-in defaults, and validates them.
- A logging singleton installs console and file handlers and names every
  module's logger under one root.

The model has one module per source file:

| module | file |
|---|---|
| `Nmea` | `nmea_parser.dfy` |
| `Ntrip` | `ntrip_client.dfy` |
| `Serial` | `serial_handler.dfy` |
| `Publisher` | `location_publisher.dfy` |
| `Worker` | `gnss_worker.dfy` |
| `Configuration` | `config.dfy` |
| `Logging` | `logger.dfy` |

Four helper modules model the Python built-ins those files rely on:

- `Values`: a JSON-like `Value` with Python truthiness, and `Option`.
- `Text`: `strip`, `split`, `join`, `int()`, `float()`, `%f`, `%X`, `os.path.dirname` and `upper`.
- `Utf8`: encoding, and decoding with `errors='ignore'`.
- `Base64`: the encoding of RFC 4648, section 4.

Pure code is modelled as functions with lemmas. Objects whose methods update
their fields become classes with `modifies` clauses:

- `Ntrip.Client`
- `Serial.Handler`
- `Publisher.LocationPublisher` over a `FileSystem`
- `Worker.GnssWorker`
- `Configuration.Config`
- `Logging.RTKLogger` and `Logging.Process`

Loops in the source are `while` or `for` loops with invariants:

- the checksum XOR
- the GGA checksum
- the source-table walk
- the handshake read
- the fallback mountpoints
- the retries of `connect`
- the byte-wise TCP read
- the validation log
- the two level setters

The model follows the source, not any description of it. Where the source
evidently errs, it is recorded under "## Findings". Each finding has a member
modelling the code as written and a corrected member that the rest of the
model uses.

Everything outside the process is an input:

- The caster's answers are a function from the connection number to what that connection meets: a connect error, the receives of the handshake, or an error raised by `send` or `recv` after the request was handed to `send`.
- Bytes arriving on the link are a sequence of events.
- The clock readings are parameters.
- Whether a socket connects, a port opens, a directory can be made, or a file write or rename faults: each is a parameter.

## Model

| member | source | states |
|---|---|---|
| Nmea.ValidateChecksum | src/nmea_parser.py:170-186 | a line is valid exactly when it has a `*` whose following text reads as hexadecimal equal to the XOR of the characters between `$` and the last `*`; a line without `*` or with unreadable hex is invalid |
| Nmea.AccumulateXor | src/nmea_parser.py:179-181 | the loop's result is the XOR of all character codes of its input |
| Nmea.XorSumDetects | src/nmea_parser.py:179-181 | replacing one character by a different one always changes the checksum |
| Nmea.CorruptionDetected | src/nmea_parser.py:170-186 | corrupting any one checksummed character of a valid line makes it fail validation |
| Nmea.ChecksumSealed | src/nmea_parser.py:170-186 | a star-free body followed by `*` and its two-digit checksum always validates |
| Nmea.XorSumAscii | src/nmea_parser.py:179-181 | the checksum of ASCII text is below 128, so two hex digits hold it |
| Nmea.ParseCoordinate | src/nmea_parser.py:141-168 | 0.0 for empty text, text shorter than 7 characters, or digits that do not read as numbers; otherwise degrees plus minutes/60, negative exactly for `S` or `W` |
| Nmea.CoordinateHemisphere | src/nmea_parser.py:160-161 | `S` and `W` negate the value and every other direction leaves it unchanged |
| Nmea.CoordinateWithPoint | src/nmea_parser.py:149-152 | with a point, the degrees are the part before the last two integer digits and the minutes the rest |
| Nmea.CoordinateWithoutPoint | src/nmea_parser.py:153-155 | without a point, the last five characters are the minutes times 100 |
| Nmea.CoordinateInnerSign | src/nmea_parser.py:145-167 | a minus sign just before the two-digit minutes makes the degrees text end in that sign; `float()` rejects it and the coordinate reads as 0.0 |
| Nmea.LatitudeExample | src/nmea_parser.py:141-168 | `3149.301528,N` reads as 31 + 49.301528/60 degrees, and with `S` as its negation |
| Nmea.ParseGga | src/nmea_parser.py:71-105 | None for fewer than 15 fields; the coordinates come from fields 2-5 (0.0 when unreadable); quality, satellites, HDOP and altitude come from fields 6-9, each 0 when empty, and the sentence is None exactly when one of those four does not read; the record keeps the joined fields and the time |
| Nmea.GgaDefaults | src/nmea_parser.py:88-91 | a GGA sentence with empty measurement fields still parses, with zero quality, satellites, HDOP and altitude |
| Nmea.ParseRmc | src/nmea_parser.py:107-139 | RMC needs at least 12 fields and status `A`; coordinates come from fields 3-6; quality is 1 and the other measurements are 0 |
| Nmea.Parse | src/nmea_parser.py:29-54 | None for an empty line, a line not starting with `$`, or a bad checksum; otherwise the dispatch on the comma fields |
| Nmea.ParseFields | src/nmea_parser.py:40-54 | fewer than 6 fields, or a type other than GGA and RMC, give None; GGA and RMC go to their decoders |
| Nmea.ParseKeepsLine | src/nmea_parser.py:29-54 | a parsed record's fields joined with commas give back the input line exactly |
| Nmea.ParseGgaView | src/nmea_parser.py:56-69 | the seven-entry dictionary view of a parsed line, or None exactly when `parse` gives None |
| Nmea.LocationView | src/nmea_parser.py:60-69 | the view's entries are the record's latitude, longitude, altitude, quality, satellites, HDOP and rendered time |
| Worker.GenerateGga | src/gnss_worker.py:232-259 | the corrected heartbeat (latitude through `abs`): the loop accumulates the XOR of `body[1:]`, and the sentence returned, without its CRLF, parses as GGA |
| Worker.AsWrittenParses | src/gnss_worker.py:232-259 | the heartbeat as written is, for every location, a valid fifteen-field GGA sentence whose quality, satellites, HDOP, altitude and longitude read back; only its latitude can be wrong |
| Worker.GgaRoundTrip | src/gnss_worker.py:232-259 | the (corrected) heartbeat, without its CRLF, validates and parses as GGA; its quality, satellites, HDOP and altitude are read back, and its coordinates are read back to within half a unit in the fifth decimal of the minutes |
| Worker.CoordinateRoundTrip | src/gnss_worker.py:235-249 | a magnitude written as padded degrees and `%08.5f` minutes reads back, with the direction's sign, within the rounding tolerance |
| Worker.FieldValues | src/gnss_worker.py:240-253 | every numeric field of the heartbeat reads back as the value formatted into it |
| Worker.SouthernLatitudeFlipped | src/gnss_worker.py:235-238 | as written, the latitude -31.0 is written `-3100.00000,S` and parses back as +31.0 |
| Worker.FlippedCoordinate | src/gnss_worker.py:235-238 | as written, a negative latitude of a whole number of degrees is read back with the opposite sign |
| Worker.SouthernMinutesLost | src/gnss_worker.py:235-238 | as written, a southern latitude whose minutes part reaches ten, such as -31.5 (`-31-30.00000,S`), still gives a GGA fix, but its latitude reads back as 0.0 |
| Worker.LostCoordinate | src/gnss_worker.py:235-238 | as written, the coordinate text of a negative value whose minutes reach ten reads back as 0.0 in either hemisphere |
| Worker.ReadLocationValid | src/gnss_worker.py:140-152 | a location is read only from a non-empty line that passes checksum validation, and it carries that line and the time of the read |
| Worker.StartOrder | src/gnss_worker.py:66-99 | the link is opened only after the NTRIP connect succeeded; threads are started only when both succeeded, in background mode |
| Worker.ForwardWritesReceived | src/gnss_worker.py:135-138 | RTCM bytes reach the link exactly when some were received, unchanged, after the receive |
| Worker.HeartbeatSentences | src/gnss_worker.py:127-133 | every heartbeat the worker sends is, without its CRLF, a valid GGA sentence of the last known location |
| Worker.PublishedParsed | src/gnss_worker.py:140-152 | a location is published only if the line parsed to it, and the callback sees the same location after the publish |
| Worker.GnssWorker.constructor | src/gnss_worker.py:29-60 | the worker starts not running, with heartbeat time 0, no location, no callback and no threads |
| Worker.GnssWorker.SetLocationCallback | src/gnss_worker.py:62-64 | the callback is set, or cleared by None, and nothing else changes |
| Worker.GnssWorker.Start | src/gnss_worker.py:66-99 | `running` becomes true only when both the NTRIP connect and the link open succeed; a failure leaves `running` as it was |
| Worker.GnssWorker.Stop | src/gnss_worker.py:101-119 | `running` becomes false, then the NTRIP client disconnects and the link closes, whatever the prior state |
| Worker.GnssWorker.Heartbeat | src/gnss_worker.py:127-133 | when 30 seconds have passed and a location is known, the corrected sentence of that location is sent and `now` becomes the heartbeat time; otherwise nothing is sent and the time is kept |
| Worker.GnssWorker.Receive | src/gnss_worker.py:140-152 | a parsed location is stored, then published, then given to the callback; a line that does not parse changes nothing |
| Worker.GnssWorker.RunOnce | src/gnss_worker.py:121-158 | false and no effect when not running; otherwise the heartbeat, the forwarding and the reading, in that order, and false when the callback raises |
| Worker.GnssWorker.RtcmStep | src/gnss_worker.py:160-189 | one pass of the RTCM thread is the heartbeat followed by the forwarding |
| Worker.GnssWorker.NmeaStep | src/gnss_worker.py:191-219 | one pass of the NMEA thread is the reading; a raising callback is caught |
| Worker.GnssWorker.Status | src/gnss_worker.py:261-270 | the status reports running, both connections, the location, and a thread as alive only if it was created |
| Ntrip.CredentialsRoundTrip | src/ntrip_client.py:40-45 | the caster decoding the `Authorization` header gets back `user:password` |
| Ntrip.RequestShape | src/ntrip_client.py:40-49 | the request opens with the request line for the mountpoint, carries the agent and the Basic credentials in their header lines, and ends with a blank line |
| Ntrip.WireDecodes | src/ntrip_client.py:52 | every message the client sends decodes back to the text it wrote |
| Ntrip.ReadHandshake | src/ntrip_client.py:54-66 | the handshake read appends each received chunk and stops at a socket timeout, an empty chunk, or the first chunk that completes the header terminator; the 10-second deadline is where the sequence of receives ends |
| Ntrip.HandshakeReads | src/ntrip_client.py:54-66 | the buffer gains exactly the consumed chunks, and the read stops at the first stopping event |
| Ntrip.HandshakeChunks | src/ntrip_client.py:54-66 | every consumed receive is a non-empty chunk, and none before the last completes the header terminator |
| Ntrip.ParseSourcetable | src/ntrip_client.py:151-176 | the names are, in order, those of the `STR;` records among the lines |
| Ntrip.NamesPlain | src/ntrip_client.py:151-176 | every name found is non-empty, stripped and free of `;` |
| Ntrip.RecordNamed | src/ntrip_client.py:160-170 | a line `STR;<name>;...` with a plain name yields exactly that name |
| Ntrip.AcceptedMeans | src/ntrip_client.py:71-74 | an answer is an acceptance exactly when the connection reached the caster and the reply carries `ICY 200 OK` |
| Ntrip.DeniedMeans | src/ntrip_client.py:119-123 | an answer is a credential refusal exactly when the reply carries neither `ICY 200 OK` nor `SOURCETABLE` but `401` or `403` |
| Ntrip.NamesMeans | src/ntrip_client.py:75-79 | a source-table answer names exactly the records of the reply |
| Ntrip.FailureRestores | src/ntrip_client.py:75-118 | a failed `connect` leaves the mountpoint it started with, because a failed source-table retry puts the old name back |
| Ntrip.SuccessAccepted | src/ntrip_client.py:20-149 | `connect` succeeds only when the caster accepted, with `ICY 200 OK`, the last connection opened, for the mountpoint now configured |
| Ntrip.FallbackAccepted | src/ntrip_client.py:103-110 | a fallback mountpoint is adopted only when the caster accepted it on the last connection tried |
| Ntrip.TerminalErrors | src/ntrip_client.py:119-133 | a DNS error or a 401/403 reply ends `connect` at once, with no further connection |
| Ntrip.RetriesExhausted | src/ntrip_client.py:20-149 | when every connection times out or fails otherwise, `connect` makes exactly `retry_count` attempts and fails |
| Ntrip.DroppedRequestsKept | src/ntrip_client.py:20-149 | when every connection fails to open or is dropped after the request, `connect` fails after exactly `retry_count` attempts, and the sent log holds one request for each dropped connection |
| Ntrip.Client.constructor | src/ntrip_client.py:14-18 | the client starts with no socket, not connected |
| Ntrip.Client.Connect | src/ntrip_client.py:20-149 | the outcome and the messages sent are those of the `connect` specification `Attempts`; `connected` is set on success and otherwise keeps its prior value, since `connect` never clears it |
| Ntrip.Client.AttemptOnce | src/ntrip_client.py:36-133 | one pass of the retry loop either ends `connect` with its outcome or continues with the next attempt |
| Ntrip.Client.AfterReply | src/ntrip_client.py:71-118 | the classified reply is accepted, retried through the source table, retried through the fallback list, or refused, as the specification says |
| Ntrip.Client.TrySingleConnection | src/ntrip_client.py:178-238 | one connection on a socket of its own; the request for the candidate is recorded whenever the connection opens, even if the reply is then lost to an error; on `ICY 200 OK` the socket becomes the client's and `connected` is set; the configured mountpoint is left alone (the caller `Ntrip.Client.TryMountpoints` sets it) |
| Ntrip.Client.TryMountpoints | src/ntrip_client.py:103-110 | the first candidate the caster accepts becomes the configured mountpoint; the messages sent are those of the candidates tried |
| Ntrip.Client.Disconnect | src/ntrip_client.py:240-248 | the client is left disconnected whatever its state, and the socket reference is kept |
| Ntrip.Client.SendGga | src/ntrip_client.py:250-261 | nothing is sent unless connected with a socket; a send error clears `connected` |
| Ntrip.Client.ReceiveRtcm | src/ntrip_client.py:263-277 | no bytes unless connected with a socket; the bytes delivered are returned as they came (an empty receive too) and a timeout gives none, both staying connected; only an error disconnects |
| Ntrip.Client.IsConnected | src/ntrip_client.py:279-281 | reports the `connected` flag |
| Base64.Encode | src/ntrip_client.py:41 | four characters for every started group of three bytes |
| Base64.DecodeEncode | src/ntrip_client.py:41 | decoding a Base64 encoding gives back the bytes |
| Utf8.DecodeIgnore | src/ntrip_client.py:68 | decoding with `errors='ignore'` yields at most one character per byte |
| Utf8.DecodeEncode | src/serial_handler.py:124 | decoding the UTF-8 encoding of any text gives back the text |
| Utf8.DecodeAvoidsAscii | src/serial_handler.py:169-177 | an ASCII character whose byte is absent never appears in the decoded text, so a line read holds no newline of its own |
| Serial.Init | src/serial_handler.py:14-44 | None where `int(port_str)` raises; otherwise the transport choice and the configuration as filled in |
| Serial.TransportChoice | src/serial_handler.py:20-27 | the transport is TCP exactly when `host` is truthy, the port is an integer or a URL, or `tcp_port` is truthy |
| Serial.InitKeeps | src/serial_handler.py:28-39 | only a URL-form port changes the configuration, and then only `host` and `tcp_port` |
| Serial.UrlSetup | src/serial_handler.py:28-39 | for a URL-form port, the text before the first `:` becomes the host and the rest the TCP port, 9999 without one |
| Serial.UrlWithPort | src/serial_handler.py:28-39 | `socket://host:n` without a truthy host selects TCP with that host and port `n` |
| Serial.UrlWithoutPort | src/serial_handler.py:36-37 | a URL port without `:` gets TCP port 9999 |
| Serial.PeerAsWritten | src/serial_handler.py:61-62 | as written, an address exists only with a host and a port that `int()` accepts, even when `tcp_port` is set; it then uses `tcp_port` when set, else that port |
| Serial.PeerOf | src/serial_handler.py:57-70 | the intended address is the host, with `tcp_port` when it is set, else `int(port)`, else 9999 |
| Serial.PeerAgrees | src/serial_handler.py:62 | the written and intended addresses agree wherever `int(port)` succeeds |
| Serial.UrlPortNeverOpens | src/serial_handler.py:28-39 | a URL-form port never opens as written, while the intended address is the host and port parsed from it |
| Serial.PortSettingsOf | src/serial_handler.py:72-89 | `port` is required; the baud rate, timeout and framing default to 115200, 1.0 and 8N1 |
| Serial.PortDefaults | src/serial_handler.py:72-89 | a configuration with port, baud rate and timeout opens with exactly those and the framing defaults |
| Serial.Assemble | src/serial_handler.py:159-179 | single-byte reads collect bytes up to and including the first newline, stopping at end of stream, timeout or error |
| Serial.AssembleShape | src/serial_handler.py:159-179 | a read collects the bytes that arrived before the first newline, plus that newline, and stops at the event after them |
| Serial.TcpLineClean | src/serial_handler.py:159-179 | a TCP line read yields text with no newline and no whitespace at either edge |
| Serial.SerialLineClean | src/serial_handler.py:181-194 | a serial line read yields text with no newline and no whitespace at either edge |
| Serial.AssembleLine | src/serial_handler.py:159-179 | bytes ending in their only newline are read as one line, consuming exactly them |
| Serial.ReadsSentLine | src/serial_handler.py:155-194 | an ASCII sentence sent with CRLF is read back as the sentence on either transport |
| Serial.PayloadFaithful | src/serial_handler.py:106-129 | what the receiver gets from `write` is what was written: bytes unchanged, and text that decodes back to itself |
| Serial.Handler.constructor | src/serial_handler.py:14-44 | the handler starts with no connection, not open |
| Serial.Handler.OpenTcp | src/serial_handler.py:57-70 | opens exactly when the corrected address can be formed and the socket connects, then reads with the configured timeout; a failure leaves an unconnected socket and `is_open` as it was |
| Serial.Handler.OpenSerial | src/serial_handler.py:72-89 | opens exactly when `port` is configured and pyserial accepts the settings |
| Serial.Handler.Open | src/serial_handler.py:46-55 | the chosen transport's open: TCP opens exactly when the corrected address forms and the socket connects, a serial port exactly when `port` is set and pyserial accepts it; a TCP failure leaves a fresh unconnected socket and `is_open` as it was, a serial failure leaves everything as it was |
| Serial.Handler.Close | src/serial_handler.py:95-104 | the connection is no longer live, `is_open` is cleared, and the reference is kept |
| Serial.Handler.WriteRtcm | src/serial_handler.py:106-119 | True exactly when open with a live connection and the write does not fail; only then are the bytes appended to what was sent |
| Serial.Handler.Write | src/serial_handler.py:121-129 | text is sent UTF-8-encoded and bytes unchanged; any other type gives False with no I/O |
| Serial.Handler.ReadLineTcp | src/serial_handler.py:159-179 | the line is the stripped decoding of the assembled bytes, None on timeout or error, and the events are consumed accordingly |
| Serial.Handler.ReadLineSerial | src/serial_handler.py:181-194 | the stripped decoding of one pyserial line read with the given timeout, None on an error; the port's own timeout is restored |
| Serial.Handler.ReadNmea | src/serial_handler.py:131-153 | nothing is read unless open with a connection; otherwise the transport's line read |
| Serial.Handler.ReadLine | src/serial_handler.py:155-157 | `read_nmea` with a timeout of one second |
| Serial.Create | src/serial_handler.py:14-44 | a handler exactly when `__init__` would not raise |
| Publisher.Serialise | src/location_publisher.py:51-63 | a dictionary is written as it is; a fix is written as exactly its eight attributes |
| Publisher.SerialiseFix | src/location_publisher.py:51-63 | the record of a fix describes that fix exactly |
| Publisher.AtomicAllOrNothing | src/location_publisher.py:72-99 | after an atomic write, the target holds the new document or its old content, never a partial one; no temporary file is left and no other file changes |
| Publisher.DirectReplaces | src/location_publisher.py:101-109 | a successful direct write replaces exactly the target; a failed one can leave it incomplete |
| Publisher.FilePublished | src/location_publisher.py:45-70 | on success the file holds the record of the location; an atomic write leaves no temporary file |
| Publisher.LocationPublisher.constructor | src/location_publisher.py:14-19 | the output type is the configuration object's `type` attribute (`file` for a dictionary); the interval defaults to 1.0 |
| Publisher.LocationPublisher.ForFile | src/location_publisher.py:126-132 | the `type` key becomes `file`, which the output type read before never sees |
| Publisher.LocationPublisher.AtomicWrite | src/location_publisher.py:72-99 | True exactly without a fault; the files are as the atomic write specification says |
| Publisher.LocationPublisher.DirectWrite | src/location_publisher.py:101-109 | True exactly when the write succeeds; the files are as the direct write specification says |
| Publisher.LocationPublisher.PublishToFile | src/location_publisher.py:45-70 | the result and the files are the file outcome: atomic unless `atomic_write` is falsy, False on any exception |
| Publisher.LocationPublisher.PublishToCallback | src/location_publisher.py:111-123 | True exactly when a callable is configured and it does not raise; a configured callback is notified |
| Publisher.LocationPublisher.Publish | src/location_publisher.py:21-43 | within the update interval returns True and does nothing; otherwise records `now` first and then writes to file or callback; an unknown type gives False |
| Configuration.Config.constructor | src/config.py:13-15 | the configuration holds the given dictionary |
| Configuration.FromDocument | src/config.py:17-35 | a parsed file's `rtk` object when it has one, else the whole document |
| Configuration.SerialFromEnv | src/config.py:46-63 | with a non-empty `SERIAL_HOST`, a TCP section (defaults 8888 and 1.0), else a port section (defaults `/dev/ttyUSB0`, 115200 and 1.0); None where `int()` or `float()` raises |
| Configuration.TcpSection | src/config.py:46-54 | a section exactly when port and timeout read, and then with exactly the keys host, port and timeout |
| Configuration.PortSection | src/config.py:55-63 | a section exactly when baud rate and timeout read, and then with exactly the keys port, baudrate and timeout |
| Configuration.TcpSectionTransport | src/config.py:46-54 | the link handler reads a TCP section from the environment as a TCP link with that section |
| Configuration.PortSectionTransport | src/config.py:55-63 | the link handler reads a non-URL port section from the environment as a serial link |
| Configuration.DefaultValid | src/config.py:98-137 | the built-in configuration validates with no errors |
| Configuration.DefaultSections | src/config.py:98-137 | the built-in configuration has exactly the five sections ntrip, serial, output, logging and positioning, each with its built-in entries |
| Configuration.DefaultLogDirectory | src/config.py:98-137 | the built-in configuration logs to `logs` |
| Configuration.Section | src/config.py:139-157 | a section is the named dictionary, or empty when absent |
| Configuration.LogDirectory | src/config.py:159-173 | the directory of the log file (default `/var/log/rtk-gnss-worker.log`), with no directory, `.` and `/var/log` all sent to `logs`; the result is never empty, `.` or `/var/log` |
| Configuration.LogDirectoryOf | src/config.py:159-173 | a log file inside a directory of its own is logged in that directory |
| Configuration.LogDirectoryDefault | src/config.py:159-173 | the default log file and a bare file name both give `logs` |
| Configuration.LogDirectoriesAgree | src/config.py:159-173 | the configuration's log directory equals the one the logger's set-up derives from the same dictionary |
| Configuration.FieldErrors | src/config.py:206-216 | one error per missing required NTRIP field, in order, and none for a truthy one |
| Configuration.ErrorsEmptyIff | src/config.py:202-227 | no errors exactly when server, user name, password and mountpoint are truthy and the serial section names a port or a host |
| Configuration.LogErrors | src/config.py:222-224 | the loop logs each error with the same prefix, in order |
| Configuration.Config.Validate | src/config.py:202-227 | the errors computed are those of the specification, each is logged, and the result is True exactly when there are none |
| Configuration.Config.GetItem | src/config.py:234-236 | the value under the key, None where the key is missing |
| Configuration.Config.SetItem | src/config.py:238-240 | only the key's entry changes |
| Configuration.Config.Contains | src/config.py:242-244 | True exactly when the key is present |
| Configuration.Config.Get | src/config.py:246-248 | the value under the key, else the default |
| Configuration.Config.Copy | src/config.py:229-232 | a fresh configuration with equal data |
| Configuration.CopyIndependent | src/config.py:229-232 | changing a copy leaves the original as it was |
| Logging.NormaliseName | src/logger.py:113-119 | the name always lies under `rtk_gnss_worker`; a name already under it is unchanged, and any other name gets the root and a dot in front |
| Logging.NormaliseIdempotent | src/logger.py:113-119 | normalising a normalised name changes nothing |
| Logging.SourcePackageAlias | src/logger.py:113-119 | a module named through the `src` package and by its bare name share one logger |
| Logging.NormaliseOutside | src/logger.py:113-119 | every name outside the root is prefixed with the root and a dot, after a `src.` prefix is removed |
| Logging.LevelOf | src/logger.py:131-139 | a level exactly for the five level names, in any case |
| Logging.LevelCaseInsensitive | src/logger.py:131-139 | a name and its upper-case form select the same level |
| Logging.ConsoleLevelsEffect | src/logger.py:140-143 | console handlers take the level; every other handler, and every target, is unchanged |
| Logging.FirstConsoleLevel | src/logger.py:146-160 | only the first console handler takes the level |
| Logging.SingleConsole | src/logger.py:129-160 | with at most one console handler, both level setters leave the same handlers |
| Logging.InstalledSingleConsole | src/logger.py:66-92 | the installed handlers include exactly one console handler |
| Logging.LogDirFor | src/logger.py:267-277 | the file's directory, with no directory, `.` and `/var/log` sent to `logs` |
| Logging.SectionLogDir | src/logger.py:267-277 | `logs` unless the dictionary's `logging` section names a file as text, and then that file's directory |
| Logging.SetupDirAsWritten | src/logger.py:258-277 | as written, with a configuration file the dictionary read is the file's `logging` section, not the whole file |
| Logging.FileLogDirIgnored | src/logger.py:258-277 | as written, the log file named by the configuration file gives `logs`; the corrected set-up gives that file's directory |
| Logging.SetupDir | src/logger.py:258-277 | the directory that the file's (or else the given dictionary's) `logging` section names |
| Logging.SetupDirAgrees | src/logger.py:258-277 | without a configuration file, the written and the corrected set-up read the same dictionary |
| Logging.SetupDirectory | src/logger.py:35-51 | the override when it is truthy, else `logs`; `.` when the directory cannot be made |
| Logging.Installed | src/logger.py:66-92 | the console at INFO, the daily file at DEBUG and the error file at WARNING, in that order |
| Logging.Quietened | src/logger.py:95-96 | urllib3 and requests are held at WARNING |
| Logging.RTKLogger.constructor | src/logger.py:22-25 | a fresh instance with nothing set up |
| Logging.RTKLogger.Setup | src/logger.py:32-96 | the directory settled, the root at DEBUG, exactly the installed handlers, and the third-party loggers quietened |
| Logging.RTKLogger.GetLogger | src/logger.py:110-127 | the logger of the normalised name; one without handlers is set to DEBUG, and nothing else changes |
| Logging.RTKLogger.SetLevel | src/logger.py:129-144 | a known level name sets the root and every console handler; an unknown one changes nothing |
| Logging.RTKLogger.SetConsoleLevel | src/logger.py:146-160 | a known level name sets the first console handler only; an unknown one changes nothing |
| Logging.Process.constructor | src/logger.py:164 | no instance exists yet |
| Logging.Process.Construct | src/logger.py:22-30 | every construction returns the one instance; the set-up runs only on the first |
| Logging.Process.ConstructTwice | src/logger.py:22-30 | two constructions give the same object, which is as the first one left it: set up in the first construction's directory (or untouched when already set up), whatever directory the second asks for |
| Logging.Process.Shared | src/logger.py:166-198 | the module's instance, created on first use and set up unless a construction already set it up; an instance already set up is left unchanged |
| Logging.Process.GetLogger | src/logger.py:166-198 | the caller's module name stands in for a missing name; the shared instance is set up on first use in the given directory (ignored later), and its registry gains the normalised logger as `get_logger` says |
| Logging.Process.SetLogLevel | src/logger.py:201-208 | the shared instance, set up in the default directory on first use; a known level sets its root and every console handler, an unknown one changes nothing after the set-up |
| Logging.Process.SetConsoleLogLevel | src/logger.py:211-218 | the shared instance, set up in the default directory on first use; a known level sets its first console handler only, an unknown one changes nothing after the set-up |
| Logging.Process.SetupFromConfig | src/logger.py:246-286 | the one instance is kept (created if there was none) and becomes the module's instance; when a module instance existed or nothing was set up yet, it is set up again in the corrected directory: root at DEBUG, the installed handlers, the third-party loggers quietened; when the class was set up but no module instance existed, the instance is returned untouched; a failure changes neither the process state nor the instance |

## Left out

- Network, serial and file I/O are inputs: caster answers, arriving events, and `connects`/`opens`/`fault`/`dirReady` parameters. Socket connect and `settimeout` are one `connects` outcome.
- pyserial's `readline` is an input function of the events and the timeout; its internal buffering is not modelled.
- Threads, `run()` and the sleeps of gnss_worker.py are left out. Each thread loop is modelled as one pass of its body (`RtcmStep`, `NmeaStep`); interleaving is not modelled.
- Clocks are parameters: `time.time()` readings, and the date in the daily log file name.
- Ntrip.Client.Connect: the nesting of source-table retries is bounded by a `fuel` parameter; the source has no bound.
- Text.ParseInt and Text.ParseFloat accept decimal notation only. Underscores, exponents, `inf` and `nan` are not modelled.
- Text.Upper is ASCII only, while Python's `upper` is Unicode-aware.
- Floating-point rounding is modelled on exact reals. `%f` rounds half to even on the exact value.
- Publisher: JSON text rendering is left out; files hold `Value`s, and a document with a non-JSON value is one `json.dumps` raise.
- Publisher: the Windows branch that unlinks the target before renaming, and a failing unlink of the temporary file, are left out.
- Publisher: a non-string `file_path` is taken to raise.
- Publisher and Serial: aliasing of the stored configuration with the caller's dictionary is left out; the model copies values.
- Serial: the debug logging of `read_nmea` is left out.
- Configuration.FromDocument: an `rtk` value that is not a dictionary gives None. The source would keep it and fail later.
- Configuration.FromDocument: a document that is not a JSON object (a top-level list, text or number) gives None. The source keeps such a document as the configuration's data (or raises on `'rtk' in` for a number); the model's configuration data is always a dictionary.
- Worker.GenerateGga: sends the corrected sentence, with the latitude formatted through `abs` (see "## Findings"); the sentence as written is `Worker.GgaSentenceAsWritten`, about which `Worker.AsWrittenParses` and `Worker.SouthernLatitudeFlipped` are proved.
- Worker.GenerateGga: the source reads `time.time()` a second time for the UTC clock field; the model takes both readings to be `now`.
- Worker.GnssWorker.Heartbeat: sends the corrected sentence of `Worker.GenerateGga`, not the sentence as written.
- Serial.Handler.OpenTcp: connects to the corrected address `Serial.PeerOf`; as written (`Serial.PeerAsWritten`), a port that `int()` rejects fails the open even when `tcp_port` is set, as `Serial.UrlPortNeverOpens` shows.
- Serial.Handler.Open: its TCP branch is the corrected `Serial.Handler.OpenTcp`.
- Logging.Process.SetupFromConfig: sets up in the corrected directory `Logging.SetupDir`; as written (`Logging.SetupDirAsWritten`), a configuration file's log file is ignored, as `Logging.FileLogDirIgnored` shows.
- Configuration: of `from_env`, only the serial section is modelled (`SerialFromEnv`). The other sections, the `.lower()` of `ATOMIC_WRITE`, and the `CONFIG_FILE`/`os.path.exists` branch are left out.
- Configuration: `ensure_log_directory` (file-system creation) is left out.
- Configuration: the logger created in `Config.__init__` is left out.
- Configuration: `copy.deepcopy` is the identity on immutable values.
- Logging: log output, the `log_*` helpers, `_add_level_icons` and the formatters are left out.
- Logging: file handler paths are (directory, name) pairs, without `pathlib` normalisation.
- Logging: the outcome of `mkdir` is the `dirReady` parameter.
- Logging: the `inspect` caller name is a parameter.
- Logging: the process-wide logging registry is kept inside the single RTKLogger instance.
- Logging.SectionLogDir: a truthy `config_dict` that is no dictionary is taken to raise; Python's `in` on text or a list is not modelled.

## Findings

| source | as written | input that shows it | evidently intended | confidence | as-written member | corrected member |
|---|---|---|---|---|---|---|
| src/gnss_worker.py:235-238 | the latitude's degrees and minutes are taken from the signed value, and the hemisphere letter is chosen from the sign | latitude -31.0 gives `-3100.00000,S`, which parses as +31.0; latitude -31.5 gives `-31-30.00000,S`, whose degrees text `-31-` makes `float()` raise, so it parses as 0.0 (any southern latitude whose minutes reach ten) | format the magnitude `abs(lat)`, as the longitude line does | not executed | Worker.SouthernLatitudeFlipped, Worker.SouthernMinutesLost | Worker.GgaRoundTrip |
| src/serial_handler.py:62 | `int(config.get('port', ...))` is evaluated before `tcp_port` is consulted | port `socket://h:5000` without a host: `__init__` fills host `h` and tcp_port 5000, but `_open_tcp` raises on `int()` and never opens | use `tcp_port` when it is set and only otherwise convert `port` | not executed | Serial.UrlPortNeverOpens | Serial.PeerAgrees |
| src/logger.py:258-277 | with a configuration file, `config_dict` becomes the file's `logging` section, and the code then looks for a `logging` key inside it | a file `{"logging": {"file": "/data/gnss/x.log"}}` logs to `logs` instead of `/data/gnss` | read the `logging` section of the whole file | not executed | Logging.FileLogDirIgnored | Logging.SetupDir |
