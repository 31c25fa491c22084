/**
 * The per-entry work of `redisc` in beater/rsbeat.go: one decoded
 * `SLOWLOG GET` entry becomes one event. The argument list gives the
 * command, the key and the remaining arguments as a JSON array; the
 * client address is cut at every `:` and its first two pieces are the
 * client ip and port.
 */
module Normalize {
  import opened Wrappers
  import Text
  import Json
  import UtcTime

  /**
   * One `SLOWLOG GET` entry after decoding: id, unix seconds, duration in
   * microseconds, the command's arguments, the client's `ip:port` and the
   * client name. A field missing from the reply holds Go's zero value.
   */
  datatype SlowEntry = SlowEntry(
    slowId: int,
    timestamp: int,
    duration: int,
    args: seq<string>,
    clientInfo: string,
    clientName: string)

  /** The published event, one field per key of the event map. */
  datatype Event = Event(
    beatType: string,              // "type"
    collectedAt: UtcTime.Time,     // "@timestamp"
    logTimestamp: UtcTime.Time,    // "@log_timestamp"
    slowId: int,                   // "slow_id"
    cmd: string,                   // "cmd"
    key: string,                   // "key"
    args: string,                  // "args"
    duration: int,                 // "duration"
    ipPort: string,                // "ip_port"
    clientIp: string,              // "clientip"
    clientPort: string,            // "clientport"
    clientName: string)            // "clientname"

  /** The run-time panic of indexing a slice out of range. */
  datatype Fault = IndexOutOfRange(index: nat, length: nat)

  function CommandName(args: seq<string>): string
  {
    if |args| >= 1 then args[0] else ""
  }

  function KeyName(args: seq<string>): string
  {
    if |args| >= 2 then args[1] else ""
  }

  function ExtraArgs(args: seq<string>): string
  {
    if |args| >= 3 then Json.EncodeArray(args[2..]) else ""
  }

  /**
   * Builds the event for `entry` read from backend `ipPort` by the beat
   * named `beatName` at `now`. The client address is split on every `:`
   * and the second piece is indexed unconditionally, so an address
   * without `:` is a fault instead of an event.
   */
  function Normalize(entry: SlowEntry, beatName: string, ipPort: string, now: UtcTime.Time)
    : (r: Result<Event, Fault>)
    ensures r.Ok? <==> ':' in entry.clientInfo
    ensures r.Err? ==> r.error == IndexOutOfRange(1, 1)
  {
    var s := Text.Split(entry.clientInfo, ':');
    Text.SplitHasSecondPiece(entry.clientInfo, ':');
    if |s| < 2 then Err(IndexOutOfRange(1, |s|))
    else
      Ok(Event(
        beatType := beatName,
        collectedAt := now,
        logTimestamp := UtcTime.FromUnix(entry.timestamp),
        slowId := entry.slowId,
        cmd := CommandName(entry.args),
        key := KeyName(entry.args),
        args := ExtraArgs(entry.args),
        duration := entry.duration,
        ipPort := ipPort,
        clientIp := s[0],
        clientPort := s[1],
        clientName := entry.clientName))
  }

  /**
   * The command is the first argument and the key the second, each empty
   * when the entry has too few arguments; the `args` text is empty below
   * three arguments and otherwise a JSON array that decodes to exactly
   * the arguments after the key, in order.
   */
  lemma CommandKeyArgs(entry: SlowEntry, beatName: string, ipPort: string, now: UtcTime.Time)
    requires Normalize(entry, beatName, ipPort, now).Ok?
    ensures var e := Normalize(entry, beatName, ipPort, now).value;
      var a := entry.args;
      && (|a| >= 1 ==> e.cmd == a[0]) && (|a| == 0 ==> e.cmd == "")
      && (|a| >= 2 ==> e.key == a[1]) && (|a| < 2 ==> e.key == "")
      && (e.args == "" <==> |a| < 3)
      && (|a| >= 3 ==> Json.DecodeArray(e.args) == Some(a[2..]))
  {
    if |entry.args| >= 3 {
      Json.ArrayRoundTrip(entry.args[2..]);
    }
  }

  /**
   * The client ip is the text before the first `:` of the client address;
   * the client port is the text after it, up to the next `:` or the end.
   */
  lemma ClientAddress(entry: SlowEntry, beatName: string, ipPort: string, now: UtcTime.Time)
    requires ':' in entry.clientInfo
    ensures var e := Normalize(entry, beatName, ipPort, now).value;
      var s, a, b := entry.clientInfo, |e.clientIp|, |e.clientPort|;
      && ':' !in e.clientIp && ':' !in e.clientPort
      && a + 1 + b <= |s|
      && s[..a] == e.clientIp && s[a] == ':'
      && s[a + 1..a + 1 + b] == e.clientPort
      && (a + 1 + b == |s| || s[a + 1 + b] == ':')
  {
    Text.FirstPieces(entry.clientInfo, ':');
    Text.SplitPieces(entry.clientInfo, ':');
  }

  /**
   * The remaining fields carry the entry and the caller's values through
   * unchanged; the log time is the UTC reading of the entry's unix seconds.
   */
  lemma CopiedFields(entry: SlowEntry, beatName: string, ipPort: string, now: UtcTime.Time)
    requires ':' in entry.clientInfo
    ensures var e := Normalize(entry, beatName, ipPort, now).value;
      && e.slowId == entry.slowId && e.duration == entry.duration
      && e.clientName == entry.clientName && e.ipPort == ipPort
      && e.beatType == beatName && e.collectedAt == now
      && UtcTime.Valid(e.logTimestamp) && UtcTime.ToUnix(e.logTimestamp) == entry.timestamp
  {
  }

  /**
   * An address `ip:port` whose parts hold no `:` gives back exactly that
   * ip and that port.
   */
  lemma IpPortRoundTrip(entry: SlowEntry, beatName: string, ipPort: string, now: UtcTime.Time,
                        ip: string, port: string)
    requires ':' !in ip && ':' !in port
    requires entry.clientInfo == ip + ":" + port
    ensures Normalize(entry, beatName, ipPort, now).Ok?
    ensures Normalize(entry, beatName, ipPort, now).value.clientIp == ip
    ensures Normalize(entry, beatName, ipPort, now).value.clientPort == port
  {
    var pieces := [ip, port];
    assert Text.Join(pieces, ':') == entry.clientInfo by {
      assert Text.Join(pieces[1..], ':') == port;
    }
    Text.SplitJoin(pieces, ':');
  }

  /** The entry `SET k1 v1 EX` of the example below. */
  function ExampleEntry(t: int): SlowEntry
  {
    SlowEntry(7, t, 1500, ["SET", "k1", "v1", "EX"], "10.0.0.5:5555", "")
  }

  /** A `SET k1 v1 EX` entry from client 10.0.0.5:5555: the client fields. */
  lemma ExampleClient(beatName: string, ipPort: string, now: UtcTime.Time, t: int)
    ensures var r := Normalize(ExampleEntry(t), beatName, ipPort, now);
      r.Ok? && r.value.clientIp == "10.0.0.5" && r.value.clientPort == "5555"
  {
    IpPortRoundTrip(ExampleEntry(t), beatName, ipPort, now, "10.0.0.5", "5555");
  }

  /** The same entry: the command fields, the duration and the log time. */
  lemma ExampleCommand(beatName: string, ipPort: string, now: UtcTime.Time, t: int)
    ensures var r := Normalize(ExampleEntry(t), beatName, ipPort, now);
      && r.Ok? && r.value.cmd == "SET" && r.value.key == "k1"
      && r.value.args == "[\"v1\",\"EX\"]"
      && r.value.duration == 1500 && UtcTime.ToUnix(r.value.logTimestamp) == t
  {
    ExampleClient(beatName, ipPort, now, t);
    ExampleArgs();
    assert ["SET", "k1", "v1", "EX"][2..] == ["v1", "EX"];
  }

  lemma ExampleArgs()
    ensures Json.EncodeArray(["v1", "EX"]) == "[\"v1\",\"EX\"]"
  {
    assert Json.Escape("v1") == "v1";
    assert Json.Escape("EX") == "EX";
  }
}
