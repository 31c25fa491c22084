/**
 * `redisc` in beater/rsbeat.go: one collection cycle against one backend.
 * `SLOWLOG GET` and `SLOWLOG RESET` are pipelined, both replies are read,
 * and every entry of the GET reply is turned into an event and published,
 * in reply order. An entry whose client address has no `:` makes the
 * goroutine panic; the events before it are already published and the
 * deferred `Close` still runs. Nothing recovers the panic, so it then ends
 * the process; the model stops at the panic.
 */
module Collect {
  import opened Wrappers
  import opened Redis
  import Normalize
  import UtcTime

  /** The event sink: everything published, in order. */
  class Publisher {
    var events: seq<Normalize.Event>

    constructor ()
      ensures events == []
    {
      events := [];
    }

    method PublishEvent(e: Normalize.Event)
      modifies this
      ensures events == old(events) + [e]
    {
      events := events + [e];
    }
  }

  /** How a cycle ends: normally, or with the goroutine's panic. */
  datatype Outcome = Completed | Panicked(fault: Normalize.Fault)

  /**
   * The record an element of the GET reply gives when `redis.Values` on
   * it fails and `redis.Scan` assigns nothing: every field at Go's zero
   * value, so the client address is empty.
   */
  const ZeroEntry := Normalize.SlowEntry(0, 0, 0, [], "", "")

  /**
   * `redis.Values` on the GET reply: it succeeds on every array reply and
   * fails on anything else (a status, an error reply, a failed read). The
   * elements of an entry array are its records; an element of any other
   * array does not decode as a record and leaves the zero record.
   */
  function GetEntries(r: Reply): (es: Option<seq<Normalize.SlowEntry>>)
    ensures es.Some? <==> (r.Entries? || r.Array?)
    ensures r.Entries? ==> es.value == r.entries
    ensures r.Array? ==> |es.value| == |r.replies|
    ensures r.Array? ==> forall j :: 0 <= j < |es.value| ==> es.value[j].clientInfo == ""
  {
    match r
    case Entries(entries) => Some(entries)
    case Array(replies) => Some(seq(|replies|, _ => ZeroEntry))
    case _ => None
  }

  /** The first index at or after `i` whose entry cannot be normalized, or `|entries|`. */
  function FirstFault(entries: seq<Normalize.SlowEntry>, i: nat): (k: nat)
    requires i <= |entries|
    ensures i <= k <= |entries|
    ensures forall j :: i <= j < k ==> ':' in entries[j].clientInfo
    ensures k < |entries| ==> ':' !in entries[k].clientInfo
    decreases |entries| - i
  {
    if i == |entries| || ':' !in entries[i].clientInfo then i else FirstFault(entries, i + 1)
  }

  /**
   * The events the loop publishes from entry `i` on; the event of entry
   * `j` carries the clock reading `clock(j)` as its `@timestamp`.
   */
  function PublishedFrom(entries: seq<Normalize.SlowEntry>, i: nat, beatName: string, ipPort: string,
                         clock: nat -> UtcTime.Time): seq<Normalize.Event>
    requires i <= |entries|
    decreases |entries| - i
  {
    if i == |entries| || ':' !in entries[i].clientInfo then []
    else [Normalize.Normalize(entries[i], beatName, ipPort, clock(i)).value]
         + PublishedFrom(entries, i + 1, beatName, ipPort, clock)
  }

  /** How the loop ends from entry `i` on. */
  function OutcomeFrom(entries: seq<Normalize.SlowEntry>, i: nat): Outcome
    requires i <= |entries|
    decreases |entries| - i
  {
    if i == |entries| then Completed
    else if ':' !in entries[i].clientInfo then Panicked(Normalize.IndexOutOfRange(1, 1))
    else OutcomeFrom(entries, i + 1)
  }

  /** The loop panics exactly when some entry from `i` on has no client port. */
  lemma {:induction false} OutcomeAtFault(entries: seq<Normalize.SlowEntry>, i: nat)
    requires i <= |entries|
    ensures OutcomeFrom(entries, i)
      == if FirstFault(entries, i) < |entries| then Panicked(Normalize.IndexOutOfRange(1, 1)) else Completed
    decreases |entries| - i
  {
    if i < |entries| && ':' in entries[i].clientInfo {
      OutcomeAtFault(entries, i + 1);
    }
  }

  /** The events one cycle publishes, given the reply to `SLOWLOG GET`. */
  function CycleEvents(getReply: Reply, beatName: string, ipPort: string, clock: nat -> UtcTime.Time)
    : seq<Normalize.Event>
  {
    match GetEntries(getReply)
    case None => []
    case Some(entries) => PublishedFrom(entries, 0, beatName, ipPort, clock)
  }

  function CycleOutcome(getReply: Reply): Outcome
  {
    match GetEntries(getReply)
    case None => Completed
    case Some(entries) => OutcomeFrom(entries, 0)
  }

  /** The connection operations of one cycle, given the two replies read. */
  function CycleTrace(getReply: Reply, resetReply: Reply): seq<Op>
  {
    [Sent(SlowlogGet), Sent(SlowlogReset), Flushed, Read(getReply), Read(resetReply), Closed]
  }

  /**
   * The loop of `redisc`: normalizes and publishes the entries in order,
   * stopping at the first one that panics.
   */
  method PublishEntries(entries: seq<Normalize.SlowEntry>, beatName: string, ipPort: string,
                        clock: nat -> UtcTime.Time, sink: Publisher)
    returns (outcome: Outcome)
    modifies sink
    ensures sink.events == old(sink.events) + PublishedFrom(entries, 0, beatName, ipPort, clock)
    ensures outcome == OutcomeFrom(entries, 0)
  {
    outcome := Completed;
    var i := 0;
    while i < |entries|
      invariant 0 <= i <= |entries|
      invariant OutcomeFrom(entries, 0) == OutcomeFrom(entries, i)
      invariant sink.events + PublishedFrom(entries, i, beatName, ipPort, clock)
             == old(sink.events) + PublishedFrom(entries, 0, beatName, ipPort, clock)
    {
      var r := Normalize.Normalize(entries[i], beatName, ipPort, clock(i));
      if r.Err? {
        outcome := Panicked(r.error);
        return;
      }
      ghost var before := sink.events;
      sink.PublishEvent(r.value);
      assert sink.events + PublishedFrom(entries, i + 1, beatName, ipPort, clock)
          == before + PublishedFrom(entries, i, beatName, ipPort, clock);
      i := i + 1;
    }
  }

  /** One collection cycle on connection `c` to backend `ipPort`. */
  method Redisc(beatName: string, c: Conn, ipPort: string, clock: nat -> UtcTime.Time, sink: Publisher)
    returns (outcome: Outcome)
    modifies c, sink
    ensures var g, r := NextReply(old(c.script)), NextReply(AfterReply(old(c.script)));
      && c.trace == old(c.trace) + CycleTrace(g, r)
      && c.script == Drop(old(c.script), 2)
      && sink.events == old(sink.events) + CycleEvents(g, beatName, ipPort, clock)
      && outcome == CycleOutcome(g)
    ensures c.closed && c.pending == old(c.pending)
  {
    c.Send(SlowlogGet);
    c.Send(SlowlogReset);
    c.Flush();
    var getReply := c.Receive();
    var resetReply := c.Receive();
    RepliesStep(old(c.script), 0);
    RepliesStep(old(c.script), 1);
    outcome := Completed;
    var got := GetEntries(getReply);
    if got.Some? {
      outcome := PublishEntries(got.value, beatName, ipPort, clock, sink);
    }
    c.Close();
    assert c.trace == old(c.trace) + CycleTrace(getReply, resetReply);
  }

  // ----- what a cycle publishes -----

  /**
   * The published events are the events of the entries before the first
   * one that cannot be normalized, one per entry, in reply order.
   */
  lemma {:induction false} PublishedPrefix(entries: seq<Normalize.SlowEntry>, i: nat, beatName: string,
                                           ipPort: string, clock: nat -> UtcTime.Time)
    requires i <= |entries|
    ensures var p, k := PublishedFrom(entries, i, beatName, ipPort, clock), FirstFault(entries, i);
      && |p| == k - i
      && forall j :: i <= j < k ==>
           p[j - i] == Normalize.Normalize(entries[j], beatName, ipPort, clock(j)).value
    decreases |entries| - i
  {
    if i < |entries| && ':' in entries[i].clientInfo {
      PublishedPrefix(entries, i + 1, beatName, ipPort, clock);
      var e := Normalize.Normalize(entries[i], beatName, ipPort, clock(i)).value;
      var rest := PublishedFrom(entries, i + 1, beatName, ipPort, clock);
      var p := PublishedFrom(entries, i, beatName, ipPort, clock);
      assert p == [e] + rest;
      var k := FirstFault(entries, i);
      assert k == FirstFault(entries, i + 1);
      forall j | i <= j < k
        ensures p[j - i] == Normalize.Normalize(entries[j], beatName, ipPort, clock(j)).value
      {
        if j > i {
          assert p[j - i] == rest[j - (i + 1)];
        }
      }
    }
  }

  /**
   * When the GET reply decodes and every entry has a client port, exactly
   * one event is published per entry, in reply order, and the cycle
   * completes.
   */
  lemma OneEventPerEntry(getReply: Reply, beatName: string, ipPort: string, clock: nat -> UtcTime.Time)
    requires getReply.Entries?
    requires forall j :: 0 <= j < |getReply.entries| ==> ':' in getReply.entries[j].clientInfo
    ensures var es, p := getReply.entries, CycleEvents(getReply, beatName, ipPort, clock);
      && |p| == |es|
      && (forall j :: 0 <= j < |es| ==> p[j] == Normalize.Normalize(es[j], beatName, ipPort, clock(j)).value)
      && CycleOutcome(getReply) == Completed
  {
    PublishedPrefix(getReply.entries, 0, beatName, ipPort, clock);
    OutcomeAtFault(getReply.entries, 0);
  }

  /**
   * An entry without a client port ends the cycle in a panic, after the
   * events of exactly the entries before it.
   */
  lemma FaultStopsPublishing(getReply: Reply, k: nat, beatName: string, ipPort: string,
                             clock: nat -> UtcTime.Time)
    requires getReply.Entries? && k < |getReply.entries|
    requires ':' !in getReply.entries[k].clientInfo
    requires forall j :: 0 <= j < k ==> ':' in getReply.entries[j].clientInfo
    ensures |CycleEvents(getReply, beatName, ipPort, clock)| == k
    ensures CycleOutcome(getReply) == Panicked(Normalize.IndexOutOfRange(1, 1))
  {
    var es := getReply.entries;
    assert FirstFault(es, 0) == k;
    PublishedPrefix(es, 0, beatName, ipPort, clock);
    OutcomeAtFault(es, 0);
  }

  /**
   * A GET reply that is not an array (a status, an error reply or a failed
   * read) publishes nothing and is not a panic.
   */
  lemma UndecodableGetPublishesNothing(getReply: Reply, beatName: string, ipPort: string,
                                       clock: nat -> UtcTime.Time)
    requires !(getReply.Entries? || getReply.Array?)
    ensures CycleEvents(getReply, beatName, ipPort, clock) == []
    ensures CycleOutcome(getReply) == Completed
  {
  }

  /**
   * A GET reply that is an array but not of slow-log records publishes
   * nothing; it completes when empty and otherwise panics at its first
   * element, whose client address is empty.
   */
  lemma ForeignArrayGet(getReply: Reply, beatName: string, ipPort: string,
                        clock: nat -> UtcTime.Time)
    requires getReply.Array?
    ensures CycleEvents(getReply, beatName, ipPort, clock) == []
    ensures CycleOutcome(getReply)
      == if getReply.replies == [] then Completed else Panicked(Normalize.IndexOutOfRange(1, 1))
  {
  }

  /**
   * Every cycle sends GET before RESET, reads exactly two replies, and
   * closes the connection last, whatever the replies are.
   */
  lemma CycleShape(getReply: Reply, resetReply: Reply)
    ensures var t := CycleTrace(getReply, resetReply);
      && Commands(t) == [SlowlogGet, SlowlogReset]
      && |set i | 0 <= i < |t| && t[i].Read?| == 2
      && t[|t| - 1] == Closed
  {
    var t := CycleTrace(getReply, resetReply);
    assert Commands(t[5..]) == [];
    assert Commands(t[4..]) == [] by { assert t[4..][1..] == t[5..]; }
    assert Commands(t[3..]) == [] by { assert t[3..][1..] == t[4..]; }
    assert Commands(t[2..]) == [] by { assert t[2..][1..] == t[3..]; }
    assert Commands(t[1..]) == [SlowlogReset] by { assert t[1..][1..] == t[2..]; }
    assert (set i | 0 <= i < |t| && t[i].Read?) == {3, 4};
  }
}
