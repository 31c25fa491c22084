/**
 * The client side of one Redis connection as beater/rsbeat.go drives it
 * through the redigo library: `Send` buffers a command, `Flush` writes the
 * buffer, `Receive` reads one reply, `Do` sends a command, flushes and
 * reads every reply still owed, and `Close` ends the connection. The
 * server is a script of the replies it will give, in order; once the
 * script runs out every read fails, as a read from a dead socket does.
 */
module Redis {
  import Normalize

  datatype Arg = Str(s: string) | Int(n: int)

  datatype Command = Command(name: string, args: seq<Arg>)

  const SlowlogGet := Command("SLOWLOG", [Str("GET")])
  const SlowlogReset := Command("SLOWLOG", [Str("RESET")])

  /** A reply as the client reads it off the wire. */
  datatype Reply =
    | Status(text: string)                           // `+OK`, `+QUEUED`
    | ErrorReply(message: string)                    // `-ERR ...`
    | Entries(entries: seq<Normalize.SlowEntry>)     // a `SLOWLOG GET` array, decoded
    | Array(replies: seq<Reply>)                     // any other array, e.g. EXEC's
    | IoError(reason: string)                        // the read itself failed

  /** Replies that redigo hands back as a non-nil `error`. */
  predicate IsError(r: Reply)
  {
    r.ErrorReply? || r.IoError?
  }

  /** Some reply in `rs` is an error. */
  predicate AnyError(rs: seq<Reply>)
    decreases |rs|
  {
    rs != [] && (AnyError(rs[..|rs| - 1]) || IsError(rs[|rs| - 1]))
  }

  lemma {:induction false} AnyErrorAt(rs: seq<Reply>)
    ensures AnyError(rs) <==> exists i :: 0 <= i < |rs| && IsError(rs[i])
    decreases |rs|
  {
    if rs != [] {
      var init := rs[..|rs| - 1];
      AnyErrorAt(init);
      if AnyError(init) {
        var i :| 0 <= i < |init| && IsError(init[i]);
        assert rs[i] == init[i];
      }
      if exists i :: 0 <= i < |rs| && IsError(rs[i]) {
        var i :| 0 <= i < |rs| && IsError(rs[i]);
        if i < |init| {
          assert init[i] == rs[i];
        }
      }
    }
  }

  /** One thing the client did on the connection. */
  datatype Op = Sent(cmd: Command) | Flushed | Read(reply: Reply) | Closed

  function NextReply(script: seq<Reply>): Reply
  {
    if script == [] then IoError("EOF") else script[0]
  }

  function AfterReply(script: seq<Reply>): (rest: seq<Reply>)
    ensures |rest| == if script == [] then 0 else |script| - 1
  {
    if script == [] then [] else script[1..]
  }

  /** The next `n` replies the server gives. */
  function Replies(script: seq<Reply>, n: nat): (rs: seq<Reply>)
    ensures |rs| == n
  {
    if n == 0 then [] else [NextReply(script)] + Replies(AfterReply(script), n - 1)
  }

  /** What is left of the script after `n` replies. */
  function Drop(script: seq<Reply>, n: nat): (rest: seq<Reply>)
    ensures |rest| == if n <= |script| then |script| - n else 0
  {
    if n == 0 then script else Drop(AfterReply(script), n - 1)
  }

  function ReadOps(rs: seq<Reply>): (ops: seq<Op>)
    ensures |ops| == |rs|
    ensures forall i :: 0 <= i < |rs| ==> ops[i] == Read(rs[i])
    decreases |rs|
  {
    if rs == [] then [] else ReadOps(rs[..|rs| - 1]) + [Read(rs[|rs| - 1])]
  }

  function SentOps(cmds: seq<Command>): (ops: seq<Op>)
    ensures |ops| == |cmds|
    ensures forall i :: 0 <= i < |cmds| ==> ops[i] == Sent(cmds[i])
  {
    if cmds == [] then [] else [Sent(cmds[0])] + SentOps(cmds[1..])
  }

  /** The commands in a trace, in the order they were sent. */
  function Commands(trace: seq<Op>): seq<Command>
  {
    if trace == [] then []
    else (if trace[0].Sent? then [trace[0].cmd] else []) + Commands(trace[1..])
  }

  lemma {:induction false} CommandsAppend(a: seq<Op>, b: seq<Op>)
    ensures Commands(a + b) == Commands(a) + Commands(b)
  {
    if a != [] {
      CommandsAppend(a[1..], b);
      assert (a + b)[1..] == a[1..] + b;
    } else {
      assert a + b == b;
    }
  }

  lemma ReadOpsSnoc(rs: seq<Reply>, r: Reply)
    ensures ReadOps(rs + [r]) == ReadOps(rs) + [Read(r)]
  {
    assert (rs + [r])[..|rs|] == rs;
  }

  lemma {:induction false} ReadOpsHaveNoCommands(rs: seq<Reply>)
    ensures Commands(ReadOps(rs)) == []
    decreases |rs|
  {
    if rs != [] {
      ReadOpsHaveNoCommands(rs[..|rs| - 1]);
      CommandsAppend(ReadOps(rs[..|rs| - 1]), [Read(rs[|rs| - 1])]);
    }
  }

  lemma {:induction false} SentOpsCommands(cmds: seq<Command>)
    ensures Commands(SentOps(cmds)) == cmds
  {
    if cmds != [] {
      SentOpsCommands(cmds[1..]);
      assert [cmds[0]] + cmds[1..] == cmds;
    }
  }

  /** Reading one more reply extends `Replies` and shortens `Drop` by one. */
  lemma {:induction false} RepliesStep(script: seq<Reply>, n: nat)
    ensures Replies(script, n + 1) == Replies(script, n) + [NextReply(Drop(script, n))]
    ensures Drop(script, n + 1) == AfterReply(Drop(script, n))
  {
    if n > 0 {
      RepliesStep(AfterReply(script), n - 1);
    }
  }

  class Conn {
    /** Everything the client has done on this connection, in order. */
    var trace: seq<Op>
    /** The replies the server has yet to give. */
    var script: seq<Reply>
    /** Commands sent whose replies have not been read. */
    var pending: nat
    var closed: bool

    /** A freshly dialled connection to a server that will answer with `script`. */
    constructor (script: seq<Reply>)
      ensures this.script == script && trace == [] && pending == 0 && !closed
    {
      this.script := script;
      trace := [];
      pending := 0;
      closed := false;
    }

    method Send(cmd: Command)
      modifies this
      ensures trace == old(trace) + [Sent(cmd)] && pending == old(pending) + 1
      ensures script == old(script) && closed == old(closed)
    {
      trace := trace + [Sent(cmd)];
      pending := pending + 1;
    }

    method Flush()
      modifies this
      ensures trace == old(trace) + [Flushed]
      ensures script == old(script) && pending == old(pending) && closed == old(closed)
    {
      trace := trace + [Flushed];
    }

    method Receive() returns (r: Reply)
      modifies this
      ensures r == NextReply(old(script)) && script == AfterReply(old(script))
      ensures trace == old(trace) + [Read(r)]
      ensures pending == if old(pending) > 0 then old(pending) - 1 else 0
      ensures closed == old(closed)
    {
      r := NextReply(script);
      script := AfterReply(script);
      trace := trace + [Read(r)];
      if pending > 0 {
        pending := pending - 1;
      }
    }

    /** Reads the replies of every command still owed, in order. */
    method ReadPending() returns (rs: seq<Reply>)
      modifies this
      ensures rs == Replies(old(script), old(pending))
      ensures script == Drop(old(script), old(pending))
      ensures trace == old(trace) + ReadOps(rs)
      ensures pending == 0 && closed == old(closed)
    {
      var n := pending;
      rs := [];
      var i := 0;
      while i < n
        invariant 0 <= i <= n && pending == n - i
        invariant rs == Replies(old(script), i)
        invariant script == Drop(old(script), i)
        invariant trace == old(trace) + ReadOps(rs)
        invariant closed == old(closed)
      {
        RepliesStep(old(script), i);
        var r := Receive();
        ReadOpsSnoc(rs, r);
        rs := rs + [r];
        i := i + 1;
      }
    }

    /**
     * Sends `cmd`, flushes, and reads the replies of every command still
     * owed, `cmd`'s last. It fails when any of those replies is an error;
     * `last` is `cmd`'s own reply.
     */
    method Do(cmd: Command) returns (last: Reply, failed: bool)
      modifies this
      ensures var rs := Replies(old(script), old(pending) + 1);
        && trace == old(trace) + [Sent(cmd), Flushed] + ReadOps(rs)
        && script == Drop(old(script), old(pending) + 1)
        && last == rs[|rs| - 1]
        && (failed <==> AnyError(rs))
      ensures pending == 0 && closed == old(closed)
    {
      Send(cmd);
      Flush();
      var rs := ReadPending();
      last := rs[|rs| - 1];
      failed := AnyError(rs);
    }

    method Close()
      modifies this
      ensures closed && trace == old(trace) + [Closed]
      ensures script == old(script) && pending == old(pending)
    {
      closed := true;
      trace := trace + [Closed];
    }
  }
}
