/**
 * The `Dial` closure that `poolInit` in beater/rsbeat.go gives each
 * connection pool: connect, authenticate when a password is configured,
 * then apply the slow-log settings and clear the log in one MULTI/EXEC
 * transaction.
 */
module Pool {
  import opened Redis

  /** The `slowlog-max-len` the collector sets on every backend. */
  const SlowlogMaxLen := 500

  const Multi := Command("MULTI", [])
  const Exec := Command("EXEC", [])

  function Auth(password: string): Command
  {
    Command("AUTH", [Str(password)])
  }

  function ConfigSet(parameter: string, value: int): Command
  {
    Command("CONFIG", [Str("SET"), Str(parameter), Int(value)])
  }

  /** The commands queued between MULTI and EXEC, MULTI included. */
  function Queued(slowerThan: int): seq<Command>
  {
    [Multi]
    + (if slowerThan > 0
       then [ConfigSet("slowlog-log-slower-than", slowerThan), ConfigSet("slowlog-max-len", SlowlogMaxLen)]
       else [])
    + [SlowlogReset]
  }

  /** Every command a successful authentication leads to, in order. */
  function SetupCommands(password: string, slowerThan: int): seq<Command>
  {
    (if password != "" then [Auth(password)] else []) + Queued(slowerThan) + [Exec]
  }

  datatype DialOutcome =
    | Ready                        // the connection goes to the pool
    | DialFailed                   // `redis.Dial` failed; nothing was sent
    | AuthFailed(reply: Reply)     // AUTH was refused; the connection is closed
    | ExecFailed                   // the transaction failed; the connection is dropped, not closed

  /** AUTH is sent and refused. */
  predicate AuthRefused(password: string, script: seq<Reply>)
  {
    password != "" && IsError(NextReply(script))
  }

  /** The replies to the transaction, read by `Do("EXEC")`. */
  function TransactionReplies(password: string, slowerThan: int, script: seq<Reply>): seq<Reply>
  {
    Replies(if password != "" then AfterReply(script) else script, |Queued(slowerThan)| + 1)
  }

  /** What the client does on a fresh connection whose server answers with `script`. */
  function DialTrace(password: string, slowerThan: int, script: seq<Reply>): seq<Op>
  {
    var auth := if password != "" then [Sent(Auth(password)), Flushed, Read(NextReply(script))] else [];
    if AuthRefused(password, script) then auth + [Closed]
    else
      auth + SentOps(Queued(slowerThan)) + [Sent(Exec), Flushed]
      + ReadOps(TransactionReplies(password, slowerThan, script))
  }

  /**
   * The MULTI ... EXEC part of the closure: queues the settings and the
   * log reset and runs them with `Do("EXEC")`.
   */
  method ApplySettings(c: Conn, slowerThan: int) returns (failed: bool)
    requires c.pending == 0
    modifies c
    ensures var rs := Replies(old(c.script), |Queued(slowerThan)| + 1);
      && c.trace == old(c.trace) + SentOps(Queued(slowerThan)) + [Sent(Exec), Flushed] + ReadOps(rs)
      && c.script == Drop(old(c.script), |Queued(slowerThan)| + 1)
      && (failed <==> AnyError(rs))
    ensures c.pending == 0 && c.closed == old(c.closed)
  {
    c.Send(Multi);
    if slowerThan > 0 {
      c.Send(ConfigSet("slowlog-log-slower-than", slowerThan));
      c.Send(ConfigSet("slowlog-max-len", SlowlogMaxLen));
    }
    c.Send(SlowlogReset);
    assert c.trace == old(c.trace) + SentOps(Queued(slowerThan));
    var _, f := c.Do(Exec);
    failed := f;
  }

  /**
   * Sets up the connection `c` that `redis.Dial` returned, or reports the
   * dial failure when it returned none (`c == null`).
   */
  method Dial(c: Conn?, password: string, slowerThan: int) returns (outcome: DialOutcome)
    requires c != null ==> c.trace == [] && c.pending == 0 && !c.closed
    modifies c
    ensures c == null ==> outcome == DialFailed
    ensures c != null ==>
      var s0 := old(c.script);
      && c.trace == DialTrace(password, slowerThan, s0)
      && c.pending == 0
      && (AuthRefused(password, s0) ==>
            && outcome == AuthFailed(NextReply(s0)) && c.closed
            && c.script == AfterReply(s0))
      && (!AuthRefused(password, s0) ==>
            && outcome == (if AnyError(TransactionReplies(password, slowerThan, s0)) then ExecFailed else Ready)
            && !c.closed
            && c.script == Drop(if password != "" then AfterReply(s0) else s0, |Queued(slowerThan)| + 1))
  {
    if c == null {
      return DialFailed;
    }
    ghost var s0 := c.script;
    if password != "" {
      var reply, failed := c.Do(Auth(password));
      RepliesStep(s0, 0);
      assert c.script == AfterReply(s0);
      assert c.trace == [Sent(Auth(password)), Flushed, Read(NextReply(s0))];
      if failed {
        c.Close();
        return AuthFailed(reply);
      }
    }
    var failed := ApplySettings(c, slowerThan);
    outcome := if failed then ExecFailed else Ready;
  }

  // ----- the shape of the setup sequence -----

  /**
   * AUTH is sent exactly when a password is configured, and then it is
   * the first command; no other command is called AUTH.
   */
  lemma AuthFirstIffPassword(password: string, slowerThan: int)
    ensures var cmds := SetupCommands(password, slowerThan);
      && (password != "" <==> exists i :: 0 <= i < |cmds| && cmds[i].name == "AUTH")
      && (password != "" ==> cmds[0] == Auth(password))
  {
    var cmds := SetupCommands(password, slowerThan);
    if password != "" {
      assert cmds[0].name == "AUTH";
    } else {
      assert cmds == Queued(slowerThan) + [Exec];
    }
  }

  /**
   * The slow-log settings are written exactly when the threshold is
   * positive, and then they are that threshold and a maximum length of 500.
   */
  lemma ConfigIffPositive(password: string, slowerThan: int)
    ensures var cmds := SetupCommands(password, slowerThan);
      && (slowerThan > 0 <==> exists i :: 0 <= i < |cmds| && cmds[i].name == "CONFIG")
      && (slowerThan > 0 ==>
            ConfigSet("slowlog-log-slower-than", slowerThan) in cmds
            && ConfigSet("slowlog-max-len", 500) in cmds)
  {
    var cmds := SetupCommands(password, slowerThan);
    var a := if password != "" then 1 else 0;
    if slowerThan > 0 {
      assert cmds[a + 1] == ConfigSet("slowlog-log-slower-than", slowerThan);
      assert cmds[a + 2] == ConfigSet("slowlog-max-len", 500);
    } else {
      assert |cmds| == a + 3;
      assert forall i :: 0 <= i < |cmds| ==> cmds[i] in {Auth(password), Multi, SlowlogReset, Exec};
    }
  }

  /** `SLOWLOG RESET` is always queued between MULTI and the final EXEC. */
  lemma ResetInsideTransaction(password: string, slowerThan: int)
    ensures var cmds := SetupCommands(password, slowerThan);
      exists i, j :: 0 <= i < j < |cmds| - 1
        && cmds[i] == Multi && cmds[j] == SlowlogReset && cmds[|cmds| - 1] == Exec
  {
    var cmds := SetupCommands(password, slowerThan);
    var a := if password != "" then 1 else 0;
    var j := |cmds| - 2;
    assert cmds[a] == Multi && cmds[j] == SlowlogReset;
  }

  /**
   * A refused AUTH is the only command sent, and the connection is closed
   * right after its reply; otherwise exactly the setup commands are sent.
   */
  lemma DialSends(password: string, slowerThan: int, script: seq<Reply>)
    ensures var t := DialTrace(password, slowerThan, script);
      && (AuthRefused(password, script) ==> Commands(t) == [Auth(password)] && t[|t| - 1] == Closed)
      && (!AuthRefused(password, script) ==> Commands(t) == SetupCommands(password, slowerThan))
  {
    var auth := if password != "" then [Sent(Auth(password)), Flushed, Read(NextReply(script))] else [];
    assert Commands(auth) == if password != "" then [Auth(password)] else [] by {
      if password != "" {
        assert auth[1..][1..][1..] == [];
        assert Commands(auth[1..][1..]) == [];
        assert Commands(auth[1..]) == [];
      }
    }
    if AuthRefused(password, script) {
      CommandsAppend(auth, [Closed]);
      assert Commands([Closed]) == [];
    } else {
      var q := SentOps(Queued(slowerThan));
      var tail := [Sent(Exec), Flushed];
      var readOps := ReadOps(TransactionReplies(password, slowerThan, script));
      SentOpsCommands(Queued(slowerThan));
      ReadOpsHaveNoCommands(TransactionReplies(password, slowerThan, script));
      assert Commands(tail) == [Exec] by {
        assert tail[1..][1..] == [];
        assert Commands(tail[1..]) == [];
      }
      CommandsAppend(auth, q);
      CommandsAppend(auth + q, tail);
      CommandsAppend(auth + q + tail, readOps);
    }
  }
}
