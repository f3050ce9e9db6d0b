/**
  The server side of the ATMI runtime (`src/server.cpp`): the table of
  advertised services with its match and duplicate rules, the message-type
  scheduler that picks which request a dispatcher reads next, the admin
  message handler, and the return-value mapping of `tpreturn`. Message queues,
  threads, locks and `setjmp`/`longjmp` are not modelled; the shared
  management information base (MIB) enters only through the answers it gives.
 */
module Server {
  import opened Wrappers
  import opened Decimal

  /** The ATMI errors these operations report. */
  datatype TpError = TPEINVAL | TPELIMIT | TPENOENT | TPEPROTO | TPEMATCH

  /** A `uint16_t`, the width of a server's id and group number. */
  type Uint16 = x: int | 0 <= x < 0x1_0000

  /** A service function, identified by its address. */
  type Func = nat

  /**
    `tpadvertise` on the table `ads`. `name` and `func` are the caller's
    pointers (None for null); `mibAccepts` is whether the MIB has room for a
    new service (it throws `out_of_range` when it has not).
   */
  function Advertise(ads: map<string, Func>, name: Option<string>, func: Option<Func>, mibAccepts: bool)
    : (res: (Result<Unit, TpError>, map<string, Func>))
    ensures name.None? || name.value == "" || func.None? ==> res.0 == Failure(TPEINVAL)
    ensures res.0.Failure? ==> res.1 == ads
    ensures res.0.Success? <==>
      name.Some? && name.value != "" && func.Some?
      && (if name.value in ads then ads[name.value] == func.value else mibAccepts)
    ensures res.0 == Failure(TPEMATCH) <==>
      name.Some? && name.value != "" && func.Some? && name.value in ads && ads[name.value] != func.value
    ensures res.0 == Failure(TPELIMIT) <==>
      name.Some? && name.value != "" && func.Some? && name.value !in ads && !mibAccepts
    ensures res.0.Success? ==> res.1 == ads[name.value := func.value]
  {
    if name.None? || name.value == "" then (Failure(TPEINVAL), ads)
    else if func.None? then (Failure(TPEINVAL), ads)
    else if name.value in ads then
      if ads[name.value] != func.value then (Failure(TPEMATCH), ads)
      else (Success(Unit), ads)
    else if !mibAccepts then (Failure(TPELIMIT), ads)
    else (Success(Unit), ads[name.value := func.value])
  }

  /** `tpunadvertise` on the table `ads`. */
  function Unadvertise(ads: map<string, Func>, name: Option<string>): (res: (Result<Unit, TpError>, map<string, Func>))
    ensures name.None? || name.value == "" ==> res.0 == Failure(TPEINVAL)
    ensures res.0.Success? <==> name.Some? && name.value != "" && name.value in ads
    ensures res.0 == Failure(TPENOENT) <==> name.Some? && name.value != "" && name.value !in ads
    ensures res.0.Failure? ==> res.1 == ads
    ensures res.0.Success? ==> res.1.Keys == ads.Keys - {name.value}
    ensures forall k | k in res.1 :: k in ads && res.1[k] == ads[k]
  {
    if name.None? || name.value == "" then (Failure(TPEINVAL), ads)
    else if name.value in ads then (Success(Unit), ads - {name.value})
    else (Failure(TPENOENT), ads)
  }

  /** A name, once advertised, stays bound to its function: advertising never rebinds. */
  lemma AdvertiseNeverRebinds(ads: map<string, Func>, name: Option<string>, func: Option<Func>, mibAccepts: bool)
    ensures var ads' := Advertise(ads, name, func, mibAccepts).1;
      forall k | k in ads :: k in ads' && ads'[k] == ads[k]
  {
  }

  /** Advertising again what is already advertised succeeds and changes nothing, whatever the MIB says. */
  lemma AdvertiseIdempotent(ads: map<string, Func>, name: Option<string>, func: Option<Func>, a: bool, b: bool)
    requires Advertise(ads, name, func, a).0.Success?
    ensures var ads' := Advertise(ads, name, func, a).1;
      Advertise(ads', name, func, b) == (Success(Unit), ads')
  {
  }

  /** Withdrawing a newly advertised name gives back the table as it was. */
  lemma UnadvertiseUndoesAdvertise(ads: map<string, Func>, name: Option<string>, func: Option<Func>, mibAccepts: bool)
    requires Advertise(ads, name, func, mibAccepts).0.Success? && name.Some? && name.value !in ads
    ensures Unadvertise(Advertise(ads, name, func, mibAccepts).1, name) == (Success(Unit), ads)
  {
    var ads' := Advertise(ads, name, func, mibAccepts).1;
    assert ads' - {name.value} == ads;
  }

  /**
    Which message types a System V `msgrcv` selector admits, for a message of
    type `t` (always positive): 0 admits any type, a positive selector only
    that type, and a negative one any type up to its absolute value. Which of
    the admitted messages is read first is not modelled.
   */
  predicate Selects(selector: int, t: int) {
    if selector == 0 then true
    else if selector > 0 then t == selector
    else t <= -selector
  }

  /** The scheduler step: the counter advances mod 8 and every eighth call reads any message. */
  function NextType(counter: int, selector: int): (int, int) {
    var c := (counter + 1) % 8;
    (c, if c == 0 then 0 else selector)
  }

  /** The selectors `n` consecutive `mtype()` calls return, starting from `counter`. */
  function Calls(counter: int, selector: int, n: nat): (r: seq<int>)
    ensures |r| == n
    decreases n
  {
    if n == 0 then []
    else
      var step := NextType(counter, selector);
      [step.1] + Calls(step.0, selector, n - 1)
  }

  /** Advancing the counter first is the same as counting one more call. */
  lemma CounterShift(counter: int, i: nat)
    requires 0 <= counter < 8
    ensures ((counter + 1) % 8 + i) % 8 == (counter + i + 1) % 8
  {
    if counter == 7 {
      assert (counter + 1) % 8 == 0;
      assert counter + i + 1 == i + 1 * 8;
    } else {
      assert (counter + 1) % 8 == counter + 1;
    }
  }

  lemma {:induction false} CallsClosedForm(counter: int, selector: int, n: nat)
    requires 0 <= counter < 8
    ensures forall i :: 0 <= i < n ==> Calls(counter, selector, n)[i] == if (counter + i + 1) % 8 == 0 then 0 else selector
    decreases n
  {
    if n > 0 {
      var c := (counter + 1) % 8;
      CallsClosedForm(c, selector, n - 1);
      var r := Calls(counter, selector, n);
      var rest := Calls(c, selector, n - 1);
      assert r == [if c == 0 then 0 else selector] + rest;
      forall i | 0 <= i < n
        ensures r[i] == if (counter + i + 1) % 8 == 0 then 0 else selector
      {
        if i > 0 {
          assert r[i] == rest[i - 1];
          CounterShift(counter, i - 1);
        }
      }
    }
  }

  /**
    Fairness of the scheduler: of any eight consecutive calls exactly one
    ignores the selector and reads the first message of the queue.
   */
  lemma OneInEightReadsAny(counter: int, selector: int)
    requires 0 <= counter < 8 && selector != 0
    ensures exists i :: 0 <= i < 8 && Calls(counter, selector, 8)[i] == 0
    ensures forall i, j :: 0 <= i < 8 && 0 <= j < 8 && Calls(counter, selector, 8)[i] == 0 && Calls(counter, selector, 8)[j] == 0 ==> i == j
  {
    var r := Calls(counter, selector, 8);
    CallsClosedForm(counter, selector, 8);
    var k := 7 - counter;
    assert (counter + k + 1) % 8 == 0;
    assert r[k] == 0;
    forall i | 0 <= i < 8 && r[i] == 0
      ensures i == k
    {
      WrapsOnlyAtEight(counter + i + 1);
    }
  }

  lemma WrapsOnlyAtEight(x: int)
    requires 1 <= x <= 15
    ensures x % 8 == 0 <==> x == 8
  {
    if x < 8 {
      assert x % 8 == x;
    } else {
      assert x % 8 == x - 8;
    }
  }

  /**
    After an admin message of type `mtype` is put back, the selector
    `-(mtype - 1)` skips that message and every later one of the same or a
    higher type, and still takes every lower type. For `mtype == 1` the
    selector is 0, which takes a message of any type.
   */
  lemma HandledMessageSkipped(mtype: int, t: int)
    requires mtype >= 1 && t >= 1
    ensures Selects(-(mtype - 1), t) <==> t < mtype || mtype == 1
  {
  }

  /** The initial selector, `LONG_MIN`, takes a message of any type. */
  lemma InitialSelectorTakesAll(t: int)
    requires 1 <= t <= LongMax
    ensures Selects(LongMin, t)
  {
  }

  /** `server_main`: the state a server process shares between its dispatch threads. */
  class ServerMain {
    const srvid: Uint16
    const grpno: Uint16
    /** Advertised service names and their functions; names compare as C strings. */
    var advertisements: map<string, Func>
    /** The message type the next request read asks for (`mtype_`). */
    var selector: int
    /** Requests read since the last admin message, mod 8 (`req_counter_`). */
    var reqCounter: int
    var stop: bool

    ghost predicate Valid()
      reads this
    {
      0 <= reqCounter < 8 && "" !in advertisements
    }

    /**
      A new server for the `-i` and `-g` command-line values, which are `int`s
      stored into the `uint16_t` fields and so reduced modulo 2^16.
     */
    constructor (srvid: int, grpno: int)
      ensures this.srvid == srvid % 0x1_0000 && this.grpno == grpno % 0x1_0000
      ensures advertisements == map[] && selector == LongMin && reqCounter == 0 && !stop
      ensures Valid()
    {
      this.srvid := srvid % 0x1_0000;
      this.grpno := grpno % 0x1_0000;
      advertisements := map[];
      selector := LongMin;
      reqCounter := 0;
      stop := false;
    }

    /** `server_main::tpadvertise`. */
    method Tpadvertise(name: Option<string>, func: Option<Func>, mibAccepts: bool) returns (r: Result<Unit, TpError>)
      requires Valid()
      modifies this
      ensures Valid()
      ensures (r, advertisements) == Advertise(old(advertisements), name, func, mibAccepts)
      ensures selector == old(selector) && reqCounter == old(reqCounter) && stop == old(stop)
    {
      if name.None? || name.value == "" {
        return Failure(TPEINVAL);
      }
      if func.None? {
        return Failure(TPEINVAL);
      }
      if name.value in advertisements {
        if advertisements[name.value] != func.value {
          return Failure(TPEMATCH);
        }
      } else {
        if !mibAccepts {
          return Failure(TPELIMIT);
        }
        advertisements := advertisements[name.value := func.value];
      }
      return Success(Unit);
    }

    /** `server_main::tpunadvertise`. */
    method Tpunadvertise(name: Option<string>) returns (r: Result<Unit, TpError>)
      requires Valid()
      modifies this
      ensures Valid()
      ensures (r, advertisements) == Unadvertise(old(advertisements), name)
      ensures selector == old(selector) && reqCounter == old(reqCounter) && stop == old(stop)
    {
      if name.None? || name.value == "" {
        return Failure(TPEINVAL);
      }
      if name.value in advertisements {
        advertisements := advertisements - {name.value};
      } else {
        return Failure(TPENOENT);
      }
      return Success(Unit);
    }

    /**
      `server_main::handle` for an admin message of type `mtype` (positive, as
      every queued message's) whose buffer names `bufSrvid` and `bufGrpno`:
      the scheduler restarts and skips this message type from now on; the
      server stops when the message is addressed to it.
     */
    method Handle(mtype: int, bufSrvid: int, bufGrpno: int) returns (mine: bool)
      requires Valid() && mtype >= 1
      modifies this
      ensures Valid()
      ensures selector == -(mtype - 1) && reqCounter == 0
      ensures mine <==> bufSrvid == srvid && bufGrpno == grpno
      ensures stop == (old(stop) || mine)
      ensures advertisements == old(advertisements)
    {
      selector := -(mtype - 1);
      reqCounter := 0;
      if bufSrvid == srvid && bufGrpno == grpno {
        stop := true;
        return true;
      }
      return false;
    }

    /** `server_main::mtype`: the selector for the next request read. */
    method Mtype() returns (m: int)
      requires Valid()
      modifies this
      ensures Valid()
      ensures [m] == Calls(old(reqCounter), selector, 1)
      ensures reqCounter == (old(reqCounter) + 1) % 8
      ensures selector == old(selector) && advertisements == old(advertisements) && stop == old(stop)
    {
      reqCounter := (reqCounter + 1) % 8;
      if reqCounter == 0 {
        return 0;
      }
      return selector;
    }
  }

  /** `tpadvertise` as a client calls it: without a server there is no table. */
  method Tpadvertise(main: ServerMain?, name: Option<string>, func: Option<Func>, mibAccepts: bool)
    returns (r: Result<Unit, TpError>)
    requires main != null ==> main.Valid()
    modifies main
    ensures main == null ==> r == Failure(TPEPROTO)
    ensures main != null ==> main.Valid() && (r, main.advertisements) == Advertise(old(main.advertisements), name, func, mibAccepts)
  {
    if main == null {
      return Failure(TPEPROTO);
    }
    r := main.Tpadvertise(name, func, mibAccepts);
  }

  /** `tpunadvertise` as a client calls it. */
  method Tpunadvertise(main: ServerMain?, name: Option<string>) returns (r: Result<Unit, TpError>)
    requires main != null ==> main.Valid()
    modifies main
    ensures main == null ==> r == Failure(TPEPROTO)
    ensures main != null ==> main.Valid() && (r, main.advertisements) == Unadvertise(old(main.advertisements), name)
  {
    if main == null {
      return Failure(TPEPROTO);
    }
    r := main.Tpunadvertise(name);
  }

  /** `rval` values of `tpreturn` and of the reply. */
  const TPFAIL: int := 0x0000_0001
  const TPSUCCESS: int := 0x0000_0002
  const TPEXIT: int := 0x0800_0000
  const TPMINVAL: int := 0
  const TPESVCERR: int := 10
  const TPESVCFAIL: int := 11

  /** The reply `rval` a service's `tpreturn(rval, ...)` becomes. */
  function ReplyRval(rval: int): (r: int)
    ensures r == TPMINVAL || r == TPESVCFAIL || r == TPESVCERR
    ensures r == TPMINVAL <==> rval == TPSUCCESS
    ensures r == TPESVCFAIL <==> rval == TPFAIL
  {
    if rval == TPSUCCESS then TPMINVAL
    else if rval == TPFAIL then TPESVCFAIL
    else if rval == TPEXIT then TPESVCERR
    else TPESVCERR
  }

  /** The reply message a service sends back. */
  datatype Reply = Reply(rval: int, rcode: int, flags: int)

  /**
    What `tpreturn` does: whether an open transaction is ended as a success
    (None when there is none), and the reply it sends (None when the caller
    expects none, `replyq == -1`).
   */
  datatype ReturnEffect = ReturnEffect(commit: Option<bool>, reply: Option<Reply>)

  /** The argument the thread-side `tpreturn` passes to `tx_end`, as written: it tests the already mapped `rval`. */
  function TxEndAsWritten(rval: int): bool {
    ReplyRval(rval) == TPSUCCESS
  }

  /** As written, a transaction is never ended as a success, not even after `tpreturn(TPSUCCESS, ...)`. */
  lemma TxEndAsWrittenNeverCommits(rval: int)
    ensures !TxEndAsWritten(rval)
  {
  }

  /** The argument `tx_end` evidently should get: whether the service returned `TPSUCCESS`. */
  function TxEnd(rval: int): (commit: bool)
    ensures commit <==> ReplyRval(rval) == TPMINVAL
  {
    rval == TPSUCCESS
  }

  /**
    `tpreturn(rval, rcode, data, len, flags)`: on a client it is `TPEPROTO`
    (and the process aborts); in a server an open transaction is ended, and
    when a reply is expected it carries the mapped `rval`, forced to
    `TPESVCERR` by nonzero flags.
   */
  function Tpreturn(isServer: bool, transactional: bool, rval: int, rcode: int, flags: int, replyq: int)
    : (r: Result<ReturnEffect, TpError>)
    ensures r.Failure? <==> !isServer
    ensures r.Failure? ==> r.error == TPEPROTO
    ensures r.Success? ==> (r.value.commit.Some? <==> transactional)
    ensures r.Success? ==> (r.value.reply.Some? <==> replyq != -1)
    ensures r.Success? && r.value.reply.Some? ==> r.value.reply.value.rcode == rcode && r.value.reply.value.flags == flags
    ensures r.Success? && r.value.reply.Some? ==>
      r.value.reply.value.rval == if flags != 0 then TPESVCERR else ReplyRval(rval)
  {
    if !isServer then Failure(TPEPROTO)
    else
      var commit := if transactional then Some(TxEnd(rval)) else None;
      var reply :=
        if replyq == -1 then None
        else Some(Reply(if flags != 0 then TPESVCERR else ReplyRval(rval), rcode, flags));
      Success(ReturnEffect(commit, reply))
  }

  /**
    The caller sees `TPMINVAL` exactly when the service returned `TPSUCCESS`
    with no flags, `TPESVCFAIL` exactly for `TPFAIL` with no flags, and
    `TPESVCERR` otherwise; a transaction commits exactly when the service
    returned `TPSUCCESS`.
   */
  lemma TpreturnOutcome(transactional: bool, rval: int, rcode: int, flags: int, replyq: int)
    requires replyq != -1
    ensures var e := Tpreturn(true, transactional, rval, rcode, flags, replyq).value;
      && (e.reply.value.rval == TPMINVAL <==> rval == TPSUCCESS && flags == 0)
      && (e.reply.value.rval == TPESVCFAIL <==> rval == TPFAIL && flags == 0)
      && (e.reply.value.rval == TPESVCERR <==> flags != 0 || (rval != TPSUCCESS && rval != TPFAIL))
      && (transactional ==> (e.commit == Some(true) <==> rval == TPSUCCESS))
  {
  }
}
