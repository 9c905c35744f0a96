/** The client (src/rpc/rpc_client.cpp) as a value: what each of its critical sections does
    to its tables. `callers` holds every caller ever made, and `table` says which of them a reply
    has not taken off the table; `failing` are the send errors that have found their caller on
    the table and not told it yet. `received` and `log` are history: the xids whose replies
    arrived, and the calls that were completed, in order. */
module ClientCore {
  import opened Wrappers
  import opened Rpc
  import opened XidWindow

  datatype Caller = Caller(proc: nat, done: bool, buf: Option<Request>)

  /** How a call ended. `Lost` is the reply whose value is missing: extracting it throws after
      the caller was taken off the table, so its callback never runs. */
  datatype Completion =
    | Fired(xid: nat, err: Err, value: Option<Value>)
    | Lost(xid: nat, err: Err)

  datatype SendError = SendError(xid: nat, err: Err)

  datatype Client = Client(
    nonce: nat,
    srvNonce: nat,
    nextXid: nat,
    callers: map<nat, Caller>,
    table: set<nat>,
    failing: multiset<SendError>,
    window: seq<nat>,
    bindDone: bool,
    received: set<nat>,
    log: seq<Completion>)

  const FIRST_XID: nat := 2

  function NewClient(nonce: nat): Client {
    Client(nonce, 0, FIRST_XID, map[], {}, multiset{}, [], false, {}, [])
  }

  /** A bind callback that is told `OK` opens the client for ordinary calls. */
  function Complete(c: Client, proc: nat, done: Completion): Client {
    var d := c.(log := c.log + [done]);
    if proc == BIND && done.Fired? && done.err == OK && done.value.Some?
    then d.(srvNonce := done.value.value, bindDone := true) else d
  }

  predicate MayCall(c: Client, proc: nat) {
    if proc == BIND then !c.bindDone else c.bindDone
  }

  /** The first critical section of `Call`: allocate an xid and enter the caller. */
  function BeginCall(c: Client, proc: nat): Client {
    if MayCall(c, proc)
    then c.(nextXid := c.nextXid + 1, callers := c.callers[c.nextXid := Caller(proc, false, None)],
           table := c.table + {c.nextXid})
    else c
  }

  /** The table has a caller for this xid. */
  predicate Listed(c: Client, xid: nat) {
    xid in c.table && xid in c.callers
  }

  function Header(c: Client, xid: nat, args: Value): Request
    requires xid in c.callers
  {
    Request(xid, c.callers[xid].proc, c.nonce, c.srvNonce, Front(c.window), args)
  }

  /** The rest of `Call`: read the window's front, keep the buffer, send it. */
  function SendCall(c: Client, xid: nat, args: Value): Client
    requires xid in c.callers
  {
    c.(callers := c.callers[xid := c.callers[xid].(buf := Some(Header(c, xid, args)))])
  }

  /** The first critical section of `GotPdu`. */
  function AckReply(c: Client, xid: nat): Client {
    c.(window := Record(c.window, xid), received := c.received + {xid})
  }

  /** Marks the caller done, and tells it how the call ended. */
  function EndCall(c: Client, xid: nat, d: Completion): Client
    requires xid in c.callers
  {
    var caller := c.callers[xid];
    Complete(c.(callers := c.callers[xid := caller.(done := true)]), caller.proc, d)
  }

  /** The second: take the caller off the table. */
  function RemoveCaller(c: Client, xid: nat): Client {
    c.(table := c.table - {xid})
  }

  /** The third: complete the caller that was taken, unless that was done. */
  function HandOver(c: Client, rep: Reply): Client {
    if rep.xid in c.table || rep.xid !in c.callers || c.callers[rep.xid].done then c
    else if rep.value.None? then EndCall(c, rep.xid, Lost(rep.xid, rep.err))
    else EndCall(c, rep.xid, Fired(rep.xid, rep.err, rep.value))
  }

  /** The second and third with nothing in between. */
  function TakeReply(c: Client, rep: Reply): Client {
    if Listed(c, rep.xid) then HandOver(RemoveCaller(c, rep.xid), rep) else c
  }

  /** `OnTimerExpired`: give up without retransmission, else name the buffer to send again. */
  function TimerExpired(c: Client, xid: nat): (Client, Option<Request>) {
    if xid !in c.callers || c.callers[xid].done then (c, None)
    else if c.nonce == 0 then (EndCall(c, xid, Fired(xid, TIMEOUT_FAILURE, None)), None)
    else (c, c.callers[xid].buf)
  }

  /** The first critical section of `OnSendFinished`: find the caller of a send that failed. */
  function SendFinished(c: Client, xid: nat, e: Err): (Client, Option<Request>) {
    if e == OK || !Listed(c, xid) then (c, None)
    else if c.nonce > 0 then (c, c.callers[xid].buf)
    else (c.(failing := c.failing + multiset{SendError(xid, e)}), None)
  }

  /** The second: without retransmission that caller is told the error, wherever it is by now,
      and whatever it was told before. */
  function TellSendError(c: Client, xid: nat, e: Err): Client
    requires xid in c.callers
  {
    EndCall(c.(failing := c.failing - multiset{SendError(xid, e)}), xid, Fired(xid, e, None))
  }

  // ---------- Single completion ----------

  datatype Event =
    | Begin(proc: nat)
    | Send(xid: nat, args: Value)
    | Ack(rep: Reply)
    | Remove(xid: nat)
    | Deliver(rep: Reply)
    | Timer(xid: nat)
    | SendDone(xid: nat, e: Err)
    | Tell(xid: nat, e: Err)

  /** Any event at any time; one that the tables rule out does nothing. */
  function React(c: Client, ev: Event): Client {
    match ev
    case Begin(proc) => BeginCall(c, proc)
    case Send(xid, args) => if Listed(c, xid) && c.callers[xid].buf.None? then SendCall(c, xid, args) else c
    case Ack(rep) => AckReply(c, rep.xid)
    case Remove(xid) => RemoveCaller(c, xid)
    case Deliver(rep) => HandOver(c, rep)
    case Timer(xid) => TimerExpired(c, xid).0
    case SendDone(xid, e) => SendFinished(c, xid, e).0
    case Tell(xid, e) =>
      if SendError(xid, e) in c.failing && xid in c.callers then TellSendError(c, xid, e) else c
  }

  function ReactAll(c: Client, evs: seq<Event>): Client {
    if evs == [] then c else React(ReactAll(c, evs[..|evs| - 1]), evs[|evs| - 1])
  }

  ghost predicate NoSendErrors(evs: seq<Event>) {
    forall i :: 0 <= i < |evs| ==> evs[i].SendDone? ==> evs[i].e == OK
  }

  ghost predicate Completed(log: seq<Completion>, xid: nat) {
    exists i :: 0 <= i < |log| && log[i].xid == xid
  }

  ghost predicate AtMostOnce(log: seq<Completion>) {
    forall i, j :: 0 <= i < j < |log| ==> log[i].xid != log[j].xid
  }

  /** Every issued xid is completed at most once, and that is what `done` says. */
  ghost predicate SingleCompletion(c: Client) {
    && AtMostOnce(c.log)
    && c.table <= c.callers.Keys
    && (forall x :: x in c.callers ==> x < c.nextXid)
    && (forall x: nat :: Completed(c.log, x) <==> x in c.callers && c.callers[x].done)
    && (c.nonce > 0 ==> c.failing == multiset{} && forall x :: x in c.table ==> !c.callers[x].done)
  }

  lemma LogGrows(log: seq<Completion>, d: Completion)
    requires AtMostOnce(log) && !Completed(log, d.xid)
    ensures AtMostOnce(log + [d])
    ensures forall x :: Completed(log + [d], x) <==> Completed(log, x) || x == d.xid
  {
    var after := log + [d];
    forall x ensures Completed(after, x) <==> Completed(log, x) || x == d.xid {
      if Completed(log, x) {
        var i :| 0 <= i < |log| && log[i].xid == x;
        assert after[i].xid == x;
      }
      if x == d.xid { assert after[|log|].xid == x; }
    }
    forall i, j | 0 <= i < j < |after| ensures after[i].xid != after[j].xid {
      if j == |log| { assert log[i].xid == after[i].xid; }
    }
  }

  /** The second section of `OnSendFinished` does not look at `done`. */
  ghost predicate FailsAgain(c: Client, ev: Event) {
    ev.Tell? && SendError(ev.xid, ev.e) in c.failing && ev.xid in c.callers && c.callers[ev.xid].done
  }

  lemma EndCallKeeps(c: Client, xid: nat, d: Completion)
    requires SingleCompletion(c) && xid in c.callers && !c.callers[xid].done && d.xid == xid
    requires c.nonce > 0 ==> xid !in c.table
    ensures SingleCompletion(EndCall(c, xid, d)) && EndCall(c, xid, d).nonce == c.nonce
  {
    LogGrows(c.log, d);
  }

  lemma ReactKeeps(c: Client, ev: Event)
    requires SingleCompletion(c) && !FailsAgain(c, ev)
    ensures SingleCompletion(React(c, ev)) && React(c, ev).nonce == c.nonce
  {
    match ev
    case Deliver(rep) =>
      if rep.xid !in c.table && rep.xid in c.callers && !c.callers[rep.xid].done {
        var d := if rep.value.None? then Lost(rep.xid, rep.err) else Fired(rep.xid, rep.err, rep.value);
        EndCallKeeps(c, rep.xid, d);
      }
    case Timer(xid) =>
      if xid in c.callers && !c.callers[xid].done && c.nonce == 0 {
        EndCallKeeps(c, xid, Fired(xid, TIMEOUT_FAILURE, None));
      }
    case Tell(xid, e) =>
      if SendError(xid, e) in c.failing && xid in c.callers {
        EndCallKeeps(c.(failing := c.failing - multiset{SendError(xid, e)}), xid, Fired(xid, e, None));
      }
    case _ =>
  }

  lemma FailsAgainTwice(c: Client, ev: Event)
    requires SingleCompletion(c) && FailsAgain(c, ev)
    ensures !AtMostOnce(React(c, ev).log)
  {
    var i :| 0 <= i < |c.log| && c.log[i].xid == ev.xid;
    var log := React(c, ev).log;
    assert log[i].xid == log[|c.log|].xid;
  }

  /** What was completed stays completed. */
  lemma LogOnlyGrows(c: Client, ev: Event)
    ensures !AtMostOnce(c.log) ==> !AtMostOnce(React(c, ev).log)
  {
    if !AtMostOnce(c.log) {
      var i, j :| 0 <= i < j < |c.log| && c.log[i].xid == c.log[j].xid;
      var log := React(c, ev).log;
      assert c.log <= log;
      assert log[i].xid == log[j].xid;
    }
  }

  ghost predicate FailsAgainAt(c: Client, evs: seq<Event>, k: nat)
    requires k < |evs|
  {
    FailsAgain(ReactAll(c, evs[..k]), evs[k])
  }

  /** In some event of the sequence a send error is told to a caller that is already done. */
  ghost predicate SomeFailsAgain(c: Client, evs: seq<Event>) {
    exists k :: 0 <= k < |evs| && FailsAgainAt(c, evs, k)
  }

  lemma FailsAgainBefore(c: Client, evs: seq<Event>, n: nat, k: nat)
    requires k < n <= |evs|
    ensures FailsAgainAt(c, evs[..n], k) == FailsAgainAt(c, evs, k)
  {
    assert evs[..n][..k] == evs[..k];
  }

  lemma SomeFailsAgainStep(c: Client, evs: seq<Event>)
    requires evs != []
    ensures var last := |evs| - 1;
            SomeFailsAgain(c, evs) <==> SomeFailsAgain(c, evs[..last]) || FailsAgainAt(c, evs, last)
  {
    var last := |evs| - 1;
    forall k | 0 <= k < last ensures FailsAgainAt(c, evs[..last], k) == FailsAgainAt(c, evs, k) {
      FailsAgainBefore(c, evs, last, k);
    }
  }

  lemma {:induction false} ReactAllKeeps(nonce: nat, evs: seq<Event>)
    ensures var c := ReactAll(NewClient(nonce), evs);
            && c.nonce == nonce
            && (if SomeFailsAgain(NewClient(nonce), evs) then !AtMostOnce(c.log) else SingleCompletion(c))
  {
    if evs != [] {
      var last := |evs| - 1;
      var before := ReactAll(NewClient(nonce), evs[..last]);
      ReactAllKeeps(nonce, evs[..last]);
      SomeFailsAgainStep(NewClient(nonce), evs);
      LogOnlyGrows(before, evs[last]);
      if SingleCompletion(before) {
        if FailsAgain(before, evs[last]) { FailsAgainTwice(before, evs[last]); } else { ReactKeeps(before, evs[last]); }
      }
    }
  }

  /** For every interleaving of the critical sections: no callback fires twice exactly when no
      send error, having found its caller in the table, is told to it after that caller is done. */
  lemma SingleCompletionExactly(nonce: nat, evs: seq<Event>)
    ensures AtMostOnce(ReactAll(NewClient(nonce), evs).log) <==> !SomeFailsAgain(NewClient(nonce), evs)
  {
    ReactAllKeeps(nonce, evs);
  }

  lemma ReactMore(c: Client, evs: seq<Event>, ev: Event)
    ensures ReactAll(c, evs + [ev]) == React(ReactAll(c, evs), ev)
  {
    assert (evs + [ev])[..|evs|] == evs;
  }

  lemma ReactThree(c: Client, evs: seq<Event>, a: Event, b: Event, d: Event)
    ensures ReactAll(c, evs + [a] + [b] + [d]) == React(React(React(ReactAll(c, evs), a), b), d)
  {
    ReactMore(c, evs, a);
    ReactMore(c, evs + [a], b);
    ReactMore(c, evs + [a] + [b], d);
  }

  /** A client without retransmission whose bind is sent. */
  function Waiting(): Client {
    NewClient(0).(nextXid := 3, table := {2},
                  callers := map[2 := Caller(BIND, false, Some(Request(2, BIND, 0, 0, 0, 0)))])
  }

  lemma StartWaiting() returns (evs: seq<Event>)
    ensures ReactAll(NewClient(0), evs) == Waiting()
  {
    var begun := BeginCall(NewClient(0), BIND);
    assert begun == NewClient(0).(nextXid := 3, table := {2}, callers := map[2 := Caller(BIND, false, None)]);
    assert React(begun, Send(2, 0)) == Waiting();
    ReactMore(NewClient(0), [], Begin(BIND));
    ReactMore(NewClient(0), [] + [Begin(BIND)], Send(2, 0));
    evs := [] + [Begin(BIND)] + [Send(2, 0)];
  }

  /** The send error of xid 2 is found and told. */
  lemma FindAndTell(c: Client)
    requires c.nonce == 0 && Listed(c, 2)
    ensures React(React(c, SendDone(2, SEND_FAILURE)), Tell(2, SEND_FAILURE)).log
         == c.log + [Fired(2, SEND_FAILURE, None)]
  {
    assert React(c, SendDone(2, SEND_FAILURE)) == c.(failing := c.failing + multiset{SendError(2, SEND_FAILURE)});
  }

  /** The timer gives the call up, and then its send fails: the callback is told twice. */
  lemma SendErrorAfterTimeout() returns (evs: seq<Event>)
    ensures ReactAll(NewClient(0), evs).log == [Fired(2, TIMEOUT_FAILURE, None), Fired(2, SEND_FAILURE, None)]
  {
    var before := StartWaiting();
    ReactThree(NewClient(0), before, Timer(2), SendDone(2, SEND_FAILURE), Tell(2, SEND_FAILURE));
    FindAndTell(React(Waiting(), Timer(2)));
    evs := before + [Timer(2)] + [SendDone(2, SEND_FAILURE)] + [Tell(2, SEND_FAILURE)];
  }

  /** A send error finds its caller open, a second worker takes that caller for its reply, and
      then both complete it: told twice as well, though it was not done when it was found. */
  lemma SendErrorAroundReply(rep: Reply) returns (evs: seq<Event>)
    requires rep.xid == 2 && rep.value.Some?
    ensures ReactAll(NewClient(0), evs).log == [Fired(2, rep.err, rep.value), Fired(2, SEND_FAILURE, None)]
  {
    var before := StartWaiting();
    var found := before + [SendDone(2, SEND_FAILURE)];
    ReactMore(NewClient(0), before, SendDone(2, SEND_FAILURE));
    var c := Waiting().(failing := multiset{SendError(2, SEND_FAILURE)});
    assert React(Waiting(), SendDone(2, SEND_FAILURE)) == c;
    var removed := c.(table := {});
    assert React(c, Remove(2)) == removed;
    assert React(removed, Deliver(rep)) == EndCall(removed, 2, Fired(2, rep.err, rep.value));
    ReactThree(NewClient(0), found, Remove(2), Deliver(rep), Tell(2, SEND_FAILURE));
    evs := found + [Remove(2)] + [Deliver(rep)] + [Tell(2, SEND_FAILURE)];
  }

  lemma {:induction false} NothingFails(nonce: nat, evs: seq<Event>)
    requires nonce > 0 || NoSendErrors(evs)
    ensures ReactAll(NewClient(nonce), evs).failing == multiset{} && ReactAll(NewClient(nonce), evs).nonce == nonce
  {
    if evs != [] { NothingFails(nonce, evs[..|evs| - 1]); }
  }

  /** So a client is told at most once whatever happens exactly when it retransmits (a nonzero
      nonce), or no send of it ever fails. */
  lemma NeverToldTwiceExactly(nonce: nat, sendsMayFail: bool)
    ensures (forall evs :: (sendsMayFail || NoSendErrors(evs)) ==> AtMostOnce(ReactAll(NewClient(nonce), evs).log))
       <==> (nonce > 0 || !sendsMayFail)
  {
    if nonce > 0 || !sendsMayFail {
      forall evs | sendsMayFail || NoSendErrors(evs) ensures AtMostOnce(ReactAll(NewClient(nonce), evs).log) {
        forall k | 0 <= k < |evs| ensures !FailsAgainAt(NewClient(nonce), evs, k) {
          NothingFails(nonce, evs[..k]);
        }
        SingleCompletionExactly(nonce, evs);
      }
    } else {
      var evs := SendErrorAfterTimeout();
      var log := ReactAll(NewClient(0), evs).log;
      assert log[0].xid == log[1].xid;
    }
  }
}
