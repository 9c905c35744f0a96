/** End to end, for clients that bind as often as they like: a callback that fires does so once,
    after exactly one run of the handler on the caller's own request, with that run's answer. */
module ProtocolExactlyOnce {
  import opened Wrappers
  import opened Rpc
  import opened ClientCore
  import opened Protocol
  import opened ProtocolServer

  /** Each callback was told what a handler answered. */
  ghost predicate ToldInv(ch: Channel) {
    forall i :: 0 <= i < |ch.client.log| && ch.client.log[i].Fired? ==>
      var f := ch.client.log[i];
      Answered(ch.runs, Reply(f.xid, f.err, f.value))
  }

  /** What is on the network is the buffers of the callers, one for each, as they were given. */
  ghost predicate BuffersInv(ch: Channel) {
    && (forall r :: r in ch.requests ==> SentBy(ch.client, r) && AsGiven(ch.past.calls, r))
    && (forall x :: x in ch.client.callers ==> x in ch.past.calls && ch.past.calls[x].proc == ch.client.callers[x].proc)
    && (forall x :: x in ch.client.callers && ch.client.callers[x].buf.Some? ==>
          ch.client.callers[x].buf.value in ch.requests && ch.client.callers[x].buf.value.xid == x)
  }

  /** The server works on what was sent. */
  ghost predicate RequestedInv(ch: Channel) {
    && (forall id :: id in ch.jobs ==> ch.jobs[id].req in ch.requests)
    && (forall i :: 0 <= i < |ch.runs| ==> ch.runs[i].req in ch.requests)
  }

  ghost predicate HeldInv(ch: Channel) {
    forall w :: w in ch.holding ==> ch.holding[w].rep in ch.replies
  }

  ghost predicate CallbackInv(ch: Channel) {
    && ServerInv(ch)
    && SingleCompletion(ch.client) && ch.client.nonce > 0
    && BuffersInv(ch) && RequestedInv(ch) && HeldInv(ch)
    && ToldInv(ch)
  }

  /** The event of the client's critical sections that a step is, if it does anything to it. */
  function EventOf(ch: Channel, a: Action): Option<Event> {
    match a
    case StartCall(proc, _) => Some(Begin(proc))
    case SendRequest(xid) => if xid in ch.past.calls then Some(Send(xid, ch.past.calls[xid].args)) else None
    case TimerFires(xid) => Some(Timer(xid))
    case SendFails(xid, e) => Some(SendDone(xid, e))
    case ReceiveReply(worker, rep) => Some(Ack(rep))
    case TakeCaller(worker) => if worker in ch.holding then Some(Remove(ch.holding[worker].rep.xid)) else None
    case DeliverReply(worker) => if worker in ch.holding then Some(Deliver(ch.holding[worker].rep)) else None
    case _ => None
  }

  lemma StepIsEvent(cfg: Config, ch: Channel, a: Action)
    ensures var next, ev := Act(cfg, ch, a).client, EventOf(ch, a);
            next == ch.client || (ev.Some? && next == React(ch.client, ev.value))
  {
    if IsServerStep(a) { ServerSteps(cfg, ch, a); }
    if a.StartCall? || a.SendRequest? || a.TimerFires? || a.SendFails? { SendingIsEvent(cfg, ch, a); }
  }

  lemma SendingIsEvent(cfg: Config, ch: Channel, a: Action)
    requires a.StartCall? || a.SendRequest? || a.TimerFires? || a.SendFails?
    ensures var next, ev := Act(cfg, ch, a).client, EventOf(ch, a);
            next == ch.client || (ev.Some? && next == React(ch.client, ev.value))
  {
  }

  lemma CompletionKeeps(cfg: Config, ch: Channel, a: Action)
    requires SingleCompletion(ch.client) && ch.client.nonce > 0
    ensures SingleCompletion(Act(cfg, ch, a).client) && Act(cfg, ch, a).client.nonce > 0
  {
    StepIsEvent(cfg, ch, a);
    if EventOf(ch, a).Some? { ReactKeeps(ch.client, EventOf(ch, a).value); }
  }

  /** Replies stay on the network, and runs in the history. */
  lemma NothingUnsent(cfg: Config, ch: Channel, a: Action)
    ensures ch.replies <= Act(cfg, ch, a).replies && ch.runs <= Act(cfg, ch, a).runs
  {
    if IsServerStep(a) { ServerSteps(cfg, ch, a); } else { ClientSteps(cfg, ch, a); }
  }

  lemma HeldKeeps(cfg: Config, ch: Channel, a: Action)
    requires HeldInv(ch)
    ensures HeldInv(Act(cfg, ch, a))
  {
    NothingUnsent(cfg, ch, a);
    if IsServerStep(a) { ServerSteps(cfg, ch, a); }
  }

  /** The call is open, and its timer fires or one of its sends fails. */
  ghost predicate AsksAgain(c: Client, a: Action, xid: nat) {
    || (a == TimerFires(xid) && xid in c.callers && !c.callers[xid].done)
    || (a.SendFails? && a.xid == xid && a.e != OK && Listed(c, xid))
  }

  /** A retransmission sends the identical buffer: to the network it is a duplicate. */
  lemma ResendIsDuplicate(cfg: Config, ch: Channel, a: Action)
    requires BuffersInv(ch) && ch.client.nonce > 0
    requires a.TimerFires? || a.SendFails?
    ensures Act(cfg, ch, a) == ch.(past := ch.past.(sent := Act(cfg, ch, a).past.sent))
    ensures ch.past.sent <= Act(cfg, ch, a).past.sent
    ensures forall r :: r in ch.requests && AsksAgain(ch.client, a, r.xid) ==>
              Act(cfg, ch, a).past.sent == ch.past.sent + [r]
    ensures (forall r :: r in ch.requests ==> !AsksAgain(ch.client, a, r.xid)) ==>
              Act(cfg, ch, a).past.sent == ch.past.sent
  {
    var again := if a.TimerFires? then TimerExpired(ch.client, a.xid) else SendFinished(ch.client, a.xid, a.e);
    assert Act(cfg, ch, a) == Resend(ch, again);
    if again.1.Some? { assert ch.requests + {again.1.value} == ch.requests; }
  }

  /** Telling a caller leaves every caller's procedure and buffer as it is. */
  lemma HandOverFrame(c: Client, rep: Reply)
    ensures var d := HandOver(c, rep);
            && d.callers.Keys == c.callers.Keys && d.nextXid == c.nextXid && d.table == c.table
            && d.received == c.received && d.window == c.window
            && forall x :: x in c.callers ==>
                 d.callers[x].buf == c.callers[x].buf && d.callers[x].proc == c.callers[x].proc
  {
  }

  /** So does all of receiving, and it sends nothing. */
  lemma ReceivingFrame(cfg: Config, ch: Channel, a: Action)
    requires a.ReceiveReply? || a.TakeCaller? || a.DeliverReply?
    ensures var next := Act(cfg, ch, a);
            && next.requests == ch.requests && next.client.callers.Keys == ch.client.callers.Keys
            && next.binds == ch.binds && next.client.nextXid == ch.client.nextXid
            && next.past == ch.past
            && forall x :: x in ch.client.callers ==>
                 && next.client.callers[x].buf == ch.client.callers[x].buf
                 && next.client.callers[x].proc == ch.client.callers[x].proc
  {
    if a.DeliverReply? && a.worker in ch.holding { HandOverFrame(ch.client, ch.holding[a.worker].rep); }
  }

  lemma SendBuffers(cfg: Config, ch: Channel, xid: nat)
    requires BuffersInv(ch)
    ensures BuffersInv(Act(cfg, ch, SendRequest(xid))) && ch.requests <= Act(cfg, ch, SendRequest(xid)).requests
  {
  }

  lemma StartBuffers(cfg: Config, ch: Channel, proc: nat, args: Value)
    requires BuffersInv(ch) && SingleCompletion(ch.client)
    ensures var next := Act(cfg, ch, StartCall(proc, args)); BuffersInv(next) && next.requests == ch.requests
  {
    assert ch.client.nextXid !in ch.client.callers;
  }

  lemma BuffersKeeps(cfg: Config, ch: Channel, a: Action)
    requires BuffersInv(ch) && SingleCompletion(ch.client) && ch.client.nonce > 0
    ensures BuffersInv(Act(cfg, ch, a)) && ch.requests <= Act(cfg, ch, a).requests
  {
    if IsServerStep(a) {
      ServerSteps(cfg, ch, a);
    } else if a.TimerFires? || a.SendFails? {
      ResendIsDuplicate(cfg, ch, a);
    } else if a.StartCall? {
      StartBuffers(cfg, ch, a.proc, a.args);
    } else if a.SendRequest? {
      SendBuffers(cfg, ch, a.xid);
    } else {
      ReceivingFrame(cfg, ch, a);
    }
  }

  lemma RequestedKeeps(cfg: Config, ch: Channel, a: Action)
    requires CallbackInv(ch)
    ensures RequestedInv(Act(cfg, ch, a))
  {
    BuffersKeeps(cfg, ch, a);
    if a.DeliverRequest? {
      ClassifyFrame(cfg, ch, a.req);
    } else if !IsServerStep(a) {
      ClientSteps(cfg, ch, a);
    }
  }

  /** Only delivering a reply that carries a value calls a client's callback. */
  lemma LogStep(cfg: Config, ch: Channel, a: Action)
    requires ch.client.nonce > 0
    ensures var log, log' := ch.client.log, Act(cfg, ch, a).client.log;
            log' == log ||
            (a.DeliverReply? && a.worker in ch.holding &&
             var rep := ch.holding[a.worker].rep;
             log' == log + [if rep.value.None? then Lost(rep.xid, rep.err) else Fired(rep.xid, rep.err, rep.value)])
  {
    if IsServerStep(a) { ServerSteps(cfg, ch, a); }
  }

  lemma AnsweredStays(runs: seq<Invocation>, more: seq<Invocation>, rep: Reply)
    requires runs <= more && Answered(runs, rep)
    ensures Answered(more, rep)
  {
    var i :| 0 <= i < |runs| && runs[i].reply == rep;
    assert more[i].reply == rep;
  }

  lemma ToldKeeps(cfg: Config, ch: Channel, a: Action)
    requires CallbackInv(ch)
    ensures ToldInv(Act(cfg, ch, a))
  {
    var next := Act(cfg, ch, a);
    NothingUnsent(cfg, ch, a);
    LogStep(cfg, ch, a);
    forall i | 0 <= i < |next.client.log| && next.client.log[i].Fired?
      ensures Answered(next.runs, Reply(next.client.log[i].xid, next.client.log[i].err, next.client.log[i].value))
    {
      var f := next.client.log[i];
      AnsweredStays(ch.runs, next.runs, Reply(f.xid, f.err, f.value));
    }
  }

  lemma CallbackKeeps(cfg: Config, ch: Channel, a: Action)
    requires CallbackInv(ch)
    ensures CallbackInv(Act(cfg, ch, a))
  {
    ServerKeeps(cfg, ch, a);
    CompletionKeeps(cfg, ch, a);
    BuffersKeeps(cfg, ch, a);
    RequestedKeeps(cfg, ch, a);
    HeldKeeps(cfg, ch, a);
    ToldKeeps(cfg, ch, a);
  }

  lemma RanOnceIs(ch: Channel, rep: Reply) returns (req: Request)
    requires CallbackInv(ch) && Answered(ch.runs, rep)
    ensures req.xid == rep.xid && OnlyRequest(ch, req) && RanOnce(ch.runs, req, rep)
  {
    var i :| 0 <= i < |ch.runs| && ch.runs[i].reply == rep;
    req := ch.runs[i].req;
    forall j | 0 <= j < |ch.runs| && j != i ensures ch.runs[j].req.xid != req.xid {}
    assert ch.runs[i] == Invocation(req, rep);
  }

  lemma CallbackInvIsExactlyOnce(ch: Channel)
    requires CallbackInv(ch)
    ensures ExactlyOnce(ch)
  {
    forall i | 0 <= i < |ch.client.log| && ch.client.log[i].Fired?
      ensures var f := ch.client.log[i];
              exists req: Request :: req.xid == f.xid && OnlyRequest(ch, req)
                         && RanOnce(ch.runs, req, Reply(f.xid, f.err, f.value))
    {
      var f := ch.client.log[i];
      var req := RanOnceIs(ch, Reply(f.xid, f.err, f.value));
    }
  }

  /** In every run with loss, duplication, reordering, resends, any number of workers and any
      number of binds. */
  lemma {:induction false} ExactlyOnceAlways(cfg: Config, steps: seq<Step>)
    requires 0 !in cfg.nonces
    ensures forall n :: n in Execute(cfg, steps) ==>
      CallbackInv(Execute(cfg, steps)[n]) && ExactlyOnce(Execute(cfg, steps)[n])
  {
    if steps != [] {
      var before, step := steps[..|steps| - 1], steps[|steps| - 1];
      ExactlyOnceAlways(cfg, before);
      var s := Execute(cfg, before);
      if step.nonce in s { CallbackKeeps(cfg, s[step.nonce], step.action); }
    }
    forall n | n in Execute(cfg, steps) ensures ExactlyOnce(Execute(cfg, steps)[n]) {
      CallbackInvIsExactlyOnce(Execute(cfg, steps)[n]);
    }
  }

  /** The network holds what was sent. */
  ghost predicate SentInv(ch: Channel) {
    forall r :: r in ch.requests <==> r in ch.past.sent
  }

  lemma PutOutSent(ch: Channel, c: Client, req: Request)
    requires SentInv(ch)
    ensures SentInv(PutOut(ch, c, req))
  {
  }

  lemma SentKeeps(cfg: Config, ch: Channel, a: Action)
    requires SentInv(ch)
    ensures SentInv(Act(cfg, ch, a))
  {
    if IsServerStep(a) {
      ServerSteps(cfg, ch, a);
    } else if a.ReceiveReply? || a.TakeCaller? || a.DeliverReply? {
      ReceivingFrame(cfg, ch, a);
    } else {
      forall c, req ensures SentInv(PutOut(ch, c, req)) { PutOutSent(ch, c, req); }
    }
  }

  lemma {:induction false} SentIsRequests(cfg: Config, steps: seq<Step>)
    ensures forall n :: n in Execute(cfg, steps) ==> SentInv(Execute(cfg, steps)[n])
  {
    if steps != [] {
      var before, step := steps[..|steps| - 1], steps[|steps| - 1];
      SentIsRequests(cfg, before);
      var s := Execute(cfg, before);
      if step.nonce in s { SentKeeps(cfg, s[step.nonce], step.action); }
    }
  }

  /** In every run: when the timer of a call that was sent and not completed fires, or a send
      of one still on the table fails, the client puts exactly that call's one request on the
      network once more, and nothing else happens. */
  lemma RetransmitsAlways(cfg: Config, steps: seq<Step>, n: nat, a: Action, r: Request)
    requires 0 !in cfg.nonces && n in Execute(cfg, steps)
    requires r in Execute(cfg, steps)[n].requests && !Completed(Execute(cfg, steps)[n].client.log, r.xid)
    requires a == TimerFires(r.xid) ||
             (a.SendFails? && a.xid == r.xid && a.e != OK && r.xid in Execute(cfg, steps)[n].client.table)
    ensures var ch, next := Execute(cfg, steps)[n], Execute(cfg, steps + [Step(n, a)])[n];
            next == ch.(past := ch.past.(sent := ch.past.sent + [r])) && OnlyRequest(ch, r)
  {
    ExactlyOnceAlways(cfg, steps);
    var ch := Execute(cfg, steps)[n];
    ResendIsDuplicate(cfg, ch, a);
    assert AsksAgain(ch.client, a, r.xid);
    assert (steps + [Step(n, a)])[..|steps|] == steps;
  }
}
