/** The mutual invariant of client window, requests in flight, reply window, running handlers
    and replies in flight, for clients that bind once; and what follows from it. */
module ProtocolSafety {
  import opened Wrappers
  import opened Rpc
  import opened XidWindow
  import opened ClientCore
  import opened Protocol
  import opened ProtocolServer
  import opened ProtocolExactlyOnce
  import W = ReplyWindow

  /** The client's window stands for what it received, which starts with its bind. */
  ghost predicate WindowInv(c: Client) {
    && FIRST_XID <= c.nextXid
    && (forall x :: x in c.received ==> FIRST_XID <= x < c.nextXid)
    && (if c.received == {} then c.window == [] else Represents(c.window, FIRST_XID, c.received))
  }

  /** Until the bind is answered, the bind is the only call. */
  ghost predicate BindInv(cfg: Config, ch: Channel) {
    var c := ch.client;
    && (c.bindDone ==> ch.binds > 0)
    && (!c.bindDone ==> c.nextXid == FIRST_XID + ch.binds)
    && (c.bindDone ==> FIRST_XID in c.received)
    && (c.srvNonce == 0 || c.srvNonce == cfg.srvNonce)
  }

  ghost predicate CallersInv(c: Client) {
    forall x :: x in c.callers ==> FIRST_XID <= x < c.nextXid
  }

  ghost predicate RequestsInv(cfg: Config, ch: Channel) {
    var c := ch.client;
    && (forall r :: r in ch.requests ==>
          && FIRST_XID <= r.xid < c.nextXid
          && r.xidRep < r.xid && r.xidRep <= Front(c.window)
          && (r.srvNonce == 0 || r.srvNonce == cfg.srvNonce))
    && ch.slot.ack <= Front(c.window)
  }

  /** Only what a handler answered is acknowledged; what is forgotten was acknowledged. */
  ghost predicate RepliesInv(ch: Channel) {
    && (forall x :: x in ch.client.received ==> Ran(ch.runs, x))
    && (forall rep :: rep in ch.replies && rep.value.None? ==>
          rep.err == ATMOST_ONCE_FAILURE && rep.xid in ch.client.received)
    && (forall w :: w in ch.holding ==> ch.holding[w].rep.xid in ch.client.received)
  }

  ghost predicate InvocationsInv(cfg: Config, ch: Channel) {
    forall i :: 0 <= i < |ch.runs| ==>
      var inv := ch.runs[i];
      inv.req.proc == BIND ==> inv.reply.err == OK && inv.reply.value == Some(cfg.srvNonce)
  }

  /** No reply exists yet for a request whose dispatch is under way. */
  ghost predicate UnderWayInv(ch: Channel) {
    && (forall id :: id in ch.jobs ==>
          var x := ch.jobs[id].req.xid;
          && x !in ch.client.received
          && W.Lookup(ch.slot.entries, x) == Some(None))
    && (forall id, rep :: id in ch.jobs && rep in ch.replies ==> rep.xid != ch.jobs[id].req.xid)
    && !ch.threw
  }

  /** The completed calls are received ones. */
  ghost predicate LogInv(ch: Channel) {
    forall i :: 0 <= i < |ch.client.log| ==> ch.client.log[i].xid in ch.client.received
  }

  /** The worker is about to look for the caller `x` on the table. */
  ghost predicate AboutToTake(holding: map<nat, Held>, w: nat, x: nat) {
    w in holding && !holding[w].took && holding[w].rep.xid == x
  }

  /** A received call is on the table only while a worker is about to take it off. */
  ghost predicate WaitingInv(ch: Channel) {
    forall x :: x in ch.client.received && x in ch.client.table ==> exists w :: AboutToTake(ch.holding, w, x)
  }

  /** What the client's tables and the requests on the network have to do with each other. */
  ghost predicate ClientSide(cfg: Config, ch: Channel) {
    WindowInv(ch.client) && BindInv(cfg, ch) && CallersInv(ch.client) && RequestsInv(cfg, ch)
  }

  /** What they have to do with the server. */
  ghost predicate MutualInv(cfg: Config, ch: Channel) {
    && ClientSide(cfg, ch)
    && RepliesInv(ch) && InvocationsInv(cfg, ch) && UnderWayInv(ch)
    && LogInv(ch) && WaitingInv(ch)
  }

  ghost predicate Inv(cfg: Config, ch: Channel) {
    CallbackInv(ch) && MutualInv(cfg, ch)
  }

  // ---------- The client's window ----------

  /** Everything up to the front has been received. */
  lemma BelowFront(c: Client, x: nat)
    requires WindowInv(c) && FIRST_XID <= x <= Front(c.window)
    ensures x in c.received
  {
  }

  lemma FrontBelowNext(c: Client)
    requires WindowInv(c)
    ensures Front(c.window) < c.nextXid
  {
    if c.received != {} { assert c.window[0] in c.window; }
  }

  // ---------- One lemma per action ----------

  lemma StartClient(cfg: Config, ch: Channel, proc: nat, args: Value)
    requires ClientSide(cfg, ch)
    ensures ClientSide(cfg, Act(cfg, ch, StartCall(proc, args)))
  {
  }

  lemma StartLog(cfg: Config, ch: Channel, proc: nat, args: Value)
    requires LogInv(ch) && WaitingInv(ch) && WindowInv(ch.client)
    ensures LogInv(Act(cfg, ch, StartCall(proc, args))) && WaitingInv(Act(cfg, ch, StartCall(proc, args)))
  {
    assert ch.client.nextXid !in ch.client.received;
  }

  /** A retransmission only adds to what was sent. */
  lemma SentMore(cfg: Config, ch: Channel, next: Channel)
    requires MutualInv(cfg, ch) && next == ch.(past := next.past)
    ensures MutualInv(cfg, next)
  {
  }

  lemma ResendKeeps(cfg: Config, ch: Channel, a: Action)
    requires Inv(cfg, ch) && (a.TimerFires? || a.SendFails?)
    ensures MutualInv(cfg, Act(cfg, ch, a))
  {
    ResendIsDuplicate(cfg, ch, a);
    SentMore(cfg, ch, Act(cfg, ch, a));
  }

  /** The client calls and sends without touching what the server and its replies are about. */
  lemma RepliesUntouched(cfg: Config, ch: Channel, next: Channel)
    requires RepliesInv(ch) && InvocationsInv(cfg, ch) && UnderWayInv(ch)
    requires next.slot == ch.slot && next.jobs == ch.jobs && next.runs == ch.runs && next.threw == ch.threw
    requires next.replies == ch.replies && next.holding == ch.holding && ch.requests <= next.requests
    requires next.client.received == ch.client.received
    ensures RepliesInv(next) && InvocationsInv(cfg, next) && UnderWayInv(next)
  {
  }

  lemma StartFrame(cfg: Config, ch: Channel, proc: nat, args: Value)
    ensures var next := Act(cfg, ch, StartCall(proc, args));
            next.holding == ch.holding && next.requests == ch.requests
            && next.client.received == ch.client.received
  {
  }

  lemma StartKeeps(cfg: Config, ch: Channel, proc: nat, args: Value)
    requires Inv(cfg, ch)
    ensures MutualInv(cfg, Act(cfg, ch, StartCall(proc, args)))
  {
    StartClient(cfg, ch, proc, args);
    StartLog(cfg, ch, proc, args);
    StartFrame(cfg, ch, proc, args);
    ClientSteps(cfg, ch, StartCall(proc, args));
    RepliesUntouched(cfg, ch, Act(cfg, ch, StartCall(proc, args)));
  }

  /** A call that was not sent yet lies above the acknowledgement it is about to carry. */
  lemma UnsentAboveFront(cfg: Config, ch: Channel, xid: nat)
    requires WindowInv(ch.client) && CallersInv(ch.client) && RepliesInv(ch)
    requires BuffersInv(ch) && RequestedInv(ch)
    requires xid in ch.client.callers && ch.client.callers[xid].buf.None?
    ensures Front(ch.client.window) < xid
    ensures xid !in ch.client.received && forall r :: r in ch.requests ==> r.xid != xid
  {
    assert xid in ch.client.received ==> Ran(ch.runs, xid);
    if Front(ch.client.window) >= xid { BelowFront(ch.client, xid); }
  }

  lemma SendClient(cfg: Config, ch: Channel, xid: nat)
    requires ClientSide(cfg, ch)
    requires Listed(ch.client, xid) && ch.client.callers[xid].buf.None?
    requires Front(ch.client.window) < xid
    ensures ClientSide(cfg, Act(cfg, ch, SendRequest(xid)))
  {
    var next := Act(cfg, ch, SendRequest(xid));
    assert WindowInv(next.client) && BindInv(cfg, next);
    assert CallersInv(next.client);
  }

  lemma SendKeeps(cfg: Config, ch: Channel, xid: nat)
    requires Inv(cfg, ch) && Listed(ch.client, xid) && ch.client.callers[xid].buf.None?
    ensures MutualInv(cfg, Act(cfg, ch, SendRequest(xid)))
  {
    UnsentAboveFront(cfg, ch, xid);
    SendClient(cfg, ch, xid);
    SendLog(cfg, ch, xid);
    ClientSteps(cfg, ch, SendRequest(xid));
    RepliesUntouched(cfg, ch, Act(cfg, ch, SendRequest(xid)));
  }

  lemma SendLog(cfg: Config, ch: Channel, xid: nat)
    requires LogInv(ch) && WaitingInv(ch)
    ensures LogInv(Act(cfg, ch, SendRequest(xid))) && WaitingInv(Act(cfg, ch, SendRequest(xid)))
    ensures var next := Act(cfg, ch, SendRequest(xid));
            next.holding == ch.holding && ch.requests <= next.requests
            && next.client.received == ch.client.received
  {
  }

  // ---------- The server's steps ----------

  /** The watermark never passes the client's front. */
  lemma ClassifyAck(cfg: Config, ch: Channel, req: Request)
    requires ServerInv(ch) && WindowInv(ch.client) && RequestsInv(cfg, ch) && req in ch.requests
    ensures var next := Classify(cfg, ch, req);
            && next.slot.ack <= Front(ch.client.window)
            && (forall x :: FIRST_XID <= x <= next.slot.ack ==> x in ch.client.received)
  {
    W.CheckLookup(ch.slot, req.xid, req.xidRep, 0);
  }

  lemma ClassifyReplies(cfg: Config, ch: Channel, req: Request)
    requires ServerInv(ch) && WindowInv(ch.client) && RequestsInv(cfg, ch) && RepliesInv(ch) && req in ch.requests
    ensures RepliesInv(Classify(cfg, ch, req))
  {
    ClassifyAck(cfg, ch, req);
    W.CheckLookup(ch.slot, req.xid, req.xidRep, req.xid);
    assert Remembered(ch.runs, req.xid, W.Lookup(ch.slot.entries, req.xid));
  }

  /** An in-progress entry is never trimmed by another dispatch. */
  lemma ClassifyJobs(cfg: Config, ch: Channel, req: Request, id: nat)
    requires ServerInv(ch) && WindowInv(ch.client) && RequestsInv(cfg, ch) && UnderWayInv(ch)
    requires req in ch.requests && id in ch.jobs && ch.jobs[id].req in ch.requests
    ensures W.Lookup(Classify(cfg, ch, req).slot.entries, ch.jobs[id].req.xid) == Some(None)
  {
    var x := ch.jobs[id].req.xid;
    ClassifyAck(cfg, ch, req);
    W.CheckLookup(ch.slot, req.xid, req.xidRep, x);
    assert FIRST_XID <= x;
  }

  /** A reply that the classification puts on the network is not for a running request. */
  lemma ClassifyNewReply(cfg: Config, ch: Channel, req: Request, rep: Reply, id: nat)
    requires ServerInv(ch) && WindowInv(ch.client) && RequestsInv(cfg, ch) && UnderWayInv(ch)
    requires req in ch.requests && id in ch.jobs
    requires rep in Classify(cfg, ch, req).replies
    ensures rep.xid != ch.jobs[id].req.xid
  {
    ClassifyAck(cfg, ch, req);
    W.CheckLookup(ch.slot, req.xid, req.xidRep, req.xid);
    assert Remembered(ch.runs, req.xid, W.Lookup(ch.slot.entries, req.xid));
  }

  /** A request that is called NEW has no reply, received or on its way. */
  lemma ClassifyFresh(cfg: Config, ch: Channel, req: Request)
    requires ServerInv(ch) && RequestsInv(cfg, ch) && RepliesInv(ch) && req in ch.requests
    requires Classify(cfg, ch, req).nextJob != ch.nextJob
    ensures req.xid !in ch.client.received
    ensures forall rep :: rep in ch.replies ==> rep.xid != req.xid
    ensures W.Lookup(Classify(cfg, ch, req).slot.entries, req.xid) == Some(None)
    ensures Classify(cfg, ch, req).replies == ch.replies
  {
    ClassifySettles(cfg, ch, req);
    W.CheckLookup(ch.slot, req.xid, req.xidRep, req.xid);
    assert !Ran(ch.runs, req.xid) by {
      assert forall i :: 0 <= i < |ch.runs| ==> Settled(ch.slot, ch.runs[i].req.xid);
    }
    forall rep | rep in ch.replies ensures rep.xid != req.xid {
      if rep.value.Some? {
        var i :| 0 <= i < |ch.runs| && ch.runs[i].reply == rep;
        assert Ran(ch.runs, rep.xid);
      }
    }
  }

  lemma ClassifyAllJobs(cfg: Config, ch: Channel, req: Request)
    requires ServerInv(ch) && WindowInv(ch.client) && RequestsInv(cfg, ch) && UnderWayInv(ch)
    requires RequestedInv(ch) && req in ch.requests
    ensures var next := Classify(cfg, ch, req);
            && (forall id :: id in ch.jobs ==> W.Lookup(next.slot.entries, ch.jobs[id].req.xid) == Some(None))
            && (forall id, rep :: id in ch.jobs && rep in next.replies ==> rep.xid != ch.jobs[id].req.xid)
  {
    var next := Classify(cfg, ch, req);
    forall id | id in ch.jobs
      ensures W.Lookup(next.slot.entries, ch.jobs[id].req.xid) == Some(None)
      ensures forall rep :: rep in next.replies ==> rep.xid != ch.jobs[id].req.xid
    {
      ClassifyJobs(cfg, ch, req, id);
      forall rep | rep in next.replies ensures rep.xid != ch.jobs[id].req.xid {
        ClassifyNewReply(cfg, ch, req, rep, id);
      }
    }
  }

  lemma ClassifyUnderWay(cfg: Config, ch: Channel, req: Request)
    requires ServerInv(ch) && WindowInv(ch.client) && RequestsInv(cfg, ch) && RepliesInv(ch) && UnderWayInv(ch)
    requires RequestedInv(ch) && req in ch.requests
    ensures UnderWayInv(Classify(cfg, ch, req))
  {
    ClassifyFrame(cfg, ch, req);
    ClassifyAllJobs(cfg, ch, req);
    if Classify(cfg, ch, req).nextJob != ch.nextJob { ClassifyFresh(cfg, ch, req); }
    StillUnderWay(ch, Classify(cfg, ch, req), req);
  }

  lemma StillUnderWay(ch: Channel, next: Channel, req: Request)
    requires UnderWayInv(ch)
    requires next.client.received == ch.client.received && next.threw == ch.threw
    requires next.jobs == ch.jobs ||
             (next.jobs == ch.jobs[ch.nextJob := Running(req)] && req.xid !in ch.client.received
              && W.Lookup(next.slot.entries, req.xid) == Some(None)
              && (forall rep :: rep in next.replies ==> rep.xid != req.xid))
    requires forall id :: id in ch.jobs ==> W.Lookup(next.slot.entries, ch.jobs[id].req.xid) == Some(None)
    requires forall id, rep :: id in ch.jobs && rep in next.replies ==> rep.xid != ch.jobs[id].req.xid
    ensures UnderWayInv(next)
  {
  }

  lemma ClientUntouched(cfg: Config, ch: Channel, next: Channel)
    requires ClientSide(cfg, ch) && LogInv(ch) && WaitingInv(ch) && InvocationsInv(cfg, ch)
    requires next.client == ch.client && next.requests == ch.requests && next.holding == ch.holding
    requires next.binds == ch.binds && next.runs == ch.runs
    requires next.slot.ack <= Front(ch.client.window)
    ensures ClientSide(cfg, next) && LogInv(next) && WaitingInv(next) && InvocationsInv(cfg, next)
  {
  }

  lemma DeliverKeeps(cfg: Config, ch: Channel, req: Request)
    requires Inv(cfg, ch) && req in ch.requests
    ensures MutualInv(cfg, Classify(cfg, ch, req))
  {
    ClassifyAck(cfg, ch, req);
    ClassifyReplies(cfg, ch, req);
    ClassifyUnderWay(cfg, ch, req);
    ClassifyFrame(cfg, ch, req);
    ClientUntouched(cfg, ch, Classify(cfg, ch, req));
  }

  /** Running the handler: the answer is new, and nobody has it yet. */
  lemma RunHandlerKeeps(cfg: Config, ch: Channel, id: nat, err: Err, value: Value)
    requires Inv(cfg, ch) && id in ch.jobs && ch.jobs[id].Running?
    ensures MutualInv(cfg, Act(cfg, ch, RunHandler(id, err, value)))
  {
    var next := Act(cfg, ch, RunHandler(id, err, value));
    var req := ch.jobs[id].req;
    RunClient(cfg, ch, next, Invocation(req, Answer(cfg, req, err, value)));
    RunUnderWay(ch, next, id);
  }

  lemma RunClient(cfg: Config, ch: Channel, next: Channel, inv: Invocation)
    requires ClientSide(cfg, ch) && LogInv(ch) && WaitingInv(ch) && InvocationsInv(cfg, ch) && RepliesInv(ch)
    requires next.client == ch.client && next.requests == ch.requests && next.holding == ch.holding
    requires next.binds == ch.binds && next.runs == ch.runs + [inv] && next.slot == ch.slot &&
      next.replies == ch.replies
    requires inv.req.proc == BIND ==> inv.reply.err == OK && inv.reply.value == Some(cfg.srvNonce)
    ensures ClientSide(cfg, next) && LogInv(next) && WaitingInv(next) && InvocationsInv(cfg, next) && RepliesInv(next)
  {
    RunsGrow(ch.runs, inv);
  }

  lemma RunUnderWay(ch: Channel, next: Channel, id: nat)
    requires UnderWayInv(ch) && id in ch.jobs
    requires next.client == ch.client && next.requests == ch.requests && next.slot == ch.slot &&
      next.replies == ch.replies
    requires next.threw == ch.threw && id in next.jobs && next.jobs[id].req == ch.jobs[id].req
    requires next.jobs == ch.jobs[id := next.jobs[id]]
    ensures UnderWayInv(next)
  {
  }

  /** Recording a reply finds the entry: neither throw of `AddReply` happens. */
  lemma FinishInvKeeps(cfg: Config, ch: Channel, id: nat)
    requires Inv(cfg, ch) && id in ch.jobs && ch.jobs[id].Computed?
    ensures MutualInv(cfg, Finish(ch, id))
  {
    var next := Finish(ch, id);
    var job := ch.jobs[id];
    FinishFrame(ch, id);
    W.StoreLookup(ch.slot.entries, ch.slot.ack, job.req.xid, job.reply, job.req.xid);
    FinishUnderWay(ch, id);
    ClientUntouched(cfg, ch, next);
    assert RepliesInv(next);
  }

  lemma FinishUnderWay(ch: Channel, id: nat)
    requires ServerInv(ch) && UnderWayInv(ch) && id in ch.jobs && ch.jobs[id].Computed?
    ensures UnderWayInv(Finish(ch, id))
  {
    var job := ch.jobs[id];
    var next := Finish(ch, id);
    W.StoreLookup(ch.slot.entries, ch.slot.ack, job.req.xid, job.reply, job.req.xid);
    forall j | j in next.jobs ensures W.Lookup(next.slot.entries, ch.jobs[j].req.xid) == Some(None) {
      W.StoreLookup(ch.slot.entries, ch.slot.ack, job.req.xid, job.reply, ch.jobs[j].req.xid);
    }
  }

  // ---------- The client's replies ----------

  /** The first reply a client ever receives answers its bind. */
  lemma FirstReplyIsBind(cfg: Config, ch: Channel, rep: Reply)
    requires Inv(cfg, ch) && ch.binds <= 1 && rep in ch.replies
    ensures FIRST_XID <= rep.xid < ch.client.nextXid && Ran(ch.runs, rep.xid)
    ensures ch.client.received == {} ==> rep.xid == FIRST_XID
  {
    if rep.value.Some? {
      var i :| 0 <= i < |ch.runs| && ch.runs[i].reply == rep;
      assert ch.runs[i].req in ch.requests;
    }
  }

  lemma ReceiveWindow(c: Client, xid: nat)
    requires WindowInv(c) && FIRST_XID <= xid < c.nextXid
    requires c.received == {} ==> xid == FIRST_XID
    ensures WindowInv(AckReply(c, xid)) && Front(c.window) <= Front(AckReply(c, xid).window)
  {
    if c.received == {} {
      RecordFirst(xid);
      assert c.received + {xid} == {xid};
    } else {
      RecordRepresents(c.window, FIRST_XID, c.received, xid);
    }
  }

  lemma ReceiveKeeps(cfg: Config, ch: Channel, worker: nat, rep: Reply)
    requires Inv(cfg, ch) && ch.binds <= 1
    requires worker < cfg.workers && worker !in ch.holding && rep in ch.replies
    ensures MutualInv(cfg, Act(cfg, ch, ReceiveReply(worker, rep)))
  {
    var next := Act(cfg, ch, ReceiveReply(worker, rep));
    FirstReplyIsBind(cfg, ch, rep);
    ReceiveWindow(ch.client, rep.xid);
    ReceiveClient(cfg, ch, next, rep);
    ReceiveWaiting(ch, next, worker, rep);
    ReceiveUnderWay(ch, next, rep);
  }

  lemma ReceiveClient(cfg: Config, ch: Channel, next: Channel, rep: Reply)
    requires ClientSide(cfg, ch) && InvocationsInv(cfg, ch)
    requires next.client == AckReply(ch.client, rep.xid) && next.requests == ch.requests && next.binds == ch.binds
    requires next.runs == ch.runs && next.slot == ch.slot
    requires WindowInv(next.client) && Front(ch.client.window) <= Front(next.client.window)
    ensures ClientSide(cfg, next) && InvocationsInv(cfg, next)
  {
  }

  lemma ReceiveWaiting(ch: Channel, next: Channel, worker: nat, rep: Reply)
    requires LogInv(ch) && WaitingInv(ch) && RepliesInv(ch) && Ran(ch.runs, rep.xid) && rep in ch.replies
    requires worker !in ch.holding && next.holding == ch.holding[worker := Held(rep, false)]
    requires next.client == AckReply(ch.client, rep.xid) && next.runs == ch.runs && next.replies == ch.replies
    ensures LogInv(next) && WaitingInv(next) && RepliesInv(next)
  {
    forall x | x in next.client.received && x in next.client.table ensures exists w :: AboutToTake(next.holding, w, x) {
      if x == rep.xid {
        assert AboutToTake(next.holding, worker, x);
      } else {
        var w :| AboutToTake(ch.holding, w, x);
        assert AboutToTake(next.holding, w, x);
      }
    }
  }

  lemma ReceiveUnderWay(ch: Channel, next: Channel, rep: Reply)
    requires UnderWayInv(ch) && rep in ch.replies
    requires next.client == AckReply(ch.client, rep.xid) && next.requests == ch.requests && next.slot == ch.slot
    requires next.jobs == ch.jobs && next.replies == ch.replies && next.threw == ch.threw
    ensures UnderWayInv(next)
  {
  }

  /** What depends on neither the table nor what callers were told. */
  lemma TableUntouched(cfg: Config, ch: Channel, next: Channel)
    requires ClientSide(cfg, ch) && InvocationsInv(cfg, ch) && UnderWayInv(ch)
    requires var c, d := ch.client, next.client;
             && d.callers.Keys == c.callers.Keys && d.nextXid == c.nextXid
             && d.received == c.received && d.window == c.window
    requires next.requests == ch.requests && next.runs == ch.runs && next.slot == ch.slot && next.jobs == ch.jobs
    requires next.replies == ch.replies && next.threw == ch.threw
    ensures WindowInv(next.client) && CallersInv(next.client) && RequestsInv(cfg, next)
    ensures InvocationsInv(cfg, next) && UnderWayInv(next)
  {
  }

  /** Taking a caller off the table. */
  lemma TakeWaiting(cfg: Config, ch: Channel, worker: nat)
    requires LogInv(ch) && WaitingInv(ch) && RepliesInv(ch) && ch.client.table <= ch.client.callers.Keys
    ensures var next := Act(cfg, ch, TakeCaller(worker)); LogInv(next) && WaitingInv(next) && RepliesInv(next)
  {
    var next := Act(cfg, ch, TakeCaller(worker));
    forall x | x in next.client.received && x in next.client.table ensures exists w :: AboutToTake(next.holding, w, x) {
      var w :| AboutToTake(ch.holding, w, x);
      assert AboutToTake(next.holding, w, x);
    }
  }

  lemma TakeFrame(cfg: Config, ch: Channel, worker: nat)
    ensures var next := Act(cfg, ch, TakeCaller(worker));
            && next.client == ch.client.(table := next.client.table)
            && next.requests == ch.requests && next.binds == ch.binds
  {
  }

  lemma TakeKeeps(cfg: Config, ch: Channel, worker: nat)
    requires Inv(cfg, ch)
    ensures MutualInv(cfg, Act(cfg, ch, TakeCaller(worker)))
  {
    ClientSteps(cfg, ch, TakeCaller(worker));
    TakeFrame(cfg, ch, worker);
    TakeWaiting(cfg, ch, worker);
    TableUntouched(cfg, ch, Act(cfg, ch, TakeCaller(worker)));
  }

  /** A reply with a value that reaches a bind's callback names this server. */
  lemma BindAnswer(cfg: Config, ch: Channel, rep: Reply)
    requires ServerInv(ch) && BuffersInv(ch) && RequestedInv(ch) && InvocationsInv(cfg, ch)
    requires rep in ch.replies
    ensures rep.value.Some? && rep.xid in ch.client.callers && ch.client.callers[rep.xid].proc == BIND ==>
      rep.value == Some(cfg.srvNonce)
  {
    if rep.value.Some? {
      var i :| 0 <= i < |ch.runs| && ch.runs[i].reply == rep;
      assert SentBy(ch.client, ch.runs[i].req);
    }
  }

  /** Delivering a reply to a caller that was taken. */
  lemma HandOverBind(cfg: Config, ch: Channel, next: Channel, rep: Reply)
    requires BindInv(cfg, ch) && CallersInv(ch.client) && rep.xid in ch.client.received
    requires ch.binds <= 1 && WindowInv(ch.client)
    requires next.client == HandOver(ch.client, rep) && next.binds == ch.binds
    requires rep.value.Some? && rep.xid in ch.client.callers && ch.client.callers[rep.xid].proc == BIND ==>
      rep.value == Some(cfg.srvNonce)
    ensures BindInv(cfg, next)
  {
  }

  lemma HandOverLog(ch: Channel, next: Channel, rep: Reply)
    requires LogInv(ch) && rep.xid in ch.client.received && next.client == HandOver(ch.client, rep)
    ensures LogInv(next)
  {
  }

  lemma HandOverWaiting(ch: Channel, next: Channel, worker: nat)
    requires WaitingInv(ch) && RepliesInv(ch) && worker in ch.holding && ch.holding[worker].took
    requires next.client.table == ch.client.table && next.client.received == ch.client.received
    requires next.holding == ch.holding - {worker} && next.runs == ch.runs && next.replies == ch.replies
    ensures WaitingInv(next) && RepliesInv(next)
  {
    forall x | x in next.client.received && x in next.client.table ensures exists w :: AboutToTake(next.holding, w, x) {
      var w :| AboutToTake(ch.holding, w, x);
      assert AboutToTake(next.holding, w, x);
    }
  }

  lemma HandOverStays(cfg: Config, ch: Channel, next: Channel, worker: nat)
    requires MutualInv(cfg, ch) && worker in ch.holding && ch.holding[worker].took
    requires next.client == HandOver(ch.client, ch.holding[worker].rep) && next.holding == ch.holding - {worker}
    requires next.requests == ch.requests && next.runs == ch.runs && next.slot == ch.slot && next.jobs == ch.jobs
    requires next.replies == ch.replies && next.threw == ch.threw && BindInv(cfg, next)
    ensures MutualInv(cfg, next)
  {
    HandOverFrame(ch.client, ch.holding[worker].rep);
    HandOverLog(ch, next, ch.holding[worker].rep);
    HandOverWaiting(ch, next, worker);
    TableUntouched(cfg, ch, next);
  }

  lemma HandOverKeeps(cfg: Config, ch: Channel, worker: nat)
    requires Inv(cfg, ch) && ch.binds <= 1 && worker in ch.holding && ch.holding[worker].took
    ensures MutualInv(cfg, Act(cfg, ch, DeliverReply(worker)))
  {
    var rep := ch.holding[worker].rep;
    var next := Act(cfg, ch, DeliverReply(worker));
    BindAnswer(cfg, ch, rep);
    HandOverBind(cfg, ch, next, rep);
    HandOverStays(cfg, ch, next, worker);
  }

  lemma MutualKeeps(cfg: Config, ch: Channel, a: Action)
    requires Inv(cfg, ch) && ch.binds <= 1
    ensures MutualInv(cfg, Act(cfg, ch, a))
  {
    match a
    case StartCall(proc, args) => StartKeeps(cfg, ch, proc, args);
    case SendRequest(xid) =>
      if Listed(ch.client, xid) && ch.client.callers[xid].buf.None? { SendKeeps(cfg, ch, xid); }
    case TimerFires(xid) => ResendKeeps(cfg, ch, a);
    case SendFails(xid, e) => ResendKeeps(cfg, ch, a);
    case DeliverRequest(req) => if req in ch.requests { DeliverKeeps(cfg, ch, req); }
    case RunHandler(id, err, value) =>
      if id in ch.jobs && ch.jobs[id].Running? { RunHandlerKeeps(cfg, ch, id, err, value); }
    case FinishDispatch(id) => if id in ch.jobs && ch.jobs[id].Computed? { FinishInvKeeps(cfg, ch, id); }
    case ReceiveReply(worker, rep) =>
      if worker < cfg.workers && worker !in ch.holding && rep in ch.replies { ReceiveKeeps(cfg, ch, worker, rep); }
    case TakeCaller(worker) => TakeKeeps(cfg, ch, worker);
    case DeliverReply(worker) =>
      if worker in ch.holding && ch.holding[worker].took { HandOverKeeps(cfg, ch, worker); }
  }

  lemma ActKeeps(cfg: Config, ch: Channel, a: Action)
    requires Inv(cfg, ch) && ch.binds <= 1
    ensures Inv(cfg, Act(cfg, ch, a))
  {
    CallbackKeeps(cfg, ch, a);
    MutualKeeps(cfg, ch, a);
  }

  lemma InitialInv(cfg: Config, nonce: nat)
    requires nonce > 0
    ensures Inv(cfg, NewChannel(nonce))
  {
  }

  lemma BindsGrow(cfg: Config, ch: Channel, a: Action)
    ensures ch.binds <= Act(cfg, ch, a).binds && (ch.binds <= cfg.binds ==> Act(cfg, ch, a).binds <= cfg.binds)
  {
    if IsServerStep(a) { ServerSteps(cfg, ch, a); }
  }

  lemma {:induction false} InvAlways(cfg: Config, steps: seq<Step>)
    requires 0 !in cfg.nonces
    ensures forall n :: n in Execute(cfg, steps) ==>
      var ch := Execute(cfg, steps)[n];
      ch.binds <= cfg.binds && (ch.binds <= 1 ==> Inv(cfg, ch))
  {
    if steps == [] {
      forall n | n in cfg.nonces ensures Inv(cfg, NewChannel(n)) { InitialInv(cfg, n); }
    } else {
      var before, step := steps[..|steps| - 1], steps[|steps| - 1];
      InvAlways(cfg, before);
      var s := Execute(cfg, before);
      if step.nonce in s {
        BindsGrow(cfg, s[step.nonce], step.action);
        if s[step.nonce].binds <= 1 { ActKeeps(cfg, s[step.nonce], step.action); }
      }
    }
  }

  // ---------- What the invariant says about a run ----------

  lemma InvIsSafe(cfg: Config, ch: Channel)
    requires Inv(cfg, ch)
    ensures Safe(ch)
  {
    FrontBelowNext(ch.client);
  }

  /** In every run, with any number of workers, a client that has bound at most once is safe:
      only processed requests are forgotten, acknowledgements are ordered, and none of its
      dispatches ever threw. */
  lemma OneBindIsSafe(cfg: Config, steps: seq<Step>)
    requires 0 !in cfg.nonces
    ensures forall n :: n in Execute(cfg, steps) && Execute(cfg, steps)[n].binds <= 1 ==> Safe(Execute(cfg, steps)[n])
  {
    InvAlways(cfg, steps);
    forall n | n in Execute(cfg, steps) && Execute(cfg, steps)[n].binds <= 1 ensures Safe(Execute(cfg, steps)[n]) {
      InvIsSafe(cfg, Execute(cfg, steps)[n]);
    }
  }

  // ---------- One reply at a time ----------

  /** With a single worker, a reply that carries no value never finds its caller. */
  ghost predicate SerialInv(ch: Channel) {
    && (forall w :: w in ch.holding ==> w == 0)
    && (forall w :: w in ch.holding && ch.holding[w].rep.value.None? ==>
          !ch.holding[w].took && ch.holding[w].rep.xid !in ch.client.table)
    && NoneLost(ch)
  }

  lemma SerialReceive(cfg: Config, ch: Channel, worker: nat, rep: Reply)
    requires RepliesInv(ch) && WaitingInv(ch) && SerialInv(ch) && cfg.workers <= 1
    ensures SerialInv(Act(cfg, ch, ReceiveReply(worker, rep)))
  {
    if worker < cfg.workers && worker !in ch.holding && rep in ch.replies && rep.value.None? {
      assert ch.holding == map[];
      assert rep.xid in ch.client.received && forall w :: !AboutToTake(ch.holding, w, rep.xid);
    }
  }

  lemma SerialStart(cfg: Config, ch: Channel, proc: nat, args: Value)
    requires RepliesInv(ch) && WindowInv(ch.client) && SerialInv(ch)
    ensures SerialInv(Act(cfg, ch, StartCall(proc, args)))
  {
    forall w | w in ch.holding && ch.holding[w].rep.value.None?
      ensures ch.holding[w].rep.xid !in Act(cfg, ch, StartCall(proc, args)).client.table
    {
      assert ch.holding[w].rep.xid in ch.client.received;
    }
  }

  lemma SerialTake(cfg: Config, ch: Channel, worker: nat)
    requires SerialInv(ch)
    ensures SerialInv(Act(cfg, ch, TakeCaller(worker)))
  {
  }

  lemma SerialDeliver(cfg: Config, ch: Channel, worker: nat)
    requires SerialInv(ch)
    ensures SerialInv(Act(cfg, ch, DeliverReply(worker)))
  {
  }

  lemma SerialOther(cfg: Config, ch: Channel, a: Action)
    requires SerialInv(ch) && BuffersInv(ch) && ch.client.nonce > 0
    requires IsServerStep(a) || a.SendRequest? || a.TimerFires? || a.SendFails?
    ensures SerialInv(Act(cfg, ch, a))
  {
    if IsServerStep(a) { ServerSteps(cfg, ch, a); }
    if a.TimerFires? || a.SendFails? { ResendIsDuplicate(cfg, ch, a); }
  }

  lemma SerialKeeps(cfg: Config, ch: Channel, a: Action)
    requires Inv(cfg, ch) && SerialInv(ch) && cfg.workers <= 1
    ensures SerialInv(Act(cfg, ch, a))
  {
    match a
    case ReceiveReply(worker, rep) => SerialReceive(cfg, ch, worker, rep);
    case StartCall(proc, args) => SerialStart(cfg, ch, proc, args);
    case TakeCaller(worker) => SerialTake(cfg, ch, worker);
    case DeliverReply(worker) => SerialDeliver(cfg, ch, worker);
    case _ => SerialOther(cfg, ch, a);
  }

  /** In every run of clients with one worker, one that has bound at most once lost no caller. */
  lemma {:induction false} SerialAlways(cfg: Config, steps: seq<Step>)
    requires 0 !in cfg.nonces && cfg.workers <= 1
    ensures forall n :: n in Execute(cfg, steps) && Execute(cfg, steps)[n].binds <= 1 ==>
      NoneLost(Execute(cfg, steps)[n]) && SerialInv(Execute(cfg, steps)[n])
  {
    if steps != [] {
      var before, step := steps[..|steps| - 1], steps[|steps| - 1];
      SerialAlways(cfg, before);
      InvAlways(cfg, before);
      var s := Execute(cfg, before);
      if step.nonce in s {
        BindsGrow(cfg, s[step.nonce], step.action);
        if s[step.nonce].binds <= 1 { SerialKeeps(cfg, s[step.nonce], step.action); }
      }
    }
  }

  lemma UnboundLosesNone(cfg: Config, ch: Channel)
    requires WindowInv(ch.client) && BindInv(cfg, ch) && LogInv(ch) && ch.binds == 0
    ensures NoneLost(ch)
  {
    assert ch.client.received == {};
  }

  /** Without a bind nothing is ever called. */
  lemma NothingLostUnbound(cfg: Config, steps: seq<Step>)
    requires 0 !in cfg.nonces
    ensures forall n :: n in Execute(cfg, steps) && Execute(cfg, steps)[n].binds == 0 ==>
      NoneLost(Execute(cfg, steps)[n])
  {
    InvAlways(cfg, steps);
    forall n | n in Execute(cfg, steps) && Execute(cfg, steps)[n].binds == 0
      ensures NoneLost(Execute(cfg, steps)[n])
    {
      UnboundLosesNone(cfg, Execute(cfg, steps)[n]);
    }
  }
}
