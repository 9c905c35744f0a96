/** What the server's steps keep, whatever the client does and sends: no handler runs twice for
    one request of a client. */
module ProtocolServer {
  import opened Wrappers
  import opened Rpc
  import opened XidWindow
  import opened ClientCore
  import opened Protocol
  import W = ReplyWindow

  /** The xid can never be called NEW again. */
  ghost predicate Settled(s: W.Slot, xid: nat) {
    xid <= s.ack || W.Lookup(s.entries, xid).Some?
  }

  ghost predicate Ran(runs: seq<Invocation>, xid: nat) {
    exists i :: 0 <= i < |runs| && runs[i].req.xid == xid
  }

  ghost predicate Answered(runs: seq<Invocation>, rep: Reply) {
    exists i :: 0 <= i < |runs| && runs[i].reply == rep
  }

  /** A stored reply is one that a handler gave for this xid. */
  ghost predicate Remembered(runs: seq<Invocation>, xid: nat, found: Option<Option<Reply>>) {
    match found
    case Some(Some(r)) => r.xid == xid && r.value.Some? && Answered(runs, r)
    case _ => true
  }

  ghost predicate SlotInv(ch: Channel) {
    && W.Above(ch.slot.entries, ch.slot.ack)
    && forall x: nat :: Remembered(ch.runs, x, W.Lookup(ch.slot.entries, x))
  }

  ghost predicate JobsInv(ch: Channel) {
    && (forall id :: id in ch.jobs ==> id < ch.nextJob && Settled(ch.slot, ch.jobs[id].req.xid))
    && (forall i, j :: i in ch.jobs && j in ch.jobs && i != j ==> ch.jobs[i].req.xid != ch.jobs[j].req.xid)
    && (forall id :: id in ch.jobs ==>
          match ch.jobs[id]
          case Running(req) => !Ran(ch.runs, req.xid)
          case Computed(req, reply) => reply.xid == req.xid && reply.value.Some? && Answered(ch.runs, reply))
  }

  ghost predicate RunsInv(ch: Channel) {
    && HandlersRunAtMostOnce(ch)
    && forall i :: 0 <= i < |ch.runs| ==>
         && Settled(ch.slot, ch.runs[i].req.xid)
         && ch.runs[i].reply.xid == ch.runs[i].req.xid && ch.runs[i].reply.value.Some?
  }

  ghost predicate ServerInv(ch: Channel) {
    && SlotInv(ch) && JobsInv(ch) && RunsInv(ch)
    && (forall rep :: rep in ch.replies && rep.value.Some? ==> Answered(ch.runs, rep))
  }

  lemma SettledStays(s: W.Slot, xid: nat, xidRep: nat, y: nat)
    requires W.Above(s.entries, s.ack)
    ensures Settled(s, y) ==> Settled(W.Check(s, xid, xidRep).0, y)
    ensures W.Check(s, xid, xidRep).1 == W.NEW ==> !Settled(s, xid) && Settled(W.Check(s, xid, xidRep).0, xid)
  {
    W.CheckLookup(s, xid, xidRep, y);
    W.CheckLookup(s, xid, xidRep, xid);
  }

  lemma CheckRemembers(runs: seq<Invocation>, s: W.Slot, xid: nat, xidRep: nat, y: nat)
    requires W.Above(s.entries, s.ack) && Remembered(runs, y, W.Lookup(s.entries, y))
    ensures Remembered(runs, y, W.Lookup(W.Check(s, xid, xidRep).0.entries, y))
  {
    W.CheckLookup(s, xid, xidRep, y);
  }

  lemma ClassifySlot(cfg: Config, ch: Channel, req: Request)
    requires ServerInv(ch)
    ensures SlotInv(Classify(cfg, ch, req))
  {
    W.CheckLookup(ch.slot, req.xid, req.xidRep, 0);
    forall x: nat ensures Remembered(ch.runs, x, W.Lookup(Classify(cfg, ch, req).slot.entries, x)) {
      CheckRemembers(ch.runs, ch.slot, req.xid, req.xidRep, x);
    }
  }

  /** Nothing is unsettled; a request called NEW was not settled before, and is now. */
  lemma ClassifySettles(cfg: Config, ch: Channel, req: Request)
    requires ServerInv(ch)
    ensures var next := Classify(cfg, ch, req);
            && (forall y: nat :: Settled(ch.slot, y) ==> Settled(next.slot, y))
            && next.runs == ch.runs
            && ((next.jobs == ch.jobs && next.nextJob == ch.nextJob) ||
                (next.jobs == ch.jobs[ch.nextJob := Running(req)] && next.nextJob == ch.nextJob + 1
                 && !Settled(ch.slot, req.xid) && Settled(next.slot, req.xid)))
            && (forall rep :: rep in next.replies && rep.value.Some? ==> Answered(ch.runs, rep))
  {
    forall y: nat ensures Settled(ch.slot, y) ==> Settled(Classify(cfg, ch, req).slot, y) {
      SettledStays(ch.slot, req.xid, req.xidRep, y);
    }
    SettledStays(ch.slot, req.xid, req.xidRep, req.xid);
    W.CheckLookup(ch.slot, req.xid, req.xidRep, req.xid);
    assert Remembered(ch.runs, req.xid, W.Lookup(ch.slot.entries, req.xid));
  }

  /** Settling more, and starting a job for a request that was not settled, keeps jobs apart. */
  lemma JobsStayApart(ch: Channel, next: Channel, req: Request)
    requires JobsInv(ch) && RunsInv(ch) && next.runs == ch.runs
    requires forall y: nat :: Settled(ch.slot, y) ==> Settled(next.slot, y)
    requires (next.jobs == ch.jobs && next.nextJob == ch.nextJob) ||
             (next.jobs == ch.jobs[ch.nextJob := Running(req)] && next.nextJob == ch.nextJob + 1
              && !Settled(ch.slot, req.xid) && Settled(next.slot, req.xid))
    ensures JobsInv(next)
  {
    if Ran(ch.runs, req.xid) {
      var i :| 0 <= i < |ch.runs| && ch.runs[i].req.xid == req.xid;
      assert Settled(ch.slot, req.xid);
    }
  }

  lemma RunsStaySettled(ch: Channel, next: Channel)
    requires RunsInv(ch) && next.runs == ch.runs
    requires forall y: nat :: Settled(ch.slot, y) ==> Settled(next.slot, y)
    ensures RunsInv(next)
  {
  }

  lemma ClassifyKeeps(cfg: Config, ch: Channel, req: Request)
    requires ServerInv(ch)
    ensures ServerInv(Classify(cfg, ch, req))
  {
    var next := Classify(cfg, ch, req);
    ClassifySlot(cfg, ch, req);
    ClassifySettles(cfg, ch, req);
    JobsStayApart(ch, next, req);
    RunsStaySettled(ch, next);
  }

  lemma RunKeeps(cfg: Config, ch: Channel, id: nat, err: Err, value: Value)
    requires ServerInv(ch)
    ensures ServerInv(Act(cfg, ch, RunHandler(id, err, value)))
  {
    if id in ch.jobs && ch.jobs[id].Running? {
      var req := ch.jobs[id].req;
      var next := Act(cfg, ch, RunHandler(id, err, value));
      RunsGrow(ch.runs, Invocation(req, Answer(cfg, req, err, value)));
      RunRecorded(ch, next, Invocation(req, Answer(cfg, req, err, value)));
      RunJobs(ch, next, id, Answer(cfg, req, err, value));
    }
  }

  lemma RunRecorded(ch: Channel, next: Channel, inv: Invocation)
    requires RunsInv(ch) && next.slot == ch.slot && next.runs == ch.runs + [inv]
    requires !Ran(ch.runs, inv.req.xid) && Settled(ch.slot, inv.req.xid)
    requires inv.reply.xid == inv.req.xid && inv.reply.value.Some?
    ensures RunsInv(next)
  {
  }

  lemma RunJobs(ch: Channel, next: Channel, id: nat, reply: Reply)
    requires JobsInv(ch) && id in ch.jobs && reply.xid == ch.jobs[id].req.xid && reply.value.Some?
    requires next.slot == ch.slot && next.runs == ch.runs + [Invocation(ch.jobs[id].req, reply)]
    requires next.jobs == ch.jobs[id := Computed(ch.jobs[id].req, reply)] && next.nextJob == ch.nextJob
    ensures JobsInv(next)
  {
    RunsGrow(ch.runs, Invocation(ch.jobs[id].req, reply));
  }

  lemma RunsGrow(runs: seq<Invocation>, inv: Invocation)
    ensures forall rep :: Answered(runs + [inv], rep) <==> Answered(runs, rep) || rep == inv.reply
    ensures forall x: nat :: Ran(runs + [inv], x) <==> Ran(runs, x) || x == inv.req.xid
  {
    var after := runs + [inv];
    assert after[|runs|] == inv;
    forall rep ensures Answered(after, rep) <==> Answered(runs, rep) || rep == inv.reply {
      if Answered(runs, rep) { var i :| 0 <= i < |runs| && runs[i].reply == rep; assert after[i].reply == rep; }
    }
    forall x: nat ensures Ran(after, x) <==> Ran(runs, x) || x == inv.req.xid {
      if Ran(runs, x) { var i :| 0 <= i < |runs| && runs[i].req.xid == x; assert after[i].req.xid == x; }
    }
  }

  lemma FinishKeeps(ch: Channel, id: nat)
    requires ServerInv(ch) && id in ch.jobs && ch.jobs[id].Computed?
    ensures ServerInv(Finish(ch, id))
  {
    var next := Finish(ch, id);
    var job := ch.jobs[id];
    forall y: nat
      ensures W.Lookup(next.slot.entries, y) == W.Lookup(ch.slot.entries, y)
        || (y == job.req.xid && W.Lookup(next.slot.entries, y) == Some(Some(job.reply)))
      ensures Settled(ch.slot, y) ==> Settled(next.slot, y)
    {
      W.StoreLookup(ch.slot.entries, ch.slot.ack, job.req.xid, job.reply, y);
    }
    W.StoreLookup(ch.slot.entries, ch.slot.ack, job.req.xid, job.reply, 0);
  }

  lemma ClassifyFrame(cfg: Config, ch: Channel, req: Request)
    ensures var next := Classify(cfg, ch, req);
            && next == ch.(slot := next.slot, jobs := next.jobs, nextJob := next.nextJob, replies := next.replies)
            && ch.replies <= next.replies
            && (next.jobs == ch.jobs ||
                (next.nextJob != ch.nextJob && next.jobs == ch.jobs[ch.nextJob := Running(req)]))
  {
  }

  lemma FinishFrame(ch: Channel, id: nat)
    requires id in ch.jobs && ch.jobs[id].Computed?
    ensures var next := Finish(ch, id);
            && next == ch.(slot := next.slot, jobs := next.jobs, replies := next.replies, threw := next.threw)
            && ch.replies <= next.replies <= ch.replies + {ch.jobs[id].reply}
  {
  }

  predicate IsServerStep(a: Action) {
    a.DeliverRequest? || a.RunHandler? || a.FinishDispatch?
  }

  lemma ServerSteps(cfg: Config, ch: Channel, a: Action)
    requires IsServerStep(a)
    ensures var next := Act(cfg, ch, a);
            && next == ch.(slot := next.slot, jobs := next.jobs, nextJob := next.nextJob, replies := next.replies,
                           runs := next.runs, threw := next.threw)
            && ch.replies <= next.replies && ch.runs <= next.runs
  {
    if a.DeliverRequest? { ClassifyFrame(cfg, ch, a.req); }
    if a.FinishDispatch? && a.id in ch.jobs && ch.jobs[a.id].Computed? { FinishFrame(ch, a.id); }
  }

  /** The steps of the client and of the network towards it. */
  lemma ClientSteps(cfg: Config, ch: Channel, a: Action)
    requires !IsServerStep(a)
    ensures var next := Act(cfg, ch, a);
            next == ch.(client := next.client, holding := next.holding, binds := next.binds, past := next.past,
                        requests := next.requests)
  {
  }

  lemma ServerUntouched(ch: Channel, next: Channel)
    requires ServerInv(ch)
    requires next.slot == ch.slot && next.jobs == ch.jobs && next.nextJob == ch.nextJob
    requires next.runs == ch.runs && next.replies == ch.replies
    ensures ServerInv(next)
  {
  }

  lemma ServerKeeps(cfg: Config, ch: Channel, a: Action)
    requires ServerInv(ch)
    ensures ServerInv(Act(cfg, ch, a))
  {
    if a.DeliverRequest? {
      ClassifyKeeps(cfg, ch, a.req);
    } else if a.RunHandler? {
      RunKeeps(cfg, ch, a.id, a.err, a.value);
    } else if a.FinishDispatch? {
      if a.id in ch.jobs && ch.jobs[a.id].Computed? { FinishKeeps(ch, a.id); }
    } else {
      ClientSteps(cfg, ch, a);
      ServerUntouched(ch, Act(cfg, ch, a));
    }
  }

  // ---------- Clients that send anything ----------

  /** A step in which any request whatever may arrive, sent or not, with any xid and any
      acknowledgement. */
  function ActUntrusted(cfg: Config, ch: Channel, a: Action): Channel {
    if a.DeliverRequest? then Classify(cfg, ch, a.req) else Act(cfg, ch, a)
  }

  function ExecuteUntrusted(cfg: Config, steps: seq<Step>): System {
    if steps == [] then Initial(cfg)
    else
      var s, step := ExecuteUntrusted(cfg, steps[..|steps| - 1]), steps[|steps| - 1];
      if step.nonce in s then s[step.nonce := ActUntrusted(cfg, s[step.nonce], step.action)] else s
  }

  /** In every run of every configuration, with concurrent dispatches of arbitrary requests, a
      handler runs at most once for each xid of each client that asks for it by a nonzero nonce. */
  lemma {:induction false} HandlersRunAtMostOnceAlways(cfg: Config, steps: seq<Step>)
    requires 0 !in cfg.nonces
    ensures forall n :: n in ExecuteUntrusted(cfg, steps) ==>
      ServerInv(ExecuteUntrusted(cfg, steps)[n]) && HandlersRunAtMostOnce(ExecuteUntrusted(cfg, steps)[n])
  {
    if steps != [] {
      var before, step := steps[..|steps| - 1], steps[|steps| - 1];
      HandlersRunAtMostOnceAlways(cfg, before);
      var s := ExecuteUntrusted(cfg, before);
      if step.nonce in s {
        if step.action.DeliverRequest? {
          ClassifyKeeps(cfg, s[step.nonce], step.action.req);
        } else {
          ServerKeeps(cfg, s[step.nonce], step.action);
        }
      }
    }
  }
}
