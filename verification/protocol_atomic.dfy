/** The classes and the step system describe the same client and server: a method that runs
    undisturbed does what the corresponding consecutive steps do. */
module ProtocolAtomic {
  import opened Wrappers
  import opened Rpc
  import opened ClientCore
  import opened Protocol
  import W = ReplyWindow
  import S = RpcServer

  /** The answer that one dispatch sends, if it sends one. */
  function Sent(d: S.Dispatched): set<Reply> {
    if d.Answered? then {d.reply} else {}
  }

  /** The handler call that one dispatch makes, if it makes one. */
  function Called(d: S.Dispatched, req: Request, out: S.Handled): seq<Invocation>
    requires !d.Silent? && d.ran ==> out.Returns?
  {
    if !d.Silent? && d.ran then [Invocation(req, S.ReplyTo(req, out))] else []
  }

  /** The rest of a dispatch once the request is classified: run the handler, record and send.
      A handler that throws is a job that stays as it is. */
  function LaterSteps(cfg: Config, ch: Channel, id: nat, out: S.Handled): Channel {
    match out
    case Throws => ch
    case Returns(err, value) => Act(cfg, Act(cfg, ch, RunHandler(id, err, value)), FinishDispatch(id))
  }

  function DispatchSteps(cfg: Config, ch: Channel, req: Request, out: S.Handled): Channel {
    LaterSteps(cfg, Act(cfg, ch, DeliverRequest(req)), ch.nextJob, out)
  }

  /** `next` is `ch` after an undisturbed dispatch that leaves `slot` and ends as `d` says. */
  ghost predicate Dispatches(ch: Channel, slot: W.Slot, d: S.Dispatched, req: Request, out: S.Handled, next: Channel) {
    && (!d.Silent? && d.ran ==> out.Returns?)
    && next == ch.(slot := slot,
                   jobs := if d == S.Aborted(false) then ch.jobs[ch.nextJob := Running(req)] else ch.jobs,
                   nextJob := next.nextJob,
                   replies := ch.replies + Sent(d),
                   runs := ch.runs + Called(d, req, out),
                   threw := ch.threw || d == S.Aborted(true))
  }

  /** The procedure is registered, and the one for binding answers with the server's nonce. */
  ghost predicate Handles(cfg: Config, procs: set<nat>, req: Request, out: S.Handled) {
    req.proc in procs && (req.proc == BIND && out.Returns? ==> out == S.Returns(OK, cfg.srvNonce))
  }

  /** A request found new goes on to its handler and its reply. */
  lemma NewRunsAndFinishes(cfg: Config, ch: Channel, slot: W.Slot, procs: set<nat>, req: Request, out: S.Handled)
    requires ch.nextJob !in ch.jobs && Handles(cfg, procs, req, out) && out.Returns?
    ensures var c1 := ch.(slot := slot, jobs := ch.jobs[ch.nextJob := Running(req)], nextJob := ch.nextJob + 1);
            var reply := S.ReplyTo(req, out);
            var next := LaterSteps(cfg, c1, ch.nextJob, out);
            match W.Store(slot.entries, req.xid, reply)
            case None => Dispatches(ch, slot, S.Aborted(true), req, out, next)
            case Some(es) => Dispatches(ch, slot.(entries := es), S.Answered(true, reply), req, out, next)
  {
    var id := ch.nextJob;
    var c1 := ch.(slot := slot, jobs := ch.jobs[id := Running(req)], nextJob := id + 1);
    var c2 := Act(cfg, c1, RunHandler(id, out.err, out.value));
    assert c2.jobs == ch.jobs[id := Computed(req, S.ReplyTo(req, out))];
    assert c2.jobs - {id} == ch.jobs;
    assert ch.replies + {} == ch.replies;
  }

  lemma NewReturns(cfg: Config, ch: Channel, procs: set<nat>, req: Request, out: S.Handled)
    requires req.cltNonce > 0 && ch.nextJob !in ch.jobs && Handles(cfg, procs, req, out) && out.Returns?
    requires (req.srvNonce == 0 || req.srvNonce == cfg.srvNonce) && W.Check(ch.slot, req.xid, req.xidRep).1 == W.NEW
    ensures var (slot, d) := S.DispatchOne(ch.slot, cfg.srvNonce, procs, req, out);
            Dispatches(ch, slot, d, req, out, LaterSteps(cfg, Classify(cfg, ch, req), ch.nextJob, out))
  {
    var slot := W.Check(ch.slot, req.xid, req.xidRep).0;
    NewRunsAndFinishes(cfg, ch, slot, procs, req, out);
    assert Classify(cfg, ch, req)
        == ch.(slot := slot, jobs := ch.jobs[ch.nextJob := Running(req)], nextJob := ch.nextJob + 1);
  }

  lemma NewThrows(cfg: Config, ch: Channel, procs: set<nat>, req: Request)
    requires req.cltNonce > 0 && req.proc in procs
    requires (req.srvNonce == 0 || req.srvNonce == cfg.srvNonce) && W.Check(ch.slot, req.xid, req.xidRep).1 == W.NEW
    ensures var (slot, d) := S.DispatchOne(ch.slot, cfg.srvNonce, procs, req, S.Throws);
            Dispatches(ch, slot, d, req, S.Throws, Classify(cfg, ch, req))
  {
    assert ch.replies + {} == ch.replies;
    assert ch.runs + [] == ch.runs;
  }

  /** Any other request has no later steps. */
  lemma OldEndsAtOnce(cfg: Config, ch: Channel, id: nat, out: S.Handled)
    requires id !in ch.jobs
    ensures LaterSteps(cfg, ch, id, out) == ch
  {
  }

  lemma OldIsAnswered(cfg: Config, ch: Channel, procs: set<nat>, req: Request, out: S.Handled)
    requires req.cltNonce > 0 && req.proc in procs
    requires (req.srvNonce != 0 && req.srvNonce != cfg.srvNonce) || W.Check(ch.slot, req.xid, req.xidRep).1 != W.NEW
    ensures var (slot, d) := S.DispatchOne(ch.slot, cfg.srvNonce, procs, req, out);
            Dispatches(ch, slot, d, req, out, Classify(cfg, ch, req))
            && Classify(cfg, ch, req).nextJob == ch.nextJob
  {
    assert ch.replies + {} == ch.replies;
    assert ch.runs + [] == ch.runs;
  }

  lemma DispatchIsItsSteps(cfg: Config, ch: Channel, procs: set<nat>, req: Request, out: S.Handled)
    requires req in ch.requests && req.cltNonce > 0 && ch.nextJob !in ch.jobs && Handles(cfg, procs, req, out)
    ensures var (slot, d) := S.DispatchOne(ch.slot, cfg.srvNonce, procs, req, out);
            Dispatches(ch, slot, d, req, out, DispatchSteps(cfg, ch, req, out))
  {
    if (req.srvNonce == 0 || req.srvNonce == cfg.srvNonce) && W.Check(ch.slot, req.xid, req.xidRep).1 == W.NEW {
      if out.Returns? { NewReturns(cfg, ch, procs, req, out); } else { NewThrows(cfg, ch, procs, req); }
    } else {
      OldIsAnswered(cfg, ch, procs, req, out);
      OldEndsAtOnce(cfg, Classify(cfg, ch, req), ch.nextJob, out);
    }
  }

  lemma GotPduIsItsSteps(cfg: Config, ch: Channel, worker: nat, rep: Reply)
    requires worker < cfg.workers && worker !in ch.holding && rep in ch.replies
    ensures Act(cfg, Act(cfg, Act(cfg, ch, ReceiveReply(worker, rep)), TakeCaller(worker)), DeliverReply(worker))
         == ch.(client := TakeReply(AckReply(ch.client, rep.xid), rep))
  {
    assert ch.holding[worker := Held(rep, false)] - {worker} == ch.holding;
    assert ch.holding[worker := Held(rep, false)][worker := Held(rep, true)] - {worker} == ch.holding;
  }

  lemma CallIsItsSteps(cfg: Config, ch: Channel, proc: nat, args: Value)
    requires MayCall(ch.client, proc) && (proc == BIND ==> ch.binds < cfg.binds)
    ensures var c, xid := ch.client, ch.client.nextXid;
            var req := Request(xid, proc, c.nonce, c.srvNonce, if c.window == [] then 0 else c.window[0], args);
            Act(cfg, Act(cfg, ch, StartCall(proc, args)), SendRequest(xid))
            == ch.(client := SendCall(BeginCall(c, proc), xid, args),
                   binds := if proc == BIND then ch.binds + 1 else ch.binds,
                   past := Past(ch.past.calls[xid := Given(proc, args)], ch.past.sent + [req]),
                   requests := ch.requests + {req})
  {
  }
}
