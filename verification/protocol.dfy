/** The client and the server joined by a network that may lose, duplicate and reorder whole
    messages: `requests` and `replies` hold everything ever sent, and any of it may arrive at
    any time, any number of times, or never. The server keys its tables by client nonce, so
    the system is one channel per client, and every step belongs to one channel. */
module Protocol {
  import opened Wrappers
  import opened Rpc
  import opened XidWindow
  import opened ClientCore
  import W = ReplyWindow

  /** `workers`: how many threads of a client may be inside `GotPdu` at once.
      `binds`: how many binds a client may start. */
  datatype Config = Config(nonces: set<nat>, srvNonce: nat, workers: nat, binds: nat)

  /** A dispatch that was told NEW: before, and after, its handler ran. One whose handler throws
      is a job that is never run, or never finished. */
  datatype Job =
    | Running(req: Request)
    | Computed(req: Request, reply: Reply)

  /** History: one call of a handler. */
  datatype Invocation = Invocation(req: Request, reply: Reply)

  /** A worker inside `GotPdu`; `took`: it has taken the caller of the reply off the table. */
  datatype Held = Held(rep: Reply, took: bool)

  /** What a call was given. */
  datatype Given = Given(proc: nat, args: Value)

  /** History: by xid, what each call was given; and the requests put on the network, in order. */
  datatype Past = Past(calls: map<nat, Given>, sent: seq<Request>)

  datatype Channel = Channel(
    client: Client,
    holding: map<nat, Held>,  // by worker: the reply it has acknowledged and not yet delivered
    binds: nat,               // history: the binds started
    slot: W.Slot,
    jobs: map<nat, Job>,
    nextJob: nat,
    runs: seq<Invocation>,
    threw: bool,              // history: AddReply threw
    past: Past,
    requests: set<Request>,
    replies: set<Reply>)

  function NewChannel(nonce: nat): Channel {
    Channel(NewClient(nonce), map[], 0, W.NO_SLOT, map[], 0, [], false, Past(map[], []), {}, {})
  }

  datatype Action =
    | StartCall(proc: nat, args: Value)
    | SendRequest(xid: nat)
    | TimerFires(xid: nat)
    | SendFails(xid: nat, e: Err)
    | DeliverRequest(req: Request)
    | RunHandler(id: nat, err: Err, value: Value)
    | FinishDispatch(id: nat)
    | ReceiveReply(worker: nat, rep: Reply)
    | TakeCaller(worker: nat)
    | DeliverReply(worker: nat)

  function PutOut(ch: Channel, c: Client, req: Request): Channel {
    ch.(client := c, requests := ch.requests + {req}, past := ch.past.(sent := ch.past.sent + [req]))
  }

  /** A retransmission puts the caller's own buffer on the network once more. */
  function Resend(ch: Channel, r: (Client, Option<Request>)): Channel {
    match r.1
    case None => ch.(client := r.0)
    case Some(req) => PutOut(ch, r.0, req)
  }

  /** `Dispatch` up to the answer of the reply window, for a client with a nonzero nonce. */
  function Classify(cfg: Config, ch: Channel, req: Request): Channel {
    if req.srvNonce != 0 && req.srvNonce != cfg.srvNonce
    then ch.(replies := ch.replies + {Reply(req.xid, OLDSERVER_FAILURE, None)})
    else
      var (slot, state) := W.Check(ch.slot, req.xid, req.xidRep);
      match state
      case NEW => ch.(slot := slot, jobs := ch.jobs[ch.nextJob := Running(req)], nextJob := ch.nextJob + 1)
      case INPROGRESS => ch.(slot := slot)
      case DONE(r) => ch.(slot := slot, replies := ch.replies + {r})
      case FORGOTTEN => ch.(slot := slot, replies := ch.replies + {Reply(req.xid, ATMOST_ONCE_FAILURE, None)})
  }

  /** The handler of BIND answers with the server's nonce; any other may answer anything. */
  function Answer(cfg: Config, req: Request, err: Err, value: Value): Reply {
    if req.proc == BIND then Reply(req.xid, OK, Some(cfg.srvNonce)) else Reply(req.xid, err, Some(value))
  }

  /** `AddReply`, then the send. */
  function Finish(ch: Channel, id: nat): Channel
    requires id in ch.jobs && ch.jobs[id].Computed?
  {
    var job := ch.jobs[id];
    match W.Store(ch.slot.entries, job.req.xid, job.reply)
    case None => ch.(threw := true, jobs := ch.jobs - {id})
    case Some(es) => ch.(slot := ch.slot.(entries := es), jobs := ch.jobs - {id}, replies := ch.replies + {job.reply})
  }

  /** One atomic step of one channel; an action that is not possible changes nothing. */
  function Act(cfg: Config, ch: Channel, a: Action): Channel {
    match a
    case StartCall(proc, args) =>
      if MayCall(ch.client, proc) && (proc == BIND ==> ch.binds < cfg.binds)
      then ch.(client := BeginCall(ch.client, proc),
               past := ch.past.(calls := ch.past.calls[ch.client.nextXid := Given(proc, args)]),
               binds := if proc == BIND then ch.binds + 1 else ch.binds)
      else ch
    case SendRequest(xid) =>
      if Listed(ch.client, xid) && ch.client.callers[xid].buf.None? && xid in ch.past.calls
      then
        var args := ch.past.calls[xid].args;
        PutOut(ch, SendCall(ch.client, xid, args), Header(ch.client, xid, args))
      else ch
    case TimerFires(xid) => Resend(ch, TimerExpired(ch.client, xid))
    case SendFails(xid, e) => Resend(ch, SendFinished(ch.client, xid, e))
    case DeliverRequest(req) => if req in ch.requests then Classify(cfg, ch, req) else ch
    case RunHandler(id, err, value) =>
      if id in ch.jobs && ch.jobs[id].Running? then
        var req := ch.jobs[id].req;
        var reply := Answer(cfg, req, err, value);
        ch.(jobs := ch.jobs[id := Computed(req, reply)], runs := ch.runs + [Invocation(req, reply)])
      else ch
    case FinishDispatch(id) => if id in ch.jobs && ch.jobs[id].Computed? then Finish(ch, id) else ch
    case ReceiveReply(worker, rep) =>
      if worker < cfg.workers && worker !in ch.holding && rep in ch.replies
      then ch.(client := AckReply(ch.client, rep.xid), holding := ch.holding[worker := Held(rep, false)])
      else ch
    case TakeCaller(worker) =>
      if worker !in ch.holding || ch.holding[worker].took then ch
      else if !Listed(ch.client, ch.holding[worker].rep.xid) then ch.(holding := ch.holding - {worker})
      else ch.(client := RemoveCaller(ch.client, ch.holding[worker].rep.xid),
               holding := ch.holding[worker := ch.holding[worker].(took := true)])
    case DeliverReply(worker) =>
      if worker in ch.holding && ch.holding[worker].took
      then ch.(client := HandOver(ch.client, ch.holding[worker].rep), holding := ch.holding - {worker})
      else ch
  }

  // ---------- Runs of the whole system ----------

  datatype Step = Step(nonce: nat, action: Action)

  type System = map<nat, Channel>

  function Initial(cfg: Config): System {
    map n | n in cfg.nonces :: NewChannel(n)
  }

  function Next(cfg: Config, s: System, step: Step): System {
    if step.nonce in s then s[step.nonce := Act(cfg, s[step.nonce], step.action)] else s
  }

  function Execute(cfg: Config, steps: seq<Step>): System {
    if steps == [] then Initial(cfg) else Next(cfg, Execute(cfg, steps[..|steps| - 1]), steps[|steps| - 1])
  }

  /** Clients have distinct nonzero nonces and at least one thread to receive replies. */
  ghost predicate Proper(cfg: Config) {
    cfg.nonces != {} && 0 !in cfg.nonces && cfg.workers >= 1
  }

  // ---------- What the protocol is for ----------

  /** The handler ran for this request exactly once, for no other with its xid, and answered
      `rep`. */
  ghost predicate RanOnce(runs: seq<Invocation>, req: Request, rep: Reply) {
    exists i :: 0 <= i < |runs| && runs[i] == Invocation(req, rep)
             && forall j :: 0 <= j < |runs| && j != i ==> runs[j].req.xid != req.xid
  }

  /** The request is its caller's own buffer. */
  ghost predicate SentBy(c: Client, req: Request) {
    && req.xid in c.callers
    && c.callers[req.xid].buf == Some(req) && c.callers[req.xid].proc == req.proc
  }

  /** It carries the procedure and the arguments that the call was given. */
  ghost predicate AsGiven(calls: map<nat, Given>, req: Request) {
    req.xid in calls && calls[req.xid] == Given(req.proc, req.args)
  }

  /** And the only one ever sent with its xid. */
  ghost predicate OnlyRequest(ch: Channel, req: Request) {
    && SentBy(ch.client, req) && AsGiven(ch.past.calls, req) && req in ch.requests
    && forall r :: r in ch.requests && r.xid == req.xid ==> r == req
  }

  ghost predicate HandlersRunAtMostOnce(ch: Channel) {
    forall i, j :: 0 <= i < j < |ch.runs| ==> ch.runs[i].req.xid != ch.runs[j].req.xid
  }

  /** A callback fires at most once, after exactly one run of the handler, which was given the
      caller's own procedure and arguments, with its answer. */
  ghost predicate ExactlyOnce(ch: Channel) {
    && AtMostOnce(ch.client.log)
    && forall i :: 0 <= i < |ch.client.log| && ch.client.log[i].Fired? ==>
         var f := ch.client.log[i];
         exists req: Request :: req.xid == f.xid && OnlyRequest(ch, req)
                    && RanOnce(ch.runs, req, Reply(f.xid, f.err, f.value))
  }

  /** The server calls a request forgotten only after the client has processed its reply. */
  ghost predicate ForgetsOnlyProcessed(ch: Channel) {
    forall rep :: rep in ch.replies && rep.value.None? ==>
      rep.err == ATMOST_ONCE_FAILURE && rep.xid in ch.client.received
  }

  ghost predicate AcksAreOrdered(ch: Channel) {
    && (forall r :: r in ch.requests ==> r.xidRep < r.xid && r.xidRep <= Front(ch.client.window))
    && ch.slot.ack <= Front(ch.client.window) < ch.client.nextXid
  }

  /** No caller is dropped without its callback. */
  ghost predicate NoneLost(ch: Channel) {
    forall i :: 0 <= i < |ch.client.log| ==> ch.client.log[i].Fired?
  }

  ghost predicate Safe(ch: Channel) {
    ForgetsOnlyProcessed(ch) && AcksAreOrdered(ch) && !ch.threw
  }
}
