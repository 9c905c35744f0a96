/** Exactly which configurations keep the promise: the concrete runs in which two workers, or
    two binds, break it, and the theorems that join them to ProtocolSafety. */
module ProtocolLimits {
  import opened Wrappers
  import opened Rpc
  import opened XidWindow
  import opened ClientCore
  import opened Protocol
  import opened ProtocolSafety
  import A = ProtocolAtomic
  import W = ReplyWindow

  const USER_PROC: nat := 1

  function ActAll(cfg: Config, ch: Channel, actions: seq<Action>): Channel
    decreases |actions|
  {
    if actions == [] then ch else ActAll(cfg, Act(cfg, ch, actions[0]), actions[1..])
  }

  /** A sequence of actions of one client is a run of the system. */
  lemma {:induction false} RunOfOne(cfg: Config, n: nat, before: seq<Step>, actions: seq<Action>)
    returns (steps: seq<Step>)
    requires n in Execute(cfg, before)
    ensures n in Execute(cfg, steps) && Execute(cfg, steps)[n] == ActAll(cfg, Execute(cfg, before)[n], actions)
    decreases |actions|
  {
    if actions == [] {
      steps := before;
    } else {
      var more := before + [Step(n, actions[0])];
      assert more[..|before|] == before;
      steps := RunOfOne(cfg, n, more, actions[1..]);
    }
  }

  lemma {:induction false} ActAllConcat(cfg: Config, ch: Channel, a: seq<Action>, b: seq<Action>)
    ensures ActAll(cfg, ch, a + b) == ActAll(cfg, ActAll(cfg, ch, a), b)
    decreases |a|
  {
    if a == [] {
      assert a + b == b;
    } else {
      assert (a + b)[1..] == a[1..] + b;
      ActAllConcat(cfg, Act(cfg, ch, a[0]), a[1..], b);
    }
  }

  lemma ActAllFour(cfg: Config, ch: Channel, a: seq<Action>, b: seq<Action>, c: seq<Action>, d: seq<Action>)
    ensures ActAll(cfg, ch, a + b + c + d) == ActAll(cfg, ActAll(cfg, ActAll(cfg, ActAll(cfg, ch, a), b), c), d)
  {
    ActAllConcat(cfg, ch, a, b);
    ActAllConcat(cfg, ch, a + b, c);
    ActAllConcat(cfg, ch, a + b + c, d);
  }

  // ---------- The pieces the runs are made of ----------

  /** The request that the next call sends. */
  function NextRequest(c: Client, proc: nat): Request {
    Request(c.nextXid, proc, c.nonce, c.srvNonce, Front(c.window), 0)
  }

  function Calling(c: Client, proc: nat): seq<Action> {
    [StartCall(proc, 0), SendRequest(c.nextXid)]
  }

  function Called(ch: Channel, proc: nat): Channel {
    var c, req := ch.client, NextRequest(ch.client, proc);
    ch.(client := c.(nextXid := c.nextXid + 1, table := c.table + {c.nextXid},
                     callers := c.callers[c.nextXid := Caller(proc, false, Some(req))]),
        binds := if proc == BIND then ch.binds + 1 else ch.binds,
        past := Past(ch.past.calls[c.nextXid := Given(proc, 0)], ch.past.sent + [req]),
        requests := ch.requests + {req})
  }

  lemma Call(cfg: Config, ch: Channel, proc: nat)
    requires MayCall(ch.client, proc) && (proc == BIND ==> ch.binds < cfg.binds)
    ensures ActAll(cfg, ch, Calling(ch.client, proc)) == Called(ch, proc)
  {
    var mid := Act(cfg, ch, StartCall(proc, 0));
    assert Calling(ch.client, proc)[1..] == [SendRequest(ch.client.nextXid)];
    assert ActAll(cfg, mid, [SendRequest(ch.client.nextXid)]) == Act(cfg, mid, SendRequest(ch.client.nextXid));
  }

  /** Nothing is remembered from `xid` on. */
  ghost predicate Fresh(s: W.Slot, xid: nat) {
    W.Above(s.entries, s.ack) && s.ack < xid && forall y: nat :: xid <= y ==> W.Lookup(s.entries, y) == None
  }

  function Started(cfg: Config, ch: Channel, req: Request): Channel {
    var reply := Answer(cfg, req, OK, 0);
    ch.(slot := W.Check(ch.slot, req.xid, req.xidRep).0,
        jobs := ch.jobs[ch.nextJob := Computed(req, reply)],
        nextJob := ch.nextJob + 1,
        runs := ch.runs + [Invocation(req, reply)])
  }

  /** A new request is classified, and its handler computes an answer. */
  lemma Start(cfg: Config, ch: Channel, req: Request)
    requires req in ch.requests && (req.srvNonce == 0 || req.srvNonce == cfg.srvNonce)
    requires Fresh(ch.slot, req.xid) && req.xidRep < req.xid
    ensures ActAll(cfg, ch, [DeliverRequest(req), RunHandler(ch.nextJob, OK, 0)]) == Started(cfg, ch, req)
    ensures var slot := Started(cfg, ch, req).slot;
            && slot.ack == W.Max(ch.slot.ack, req.xidRep)
            && Fresh(slot, req.xid + 1) && W.Lookup(slot.entries, req.xid) == Some(None)
            && forall y: nat :: y < req.xid ==>
              W.Lookup(slot.entries, y) == if y <= slot.ack then None else W.Lookup(ch.slot.entries, y)
  {
    W.CheckLookup(ch.slot, req.xid, req.xidRep, req.xid);
    var mid := Act(cfg, ch, DeliverRequest(req));
    assert mid.jobs[mid.nextJob - 1] == Running(req);
    var next := Act(cfg, mid, RunHandler(ch.nextJob, OK, 0));
    assert next.jobs == ch.jobs[ch.nextJob := Computed(req, Answer(cfg, req, OK, 0))];
    assert [DeliverRequest(req), RunHandler(ch.nextJob, OK, 0)][1..] == [RunHandler(ch.nextJob, OK, 0)];
    assert ActAll(cfg, mid, [RunHandler(ch.nextJob, OK, 0)]) == next;
    var slot := Started(cfg, ch, req).slot;
    forall y: nat | y != req.xid
      ensures W.Lookup(slot.entries, y) == if y <= slot.ack then None else W.Lookup(ch.slot.entries, y) {
      W.CheckLookup(ch.slot, req.xid, req.xidRep, y);
    }
  }

  /** The answer is recorded and sent. */
  lemma RecordReply(cfg: Config, ch: Channel, id: nat) returns (next: Channel)
    requires id in ch.jobs && ch.jobs[id].Computed? && W.Above(ch.slot.entries, ch.slot.ack)
    requires W.Lookup(ch.slot.entries, ch.jobs[id].req.xid) == Some(None)
    ensures next == Act(cfg, ch, FinishDispatch(id))
    ensures next == ch.(slot := next.slot, jobs := ch.jobs - {id}, replies := ch.replies + {ch.jobs[id].reply})
    ensures next.slot.ack == ch.slot.ack && W.Above(next.slot.entries, next.slot.ack)
    ensures forall y: nat :: y != ch.jobs[id].req.xid ==> W.Lookup(next.slot.entries, y) == W.Lookup(ch.slot.entries, y)
  {
    next := Act(cfg, ch, FinishDispatch(id));
    var job := ch.jobs[id];
    W.StoreLookup(ch.slot.entries, ch.slot.ack, job.req.xid, job.reply, job.req.xid);
    forall y: nat | y != job.req.xid ensures W.Lookup(next.slot.entries, y) == W.Lookup(ch.slot.entries, y) {
      W.StoreLookup(ch.slot.entries, ch.slot.ack, job.req.xid, job.reply, y);
    }
  }

  function Serving(ch: Channel, req: Request): seq<Action> {
    [DeliverRequest(req), RunHandler(ch.nextJob, OK, 0)] + [FinishDispatch(ch.nextJob)]
  }

  /** A request served from arrival to reply, with nothing in between. */
  lemma Serve(cfg: Config, ch: Channel, req: Request) returns (next: Channel)
    requires req in ch.requests && (req.srvNonce == 0 || req.srvNonce == cfg.srvNonce) && ch.nextJob !in ch.jobs
    requires Fresh(ch.slot, req.xid) && req.xidRep < req.xid
    ensures next == ActAll(cfg, ch, Serving(ch, req))
    ensures next.client == ch.client && next.holding == ch.holding && next.binds == ch.binds
    ensures next.requests == ch.requests && next.past == ch.past
    ensures next.jobs == ch.jobs && next.nextJob == ch.nextJob + 1 && next.threw == ch.threw
    ensures next.replies == ch.replies + {Answer(cfg, req, OK, 0)}
    ensures next.slot.ack == W.Max(ch.slot.ack, req.xidRep) && Fresh(next.slot, req.xid + 1)
    ensures forall y: nat :: y < req.xid ==>
      W.Lookup(next.slot.entries, y) == if y <= next.slot.ack then None else W.Lookup(ch.slot.entries, y)
  {
    Start(cfg, ch, req);
    var mid := Started(cfg, ch, req);
    next := RecordReply(cfg, mid, ch.nextJob);
    ActAllConcat(cfg, ch, [DeliverRequest(req), RunHandler(ch.nextJob, OK, 0)], [FinishDispatch(ch.nextJob)]);
    assert ActAll(cfg, mid, [FinishDispatch(ch.nextJob)]) == next;
    assert mid.jobs - {ch.nextJob} == ch.jobs;
  }

  function Receiving(w: nat, rep: Reply): seq<Action> {
    [ReceiveReply(w, rep), TakeCaller(w), DeliverReply(w)]
  }

  /** A reply handled from arrival to callback by one worker. */
  lemma Receive(cfg: Config, ch: Channel, w: nat, rep: Reply) returns (next: Channel)
    requires w < cfg.workers && w !in ch.holding && rep in ch.replies
    ensures next == ActAll(cfg, ch, Receiving(w, rep))
    ensures next == ch.(client := TakeReply(AckReply(ch.client, rep.xid), rep))
  {
    A.GotPduIsItsSteps(cfg, ch, w, rep);
    var first := Act(cfg, ch, ReceiveReply(w, rep));
    var second := Act(cfg, first, TakeCaller(w));
    next := Act(cfg, second, DeliverReply(w));
    assert Receiving(w, rep)[1..] == [TakeCaller(w), DeliverReply(w)];
    assert [TakeCaller(w), DeliverReply(w)][1..] == [DeliverReply(w)];
    One(cfg, second, DeliverReply(w));
  }

  /** A request the client has acknowledged is forgotten, even when it is new to the server. */
  lemma Forget(cfg: Config, ch: Channel, req: Request)
    requires req in ch.requests && (req.srvNonce == 0 || req.srvNonce == cfg.srvNonce) && req.xid <= ch.slot.ack
    ensures Forgotten(req.xid) in Act(cfg, ch, DeliverRequest(req)).replies
    ensures var next := Act(cfg, ch, DeliverRequest(req));
            next.client == ch.client && next.holding == ch.holding && next.threw == ch.threw
  {
  }

  function Forgotten(xid: nat): Reply { Reply(xid, ATMOST_ONCE_FAILURE, None) }

  lemma One(cfg: Config, ch: Channel, a: Action)
    ensures ActAll(cfg, ch, [a]) == Act(cfg, ch, a)
  {
  }

  // ---------- Two workers ----------

  /** The client is bound and about to make its call number 3. */
  ghost predicate Bound(cfg: Config, n: nat, ch: Channel) {
    var c := ch.client;
    && c.nonce == n && c.bindDone && c.srvNonce == cfg.srvNonce && c.nextXid == 3 && c.window == [2] &&
      c.table == {}
    && ch.holding == map[] && ch.jobs == map[] && Fresh(ch.slot, 3) && ch.slot.ack == 0
  }

  lemma BindFirst(cfg: Config, n: nat) returns (acts: seq<Action>, ch: Channel)
    requires cfg.workers >= 1 && cfg.binds >= 1
    ensures ch == ActAll(cfg, NewChannel(n), acts) && Bound(cfg, n, ch)
  {
    var c0 := NewChannel(n);
    var req := NextRequest(c0.client, BIND);
    Call(cfg, c0, BIND);
    var c1 := Called(c0, BIND);
    var c2 := Serve(cfg, c1, req);
    var rep := Answer(cfg, req, OK, 0);
    ch := Receive(cfg, c2, 0, rep);
    acts := Calling(c0.client, BIND) + Serving(c1, req) + Receiving(0, rep);
    ActAllConcat(cfg, c0, Calling(c0.client, BIND), Serving(c1, req));
    ActAllConcat(cfg, c0, Calling(c0.client, BIND) + Serving(c1, req), Receiving(0, rep));
    assert Record([], 2) == [2];
    assert ch.client.table == {};
  }

  /** One worker has acknowledged the reply to call 3 and not yet delivered it. */
  ghost predicate Holding(cfg: Config, n: nat, req: Request, ch: Channel) {
    var c := ch.client;
    && c.nonce == n && c.bindDone && c.srvNonce == cfg.srvNonce && c.nextXid == 4 && c.window == [3]
    && Listed(c, 3) && !c.callers[3].done
    && ch.holding.Keys == {0} && ch.jobs == map[] && Fresh(ch.slot, 4) && ch.slot.ack <= 2
    && req.xid == 3 && req in ch.requests && req.srvNonce == cfg.srvNonce
  }

  lemma HoldReply(cfg: Config, n: nat, b: Channel) returns (acts: seq<Action>, ch: Channel)
    requires Bound(cfg, n, b) && cfg.workers >= 1
    ensures ch == ActAll(cfg, b, acts) && Holding(cfg, n, NextRequest(b.client, USER_PROC), ch)
  {
    var req := NextRequest(b.client, USER_PROC);
    Call(cfg, b, USER_PROC);
    var c1 := Called(b, USER_PROC);
    var c2 := Serve(cfg, c1, req);
    var rep := Answer(cfg, req, OK, 0);
    ch := Act(cfg, c2, ReceiveReply(0, rep));
    RecordTwo();
    One(cfg, c2, ReceiveReply(0, rep));
    acts := Calling(b.client, USER_PROC) + Serving(c1, req) + [ReceiveReply(0, rep)];
    ActAllConcat(cfg, b, Calling(b.client, USER_PROC), Serving(c1, req));
    ActAllConcat(cfg, b, Calling(b.client, USER_PROC) + Serving(c1, req), [ReceiveReply(0, rep)]);
  }

  /** Call 4 carries that acknowledgement, and the server forgets call 3. */
  lemma HeldReplyIsForgotten(cfg: Config, n: nat, req: Request, b: Channel) returns (acts: seq<Action>, ch: Channel)
    requires Holding(cfg, n, req, b)
    ensures ch == ActAll(cfg, b, acts)
    ensures ch.holding.Keys == {0} && Forgotten(3) in ch.replies
    ensures Listed(ch.client, 3) && !ch.client.callers[3].done
  {
    var req4 := NextRequest(b.client, USER_PROC);
    Call(cfg, b, USER_PROC);
    var c1 := Called(b, USER_PROC);
    Start(cfg, c1, req4);
    var c2 := Started(cfg, c1, req4);
    Forget(cfg, c2, req);
    ch := Act(cfg, c2, DeliverRequest(req));
    One(cfg, c2, DeliverRequest(req));
    var start := [DeliverRequest(req4), RunHandler(c1.nextJob, OK, 0)];
    acts := Calling(b.client, USER_PROC) + start + [DeliverRequest(req)];
    ActAllConcat(cfg, b, Calling(b.client, USER_PROC), start);
    ActAllConcat(cfg, b, Calling(b.client, USER_PROC) + start, [DeliverRequest(req)]);
  }

  lemma RecordTwo()
    ensures Record([2], 3) == [3]
  {
    assert Insert([2], 3) == [2, 3];
    assert [2, 3][1..] == [3];
  }

  /** A second worker then receives the empty answer, and the callback of call 3 is lost. */
  lemma TwoWorkersLose(cfg: Config) returns (steps: seq<Step>, n: nat)
    requires Proper(cfg) && cfg.workers >= 2 && cfg.binds >= 1
    ensures n in Execute(cfg, steps) && !NoneLost(Execute(cfg, steps)[n])
  {
    n :| n in cfg.nonces;
    var first, b := BindFirst(cfg, n);
    var second, h := HoldReply(cfg, n, b);
    var third, f := HeldReplyIsForgotten(cfg, n, NextRequest(b.client, USER_PROC), h);
    var fourth := Receiving(1, Forgotten(3));
    var last := Receive(cfg, f, 1, Forgotten(3));
    assert last.client.log[|last.client.log| - 1] == Lost(3, ATMOST_ONCE_FAILURE);
    steps := RunOfOne(cfg, n, [], first);
    steps := RunOfOne(cfg, n, steps, second);
    steps := RunOfOne(cfg, n, steps, third);
    steps := RunOfOne(cfg, n, steps, fourth);
  }

  // ---------- Two binds ----------

  /** Two binds are under way: the first one's handler has run, the second one was served. */
  lemma BindTwice(cfg: Config, n: nat) returns (acts: seq<Action>, ch: Channel)
    requires cfg.workers >= 1 && cfg.binds >= 2
    ensures ch == ActAll(cfg, NewChannel(n), acts)
    ensures ch.client.table == {2, 3} == ch.client.callers.Keys
    ensures ch.client.callers[3].proc == BIND && !ch.client.callers[3].done && !ch.client.callers[2].done
    ensures ch.client.nextXid == 4 && ch.client.nonce == n && ch.client.window == [] && ch.client.received == {}
    ensures ch.holding == map[] && ch.nextJob == 2 && 0 in ch.jobs && ch.jobs[0].Computed? && ch.jobs[0].req.xid == 2
    ensures ch.jobs.Keys == {0}
    ensures ch.jobs[0].req in ch.requests && ch.jobs[0].req.srvNonce == 0
    ensures Fresh(ch.slot, 4) && ch.slot.ack == 0
    ensures Reply(3, OK, Some(cfg.srvNonce)) in ch.replies
  {
    var c0 := NewChannel(n);
    var req2 := NextRequest(c0.client, BIND);
    Call(cfg, c0, BIND);
    var c1 := Called(c0, BIND);
    var req3 := NextRequest(c1.client, BIND);
    Call(cfg, c1, BIND);
    var c2 := Called(c1, BIND);
    Start(cfg, c2, req2);
    var c3 := Started(cfg, c2, req2);
    ch := Serve(cfg, c3, req3);
    var start := [DeliverRequest(req2), RunHandler(c2.nextJob, OK, 0)];
    acts := Calling(c0.client, BIND) + Calling(c1.client, BIND) + start + Serving(c3, req3);
    ActAllFour(cfg, c0, Calling(c0.client, BIND), Calling(c1.client, BIND), start, Serving(c3, req3));
  }

  /** The second bind's reply comes first and becomes the baseline of the window; the next
      call acknowledges the first bind too, and its entry is trimmed while in progress. */
  lemma BaselineSkipsFirstBind(cfg: Config, n: nat, b: Channel) returns (acts: seq<Action>, ch: Channel)
    requires cfg.workers >= 1
    requires b.client.table == {2, 3} == b.client.callers.Keys
    requires b.client.callers[3].proc == BIND && !b.client.callers[3].done && !b.client.callers[2].done
    requires b.client.nextXid == 4 && b.client.nonce == n && b.client.window == [] && b.holding == map[]
    requires b.client.received == {}
    requires b.jobs.Keys == {0} && b.nextJob == 2 && b.jobs[0].Computed? && b.jobs[0].req.xid == 2
    requires Fresh(b.slot, 4) && b.slot.ack == 0
    requires Reply(3, OK, Some(cfg.srvNonce)) in b.replies
    ensures ch == ActAll(cfg, b, acts)
    ensures 0 in ch.jobs && ch.jobs[0] == b.jobs[0] && ch.slot.ack == 3 && W.Above(ch.slot.entries, 3)
    ensures ch.holding == map[] && ch.requests >= b.requests
    ensures Listed(ch.client, 2) && !ch.client.callers[2].done && 2 !in ch.client.received
  {
    var rep := Reply(3, OK, Some(cfg.srvNonce));
    var c1 := Receive(cfg, b, 0, rep);
    assert Record([], 3) == [3];
    var req4 := NextRequest(c1.client, USER_PROC);
    Call(cfg, c1, USER_PROC);
    var c2 := Called(c1, USER_PROC);
    Start(cfg, c2, req4);
    ch := Started(cfg, c2, req4);
    var start := [DeliverRequest(req4), RunHandler(c2.nextJob, OK, 0)];
    acts := Receiving(0, rep) + Calling(c1.client, USER_PROC) + start;
    ActAllConcat(cfg, b, Receiving(0, rep), Calling(c1.client, USER_PROC));
    ActAllConcat(cfg, b, Receiving(0, rep) + Calling(c1.client, USER_PROC), start);
  }

  /** With two binds `AddReply` can throw, a call can be forgotten that has no reply, and the
      first bind's caller can be lost. */
  lemma TwoBindsBreak(cfg: Config)
    returns (throwing: seq<Step>, forgetting: seq<Step>, losing: seq<Step>, n: nat)
    requires Proper(cfg) && cfg.binds >= 2
    ensures n in Execute(cfg, throwing) && Execute(cfg, throwing)[n].threw
    ensures n in Execute(cfg, forgetting) && !ForgetsOnlyProcessed(Execute(cfg, forgetting)[n])
    ensures n in Execute(cfg, losing) && !NoneLost(Execute(cfg, losing)[n])
  {
    n :| n in cfg.nonces;
    var first, b := BindTwice(cfg, n);
    var second, h := BaselineSkipsFirstBind(cfg, n, b);
    var req2 := h.jobs[0].req;
    var steps := RunOfOne(cfg, n, [], first);
    steps := RunOfOne(cfg, n, steps, second);

    W.LookupLow(h.slot.entries, 3, 2);
    W.StoreLookup(h.slot.entries, 3, 2, h.jobs[0].reply, 0);
    One(cfg, h, FinishDispatch(0));
    throwing := RunOfOne(cfg, n, steps, [FinishDispatch(0)]);

    Forget(cfg, h, req2);
    var f := Act(cfg, h, DeliverRequest(req2));
    One(cfg, h, DeliverRequest(req2));
    var last := Receive(cfg, f, 0, Forgotten(2));
    assert last.client.log[|last.client.log| - 1] == Lost(2, ATMOST_ONCE_FAILURE);
    forgetting := RunOfOne(cfg, n, steps, [DeliverRequest(req2)]);
    losing := RunOfOne(cfg, n, forgetting, Receiving(0, Forgotten(2)));
  }

  /** The first bind has its xid and is not sent yet; the second one is sent. */
  ghost predicate Overtaking(cfg: Config, n: nat, ch: Channel) {
    var c := ch.client;
    && c.nonce == n && c.table == {2, 3} == c.callers.Keys && c.callers[2].buf == None && c.window == []
    && 2 in ch.past.calls && ch.past.calls[2] == Given(BIND, 0)
    && c.callers[3].proc == BIND && !c.callers[3].done
    && ch.holding == map[] && ch.jobs == map[] && ch.slot == W.NO_SLOT
    && Request(3, BIND, n, 0, 0, 0) in ch.requests
  }

  lemma SecondBindFirst(cfg: Config, n: nat) returns (acts: seq<Action>, ch: Channel)
    requires cfg.binds >= 2
    ensures ch == ActAll(cfg, NewChannel(n), acts) && Overtaking(cfg, n, ch)
  {
    var c0 := NewChannel(n);
    var c1 := Act(cfg, c0, StartCall(BIND, 0));
    One(cfg, c0, StartCall(BIND, 0));
    Call(cfg, c1, BIND);
    ch := Called(c1, BIND);
    acts := [StartCall(BIND, 0)] + Calling(c1.client, BIND);
    ActAllConcat(cfg, c0, [StartCall(BIND, 0)], Calling(c1.client, BIND));
  }

  lemma SecondBindAnswered(cfg: Config, n: nat, b: Channel) returns (acts: seq<Action>, ch: Channel)
    requires cfg.workers >= 1 && Overtaking(cfg, n, b)
    ensures ch == ActAll(cfg, b, acts)
    ensures Listed(ch.client, 2) && ch.client.callers[2].buf == None && ch.client.window == [3]
    ensures 2 in ch.past.calls && ch.past.calls[2] == Given(BIND, 0)
  {
    var req := Request(3, BIND, n, 0, 0, 0);
    var c1 := Serve(cfg, b, req);
    var rep := Answer(cfg, req, OK, 0);
    ch := Receive(cfg, c1, 0, rep);
    assert Record([], 3) == [3];
    acts := Serving(b, req) + Receiving(0, rep);
    ActAllConcat(cfg, b, Serving(b, req), Receiving(0, rep));
  }

  /** The first bind, sent after all, then acknowledges an xid above its own. */
  lemma TwoBindsDisorder(cfg: Config) returns (steps: seq<Step>, n: nat)
    requires Proper(cfg) && cfg.binds >= 2
    ensures n in Execute(cfg, steps) && !AcksAreOrdered(Execute(cfg, steps)[n])
  {
    n :| n in cfg.nonces;
    var first, o := SecondBindFirst(cfg, n);
    var second, b := SecondBindAnswered(cfg, n, o);
    var last := Act(cfg, b, SendRequest(2));
    One(cfg, b, SendRequest(2));
    var req := Header(b.client, 2, 0);
    assert req in last.requests && req.xidRep > req.xid;
    steps := RunOfOne(cfg, n, [], first);
    steps := RunOfOne(cfg, n, steps, second);
    steps := RunOfOne(cfg, n, steps, [SendRequest(2)]);
  }

  // ---------- Exactly when ----------

  lemma FewBinds(cfg: Config, steps: seq<Step>)
    requires Proper(cfg)
    ensures forall n :: n in Execute(cfg, steps) ==> Execute(cfg, steps)[n].binds <= cfg.binds
    ensures cfg.binds <= 1 ==> forall n :: n in Execute(cfg, steps) ==> Safe(Execute(cfg, steps)[n])
  {
    InvAlways(cfg, steps);
    OneBindIsSafe(cfg, steps);
  }

  /** No caller is ever dropped without its callback, in any run, exactly when the client
      starts no bind, or one bind and handles one reply at a time. */
  lemma NoneLostExactly(cfg: Config)
    requires Proper(cfg)
    ensures (forall steps, n :: n in Execute(cfg, steps) ==> NoneLost(Execute(cfg, steps)[n]))
       <==> cfg.binds == 0 || (cfg.binds == 1 && cfg.workers == 1)
  {
    if cfg.binds == 0 {
      forall steps ensures forall n :: n in Execute(cfg, steps) ==> NoneLost(Execute(cfg, steps)[n]) {
        FewBinds(cfg, steps);
        NothingLostUnbound(cfg, steps);
      }
    } else if cfg.binds == 1 && cfg.workers == 1 {
      forall steps ensures forall n :: n in Execute(cfg, steps) ==> NoneLost(Execute(cfg, steps)[n]) {
        FewBinds(cfg, steps);
        SerialAlways(cfg, steps);
      }
    } else if cfg.binds == 1 {
      var steps, n := TwoWorkersLose(cfg);
    } else {
      var throwing, forgetting, losing, n := TwoBindsBreak(cfg);
    }
  }

  /** Both throws of `AddReply` are unreachable exactly when a client binds at most once. */
  lemma NeverThrowsExactly(cfg: Config)
    requires Proper(cfg)
    ensures (forall steps, n :: n in Execute(cfg, steps) ==> !Execute(cfg, steps)[n].threw) <==> cfg.binds <= 1
  {
    if cfg.binds <= 1 {
      forall steps { FewBinds(cfg, steps); }
    } else {
      var throwing, forgetting, losing, n := TwoBindsBreak(cfg);
    }
  }

  /** So is forgetting a call whose reply the client has not processed. */
  lemma ForgetsOnlyProcessedExactly(cfg: Config)
    requires Proper(cfg)
    ensures (forall steps, n :: n in Execute(cfg, steps) ==> ForgetsOnlyProcessed(Execute(cfg, steps)[n]))
       <==> cfg.binds <= 1
  {
    if cfg.binds <= 1 {
      forall steps { FewBinds(cfg, steps); }
    } else {
      var throwing, forgetting, losing, n := TwoBindsBreak(cfg);
    }
  }

  /** And so is a request that acknowledges its own xid or a later one. */
  lemma AcksAreOrderedExactly(cfg: Config)
    requires Proper(cfg)
    ensures (forall steps, n :: n in Execute(cfg, steps) ==> AcksAreOrdered(Execute(cfg, steps)[n]))
       <==> cfg.binds <= 1
  {
    if cfg.binds <= 1 {
      forall steps { FewBinds(cfg, steps); }
    } else {
      var steps, n := TwoBindsDisorder(cfg);
    }
  }
}
