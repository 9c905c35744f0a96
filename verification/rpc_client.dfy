/** The client's methods (src/rpc/rpc_client.cpp), with its tables and its callers updated in
    place, each tied to the functions of ClientCore: one method for every critical section, and
    the methods of the source made of them. What a method hands to the socket is its result. */
module RpcClient {
  import opened Wrappers
  import opened Rpc
  import opened XidWindow
  import opened ClientCore

  /** A `Caller`, which timers and send callbacks still point to when it is off the table. */
  class CallerCell {
    const xid: nat
    const proc: nat
    var done: bool
    var buf: Option<Request>

    constructor (xid: nat, proc: nat)
      ensures this.xid == xid && Value() == Caller(proc, false, None)
    {
      this.xid, this.proc := xid, proc;
      done, buf := false, None;
    }

    function Value(): Caller
      reads this
    {
      Caller(proc, done, buf)
    }
  }

  class RpcClient {
    const nonce: nat
    var srvNonce: nat
    var bindDone: bool
    var nextXid: nat
    var callers: map<nat, CallerCell>
    var window: seq<nat>
    ghost var made: map<nat, CallerCell>
    ghost var failing: multiset<SendError>
    ghost var received: set<nat>
    ghost var log: seq<Completion>

    constructor (nonce: nat)
      ensures Valid() && Abs() == NewClient(nonce)
    {
      this.nonce := nonce;
      srvNonce, bindDone, nextXid := 0, false, FIRST_XID;
      callers, window := map[], [];
      made, failing, received, log := map[], multiset{}, {}, [];
    }

    /** The table holds callers that were made, and each under its own xid. */
    ghost predicate Valid()
      reads this
    {
      && Sorted(window)
      && (forall x :: x in made ==> made[x].xid == x < nextXid)
      && (forall x :: x in callers ==> Made(callers[x]) && callers[x].xid == x)
    }

    ghost predicate Made(c: CallerCell)
      reads this
    {
      c.xid in made && made[c.xid] == c
    }

    ghost function Callers(): map<nat, Caller>
      reads `made, made.Values
    {
      map x | x in made :: made[x].Value()
    }

    ghost function Abs(): Client
      reads this, made.Values
    {
      Client(nonce, srvNonce, nextXid, Callers(), callers.Keys, failing, window, bindDone, received, log)
    }

    /** The first critical section of `Call`. */
    method EnterCall(proc: nat) returns (err: Err, c: CallerCell?)
      requires Valid()
      modifies this
      ensures Valid() && Abs() == BeginCall(old(Abs()), proc)
      ensures err == if MayCall(old(Abs()), proc) then OK else BIND_FAILURE
      ensures err != OK ==> made == old(made) && callers == old(callers)
      ensures err == OK ==> c != null && fresh(c) && Made(c) && c.xid == old(nextXid)
      ensures err == OK ==> made == old(made)[c.xid := c] && callers == old(callers)[c.xid := c]
    {
      if (proc != BIND && !bindDone) || (proc == BIND && bindDone) {
        return BIND_FAILURE, null;
      }
      c := new CallerCell(nextXid, proc);
      nextXid := nextXid + 1;
      Enlist(c);
      err := OK;
    }

    method Enlist(c: CallerCell)
      requires Valid() && c.xid !in made && c.xid < nextXid
      modifies `callers, `made
      ensures Valid() && made == old(made)[c.xid := c] && callers == old(callers)[c.xid := c]
      ensures Callers() == old(Callers())[c.xid := c.Value()]
    {
      ghost var before := Callers();
      callers, made := callers[c.xid := c], made[c.xid := c];
      assert Callers() == before[c.xid := c.Value()];
    }

    /** The rest of it: the buffer is made once. */
    method SendBuffer(c: CallerCell, args: Value) returns (h: Request)
      requires Valid() && Made(c)
      modifies c
      ensures Valid() && Abs() == SendCall(old(Abs()), c.xid, args)
      ensures h == Header(old(Abs()), c.xid, args) && c.buf == Some(h)
    {
      var receivedXid := 0;
      if window != [] {
        receivedXid := window[0];
      }
      h := Request(c.xid, c.proc, nonce, srvNonce, receivedXid, args);
      ghost var before := Callers();
      c.buf := Some(h);
      assert Callers() == before[c.xid := c.Value()];
    }

    method Call(proc: nat, args: Value) returns (err: Err, sent: Option<Request>)
      requires Valid()
      modifies this
      ensures Valid()
      ensures err == if (proc == BIND) == old(bindDone) then BIND_FAILURE else OK
      ensures err == OK ==>
                && Abs() == SendCall(BeginCall(old(Abs()), proc), old(nextXid), args)
                && sent == Some(Request(old(nextXid), proc, nonce, old(srvNonce),
                                        if old(window) == [] then 0 else old(window)[0], args))
      ensures err == OK ==>
                && old(nextXid) in callers && fresh(callers[old(nextXid)]) && nextXid == old(nextXid) + 1
                && callers[old(nextXid)].Value() == Caller(proc, false, sent)
                && callers == old(callers)[old(nextXid) := callers[old(nextXid)]]
      ensures err != OK ==> Abs() == old(Abs()) && callers == old(callers) && sent == None
    {
      var c;
      err, c := EnterCall(proc);
      sent := None;
      if err == OK {
        var h := SendBuffer(c, args);
        sent := Some(h);
      }
    }

    method GotPdu(rep: Reply)
      requires Valid()
      modifies this, made.Values
      ensures Valid() && made == old(made)
      ensures Abs() == TakeReply(AckReply(old(Abs()), rep.xid), rep)
      ensures callers == old(callers) - {rep.xid} && received == old(received) + {rep.xid}
      ensures if rep.xid in old(callers)
              then old(callers)[rep.xid].done && Told(old(callers[rep.xid].Value()), old(Abs()), rep)
              else (log, bindDone, srvNonce) == old((log, bindDone, srvNonce))
    {
      UpdateXidRep(rep.xid);
      TakeAndComplete(rep);
    }

    /** The rest of `GotPdu`. */
    method TakeAndComplete(rep: Reply)
      requires Valid()
      modifies this, made.Values
      ensures Valid() && made == old(made) && Abs() == TakeReply(old(Abs()), rep)
      ensures callers == old(callers) - {rep.xid} && received == old(received)
      ensures if rep.xid in old(callers)
              then old(callers)[rep.xid].done && Told(old(callers[rep.xid].Value()), old(Abs()), rep)
              else (log, bindDone, srvNonce) == old((log, bindDone, srvNonce))
    {
      var c := TakeCaller(rep.xid);
      if c == null {
        return;
      }
      CompleteCaller(c, rep);
    }

    /** The second critical section of `GotPdu`. */
    method TakeCaller(xid: nat) returns (c: CallerCell?)
      requires Valid()
      modifies `callers
      ensures Valid() && Abs() == RemoveCaller(old(Abs()), xid)
      ensures if Listed(old(Abs()), xid) then c != null && Made(c) && c.xid == xid
              else c == null && callers == old(callers)
    {
      if xid !in callers {
        return null;
      }
      c := callers[xid];
      callers := callers - {xid};
    }

    /** A caller that was `caller` has been told of the reply: one that carries a value runs its
        callback, none is told twice, and only a good answer to a bind opens the client. */
    ghost predicate Told(caller: Caller, before: Client, rep: Reply)
      reads this
    {
      && log == before.log + (if caller.done then []
                              else if rep.value.Some? then [Fired(rep.xid, rep.err, rep.value)]
                              else [Lost(rep.xid, rep.err)])
      && (bindDone, srvNonce) ==
         if !caller.done && caller.proc == BIND && rep.err == OK && rep.value.Some?
         then (true, rep.value.value) else (before.bindDone, before.srvNonce)
    }

    /** The third, and the callback. */
    method CompleteCaller(c: CallerCell, rep: Reply)
      requires Valid() && Made(c) && c.xid == rep.xid && c.xid !in callers
      modifies this, c
      ensures Valid() && made == old(made) && callers == old(callers) && received == old(received)
      ensures Abs() == HandOver(old(Abs()), rep)
      ensures c.done && Told(old(c.Value()), old(Abs()), rep)
    {
      if !c.done {
        EndCaller(c, if rep.value.Some? then Fired(rep.xid, rep.err, rep.value) else Lost(rep.xid, rep.err));
      }
    }

    method MarkDone(c: CallerCell)
      requires Valid() && Made(c)
      modifies c
      ensures c.done && Callers() == old(Callers())[c.xid := old(c.Value()).(done := true)]
    {
      ghost var before := Callers();
      c.done := true;
      assert Callers() == before[c.xid := c.Value()];
    }

    method EndCaller(c: CallerCell, d: Completion)
      requires Valid() && Made(c)
      modifies this, c
      ensures Valid() && made == old(made) && callers == old(callers) && received == old(received)
      ensures Abs() == EndCall(old(Abs()), c.xid, d) && c.done && log == old(log) + [d]
      ensures (bindDone, srvNonce) == if c.proc == BIND && d.Fired? && d.err == OK && d.value.Some?
                                      then (true, d.value.value) else old((bindDone, srvNonce))
    {
      MarkDone(c);
      Tell(c.proc, d);
    }

    /** A caller is told how its call ended; extracting a value that is missing throws before
        the callback. The part of a callback that belongs to the client is what `Bind` passes to
        `Call`. */
    method Tell(proc: nat, d: Completion)
      modifies `srvNonce, `bindDone, `log
      ensures Abs() == Complete(old(Abs()), proc, d) && log == old(log) + [d]
      ensures (bindDone, srvNonce) == if proc == BIND && d.Fired? && d.err == OK && d.value.Some?
                                      then (true, d.value.value) else old((bindDone, srvNonce))
    {
      log := log + [d];
      if proc == BIND && d.Fired? && d.err == OK && d.value.Some? {
        srvNonce := d.value.value;
        bindDone := true;
      }
    }

    method OnTimerExpired(c: CallerCell?) returns (resend: Option<Request>)
      requires Valid() && (c != null ==> Made(c))
      modifies this, c
      ensures Valid() && made == old(made)
      ensures if c == null then Abs() == old(Abs()) && resend == None
              else (Abs(), resend) == TimerExpired(old(Abs()), c.xid)
      ensures c != null ==>
                && resend == (if !old(c.done) && nonce > 0 then old(c.buf) else None)
                && c.done == (old(c.done) || nonce == 0)
                && log == old(log) + if !old(c.done) && nonce == 0 then [Fired(c.xid, TIMEOUT_FAILURE, None)] else []
      ensures (bindDone, srvNonce) == old((bindDone, srvNonce))
    {
      resend := None;
      if c == null {
        return;
      }
      if !c.done {
        if nonce == 0 {
          EndCaller(c, Fired(c.xid, TIMEOUT_FAILURE, None));
        } else {
          resend := c.buf;
        }
      }
    }

    method OnSendFinished(xid: nat, e: Err) returns (resend: Option<Request>)
      requires Valid()
      modifies this, made.Values
      ensures Valid() && made == old(made)
      ensures var (found, sent) := SendFinished(old(Abs()), xid, e);
              && resend == sent
              && Abs() == if nonce == 0 && e != OK && Listed(old(Abs()), xid)
                          then TellSendError(found, xid, e) else found
      ensures var failed := e != OK && xid in old(callers);
              && resend == (if failed && nonce > 0 then old(callers[xid].buf) else None)
              && log == old(log) + (if failed && nonce == 0 then [Fired(xid, e, None)] else [])
      ensures (bindDone, srvNonce) == old((bindDone, srvNonce))
    {
      var c;
      c, resend := FindFailed(xid, e);
      if c != null && nonce == 0 {
        TellError(c, e);
      }
    }

    /** The first critical section of `OnSendFinished`. */
    method FindFailed(xid: nat, e: Err) returns (c: CallerCell?, resend: Option<Request>)
      requires Valid()
      modifies `failing
      ensures Valid() && (Abs(), resend) == SendFinished(old(Abs()), xid, e)
      ensures resend == if e != OK && xid in callers && nonce > 0 then callers[xid].buf else None
      ensures if e != OK && Listed(old(Abs()), xid) then c != null && Made(c) && c.xid == xid else c == null
    {
      if e == OK || xid !in callers {
        return null, None;
      }
      c, resend := callers[xid], None;
      if nonce > 0 {
        resend := c.buf;
      } else {
        failing := failing + multiset{SendError(xid, e)};
      }
    }

    /** The second, and the callback: the caller may be done by now, or off the table. */
    method TellError(c: CallerCell, e: Err)
      requires Valid() && Made(c)
      modifies this, c
      ensures Valid() && made == old(made) && Abs() == TellSendError(old(Abs()), c.xid, e)
      ensures c.done && log == old(log) + [Fired(c.xid, e, None)]
      ensures (bindDone, srvNonce) == old((bindDone, srvNonce))
    {
      failing := failing - multiset{SendError(c.xid, e)};
      EndCaller(c, Fired(c.xid, e, None));
    }

    method UpdateXidRep(xid: nat)
      requires Sorted(window)
      modifies `window, `received
      ensures window == Record(old(window), xid) && Sorted(window)
      ensures received == old(received) + {xid}
    {
      received := received + {xid};
      if window != [] && xid <= window[0] {
        return;
      }
      var it := 0;
      while it < |window|
        invariant 0 <= it <= |window| && window == old(window)
        invariant forall i :: 0 <= i < it ==> window[i] <= xid
      {
        if window[it] > xid {
          break;
        }
        it := it + 1;
      }
      InsertionPointIs(window, xid, it);
      InsertSorted(window, xid);
      CompressMembers(Insert(window, xid));
      window := window[..it] + [xid] + window[it..];
      ghost var pops := CompressWindow();
    }

    /** `pops` records where the iterator stood at each pop of the front: never at the front,
        and inside the list as it was at that moment, so the iterator stays valid. */
    method CompressWindow() returns (ghost pops: seq<nat>)
      requires window != [] && Sorted(window)
      modifies `window
      ensures window == Compress(old(window)) && |window| + |pops| == |old(window)|
      ensures forall k :: 0 <= k < |pops| ==> 0 < pops[k] < |old(window)| - k
    {
      pops := [];
      var it := 1;
      while it < |window|
        invariant 1 <= it <= |window| && Sorted(window)
        invariant Compress(window) == Compress(old(window)) && |window| + |pops| == |old(window)|
        invariant forall i :: 0 <= i < it ==> window[i] != window[0] + 1
        invariant forall k :: 0 <= k < |pops| ==> 0 < pops[k] < |old(window)| - k
        decreases |window| - it
      {
        ghost var left := |window| - it;
        while window[0] + 1 == window[it]
          invariant 0 <= it < |window| && Sorted(window) && left == |window| - it
          invariant Compress(window) == Compress(old(window)) && |window| + |pops| == |old(window)|
          invariant forall i :: 0 <= i < it ==> window[i] != window[0] + 1
          invariant forall k :: 0 <= k < |pops| ==> 0 < pops[k] < |old(window)| - k
          decreases it
        {
          PopFront(window, it);
          pops := pops + [it];
          window, it := window[1..], it - 1;
        }
        it := it + 1;
      }
      Settled(window);
    }
  }

  lemma InsertionPointIs(w: seq<nat>, xid: nat, p: nat)
    requires p <= |w| && (forall i :: 0 <= i < p ==> w[i] <= xid) && (p < |w| ==> w[p] > xid)
    ensures InsertionPoint(w, xid) == p
  {
    var q := InsertionPoint(w, xid);
  }

  /** Popping the front, when its successor is in the list, does not change the result. */
  lemma PopFront(w: seq<nat>, it: nat)
    requires Sorted(w) && 0 < it < |w| && w[it] == w[0] + 1
    ensures w[1] == w[0] || w[1] == w[0] + 1
    ensures Compress(w[1..]) == Compress(w)
  {
    var t := w[1..];
    assert w[0] <= w[1] && (it > 1 ==> w[1] <= w[it]);
    if w[1] == w[0] {
      var k := CompressShape(t);
      assert t[it - 1] == t[0] + 1;
    }
  }

  /** A front without a successor stays. */
  lemma {:induction false} Settled(w: seq<nat>)
    requires Sorted(w) && w != [] && forall i :: 0 <= i < |w| ==> w[i] != w[0] + 1
    ensures Compress(w) == w
    decreases |w|
  {
    if |w| > 1 && w[1] == w[0] {
      assert forall i :: 0 <= i < |w[1..]| ==> w[1..][i] == w[i + 1];
      Settled(w[1..]);
    }
  }
}
