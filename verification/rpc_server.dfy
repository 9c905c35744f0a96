/** The server (src/rpc/rpc_server.cpp): its two tables, updated in place by list loops, and
    one run of `Dispatch`. */
module RpcServer {
  import opened Wrappers
  import opened Rpc
  import opened ReplyWindow

  /** What one dispatch did: whether it called the handler, and what it sent. */
  datatype Dispatched =
    | Aborted(ran: bool)
    | Answered(ran: bool, reply: Reply)
    | Silent

  /** What the registered handler does if it is called: extracting its arguments may throw. */
  datatype Handled =
    | Returns(err: Err, value: Value)
    | Throws

  /** `Dispatch` on one client's slot, when nothing else runs in between. */
  function DispatchOne(s: Slot, nonce: nat, procs: set<nat>, h: Request, out: Handled): (Slot, Dispatched) {
    if h.srvNonce != 0 && h.srvNonce != nonce then (s, Answered(false, Reply(h.xid, OLDSERVER_FAILURE, None)))
    else if h.proc !in procs then (s, Aborted(false))
    else if h.cltNonce == 0 then
      (s, if out.Throws? then Aborted(false) else Answered(true, ReplyTo(h, out)))
    else
      var (t, state) := Check(s, h.xid, h.xidRep);
      match state
      case NEW =>
        if out.Throws? then (t, Aborted(false))
        else
          (match Store(t.entries, h.xid, ReplyTo(h, out))
           case None => (t, Aborted(true))
           case Some(es) => (t.(entries := es), Answered(true, ReplyTo(h, out))))
      case INPROGRESS => (t, Silent)
      case DONE(r) => (t, Answered(false, r))
      case FORGOTTEN => (t, Answered(false, Reply(h.xid, ATMOST_ONCE_FAILURE, None)))
  }

  function ReplyTo(h: Request, out: Handled): Reply
    requires out.Returns?
  {
    Reply(h.xid, out.err, Some(out.value))
  }

  // ---------- The list loops, one step at a time ----------

  ghost predicate ScannedTo(rw: seq<Entry>, it: nat, xid: nat)
    requires it <= |rw|
  {
    Scan(rw, xid) == (rw[..it] + Scan(rw[it..], xid).0, Scan(rw[it..], xid).1)
  }

  lemma ScanFinish(rw: seq<Entry>, it: nat, xid: nat)
    requires it < |rw| && ScannedTo(rw, it, xid)
    ensures rw[it].xid == xid ==>
      Scan(rw, xid) == (rw, if rw[it].stored.Some? then DONE(rw[it].stored.value) else INPROGRESS)
    ensures rw[it].xid > xid ==> Scan(rw, xid) == (rw[..it] + [Entry(xid, None)] + rw[it..], NEW)
    ensures rw[it].xid < xid ==> ScannedTo(rw, it + 1, xid)
  {
    if rw[it].xid == xid {
      assert rw == rw[..it] + rw[it..];
    } else if rw[it].xid > xid {
      assert rw[..it] + [Entry(xid, None)] + rw[it..] == rw[..it] + ([Entry(xid, None)] + rw[it..]);
    } else {
      var rest := Scan(rw[it + 1..], xid).0;
      assert rw[it..][1..] == rw[it + 1..];
      assert rw[..it] + ([rw[it]] + rest) == rw[..it + 1] + rest;
    }
  }

  lemma ScanEnd(rw: seq<Entry>, xid: nat)
    requires ScannedTo(rw, |rw|, xid)
    ensures Scan(rw, xid) == (rw + [Entry(xid, None)], NEW)
  {
    assert rw[..|rw|] == rw && rw[|rw|..] == [];
  }

  ghost predicate StoredTo(rw: seq<Entry>, i: nat, xid: nat, reply: Reply)
    requires i <= |rw|
  {
    match Store(rw[i..], xid, reply)
    case None => Store(rw, xid, reply) == None
    case Some(es) => Store(rw, xid, reply) == Some(rw[..i] + es)
  }

  lemma StoreFinish(rw: seq<Entry>, i: nat, xid: nat, reply: Reply)
    requires i < |rw| && StoredTo(rw, i, xid, reply)
    ensures rw[i].xid == xid ==> Store(rw, xid, reply) == Some(rw[i := Entry(xid, Some(reply))])
    ensures rw[i].xid != xid ==> StoredTo(rw, i + 1, xid, reply)
  {
    assert rw[i..][1..] == rw[i + 1..];
    if rw[i].xid == xid {
      assert rw[i := Entry(xid, Some(reply))] == rw[..i] + ([Entry(xid, Some(reply))] + rw[i + 1..]);
    } else if Store(rw[i + 1..], xid, reply).Some? {
      var es := Store(rw[i + 1..], xid, reply).value;
      assert rw[..i] + ([rw[i]] + es) == rw[..i + 1] + es;
    }
  }

  class Server {
    const nonce: nat
    var procs: set<nat>
    var replyWindow: map<nat, seq<Entry>>
    var maxAcknowledged: map<nat, nat>

    constructor (nonce: nat)
      ensures this.nonce == nonce && procs == {BIND}
      ensures forall n :: SlotOf(n) == NO_SLOT
    {
      this.nonce := nonce;
      procs := {BIND};
      replyWindow := map[];
      maxAcknowledged := map[];
    }

    /** A missing key reads as the default value, as `operator[]` of the tables does. */
    function SlotOf(clt: nat): Slot
      reads this
    {
      Slot(if clt in replyWindow then replyWindow[clt] else [],
           if clt in maxAcknowledged then maxAcknowledged[clt] else 0)
    }

    method Register(proc: nat)
      requires proc !in procs
      modifies `procs
      ensures procs == old(procs) + {proc}
    {
      procs := procs + {proc};
    }

    method CheckDuplicateAndUpdate(clt: nat, xid: nat, xidRep: nat) returns (state: State)
      modifies `replyWindow, `maxAcknowledged
      ensures (SlotOf(clt), state) == Check(old(SlotOf(clt)), xid, xidRep)
      ensures forall n :: n != clt ==> SlotOf(n) == old(SlotOf(n))
    {
      var ack := if clt in maxAcknowledged then maxAcknowledged[clt] else 0;
      maxAcknowledged := maxAcknowledged[clt := if xidRep > ack then xidRep else ack];
      ack := maxAcknowledged[clt];

      if xid <= ack {
        state := FORGOTTEN;
      } else {
        state := FindOrInsert(clt, xid);
      }
      TrimWindow(clt);
    }

    /** The scan of the remembered requests. */
    method FindOrInsert(clt: nat, xid: nat) returns (state: State)
      modifies `replyWindow
      ensures var (entries, s) := Scan(old(SlotOf(clt)).entries, xid);
              SlotOf(clt) == Slot(entries, old(SlotOf(clt)).ack) && state == s
      ensures forall n :: n != clt ==> SlotOf(n) == old(SlotOf(n))
    {
      var rw := if clt in replyWindow then replyWindow[clt] else [];
      rw, state := ScanWindow(rw, xid);
      replyWindow := replyWindow[clt := rw];
    }

    /** The loop over `rep_window`: the list afterwards, and the answer. */
    static method ScanWindow(rw: seq<Entry>, xid: nat) returns (entries: seq<Entry>, state: State)
      ensures (entries, state) == Scan(rw, xid)
    {
      var it := 0;
      assert rw[0..] == rw && [] + Scan(rw, xid).0 == Scan(rw, xid).0;
      while it < |rw|
        invariant 0 <= it <= |rw| && ScannedTo(rw, it, xid)
      {
        ScanFinish(rw, it, xid);
        if rw[it].xid == xid {
          return rw, if rw[it].stored.Some? then DONE(rw[it].stored.value) else INPROGRESS;
        }
        if rw[it].xid > xid {
          return rw[..it] + [Entry(xid, None)] + rw[it..], NEW;
        }
        it := it + 1;
      }
      ScanEnd(rw, xid);
      return rw + [Entry(xid, None)], NEW;
    }

    /** The scope guard: erases acknowledged entries from the front. */
    method TrimWindow(clt: nat)
      modifies `replyWindow
      ensures SlotOf(clt) == Slot(Trim(old(SlotOf(clt)).entries, SlotOf(clt).ack), old(SlotOf(clt)).ack)
      ensures forall n :: n != clt ==> SlotOf(n) == old(SlotOf(n))
    {
      var rw := if clt in replyWindow then replyWindow[clt] else [];
      var ack := if clt in maxAcknowledged then maxAcknowledged[clt] else 0;
      ghost var all := rw;
      while rw != [] && rw[0].xid <= ack
        invariant Trim(all, ack) == Trim(rw, ack)
        decreases |rw|
      {
        rw := rw[1..];
      }
      replyWindow := replyWindow[clt := rw];
    }

    /** `false` stands for either of the two throws. */
    method AddReply(clt: nat, xid: nat, reply: Reply) returns (ok: bool)
      modifies `replyWindow
      ensures match Store(old(SlotOf(clt)).entries, xid, reply)
              case None => !ok && SlotOf(clt) == old(SlotOf(clt))
              case Some(es) => ok && SlotOf(clt) == old(SlotOf(clt)).(entries := es)
      ensures forall n :: n != clt ==> SlotOf(n) == old(SlotOf(n))
    {
      if clt !in replyWindow {
        return false;
      }
      var rw := replyWindow[clt];
      var i := 0;
      assert rw[0..] == rw && forall es: seq<Entry> :: [] + es == es;
      while i < |rw|
        invariant 0 <= i <= |rw|
        invariant replyWindow == old(replyWindow) && StoredTo(rw, i, xid, reply)
      {
        StoreFinish(rw, i, xid, reply);
        if rw[i].xid == xid {
          replyWindow := replyWindow[clt := rw[i := Entry(xid, Some(reply))]];
          return true;
        }
        i := i + 1;
      }
      return false;
    }

    /** The client is bound to an earlier instance of the server. */
    predicate OtherInstance(h: Request) {
      h.srvNonce !in {0, nonce}
    }

    method Dispatch(h: Request, out: Handled) returns (d: Dispatched)
      modifies `replyWindow, `maxAcknowledged
      ensures (SlotOf(h.cltNonce), d) == DispatchOne(old(SlotOf(h.cltNonce)), nonce, procs, h, out)
      ensures forall n :: n != h.cltNonce ==> SlotOf(n) == old(SlotOf(n))
      ensures OtherInstance(h) ==> d == Answered(false, Reply(h.xid, OLDSERVER_FAILURE, None))
      ensures !OtherInstance(h) && h.proc !in procs ==> d == Aborted(false)
      ensures !OtherInstance(h) && h.proc in procs && h.cltNonce == 0 ==>
                d == match out
                     case Throws => Aborted(false)
                     case Returns(err, value) => Answered(true, Reply(h.xid, err, Some(value)))
      ensures OtherInstance(h) || h.proc !in procs || h.cltNonce == 0 ==>
                replyWindow == old(replyWindow) && maxAcknowledged == old(maxAcknowledged)
    {
      if h.srvNonce != 0 && h.srvNonce != nonce {
        return Answered(false, Reply(h.xid, OLDSERVER_FAILURE, None));
      }
      if h.proc !in procs {
        return Aborted(false);
      }
      var state := NEW;
      if h.cltNonce > 0 {
        if h.cltNonce !in replyWindow {
          replyWindow := replyWindow[h.cltNonce := []];
        }
        state := CheckDuplicateAndUpdate(h.cltNonce, h.xid, h.xidRep);
      }
      match state {
        case NEW =>
          if out.Throws? {
            return Aborted(false);
          }
          var rep := ReplyTo(h, out);
          if h.cltNonce > 0 {
            var ok := AddReply(h.cltNonce, h.xid, rep);
            if !ok {
              return Aborted(true);
            }
          }
          return Answered(true, rep);
        case INPROGRESS =>
          return Silent;
        case DONE(r) =>
          return Answered(false, r);
        case FORGOTTEN =>
          return Answered(false, Reply(h.xid, ATMOST_ONCE_FAILURE, None));
      }
    }
  }

  /** What a dispatch for a client with a nonce answers and remembers: `found` is what the slot
      remembers of this xid, and `y` stands for every xid. */
  lemma DispatchMeans(s: Slot, nonce: nat, procs: set<nat>, h: Request, out: Handled, y: nat)
    requires Above(s.entries, s.ack)
    requires h.cltNonce > 0 && h.proc in procs && (h.srvNonce == 0 || h.srvNonce == nonce)
    ensures var (t, d) := DispatchOne(s, nonce, procs, h, out);
            var found := Lookup(s.entries, h.xid);
            var answer := match out
                          case Throws => None
                          case Returns(err, value) => Some(Reply(h.xid, err, Some(value)));
            && t.ack == (if s.ack < h.xidRep then h.xidRep else s.ack) && Above(t.entries, t.ack)
            && d == (if h.xid <= t.ack then Answered(false, Reply(h.xid, ATMOST_ONCE_FAILURE, None))
                     else if found == Some(None) then Silent
                     else if found.Some? then Answered(false, found.value.value)
                     else if answer == None then Aborted(false)
                     else Answered(true, answer.value))
            && Lookup(t.entries, y) == (if y <= t.ack then None
                                        else if y == h.xid && found == None then Some(answer)
                                        else Lookup(s.entries, y))
  {
    var (t, state) := Check(s, h.xid, h.xidRep);
    CheckLookup(s, h.xid, h.xidRep, h.xid);
    CheckLookup(s, h.xid, h.xidRep, y);
    if state == NEW && out.Returns? {
      StoreLookup(t.entries, t.ack, h.xid, ReplyTo(h, out), y);
      StoreLookup(t.entries, t.ack, h.xid, ReplyTo(h, out), h.xid);
    }
  }

  /** One undisturbed dispatch of a registered procedure throws only when its handler does; a
      repeat of the same request changes nothing and does not call the handler: it is answered
      with the same reply, or, after a handler that threw, not at all. */
  lemma RepeatIsAnsweredFromMemory(s: Slot, nonce: nat, procs: set<nat>, h: Request, out: Handled, out': Handled)
    requires Above(s.entries, s.ack)
    requires h.cltNonce > 0 && h.proc in procs && (h.srvNonce == 0 || h.srvNonce == nonce)
    ensures var (t, d) := DispatchOne(s, nonce, procs, h, out);
            var (u, d') := DispatchOne(t, nonce, procs, h, out');
            && u == t && (d.Aborted? ==> out.Throws? && Check(s, h.xid, h.xidRep).1 == NEW)
            && (if d.Answered? then d' == Answered(false, d.reply) else d' == Silent)
            && (d.Answered? && d.ran ==> out.Returns? && d.reply == ReplyTo(h, out))
  {
    var (t, state) := Check(s, h.xid, h.xidRep);
    CheckLookup(s, h.xid, h.xidRep, h.xid);
    var u := t;
    if state == NEW && out.Returns? {
      StoreLookup(t.entries, t.ack, h.xid, ReplyTo(h, out), h.xid);
      u := t.(entries := Store(t.entries, h.xid, ReplyTo(h, out)).value);
    }
    CheckLookup(u, h.xid, h.xidRep, h.xid);
    CheckAgain(u, h.xid, h.xidRep);
  }

  /** Checking a remembered or forgotten request again changes nothing. */
  lemma CheckAgain(s: Slot, xid: nat, xidRep: nat)
    requires Above(s.entries, s.ack) && xidRep <= s.ack
    requires xid <= s.ack || Lookup(s.entries, xid).Some?
    ensures Check(s, xid, xidRep).0 == s
  {
    if xid > s.ack { ScanFound(s.entries, xid, s.ack); }
  }

  lemma {:induction false} ScanFound(es: seq<Entry>, xid: nat, low: nat)
    requires Above(es, low) && Lookup(es, xid).Some?
    ensures Scan(es, xid).0 == es && es != []
  {
    if es[0].xid != xid {
      if es[0].xid > xid { LookupLow(es[1..], es[0].xid, xid); }
      ScanFound(es[1..], xid, es[0].xid);
    }
  }
}
