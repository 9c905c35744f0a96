/** What the server remembers about one client (src/rpc/rpc_server.cpp:135-197): the sorted
    list of replies it still holds and the highest acknowledgement it has seen. The trimmed
    list is shown to answer every request as a history that is never trimmed would. */
module ReplyWindow {
  import opened Wrappers
  import opened Rpc

  /** `stored` is `None` while the handler of the request is still running. */
  datatype Entry = Entry(xid: nat, stored: Option<Reply>)

  datatype Slot = Slot(entries: seq<Entry>, ack: nat)

  const NO_SLOT := Slot([], 0)

  datatype State = NEW | INPROGRESS | DONE(reply: Reply) | FORGOTTEN

  function Max(a: nat, b: nat): nat { if a < b then b else a }

  /** Drops acknowledged entries from the front, up to the first that is not. */
  function Trim(es: seq<Entry>, ack: nat): seq<Entry> {
    if es == [] || es[0].xid > ack then es else Trim(es[1..], ack)
  }

  /** Looks for `xid`, and inserts an in-progress entry in its place if it is missing. */
  function Scan(es: seq<Entry>, xid: nat): (seq<Entry>, State) {
    if es == [] then ([Entry(xid, None)], NEW)
    else if es[0].xid == xid then (es, if es[0].stored.Some? then DONE(es[0].stored.value) else INPROGRESS)
    else if es[0].xid > xid then ([Entry(xid, None)] + es, NEW)
    else
      var (rest, state) := Scan(es[1..], xid);
      ([es[0]] + rest, state)
  }

  /** `CheckDuplicateAndUpdate` for one client. */
  function Check(s: Slot, xid: nat, xidRep: nat): (Slot, State) {
    var ack := Max(s.ack, xidRep);
    if xid <= ack then (Slot(Trim(s.entries, ack), ack), FORGOTTEN)
    else
      var (entries, state) := Scan(s.entries, xid);
      (Slot(Trim(entries, ack), ack), state)
  }

  /** `AddReply` for one client; `None` stands for its throw. */
  function Store(es: seq<Entry>, xid: nat, reply: Reply): Option<seq<Entry>> {
    if es == [] then None
    else if es[0].xid == xid then Some([Entry(xid, Some(reply))] + es[1..])
    else
      match Store(es[1..], xid, reply)
      case None => None
      case Some(rest) => Some([es[0]] + rest)
  }

  // ---------- What a list of entries holds ----------

  /** Strictly ascending, and wholly above `low`. */
  ghost predicate Above(es: seq<Entry>, low: nat) {
    es != [] ==> low < es[0].xid && Above(es[1..], es[0].xid)
  }

  /** The entry for `xid`: missing, in progress, or with a stored reply. */
  ghost function Lookup(es: seq<Entry>, xid: nat): Option<Option<Reply>> {
    if es == [] then None else if es[0].xid == xid then Some(es[0].stored) else Lookup(es[1..], xid)
  }

  lemma {:induction false} LookupLow(es: seq<Entry>, low: nat, xid: nat)
    requires Above(es, low) && xid <= low
    ensures Lookup(es, xid) == None
  {
    if es != [] { LookupLow(es[1..], es[0].xid, xid); }
  }

  lemma {:induction false} TrimAbove(es: seq<Entry>, low: nat, ack: nat)
    requires Above(es, low)
    ensures Above(Trim(es, ack), Max(low, ack))
  {
    if es != [] && es[0].xid <= ack { TrimAbove(es[1..], es[0].xid, ack); }
  }

  /** Trimming forgets the acknowledged entries and nothing else. */
  lemma {:induction false} TrimLookup(es: seq<Entry>, low: nat, ack: nat, xid: nat)
    requires Above(es, low)
    ensures Lookup(Trim(es, ack), xid) == if xid <= ack then None else Lookup(es, xid)
  {
    if es != [] {
      if es[0].xid <= ack {
        TrimLookup(es[1..], es[0].xid, ack, xid);
      } else if xid <= ack {
        LookupLow(es[1..], es[0].xid, xid);
      }
    }
  }

  lemma {:induction false} ScanAbove(es: seq<Entry>, low: nat, xid: nat)
    requires Above(es, low) && low < xid
    ensures Above(Scan(es, xid).0, low)
  {
    if es != [] && es[0].xid < xid {
      ScanAbove(es[1..], es[0].xid, xid);
      var rest := Scan(es[1..], xid).0;
      assert ([es[0]] + rest)[1..] == rest;
    } else {
      assert ([Entry(xid, None)] + es)[1..] == es;
    }
  }

  ghost function StateOf(found: Option<Option<Reply>>): State {
    match found
    case None => NEW
    case Some(None) => INPROGRESS
    case Some(Some(r)) => DONE(r)
  }

  /** The scan answers by what the list held, and adds an entry for a new xid only. */
  lemma {:induction false} ScanLookup(es: seq<Entry>, low: nat, xid: nat, y: nat)
    requires Above(es, low)
    ensures Scan(es, xid).1 == StateOf(Lookup(es, xid))
    ensures Lookup(Scan(es, xid).0, y) ==
            if y == xid && Lookup(es, xid) == None then Some(None) else Lookup(es, y)
  {
    if es == [] {
    } else if es[0].xid == xid {
    } else if es[0].xid > xid {
      LookupLow(es[1..], es[0].xid, xid);
      assert ([Entry(xid, None)] + es)[1..] == es;
    } else {
      ScanLookup(es[1..], es[0].xid, xid, y);
      var rest := Scan(es[1..], xid).0;
      assert ([es[0]] + rest)[1..] == rest;
    }
  }

  lemma {:induction false} StoreLookup(es: seq<Entry>, low: nat, xid: nat, reply: Reply, y: nat)
    requires Above(es, low)
    ensures Store(es, xid, reply).Some? <==> Lookup(es, xid).Some?
    ensures Store(es, xid, reply).Some? ==>
              && Above(Store(es, xid, reply).value, low)
              && Lookup(Store(es, xid, reply).value, y) == if y == xid then Some(Some(reply)) else Lookup(es, y)
  {
    if es == [] {
    } else if es[0].xid == xid {
      assert ([Entry(xid, Some(reply))] + es[1..])[1..] == es[1..];
    } else {
      StoreLookup(es[1..], es[0].xid, xid, reply, y);
      if Lookup(es[1..], xid).Some? {
        var rest := Store(es[1..], xid, reply).value;
        assert ([es[0]] + rest)[1..] == rest;
      }
    }
  }

  /** `Check` in terms of lookups, for any two xids. */
  lemma CheckLookup(s: Slot, xid: nat, xidRep: nat, y: nat)
    requires Above(s.entries, s.ack)
    ensures var (t, state) := Check(s, xid, xidRep);
            && t.ack == Max(s.ack, xidRep) && Above(t.entries, t.ack)
            && (state == FORGOTTEN <==> xid <= t.ack)
            && (xid > t.ack ==> state == StateOf(Lookup(s.entries, xid)))
            && Lookup(t.entries, y) ==
              if y <= t.ack then None else if y == xid && state == NEW then Some(None) else Lookup(s.entries, y)
  {
    var ack := Max(s.ack, xidRep);
    if xid <= ack {
      TrimAbove(s.entries, s.ack, ack);
      TrimLookup(s.entries, s.ack, ack, y);
    } else {
      ScanAbove(s.entries, s.ack, xid);
      ScanLookup(s.entries, s.ack, xid, y);
      TrimAbove(Scan(s.entries, xid).0, s.ack, ack);
      TrimLookup(Scan(s.entries, xid).0, s.ack, ack, y);
    }
  }

  // ---------- The history that is never trimmed ----------

  datatype History = History(seen: map<nat, Option<Reply>>, maxAck: nat)

  const NO_HISTORY := History(map[], 0)

  function HistoryCheck(h: History, xid: nat, xidRep: nat): (History, State) {
    var ack := Max(h.maxAck, xidRep);
    if xid <= ack then (h.(maxAck := ack), FORGOTTEN)
    else if xid !in h.seen then (History(h.seen[xid := None], ack), NEW)
    else (h.(maxAck := ack), match h.seen[xid] case None => INPROGRESS case Some(r) => DONE(r))
  }

  function HistoryStore(h: History, xid: nat, reply: Reply): (History, bool) {
    if xid in h.seen && h.maxAck < xid then (h.(seen := h.seen[xid := Some(reply)]), true) else (h, false)
  }

  ghost function HistoryLookup(h: History, xid: nat): Option<Option<Reply>> {
    if xid in h.seen && xid > h.maxAck then Some(h.seen[xid]) else None
  }

  /** The slot holds, in order, exactly the part of the history above the watermark. */
  ghost predicate Refines(s: Slot, h: History) {
    && s.ack == h.maxAck
    && Above(s.entries, s.ack)
    && forall x :: Lookup(s.entries, x) == HistoryLookup(h, x)
  }

  lemma CheckRefines(s: Slot, h: History, xid: nat, xidRep: nat)
    requires Refines(s, h)
    ensures Refines(Check(s, xid, xidRep).0, HistoryCheck(h, xid, xidRep).0)
    ensures Check(s, xid, xidRep).1 == HistoryCheck(h, xid, xidRep).1
  {
    var t, k := Check(s, xid, xidRep).0, HistoryCheck(h, xid, xidRep).0;
    CheckLookup(s, xid, xidRep, xid);
    assert Lookup(s.entries, xid) == HistoryLookup(h, xid);
    forall x ensures Lookup(t.entries, x) == HistoryLookup(k, x) {
      CheckLookup(s, xid, xidRep, x);
      assert Lookup(s.entries, x) == HistoryLookup(h, x);
    }
  }

  lemma StoreRefines(s: Slot, h: History, xid: nat, reply: Reply)
    requires Refines(s, h)
    ensures Store(s.entries, xid, reply).Some? <==> HistoryStore(h, xid, reply).1
    ensures match Store(s.entries, xid, reply)
            case None => HistoryStore(h, xid, reply).0 == h
            case Some(es) => Refines(s.(entries := es), HistoryStore(h, xid, reply).0)
  {
    StoreLookup(s.entries, s.ack, xid, reply, xid);
    assert Lookup(s.entries, xid) == HistoryLookup(h, xid);
    if Store(s.entries, xid, reply).Some? {
      forall x
        ensures Lookup(Store(s.entries, xid, reply).value, x) == HistoryLookup(HistoryStore(h, xid, reply).0, x) {
        StoreLookup(s.entries, s.ack, xid, reply, x);
        assert Lookup(s.entries, x) == HistoryLookup(h, x);
      }
    }
  }

  // ---------- Sequences of operations by any number of clients ----------

  /** What one critical section of the server does, with nothing assumed about the numbers a
      client sends. */
  datatype Operation =
    | CheckOp(nonce: nat, xid: nat, xidRep: nat)
    | StoreOp(nonce: nat, reply: Reply)

  datatype Outcome = Checked(state: State) | Stored | Threw

  type Slots = map<nat, Slot>
  type Histories = map<nat, History>

  function SlotAt(m: Slots, nonce: nat): Slot { if nonce in m then m[nonce] else NO_SLOT }
  function HistoryAt(m: Histories, nonce: nat): History { if nonce in m then m[nonce] else NO_HISTORY }

  function Perform(m: Slots, op: Operation): (Slots, Outcome) {
    var s := SlotAt(m, op.nonce);
    match op
    case CheckOp(n, xid, xidRep) =>
      var (t, state) := Check(s, xid, xidRep);
      (m[n := t], Checked(state))
    case StoreOp(n, reply) =>
      match Store(s.entries, reply.xid, reply)
      case None => (m, Threw)
      case Some(es) => (m[n := s.(entries := es)], Stored)
  }

  function PerformHistory(m: Histories, op: Operation): (Histories, Outcome) {
    var h := HistoryAt(m, op.nonce);
    match op
    case CheckOp(n, xid, xidRep) =>
      var (k, state) := HistoryCheck(h, xid, xidRep);
      (m[n := k], Checked(state))
    case StoreOp(n, reply) =>
      var (k, ok) := HistoryStore(h, reply.xid, reply);
      (m[n := k], if ok then Stored else Threw)
  }

  function RunOps(ops: seq<Operation>): (r: (Slots, seq<Outcome>))
    ensures |r.1| == |ops|
  {
    if ops == [] then (map[], [])
    else
      var (m, outs) := RunOps(ops[..|ops| - 1]);
      var (k, out) := Perform(m, ops[|ops| - 1]);
      (k, outs + [out])
  }

  function RunHistory(ops: seq<Operation>): (r: (Histories, seq<Outcome>))
    ensures |r.1| == |ops|
  {
    if ops == [] then (map[], [])
    else
      var (m, outs) := RunHistory(ops[..|ops| - 1]);
      var (k, out) := PerformHistory(m, ops[|ops| - 1]);
      (k, outs + [out])
  }

  /** Trimming is invisible: every operation of every sequence gets the answer that the
      never-trimmed history gives, and every list stays ascending above its watermark. */
  lemma {:induction false} TrimmedWindowRefinesHistory(ops: seq<Operation>)
    ensures RunOps(ops).1 == RunHistory(ops).1
    ensures forall n :: Refines(SlotAt(RunOps(ops).0, n), HistoryAt(RunHistory(ops).0, n))
  {
    if ops != [] {
      var op := ops[|ops| - 1];
      var before := ops[..|ops| - 1];
      TrimmedWindowRefinesHistory(before);
      var s, h := SlotAt(RunOps(before).0, op.nonce), HistoryAt(RunHistory(before).0, op.nonce);
      assert Refines(s, h);
      match op {
        case CheckOp(n, xid, xidRep) => CheckRefines(s, h, xid, xidRep);
        case StoreOp(n, reply) => StoreRefines(s, h, reply.xid, reply);
      }
      forall n ensures Refines(SlotAt(RunOps(ops).0, n), HistoryAt(RunHistory(ops).0, n)) {
        assert Refines(SlotAt(RunOps(before).0, n), HistoryAt(RunHistory(before).0, n));
      }
    }
  }

  /** Whatever a client sends later, an xid once seen stays in its history. */
  lemma {:induction false} SeenForever(ops: seq<Operation>, i: nat)
    requires i < |ops| && ops[i].CheckOp? && RunHistory(ops).1[i] == Checked(NEW)
    ensures ops[i].xid in HistoryAt(RunHistory(ops).0, ops[i].nonce).seen
  {
    var last := |ops| - 1;
    if i < last {
      assert RunHistory(ops).1[i] == RunHistory(ops[..last]).1[i];
      SeenForever(ops[..last], i);
    }
  }

  /** At-most-once without trusting the client: for every sequence of operations with
      arbitrary xids and acknowledgements, no request of a client is called new twice. */
  lemma {:induction false} NewAtMostOnce(ops: seq<Operation>, i: nat, j: nat)
    requires i < j < |ops| && ops[i].CheckOp? && ops[j].CheckOp?
    requires ops[i].nonce == ops[j].nonce && ops[i].xid == ops[j].xid
    requires RunOps(ops).1[i] == Checked(NEW)
    ensures RunOps(ops).1[j] != Checked(NEW)
  {
    TrimmedWindowRefinesHistory(ops);
    var last := |ops| - 1;
    var before := ops[..last];
    if j < last {
      assert RunOps(ops).1[i] == RunOps(before).1[i] && RunOps(ops).1[j] == RunOps(before).1[j];
      NewAtMostOnce(before, i, j);
    } else {
      assert RunHistory(ops).1[i] == RunHistory(before).1[i];
      SeenForever(before, i);
    }
  }

  /** FORGOTTEN means exactly that the client once acknowledged this xid or a later one. */
  ghost function MaxAcked(ops: seq<Operation>, nonce: nat): nat {
    if ops == [] then 0
    else
      var op := ops[|ops| - 1];
      var m := MaxAcked(ops[..|ops| - 1], nonce);
      if op.CheckOp? && op.nonce == nonce then Max(m, op.xidRep) else m
  }

  lemma {:induction false} WatermarkIsMaxAcked(ops: seq<Operation>, nonce: nat)
    ensures SlotAt(RunOps(ops).0, nonce).ack == MaxAcked(ops, nonce)
  {
    if ops != [] { WatermarkIsMaxAcked(ops[..|ops| - 1], nonce); }
  }

  lemma ForgottenIffAcknowledged(ops: seq<Operation>, j: nat)
    requires j < |ops| && ops[j].CheckOp?
    ensures RunOps(ops).1[j] == Checked(FORGOTTEN) <==> ops[j].xid <= MaxAcked(ops[..j + 1], ops[j].nonce)
  {
    OutcomePrefix(ops, j);
    var upTo := ops[..j + 1];
    WatermarkIsMaxAcked(upTo[..j], ops[j].nonce);
    TrimmedWindowRefinesHistory(upTo[..j]);
    assert Refines(SlotAt(RunOps(upTo[..j]).0, ops[j].nonce), HistoryAt(RunHistory(upTo[..j]).0, ops[j].nonce));
    CheckLookup(SlotAt(RunOps(upTo[..j]).0, ops[j].nonce), ops[j].xid, ops[j].xidRep, 0);
  }

  lemma {:induction false} OutcomePrefix(ops: seq<Operation>, j: nat)
    requires j < |ops|
    ensures RunOps(ops).1[j] == RunOps(ops[..j + 1]).1[j]
  {
    if j + 1 < |ops| {
      OutcomePrefix(ops[..|ops| - 1], j);
      assert ops[..|ops| - 1][..j + 1] == ops[..j + 1];
    } else {
      assert ops[..j + 1] == ops;
    }
  }
}
