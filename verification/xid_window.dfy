/** The client's compressed list of received xids, `xid_rep_window_`
    (src/rpc/rpc_client.cpp:259-281), as a function on lists, and what its front means. */
module XidWindow {

  ghost predicate Sorted(w: seq<nat>) {
    forall i, j :: 0 <= i < j < |w| ==> w[i] <= w[j]
  }

  /** The acknowledgement a request piggybacks. */
  function Front(w: seq<nat>): nat {
    if w == [] then 0 else w[0]
  }

  /** The first position whose element exceeds `xid`, or the length when there is none. */
  function InsertionPoint(w: seq<nat>, xid: nat): (p: nat)
    ensures p <= |w|
    ensures p < |w| ==> w[p] > xid
    ensures forall i :: 0 <= i < p ==> w[i] <= xid
  {
    if w == [] then 0 else if w[0] > xid then 0 else 1 + InsertionPoint(w[1..], xid)
  }

  /** Inserts before the first greater element. */
  function Insert(w: seq<nat>, xid: nat): seq<nat> {
    var p := InsertionPoint(w, xid);
    w[..p] + [xid] + w[p..]
  }

  /** Drops the front for as long as its successor is also in the (sorted) list. Copies of
      the front stay or go together. */
  function Compress(w: seq<nat>): seq<nat>
    decreases |w|
  {
    if |w| < 2 then w
    else if w[1] == w[0] + 1 then Compress(w[1..])
    else if w[1] == w[0] then (var c := Compress(w[1..]); if c != [] && c[0] == w[0] then w else c)
    else w
  }

  function Record(w: seq<nat>, xid: nat): seq<nat> {
    if w != [] && xid <= w[0] then w else Compress(Insert(w, xid))
  }

  function RecordAll(xids: seq<nat>): seq<nat> {
    if xids == [] then [] else Record(RecordAll(xids[..|xids| - 1]), xids[|xids| - 1])
  }

  /** `w` stands for the set `received` of xids, the first of which was `b`: its front is the
      largest k with b..k all received, and it holds exactly the received xids from k on. */
  ghost predicate Represents(w: seq<nat>, b: nat, received: set<nat>) {
    && Sorted(w)
    && w != []
    && b <= w[0]
    && (forall x :: b <= x <= w[0] ==> x in received)
    && w[0] + 1 !in received
    && (forall x :: x in w <==> x in received && w[0] <= x)
  }

  lemma InsertSorted(w: seq<nat>, xid: nat)
    requires Sorted(w)
    ensures Sorted(Insert(w, xid))
  {
    var p, r := InsertionPoint(w, xid), Insert(w, xid);
    forall i, j | 0 <= i < j < |r| ensures r[i] <= r[j] {
      assert i < p ==> r[i] == w[i];
      assert i > p ==> r[i] == w[i - 1];
      assert j < p ==> r[j] == w[j];
      assert j > p ==> r[j] == w[j - 1];
    }
  }

  lemma InsertMembers(w: seq<nat>, xid: nat)
    ensures forall x :: x in Insert(w, xid) <==> x in w || x == xid
    ensures w != [] && w[0] <= xid ==> Insert(w, xid)[0] == w[0]
  {
    var p := InsertionPoint(w, xid);
    assert w == w[..p] + w[p..];
  }

  /** `k` is a place for the compressed front: all before it is smaller, its successor is
      nowhere. */
  ghost predicate StopsAt(w: seq<nat>, k: nat) {
    && k < |w|
    && (forall i :: 0 <= i < k ==> w[i] < w[k])
    && (forall i :: 0 <= i < |w| ==> w[i] != w[k] + 1)
  }

  lemma StopsLater(w: seq<nat>, j: nat)
    requires Sorted(w) && |w| > 1 && StopsAt(w[1..], j) && w[0] < w[1..][j]
    ensures StopsAt(w, j + 1)
  {
    var t := w[1..];
    forall i | 0 <= i < |w| ensures (i < j + 1 ==> w[i] < w[j + 1]) && w[i] != w[j + 1] + 1 {
      if i > 0 { assert w[i] == t[i - 1]; }
    }
  }

  /** Compression drops a prefix of smaller elements and stops at a front whose successor
      is missing. */
  lemma {:induction false} CompressShape(w: seq<nat>) returns (k: nat)
    requires Sorted(w) && w != []
    ensures StopsAt(w, k) && Compress(w) == w[k..]
    decreases |w|
  {
    k := 0;
    if |w| > 1 && w[1] <= w[0] + 1 {
      var t := w[1..];
      var j := CompressShape(t);
      assert t[j..] == w[j + 1..] && t[0] <= t[j];
      if w[0] < t[j] {
        StopsLater(w, j);
        k := j + 1;
      } else {
        assert forall i :: 0 < i < |w| ==> w[i] == t[i - 1];
      }
    }
  }

  /** Compression walks over consecutive values only. */
  lemma {:induction false} CompressWalk(w: seq<nat>, x: nat)
    requires Sorted(w) && Compress(w) != [] && w != [] && w[0] <= x <= Compress(w)[0]
    ensures x in w
    decreases |w|
  {
    if |w| > 1 && w[1] <= w[0] + 1 && x != w[0] {
      CompressWalk(w[1..], x);
    }
  }

  lemma CompressMembers(w: seq<nat>)
    requires Sorted(w) && w != []
    ensures var c := Compress(w);
            && Sorted(c) && c != [] && w[0] <= c[0]
            && c[0] + 1 !in w
            && (forall x :: w[0] <= x <= c[0] ==> x in w)
            && (forall x :: x in c <==> x in w && c[0] <= x)
  {
    var k := CompressShape(w);
    var c := Compress(w);
    assert w[0] <= w[k] == c[0];
    forall x | w[0] <= x <= c[0] ensures x in w { CompressWalk(w, x); }
    forall x ensures x in c <==> x in w && c[0] <= x {
      if x in c {
        var i :| 0 <= i < |c| && c[i] == x;
        assert w[k + i] == x;
      }
    }
  }

  lemma RecordMembers(w: seq<nat>, xid: nat)
    requires Sorted(w) && w != [] && w[0] < xid
    ensures var c := Record(w, xid);
            && Sorted(c) && c != [] && w[0] <= c[0]
            && c[0] + 1 !in w && c[0] + 1 != xid
            && (c[0] in w || c[0] == xid)
            && (forall x :: w[0] <= x <= c[0] ==> x in w || x == xid)
            && (forall x :: x in c <==> (x in w || x == xid) && c[0] <= x)
  {
    InsertSorted(w, xid);
    InsertMembers(w, xid);
    CompressMembers(Insert(w, xid));
  }

  lemma RecordRepresents(w: seq<nat>, b: nat, received: set<nat>, xid: nat)
    requires Represents(w, b, received)
    ensures Represents(Record(w, xid), b, received + {xid})
    ensures Front(w) <= Front(Record(w, xid))
  {
    if w[0] < xid { RecordMembers(w, xid); }
    forall x ensures x in Record(w, xid) <==> x in received + {xid} && Record(w, xid)[0] <= x {
    }
  }

  lemma RecordFirst(xid: nat)
    ensures Represents(Record([], xid), xid, {xid})
  {
    assert Record([], xid) == [xid];
  }

  ghost function Elements(xids: seq<nat>): set<nat> {
    set x | x in xids
  }

  lemma ElementsMore(before: seq<nat>, xid: nat)
    ensures Elements(before + [xid]) == Elements(before) + {xid}
    ensures RecordAll(before + [xid]) == Record(RecordAll(before), xid)
  {
    assert (before + [xid])[..|before|] == before;
  }

  lemma OneRepresented(xid: nat)
    ensures Represents(RecordAll([xid]), xid, Elements([xid]))
  {
    RecordFirst(xid);
    assert [xid][..0] == [] && Elements([xid]) == {xid};
  }

  lemma OneMoreRepresented(before: seq<nat>, xid: nat)
    requires before != [] && Represents(RecordAll(before), before[0], Elements(before))
    ensures Represents(RecordAll(before + [xid]), before[0], Elements(before + [xid]))
  {
    ElementsMore(before, xid);
    RecordRepresents(RecordAll(before), before[0], Elements(before), xid);
  }

  /** For every sequence of received xids, in any order and with repeats. */
  lemma {:induction false} FrontIsLargestContiguous(xids: seq<nat>)
    requires xids != []
    ensures Represents(RecordAll(xids), xids[0], Elements(xids))
  {
    var before, xid := xids[..|xids| - 1], xids[|xids| - 1];
    assert xids == before + [xid];
    if before == [] {
      OneRepresented(xid);
    } else {
      FrontIsLargestContiguous(before);
      OneMoreRepresented(before, xid);
    }
  }

  /** The front moves only when its successor arrives, and then never back. */
  lemma FrontIsMonotone(w: seq<nat>, b: nat, received: set<nat>, xid: nat)
    requires Represents(w, b, received)
    ensures Front(w) <= Front(Record(w, xid))
    ensures Front(Record(w, xid)) != Front(w) ==> xid == Front(w) + 1
  {
    if w[0] < xid {
      RecordMembers(w, xid);
      assert w[0] + 1 !in w;
    }
  }
}
