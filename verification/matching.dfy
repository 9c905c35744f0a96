/** Maximum bipartite matching as gmock finds it
    (third-party/googletest/googlemock/src/gmock-matchers.cc:124-230, 437-476). */
module Matching {

  const UNUSED: int := -1

  /** Which element (left) each matcher (right) accepts. */
  datatype Matrix = Matrix(lhs: nat, rhs: nat, cells: seq<seq<bool>>) {
    ghost predicate Valid() {
      |cells| == lhs && forall l :: 0 <= l < lhs ==> |cells[l]| == rhs
    }

    predicate HasEdge(l: int, r: int)
      requires Valid()
    {
      0 <= l < lhs && 0 <= r < rhs && cells[l][r]
    }
  }

  // ---------- Flow states ----------

  ghost predicate Shaped(g: Matrix, left: seq<int>, right: seq<int>) {
    && g.Valid() && |left| == g.lhs && |right| == g.rhs
    && (forall l :: 0 <= l < |left| ==> UNUSED <= left[l] < g.rhs)
    && (forall r :: 0 <= r < |right| ==> UNUSED <= right[r] < g.lhs)
  }

  /** Used entries are edges and mutually referent, except that `right[stale]` may still name a
      left node that has moved on. */
  ghost predicate Consistent(g: Matrix, left: seq<int>, right: seq<int>, stale: int) {
    && Shaped(g, left, right)
    && (forall l :: 0 <= l < |left| && left[l] != UNUSED ==> right[left[l]] == l && g.HasEdge(l, left[l]))
    && (forall r :: 0 <= r < |right| && right[r] != UNUSED && r != stale ==> left[right[r]] == r)
  }

  ghost predicate Reaches(g: Matrix, l: int, d: set<int>)
    requires g.Valid()
  {
    forall r :: g.HasEdge(l, r) ==> r in d
  }

  /** No alternating path that enters `d` ever leaves it or ends: every right node of `d` is
      matched, and its partner's edges lead back into `d`. */
  ghost predicate Closed(g: Matrix, right: seq<int>, d: set<int>)
    requires g.Valid()
  {
    forall r :: r in d ==> 0 <= r < |right| && right[r] != UNUSED && Reaches(g, right[r], d)
  }

  ghost function SeenSet(seen: seq<bool>): set<int> {
    set r | 0 <= r < |seen| && seen[r]
  }

  ghost function UnseenSet(seen: seq<bool>): set<int> {
    set r | 0 <= r < |seen| && !seen[r]
  }

  /** A success from `l`: what the search may and may not have touched. */
  ghost predicate Augmented(g: Matrix, l: nat, seen: seq<bool>, dead: set<int>,
                            left: seq<int>, right: seq<int>, left': seq<int>, right': seq<int>)
    requires |left| == |left'| && |right| == |right'| == |seen| && l < |left|
  {
    && Consistent(g, left', right', left[l])
    && left'[l] != UNUSED && !seen[left'[l]]
    && (forall k :: 0 <= k < |left| && k != l ==> (left'[k] == UNUSED <==> left[k] == UNUSED))
    && (forall r :: 0 <= r < |right| && right[r] != UNUSED ==> right'[r] != UNUSED)
    && (forall r :: 0 <= r < |right| && (seen[r] || r in dead) ==> right'[r] == right[r])
  }

  /** A failure from `l`: the nodes the search added are a closed trap holding all of l's edges. */
  ghost predicate Trapped(g: Matrix, l: int, seen: seq<bool>, right: seq<int>, seen': seq<bool>)
    requires g.Valid() && |seen| == |seen'| == |right|
  {
    && (forall r :: 0 <= r < |seen| && seen[r] ==> seen'[r])
    && Reaches(g, l, SeenSet(seen'))
    && (forall r :: 0 <= r < |seen| && seen'[r] && !seen[r] ==>
      right[r] != UNUSED && Reaches(g, right[r], SeenSet(seen')))
  }

  /** Linking `l` to `r` after the old partner of `r`, if any, has found another place. */
  lemma Link(g: Matrix, l: nat, r: nat, seen: seq<bool>, dead: set<int>, left: seq<int>, right: seq<int>,
    left': seq<int>, right': seq<int>)
    requires Consistent(g, left, right, UNUSED) && l < g.lhs && r < g.rhs && g.HasEdge(l, r)
    requires |seen| == g.rhs && !seen[r] && (left[l] != UNUSED ==> seen[left[l]])
    requires r !in dead
    requires |left'| == g.lhs && |right'| == g.rhs
    requires if right[r] == UNUSED then left' == left && right' == right
             else Augmented(g, right[r], seen[r := true], dead, left, right, left', right')
    ensures Augmented(g, l, seen, dead, left, right, left'[l := r], right'[r := l])
  {
    var p := left[l];
    var s2 := seen[r := true];
    assert right'[r] == right[r];
    if p != UNUSED {
      assert s2[p] && right'[p] == right[p] == l;
    }
    if right[r] != UNUSED {
      assert right[r] != l;
      assert left[right[r]] == r;
      assert p != UNUSED ==> left'[l] == p;
      assert p == UNUSED ==> left'[l] == UNUSED;
    }
    assert left'[l] == p;
    var a, b := left'[l := r], right'[r := l];
    forall k | 0 <= k < |a| && a[k] != UNUSED ensures b[a[k]] == k && g.HasEdge(k, a[k]) {
      if k != l { assert right'[left'[k]] == k; }
    }
    forall q | 0 <= q < |b| && b[q] != UNUSED && q != p ensures a[b[q]] == q {
      if q != r { assert left'[right'[q]] == q; }
    }
  }

  /** The search from `l` has looked at the right nodes below `next` in vain. */
  ghost predicate Searched(g: Matrix, l: int, next: nat, seen: seq<bool>, right: seq<int>, seen': seq<bool>)
    requires g.Valid() && |seen| == |seen'| == |right|
  {
    && (forall r :: 0 <= r < next && g.HasEdge(l, r) ==> r in SeenSet(seen'))
    && (forall r :: 0 <= r < |seen| && seen[r] ==> seen'[r])
    && (forall r :: 0 <= r < |seen| && seen'[r] && !seen[r] ==>
      right[r] != UNUSED && Reaches(g, right[r], SeenSet(seen')))
  }

  lemma ReachesMore(g: Matrix, l: int, d: set<int>, d': set<int>)
    requires g.Valid() && Reaches(g, l, d) && d <= d'
    ensures Reaches(g, l, d')
  {
  }

  /** A failed branch stays failed: what it proved closed is closed for the wider search. */
  lemma SearchOn(g: Matrix, l: int, r: nat, seen: seq<bool>, right: seq<int>, before: seq<bool>, after: seq<bool>)
    requires g.Valid() && |seen| == |before| == |after| == |right| && r < |right|
    requires Searched(g, l, r, seen, right, before) && !before[r]
    requires right[r] != UNUSED && Trapped(g, right[r], before[r := true], right, after)
    ensures Searched(g, l, r + 1, seen, right, after)
  {
    assert before[r := true][r];
    assert forall q :: 0 <= q < |seen| && q != r ==> before[r := true][q] == before[q];
    assert SeenSet(before) <= SeenSet(after);
    forall q | 0 <= q < |seen| && after[q] && !seen[q]
      ensures right[q] != UNUSED && Reaches(g, right[q], SeenSet(after)) {
      if before[q] { ReachesMore(g, right[q], SeenSet(before), SeenSet(after)); }
    }
  }

  lemma SkipOn(g: Matrix, l: int, r: nat, seen: seq<bool>, right: seq<int>, now: seq<bool>)
    requires g.Valid() && |seen| == |now| == |right| && r < |right|
    requires Searched(g, l, r, seen, right, now) && (now[r] || !g.HasEdge(l, r))
    ensures Searched(g, l, r + 1, seen, right, now)
  {
  }

  /** What a success touched, seen from the start of the search. */
  lemma AugmentedSince(g: Matrix, l: nat, seen: seq<bool>, before: seq<bool>, dead: set<int>, left: seq<int>,
    right: seq<int>, left': seq<int>, right': seq<int>)
    requires |left| == |left'| && |right| == |right'| == |seen| == |before| && l < |left|
    requires forall r :: 0 <= r < |seen| && seen[r] ==> before[r]
    requires Augmented(g, l, before, dead, left, right, left', right')
    ensures Augmented(g, l, seen, dead, left, right, left', right')
  {
  }

  class MaxBipartiteMatchState {
    const graph: Matrix
    const left: array<int>
    const right: array<int>

    constructor (graph: Matrix)
      requires graph.Valid()
      ensures this.graph == graph && Valid() && fresh(left) && fresh(right)
      ensures forall l :: 0 <= l < left.Length ==> left[l] == UNUSED
      ensures forall r :: 0 <= r < right.Length ==> right[r] == UNUSED
    {
      this.graph := graph;
      left := new int[graph.lhs](_ => UNUSED);
      right := new int[graph.rhs](_ => UNUSED);
    }

    ghost predicate Valid()
      reads this, left, right
    {
      left != right && graph.Valid() && Consistent(graph, left[..], right[..], UNUSED)
    }

    /** Depth-first search for an augmenting path. `dead` is any closed set of right nodes. */
    method TryAugment(ilhs: nat, seen: array<bool>, ghost dead: set<int>) returns (ok: bool)
      requires Valid() && ilhs < left.Length && seen.Length == right.Length
      requires left[ilhs] != UNUSED ==> seen[left[ilhs]]
      requires Closed(graph, right[..], dead)
      modifies left, right, seen
      decreases UnseenSet(seen[..])
      ensures ok ==> Augmented(graph, ilhs, old(seen[..]), dead, old(left[..]), old(right[..]), left[..], right[..])
      ensures !ok ==> left[..] == old(left[..]) && right[..] == old(right[..])
      ensures !ok ==> Trapped(graph, ilhs, old(seen[..]), right[..], seen[..])
      ensures Reaches(graph, ilhs, dead) ==> !ok
    {
      ghost var l0, r0, s0 := left[..], right[..], seen[..];
      var irhs := 0;
      while irhs < right.Length
        invariant irhs <= right.Length
        invariant left[..] == l0 && right[..] == r0
        invariant Searched(graph, ilhs, irhs, s0, r0, seen[..])
      {
        if !seen[irhs] && graph.HasEdge(ilhs, irhs) {
          ghost var before := seen[..];
          seen[irhs] := true;
          assert seen[..] == before[irhs := true];
          assert irhs in UnseenSet(s0) && irhs !in UnseenSet(seen[..]);
          if right[irhs] == UNUSED {
            ok := true;
          } else {
            ok := TryAugment(right[irhs], seen, dead);
          }
          if ok {
            Link(graph, ilhs, irhs, before, dead, l0, r0, left[..], right[..]);
            AugmentedSince(graph, ilhs, s0, before, dead, l0, r0, left[..][ilhs := irhs], right[..][irhs := ilhs]);
            left[ilhs] := irhs;
            right[irhs] := ilhs;
            return;
          }
          SearchOn(graph, ilhs, irhs, s0, r0, before, seen[..]);
        } else {
          SkipOn(graph, ilhs, irhs, s0, r0, seen[..]);
        }
        irhs := irhs + 1;
      }
      ok := false;
    }

    /** Every left node is tried once. */
    method Compute() returns (pairs: seq<(nat, nat)>)
      requires Valid() && forall l :: 0 <= l < left.Length ==> left[l] == UNUSED
      modifies left, right
      ensures Valid() && pairs == Pairs(left[..], left.Length)
      ensures exists dead :: Certificate(graph, left[..], right[..], dead)
    {
      ghost var dead: set<int> := {};
      var ilhs := 0;
      while ilhs < left.Length
        invariant ilhs <= left.Length && Valid()
        invariant forall l :: ilhs <= l < left.Length ==> left[l] == UNUSED
        invariant Closed(graph, right[..], dead)
        invariant forall l :: 0 <= l < ilhs && left[l] == UNUSED ==> Reaches(graph, l, dead)
      {
        assert left[ilhs] == UNUSED;
        var seen := new bool[right.Length](_ => false);
        ghost var l0, r0, s0 := left[..], right[..], seen[..];
        var ok := TryAugment(ilhs, seen, dead);
        if ok {
          StillClosed(graph, ilhs, s0, dead, l0, r0, left[..], right[..]);
        } else {
          NewlyClosed(graph, ilhs, s0, r0, seen[..], dead);
          dead := dead + SeenSet(seen[..]);
        }
        ilhs := ilhs + 1;
      }
      assert Certificate(graph, left[..], right[..], dead);
      pairs := [];
      for l := 0 to left.Length
        invariant pairs == Pairs(left[..], l)
      {
        if left[l] != UNUSED {
          pairs := pairs + [(l, left[l])];
        }
      }
    }
  }

  lemma StillClosed(g: Matrix, l: nat, seen: seq<bool>, dead: set<int>, left: seq<int>, right: seq<int>,
    left': seq<int>, right': seq<int>)
    requires g.Valid() && |left| == |left'| && |right| == |right'| == |seen| && l < |left|
    requires Closed(g, right, dead) && Augmented(g, l, seen, dead, left, right, left', right')
    ensures Closed(g, right', dead)
  {
  }

  lemma NewlyClosed(g: Matrix, l: int, seen: seq<bool>, right: seq<int>, seen': seq<bool>, dead: set<int>)
    requires g.Valid() && |seen| == |seen'| == |right| && forall r :: 0 <= r < |seen| ==> !seen[r]
    requires Closed(g, right, dead) && Trapped(g, l, seen, right, seen')
    ensures Closed(g, right, dead + SeenSet(seen')) && Reaches(g, l, dead + SeenSet(seen'))
    ensures forall k :: Reaches(g, k, dead) ==> Reaches(g, k, dead + SeenSet(seen'))
  {
    var d := dead + SeenSet(seen');
    forall r | r in d ensures 0 <= r < |right| && right[r] != UNUSED && Reaches(g, right[r], d) {
      if r in dead { ReachesMore(g, right[r], dead, d); } else { ReachesMore(g, right[r], SeenSet(seen'), d); }
    }
    forall k | Reaches(g, k, dead) ensures Reaches(g, k, d) { ReachesMore(g, k, dead, d); }
  }

  // ---------- Why the result is maximum ----------

  /** A set of true cells no two of which share a row or a column. */
  ghost predicate IsMatching(g: Matrix, m: map<int, int>)
    requires g.Valid()
  {
    && (forall l :: l in m ==> 0 <= l < g.lhs && 0 <= m[l] < g.rhs && g.cells[l][m[l]])
    && (forall k, l :: k in m && l in m && k != l ==> m[k] != m[l])
  }

  /** A consistent flow whose unmatched left nodes reach only a closed set. */
  ghost predicate Certificate(g: Matrix, left: seq<int>, right: seq<int>, dead: set<int>) {
    && Consistent(g, left, right, UNUSED) && Closed(g, right, dead)
    && (forall l :: 0 <= l < |left| && left[l] == UNUSED ==> Reaches(g, l, dead))
  }

  ghost function Chosen(left: seq<int>): map<int, int> {
    map l | 0 <= l < |left| && left[l] != UNUSED :: left[l]
  }

  function Pairs(left: seq<int>, n: nat): seq<(nat, nat)>
    requires n <= |left| && forall l :: 0 <= l < |left| ==> UNUSED <= left[l]
  {
    if n == 0 then []
    else if left[n - 1] == UNUSED then Pairs(left, n - 1)
    else Pairs(left, n - 1) + [(n - 1, left[n - 1])]
  }

  lemma SubsetCard(a: set<int>, b: set<int>)
    requires a <= b
    ensures |a| <= |b|
  {
    assert b == a + (b - a);
  }

  /** An injective map sends a set to one at least as large. */
  lemma {:induction false} InjectionCard(m: map<int, int>, keys: set<int>, into: set<int>)
    requires keys <= m.Keys && forall k :: k in keys ==> m[k] in into
    requires forall k, l :: k in keys && l in keys && k != l ==> m[k] != m[l]
    ensures |keys| <= |into|
    decreases keys
  {
    if forall k :: k !in keys {
      assert keys == {};
    } else {
      var k :| k in keys;
      InjectionCard(m, keys - {k}, into - {m[k]});
    }
  }

  /** The left partners of a closed set are as many as its nodes. */
  lemma PartnersCard(g: Matrix, left: seq<int>, right: seq<int>, dead: set<int>) returns (partners: set<int>)
    requires Certificate(g, left, right, dead)
    ensures |partners| >= |dead| && partners <= Chosen(left).Keys
    ensures forall l :: l in partners ==> Reaches(g, l, dead)
  {
    partners := set r | r in dead :: right[r];
    var back := map r | r in dead :: right[r];
    forall q, r | q in dead && r in dead && q != r ensures right[q] != right[r] {
      assert left[right[q]] == q && left[right[r]] == r;
    }
    InjectionCard(back, dead, partners);
  }

  /** The vertex-cover argument: no matching of the graph has more edges. */
  lemma CertificateIsMaximum(g: Matrix, left: seq<int>, right: seq<int>, dead: set<int>, m: map<int, int>)
    requires Certificate(g, left, right, dead) && IsMatching(g, m)
    ensures |m| <= |Chosen(left)|
  {
    var partners := PartnersCard(g, left, right, dead);
    var chosen := Chosen(left).Keys;
    var inside := set l | l in m && m[l] in dead;
    var outside := m.Keys - inside;
    InjectionCard(m, inside, dead);
    forall l | l in outside ensures l in chosen - partners {
      assert g.HasEdge(l, m[l]);
    }
    SplitCard(m.Keys, inside, outside);
    SplitCard(chosen, partners, chosen - partners);
    SubsetCard(outside, chosen - partners);
  }

  lemma SplitCard(whole: set<int>, part: set<int>, rest: set<int>)
    requires part <= whole && rest == whole - part
    ensures |whole| == |part| + |rest|
  {
    assert whole == part + rest;
  }

  lemma {:induction false} PairsAreChosen(left: seq<int>, n: nat)
    requires n <= |left| && forall l :: 0 <= l < |left| ==> UNUSED <= left[l]
    ensures |Pairs(left, n)| == |Chosen(left[..n])|
  {
    if n > 0 {
      PairsAreChosen(left, n - 1);
      var before, after := Chosen(left[..n - 1]), Chosen(left[..n]);
      if left[n - 1] == UNUSED {
        assert after == before;
      } else {
        assert after == before[n - 1 := left[n - 1]];
      }
    }
  }

  lemma ChosenIsMatching(g: Matrix, left: seq<int>, right: seq<int>)
    requires Consistent(g, left, right, UNUSED)
    ensures IsMatching(g, Chosen(left))
  {
  }

  /** `FindMaxBipartiteMatching`: a matching of the graph, and no matching has more edges. */
  method FindMaxBipartiteMatching(g: Matrix) returns (pairs: seq<(nat, nat)>, ghost m: map<int, int>)
    requires g.Valid()
    ensures IsMatching(g, m) && |pairs| == |m|
    ensures forall i :: 0 <= i < |pairs| ==> pairs[i].0 in m && m[pairs[i].0] == pairs[i].1
    ensures forall i, j :: 0 <= i < j < |pairs| ==> pairs[i].0 < pairs[j].0
    ensures forall other :: IsMatching(g, other) ==> |other| <= |pairs|
  {
    var state := new MaxBipartiteMatchState(g);
    pairs := state.Compute();
    var left, right := state.left[..], state.right[..];
    m := Chosen(left);
    ChosenIsMatching(g, left, right);
    PairsAreChosen(left, |left|);
    assert left[..|left|] == left;
    ghost var dead :| Certificate(g, left, right, dead);
    forall other | IsMatching(g, other) ensures |other| <= |pairs| {
      CertificateIsMaximum(g, left, right, dead, other);
    }
    PairsMembers(left, |left|);
  }

  lemma {:induction false} PairsMembers(left: seq<int>, n: nat)
    requires n <= |left| && forall l :: 0 <= l < |left| ==> UNUSED <= left[l]
    ensures forall i :: 0 <= i < |Pairs(left, n)| ==>
              var p := Pairs(left, n)[i]; p.0 < n && p.0 in Chosen(left) && Chosen(left)[p.0] == p.1
    ensures forall i, j :: 0 <= i < j < |Pairs(left, n)| ==> Pairs(left, n)[i].0 < Pairs(left, n)[j].0
  {
    if n > 0 { PairsMembers(left, n - 1); }
  }

  // ---------- UnorderedElementsAre ----------

  /** Superset: every matcher must be used. Subset: every element must be matched. */
  datatype Require = Require(superset: bool, subset: bool)

  ghost predicate Covers(g: Matrix, req: Require, m: map<int, int>) {
    && (req.superset ==> forall r :: 0 <= r < g.rhs ==> r in m.Values)
    && (req.subset ==> forall l :: 0 <= l < g.lhs ==> l in m)
  }

  ghost function Below(n: nat): (s: set<int>)
    ensures |s| == n && forall i :: i in s <==> 0 <= i < n
  {
    if n == 0 then {} else Below(n - 1) + {n - 1}
  }

  lemma ValuesCard(g: Matrix, m: map<int, int>)
    requires g.Valid() && IsMatching(g, m)
    ensures |m.Values| == |m|
  {
    InjectionCard(m, m.Keys, m.Values);
    ImageCard(m, m.Keys);
    assert (set k | k in m.Keys :: m[k]) == m.Values;
  }

  lemma {:induction false} ImageCard(m: map<int, int>, keys: set<int>)
    requires keys <= m.Keys
    ensures |set k | k in keys :: m[k]| <= |keys|
    decreases keys
  {
    if forall k :: k !in keys {
      assert keys == {};
    } else {
      var k :| k in keys;
      ImageCard(m, keys - {k});
      assert (set j | j in keys :: m[j]) == (set j | j in keys - {k} :: m[j]) + {m[k]};
    }
  }

  /** A matching covers a side exactly when it has as many edges as that side has nodes. */
  lemma CoversByCount(g: Matrix, m: map<int, int>)
    requires g.Valid() && IsMatching(g, m)
    ensures |m| <= g.lhs && |m| <= g.rhs
    ensures (forall l :: 0 <= l < g.lhs ==> l in m) <==> |m| == g.lhs
    ensures (forall r :: 0 <= r < g.rhs ==> r in m.Values) <==> |m| == g.rhs
  {
    ValuesCard(g, m);
    FullByCount(m.Keys, g.lhs);
    FullByCount(m.Values, g.rhs);
  }

  lemma FullByCount(s: set<int>, n: nat)
    requires forall i :: i in s ==> 0 <= i < n
    ensures |s| <= n
    ensures (forall i :: 0 <= i < n ==> i in s) <==> |s| == n
  {
    var all := Below(n);
    SubsetCard(s, all);
    assert all == s + (all - s);
    if |s| == n { assert all - s == {}; } else { assert all - s != {}; }
  }

  /** True exactly when some assignment of elements to matchers covers what is required. */
  method FindPairing(g: Matrix, req: Require) returns (found: bool)
    requires g.Valid()
    ensures found <==> exists m :: IsMatching(g, m) && Covers(g, req, m)
  {
    ghost var m;
    var matches;
    matches, m := FindMaxBipartiteMatching(g);
    CoversByCount(g, m);
    forall other | IsMatching(g, other)
      ensures Covers(g, req, other) ==> (req.superset ==> |matches| >= g.rhs) && (req.subset ==> |matches| >= g.lhs)
    {
      CoversByCount(g, other);
    }
    var maxFlow := |matches|;
    if req.superset && maxFlow < g.rhs {
      return false;
    }
    if req.subset && maxFlow < g.lhs {
      return false;
    }
    assert Covers(g, req, m);
    return true;
  }
}
