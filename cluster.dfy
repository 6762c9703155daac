/** The bookkeeping of `expand_cluster`, common to the Wolff and the
    Swendsen-Wang samplers: one draw and one `Npn++` per tested bond, one
    `Nn++` and one recoloured site per accepted bond, and a growth tree that
    links every recoloured site back to the seed. */
module Cluster {
  import Xorshift
  import Lattice

  /** The part of a sampler's state that an expansion changes: the lattice,
      the register `rnd` and the counters `Npn` and `Nn`. */
  datatype Snapshot = Snapshot(lat: seq<int>, rnd: Xorshift.Word, npn: int, nn: int)

  /** What an expansion from the seed `cluster[0]` leaves behind, from `start`
      to `now`: the lattice is `Expanded` (the cluster is a growth tree, its
      sites held `v` and now hold `w`), one draw and one `Npn++` per tested
      bond, and one `Nn++` per annexed site, each of which is one accepted draw
      of the register's run. */
  ghost predicate Grown(g: Lattice.Geometry, threshold: Xorshift.Word, start: Snapshot, now: Snapshot,
                        cluster: seq<int>, parents: seq<int>, draws: nat, v: int, w: int)
  {
    match now
    case Snapshot(lat, rnd, npn, nn) =>
      Lattice.Expanded(g, start.lat, lat, cluster, parents, v, w) &&
      npn == start.npn + draws && nn == start.nn + |cluster| - 1 &&
      Xorshift.Ledger(start.rnd, draws, threshold, rnd, |cluster| - 1)
  }

  /** What one test of the neighbour `n` leaves behind: nothing when `n` does
      not hold `v`; otherwise one draw, and exactly when that draw is above
      the threshold a run `more` seeded by `n`, whose sites all held `v` and
      now hold `w`. */
  ghost predicate Tested(g: Lattice.Geometry, threshold: Xorshift.Word, start: Snapshot, now: Snapshot,
                         more: seq<int>, moreParents: seq<int>, draws: nat, n: int, v: int, w: int)
  {
    match now
    case Snapshot(lat, rnd, npn, nn) =>
      0 <= n < |start.lat| && (start.lat[n] != v ==> draws == 0 && more == []) &&
      (start.lat[n] == v ==> draws >= 1 && (more != [] <==> Xorshift.Accepts(Xorshift.Next(start.rnd), threshold)) &&
                             (more == [] ==> draws == 1)) &&
      |moreParents| == |more| && (more != [] ==> Lattice.GrowthTree(g, more, moreParents) && more[0] == n) &&
      Lattice.HeldValue(start.lat, more, 0, v) && Lattice.Recolours(start.lat, lat, more, w) &&
      Lattice.CountOf(lat, v) == Lattice.CountOf(start.lat, v) - |more| &&
      npn == start.npn + draws && draws <= 1 + 4 * |more| && nn == start.nn + |more| &&
      Xorshift.Ledger(start.rnd, draws, threshold, rnd, |more|)
  }

  /** Before the loop of `expand_cluster`: the cluster is its seed alone, which
      already holds `w`, and nothing has been drawn. */
  lemma GrownSeed(g: Lattice.Geometry, threshold: Xorshift.Word, s: Snapshot, site: int, v: int, w: int)
    requires 0 <= site < Lattice.Size(g) && 0 <= site < |s.lat| && s.lat[site] == w
    ensures Grown(g, threshold, s, s, [site], [0], 0, v, w)
  {
  }

  /** The loop of `expand_cluster`: a test of a neighbour of the seed after an
      expansion is again an expansion, of the cluster followed by the new run. */
  lemma GrownStep(g: Lattice.Geometry, threshold: Xorshift.Word, start: Snapshot, mid: Snapshot, now: Snapshot,
                  cluster: seq<int>, parents: seq<int>, draws: nat,
                  more: seq<int>, moreParents: seq<int>, moreDraws: nat, n: int, v: int, w: int)
    returns (cluster': seq<int>, parents': seq<int>, draws': nat)
    requires v != w
    requires Grown(g, threshold, start, mid, cluster, parents, draws, v, w)
    requires Tested(g, threshold, mid, now, more, moreParents, moreDraws, n, v, w)
    requires n in Lattice.Neighbours(g, cluster[0])
    ensures |cluster'| == |cluster| + |more| && cluster'[0] == cluster[0] && draws' == draws + moreDraws
    ensures Grown(g, threshold, start, now, cluster', parents', draws', v, w)
  {
    cluster', parents', draws' := cluster + more, Lattice.Graft(parents, moreParents, 0), draws + moreDraws;
    Lattice.ExpandedStep(g, start.lat, mid.lat, now.lat, cluster, parents, more, moreParents, v, w);
    Xorshift.RunsCompose(start.rnd, draws, moreDraws, draws', threshold, mid.rnd, now.rnd,
                         |cluster| - 1, |more|, |cluster'| - 1);
  }

  /** The reference for `expand_cluster(site)` from the state `s`: the four
      neighbours of `site` are tested in the order right, left, up, down. */
  function Expand(g: Lattice.Geometry, threshold: Xorshift.Word, s: Snapshot, site: int, v: int, w: int): (r: Snapshot)
    requires Lattice.InRange(g) && |s.lat| == Lattice.Size(g) && 0 <= site < |s.lat| && v != w
    ensures |r.lat| == |s.lat| && Lattice.CountOf(r.lat, v) <= Lattice.CountOf(s.lat, v)
    decreases Lattice.CountOf(s.lat, v), 2, 0
  {
    TestAll(g, threshold, s, Lattice.Neighbours(g, site), 0, v, w)
  }

  /** The loop of `expand_cluster` from its `k`-th pass on, over the neighbour
      list `ns`. */
  function TestAll(g: Lattice.Geometry, threshold: Xorshift.Word, s: Snapshot, ns: seq<int>, k: int, v: int, w: int): (r: Snapshot)
    requires Lattice.InRange(g) && |s.lat| == Lattice.Size(g) && v != w
    requires |ns| == 4 && 0 <= k <= 4 && forall d :: 0 <= d < 4 ==> 0 <= ns[d] < |s.lat|
    ensures |r.lat| == |s.lat| && Lattice.CountOf(r.lat, v) <= Lattice.CountOf(s.lat, v)
    decreases Lattice.CountOf(s.lat, v), 1, 4 - k
  {
    if k == 4 then s else TestAll(g, threshold, Test(g, threshold, s, ns[k], v, w), ns, k + 1, v, w)
  }

  /** One pass of that loop, for the neighbour `n`: nothing unless `n` holds
      `v`; otherwise `Npn++` and one draw, and when the draw is above the
      threshold `Nn++`, `n` takes `w` and the expansion goes on from `n`. */
  function Test(g: Lattice.Geometry, threshold: Xorshift.Word, s: Snapshot, n: int, v: int, w: int): (r: Snapshot)
    requires Lattice.InRange(g) && |s.lat| == Lattice.Size(g) && 0 <= n < |s.lat| && v != w
    ensures |r.lat| == |s.lat| && Lattice.CountOf(r.lat, v) <= Lattice.CountOf(s.lat, v)
    decreases Lattice.CountOf(s.lat, v), 0, 0
  {
    if s.lat[n] != v then s
    else
      var x := Xorshift.Next(s.rnd);
      if !Xorshift.Accepts(x, threshold) then Snapshot(s.lat, x, s.npn + 1, s.nn)
      else
        Lattice.CountOfUpdate(s.lat, n, v, w);
        Expand(g, threshold, Snapshot(s.lat[n := w], x, s.npn + 1, s.nn + 1), n, v, w)
  }

  /** `Test` unfolded for a neighbour that holds `v`. */
  lemma TestDraws(g: Lattice.Geometry, threshold: Xorshift.Word, s: Snapshot, n: int, v: int, w: int)
    requires Lattice.InRange(g) && |s.lat| == Lattice.Size(g) && 0 <= n < |s.lat| && v != w && s.lat[n] == v
    ensures var x := Xorshift.Next(s.rnd);
      Test(g, threshold, s, n, v, w) ==
        if Xorshift.Accepts(x, threshold) then Expand(g, threshold, Snapshot(s.lat[n := w], x, s.npn + 1, s.nn + 1), n, v, w)
        else Snapshot(s.lat, x, s.npn + 1, s.nn)
  {
  }

  /** The expansion from the seed `site`, which already holds `w`, leaves an
      expansion behind: a growth tree of sites that held `v`, recoloured to
      `w`, with the counters and the register's run in step. */
  lemma ExpandGrown(g: Lattice.Geometry, threshold: Xorshift.Word, s: Snapshot, site: int, v: int, w: int)
    returns (cluster: seq<int>, parents: seq<int>, draws: nat)
    requires Lattice.InRange(g) && |s.lat| == Lattice.Size(g) && 0 <= site < |s.lat| && v != w && s.lat[site] == w
    ensures Grown(g, threshold, s, Expand(g, threshold, s, site, v, w), cluster, parents, draws, v, w)
    ensures cluster[0] == site && draws <= 4 * |cluster|
    decreases Lattice.CountOf(s.lat, v), 2, 0
  {
    GrownSeed(g, threshold, s, site, v, w);
    cluster, parents, draws := TestAllGrown(g, threshold, s, s, Lattice.Neighbours(g, site), 0, [site], [0], 0, v, w);
  }

  /** The loop from its `k`-th pass on extends the expansion grown so far. */
  lemma TestAllGrown(g: Lattice.Geometry, threshold: Xorshift.Word, start: Snapshot, s: Snapshot, ns: seq<int>, k: int,
                     cluster: seq<int>, parents: seq<int>, draws: nat, v: int, w: int)
    returns (cluster': seq<int>, parents': seq<int>, draws': nat)
    requires Lattice.InRange(g) && |s.lat| == Lattice.Size(g) && v != w
    requires |ns| == 4 && 0 <= k <= 4 && forall d :: 0 <= d < 4 ==> 0 <= ns[d] < |s.lat|
    requires Grown(g, threshold, start, s, cluster, parents, draws, v, w) && ns == Lattice.Neighbours(g, cluster[0])
    requires draws <= k + 4 * (|cluster| - 1)
    ensures Grown(g, threshold, start, TestAll(g, threshold, s, ns, k, v, w), cluster', parents', draws', v, w)
    ensures cluster'[0] == cluster[0] && draws' <= 4 * |cluster'|
    decreases Lattice.CountOf(s.lat, v), 1, 4 - k
  {
    if k == 4 {
      cluster', parents', draws' := cluster, parents, draws;
    } else {
      var t := Test(g, threshold, s, ns[k], v, w);
      var more, moreParents, moreDraws := TestGrown(g, threshold, s, ns[k], v, w);
      var c, p, d := GrownStep(g, threshold, start, s, t, cluster, parents, draws, more, moreParents, moreDraws, ns[k], v, w);
      cluster', parents', draws' := TestAllGrown(g, threshold, start, t, ns, k + 1, c, p, d, v, w);
    }
  }

  /** One pass of the loop is a test: nothing for a neighbour not holding
      `v`; otherwise one draw, and exactly when it is accepted the run grown
      from the neighbour. */
  lemma TestGrown(g: Lattice.Geometry, threshold: Xorshift.Word, s: Snapshot, n: int, v: int, w: int)
    returns (more: seq<int>, moreParents: seq<int>, draws: nat)
    requires Lattice.InRange(g) && |s.lat| == Lattice.Size(g) && 0 <= n < |s.lat| && v != w
    ensures Tested(g, threshold, s, Test(g, threshold, s, n, v, w), more, moreParents, draws, n, v, w)
    decreases Lattice.CountOf(s.lat, v), 0, 0
  {
    more, moreParents, draws := [], [], 0;
    if s.lat[n] == v {
      var x := Xorshift.Next(s.rnd);
      TestDraws(g, threshold, s, n, v, w);
      Xorshift.OneDraw(s.rnd, threshold);
      draws := 1;
      if Xorshift.Accepts(x, threshold) {
        var marked := Snapshot(s.lat[n := w], x, s.npn + 1, s.nn + 1);
        Lattice.CountOfUpdate(s.lat, n, v, w);
        var subDraws;
        more, moreParents, subDraws := ExpandGrown(g, threshold, marked, n, v, w);
        var r := Expand(g, threshold, marked, n, v, w);
        Lattice.AnnexSeed(g, s.lat, marked.lat, r.lat, more, moreParents, n, v, w);
        draws := 1 + subDraws;
        Xorshift.RunsCompose(s.rnd, 1, subDraws, draws, threshold, x, r.rnd, 1, |more| - 1, |more|);
      }
    }
  }

  /** What every expansion, loop and test keeps: only sites holding `v`
      change, each to `w`; a nonzero register stays nonzero; `Npn` never
      falls, and a call that draws nothing changes nothing. */
  lemma ExpandFacts(g: Lattice.Geometry, threshold: Xorshift.Word, s: Snapshot, site: int, v: int, w: int)
    requires Lattice.InRange(g) && |s.lat| == Lattice.Size(g) && 0 <= site < |s.lat| && v != w
    ensures var r := Expand(g, threshold, s, site, v, w);
      Keeps(s, r, v, w) && (s.rnd.bits != 0 ==> r.rnd.bits != 0) && s.npn <= r.npn && (r.npn == s.npn ==> r == s)
    decreases Lattice.CountOf(s.lat, v), 2, 0
  {
    TestAllFacts(g, threshold, s, Lattice.Neighbours(g, site), 0, v, w);
  }

  lemma TestAllFacts(g: Lattice.Geometry, threshold: Xorshift.Word, s: Snapshot, ns: seq<int>, k: int, v: int, w: int)
    requires Lattice.InRange(g) && |s.lat| == Lattice.Size(g) && v != w
    requires |ns| == 4 && 0 <= k <= 4 && forall d :: 0 <= d < 4 ==> 0 <= ns[d] < |s.lat|
    ensures var r := TestAll(g, threshold, s, ns, k, v, w);
      Keeps(s, r, v, w) && (s.rnd.bits != 0 ==> r.rnd.bits != 0) && s.npn <= r.npn && (r.npn == s.npn ==> r == s)
    decreases Lattice.CountOf(s.lat, v), 1, 4 - k
  {
    if k < 4 {
      var t := Test(g, threshold, s, ns[k], v, w);
      TestFacts(g, threshold, s, ns[k], v, w);
      TestAllFacts(g, threshold, t, ns, k + 1, v, w);
    }
  }

  lemma TestFacts(g: Lattice.Geometry, threshold: Xorshift.Word, s: Snapshot, n: int, v: int, w: int)
    requires Lattice.InRange(g) && |s.lat| == Lattice.Size(g) && 0 <= n < |s.lat| && v != w
    ensures var r := Test(g, threshold, s, n, v, w);
      Keeps(s, r, v, w) && (s.rnd.bits != 0 ==> r.rnd.bits != 0) && s.npn <= r.npn && (r.npn == s.npn ==> r == s)
    ensures s.lat[n] == v ==> Test(g, threshold, s, n, v, w).npn > s.npn
    decreases Lattice.CountOf(s.lat, v), 0, 0
  {
    if s.lat[n] == v {
      var x := Xorshift.Next(s.rnd);
      if Xorshift.Accepts(x, threshold) {
        Lattice.CountOfUpdate(s.lat, n, v, w);
        ExpandFacts(g, threshold, Snapshot(s.lat[n := w], x, s.npn + 1, s.nn + 1), n, v, w);
      }
    }
  }

  /** From `s` to `r` only sites holding `v` changed, each to `w`. */
  predicate Keeps(s: Snapshot, r: Snapshot, v: int, w: int)
  {
    |r.lat| == |s.lat| && forall j :: 0 <= j < |s.lat| ==> r.lat[j] == s.lat[j] || (s.lat[j] == v && r.lat[j] == w)
  }

  /** A neighbour of the seed that holds `v` is always tested: the expansion
      draws at least once. */
  lemma ExpandTestsNeighbour(g: Lattice.Geometry, threshold: Xorshift.Word, s: Snapshot, site: int, d: int, v: int, w: int)
    requires Lattice.InRange(g) && |s.lat| == Lattice.Size(g) && 0 <= site < |s.lat| && v != w
    requires 0 <= d < 4 && s.lat[Lattice.Neighbours(g, site)[d]] == v
    ensures Expand(g, threshold, s, site, v, w).npn > s.npn
  {
    TestAllDraws(g, threshold, s, Lattice.Neighbours(g, site), 0, d, v, w);
  }

  lemma {:induction false} TestAllDraws(g: Lattice.Geometry, threshold: Xorshift.Word, s: Snapshot, ns: seq<int>, k: int, d: int, v: int, w: int)
    requires Lattice.InRange(g) && |s.lat| == Lattice.Size(g) && v != w
    requires |ns| == 4 && 0 <= k <= d < 4 && forall e :: 0 <= e < 4 ==> 0 <= ns[e] < |s.lat|
    requires s.lat[ns[d]] == v
    ensures TestAll(g, threshold, s, ns, k, v, w).npn > s.npn
    decreases 4 - k
  {
    var t := Test(g, threshold, s, ns[k], v, w);
    TestFacts(g, threshold, s, ns[k], v, w);
    TestAllFacts(g, threshold, t, ns, k + 1, v, w);
    if t.npn == s.npn {
      assert k != d;
      TestAllDraws(g, threshold, t, ns, k + 1, d, v, w);
    }
  }

  /** When every draw is accepted (threshold 0, nonzero register), the
      expansion annexes every neighbour of the seed that held `v`: none of
      them holds `v` afterwards. */
  lemma AcceptAllTakesNeighbours(g: Lattice.Geometry, threshold: Xorshift.Word, s: Snapshot, site: int, v: int, w: int)
    requires Lattice.InRange(g) && |s.lat| == Lattice.Size(g) && 0 <= site < |s.lat| && v != w
    requires threshold.bits == 0 && s.rnd.bits != 0
    ensures forall d :: 0 <= d < 4 ==> Expand(g, threshold, s, site, v, w).lat[Lattice.Neighbours(g, site)[d]] != v
  {
    TestAllTakes(g, threshold, s, Lattice.Neighbours(g, site), 0, v, w);
  }

  lemma {:induction false} TestAllTakes(g: Lattice.Geometry, threshold: Xorshift.Word, s: Snapshot, ns: seq<int>, k: int, v: int, w: int)
    requires Lattice.InRange(g) && |s.lat| == Lattice.Size(g) && v != w
    requires |ns| == 4 && 0 <= k <= 4 && forall e :: 0 <= e < 4 ==> 0 <= ns[e] < |s.lat|
    requires threshold.bits == 0 && s.rnd.bits != 0
    requires forall e :: 0 <= e < k ==> s.lat[ns[e]] != v
    ensures forall e :: 0 <= e < 4 ==> TestAll(g, threshold, s, ns, k, v, w).lat[ns[e]] != v
    decreases 4 - k
  {
    if k < 4 {
      var t := Test(g, threshold, s, ns[k], v, w);
      TestFacts(g, threshold, s, ns[k], v, w);
      if s.lat[ns[k]] == v {
        TestTakes(g, threshold, s, ns[k], v, w);
      }
      assert forall e :: 0 <= e <= k ==> t.lat[ns[e]] != v;
      TestAllTakes(g, threshold, t, ns, k + 1, v, w);
    }
  }

  /** With every draw accepted, testing a neighbour that holds `v` annexes it. */
  lemma TestTakes(g: Lattice.Geometry, threshold: Xorshift.Word, s: Snapshot, n: int, v: int, w: int)
    requires Lattice.InRange(g) && |s.lat| == Lattice.Size(g) && 0 <= n < |s.lat| && v != w
    requires threshold.bits == 0 && s.rnd.bits != 0 && s.lat[n] == v
    ensures Test(g, threshold, s, n, v, w).lat[n] == w
  {
    var x := Xorshift.Next(s.rnd);
    assert Xorshift.Accepts(x, threshold);
    Lattice.CountOfUpdate(s.lat, n, v, w);
    ExpandFacts(g, threshold, Snapshot(s.lat[n := w], x, s.npn + 1, s.nn + 1), n, v, w);
  }
}
