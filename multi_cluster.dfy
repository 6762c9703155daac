/** One sweep of the Swendsen-Wang multi-cluster algorithm on the `L*L` Ising
    lattice. A site outside every cluster holds its spin, +1 or -1 (odd); a
    site inside one holds the cluster's mark, 0 or -2 (even), so that the
    final complement `~` turns marks into the new spins (`~0 = -1`,
    `~(-2) = +1`). */
module MultiCluster {
  import Xorshift
  import Lattice
  import Cluster

  /** Every entry is a spin (+1, -1) or a cluster mark (0, -2). */
  predicate SpinsOrMarks(s: seq<int>)
  {
    forall k :: 0 <= k < |s| ==> s[k] == 1 || s[k] == -1 || s[k] == 0 || s[k] == -2
  }

  /** The first `i` entries are cluster marks. */
  predicate MarkedBelow(s: seq<int>, i: int)
  {
    forall k :: 0 <= k < i && k < |s| ==> s[k] == 0 || s[k] == -2
  }

  /** The mark a new cluster takes from the draw `x`: -2 when its low bit is
      set, 0 otherwise. */
  function MarkOf(x: Xorshift.Word): (c: int)
    ensures c == 0 || c == -2
    ensures Not(c) == 1 || Not(c) == -1
    ensures Not(c) == 1 <==> x.bits & 1 == 1
  {
    if x.bits & 1 == 1 then -2 else 0
  }

  /** `~x` on a two's-complement integer. */
  function Not(x: int): int
  {
    -x - 1
  }

  /** The complement maps the marks onto the spins, one to one, and is its own
      inverse. */
  lemma NotMarks(x: int)
    ensures Not(0) == -1 && Not(-2) == 1
    ensures Not(Not(x)) == x
    ensures (x == 0 || x == -2) <==> (Not(x) == 1 || Not(x) == -1)
  {
  }

  /** On spins and marks, the odd entries are exactly the spins. */
  lemma {:induction false} OddAreSpins(s: seq<int>)
    requires SpinsOrMarks(s)
    ensures Lattice.OddCount(s) == Lattice.CountOf(s, 1) + Lattice.CountOf(s, -1)
  {
    if s != [] {
      OddAreSpins(s[..|s| - 1]);
    }
  }

  /** Each marked site `k` is labelled with the seed of its cluster: a site
      chosen before `i`, at or before `k`, labelled with itself and holding
      the same mark as `k`. */
  predicate Labelled(s: seq<int>, seedOf: seq<int>, i: int)
  {
    |seedOf| == |s| &&
    (forall k {:trigger seedOf[k]} :: 0 <= k < |s| && s[k] % 2 == 0 ==>
       0 <= seedOf[k] <= k && seedOf[k] < i && s[seedOf[k]] == s[k]) &&
    (forall k, r {:trigger seedOf[k], seedOf[r]} :: 0 <= k < |s| && s[k] % 2 == 0 && r == seedOf[k] ==> seedOf[r] == r)
  }

  /** The labels after the seed `i` took the lattice from `before` to
      `after`: `i` and every site it changed are labelled `i`. */
  function Relabel(seedOf: seq<int>, before: seq<int>, after: seq<int>, i: int): (seedOf': seq<int>)
    ensures |seedOf'| == |seedOf|
  {
    seq(|seedOf|, k requires 0 <= k < |seedOf| =>
          if k == i || (k < |before| && k < |after| && after[k] != before[k]) then i else seedOf[k])
  }

  /** The sites a seed changed are its cluster: a site is in the cluster grown
      from the seed `i` exactly when it is `i` or it changed. */
  lemma ClusterIsChange(g: Lattice.Geometry, before: seq<int>, marked: seq<int>, after: seq<int>,
                        cluster: seq<int>, parents: seq<int>, i: int, v: int, c: int)
    requires 0 <= i < |before| && before[i] == v && v != c && marked == before[i := c]
    requires Lattice.Expanded(g, marked, after, cluster, parents, v, c) && cluster[0] == i
    ensures forall k :: 0 <= k < |before| ==> (k in cluster <==> k == i || after[k] != before[k])
  {
    forall k | 0 <= k < |before|
      ensures k in cluster <==> k == i || after[k] != before[k]
    {
      if k in cluster && k != i {
        var m := Lattice.IndexOf(cluster, k);
        assert marked[k] == v;
      }
    }
  }

  /** The lattice when the sweep has reached site `i`: the sites before `i`
      are marked, every site is a spin or a mark, and every marked site is
      labelled with its cluster's seed. */
  predicate Marking(s: seq<int>, i: int, seedOf: seq<int>)
  {
    MarkedBelow(s, i) && SpinsOrMarks(s) && Labelled(s, seedOf, i)
  }

  /** `p` is a path of neighbours from the seed of `k` to `k` whose every site
      has the seed of `k` and held, before the sweep, the spin of that seed. */
  predicate InCluster(g: Lattice.Geometry, before: seq<int>, seedOf: seq<int>, p: seq<int>, k: int)
  {
    |before| == |seedOf| && 0 <= k < |seedOf| && 0 <= seedOf[k] < |seedOf| &&
    |p| >= 1 && p[0] == seedOf[k] && p[|p| - 1] == k && Lattice.IsPath(g, p) &&
    forall m :: 0 <= m < |p| ==> 0 <= p[m] < |seedOf| && seedOf[p[m]] == seedOf[k] && before[p[m]] == before[seedOf[k]]
  }

  /** A site of `s` still odd holds its spin from `before`. */
  predicate OddKept(before: seq<int>, s: seq<int>)
  {
    |before| == |s| && forall k :: 0 <= k < |s| && s[k] % 2 == 1 ==> s[k] == before[k]
  }

  /** A marked site `k` of `s` is reached from its seed by the path
      `paths[k]` of marked sites of its cluster. */
  predicate Reached(g: Lattice.Geometry, before: seq<int>, s: seq<int>, seedOf: seq<int>, paths: seq<seq<int>>)
  {
    |seedOf| == |s| && |paths| == |s| &&
    forall k :: 0 <= k < |s| && s[k] % 2 == 0 ==>
      InCluster(g, before, seedOf, paths[k], k) && forall m :: 0 <= m < |paths[k]| ==> s[paths[k][m]] % 2 == 0
  }

  /** The lattice `s` reached by the sweep from `before`: odd sites kept,
      marked sites reached from their seeds. */
  predicate Rooted(g: Lattice.Geometry, before: seq<int>, s: seq<int>, seedOf: seq<int>, paths: seq<seq<int>>)
  {
    OddKept(before, s) && Reached(g, before, s, seedOf, paths)
  }

  /** The sweep from `start` has reached site `i` after `seeds` clusters: the
      lattice is `Marking`, every site is either still odd, a seed, or annexed
      (one `Nn++` each), and the register has made one draw per seed and one
      per tested bond. */
  ghost predicate Swept(start: Cluster.Snapshot, now: Cluster.Snapshot, i: int, seeds: nat, seedOf: seq<int>)
  {
    0 <= i <= |start.lat| && |now.lat| == |start.lat| && Marking(now.lat, i, seedOf) &&
    Lattice.OddCount(now.lat) + seeds + (now.nn - start.nn) == |start.lat| &&
    start.npn <= now.npn && now.rnd == Xorshift.Iterate(start.rnd, seeds + (now.npn - start.npn))
  }

  /** Before the sweep nothing is marked and every site is odd. */
  lemma SweepStart(g: Lattice.Geometry, start: Cluster.Snapshot) returns (paths: seq<seq<int>>)
    requires Lattice.AllSpins(start.lat)
    ensures var seedOf := seq(|start.lat|, k => k);
      Swept(start, start, 0, 0, seedOf) && Rooted(g, start.lat, start.lat, seedOf, paths)
  {
    paths := seq(|start.lat|, k => [k]);
    Lattice.OddCountExtremes(start.lat);
  }

  /** After the sweep every site is marked, and every site was either a seed
      or annexed exactly once. */
  lemma SweepEnd(start: Cluster.Snapshot, now: Cluster.Snapshot, seeds: nat, seedOf: seq<int>)
    requires Swept(start, now, |start.lat|, seeds, seedOf)
    ensures forall k :: 0 <= k < |now.lat| ==> now.lat[k] == 0 || now.lat[k] == -2
    ensures forall k :: 0 <= k < |now.lat| ==>
      0 <= seedOf[k] <= k && seedOf[seedOf[k]] == seedOf[k] && now.lat[seedOf[k]] == now.lat[k]
    ensures seeds + (now.nn - start.nn) == |start.lat|
  {
    Lattice.OddCountExtremes(now.lat);
  }

  /** Once every site is marked, every site is joined to its seed by a path
      inside its cluster, along which every site held the seed's old spin. */
  lemma RootedEnd(g: Lattice.Geometry, start: seq<int>, now: seq<int>, seedOf: seq<int>, paths: seq<seq<int>>)
    requires Rooted(g, start, now, seedOf, paths)
    requires forall k :: 0 <= k < |now| ==> now[k] == 0 || now[k] == -2
    ensures |paths| == |start| && forall k :: 0 <= k < |start| ==>
      InCluster(g, start, seedOf, paths[k], k) && start[k] == start[seedOf[k]]
  {
    forall k | 0 <= k < |start|
      ensures InCluster(g, start, seedOf, paths[k], k) && start[k] == start[seedOf[k]]
    {
      assert now[k] % 2 == 0;
      var p := paths[k];
      assert p[|p| - 1] == k;
    }
  }

  /** A marked site is passed over: the sweep moves on with nothing changed. */
  lemma SweepSkip(start: Cluster.Snapshot, now: Cluster.Snapshot, i: int, seeds: nat, seedOf: seq<int>)
    requires Swept(start, now, i, seeds, seedOf) && i < |now.lat| && now.lat[i] % 2 == 0
    ensures Swept(start, now, i + 1, seeds, seedOf)
  {
  }

  /** The lattice part of a seed: the seed `i` held the spin `v` and was
      marked `c`, and the cluster grown from it took the mark. The sites
      before `i` stay marked, `i` is marked, and exactly the cluster's sites
      stopped being odd. */
  lemma SeedMarks(g: Lattice.Geometry, before: seq<int>, marked: seq<int>, after: seq<int>,
                  cluster: seq<int>, parents: seq<int>, i: int, v: int, c: int)
    requires SpinsOrMarks(before) && MarkedBelow(before, i) && 0 <= i < |before|
    requires before[i] == v && (v == 1 || v == -1) && (c == 0 || c == -2)
    requires marked == before[i := c]
    requires Lattice.Expanded(g, marked, after, cluster, parents, v, c) && cluster[0] == i
    ensures SpinsOrMarks(after) && MarkedBelow(after, i + 1)
    ensures Lattice.OddCount(after) == Lattice.OddCount(before) - |cluster|
  {
    forall k | 0 <= k < |after|
      ensures (after[k] == -v <==> marked[k] == -v)
      ensures after[k] == 1 || after[k] == -1 || after[k] == 0 || after[k] == -2
    {
      if k in cluster {
        var m :| 0 <= m < |cluster| && cluster[m] == k;
        assert m == 0 || marked[k] == v;
      }
    }
    assert after[i] == c;
    Lattice.CountOfSame(after, marked, -v);
    Lattice.CountOfUpdate(before, i, v, c);
    Lattice.CountOfSame(marked, before, -v);
    OddAreSpins(before);
    OddAreSpins(after);
  }

  /** The labels of a seed: the cluster's sites, all at or after `i`, are
      labelled `i`; every other marked site keeps its label, whose site is
      not in the cluster. */
  lemma SeedLabels(g: Lattice.Geometry, before: seq<int>, marked: seq<int>, after: seq<int>,
                   cluster: seq<int>, parents: seq<int>, i: int, v: int, c: int, seedOf: seq<int>)
    requires MarkedBelow(before, i) && Labelled(before, seedOf, i) && 0 <= i < |before|
    requires before[i] == v && v % 2 == 1 && c % 2 == 0
    requires marked == before[i := c]
    requires Lattice.Expanded(g, marked, after, cluster, parents, v, c) && cluster[0] == i
    ensures Labelled(after, Relabel(seedOf, before, after, i), i + 1)
  {
    var seedOf' := Relabel(seedOf, before, after, i);
    ClusterIsChange(g, before, marked, after, cluster, parents, i, v, c);
    forall k | 0 <= k < |after| && after[k] % 2 == 0
      ensures 0 <= seedOf'[k] <= k && seedOf'[k] < i + 1 && seedOf'[seedOf'[k]] == seedOf'[k] && after[seedOf'[k]] == after[k]
    {
      if k in cluster {
        var m :| 0 <= m < |cluster| && cluster[m] == k;
        assert m == 0 || marked[k] == v;
      } else {
        var j := seedOf[k];
        assert before[j] == before[k];
      }
    }
  }

  /** A seed on the lattice: the seed `i` held the spin `v` and was marked
      `c`, and the cluster grown from it took the mark. The lattice is
      `Marking` one site further on, under the labels that give the cluster's
      sites the seed `i`. */
  lemma SeedStep(g: Lattice.Geometry, before: seq<int>, marked: seq<int>, after: seq<int>,
                 cluster: seq<int>, parents: seq<int>, i: int, v: int, c: int, seedOf: seq<int>)
    returns (seedOf': seq<int>)
    requires Marking(before, i, seedOf) && 0 <= i < |before|
    requires before[i] == v && v % 2 == 1 && (c == 0 || c == -2)
    requires marked == before[i := c]
    requires Lattice.Expanded(g, marked, after, cluster, parents, v, c) && cluster[0] == i
    ensures seedOf' == Relabel(seedOf, before, after, i)
    ensures Marking(after, i + 1, seedOf')
    ensures Lattice.OddCount(after) == Lattice.OddCount(before) - |cluster|
  {
    SeedMarks(g, before, marked, after, cluster, parents, i, v, c);
    SeedLabels(g, before, marked, after, cluster, parents, i, v, c, seedOf);
    seedOf' := Relabel(seedOf, before, after, i);
  }

  /** The reference for the body of the sweep loop at the odd site `i`: one
      draw, `i` takes the mark it picks, and the cluster is expanded from `i`
      over the sites holding the old spin of `i`. */
  function SeedAt(g: Lattice.Geometry, threshold: Xorshift.Word, s: Cluster.Snapshot, i: int): (r: Cluster.Snapshot)
    requires Lattice.InRange(g) && |s.lat| == Lattice.Size(g) && 0 <= i < |s.lat| && s.lat[i] % 2 == 1
    ensures |r.lat| == |s.lat|
  {
    var x := Xorshift.Next(s.rnd);
    Cluster.Expand(g, threshold, Cluster.Snapshot(s.lat[i := MarkOf(x)], x, s.npn, s.nn), i, s.lat[i], MarkOf(x))
  }

  /** A seed keeps the mark its draw picked: after the complement it holds
      +1 exactly when that draw's low bit is set. */
  lemma SeedKeepsMark(g: Lattice.Geometry, threshold: Xorshift.Word, s: Cluster.Snapshot, i: int)
    requires Lattice.InRange(g) && |s.lat| == Lattice.Size(g) && 0 <= i < |s.lat| && s.lat[i] % 2 == 1
    ensures SeedAt(g, threshold, s, i).lat[i] == MarkOf(Xorshift.Next(s.rnd))
    ensures Not(SeedAt(g, threshold, s, i).lat[i]) == 1 <==> Xorshift.Next(s.rnd).bits & 1 == 1
  {
    var x := Xorshift.Next(s.rnd);
    Cluster.ExpandFacts(g, threshold, Cluster.Snapshot(s.lat[i := MarkOf(x)], x, s.npn, s.nn), i, s.lat[i], MarkOf(x));
  }

  /** The reference for the sweep loop from site `i` on: every site still
      odd when the loop reaches it seeds a cluster. */
  function SweepFrom(g: Lattice.Geometry, threshold: Xorshift.Word, s: Cluster.Snapshot, i: int): (r: Cluster.Snapshot)
    requires Lattice.InRange(g) && |s.lat| == Lattice.Size(g) && 0 <= i <= |s.lat|
    ensures |r.lat| == |s.lat|
    decreases |s.lat| - i
  {
    if i == |s.lat| then s
    else if s.lat[i] % 2 == 0 then SweepFrom(g, threshold, s, i + 1)
    else SweepFrom(g, threshold, SeedAt(g, threshold, s, i), i + 1)
  }

  /** The sites of a cluster grown from the odd seed `i`: all but the seed
      held the seed's spin, so all of them were odd before the mark and had
      the seed's spin before the sweep; all now hold the mark. */
  lemma ClusterSites(g: Lattice.Geometry, start: seq<int>, before: seq<int>, marked: seq<int>, after: seq<int>,
                     cluster: seq<int>, parents: seq<int>, i: int, v: int, c: int)
    requires OddKept(start, before) && 0 <= i < |before|
    requires before[i] == v && v % 2 == 1 && marked == before[i := c]
    requires Lattice.Expanded(g, marked, after, cluster, parents, v, c) && cluster[0] == i
    ensures forall q :: q in cluster ==> 0 <= q < |before| && before[q] % 2 == 1 && after[q] == c && start[q] == start[i]
  {
    forall q | q in cluster
      ensures 0 <= q < |before| && before[q] % 2 == 1 && after[q] == c && start[q] == start[i]
    {
      var m := Lattice.IndexOf(cluster, q);
      if m > 0 {
        assert marked[q] == v;
      }
    }
  }

  /** The growth tree gives each site of the new cluster a path from the
      seed inside the cluster. */
  lemma NewClusterPaths(g: Lattice.Geometry, start: seq<int>, before: seq<int>, after: seq<int>, cluster: seq<int>, parents: seq<int>,
                        i: int, c: int, seedOf: seq<int>, k: int)
    requires |start| == |after| && |before| == |after| && |seedOf| == |after| && c % 2 == 0 && 0 <= i < |after|
    requires Lattice.GrowthTree(g, cluster, parents) && cluster[0] == i && k in cluster
    requires forall q :: q in cluster ==> 0 <= q < |after| && after[q] == c && start[q] == start[i]
    requires forall q :: 0 <= q < |before| ==> (q in cluster <==> q == i || after[q] != before[q])
    ensures var p := Lattice.PathTo(g, cluster, parents, Lattice.IndexOf(cluster, k));
      InCluster(g, start, Relabel(seedOf, before, after, i), p, k) && forall m :: 0 <= m < |p| ==> after[p[m]] % 2 == 0
  {
  }

  /** A site marked before keeps its path: none of its sites is in the new
      cluster, whose sites were all odd. */
  lemma OldClusterPaths(g: Lattice.Geometry, start: seq<int>, before: seq<int>, after: seq<int>, cluster: seq<int>,
                        i: int, seedOf: seq<int>, paths: seq<seq<int>>, k: int)
    requires Reached(g, start, before, seedOf, paths) && |after| == |before|
    requires 0 <= k < |before| && before[k] % 2 == 0
    requires forall q :: 0 <= q < |before| && q in cluster ==> before[q] % 2 == 1
    requires forall q :: 0 <= q < |before| ==> (q in cluster <==> q == i || after[q] != before[q])
    ensures InCluster(g, start, Relabel(seedOf, before, after, i), paths[k], k) && forall m :: 0 <= m < |paths[k]| ==> after[paths[k][m]] % 2 == 0
  {
    var p := paths[k];
    forall m | 0 <= m < |p|
      ensures p[m] !in cluster
    {
      assert before[p[m]] % 2 == 0;
    }
  }

  /** The paths of a seed: the cluster grown from the seed `i` takes the
      paths of its growth tree, every other marked site keeps its path. */
  lemma RootedStep(g: Lattice.Geometry, start: seq<int>, before: seq<int>, marked: seq<int>, after: seq<int>,
                   cluster: seq<int>, parents: seq<int>, i: int, v: int, c: int, seedOf: seq<int>, paths: seq<seq<int>>)
    returns (paths': seq<seq<int>>)
    requires Rooted(g, start, before, seedOf, paths) && 0 <= i < |before|
    requires before[i] == v && v % 2 == 1 && (c == 0 || c == -2)
    requires marked == before[i := c]
    requires Lattice.Expanded(g, marked, after, cluster, parents, v, c) && cluster[0] == i
    ensures Rooted(g, start, after, Relabel(seedOf, before, after, i), paths')
  {
    paths' := seq(|paths|, k requires 0 <= k < |paths| =>
                if k in cluster then Lattice.PathTo(g, cluster, parents, Lattice.IndexOf(cluster, k)) else paths[k]);
    ClusterSites(g, start, before, marked, after, cluster, parents, i, v, c);
    ClusterIsChange(g, before, marked, after, cluster, parents, i, v, c);
    forall k | 0 <= k < |after| && after[k] % 2 == 1
      ensures after[k] == start[k]
    {
      assert k !in cluster;
    }
    forall k | 0 <= k < |after| && after[k] % 2 == 0
      ensures InCluster(g, start, Relabel(seedOf, before, after, i), paths'[k], k) && forall m :: 0 <= m < |paths'[k]| ==> after[paths'[k][m]] % 2 == 0
    {
      if k in cluster {
        NewClusterPaths(g, start, before, after, cluster, parents, i, c, seedOf, k);
      } else {
        assert k != i;
        OldClusterPaths(g, start, before, after, cluster, i, seedOf, paths, k);
      }
    }
  }

  /** An odd site `i` becomes the seed of a cluster: one draw picks its mark
      `c`, the cluster grown from `i` over the sites holding its spin takes
      that mark, and the sweep moves on with one seed more. */
  lemma SweepSeed(g: Lattice.Geometry, start: Cluster.Snapshot, before: Cluster.Snapshot, now: Cluster.Snapshot,
                  i: int, seeds: nat, seedOf: seq<int>, c: int, cluster: seq<int>, parents: seq<int>, draws: nat)
    requires Swept(start, before, i, seeds, seedOf) && i < |before.lat| && before.lat[i] % 2 == 1
    requires (c == 0 || c == -2)
    requires Lattice.Expanded(g, before.lat[i := c], now.lat, cluster, parents, before.lat[i], c) && cluster[0] == i
    requires now.rnd == Xorshift.Iterate(Xorshift.Next(before.rnd), draws)
    requires now.npn == before.npn + draws && now.nn == before.nn + |cluster| - 1
    ensures Swept(start, now, i + 1, seeds + 1, Relabel(seedOf, before.lat, now.lat, i))
  {
    var _ := SeedStep(g, before.lat, before.lat[i := c], now.lat, cluster, parents, i, before.lat[i], c, seedOf);
    Xorshift.DrawThenRun(start.rnd, before.rnd, now.rnd, seeds + (before.npn - start.npn), draws, (seeds + 1) + (now.npn - start.npn));
  }

  /** The reference seed at an odd site keeps the sweep going, with one seed
      more. */
  lemma SweepSeedAt(g: Lattice.Geometry, threshold: Xorshift.Word, start: Cluster.Snapshot, before: Cluster.Snapshot,
                    i: int, seeds: nat, seedOf: seq<int>)
    requires Lattice.InRange(g) && |before.lat| == Lattice.Size(g)
    requires Swept(start, before, i, seeds, seedOf) && i < |before.lat| && before.lat[i] % 2 == 1
    ensures var now := SeedAt(g, threshold, before, i);
      Swept(start, now, i + 1, seeds + 1, Relabel(seedOf, before.lat, now.lat, i))
  {
    var x := Xorshift.Next(before.rnd);
    var c := MarkOf(x);
    var marked := Cluster.Snapshot(before.lat[i := c], x, before.npn, before.nn);
    var now := SeedAt(g, threshold, before, i);
    var cluster, parents, draws := Cluster.ExpandGrown(g, threshold, marked, i, before.lat[i], c);
    assert Lattice.Expanded(g, marked.lat, now.lat, cluster, parents, before.lat[i], c);
    SweepSeed(g, start, before, now, i, seeds, seedOf, c, cluster, parents, draws);
  }

  /** The reference seed at an odd site keeps every marked site rooted at its
      seed. */
  lemma RootedAt(g: Lattice.Geometry, threshold: Xorshift.Word, start: seq<int>, before: Cluster.Snapshot,
                 i: int, seedOf: seq<int>, paths: seq<seq<int>>)
    returns (paths': seq<seq<int>>)
    requires Lattice.InRange(g) && |before.lat| == Lattice.Size(g) && 0 <= i < |before.lat| && before.lat[i] % 2 == 1
    requires Rooted(g, start, before.lat, seedOf, paths)
    ensures var now := SeedAt(g, threshold, before, i);
      Rooted(g, start, now.lat, Relabel(seedOf, before.lat, now.lat, i), paths')
  {
    var x := Xorshift.Next(before.rnd);
    var c := MarkOf(x);
    var marked := Cluster.Snapshot(before.lat[i := c], x, before.npn, before.nn);
    var now := SeedAt(g, threshold, before, i);
    var cluster, parents, draws := Cluster.ExpandGrown(g, threshold, marked, i, before.lat[i], c);
    assert Lattice.Expanded(g, marked.lat, now.lat, cluster, parents, before.lat[i], c);
    paths' := RootedStep(g, start, before.lat, marked.lat, now.lat, cluster, parents, i, before.lat[i], c, seedOf, paths);
  }

  /** The labels the reference sweep from site `i` on leaves behind. */
  function LabelsFrom(g: Lattice.Geometry, threshold: Xorshift.Word, s: Cluster.Snapshot, i: int, seedOf: seq<int>): (r: seq<int>)
    requires Lattice.InRange(g) && |s.lat| == Lattice.Size(g) && 0 <= i <= |s.lat|
    ensures |r| == |seedOf|
    decreases |s.lat| - i
  {
    if i == |s.lat| then seedOf
    else if s.lat[i] % 2 == 0 then LabelsFrom(g, threshold, s, i + 1, seedOf)
    else
      var t := SeedAt(g, threshold, s, i);
      LabelsFrom(g, threshold, t, i + 1, Relabel(seedOf, s.lat, t.lat, i))
  }

  /** The reference sweep from site `i` on keeps the sweep going to its end. */
  lemma {:induction false} SweptOn(g: Lattice.Geometry, threshold: Xorshift.Word, start: Cluster.Snapshot, s: Cluster.Snapshot,
                                   i: int, seeds: nat, seedOf: seq<int>)
    returns (seeds': nat)
    requires Lattice.InRange(g) && |s.lat| == Lattice.Size(g)
    requires Swept(start, s, i, seeds, seedOf)
    ensures Swept(start, SweepFrom(g, threshold, s, i), |start.lat|, seeds', LabelsFrom(g, threshold, s, i, seedOf))
    decreases |s.lat| - i
  {
    if i == |s.lat| {
      seeds' := seeds;
    } else if s.lat[i] % 2 == 0 {
      SweepSkip(start, s, i, seeds, seedOf);
      seeds' := SweptOn(g, threshold, start, s, i + 1, seeds, seedOf);
    } else {
      var t := SeedAt(g, threshold, s, i);
      SweepSeedAt(g, threshold, start, s, i, seeds, seedOf);
      seeds' := SweptOn(g, threshold, start, t, i + 1, seeds + 1, Relabel(seedOf, s.lat, t.lat, i));
    }
  }

  /** The reference sweep from site `i` on keeps every marked site rooted. */
  lemma {:induction false} RootedOn(g: Lattice.Geometry, threshold: Xorshift.Word, start: seq<int>, s: Cluster.Snapshot,
                                    i: int, seedOf: seq<int>, paths: seq<seq<int>>)
    returns (paths': seq<seq<int>>)
    requires Lattice.InRange(g) && |s.lat| == Lattice.Size(g) && 0 <= i <= |s.lat|
    requires Rooted(g, start, s.lat, seedOf, paths)
    ensures Rooted(g, start, SweepFrom(g, threshold, s, i).lat, LabelsFrom(g, threshold, s, i, seedOf), paths')
    decreases |s.lat| - i
  {
    if i == |s.lat| {
      paths' := paths;
    } else if s.lat[i] % 2 == 0 {
      paths' := RootedOn(g, threshold, start, s, i + 1, seedOf, paths);
    } else {
      var t := SeedAt(g, threshold, s, i);
      var p := RootedAt(g, threshold, start, s, i, seedOf, paths);
      paths' := RootedOn(g, threshold, start, t, i + 1, Relabel(seedOf, s.lat, t.lat, i), p);
    }
  }

  /** The whole reference sweep from a lattice of spins is a sweep whose
      every marked site is rooted at its seed. */
  lemma SweepAll(g: Lattice.Geometry, threshold: Xorshift.Word, start: Cluster.Snapshot)
    returns (seeds: nat, paths: seq<seq<int>>)
    requires Lattice.InRange(g) && |start.lat| == Lattice.Size(g) && Lattice.AllSpins(start.lat)
    ensures var r, labels := SweepFrom(g, threshold, start, 0), LabelsFrom(g, threshold, start, 0, seq(|start.lat|, k => k));
      Swept(start, r, |start.lat|, seeds, labels) && Rooted(g, start.lat, r.lat, labels, paths)
  {
    var p0 := SweepStart(g, start);
    seeds := SweptOn(g, threshold, start, start, 0, 0, seq(|start.lat|, k => k));
    paths := RootedOn(g, threshold, start.lat, start, 0, seq(|start.lat|, k => k), p0);
  }

  /** What the whole reference sweep leaves: every site marked with its
      seed's mark, its seed at or before it and joined to it by a path inside
      its cluster of sites that held the seed's spin; one seed or one `Nn++`
      per site; one draw per seed and one per tested bond. */
  lemma SweepResult(g: Lattice.Geometry, threshold: Xorshift.Word, start: Cluster.Snapshot, r: Cluster.Snapshot)
    returns (seeds: nat, labels: seq<int>, paths: seq<seq<int>>)
    requires Lattice.InRange(g) && |start.lat| == Lattice.Size(g) && Lattice.AllSpins(start.lat)
    requires r == SweepFrom(g, threshold, start, 0)
    ensures labels == LabelsFrom(g, threshold, start, 0, seq(|start.lat|, k => k))
    ensures forall k :: 0 <= k < |r.lat| ==> r.lat[k] == 0 || r.lat[k] == -2
    ensures |labels| == |r.lat| && forall k :: 0 <= k < |r.lat| ==>
      0 <= labels[k] <= k && labels[labels[k]] == labels[k] && r.lat[labels[k]] == r.lat[k]
    ensures |paths| == |start.lat| && forall k :: 0 <= k < |start.lat| ==>
      InCluster(g, start.lat, labels, paths[k], k) && start.lat[k] == start.lat[labels[k]]
    ensures seeds + (r.nn - start.nn) == |start.lat|
    ensures start.npn <= r.npn && r.rnd == Xorshift.Iterate(start.rnd, seeds + (r.npn - start.npn))
  {
    labels := LabelsFrom(g, threshold, start, 0, seq(|start.lat|, k => k));
    seeds, paths := SweepAll(g, threshold, start);
    SweepEnd(start, r, seeds, labels);
    RootedEnd(g, start.lat, r.lat, labels, paths);
  }

  /** The self-bond of a last-column site (`rn[L-1] = 0`) is never drawn for:
      the site already holds its cluster's mark, so the test leaves every
      part of the state as it was. */
  lemma SelfBondUntouched(L: int, threshold: Xorshift.Word, start: Cluster.Snapshot, now: Cluster.Snapshot,
                          more: seq<int>, moreParents: seq<int>, draws: nat, site: int, v: int, w: int)
    requires 2 <= L && 0 <= site < L * L && site % L == L - 1
    requires 0 <= site < |start.lat| && start.lat[site] == w && w != v
    requires Cluster.Tested(Lattice.Tables(L, L, 0), threshold, start, now, more, moreParents, draws,
                            Lattice.Neighbours(Lattice.Tables(L, L, 0), site)[0], v, w)
    ensures draws == 0 && more == [] && now == start
  {
    Lattice.RightWrapIsSelf(L, L, site);
    assert now.lat == start.lat;
  }

  class SwendsenWang {
    const L: int
    const N: int
    const shift: nat
    /** The bond threshold `exp(-2k) * 2^64`, computed in floating point
        by the caller. */
    const probBond: Xorshift.Word
    const lat: array<int>
    const rn: array<int>
    const ln: array<int>
    const un: array<int>
    const dn: array<int>
    var rnd: Xorshift.Word
    var spin: int
    var npn: nat
    var nn: nat
    /** The neighbour tables as a value; the arrays hold it once `main` has
        filled them. */
    ghost const grid: Lattice.Geometry

    /** The sizes, the geometry with `rn[L-1] = 0` and the separation of the
        lattice from the tables: facts about the constants alone. */
    ghost predicate Shape()
    {
      2 <= L && L == Lattice.Pow2(shift) && N == L * L &&
      lat.Length == N && rn.Length == L && ln.Length == L && un.Length == L && dn.Length == L &&
      lat != rn && lat != ln && lat != un && lat != dn &&
      grid == Lattice.Tables(L, L, 0) && Lattice.InRange(grid)
    }

    /** The lattice, the register and the counters as a value. */
    ghost function Snap(): Cluster.Snapshot
      reads this`rnd, this`npn, this`nn, lat
    {
      Cluster.Snapshot(lat[..], rnd, npn, nn)
    }

    /** The class invariant: the tables hold the geometry. */
    ghost predicate Valid()
      reads rn, ln, un, dn
    {
      Shape() && rn[..] == grid.rn && ln[..] == grid.ln && un[..] == grid.un && dn[..] == grid.dn
    }

    /** The initialisation part of `main`: the shift loop, the seed, the lattice
        set to +1 with one draw per site, and the neighbour tables. */
    constructor (L: int, seed: Xorshift.Word, probBond: Xorshift.Word)
      requires 2 <= L && Lattice.IsPowerOfTwo(L)
      ensures Valid() && this.L == L && this.probBond == probBond
      ensures fresh(lat) && fresh(rn) && fresh(ln) && fresh(un) && fresh(dn)
      ensures forall j :: 0 <= j < N ==> lat[j] == 1
      ensures rnd == Xorshift.Iterate(seed, N)
      ensures npn == 0 && nn == 0
    {
      this.L := L;
      N := L * L;
      var s := Lattice.ShiftLoop(L);
      Lattice.ShiftIsLog2(L, s);
      shift := s;
      this.probBond := probBond;
      lat := new int[L * L];
      rn := new int[L];
      ln := new int[L];
      un := new int[L];
      dn := new int[L];
      grid := Lattice.Tables(L, L, 0);
      rnd := seed;
      spin := 0;
      npn, nn := 0, 0;
      new;
      InitSpins(seed);
      InitTables();
      Lattice.TablesInRange(L, L, 0);
    }

    /** The first loop of `main`: one draw per site, every spin set to +1. */
    method InitSpins(ghost seed: Xorshift.Word)
      requires lat.Length == N && rnd == seed
      modifies this`rnd, lat
      ensures rnd == Xorshift.Iterate(seed, N)
      ensures forall j :: 0 <= j < N ==> lat[j] == 1
    {
      var i := 0;
      while i < N
        invariant 0 <= i <= N
        invariant rnd == Xorshift.Iterate(seed, i)
        invariant forall j :: 0 <= j < i ==> lat[j] == 1
      {
        Xorshift64();
        lat[i] := 1;
        i := i + 1;
      }
    }

    /** The second loop of `main` and the boundary conditions:
        `ln[0] = L-1`, `rn[L-1] = 0`, `dn[0] = (L-1)*L`, `un[L-1] = -dn[0]`. */
    method InitTables()
      requires 2 <= L && rn.Length == L && ln.Length == L && un.Length == L && dn.Length == L
      requires rn != ln && rn != un && rn != dn && ln != un && ln != dn && un != dn
      modifies rn, ln, un, dn
      ensures Lattice.Grid(L, L, rn[..], ln[..], un[..], dn[..]) == Lattice.Tables(L, L, 0)
    {
      var i := 0;
      while i < L
        invariant 0 <= i <= L
        invariant forall j :: 0 <= j < i ==> rn[j] == 1 && ln[j] == -1 && un[j] == L && dn[j] == -L
      {
        rn[i] := 1;
        ln[i] := -1;
        un[i] := L;
        dn[i] := -L;
        i := i + 1;
      }
      ln[0] := L - 1;
      rn[L - 1] := 0;
      dn[0] := (L - 1) * L;
      un[L - 1] := -dn[0];
      Lattice.TablesFromEntries(L, L, 0, rn[..], ln[..], un[..], dn[..]);
    }

    /** `xorshift64()`: one draw. */
    method Xorshift64()
      modifies this`rnd
      ensures rnd == Xorshift.Next(old(rnd))
    {
      var x := rnd.bits;
      x := Xorshift.Left13(x);
      x := Xorshift.Right7(x);
      x := Xorshift.Left17(x);
      rnd := Xorshift.Word(x);
    }

    /** `expand_cluster(site)`: tests the right, left, up and down neighbours in
        that order, and gives every annexed site the mark `lat[site]`; the new
        state is the reference expansion of the old one. */
    method ExpandCluster(site: int)
      requires Valid()
      requires 0 <= site < N && lat[site] != spin
      modifies this`rnd, this`npn, this`nn, lat
      decreases Lattice.CountOf(lat[..], spin), 2
      ensures Snap() == Cluster.Expand(grid, probBond, old(Snap()), site, spin, old(lat[site]))
    {
      ghost var start := Snap();
      ghost var w := lat[site];
      var neigh := Lookup(site);
      for k := 0 to 4
        invariant lat[site] == w
        invariant Lattice.CountOf(lat[..], spin) <= Lattice.CountOf(start.lat, spin)
        invariant Cluster.TestAll(grid, probBond, Snap(), neigh, k, spin, w) == Cluster.Expand(grid, probBond, start, site, spin, w)
      {
        TestNeighbour(neigh[k], site);
      }
    }

    /** The neighbour list at the top of `expand_cluster`: the column is
        `site & (L-1)`, the row `site >> shift`, and the four tables give the
        right, left, up and down neighbours. */
    method Lookup(site: int) returns (neigh: seq<int>)
      requires Valid() && 0 <= site < N
      ensures neigh == Lattice.Neighbours(grid, site)
      ensures forall d :: 0 <= d < 4 ==> 0 <= neigh[d] < N
    {
      Lattice.MaskedLookup(grid, shift, site);
      var x := Lattice.And(site, L - 1);
      var y := Lattice.Shr(site, shift);
      neigh := [site + rn[x], site + ln[x], site + un[y], site + dn[y]];
    }

    /** One pass of the loop in `expand_cluster(site)`, for the neighbour `n`:
        when it still holds `spin` it costs one draw and one `Npn++`, and it
        joins the cluster when the draw is above `probBond`. The mark of
        `site` stays. */
    method TestNeighbour(n: int, site: int)
      requires Valid()
      requires 0 <= n < N && 0 <= site < N && lat[site] != spin
      modifies this`rnd, this`npn, this`nn, lat
      decreases Lattice.CountOf(lat[..], spin), 1
      ensures Snap() == Cluster.Test(grid, probBond, old(Snap()), n, spin, old(lat[site]))
      ensures lat[site] == old(lat[site])
    {
      ghost var s0 := Snap();
      ghost var w := lat[site];
      if lat[n] == spin {
        npn := npn + 1;
        Xorshift64();
        Cluster.TestDraws(grid, probBond, s0, n, spin, w);
        assert Snap() == Cluster.Snapshot(s0.lat, Xorshift.Next(s0.rnd), s0.npn + 1, s0.nn);
        if Xorshift.Accepts(rnd, probBond) {
          Join(n, site);
        }
      }
      Cluster.TestFacts(grid, probBond, s0, n, spin, w);
    }

    /** The accepted bond: `Nn++`, `lat[n] = lat[site]`, and the expansion from
        `n`. */
    method Join(n: int, site: int)
      requires Valid()
      requires 0 <= n < N && 0 <= site < N && lat[n] == spin && lat[site] != spin
      modifies this`rnd, this`nn, this`npn, lat
      decreases Lattice.CountOf(lat[..], spin), 0
      ensures Snap() == Cluster.Expand(grid, probBond, Cluster.Snapshot(old(lat[..])[n := old(lat[site])], old(rnd), old(npn), old(nn) + 1),
                                       n, spin, old(lat[site]))
    {
      nn := nn + 1;
      ghost var before := lat[..];
      ghost var w := lat[site];
      lat[n] := lat[site];
      assert lat[..] == before[n := w];
      Lattice.CountOfUpdate(before, n, spin, w);
      ExpandCluster(n);
    }

    /** The sweep loop of `main`: every site still odd seeds a cluster; one draw
        picks the cluster's mark and the cluster is expanded from it. The
        ghost results count the clusters and give each site's seed. */
    method Sweep() returns (ghost seeds: nat, ghost seedOf: seq<int>, ghost paths: seq<seq<int>>)
      requires Valid() && Lattice.AllSpins(lat[..])
      modifies this`rnd, this`npn, this`nn, this`spin, lat
      ensures Snap() == SweepFrom(grid, probBond, old(Snap()), 0)
      ensures var now := lat[..]; forall j :: 0 <= j < N ==> now[j] == 0 || now[j] == -2
      ensures var now := lat[..]; |seedOf| == N && forall j :: 0 <= j < N ==>
        0 <= seedOf[j] <= j && seedOf[seedOf[j]] == seedOf[j] && now[seedOf[j]] == now[j]
      ensures var before := old(lat[..]); |paths| == N && forall j :: 0 <= j < N ==>
        InCluster(grid, before, seedOf, paths[j], j) && before[j] == before[seedOf[j]]
      ensures seeds + (nn - old(nn)) == N
      ensures old(npn) <= npn && rnd == Xorshift.Iterate(old(rnd), seeds + (npn - old(npn)))
    {
      ghost var start := Snap();
      SweepLoop();
      seeds, seedOf, paths := SweepResult(grid, probBond, start, Snap());
    }

    /** The sweep loop itself: every site still odd when the loop reaches it
        seeds a cluster. */
    method SweepLoop()
      requires Valid()
      modifies this`rnd, this`npn, this`nn, this`spin, lat
      ensures Snap() == SweepFrom(grid, probBond, old(Snap()), 0)
    {
      ghost var start := Snap();
      for i := 0 to N
        invariant SweepFrom(grid, probBond, Snap(), i) == SweepFrom(grid, probBond, start, 0)
      {
        if lat[i] % 2 == 1 {
          Seed(i);
        }
      }
      ghost var swept := Snap();
      assert swept == SweepFrom(grid, probBond, swept, N);
    }

    /** The body of the sweep loop at a site still outside every cluster:
        save its spin, draw its cluster's mark (-2 when the low bit of `rnd`
        is set, 0 otherwise) and expand the cluster from it. */
    method Seed(i: int)
      requires Valid() && 0 <= i < N && lat[i] % 2 == 1
      modifies this`rnd, this`npn, this`nn, this`spin, lat
      ensures spin == old(lat[i])
      ensures Snap() == SeedAt(grid, probBond, old(Snap()), i)
      ensures Not(lat[i]) == 1 <==> Xorshift.Next(old(rnd)).bits & 1 == 1
    {
      ghost var before := Snap();
      spin := lat[i];
      Xorshift64();
      if rnd.bits & 1 == 1 {
        lat[i] := -2;
      } else {
        lat[i] := 0;
      }
      ghost var marked := Snap();
      assert marked == Cluster.Snapshot(before.lat[i := MarkOf(rnd)], rnd, before.npn, before.nn);
      ExpandCluster(i);
      SeedKeepsMark(grid, probBond, before, i);
    }

    /** The complement loop of `main`: `lat[i] = ~lat[i]` for every site. */
    method Complement()
      modifies lat
      ensures forall j :: 0 <= j < lat.Length ==> lat[j] == Not(old(lat[j]))
    {
      for i := 0 to lat.Length
        invariant forall j :: 0 <= j < i ==> lat[j] == Not(old(lat[j]))
        invariant forall j :: i <= j < lat.Length ==> lat[j] == old(lat[j])
      {
        lat[i] := Not(lat[i]);
      }
    }

    /** The single update of `main`: the sweep and the complement. Every site
        holds a spin again, the one that its cluster's mark stands for, so
        every site has the new spin of its cluster's seed. */
    method Update() returns (ghost seeds: nat, ghost seedOf: seq<int>, ghost paths: seq<seq<int>>)
      requires Valid() && Lattice.AllSpins(lat[..])
      modifies this`rnd, this`npn, this`nn, this`spin, lat
      ensures var swept := SweepFrom(grid, probBond, old(Snap()), 0);
        rnd == swept.rnd && npn == swept.npn && nn == swept.nn && forall j :: 0 <= j < N ==> lat[j] == Not(swept.lat[j])
      ensures Lattice.AllSpins(lat[..])
      ensures |seedOf| == N && forall j :: 0 <= j < N ==>
        0 <= seedOf[j] <= j && seedOf[seedOf[j]] == seedOf[j] && lat[seedOf[j]] == lat[j]
      ensures |paths| == N && forall j :: 0 <= j < N ==>
        InCluster(grid, old(lat[..]), seedOf, paths[j], j) && old(lat[..])[j] == old(lat[..])[seedOf[j]]
      ensures seeds + (nn - old(nn)) == N
      ensures old(npn) <= npn && rnd == Xorshift.Iterate(old(rnd), seeds + (npn - old(npn)))
    {
      seeds, seedOf, paths := Sweep();
      ghost var swept := lat[..];
      Complement();
      forall j | 0 <= j < N
        ensures lat[j] == 1 || lat[j] == -1
      {
        NotMarks(swept[j]);
      }
    }
  }
}
