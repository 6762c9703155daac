/** One update of the Wolff single-cluster algorithm on the periodic `L*L`
    Ising lattice: the global register `rnd`, the lattice `lat`, the neighbour
    tables and the bond counters `Npn` (bonds tested) and `Nn` (bonds accepted)
    are the fields of one object. */
module SingleCluster {
  import Xorshift
  import Lattice
  import Cluster

  /** The single update from `start`: the register takes one draw, which
      picks the seed `i`; the cluster grown from it is a growth tree, its sites
      all held the seed's spin and now hold the opposite, and the `draws`
      bond tests after the first draw account for the counters. */
  ghost predicate Updated(g: Lattice.Geometry, threshold: Xorshift.Word, start: Cluster.Snapshot, now: Cluster.Snapshot,
                          cluster: seq<int>, parents: seq<int>, draws: nat, i: int)
  {
    0 <= i < |start.lat| && Lattice.GrowthTree(g, cluster, parents) && cluster[0] == i &&
    Lattice.HeldValue(start.lat, cluster, 0, start.lat[i]) &&
    Lattice.Recolours(start.lat, now.lat, cluster, -start.lat[i]) &&
    Lattice.CountOf(now.lat, start.lat[i]) == Lattice.CountOf(start.lat, start.lat[i]) - |cluster| &&
    now.npn == start.npn + draws && draws <= 4 * |cluster| && now.nn == start.nn + |cluster| - 1 &&
    Xorshift.Ledger(Xorshift.Next(start.rnd), draws, threshold, now.rnd, |cluster| - 1)
  }

  /** The single update is the flip of the seed followed by an expansion from
      it: the seed, which held `start.lat[i]`, joins the cluster's recoloured
      sites, and the draw that chose it precedes the expansion's run. */
  lemma FlipThenGrow(g: Lattice.Geometry, threshold: Xorshift.Word, start: Cluster.Snapshot, flipped: Cluster.Snapshot, now: Cluster.Snapshot,
                     cluster: seq<int>, parents: seq<int>, draws: nat, i: int)
    requires 0 <= i < |start.lat| && (start.lat[i] == 1 || start.lat[i] == -1)
    requires flipped == Cluster.Snapshot(start.lat[i := -start.lat[i]], Xorshift.Next(start.rnd), start.npn, start.nn)
    requires Cluster.Grown(g, threshold, flipped, now, cluster, parents, draws, start.lat[i], -start.lat[i]) && cluster[0] == i
    requires draws <= 4 * |cluster|
    ensures Updated(g, threshold, start, now, cluster, parents, draws, i)
  {
    Lattice.AnnexSeed(g, start.lat, flipped.lat, now.lat, cluster, parents, i, start.lat[i], -start.lat[i]);
  }

  /** What the single update promises on a lattice of spins: the seed holds
      the opposite of its old spin, the lattice still holds spins, the sites
      that changed are exactly the cluster's and each went from the seed's
      spin to its opposite, the cluster has at most `N` sites (the depth of
      the recursion), and no more bonds were accepted than tested. */
  lemma UpdatedMeans(g: Lattice.Geometry, threshold: Xorshift.Word, start: Cluster.Snapshot, now: Cluster.Snapshot,
                     cluster: seq<int>, parents: seq<int>, draws: nat, i: int)
    requires Updated(g, threshold, start, now, cluster, parents, draws, i) && Lattice.AllSpins(start.lat)
    ensures now.lat[i] == -start.lat[i]
    ensures Lattice.AllSpins(now.lat)
    ensures forall k :: 0 <= k < |start.lat| ==> (now.lat[k] != start.lat[k] <==> k in cluster)
    ensures forall k :: 0 <= k < |start.lat| && now.lat[k] != start.lat[k] ==>
      start.lat[k] == start.lat[i] && now.lat[k] == -start.lat[i]
    ensures |cluster| <= |start.lat|
    ensures now.nn - start.nn <= now.npn - start.npn
  {
    forall k | 0 <= k < |start.lat| && k in cluster
      ensures start.lat[k] == start.lat[i]
    {
      var m :| 0 <= m < |cluster| && cluster[m] == k;
    }
    Lattice.CountOfBound(start.lat, start.lat[i]);
    Xorshift.AcceptedBound(Xorshift.Next(start.rnd), draws, threshold);
  }

  /** Every site the single update changed is joined to the seed by a path of
      neighbouring sites that all held the seed's spin and all changed: the
      update never reaches outside the seed's same-spin component. */
  lemma ChangedSiteReached(g: Lattice.Geometry, threshold: Xorshift.Word, start: Cluster.Snapshot, now: Cluster.Snapshot,
                           cluster: seq<int>, parents: seq<int>, draws: nat, i: int, k: int)
    returns (p: seq<int>)
    requires Updated(g, threshold, start, now, cluster, parents, draws, i) && Lattice.AllSpins(start.lat)
    requires 0 <= k < |start.lat| && now.lat[k] != start.lat[k]
    ensures |p| >= 1 && p[0] == i && p[|p| - 1] == k && Lattice.IsPath(g, p)
    ensures forall q :: 0 <= q < |p| ==>
      0 <= p[q] < |start.lat| && start.lat[p[q]] == start.lat[i] && now.lat[p[q]] == -start.lat[i]
  {
    UpdatedMeans(g, threshold, start, now, cluster, parents, draws, i);
    var m :| 0 <= m < |cluster| && cluster[m] == k;
    p := Lattice.PathTo(g, cluster, parents, m);
  }

  class Wolff {
    const L: int
    const N: int
    const shift: nat
    /** The bond threshold `exp(-2k) * 2^64`, computed in floating point
        by the caller. */
    const probBond: Xorshift.Word
    const lat: array<int>
    const rn: array<int>
    const ln: array<int>
    const un: array<int>
    const dn: array<int>
    var rnd: Xorshift.Word
    var spin: int
    var npn: nat
    var nn: nat
    /** The neighbour tables as a value; the arrays hold it once `main` has
        filled them. */
    ghost const grid: Lattice.Geometry

    /** The sizes, the periodic geometry and the separation of the lattice
        from the tables: facts about the constants alone. */
    ghost predicate Shape()
    {
      2 <= L && L == Lattice.Pow2(shift) && N == L * L &&
      lat.Length == N && rn.Length == L && ln.Length == L && un.Length == L && dn.Length == L &&
      lat != rn && lat != ln && lat != un && lat != dn &&
      grid == Lattice.Periodic(L) && Lattice.InRange(grid)
    }

    /** The lattice, the register and the counters as a value. */
    ghost function Snap(): Cluster.Snapshot
      reads this`rnd, this`npn, this`nn, lat
    {
      Cluster.Snapshot(lat[..], rnd, npn, nn)
    }

    /** The class invariant: the tables hold the periodic geometry. */
    ghost predicate Valid()
      reads rn, ln, un, dn
    {
      Shape() && rn[..] == grid.rn && ln[..] == grid.ln && un[..] == grid.un && dn[..] == grid.dn
    }

    /** The initialisation part of `main`: the shift loop, the seed, the lattice
        set to +1 with one draw per site, and the periodic neighbour tables. */
    constructor (L: int, seed: Xorshift.Word, probBond: Xorshift.Word)
      requires 2 <= L && Lattice.IsPowerOfTwo(L)
      ensures Valid() && this.L == L && this.probBond == probBond
      ensures fresh(lat) && fresh(rn) && fresh(ln) && fresh(un) && fresh(dn)
      ensures forall j :: 0 <= j < N ==> lat[j] == 1
      ensures rnd == Xorshift.Iterate(seed, N)
      ensures npn == 0 && nn == 0
    {
      this.L := L;
      N := L * L;
      var s := Lattice.ShiftLoop(L);
      Lattice.ShiftIsLog2(L, s);
      shift := s;
      this.probBond := probBond;
      lat := new int[L * L];
      rn := new int[L];
      ln := new int[L];
      un := new int[L];
      dn := new int[L];
      grid := Lattice.Periodic(L);
      rnd := seed;
      spin := 0;
      npn, nn := 0, 0;
      new;
      InitSpins(seed);
      InitTables();
      Lattice.TablesInRange(L, L, -(L - 1));
    }

    /** The first loop of `main`: one draw per site, every spin set to +1. */
    method InitSpins(ghost seed: Xorshift.Word)
      requires lat.Length == N && rnd == seed
      modifies this`rnd, lat
      ensures rnd == Xorshift.Iterate(seed, N)
      ensures forall j :: 0 <= j < N ==> lat[j] == 1
    {
      var i := 0;
      while i < N
        invariant 0 <= i <= N
        invariant rnd == Xorshift.Iterate(seed, i)
        invariant forall j :: 0 <= j < i ==> lat[j] == 1
      {
        Xorshift64();
        lat[i] := 1;
        i := i + 1;
      }
    }

    /** The second loop of `main` and the boundary conditions:
        `ln[0] = L-1`, `rn[L-1] = -ln[0]`, `dn[0] = (L-1)*L`, `un[L-1] = -dn[0]`. */
    method InitTables()
      requires 2 <= L && rn.Length == L && ln.Length == L && un.Length == L && dn.Length == L
      requires rn != ln && rn != un && rn != dn && ln != un && ln != dn && un != dn
      modifies rn, ln, un, dn
      ensures Lattice.Grid(L, L, rn[..], ln[..], un[..], dn[..]) == Lattice.Periodic(L)
    {
      var i := 0;
      while i < L
        invariant 0 <= i <= L
        invariant forall j :: 0 <= j < i ==> rn[j] == 1 && ln[j] == -1 && un[j] == L && dn[j] == -L
      {
        rn[i] := 1;
        ln[i] := -1;
        un[i] := L;
        dn[i] := -L;
        i := i + 1;
      }
      ln[0] := L - 1;
      rn[L - 1] := -ln[0];
      dn[0] := (L - 1) * L;
      un[L - 1] := -dn[0];
      Lattice.TablesFromEntries(L, L, -(L - 1), rn[..], ln[..], un[..], dn[..]);
    }

    /** `xorshift64()`: one draw. */
    method Xorshift64()
      modifies this`rnd
      ensures rnd == Xorshift.Next(old(rnd))
    {
      var x := rnd.bits;
      x := Xorshift.Left13(x);
      x := Xorshift.Right7(x);
      x := Xorshift.Left17(x);
      rnd := Xorshift.Word(x);
    }

    /** `expand_cluster(site)`: tests the right, left, up and down neighbours in
        that order; the new state is the reference expansion of the old one. */
    method ExpandCluster(site: int)
      requires Valid()
      requires 0 <= site < N && (spin == 1 || spin == -1) && lat[site] == -spin
      modifies this`rnd, this`npn, this`nn, lat
      decreases Lattice.CountOf(lat[..], spin), 2
      ensures Snap() == Cluster.Expand(grid, probBond, old(Snap()), site, spin, -spin)
    {
      ghost var start := Snap();
      ghost var w := -spin;
      var neigh := Lookup(site);
      for k := 0 to 4
        invariant Lattice.CountOf(lat[..], spin) <= Lattice.CountOf(start.lat, spin)
        invariant Cluster.TestAll(grid, probBond, Snap(), neigh, k, spin, w) == Cluster.Expand(grid, probBond, start, site, spin, w)
      {
        TestNeighbour(neigh[k]);
      }
    }

    /** The neighbour list at the top of `expand_cluster`: the column is
        `site & (L-1)`, the row `site >> shift`, and the four tables give the
        right, left, up and down neighbours. */
    method Lookup(site: int) returns (neigh: seq<int>)
      requires Valid() && 0 <= site < N
      ensures neigh == Lattice.Neighbours(grid, site)
      ensures forall d :: 0 <= d < 4 ==> 0 <= neigh[d] < N
    {
      Lattice.MaskedLookup(grid, shift, site);
      var x := Lattice.And(site, L - 1);
      var y := Lattice.Shr(site, shift);
      neigh := [site + rn[x], site + ln[x], site + un[y], site + dn[y]];
    }

    /** One pass of the loop in `expand_cluster`, for the neighbour `n`: when it
        still holds `spin` it costs one draw and one `Npn++`, and it joins the
        cluster when the draw is above `probBond`. */
    method TestNeighbour(n: int)
      requires Valid()
      requires 0 <= n < N && (spin == 1 || spin == -1)
      modifies this`rnd, this`npn, this`nn, lat
      decreases Lattice.CountOf(lat[..], spin), 1
      ensures Snap() == Cluster.Test(grid, probBond, old(Snap()), n, spin, -spin)
    {
      ghost var s0 := Snap();
      if lat[n] == spin {
        npn := npn + 1;
        Xorshift64();
        Cluster.TestDraws(grid, probBond, s0, n, spin, -spin);
        assert Snap() == Cluster.Snapshot(s0.lat, Xorshift.Next(s0.rnd), s0.npn + 1, s0.nn);
        if Xorshift.Accepts(rnd, probBond) {
          Join(n);
        }
      }
    }

    /** The accepted bond: `Nn++`, `lat[n] = -spin`, and the expansion from `n`. */
    method Join(n: int)
      requires Valid()
      requires 0 <= n < N && (spin == 1 || spin == -1) && lat[n] == spin
      modifies this`rnd, this`nn, this`npn, lat
      decreases Lattice.CountOf(lat[..], spin), 0
      ensures Snap() == Cluster.Expand(grid, probBond, Cluster.Snapshot(old(lat[..])[n := -spin], old(rnd), old(npn), old(nn) + 1),
                                       n, spin, -spin)
    {
      nn := nn + 1;
      ghost var before := lat[..];
      lat[n] := -spin;
      assert lat[..] == before[n := -spin];
      Lattice.CountOfUpdate(before, n, spin, -spin);
      ExpandCluster(n);
    }

    /** The single update of `main`: one draw for the seed, whose index `i` the
        caller derives from it; the seed's spin is saved, flipped, and the
        cluster expanded from it. */
    method Update(i: int) returns (ghost cluster: seq<int>, ghost parents: seq<int>, ghost draws: nat)
      requires Valid() && 0 <= i < N && Lattice.AllSpins(lat[..])
      modifies this`rnd, this`npn, this`nn, this`spin, lat
      ensures spin == old(lat[i])
      ensures Updated(grid, probBond, old(Snap()), Snap(), cluster, parents, draws, i)
      ensures Snap() == Cluster.Expand(grid, probBond,
                                       Cluster.Snapshot(old(lat[..])[i := -old(lat[i])], Xorshift.Next(old(rnd)), old(npn), old(nn)),
                                       i, old(lat[i]), -old(lat[i]))
    {
      ghost var start := Snap();
      Xorshift64();
      spin := lat[i];
      lat[i] := -spin;
      ghost var flipped := Snap();
      assert flipped.lat == start.lat[i := -spin];
      ExpandCluster(i);
      cluster, parents, draws := Cluster.ExpandGrown(grid, probBond, flipped, i, spin, -spin);
      FlipThenGrow(grid, probBond, start, flipped, Snap(), cluster, parents, draws, i);
    }
  }
}
