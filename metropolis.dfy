/** The integer bookkeeping of the single-site Metropolis sampler on an
    `Lx*Ly` Ising lattice: the topology tables of `setup`, the row-major sweep
    of `metropolis_update` with its lookup into the five-entry acceptance
    table, and the sums of `measure`. */
module Metropolis {
  import Lattice

  /** The tables left by the fill loop of `setup` as written, from the prior
      contents `rn0`, `ln0`, `un0`, `dn0` of the freshly allocated arrays:
      the loop runs only while `i < Lx && i < Ly`, sets `rn`/`ln` only for
      `i < Lx-1` and `un`/`dn` only for `i < Ly-1`; then the four boundary
      entries are written. */
  function FillAsWritten(Lx: int, Ly: int, rn0: seq<int>, ln0: seq<int>, un0: seq<int>, dn0: seq<int>): (g: Lattice.Geometry)
    requires 2 <= Lx && 2 <= Ly && |rn0| == Lx && |ln0| == Lx && |un0| == Ly && |dn0| == Ly
    ensures g.Lx == Lx && g.Ly == Ly
  {
    Lattice.Grid(Lx, Ly,
                 seq(Lx, i requires 0 <= i < Lx => if i == Lx - 1 then 0 else if i < Ly then 1 else rn0[i]),
                 seq(Lx, i requires 0 <= i < Lx => if i == 0 then Lx - 1 else if i < Lx - 1 && i < Ly then -1 else ln0[i]),
                 seq(Ly, j requires 0 <= j < Ly => if j == Ly - 1 then -((Ly - 1) * Lx) else if j < Lx then Lx else un0[j]),
                 seq(Ly, j requires 0 <= j < Ly => if j == 0 then (Ly - 1) * Lx else if j < Ly - 1 && j < Lx then -Lx else dn0[j]))
  }

  /** The table part of `setup` as written. */
  method SetupTablesAsWritten(Lx: int, Ly: int, rn: array<int>, ln: array<int>, un: array<int>, dn: array<int>)
    requires 2 <= Lx && 2 <= Ly && rn.Length == Lx && ln.Length == Lx && un.Length == Ly && dn.Length == Ly
    requires rn != ln && rn != un && rn != dn && ln != un && ln != dn && un != dn
    modifies rn, ln, un, dn
    ensures Lattice.Grid(Lx, Ly, rn[..], ln[..], un[..], dn[..]) ==
            FillAsWritten(Lx, Ly, old(rn[..]), old(ln[..]), old(un[..]), old(dn[..]))
  {
    var i := 0;
    while i < Lx && i < Ly
      invariant 0 <= i <= Lx && i <= Ly
      invariant forall k :: 0 <= k < Lx ==> rn[k] == if k < i && k < Lx - 1 then 1 else old(rn[k])
      invariant forall k :: 0 <= k < Lx ==> ln[k] == if k < i && k < Lx - 1 then -1 else old(ln[k])
      invariant forall k :: 0 <= k < Ly ==> un[k] == if k < i && k < Ly - 1 then Lx else old(un[k])
      invariant forall k :: 0 <= k < Ly ==> dn[k] == if k < i && k < Ly - 1 then -Lx else old(dn[k])
    {
      if i < Lx - 1 {
        rn[i] := 1;
        ln[i] := -1;
      }
      if i < Ly - 1 {
        un[i] := Lx;
        dn[i] := -Lx;
      }
      i := i + 1;
    }
    ln[0] := Lx - 1;
    rn[Lx - 1] := 0;
    dn[0] := (Ly - 1) * Lx;
    un[Ly - 1] := -dn[0];
    var g := FillAsWritten(Lx, Ly, old(rn[..]), old(ln[..]), old(un[..]), old(dn[..]));
    assert rn[..] == g.rn;
    assert ln[..] == g.ln;
    assert un[..] == g.un;
    assert dn[..] == g.dn;
  }

  /** The entries the fill as written never reaches keep the arrays' prior
      contents: `ln[Lx-1]` and `dn[Ly-1]` always, and on a non-square lattice
      every non-boundary entry of the longer side from `min(Lx,Ly)` on. */
  lemma UnsetEntries(Lx: int, Ly: int, rn0: seq<int>, ln0: seq<int>, un0: seq<int>, dn0: seq<int>)
    requires 2 <= Lx && 2 <= Ly && |rn0| == Lx && |ln0| == Lx && |un0| == Ly && |dn0| == Ly
    ensures var g := FillAsWritten(Lx, Ly, rn0, ln0, un0, dn0);
      g.ln[Lx - 1] == ln0[Lx - 1] && g.dn[Ly - 1] == dn0[Ly - 1] &&
      (forall i :: Ly <= i < Lx - 1 ==> g.rn[i] == rn0[i] && g.ln[i] == ln0[i]) &&
      (forall j :: Lx <= j < Ly - 1 ==> g.un[j] == un0[j] && g.dn[j] == dn0[j])
  {
  }

  /** On a square lattice every other entry is the one intended. */
  lemma AsWrittenSquare(L: int, rn0: seq<int>, ln0: seq<int>, un0: seq<int>, dn0: seq<int>)
    requires 2 <= L && |rn0| == L && |ln0| == L && |un0| == L && |dn0| == L
    ensures var g, t := FillAsWritten(L, L, rn0, ln0, un0, dn0), Lattice.Tables(L, L, 0);
      g.rn == t.rn && g.un == t.un &&
      (forall i :: 0 <= i < L - 1 ==> g.ln[i] == t.ln[i] && g.dn[i] == t.dn[i])
  {
  }

  /** On the 2x2 lattice, a prior value 7 in `ln[1]` sends the left lookup of
      site 1 to 8, outside the lattice. */
  lemma AsWrittenLeavesLattice()
    ensures var g := FillAsWritten(2, 2, [0, 0], [0, 7], [0, 0], [0, 0]);
      Lattice.Neighbours(g, 1)[1] == 8 && !Lattice.InRange(g)
  {
    var g := FillAsWritten(2, 2, [0, 0], [0, 7], [0, 0], [0, 0]);
    assert Lattice.Neighbours(g, 1)[1] == 8;
  }

  /** The table part of `setup` as intended: every entry of `rn`/`ln` and of
      `un`/`dn` filled, then the boundary entries, with `rn[Lx-1] = 0`. */
  method SetupTables(Lx: int, Ly: int, rn: array<int>, ln: array<int>, un: array<int>, dn: array<int>)
    requires 2 <= Lx && 2 <= Ly && rn.Length == Lx && ln.Length == Lx && un.Length == Ly && dn.Length == Ly
    requires rn != ln && rn != un && rn != dn && ln != un && ln != dn && un != dn
    modifies rn, ln, un, dn
    ensures Lattice.Grid(Lx, Ly, rn[..], ln[..], un[..], dn[..]) == Lattice.Tables(Lx, Ly, 0)
    ensures Lattice.InRange(Lattice.Tables(Lx, Ly, 0))
  {
    for i := 0 to Lx
      invariant forall k :: 0 <= k < i ==> rn[k] == 1 && ln[k] == -1
    {
      rn[i] := 1;
      ln[i] := -1;
    }
    for j := 0 to Ly
      invariant forall k :: 0 <= k < Lx ==> rn[k] == 1 && ln[k] == -1
      invariant forall k :: 0 <= k < j ==> un[k] == Lx && dn[k] == -Lx
    {
      un[j] := Lx;
      dn[j] := -Lx;
    }
    ln[0] := Lx - 1;
    rn[Lx - 1] := 0;
    dn[0] := (Ly - 1) * Lx;
    un[Ly - 1] := -dn[0];
    Lattice.TablesFromEntries(Lx, Ly, 0, rn[..], ln[..], un[..], dn[..]);
    Lattice.TablesInRange(Lx, Ly, 0);
  }

  /** A valid index into the acceptance table `prob[5]`. */
  type ProbIndex = k: int | 0 <= k < 5

  /** The site in column `i` of row `j`. */
  function Site(g: Lattice.Geometry, i: int, j: int): int
  {
    i + g.Lx * j
  }

  /** The four lookups of `metropolis_update` at column `i` of row `j`:
      `site + rn[i]`, `site + ln[i]`, `site + un[j]`, `site + dn[j]`. */
  function Around(g: Lattice.Geometry, i: int, j: int): (ns: seq<int>)
    requires 0 <= i < g.Lx && 0 <= j < g.Ly
    ensures |ns| == 4
  {
    var site := Site(g, i, j);
    [site + g.rn[i], site + g.ln[i], site + g.un[j], site + g.dn[j]]
  }

  /** Column `i` of row `j` is a site of the lattice, and the lookups at it
      are its neighbours. */
  lemma AtSite(g: Lattice.Geometry, i: int, j: int)
    requires 0 <= i < g.Lx && 0 <= j < g.Ly
    ensures 0 <= Site(g, i, j) < Lattice.Size(g)
    ensures Lattice.Neighbours(g, Site(g, i, j)) == Around(g, i, j)
  {
    Lattice.MulSucc(g.Lx, j);
    Lattice.MulMono(g.Lx, j + 1, g.Ly);
    Lattice.ColRowOf(i, j, g.Lx);
  }

  /** Distinct columns or rows name distinct sites. */
  lemma SitesDistinct(g: Lattice.Geometry, i: int, j: int, x: int, y: int)
    requires 0 <= i < g.Lx && 0 <= j < g.Ly && 0 <= x < g.Lx && 0 <= y < g.Ly
    requires i != x || j != y
    ensures Site(g, i, j) != Site(g, x, y)
  {
    Lattice.ColRowOf(i, j, g.Lx);
    Lattice.ColRowOf(x, y, g.Lx);
  }

  /** `ss` of `metropolis_update` at column `i` of row `j`: the sum of the four
      neighbour spins times minus the spin of the site. */
  function Ss(s: seq<int>, g: Lattice.Geometry, i: int, j: int): int
    requires Lattice.InRange(g) && |s| == Lattice.Size(g) && 0 <= i < g.Lx && 0 <= j < g.Ly
  {
    AtSite(g, i, j);
    var ns := Around(g, i, j);
    assert 0 <= ns[0] < |s| && 0 <= ns[1] < |s| && 0 <= ns[2] < |s| && 0 <= ns[3] < |s|;
    (s[ns[0]] + s[ns[1]] + s[ns[2]] + s[ns[3]]) * -s[Site(g, i, j)]
  }

  /** The table index `(ss+4)>>1`; an arithmetic right shift by one is floor
      division by two. */
  function TableIndex(ss: int): int
  {
    (ss + 4) / 2
  }

  /** Four neighbour spins times minus a spin: `ss` is one of -4, -2, 0, 2, 4. */
  lemma SpinProduct(a: int, b: int, c: int, d: int, e: int)
    requires a == 1 || a == -1
    requires b == 1 || b == -1
    requires c == 1 || c == -1
    requires d == 1 || d == -1
    requires e == 1 || e == -1
    ensures var ss := (a + b + c + d) * -e;
      (ss == -4 || ss == -2 || ss == 0 || ss == 2 || ss == 4) && 0 <= TableIndex(ss) <= 4
  {
    if e == 1 {
      assert (a + b + c + d) * -e == -(a + b + c + d);
    } else {
      assert (a + b + c + d) * -e == a + b + c + d;
    }
  }

  /** On a lattice of spins the lookup `prob[(ss+4)>>1]` stays in the table. */
  lemma IndexInTable(s: seq<int>, g: Lattice.Geometry, i: int, j: int)
    requires Lattice.InRange(g) && |s| == Lattice.Size(g) && 0 <= i < g.Lx && 0 <= j < g.Ly && Lattice.AllSpins(s)
    ensures 0 <= Site(g, i, j) < |s|
    ensures var ss := Ss(s, g, i, j);
      (ss == -4 || ss == -2 || ss == 0 || ss == 2 || ss == 4) && 0 <= TableIndex(ss) < 5
  {
    AtSite(g, i, j);
    var ns := Around(g, i, j);
    assert 0 <= ns[0] < |s| && 0 <= ns[1] < |s| && 0 <= ns[2] < |s| && 0 <= ns[3] < |s|;
    SpinProduct(s[ns[0]], s[ns[1]], s[ns[2]], s[ns[3]], s[Site(g, i, j)]);
  }

  /** One step of the sweep at column `i` of row `j`: the spin is negated
      exactly when the acceptance test passes. `accept(site, k)` stands for
      `Q >= 1`, or else the draw `rand()/RAND_MAX < Q`, with `Q = prob[k]`. */
  function Step(s: seq<int>, g: Lattice.Geometry, accept: (int, ProbIndex) -> bool, i: int, j: int): (r: seq<int>)
    requires Lattice.InRange(g) && |s| == Lattice.Size(g) && 0 <= i < g.Lx && 0 <= j < g.Ly && Lattice.AllSpins(s)
    ensures |r| == |s| && Lattice.AllSpins(r)
    ensures forall q :: 0 <= q < |s| && q != Site(g, i, j) ==> r[q] == s[q]
  {
    IndexInTable(s, g, i, j);
    var site := Site(g, i, j);
    if accept(site, TableIndex(Ss(s, g, i, j))) then s[site := -s[site]] else s
  }

  /** How far a sweep can have got: all of rows `0 .. j-1`, and columns
      `0 .. i-1` of row `j`. */
  predicate Reach(g: Lattice.Geometry, j: int, i: int)
  {
    0 <= j <= g.Ly && 0 <= i <= g.Lx && (j == g.Ly ==> i == 0)
  }

  /** The lattice once the sweep has got to column `i` of row `j`. */
  function Swept(s: seq<int>, g: Lattice.Geometry, accept: (int, ProbIndex) -> bool, j: int, i: int): (r: seq<int>)
    requires Lattice.InRange(g) && |s| == Lattice.Size(g) && Lattice.AllSpins(s) && Reach(g, j, i)
    ensures |r| == |s| && Lattice.AllSpins(r)
    decreases j, i
  {
    if i == 0 then (if j == 0 then s else Swept(s, g, accept, j - 1, g.Lx))
    else Step(Swept(s, g, accept, j, i - 1), g, accept, i - 1, j)
  }

  /** A site the sweep has not reached yet still holds its spin, and a site it
      has passed holds the value its own step gave it: each site is written at
      one step only, its own. */
  lemma {:induction false} StepsWriteOwnSite(s: seq<int>, g: Lattice.Geometry, accept: (int, ProbIndex) -> bool,
                                             j: int, i: int, x: int, y: int, k: int)
    requires Lattice.InRange(g) && |s| == Lattice.Size(g) && Lattice.AllSpins(s) && Reach(g, j, i)
    requires 0 <= x < g.Lx && 0 <= y < g.Ly && k == Site(g, x, y) && 0 <= k < |s|
    ensures (j < y || (j == y && i <= x)) ==> Swept(s, g, accept, j, i)[k] == s[k]
    ensures (y < j || (y == j && x < i)) ==> Swept(s, g, accept, j, i)[k] == Swept(s, g, accept, y, x + 1)[k]
    decreases j, i
  {
    if i == 0 {
      if j > 0 {
        StepsWriteOwnSite(s, g, accept, j - 1, g.Lx, x, y, k);
      }
    } else if y != j || x != i - 1 {
      StepsWriteOwnSite(s, g, accept, j, i - 1, x, y, k);
      SitesDistinct(g, x, y, i - 1, j);
    }
  }

  /** `M` of `measure` over the first `t` sites: the sum of the spins. */
  function Magnetisation(s: seq<int>, t: int): int
    requires 0 <= t <= |s|
  {
    if t == 0 then 0 else Magnetisation(s, t - 1) + s[t - 1]
  }

  /** The term of `E` at one site: its spin times the sum of its right and
      up neighbours. */
  function Bond(s: seq<int>, g: Lattice.Geometry, site: int): int
    requires Lattice.InRange(g) && |s| == Lattice.Size(g) && 0 <= site < |s|
  {
    var ns := Lattice.Neighbours(g, site);
    s[site] * (s[ns[0]] + s[ns[2]])
  }

  /** `E` of `measure` over the first `t` sites: the sum of their bond terms,
      so that every bond is counted once. */
  function Energy(s: seq<int>, g: Lattice.Geometry, t: int): int
    requires Lattice.InRange(g) && |s| == Lattice.Size(g) && 0 <= t <= |s|
  {
    if t == 0 then 0 else Energy(s, g, t - 1) + Bond(s, g, t - 1)
  }

  /** Adding the terms of site `t` to the sums over the first `t` sites gives
      the sums over the first `t + 1`. */
  lemma MeasureOn(s: seq<int>, g: Lattice.Geometry, t: int, E: int, M: int, e: int, m: int)
    requires Lattice.InRange(g) && |s| == Lattice.Size(g) && 0 <= t < |s|
    requires E == Energy(s, g, t) && M == Magnetisation(s, t)
    requires e == Bond(s, g, t) && m == s[t]
    ensures E + e == Energy(s, g, t + 1) && M + m == Magnetisation(s, t + 1)
  {
  }

  /** On a lattice of spins, `|M| <= t` and `|E| <= 2t` over `t` sites. */
  lemma {:induction false} MeasureBounds(s: seq<int>, g: Lattice.Geometry, t: int)
    requires Lattice.InRange(g) && |s| == Lattice.Size(g) && 0 <= t <= |s| && Lattice.AllSpins(s)
    ensures -t <= Magnetisation(s, t) <= t
    ensures -2 * t <= Energy(s, g, t) <= 2 * t
  {
    if t > 0 {
      MeasureBounds(s, g, t - 1);
      var ns := Lattice.Neighbours(g, t - 1);
      assert 0 <= ns[0] < |s| && 0 <= ns[2] < |s|;
      BondPair(s[t - 1], s[ns[0]], s[ns[2]]);
      assert Bond(s, g, t - 1) == s[t - 1] * (s[ns[0]] + s[ns[2]]);
    }
  }

  /** A spin times the sum of two spins is at most 2 in size. */
  lemma BondPair(a: int, b: int, c: int)
    requires a == 1 || a == -1
    requires b == 1 || b == -1
    requires c == 1 || c == -1
    ensures -2 <= a * (b + c) <= 2
  {
    if a == 1 {
      assert a * (b + c) == b + c;
    } else {
      assert a * (b + c) == -(b + c);
    }
  }

  /** The lattice and the tables of the Metropolis sampler. */
  class MetropolisLattice {
    const Lx: int
    const Ly: int
    const N: int
    const lat: array<int>
    const rn: array<int>
    const ln: array<int>
    const un: array<int>
    const dn: array<int>
    /** The neighbour tables as a value. */
    ghost const grid: Lattice.Geometry

    /** The sizes, the geometry with `rn[Lx-1] = 0` and the separation of the
        lattice from the tables. */
    ghost predicate Shape()
    {
      2 <= Lx && 2 <= Ly && N == Lx * Ly &&
      lat.Length == N && rn.Length == Lx && ln.Length == Lx && un.Length == Ly && dn.Length == Ly &&
      lat != rn && lat != ln && lat != un && lat != dn &&
      grid.Lx == Lx && grid.Ly == Ly && Lattice.InRange(grid)
    }

    /** The class invariant: the tables hold the geometry. */
    ghost predicate Valid()
      reads rn, ln, un, dn
    {
      Shape() && rn[..] == grid.rn && ln[..] == grid.ln && un[..] == grid.un && dn[..] == grid.dn
    }

    /** `setup` after `get_data` has checked `Lx, Ly >= 2`: the lattice from
        the draws `rand()` (one per site), then the tables. */
    constructor (Lx: int, Ly: int, draws: seq<int>)
      requires 2 <= Lx && 2 <= Ly && |draws| == Lx * Ly
      ensures Valid() && this.Lx == Lx && this.Ly == Ly && grid == Lattice.Tables(Lx, Ly, 0)
      ensures Lattice.AllSpins(lat[..])
      ensures forall k :: 0 <= k < N ==> (lat[k] == 1 <==> draws[k] % 2 == 1)
      ensures fresh(lat) && fresh(rn) && fresh(ln) && fresh(un) && fresh(dn)
    {
      this.Lx := Lx;
      this.Ly := Ly;
      N := Lx * Ly;
      lat := new int[Lx * Ly];
      rn := new int[Lx];
      ln := new int[Lx];
      un := new int[Ly];
      dn := new int[Ly];
      grid := Lattice.Tables(Lx, Ly, 0);
      new;
      InitSpins(draws);
      SetupTables(Lx, Ly, rn, ln, un, dn);
    }

    /** The lattice loop of `setup`: `lat[i] = (rand()&1)*2 - 1`. */
    method InitSpins(draws: seq<int>)
      requires |draws| == lat.Length
      modifies lat
      ensures Lattice.AllSpins(lat[..])
      ensures forall k :: 0 <= k < lat.Length ==> (lat[k] == 1 <==> draws[k] % 2 == 1)
    {
      for i := 0 to lat.Length
        invariant forall k :: 0 <= k < i ==> (lat[k] == 1 || lat[k] == -1) && (lat[k] == 1 <==> draws[k] % 2 == 1)
      {
        lat[i] := (draws[i] % 2) * 2 - 1;
      }
    }

    /** `metropolis_update`: `site_u` walks the rows `j` and, inside each, the
        columns `i`, so that it is `i + Lx*j` at every step; the sweep visits
        every site once, in row-major order. */
    method Update(accept: (int, ProbIndex) -> bool)
      requires Valid() && Lattice.AllSpins(lat[..])
      modifies lat
      ensures lat[..] == Swept(old(lat[..]), grid, accept, Ly, 0)
    {
      ghost var s0 := lat[..];
      var siteU := 0;
      for j := 0 to Ly
        invariant siteU == Site(grid, 0, j)
        invariant lat[..] == Swept(s0, grid, accept, j, 0)
      {
        for i := 0 to Lx
          invariant siteU == Site(grid, i, j)
          invariant lat[..] == Swept(s0, grid, accept, j, i)
        {
          Visit(accept, siteU, i, j);
          siteU := siteU + 1;
        }
        RowEnd(j);
      }
    }

    /** One step of `metropolis_update` at `site = i + Lx*j`: `ss`, the table
        index `(ss+4)>>1`, and the negation of the spin when accepted. */
    method Visit(accept: (int, ProbIndex) -> bool, site: int, i: int, j: int)
      requires Valid() && 0 <= i < Lx && 0 <= j < Ly && site == Site(grid, i, j) && Lattice.AllSpins(lat[..])
      modifies lat
      ensures lat[..] == Step(old(lat[..]), grid, accept, i, j)
    {
      var ss := LocalSum(site, i, j);
      AtSite(grid, i, j);
      ss := ss * -lat[site];
      assert ss == Ss(lat[..], grid, i, j);
      IndexInTable(lat[..], grid, i, j);
      if accept(site, (ss + 4) / 2) {
        lat[site] := -lat[site];
      }
    }

    /** The four neighbour lookups of `metropolis_update` at `site = i + Lx*j`:
        the sum of the right, left, up and down spins. */
    method LocalSum(site: int, i: int, j: int) returns (sum: int)
      requires Valid() && 0 <= i < Lx && 0 <= j < Ly && site == Site(grid, i, j)
      ensures 0 <= site < N
      ensures var ns := Lattice.Neighbours(grid, site);
        sum == lat[ns[0]] + lat[ns[1]] + lat[ns[2]] + lat[ns[3]]
    {
      AtSite(grid, i, j);
      ghost var ns := Around(grid, i, j);
      assert rn[i] == grid.rn[i] && ln[i] == grid.ln[i] && un[j] == grid.un[j] && dn[j] == grid.dn[j];
      assert 0 <= ns[0] < N && 0 <= ns[1] < N && 0 <= ns[2] < N && 0 <= ns[3] < N;
      sum := lat[site + rn[i]] + lat[site + ln[i]] + lat[site + un[j]] + lat[site + dn[j]];
    }

    /** The end of row `j` is the start of row `j + 1`, inside the lattice. */
    lemma RowEnd(j: int)
      requires Shape() && 0 <= j < Ly
      ensures Site(grid, Lx, j) == Site(grid, 0, j + 1) <= N
    {
      Lattice.MulSucc(Lx, j);
      Lattice.MulMono(Lx, j + 1, Ly);
    }

    /** The terms of `M` and `E` at `site = i + Lx*j`: its spin, and its spin
        times the sum of its right and up neighbours. */
    method Contribution(site: int, i: int, j: int) returns (e: int, m: int)
      requires Valid() && 0 <= i < Lx && 0 <= j < Ly && site == Site(grid, i, j)
      ensures 0 <= site < N && e == Bond(lat[..], grid, site) && m == lat[site]
    {
      AtSite(grid, i, j);
      ghost var ns := Lattice.Neighbours(grid, site);
      assert rn[i] == grid.rn[i] && un[j] == grid.un[j];
      assert 0 <= ns[0] < N && 0 <= ns[2] < N;
      m := lat[site];
      e := lat[site] * (lat[site + rn[i]] + lat[site + un[j]]);
    }

    /** `measure`: the sums `E` and `M` over the sites in row-major order;
        the lattice is only read. */
    method Measure() returns (E: int, M: int)
      requires Valid()
      ensures E == Energy(lat[..], grid, N) && M == Magnetisation(lat[..], N)
      ensures Lattice.AllSpins(lat[..]) ==> -N <= M <= N && -2 * N <= E <= 2 * N
    {
      E, M := 0, 0;
      var siteM := 0;
      for j := 0 to Ly
        invariant siteM == Site(grid, 0, j) && siteM <= N
        invariant E == Energy(lat[..], grid, siteM) && M == Magnetisation(lat[..], siteM)
      {
        RowEnd(j);
        for i := 0 to Lx
          invariant siteM == Site(grid, i, j) && siteM <= N
          invariant E == Energy(lat[..], grid, siteM) && M == Magnetisation(lat[..], siteM)
        {
          var e, m := Contribution(siteM, i, j);
          MeasureOn(lat[..], grid, siteM, E, M, e, m);
          M := M + m;
          E := E + e;
          siteM := siteM + 1;
        }
      }
      if Lattice.AllSpins(lat[..]) {
        MeasureBounds(lat[..], grid, N);
      }
    }
  }
}
