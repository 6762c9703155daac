/** The square periodic lattice shared by the three samplers: the `log2(L)`
    shift loop, the mask and shift that split a site into its column and row,
    the relative-neighbour tables `rn/ln/un/dn`, counts over the flat spin array
    and the growth trees that certify a cluster is connected. */
module Lattice {

  /** 2^k */
  function Pow2(k: nat): (p: nat)
    ensures p >= 1
  {
    if k == 0 then 1 else 2 * Pow2(k - 1)
  }

  /** The lattice side must be a power of two (`L = 1<<4` in the samplers). */
  predicate IsPowerOfTwo(n: int)
    decreases if n > 0 then n else 0
  {
    n == 1 || (n > 1 && n % 2 == 0 && IsPowerOfTwo(n / 2))
  }

  /** `a >> k` on a non-negative int. */
  function Shr(a: nat, k: nat): int
  {
    a / Pow2(k)
  }

  /** `a & b` on non-negative ints, one bit at a time from the low end. */
  function And(a: nat, b: nat): nat
    decreases a
  {
    if a == 0 || b == 0 then 0
    else 2 * And(a / 2, b / 2) + (if a % 2 == 1 && b % 2 == 1 then 1 else 0)
  }

  lemma HalfPow2(k: nat)
    requires k >= 1
    ensures (Pow2(k) - 1) / 2 == Pow2(k - 1) - 1 && (Pow2(k) - 1) % 2 == 1
  {
  }

  lemma ModDouble(a: nat, p: nat)
    requires p >= 1
    ensures a % (2 * p) == 2 * ((a / 2) % p) + a % 2
  {
    var q, r := (a / 2) / p, (a / 2) % p;
    assert a / 2 == q * p + r;
    assert a == (2 * p) * q + (2 * r + a % 2);
    DivModUnique(a, 2 * p, q, 2 * r + a % 2);
  }

  /** Masking with `L-1`, for `L = 2^k`, keeps the remainder modulo `L`:
      `site & (L-1)` is the column of a site. */
  lemma {:induction false} MaskIsMod(a: nat, k: nat)
    ensures And(a, Pow2(k) - 1) == a % Pow2(k)
    decreases k
  {
    if k == 0 {
    } else if a == 0 {
    } else {
      HalfPow2(k);
      MaskIsMod(a / 2, k - 1);
      ModDouble(a, Pow2(k - 1));
    }
  }

  /** Division with remainder is unique. */
  lemma DivModUnique(n: int, d: int, q: int, r: int)
    requires d >= 1 && 0 <= r < d && n == d * q + r
    ensures n / d == q && n % d == r
  {
    var q', r' := n / d, n % d;
    assert n == d * q' + r';
    if q' > q {
      assert d * q' >= d * (q + 1) by { MulMono(d, q + 1, q'); }
    } else if q' < q {
      assert d * q >= d * (q' + 1) by { MulMono(d, q' + 1, q); }
    }
  }

  lemma MulMono(d: int, a: int, b: int)
    requires d >= 0 && a <= b
    ensures d * a <= d * b
  {
    assert d * b - d * a == d * (b - a);
  }

  /** The shift loop of the cluster samplers' `main`: starting from `shift = 1`
      it increments `shift` while `L >> (shift+1)` is nonzero, so it stops at
      the floor of `log2(L)`. */
  method ShiftLoop(L: int) returns (shift: nat)
    requires L >= 2
    ensures 1 <= shift && Pow2(shift) <= L < Pow2(shift + 1)
  {
    shift := 1;
    ShrZero(L, shift + 1);
    while Shr(L, shift + 1) != 0
      invariant 1 <= shift && Pow2(shift) <= L
      invariant Shr(L, shift + 1) == 0 <==> L < Pow2(shift + 1)
      decreases L - Pow2(shift)
    {
      shift := shift + 1;
      ShrZero(L, shift + 1);
    }
  }

  /** `a >> k` is zero exactly when `a < 2^k`. */
  lemma ShrZero(a: nat, k: nat)
    ensures Shr(a, k) == 0 <==> a < Pow2(k)
  {
    if a < Pow2(k) {
      DivModUnique(a, Pow2(k), 0, a);
    }
  }

  /** For a power of two, the floor of the logarithm found by the shift loop is
      exact: `1 << shift == L`. */
  lemma {:induction false} ShiftIsLog2(L: int, s: nat)
    requires IsPowerOfTwo(L)
    requires Pow2(s) <= L < Pow2(s + 1)
    ensures Pow2(s) == L
    decreases s
  {
    if s > 0 {
      assert L > 1;
      ShiftIsLog2(L / 2, s - 1);
    }
  }

  /** With `L = 2^shift`, `x = site & (L-1)` and `y = site >> shift` are the column
      and row of a site of the `L*L` lattice: `site == x + L*y` with `x, y < L`. */
  lemma SiteSplit(site: int, L: int, shift: nat)
    requires L == Pow2(shift) && 0 <= site < L * L
    ensures And(site, L - 1) == site % L && Shr(site, shift) == site / L
    ensures site == And(site, L - 1) + L * Shr(site, shift)
    ensures 0 <= And(site, L - 1) < L && 0 <= Shr(site, shift) < L
  {
    MaskIsMod(site, shift);
    ColRow(site, L, L);
  }

  /** Column, row and their recombination for an `Lx`-wide lattice of `Ly` rows. */
  lemma ColRow(site: int, Lx: int, Ly: int)
    requires 1 <= Lx && 0 <= site < Lx * Ly
    ensures 0 <= site % Lx < Lx && 0 <= site / Lx < Ly
    ensures site == site % Lx + Lx * (site / Lx)
  {
    if site / Lx >= Ly {
      MulMono(Lx, Ly, site / Lx);
    }
  }

  /** The lattice geometry and the four relative-neighbour tables, indexed by
      column (`rn`, `ln`) and by row (`un`, `dn`). */
  datatype Grid = Grid(Lx: int, Ly: int, rn: seq<int>, ln: seq<int>, un: seq<int>, dn: seq<int>)

  predicate WellFormed(g: Grid)
  {
    1 <= g.Lx && 1 <= g.Ly && |g.rn| == g.Lx && |g.ln| == g.Lx && |g.un| == g.Ly && |g.dn| == g.Ly
  }

  /** A grid whose tables have one entry per column and per row. */
  type Geometry = g: Grid | WellFormed(g) witness Grid(1, 1, [0], [0], [0], [0])

  function Size(g: Geometry): int
  {
    g.Lx * g.Ly
  }

  /** The `neigh[4]` list of a site: right, left, up, down, in that order. */
  function Neighbours(g: Geometry, site: int): (ns: seq<int>)
    requires 0 <= site < Size(g)
    ensures |ns| == 4
  {
    ColRow(site, g.Lx, g.Ly);
    var x, y := site % g.Lx, site / g.Lx;
    [site + g.rn[x], site + g.ln[x], site + g.un[y], site + g.dn[y]]
  }

  /** The lookup of `expand_cluster`, with the column taken as `site & (L-1)`
      and the row as `site >> shift`, lists the neighbours of the site. */
  lemma MaskedLookup(g: Geometry, shift: nat, site: int)
    requires InRange(g) && g.Lx == g.Ly == Pow2(shift) && 0 <= site < Size(g)
    ensures 0 <= And(site, g.Lx - 1) < g.Lx && 0 <= Shr(site, shift) < g.Ly
    ensures [site + g.rn[And(site, g.Lx - 1)], site + g.ln[And(site, g.Lx - 1)],
             site + g.un[Shr(site, shift)], site + g.dn[Shr(site, shift)]] == Neighbours(g, site)
    ensures forall d :: 0 <= d < 4 ==> 0 <= Neighbours(g, site)[d] < Size(g)
  {
    SiteSplit(site, g.Lx, shift);
  }

  /** Every neighbour of every site is a site: no lookup leaves the array. */
  predicate InRange(g: Geometry)
  {
    forall site, d :: 0 <= site < Size(g) && 0 <= d < 4 ==> 0 <= Neighbours(g, site)[d] < Size(g)
  }

  /** The tables after the fill loop and the boundary corrections:
      `rn[i] = +1, ln[i] = -1, un[j] = Lx, dn[j] = -Lx`, then `ln[0] = Lx-1`,
      `rn[Lx-1] = rightWrap`, `dn[0] = (Ly-1)*Lx`, `un[Ly-1] = -dn[0]`. */
  function Tables(Lx: int, Ly: int, rightWrap: int): (g: Geometry)
    requires 1 <= Lx && 1 <= Ly
    ensures g.Lx == Lx && g.Ly == Ly
  {
    Grid(Lx, Ly,
         seq(Lx, i => if i == Lx - 1 then rightWrap else 1),
         seq(Lx, i => if i == 0 then Lx - 1 else -1),
         seq(Ly, j => if j == Ly - 1 then -((Ly - 1) * Lx) else Lx),
         seq(Ly, j => if j == 0 then (Ly - 1) * Lx else -Lx))
  }

  /** Tables given entry by entry are the tables `Tables` builds. */
  lemma TablesFromEntries(Lx: int, Ly: int, rightWrap: int, rn: seq<int>, ln: seq<int>, un: seq<int>, dn: seq<int>)
    requires 1 <= Lx && 1 <= Ly && |rn| == Lx && |ln| == Lx && |un| == Ly && |dn| == Ly
    requires forall i :: 0 <= i < Lx ==> rn[i] == if i == Lx - 1 then rightWrap else 1
    requires forall i :: 0 <= i < Lx ==> ln[i] == if i == 0 then Lx - 1 else -1
    requires forall j :: 0 <= j < Ly ==> un[j] == if j == Ly - 1 then -((Ly - 1) * Lx) else Lx
    requires forall j :: 0 <= j < Ly ==> dn[j] == if j == 0 then (Ly - 1) * Lx else -Lx
    ensures Grid(Lx, Ly, rn, ln, un, dn) == Tables(Lx, Ly, rightWrap)
  {
    var g := Tables(Lx, Ly, rightWrap);
    assert rn == g.rn;
    assert ln == g.ln;
    assert un == g.un;
    assert dn == g.dn;
  }

  /** The periodic tables of the Wolff sampler, where `rn[L-1] = -ln[0]`. */
  function Periodic(L: int): Geometry
    requires L >= 1
  {
    Tables(L, L, -(L - 1))
  }

  /** Both right-wrap choices that occur in the samplers (`-(Lx-1)` and `0`)
      keep every neighbour lookup inside the lattice. */
  lemma TablesInRange(Lx: int, Ly: int, rightWrap: int)
    requires 2 <= Lx && 2 <= Ly
    requires rightWrap == 0 || rightWrap == -(Lx - 1)
    ensures InRange(Tables(Lx, Ly, rightWrap))
  {
    var g := Tables(Lx, Ly, rightWrap);
    forall site, d | 0 <= site < Size(g) && 0 <= d < 4
      ensures 0 <= Neighbours(g, site)[d] < Size(g)
    {
      ColRow(site, Lx, Ly);
      var x, y := site % Lx, site / Lx;
      assert site == x + Lx * y;
      MulMono(Lx, y + 1, Ly);
      if y > 0 {
        assert Lx * y == Lx * (y - 1) + Lx;
        MulMono(Lx, 0, y - 1);
      }
      if y < Ly - 1 {
        assert Lx * (y + 1) == Lx * y + Lx;
        MulMono(Lx, y + 2, Ly);
        assert Lx * (y + 2) == Lx * y + 2 * Lx;
      }
      if y == Ly - 1 {
        assert site - (Ly - 1) * Lx == x;
      }
      if y == 0 {
        assert site + (Ly - 1) * Lx == x + Lx * (Ly - 1);
        assert Lx * Ly == Lx * (Ly - 1) + Lx;
      }
      MulMono(Lx, 0, y);
    }
  }

  /** Column and row of the site `x + Lx*y`. */
  lemma ColRowOf(x: int, y: int, Lx: int)
    requires 1 <= Lx && 0 <= x < Lx && 0 <= y
    ensures (x + Lx * y) % Lx == x && (x + Lx * y) / Lx == y
  {
    DivModUnique(x + Lx * y, Lx, y, x);
  }

  /** Right then left, and left then right, return to the starting site on the
      periodic tables. */
  lemma HorizontalRoundTrip(L: int, site: int)
    requires L >= 2 && 0 <= site < L * L
    ensures var g := Periodic(L); var ns := Neighbours(g, site);
      0 <= ns[0] < L * L && Neighbours(g, ns[0])[1] == site &&
      0 <= ns[1] < L * L && Neighbours(g, ns[1])[0] == site
  {
    var g := Periodic(L);
    ColRow(site, L, L);
    var x, y := site % L, site / L;
    assert site == x + L * y;
    var ns := Neighbours(g, site);
    if x < L - 1 {
      assert ns[0] == (x + 1) + L * y;
      ColRowOf(x + 1, y, L);
    } else {
      assert ns[0] == 0 + L * y;
      ColRowOf(0, y, L);
    }
    if x > 0 {
      assert ns[1] == (x - 1) + L * y;
      ColRowOf(x - 1, y, L);
    } else {
      assert ns[1] == (L - 1) + L * y;
      ColRowOf(L - 1, y, L);
    }
    TablesInRange(L, L, -(L - 1));
    assert 0 <= ns[0] < Size(g) && 0 <= ns[1] < Size(g);
  }

  /** Up then down returns to the starting site on any tables built by `Tables`. */
  lemma UpThenDown(Lx: int, Ly: int, rightWrap: int, site: int)
    requires 2 <= Lx && 2 <= Ly && 0 <= site < Lx * Ly
    ensures var g := Tables(Lx, Ly, rightWrap); var up := Neighbours(g, site)[2];
      0 <= up < Lx * Ly && Neighbours(g, up)[3] == site
  {
    var g := Tables(Lx, Ly, rightWrap);
    ColRow(site, Lx, Ly);
    var x, y := site % Lx, site / Lx;
    MulSucc(Lx, Ly - 1);
    var up := Neighbours(g, site)[2];
    if y < Ly - 1 {
      MulSucc(Lx, y);
      MulMono(Lx, y + 1, Ly - 1);
      assert up == x + Lx * (y + 1);
      ColRowOf(x, y + 1, Lx);
    } else {
      assert up == x + Lx * 0;
      ColRowOf(x, 0, Lx);
    }
  }

  /** Down then up returns to the starting site on any tables built by `Tables`. */
  lemma DownThenUp(Lx: int, Ly: int, rightWrap: int, site: int)
    requires 2 <= Lx && 2 <= Ly && 0 <= site < Lx * Ly
    ensures var g := Tables(Lx, Ly, rightWrap); var down := Neighbours(g, site)[3];
      0 <= down < Lx * Ly && Neighbours(g, down)[2] == site
  {
    var g := Tables(Lx, Ly, rightWrap);
    ColRow(site, Lx, Ly);
    var x, y := site % Lx, site / Lx;
    MulSucc(Lx, Ly - 1);
    var down := Neighbours(g, site)[3];
    if y > 0 {
      MulSucc(Lx, y - 1);
      MulMono(Lx, 0, y - 1);
      assert down == x + Lx * (y - 1);
      ColRowOf(x, y - 1, Lx);
    } else {
      assert down == x + Lx * (Ly - 1);
      ColRowOf(x, Ly - 1, Lx);
    }
  }

  /** One more row is `a` more sites. */
  lemma MulSucc(a: int, b: int)
    ensures a * (b + 1) == a * b + a && (b + 1) * a == a * b + a && b * a == a * b
  {
  }

  /** With `rn[Lx-1] = 0` a last-column site is its own right neighbour, so going
      right and then left lands one column short instead of returning. */
  lemma RightWrapIsSelf(Lx: int, Ly: int, site: int)
    requires 2 <= Lx && 2 <= Ly && 0 <= site < Lx * Ly && site % Lx == Lx - 1
    ensures Neighbours(Tables(Lx, Ly, 0), site)[0] == site
    ensures Neighbours(Tables(Lx, Ly, 0), site)[1] == site - 1
    ensures Neighbours(Tables(Lx, Ly, 0), Neighbours(Tables(Lx, Ly, 0), site)[0])[1] != site
  {
  }

  /** Every entry is a spin, +1 or -1. */
  predicate AllSpins(s: seq<int>)
  {
    forall k :: 0 <= k < |s| ==> s[k] == 1 || s[k] == -1
  }

  /** The number of entries of `s` equal to `v`. */
  function CountOf(s: seq<int>, v: int): nat
  {
    if s == [] then 0 else CountOf(s[..|s| - 1], v) + (if s[|s| - 1] == v then 1 else 0)
  }

  /** The number of odd entries of `s` (those with `s[k] & 1` set). */
  function OddCount(s: seq<int>): nat
  {
    if s == [] then 0 else OddCount(s[..|s| - 1]) + (if s[|s| - 1] % 2 != 0 then 1 else 0)
  }

  /** No value occurs more often than there are entries. */
  lemma {:induction false} CountOfBound(s: seq<int>, v: int)
    ensures CountOf(s, v) <= |s|
  {
    if s != [] {
      CountOfBound(s[..|s| - 1], v);
    }
  }

  /** Overwriting one entry equal to `v` by another value removes exactly one `v`. */
  lemma {:induction false} CountOfUpdate(s: seq<int>, i: int, v: int, w: int)
    requires 0 <= i < |s| && s[i] == v && w != v
    ensures CountOf(s[i := w], v) == CountOf(s, v) - 1
  {
    var t := s[i := w];
    if i < |s| - 1 {
      assert t[..|t| - 1] == s[..|s| - 1][i := w];
      CountOfUpdate(s[..|s| - 1], i, v, w);
    } else {
      assert t[..|t| - 1] == s[..|s| - 1];
    }
  }

  /** Two lattices holding `v` at the same sites hold it equally often. */
  lemma {:induction false} CountOfSame(a: seq<int>, b: seq<int>, v: int)
    requires |a| == |b| && forall k :: 0 <= k < |a| ==> (a[k] == v <==> b[k] == v)
    ensures CountOf(a, v) == CountOf(b, v)
  {
    if a != [] {
      CountOfSame(a[..|a| - 1], b[..|b| - 1], v);
    }
  }

  /** Overwriting one odd entry by an even value removes exactly one odd entry. */
  lemma {:induction false} OddCountUpdate(s: seq<int>, i: int, w: int)
    requires 0 <= i < |s| && s[i] % 2 != 0 && w % 2 == 0
    ensures OddCount(s[i := w]) == OddCount(s) - 1
  {
    var t := s[i := w];
    if i < |s| - 1 {
      assert t[..|t| - 1] == s[..|s| - 1][i := w];
      OddCountUpdate(s[..|s| - 1], i, w);
    } else {
      assert t[..|t| - 1] == s[..|s| - 1];
    }
  }

  /** All entries odd: every entry counts; all entries even: none does. */
  lemma {:induction false} OddCountExtremes(s: seq<int>)
    ensures (forall k :: 0 <= k < |s| ==> s[k] % 2 != 0) ==> OddCount(s) == |s|
    ensures (forall k :: 0 <= k < |s| ==> s[k] % 2 == 0) ==> OddCount(s) == 0
  {
    if s != [] {
      OddCountExtremes(s[..|s| - 1]);
    }
  }

  /** `after` is `before` with every site of `cluster` set to `w` and every
      other site left alone. */
  predicate Recolours(before: seq<int>, after: seq<int>, cluster: seq<int>, w: int)
  {
    |before| == |after| &&
    forall j {:trigger after[j]} :: 0 <= j < |before| ==> after[j] == if j in cluster then w else before[j]
  }

  /** Every site of `cluster` from index `start` on held `v` in `s`. */
  predicate HeldValue(s: seq<int>, cluster: seq<int>, start: int, v: int)
  {
    forall c :: 0 <= c < |cluster| && start <= c ==> 0 <= cluster[c] < |s| && s[cluster[c]] == v
  }

  /** The state an expansion leaves behind: `after` is `before` with the
      cluster recoloured to `w`, every site of the cluster after its seed held
      `v` before, the cluster is a growth tree, and so `v` occurs that many
      times fewer. */
  predicate Expanded(g: Geometry, before: seq<int>, after: seq<int>, cluster: seq<int>, parents: seq<int>, v: int, w: int)
  {
    GrowthTree(g, cluster, parents) && HeldValue(before, cluster, 1, v) && Recolours(before, after, cluster, w) &&
    CountOf(after, v) == CountOf(before, v) - (|cluster| - 1)
  }

  /** An expansion run from the freshly annexed site `n` (which held `v` and
      was then marked `w`): counted from before the mark, every site of the run
      held `v` and all of them, `n` included, are recoloured. */
  lemma AnnexSeed(g: Geometry, before: seq<int>, marked: seq<int>, after: seq<int>,
                  sub: seq<int>, subParents: seq<int>, n: int, v: int, w: int)
    requires 0 <= n < |before| && before[n] == v && v != w && marked == before[n := w]
    requires Expanded(g, marked, after, sub, subParents, v, w) && sub[0] == n
    ensures GrowthTree(g, sub, subParents)
    ensures HeldValue(before, sub, 0, v) && Recolours(before, after, sub, w)
    ensures CountOf(after, v) == CountOf(before, v) - |sub|
  {
    CountOfUpdate(before, n, v, w);
    forall c | 0 <= c < |sub|
      ensures 0 <= sub[c] < |before| && before[sub[c]] == v
    {
      if c > 0 {
        assert marked[sub[c]] == v;
      }
    }
  }

  /** One pass of the neighbour loop: the cluster grown so far, followed by the
      run annexed from a neighbour of its seed (possibly empty; every site of it
      still held `v`, so none is in the cluster), is again an expansion. */
  lemma ExpandedStep(g: Geometry, before: seq<int>, mid: seq<int>, after: seq<int>,
                     cluster: seq<int>, parents: seq<int>, more: seq<int>, moreParents: seq<int>, v: int, w: int)
    requires Expanded(g, before, mid, cluster, parents, v, w) && v != w
    requires |moreParents| == |more|
    requires more != [] ==> GrowthTree(g, more, moreParents) && more[0] in Neighbours(g, cluster[0])
    requires HeldValue(mid, more, 0, v) && Recolours(mid, after, more, w)
    requires CountOf(after, v) == CountOf(mid, v) - |more|
    ensures Expanded(g, before, after, cluster + more, Graft(parents, moreParents, 0), v, w)
  {
    forall c | 0 <= c < |more|
      ensures more[c] !in cluster && before[more[c]] == v
    {
      assert mid[more[c]] == v;
    }
    forall c | 1 <= c < |cluster + more|
      ensures 0 <= (cluster + more)[c] < |before| && before[(cluster + more)[c]] == v
    {
      if c >= |cluster| {
        assert (cluster + more)[c] == more[c - |cluster|];
      }
    }
    if more == [] {
      assert cluster + more == cluster;
      assert Graft(parents, moreParents, 0) == parents;
    } else {
      GraftTree(g, cluster, parents, more, moreParents, 0);
    }
  }

  /** A certificate that a cluster grew by annexing neighbours: `cluster[0]` is
      the seed and every later site is a neighbour of an earlier one, the one at
      index `parents[k]`. */
  predicate GrowthTree(g: Geometry, cluster: seq<int>, parents: seq<int>)
  {
    |cluster| >= 1 && |parents| == |cluster| &&
    (forall k :: 0 <= k < |cluster| ==> 0 <= cluster[k] < Size(g)) &&
    (forall k {:trigger parents[k]} :: 1 <= k < |cluster| ==> 0 <= parents[k] < k && cluster[k] in Neighbours(g, cluster[parents[k]]))
  }

  /** Consecutive sites of `p` are neighbours. */
  predicate IsPath(g: Geometry, p: seq<int>)
  {
    (forall i :: 0 <= i < |p| ==> 0 <= p[i] < Size(g)) &&
    (forall i :: 0 <= i < |p| - 1 ==> p[i + 1] in Neighbours(g, p[i]))
  }

  /** A path inside the cluster from its seed to its `k`-th site. */
  function PathTo(g: Geometry, cluster: seq<int>, parents: seq<int>, k: int): (p: seq<int>)
    requires GrowthTree(g, cluster, parents) && 0 <= k < |cluster|
    ensures |p| >= 1 && p[0] == cluster[0] && p[|p| - 1] == cluster[k]
    ensures IsPath(g, p)
    ensures forall i :: 0 <= i < |p| ==> p[i] in cluster
    decreases k
  {
    if k == 0 then [cluster[0]]
    else PathTo(g, cluster, parents, parents[k]) + [cluster[k]]
  }

  /** The position of `x` in `s`. */
  function IndexOf(s: seq<int>, x: int): (r: int)
    requires x in s
    ensures 0 <= r < |s| && s[r] == x
  {
    if s[0] == x then 0 else 1 + IndexOf(s[1..], x)
  }

  /** The parents of a cluster after a sub-cluster grown from a neighbour of the
      site at `attach` has been appended to it. */
  function Graft(parents: seq<int>, subParents: seq<int>, attach: int): seq<int>
  {
    parents + seq(|subParents|, k requires 0 <= k < |subParents| =>
                    if k == 0 then attach else subParents[k] + |parents|)
  }

  /** Appending a sub-cluster grown from a neighbour of a cluster site keeps a
      growth tree. */
  lemma GraftTree(g: Geometry, cluster: seq<int>, parents: seq<int>, sub: seq<int>, subParents: seq<int>, attach: int)
    requires GrowthTree(g, cluster, parents) && GrowthTree(g, sub, subParents)
    requires 0 <= attach < |cluster| && sub[0] in Neighbours(g, cluster[attach])
    ensures GrowthTree(g, cluster + sub, Graft(parents, subParents, attach))
  {
    var c, p := cluster + sub, Graft(parents, subParents, attach);
    forall k | 1 <= k < |c|
      ensures 0 <= p[k] < k && c[k] in Neighbours(g, c[p[k]])
    {
      if k >= |cluster| {
        var j := k - |cluster|;
        if j > 0 {
          assert c[p[k]] == sub[subParents[j]];
        }
      }
    }
  }
}
