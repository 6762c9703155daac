# MCSS lattice kernels in Dafny

This project models the integer core of three Monte Carlo samplers for the 2D
Ising model and proves properties of that model.

- **Wolff single-cluster update** (`samples/single_cluster.c`). It covers:
  - the 64-bit xorshift generator;
  - the `log2(L)` shift loop;
  - the periodic neighbour tables `rn/ln/un/dn`;
  - the recursive flood fill `expand_cluster`, which turns every annexed site
    from `spin` to `-spin`;
  - the counters `Npn` (bonds tested) and `Nn` (bonds accepted).
- **Swendsen–Wang multi-cluster update** (`samples/multi_cluster.c`).
  - It uses the same generator and flood fill, but `rn[L-1] = 0`.
  - A row-major sweep seeds a cluster at every site that is still odd. One
    draw gives the cluster its mark, 0 or -2, and `lat[n] = lat[site]`
    copies that mark to every annexed site.
  - The final loop `lat[i] = ~lat[i]` maps the marks back to spins.
- **Metropolis sampler** (`samples/Metropolis_2DIsing.c`). Only its integer
  bookkeeping is modelled:
  - the topology tables of `setup` on an `Lx*Ly` lattice;
  - the random initial spins;
  - the row-major sweep of `metropolis_update`, with its index into the
    five-entry acceptance table;
  - the integer sums `E` and `M` of `measure`.

## Modules

| file | module | contents |
|---|---|---|
| `xorshift.dfy` | `Xorshift` | The register as a `bv64` word, the three shift-xor passes and their inverses, and the counting of draws and accepted bonds. |
| `lattice.dfy` | `Lattice` | Shifts and masks on sites, a column/row split, the table geometry, counts over the flat lattice, and growth trees. A growth tree lists for each annexed site the earlier site it was annexed from. |
| `cluster.dfy` | `Cluster` | `expand_cluster` and its neighbour test as reference functions on values, and what they leave behind. Wolff and Swendsen–Wang share it. |
| `single_cluster.dfy` | `SingleCluster` | The class `Wolff`: globals as fields, `main`'s loops and `expand_cluster` as methods. |
| `multi_cluster.dfy` | `MultiCluster` | The class `SwendsenWang`, the sweep as a reference function, and its invariants as lemmas. |
| `metropolis.dfy` | `Metropolis` | The table fill as written and as intended, the sweep and measurement as specification functions, and the class `MetropolisLattice`. |

### How the model is built

- **State.** Each C program's global state is one object.
  - Arrays: `lat` is an `array<int>`, and so are the tables `rn/ln/un/dn`.
  - Fields: `rnd` is a `Word` holding a `bv64`; `Npn`, `Nn` and `spin` are
    fields too.
- **Methods.** Each loop and each C function is a method that updates those
  fields in place.
  - Every method's contract ties the new state to a specification function
    or predicate over sequence values.
  - The properties are proved about those functions and predicates.
  - The ghost constant `grid` holds the tables as a value.
- **Recursion.** `expand_cluster` stays a recursive method. It visits the
  right, left, up and down neighbours in that order, so the draws come in the
  source's order.
  - Termination is measured by the number of sites still holding `spin`. Each
    annexation lowers it by one.
  - The method's new state is exactly the reference function
    `Cluster.Expand` of its state at entry, which follows the same recursion
    on values.
  - Lemmas about that function return the sites annexed, a parent for each
    and the number of draws made, and state what they satisfy.

### Where the samplers differ

- **Right wrap.** The Wolff sampler writes `rn[L-1] = -ln[0]`
  (`samples/single_cluster.c:109`), a periodic wrap. The other two write
  something else:
  - `samples/multi_cluster.c:107` and `samples/Metropolis_2DIsing.c:101`
    write `rn[L-1] = 0`.
  - The model follows the code, so a last-column site is its own right
    neighbour there.
  - `Lattice.RightWrapIsSelf` states this.
  - `MultiCluster.SelfBondUntouched` shows that the sweep never draws for this
    self-bond: the site already holds its cluster's mark.
  - In the Metropolis sums the right neighbour of a last-column site is the
    site itself.
- **Metropolis table fill.** The fill loop at
  `samples/Metropolis_2DIsing.c:89-98` leaves some entries unwritten. See
  "## Findings".

## Model

| member | source | states |
|---|---|---|
| `Xorshift.Scramble` | samples/single_cluster.c:37-41 | The three passes never map a nonzero register to zero, so the stream stays in (0, 2^64-1]. |
| `Xorshift.PrevScramble` | samples/single_cluster.c:37-41 | Each draw is a bijection of the 64-bit register: `Prev` undoes the three passes. |
| `Xorshift.NextInjective` | samples/single_cluster.c:37-41 | Two registers with the same next draw are equal. |
| `Xorshift.NextOfOne` | samples/single_cluster.c:37-41 | Reproducibility vector: from register 1 the first draw is 0x40822041. |
| `Xorshift.IterateNonzero` | samples/single_cluster.c:37 | From a nonzero seed, every later register is nonzero. |
| `Xorshift.IterateAdd` | samples/single_cluster.c:37-41 | `m` draws followed by `n` draws leave the register of `m + n` draws. |
| `Xorshift.RunsCompose` | samples/single_cluster.c:52-58 | Two runs of draws in sequence form one run. The registers chain and the accepted counts add. |
| `Xorshift.OneDraw` | samples/single_cluster.c:53-55 | One draw moves the register one step, and it is accepted exactly when it is above `prob_bond`. |
| `Xorshift.AcceptedAdd` | samples/single_cluster.c:52-56 | The accepted draws of `m + n` steps are those of the first `m` plus those of the `n` steps after them. |
| `Xorshift.AcceptedBound` | samples/single_cluster.c:52-56 | No run of draws accepts more bonds than it has draws, which gives `Nn <= Npn`. |
| `Xorshift.DrawThenRun` | samples/multi_cluster.c:116-121 | The draw for a seed's mark followed by the run of its expansion is one run of the register, one step longer. |
| `Lattice.MaskIsMod` | samples/single_cluster.c:44 | For `L = 2^k`, `site & (L-1)` equals `site % L`. |
| `Lattice.ShiftLoop` | samples/single_cluster.c:81-84 | The shift loop ends with `2^shift <= L < 2^(shift+1)`, at least 1. |
| `Lattice.ShiftIsLog2` | samples/single_cluster.c:82-84 | For a power-of-two `L`, the loop's result is exact: `1 << shift == L`. |
| `Lattice.SiteSplit` | samples/single_cluster.c:44-45 | If `L = 2^shift`, then `x = site & (L-1)` and `y = site >> shift` give `site == x + L*y`, with `x, y < L`. |
| `Lattice.MaskedLookup` | samples/single_cluster.c:44-48 | The mask-and-shift lookup of `expand_cluster` lists the site's right, left, up and down neighbours, all inside the lattice. |
| `Lattice.TablesInRange` | samples/single_cluster.c:100-111 | With either right wrap used in the samplers (`-(L-1)` or `0`), every `site + offset` lies in `[0, N)`. |
| `Lattice.HorizontalRoundTrip` | samples/single_cluster.c:100-109 | On the periodic tables, right then left and left then right both return to the same site. |
| `Lattice.UpThenDown` | samples/single_cluster.c:103-111 | Up then down returns to the same site. |
| `Lattice.DownThenUp` | samples/single_cluster.c:103-111 | Down then up returns to the same site. |
| `Lattice.RightWrapIsSelf` | samples/multi_cluster.c:106-109 | With `rn[L-1] = 0`, a last-column site is its own right neighbour. Right then left does not return to it. |
| `Lattice.CountOfUpdate` | samples/single_cluster.c:52-57 | Overwriting one `spin` entry with another value removes exactly one `spin`. This is the termination measure of `expand_cluster`. |
| `Lattice.CountOfBound` | samples/single_cluster.c:52-57 | No value occurs more often than there are sites. So the count of `spin` sites, which bounds the recursion of `expand_cluster`, is at most `N`. |
| `Lattice.OddCountUpdate` | samples/multi_cluster.c:51-57 | Overwriting an odd entry with an even mark removes exactly one odd site, so each marked site leaves the count of sites still to be seeded. |
| `Lattice.AnnexSeed` | samples/single_cluster.c:55-58 | An accepted neighbour held `spin` and was marked. Counted from before the mark, it and the whole run from it are recoloured, and that many `spin` sites are gone. |
| `Lattice.ExpandedStep` | samples/single_cluster.c:50-61 | One pass of the neighbour loop keeps the expansion invariant: the cluster stays a growth tree, and only former `spin` sites are recoloured. |
| `Lattice.PathTo` | samples/single_cluster.c:46-58 | Every site of a growth tree is reached from the seed by a path of neighbours inside the cluster. |
| `Lattice.GraftTree` | samples/single_cluster.c:57-58 | Attaching the run grown from a neighbour keeps a growth tree. |
| `Cluster.GrownSeed` | samples/single_cluster.c:43-49 | Before its loop, an expansion is its seed alone, with nothing drawn. |
| `Cluster.GrownStep` | samples/single_cluster.c:50-61 | A tested neighbour of the seed extends the expansion. Both counters and the register's run stay in step with the annexed sites. |
| `Cluster.ExpandGrown` | samples/single_cluster.c:43-62 | The reference expansion from a seed that already holds `w` is `Grown`: a growth tree rooted at the seed, whose other sites held `v` and now hold `w`, one draw and `Npn++` per tested bond, one `Nn++` and one accepted draw per annexed site, and at most four draws per site. |
| `Cluster.TestGrown` | samples/single_cluster.c:51-59 | The reference test of a neighbour is `Tested`: nothing when it does not hold `v`; otherwise one draw, and a run annexed from it exactly when the draw is above the threshold. |
| `Cluster.ExpandFacts` | samples/single_cluster.c:43-62 | Only sites holding `v` change, each to `w`. A nonzero register stays nonzero, `Npn` never falls, and an expansion that draws nothing changes nothing. |
| `Cluster.TestFacts` | samples/single_cluster.c:51-59 | The same for one neighbour test; a neighbour holding `v` always costs a draw. |
| `Cluster.ExpandTestsNeighbour` | samples/single_cluster.c:50-55 | When some neighbour of the seed holds `v`, the expansion draws at least once. |
| `Cluster.AcceptAllTakesNeighbours` | samples/single_cluster.c:50-58 | With threshold 0 and a nonzero register every bond is accepted, so afterwards no neighbour of the seed still holds `v`. |
| `Cluster.TestTakes` | samples/single_cluster.c:53-57 | With threshold 0 and a nonzero register, a neighbour holding `v` is annexed. |
| `SingleCluster.FlipThenGrow` | samples/single_cluster.c:116-124 | Seed draw, save, flip and expansion together are one update. The seed and every annexed site held `spin` and now hold `-spin`. |
| `SingleCluster.UpdatedMeans` | samples/single_cluster.c:51-58 | After an update of a spin lattice, five things hold. The seed holds the opposite spin, and all entries are still ±1. The changed sites are exactly the cluster, and each went from `spin` to `-spin`. The cluster has at most `N` sites. `Nn` grew by no more than `Npn`. |
| `SingleCluster.ChangedSiteReached` | samples/single_cluster.c:46-58 | Every changed site is joined to the seed by a path of adjacent sites that all held `spin` and all changed, so nothing outside the seed's same-spin component changes. |
| `SingleCluster.Wolff.constructor` | samples/single_cluster.c:81-111 | Initialisation leaves every site at +1 and advances the register exactly `N` times. The tables are periodic and the counters are zero. |
| `SingleCluster.Wolff.InitSpins` | samples/single_cluster.c:95-98 | One draw per site, and every site is set to +1. |
| `SingleCluster.Wolff.InitTables` | samples/single_cluster.c:100-111 | The tables are the periodic ones, with `rn[L-1] = -ln[0]`. |
| `SingleCluster.Wolff.Xorshift64` | samples/single_cluster.c:37-41 | The register takes one step of the three passes. |
| `SingleCluster.Wolff.ExpandCluster` | samples/single_cluster.c:43-62 | The call leaves exactly the reference expansion `Cluster.Expand` of the state at entry: the right, left, up and down neighbours are tested in that order, each one still holding `spin` costs one draw and one `Npn++`, and one whose draw is above `prob_bond` is annexed and expanded in turn. |
| `SingleCluster.Wolff.Lookup` | samples/single_cluster.c:44-48 | `neigh` is the site's right, left, up and down neighbours, all in `[0, N)`. |
| `SingleCluster.Wolff.TestNeighbour` | samples/single_cluster.c:51-59 | The pass leaves exactly `Cluster.Test` of the state at entry: a neighbour not holding `spin` costs nothing; otherwise one draw and `Npn++`, and on a draw above `prob_bond` the neighbour joins. |
| `SingleCluster.Wolff.Join` | samples/single_cluster.c:56-58 | `Nn++` and `lat[n] = -spin`, then exactly the reference expansion from `n` of that state. |
| `SingleCluster.Wolff.Update` | samples/single_cluster.c:116-124 | `spin` is the seed's old value. The new state is exactly one draw, the flip of the seed and the reference expansion from it, and it satisfies `Updated`: a growth tree rooted at the seed of former `spin` sites, now `-spin`, with the counters and the register's run in step. |
| `MultiCluster.MarkOf` | samples/multi_cluster.c:116-127 | A new cluster's mark is a mark (0 or -2) whose complement is a spin, and that complement is +1 exactly when the draw's low bit is set. |
| `MultiCluster.NotMarks` | samples/multi_cluster.c:126-127 | `~0 = -1` and `~(-2) = +1`, and `~` is its own inverse. `~` maps the marks exactly onto the spins. |
| `MultiCluster.OddAreSpins` | samples/multi_cluster.c:114 | On spins and marks, the odd sites (`lat[i]&1`) are exactly the spins. |
| `MultiCluster.SweepStart` | samples/multi_cluster.c:113 | The sweep invariant holds before the loop on a lattice of spins. |
| `MultiCluster.SweepSkip` | samples/multi_cluster.c:114 | An even (claimed) site is not a seed. The sweep passes it with nothing changed. |
| `MultiCluster.SeedMarks` | samples/multi_cluster.c:116-121 | After a seed, the sites up to it are marked and every entry is a spin or a mark. Exactly the cluster's sites stopped being odd. |
| `MultiCluster.SeedLabels` | samples/multi_cluster.c:56 | Every annexed site takes its seed's mark, and every earlier cluster keeps its seed and mark. |
| `MultiCluster.SeedStep` | samples/multi_cluster.c:114-121 | A seed moves the lattice invariant one site on and removes the cluster's sites from the odd count. |
| `MultiCluster.ClusterIsChange` | samples/multi_cluster.c:51-57 | A site is in the cluster grown from the seed exactly when it is the seed or its entry changed. |
| `MultiCluster.SeedKeepsMark` | samples/multi_cluster.c:116-127 | The reference seed keeps the mark its draw picked, whose complement is +1 exactly when the draw's low bit is set. |
| `MultiCluster.RootedStep` | samples/multi_cluster.c:49-57 | After a seed, every site still odd holds its spin from before the sweep, and every marked site is joined to its seed by a path of marked sites that held the seed's spin before the sweep. |
| `MultiCluster.SweepSeed` | samples/multi_cluster.c:114-121 | An odd site seeds a cluster with one draw for its mark. The sweep invariant moves on with one seed more, and the sites the seed changed take its label. |
| `MultiCluster.SweepSeedAt` | samples/multi_cluster.c:114-121 | The reference seed at an odd site moves the sweep invariant on with one seed more. |
| `MultiCluster.RootedAt` | samples/multi_cluster.c:114-121 | The reference seed at an odd site keeps every marked site joined to its seed inside its cluster. |
| `MultiCluster.SweptOn` | samples/multi_cluster.c:113-125 | From any point of the sweep, the reference sweep carries the sweep invariant to the last site. |
| `MultiCluster.RootedOn` | samples/multi_cluster.c:113-125 | From any point of the sweep, the reference sweep keeps every marked site joined to its seed inside its cluster. |
| `MultiCluster.SweepAll` | samples/multi_cluster.c:113-125 | The whole reference sweep from a lattice of spins keeps both invariants to the end. |
| `MultiCluster.SweepEnd` | samples/multi_cluster.c:113-125 | After the loop, every entry is 0 or -2. Every site carries its seed's mark, its seed is at or before it, and each site was a seed or annexed exactly once. |
| `MultiCluster.RootedEnd` | samples/multi_cluster.c:113-125 | Once every site is marked, each site is joined to its seed by a path inside its cluster, and it held its seed's spin before the sweep. |
| `MultiCluster.SweepResult` | samples/multi_cluster.c:113-125 | The whole reference sweep leaves all sites marked with their seed's mark, each joined to its seed inside its cluster, one seed or annexation per site, and one draw per seed and per tested bond. |
| `MultiCluster.SelfBondUntouched` | samples/multi_cluster.c:49-51 | The right self-bond of a last-column site is never drawn for. The test leaves the whole state unchanged. |
| `MultiCluster.SwendsenWang.constructor` | samples/multi_cluster.c:80-109 | Every site is at +1 after exactly `N` draws, and the tables have `rn[L-1] = 0`. |
| `MultiCluster.SwendsenWang.InitSpins` | samples/multi_cluster.c:94-97 | One draw per site, and every site is set to +1. |
| `MultiCluster.SwendsenWang.InitTables` | samples/multi_cluster.c:99-109 | The tables are written with `rn[L-1] = 0`. |
| `MultiCluster.SwendsenWang.Xorshift64` | samples/multi_cluster.c:36-40 | The register takes one step of the three passes. |
| `MultiCluster.SwendsenWang.ExpandCluster` | samples/multi_cluster.c:42-61 | The call leaves exactly the reference expansion `Cluster.Expand` of the state at entry, with the mark `lat[site]` in place of `-spin`: the same neighbour order, draws and counters as Wolff. |
| `MultiCluster.SwendsenWang.Lookup` | samples/multi_cluster.c:43-47 | `neigh` is the four neighbours in order, all in `[0, N)`. |
| `MultiCluster.SwendsenWang.TestNeighbour` | samples/multi_cluster.c:50-59 | The pass leaves exactly `Cluster.Test` of the state at entry with the mark of `site`, and `site` keeps its mark. |
| `MultiCluster.SwendsenWang.Join` | samples/multi_cluster.c:55-57 | `Nn++` and `lat[n] = lat[site]`, then exactly the reference expansion from `n` of that state. |
| `MultiCluster.SwendsenWang.Seed` | samples/multi_cluster.c:115-121 | The seed's spin is saved, and the new state is exactly `SeedAt`: one draw picks the mark and the cluster grown from the seed takes it. After the complement the seed is +1 exactly when that draw's low bit is set. |
| `MultiCluster.SwendsenWang.Sweep` | samples/multi_cluster.c:113-125 | The new state is exactly the reference sweep `SweepFrom`. Every entry is 0 or -2. Every site shares its seed's mark, its seed is at or before it, and a path of neighbours inside the cluster joins them, along which every site held the seed's old spin. Seeds plus annexations make `N`. The register made one draw per seed and one per tested bond. |
| `MultiCluster.SwendsenWang.Complement` | samples/multi_cluster.c:126-127 | Every entry becomes its complement `~lat[i]`. |
| `MultiCluster.SwendsenWang.Update` | samples/multi_cluster.c:113-127 | The register and counters are those of the reference sweep, and each entry is the complement of its entry. Every entry is ±1 again. Every site holds its seed's new spin and is joined to it by a path of sites that held the seed's old spin. The ledger of seeds, annexations and draws is kept. |
| `Metropolis.SetupTablesAsWritten` | samples/Metropolis_2DIsing.c:89-103 | The fill as written yields exactly `FillAsWritten` of the arrays' prior contents. |
| `Metropolis.UnsetEntries` | samples/Metropolis_2DIsing.c:89-98 | Some entries keep their prior, unset contents: `ln[Lx-1]` and `dn[Ly-1]` always, and from `min(Lx,Ly)` on, the non-boundary entries of the longer side. |
| `Metropolis.AsWrittenSquare` | samples/Metropolis_2DIsing.c:89-103 | On a square lattice, every other entry is the intended one. |
| `Metropolis.AsWrittenLeavesLattice` | samples/Metropolis_2DIsing.c:89-103 | On a 2x2 lattice whose `ln[1]` held 7 before the fill, the left lookup of site 1 is 8, outside the lattice. |
| `Metropolis.SetupTables` | samples/Metropolis_2DIsing.c:89-103 | The intended fill gives exactly the tables with `rn[Lx-1] = 0`, and every lookup stays in `[0, N)`. |
| `Metropolis.AtSite` | samples/Metropolis_2DIsing.c:114-118 | `i + Lx*j` is a site, and the lookups `rn[i]`, `ln[i]`, `un[j]`, `dn[j]` at it give its four neighbours. |
| `Metropolis.SitesDistinct` | samples/Metropolis_2DIsing.c:112-128 | Distinct column/row pairs give distinct values of `site_u`. |
| `Metropolis.SpinProduct` | samples/Metropolis_2DIsing.c:119-121 | Four spins times minus a spin is one of -4, -2, 0, 2, 4, and `(ss+4)>>1` maps it into `[0,4]`. |
| `Metropolis.IndexInTable` | samples/Metropolis_2DIsing.c:115-121 | On spins, `ss` is in {-4,-2,0,2,4}, so `(ss+4)>>1` is in `[0,4]`. |
| `Metropolis.Step` | samples/Metropolis_2DIsing.c:122-125 | A step writes only `lat[site_u]` and keeps every entry ±1. |
| `Metropolis.Swept` | samples/Metropolis_2DIsing.c:112-129 | Every prefix of the sweep keeps the lattice a lattice of spins. |
| `Metropolis.StepsWriteOwnSite` | samples/Metropolis_2DIsing.c:112-128 | A site not yet reached keeps its spin. A site passed holds what its own step gave it, so each site is visited once, in row-major order. |
| `Metropolis.MeasureOn` | samples/Metropolis_2DIsing.c:143-145 | Adding the terms of site `t` to the sums over the first `t` sites gives the sums over the first `t + 1`. |
| `Metropolis.MeasureBounds` | samples/Metropolis_2DIsing.c:141-147 | On spins, `|M| <= N` and `|E| <= 2N`. |
| `Metropolis.MetropolisLattice.constructor` | samples/Metropolis_2DIsing.c:80-103 | Each site is +1 exactly when its draw `rand()` is odd, otherwise -1. The tables are the intended ones. |
| `Metropolis.MetropolisLattice.InitSpins` | samples/Metropolis_2DIsing.c:81-82 | `(rand()&1)*2-1` gives every site ±1, and +1 exactly for an odd draw. |
| `Metropolis.MetropolisLattice.Update` | samples/Metropolis_2DIsing.c:106-130 | The sweep leaves exactly `Swept(old lattice, Ly, 0)`: every site stepped once, in row-major order. The loops keep `site_u == i + Lx*j`. |
| `Metropolis.MetropolisLattice.Visit` | samples/Metropolis_2DIsing.c:115-125 | One inner step computes `ss` and the table index, then negates the spin when accepted. It is exactly `Step`. |
| `Metropolis.MetropolisLattice.LocalSum` | samples/Metropolis_2DIsing.c:115-118 | The four lookups read the right, left, up and down neighbours of `site_u`. |
| `Metropolis.MetropolisLattice.RowEnd` | samples/Metropolis_2DIsing.c:113-127 | `site_u` carries on unchanged from one row to the next: the end of row `j` is the start of row `j + 1`, at most `N`. |
| `Metropolis.MetropolisLattice.Contribution` | samples/Metropolis_2DIsing.c:143-144 | The per-site terms of `M` and `E` use only the right and up neighbours. |
| `Metropolis.MetropolisLattice.Measure` | samples/Metropolis_2DIsing.c:132-151 | `E` and `M` are the bond and spin sums over all sites, and the lattice is only read. On spins, `|M| <= N` and `|E| <= 2N`. |

## Left out

- **Floating point.** None of these is computed by the model:
  - `prob_bond = exp(-2k)*2^64` is the parameter `probBond` of the samplers.
  - The Metropolis table `prob[]` and the quotient `Q` are left out.
  - The densities `e = -J/N*E` and `m = M/N` are stated only through the
    integer sums.
- **Wolff seed index.** `frnd` and the seed index `(uint32_t)(frnd*N)` are
  replaced by a parameter `i` with `0 <= i < N`: the update's one draw is
  modelled, its conversion to `i` is not. Single-precision rounding can make
  that index equal `N`. The model does not capture this.
- **Metropolis acceptance.** The test `Q >= 1 || rand()/RAND_MAX < Q` is an
  arbitrary oracle `accept(site, k)` over the site and the table index.
  - The sweep visits each site once, so any sequence of outcomes is covered.
  - The consumption of `rand()` draws is not modelled.
- **Platform calls.**
  - `time(0)` and `srand` become the seed parameter.
  - The `rand()` values of the initial Metropolis lattice become the `draws`
    parameter.
- **I/O and plumbing.** `disp_lattice`, `disp_init_info`, `printf`, the
  output file and the bond-ratio printout are left out. So is `get_data`,
  apart from its checks `Lx, Ly >= 2`, which become the constructor's
  requires.
- **Driver.** The thermalisation and measurement loops of the Metropolis
  `main` are left out, as are `realloc` and `malloc`. The fresh arrays'
  unset contents are parameters of the as-written table fill.
- **Integer widths.**
  - `lat` is `char` in the cluster samplers; its values stay in {-2,-1,0,1},
    so `int` is exact.
  - `Npn`, `Nn` and the sweep index are `uint32_t`; they are unbounded `nat`
    here, and their 32-bit wrap-around is not modelled (for `L <= 256`,
    `N <= 65536` and the counters stay below `4N`).
- **`Nc`.** It is declared but never incremented. The Swendsen–Wang model
  counts seeds as a ghost result instead.
- **Clusters as ghost results.** The cluster, parents and draw counts
  returned by `SingleCluster.Wolff.Update` and by the lemmas about
  `Cluster.Expand`, and the seeds, labels and paths returned by
  `MultiCluster.SwendsenWang.Sweep` and `Update`, are ghost. They state what
  the C code does without storing it.
- **Metropolis on the tables as written.** `MetropolisLattice` is built on
  the corrected tables of `SetupTables`. The sweep and the measurement on
  the tables as written are not modelled, because those tables hold unset
  entries (see "## Findings").

## Findings

| source | as written | input that shows it | evidently intended | confidence | as-written member | corrected member |
|---|---|---|---|---|---|---|
| samples/Metropolis_2DIsing.c:89-98 | The fill loop runs only while `i < Lx && i < Ly`, and sets `rn/ln` only for `i < Lx-1` and `un/dn` only for `i < Ly-1`. `ln[Lx-1]`, `dn[Ly-1]` and, when `Lx != Ly`, every non-boundary entry of the longer side from `min(Lx,Ly)` on keep the uninitialised contents of `realloc`. | `Lx = Ly = 2` with `ln[1]` holding 7 before the fill: the left lookup of site 1 reads `lat[8]`, outside the 4-site lattice. | Every `rn[i]`/`ln[i]` for `i < Lx` and every `un[j]`/`dn[j]` for `j < Ly` filled before the boundary entries, so every lookup stays in `[0, N)`. | not executed | `Metropolis.AsWrittenLeavesLattice` | `Metropolis.SetupTables` |
