# Metropolis Ising kernel in Dafny

This project models the deterministic core of a Metropolis Monte Carlo simulation of the Ising model on an
L^D lattice (a side of L sites in D dimensions), and proves properties of that model. It covers:

- the spin value `IsingField` (Up / Down) and its ±1 interaction;
- the neighbour-index arithmetic `next_position` / `previous_position`, which is `(i ± L^d) mod L^D` on
  the linear site index;
- the site: construction, neighbour-slot updates, `flip`, `local_energy`, and the single-site Metropolis
  step;
- the lattice: construction of L^D sites, periodic and open wiring, `get` / `get_mut`, `get_energy` and the
  sweep;
- the earlier revision of site and lattice: plain constructors and structural equality.

L (`LATTICE_SIZE`) and D (`DIMENSIONS`) are parameters of every operation. The unit tests use L = 4 and
D = 3, and the model proves those test values.

Files and modules:

| file | module | source |
|---|---|---|
| options.dfy | `Options` | Rust's `Option` |
| sums.dfy | `Sums` | finite sums and swapping the order of a double sum (proof support) |
| utils.dfy | `Utils` | src/geometry/utils.rs |
| ising.dfy | `Ising` | src/field/ising.rs |
| site.dfy | `GeometrySite` | src/geometry/site.rs |
| lattice.dfy | `GeometryLattice` | src/geometry/lattice_geometry/lattice.rs |
| contacts.dfy | `LatticeContacts` | the energy test of src/geometry/lattice_geometry/lattice.rs |
| early_site.dfy | `EarlySite` | src/lattice/site.rs |
| early_lattice.dfy | `EarlyLattice` | src/lattice/lattice.rs |

## Modelling choices

- **Neighbours as indices.** A neighbour slot is an `Option<nat>` index.
- **Neighbour spins come from a snapshot.** `Lattice::new` clones every fresh site before wiring
  (lattice.rs:21-23), and each neighbour handle points at one of those clones. A neighbour's spin is
  therefore the one it had at construction, not its live spin. The model keeps those spins in
  `Lattice.snapshot`, and every local energy reads its neighbours from there. A flip or a sweep changes
  `sites` and never `snapshot`. As a consequence, no trial in a sweep sees the outcome of another trial.
  The sequential sweep loop therefore gives the same result as the parallel one.
- **Type errors in the code.** The code mixes `Arc<Site>` and `Arc<RwLock<Site>>` handles, and calls
  `.read()` on a plain `IsingField`. The model follows the evident intent: a handle gives read access to
  a cloned site.
- **Integer energies.** Every interaction is ±1, so local energies are integers. `get_energy` is their sum
  as a real, divided by 2.
- **Randomness and `exp` are inputs.**
  - `montecarlo_single_site` computes `exp(-beta * (e1 - e0))`. The model takes a function
    `boltzmann: int -> real` from the energy change to that ratio.
  - The draw from the random source is a real argument `u`.
  - The sweep takes one draw per site, `draws[i]` for site i.
  - The random initial spin is `draw < 0.5` (ising.rs:14), with the draw as an argument.
- **Helical wrap, as written.** The neighbour index wraps the linear index, not each coordinate. Under
  open conditions a link is cut only where the linear index wraps. That is at L^d sites per dimension and
  direction, not at every coordinate face. The energy test values (342 under open conditions) agree with
  this reading.
- **One-pass sweep, as written.** `montecarlo_sweep` runs one trial per site with no checkerboard
  phases. The model does the same.
- **Energy sign in the test.** The test at lattice.rs:167 and lattice.rs:177 expects the all-Up local
  energies to sum to -384 (periodic) and -342 (open). The interaction table (ising.rs:31) gives +1 to two
  Up spins, so the code yields +384 and +342. The model follows the interaction table. It proves the
  magnitudes: `LatticeContacts.PeriodicUniformLocalEnergySum` and `LatticeContacts.OpenUniformLocalEnergySum`.

## Model

| member | source | states |
|---|---|---|
| Utils.NextPosition | src/geometry/utils.rs:3-13 | the forward neighbour index is always a valid site index, below L^D |
| Utils.PreviousPosition | src/geometry/utils.rs:15-28 | the backward neighbour index is always below L^D; it is only defined when the unsigned subtraction does not underflow |
| Utils.PreviousNeverUnderflows | src/geometry/utils.rs:20-24 | for every dimension d <= D, adding L^D and then subtracting L^d never underflows, whatever the index |
| Utils.NextClosedForm | src/geometry/utils.rs:9-12 | for a valid index, next_position is i + L^d, minus L^D exactly when that sum passes the last site |
| Utils.PreviousClosedForm | src/geometry/utils.rs:21-27 | for a valid index, previous_position is i - L^d, plus L^D exactly when i < L^d |
| Utils.PreviousOfNext | src/geometry/utils.rs:3-28 | stepping forward and then back along a dimension returns to the start |
| Utils.NextOfPrevious | src/geometry/utils.rs:3-28 | stepping back and then forward along a dimension returns to the start |
| Utils.NextWrapsExactly | src/geometry/utils.rs:9-12 | for L >= 2 and d < D, next_position(i, d) < i exactly when i + L^d >= L^D |
| Utils.PreviousWrapsExactly | src/geometry/utils.rs:21-27 | for L >= 2 and d < D, previous_position(i, d) > i exactly when i < L^d |
| Utils.NextPositionExamples | src/geometry/utils.rs:35-39 | with L = 4, D = 3: (0,0) gives 1, (16,2) gives 32, (31,1) gives 35 |
| Utils.NextPositionWrapExample | src/geometry/lattice_geometry/lattice.rs:148 | with L = 4, D = 3: (63,0) gives 0, the wrap the lattice test checks through site 63's forward neighbour |
| Utils.PreviousPositionExamples | src/geometry/utils.rs:42-46 | with L = 4, D = 3: (0,0) gives 63, (16,2) gives 0, (31,1) gives 27 |
| Ising.NewField | src/field/ising.rs:11-24 | Uniform always gives Up; Random gives Up exactly when the draw is below one half |
| Ising.RandomReachesBoth | src/field/ising.rs:13-19 | the random policy can produce either spin from a draw in [0, 1) |
| Ising.Interaction | src/field/ising.rs:28-39 | the interaction is +1 for equal spins and -1 for different ones, and nothing else |
| Ising.InteractionSymmetric | src/field/ising.rs:28-39 | the interaction does not depend on the order of its arguments |
| Ising.InteractionOpposite | src/field/ising.rs:28-39 | reversing either spin reverses the sign of the interaction |
| GeometrySite.New | src/geometry/site.rs:37-47 | a new site has the given position and the policy's spin, and all D forward and D backward slots are empty |
| GeometrySite.UpdateNext | src/geometry/site.rs:49-51 | update_next writes forward slot d; every other forward slot, the backward slots, the position and the spin are unchanged |
| GeometrySite.UpdatePrevious | src/geometry/site.rs:53-55 | update_previous writes backward slot d; every other backward slot, the forward slots, the position and the spin are unchanged |
| GeometrySite.Flip | src/geometry/site.rs:57-62 | flip changes the spin to the other value and leaves the position and the neighbour slots as they were |
| GeometrySite.FlipInvolution | src/geometry/site.rs:57-62 | flipping twice restores the site |
| GeometrySite.SlotEnergy | src/geometry/site.rs:69-81 | the interactions with one direction's occupied slots sum to at most the number of occupied slots in magnitude |
| GeometrySite.LocalEnergy | src/geometry/site.rs:64-85 | the magnitude of the local energy is at most the number of occupied slots, which is at most 2D |
| GeometrySite.LocalEnergyFlip | src/geometry/site.rs:64-85 | flipping a site negates its local energy |
| GeometrySite.LocalEnergyOfNew | src/geometry/site.rs:166-171 | a freshly built site, with no neighbours, has local energy 0 |
| GeometrySite.LocalEnergyAligned | src/geometry/site.rs:64-85 | when the spin behind every occupied slot equals the site's spin (other sites may differ), the local energy equals the number of occupied slots |
| GeometrySite.MonteCarloSingleSite | src/geometry/site.rs:87-123 | the step returns true exactly when the spin ends flipped and false exactly when the site is unchanged; position and slots never change; it accepts exactly when the ratio for the energy change -2·e0 exceeds 1 or the draw is below it |
| GeometrySite.FavourableTrialIgnoresDraw | src/geometry/site.rs:102-106 | when the ratio exceeds 1 the flip is accepted and the outcome does not depend on the draw |
| GeometrySite.DownhillAlwaysAccepted | src/geometry/site.rs:99-106 | if the ratio exceeds 1 on every energy decrease, as exp(-beta·delta) does for beta > 0 in exact arithmetic, a flip that lowers the local energy is always accepted |
| GeometryLattice.NextSlot | src/geometry/lattice_geometry/lattice.rs:65-66 | the forward slot wiring gives site i in dimension d holds next_position(i, d), a valid index; it is empty exactly when the boundary is open and next_position(i, d) < i (the open branch at lattice.rs:80-87); OpenCutsAtWrap restates that cut in terms of i + L^d |
| GeometryLattice.PreviousSlot | src/geometry/lattice_geometry/lattice.rs:69-70 | the backward slot holds previous_position(i, d), whose subtraction never underflows; it is empty exactly when the boundary is open and previous_position(i, d) > i (the open branch at lattice.rs:90-97); OpenCutsAtWrap restates that cut in terms of i < L^d |
| GeometryLattice.PeriodicSlots | src/geometry/lattice_geometry/lattice.rs:60-73 | periodic wiring fills forward slot d with next_position(i, d) and backward slot d with previous_position(i, d) |
| GeometryLattice.OpenCutsAtWrap | src/geometry/lattice_geometry/lattice.rs:75-100 | for L >= 2, open wiring leaves a forward slot empty exactly when i + L^d >= L^D, and a backward slot empty exactly when i < L^d; every other slot is wired as under periodic conditions |
| GeometryLattice.PeriodicWiringExamples | src/geometry/lattice_geometry/lattice.rs:144-149 | with L = 4, D = 3 and periodic conditions: site 0 has forward neighbour 1, and site 63 has forward neighbour 0 |
| GeometryLattice.OpenWiringExamples | src/geometry/lattice_geometry/lattice.rs:151-155 | with L = 4, D = 3 and open conditions: site 0 has forward neighbour 1, site 63 has no forward neighbour, and site 0 has no backward neighbour in dimension 0 |
| GeometryLattice.InitialisePeriodic | src/geometry/lattice_geometry/lattice.rs:60-73 | after periodic wiring every site carries exactly the periodic slots for its index; positions and spins are unchanged |
| GeometryLattice.InitialiseOpen | src/geometry/lattice_geometry/lattice.rs:75-100 | after open wiring every site carries exactly the open slots for its index; positions and spins are unchanged |
| GeometryLattice.New | src/geometry/lattice_geometry/lattice.rs:14-38 | Lattice::new has L^D sites; site i is at position i with the policy's spin (all Up under Uniform); the snapshot holds those first spins; the wiring is the one the boundary conditions select, and every slot names a site of the lattice |
| GeometryLattice.Get | src/geometry/lattice_geometry/lattice.rs:40-42 | get(i) needs i < L^D and returns a site of the lattice, the one at position i |
| GeometryLattice.FlipAt | src/geometry/lattice_geometry/lattice.rs:44-46 | flipping through get_mut(i) changes only the spin of site i; every other site, every position and slot, and the snapshot are unchanged |
| GeometryLattice.TotalLocalEnergy | src/geometry/lattice_geometry/lattice.rs:49 | the sum of the local energies over the sites is at most, in magnitude, the number of occupied slots of those sites |
| GeometryLattice.GetEnergy | src/geometry/lattice_geometry/lattice.rs:48-50 | get_energy is at most, in magnitude, half the number of occupied slots; EnergyAfterFlip gives its change under a flip, and UniformEnergy its value with all spins Up |
| GeometryLattice.EnergyAfterFlip | src/geometry/lattice_geometry/lattice.rs:48-50 | flipping site i lowers get_energy by exactly the local energy site i had before the flip |
| GeometryLattice.FlipTwiceRestoresEnergy | src/geometry/lattice_geometry/lattice.rs:48-50 | flipping a site twice restores get_energy |
| GeometryLattice.MonteCarloSweep | src/geometry/lattice_geometry/lattice.rs:52-57 | the sweep runs exactly one single-site trial per site, site i with draw i, against the snapshot; it changes no position, no slot and not the snapshot |
| GeometryLattice.SweepKeepsShape | src/geometry/lattice_geometry/lattice.rs:52-57 | a lattice that changed only spins, as a sweep does, keeps its size, its indexing and its in-range wiring |
| LatticeContacts.ContactCount | src/geometry/lattice_geometry/lattice.rs:60-100 | a wired lattice has 2·D·L^D occupied slots under periodic conditions; under open conditions with L >= 2 it has 2·(1 + L + ... + L^(D-1)) fewer |
| LatticeContacts.UniformEnergy | src/geometry/lattice_geometry/lattice.rs:48-50 | with all spins Up, the local energies of a wired lattice sum to its number of occupied slots, and get_energy is half that |
| LatticeContacts.PeriodicUniformLocalEnergySum | src/geometry/lattice_geometry/lattice.rs:159-167 | for L = 4, D = 3, periodic conditions and all spins Up, the local energies of the lattice built by Lattice::new sum to +384 (the test expects -384, see above) |
| LatticeContacts.OpenUniformLocalEnergySum | src/geometry/lattice_geometry/lattice.rs:170-177 | the same under open conditions sums to +342 = 384 - 2·(1 + 4 + 16) |
| EarlySite.New | src/lattice/site.rs:15-22 | the earlier Site::new stores the position and the policy's spin (Up under Uniform), and leaves all D forward and D backward slots empty |
| EarlySite.Eq | src/lattice/site.rs:25-31 | the earlier PartialEq coincides with structural equality: it holds exactly when position, spin, and the forward and backward slot arrays are all equal, compared recursively at every depth |
| EarlySite.NewSitesEq | src/lattice/site.rs:15-31 | two freshly built sites are equal exactly when their positions and their first spins agree |
| EarlySite.UniformSitesEq | src/lattice/site.rs:15-31 | under Uniform, two freshly built sites are equal exactly when their positions are equal |
| EarlyLattice.New | src/lattice/lattice.rs:9-13 | the earlier Lattice::new has L^D sites; site i is at position i with the policy's spin (Up under Uniform); every slot is empty, because nothing is wired |
| EarlyLattice.SitesDistinct | src/lattice/lattice.rs:9-13 | no two sites of a freshly built earlier lattice are equal |

## Left out

- Site ids: `Uuid::new_v4` ids, the `Clone` that mints a fresh id, and the id-based `PartialEq` (src/geometry/site.rs:22-34, 126-139). They are random identities with no behaviour to check.
- `lattice_position` and `chessboard` (src/geometry/site.rs:17-18, 44-45). The functions that compute them are not part of this model, and the sweep never reads them. For the same reason the model does not state that `flip` leaves them unchanged.
- Parallelism: `rayon` in `get_energy` and `montecarlo_sweep`, `RwLock`, and `Arc` sharing. Both operations are modelled sequentially, and no concurrency property is verified.
- Floating point. `exp`, the inverse temperature, and the `f64` draws are abstract inputs. Nothing is proved about probabilities or detailed balance. Rounding is not modelled either. In `f64`, `exp(-beta·delta)` rounds to exactly 1.0 when 0 < beta·|delta| < 2^-53. Such a downhill flip is then rejected by a draw of 1.0, so the hypothesis of `GeometrySite.DownhillAlwaysAccepted` holds only in exact arithmetic.
- Integer width. `usize` overflow in `i + L^d` and in `usize::pow` is not modelled; integers are unbounded.
- The command-line driver (src/bin/simulation.rs) is I/O glue. src/settings.rs holds compile-time constants, which became the parameters L and D. The `Field` trait (src/field/schema.rs) has no behaviour and is folded into `Ising.Interaction`.
- Utils.NextWrapsExactly: stated only for L >= 2 and d < D. For L = 1, or for d = D, the forward index never goes backwards, although i + L^d reaches L^D.
- Utils.PreviousWrapsExactly: stated only for L >= 2 and d < D, for the same reason.
- GeometryLattice.OpenCutsAtWrap: stated only for L >= 2. With L = 1, open wiring links the single site to itself in every slot.
- LatticeContacts.ContactCount: the open-conditions count is stated only for L >= 2, for the same reason.
- LatticeContacts.UniformEnergy: the open-conditions case is stated only for L >= 2, for the same reason.
- GeometryLattice.Get: an index of L^D or more panics in the code. It is a precondition in the model, not an error result.
- GeometrySite.UpdateNext, GeometrySite.UpdatePrevious and Utils.PreviousPosition: the slot-index panic of `update_next`/`update_previous` (src/geometry/site.rs:50, 54) and the `usize` underflow panic of `previous_position` (src/geometry/utils.rs:24) are preconditions in the model, not error results. Every caller in the model meets them; `Utils.PreviousNeverUnderflows` shows the underflow cannot happen for d <= D.
- The random number generator is not modelled. The draws a site or a sweep would consume are passed in as arguments.
