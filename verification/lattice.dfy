/**
 The lattice (src/geometry/lattice_geometry/lattice.rs): L^D sites wired
 to their neighbours under periodic or open boundary conditions, the
 total energy, and the Monte Carlo sweep.

 When the lattice is built, every site is cloned before any wiring takes
 place, and the neighbour handles point at those clones. A neighbour's
 spin is therefore the one it had at construction. The model keeps these
 spins as `snapshot`, and every local energy reads its neighbours from
 it. A flip or a sweep changes `sites` and never `snapshot`.
 */
module GeometryLattice {
  import opened Options
  import opened Ising
  import opened Utils
  import opened Sums
  import opened GeometrySite

  datatype Boundary = Periodic | Open

  /** The settings the lattice reads. The inverse temperature only enters through the ratio map of a sweep. */
  datatype Settings = Settings(boundary: Boundary, init: Initialisation)

  /** The sites, and the neighbour spins as they were when the neighbour handles were cloned. */
  datatype Lattice = Lattice(sites: seq<Site>, snapshot: seq<Spin>)

  /** Every occupied slot of every site names an entry of the snapshot. */
  predicate SlotsInRange(lat: Lattice)
  {
    forall k :: 0 <= k < |lat.sites| ==> Within(lat.sites[k], |lat.snapshot|)
  }

  /** Site i sits at position i. */
  predicate Indexed(lat: Lattice)
  {
    forall k :: 0 <= k < |lat.sites| ==> lat.sites[k].position == k
  }

  /** The shape a lattice of side L in D dimensions keeps for its whole life. */
  predicate WellFormed(lat: Lattice, L: nat, D: nat)
  {
    && |lat.sites| == Volume(L, D)
    && |lat.snapshot| == |lat.sites|
    && Indexed(lat)
    && SlotsInRange(lat)
    && (forall k :: 0 <= k < |lat.sites| ==> |lat.sites[k].next| == D && |lat.sites[k].previous| == D)
  }

  /** The forward slot that wiring gives site i in dimension d. */
  function NextSlot(b: Boundary, L: nat, D: nat, i: nat, d: nat): (r: Option<nat>)
    requires 0 < Volume(L, D) && d < D
    ensures r.Some? ==> r.value == NextPosition(L, D, i, d) && r.value < Volume(L, D)
    ensures r.None? <==> b == Open && NextPosition(L, D, i, d) < i
  {
    var j := NextPosition(L, D, i, d);
    match b
    case Periodic => Some(j)
    case Open => if j < i then None else Some(j)
  }

  /** The backward slot that wiring gives site i in dimension d. */
  function PreviousSlot(b: Boundary, L: nat, D: nat, i: nat, d: nat): (r: Option<nat>)
    requires 0 < Volume(L, D) && d < D
    ensures NoUnderflow(L, D, i, d)
    ensures r.Some? ==> r.value == PreviousPosition(L, D, i, d) && r.value < Volume(L, D)
    ensures r.None? <==> b == Open && PreviousPosition(L, D, i, d) > i
  {
    PositiveSide(L, D);
    PreviousNeverUnderflows(L, D, i, d);
    var j := PreviousPosition(L, D, i, d);
    match b
    case Periodic => Some(j)
    case Open => if j > i then None else Some(j)
  }

  /** Site s, at index i, carries exactly the slots the wiring gives it. */
  predicate SiteWired(s: Site, b: Boundary, L: nat, D: nat, i: nat)
  {
    && 0 < Volume(L, D)
    && |s.next| == D && |s.previous| == D
    && forall d :: 0 <= d < D ==> s.next[d] == NextSlot(b, L, D, i, d) && s.previous[d] == PreviousSlot(b, L, D, i, d)
  }

  predicate Wired(sites: seq<Site>, b: Boundary, L: nat, D: nat)
  {
    && |sites| == Volume(L, D)
    && forall i :: 0 <= i < |sites| ==> SiteWired(sites[i], b, L, D, i)
  }

  /** Under periodic conditions every slot is occupied, by the `next_position` / `previous_position` index. */
  lemma PeriodicSlots(L: nat, D: nat, i: nat, d: nat)
    requires 0 < Volume(L, D) && d < D
    ensures NoUnderflow(L, D, i, d)
    ensures NextSlot(Periodic, L, D, i, d) == Some(NextPosition(L, D, i, d))
    ensures PreviousSlot(Periodic, L, D, i, d) == Some(PreviousPosition(L, D, i, d))
  {
    PositiveSide(L, D);
    PreviousNeverUnderflows(L, D, i, d);
  }

  /**
   Under open conditions a link is cut exactly where the linear index
   wraps: forward when i + L^d passes the last site, backward when i is
   below L^d. Every other slot is wired as under periodic conditions.
   */
  lemma OpenCutsAtWrap(L: nat, D: nat, i: nat, d: nat)
    requires L >= 2 && d < D && i < Volume(L, D)
    ensures NextSlot(Open, L, D, i, d).None? <==> i + Pow(L, d) >= Volume(L, D)
    ensures PreviousSlot(Open, L, D, i, d).None? <==> i < Pow(L, d)
    ensures NextSlot(Open, L, D, i, d).Some? ==> NextSlot(Open, L, D, i, d) == NextSlot(Periodic, L, D, i, d)
    ensures PreviousSlot(Open, L, D, i, d).Some? ==> PreviousSlot(Open, L, D, i, d) == PreviousSlot(Periodic, L, D, i, d)
  {
    NextWrapsExactly(L, D, i, d);
    PreviousWrapsExactly(L, D, i, d);
  }

  /** The periodic wiring test values for a side of 4 in 3 dimensions. */
  lemma PeriodicWiringExamples()
    ensures NextSlot(Periodic, 4, 3, 0, 0) == Some(1)
    ensures NextSlot(Periodic, 4, 3, 63, 0) == Some(0)
  {
    NextPositionExamples();
  }

  /** The open wiring test values for a side of 4 in 3 dimensions. */
  lemma OpenWiringExamples()
    ensures NextSlot(Open, 4, 3, 0, 0) == Some(1)
    ensures NextSlot(Open, 4, 3, 63, 0) == None
    ensures PreviousSlot(Open, 4, 3, 0, 0) == None
  {
    assert Volume(4, 3) == 64;
    OpenCutsAtWrap(4, 3, 0, 0);
    OpenCutsAtWrap(4, 3, 63, 0);
    PeriodicWiringExamples();
  }

  /**
   `initalise_periodic_boundary_conditions`: for every site and dimension,
   set the forward slot to `next_position` and the backward slot to
   `previous_position`.
   */
  method InitialisePeriodic(sites: seq<Site>, L: nat, D: nat) returns (wired: seq<Site>)
    requires |sites| == Volume(L, D)
    requires forall k :: 0 <= k < |sites| ==> |sites[k].next| == D && |sites[k].previous| == D
    ensures Wired(wired, Periodic, L, D)
    ensures |wired| == |sites|
    ensures forall k :: 0 <= k < |sites| ==> wired[k].position == sites[k].position && wired[k].field == sites[k].field
  {
    wired := sites;
    var i := 0;
    while i < |wired|
      invariant 0 <= i <= |wired| == |sites|
      invariant forall k :: 0 <= k < |wired| ==>
        && wired[k].position == sites[k].position && wired[k].field == sites[k].field
        && |wired[k].next| == D && |wired[k].previous| == D
      invariant forall k :: 0 <= k < i ==> SiteWired(wired[k], Periodic, L, D, k)
    {
      var d := 0;
      while d < D
        invariant 0 <= d <= D
        invariant |wired| == |sites|
        invariant forall k :: 0 <= k < |wired| ==>
          && wired[k].position == sites[k].position && wired[k].field == sites[k].field
          && |wired[k].next| == D && |wired[k].previous| == D
        invariant forall k :: 0 <= k < i ==> SiteWired(wired[k], Periodic, L, D, k)
        invariant forall e :: 0 <= e < d ==>
          wired[i].next[e] == NextSlot(Periodic, L, D, i, e) && wired[i].previous[e] == PreviousSlot(Periodic, L, D, i, e)
      {
        PeriodicSlots(L, D, i, d);
        var nextPos := NextPosition(L, D, i, d);
        wired := wired[i := UpdateNext(wired[i], d, Some(nextPos))];
        var prevPos := PreviousPosition(L, D, i, d);
        wired := wired[i := UpdatePrevious(wired[i], d, Some(prevPos))];
        d := d + 1;
      }
      i := i + 1;
    }
  }

  /**
   `initalise_open_boundary_conditions`: as the periodic wiring, except that
   a forward slot whose index went backwards, or a backward slot whose index
   went forwards, is left empty.
   */
  method InitialiseOpen(sites: seq<Site>, L: nat, D: nat) returns (wired: seq<Site>)
    requires |sites| == Volume(L, D)
    requires forall k :: 0 <= k < |sites| ==> |sites[k].next| == D && |sites[k].previous| == D
    ensures Wired(wired, Open, L, D)
    ensures |wired| == |sites|
    ensures forall k :: 0 <= k < |sites| ==> wired[k].position == sites[k].position && wired[k].field == sites[k].field
  {
    wired := sites;
    var i := 0;
    while i < |wired|
      invariant 0 <= i <= |wired| == |sites|
      invariant forall k :: 0 <= k < |wired| ==>
        && wired[k].position == sites[k].position && wired[k].field == sites[k].field
        && |wired[k].next| == D && |wired[k].previous| == D
      invariant forall k :: 0 <= k < i ==> SiteWired(wired[k], Open, L, D, k)
    {
      var d := 0;
      while d < D
        invariant 0 <= d <= D
        invariant |wired| == |sites|
        invariant forall k :: 0 <= k < |wired| ==>
          && wired[k].position == sites[k].position && wired[k].field == sites[k].field
          && |wired[k].next| == D && |wired[k].previous| == D
        invariant forall k :: 0 <= k < i ==> SiteWired(wired[k], Open, L, D, k)
        invariant forall e :: 0 <= e < d ==>
          wired[i].next[e] == NextSlot(Open, L, D, i, e) && wired[i].previous[e] == PreviousSlot(Open, L, D, i, e)
      {
        PositiveSide(L, D);
        PreviousNeverUnderflows(L, D, i, d);
        var nextPos := NextPosition(L, D, i, d);
        if nextPos < i {
          wired := wired[i := UpdateNext(wired[i], d, None)];
        } else {
          wired := wired[i := UpdateNext(wired[i], d, Some(nextPos))];
        }
        var prevPos := PreviousPosition(L, D, i, d);
        if prevPos > i {
          wired := wired[i := UpdatePrevious(wired[i], d, None)];
        } else {
          wired := wired[i := UpdatePrevious(wired[i], d, Some(prevPos))];
        }
        d := d + 1;
      }
      i := i + 1;
    }
  }

  /** Wiring only ever names sites of the lattice. */
  lemma WiredInRange(sites: seq<Site>, b: Boundary, L: nat, D: nat, i: nat)
    requires Wired(sites, b, L, D) && i < |sites|
    ensures Within(sites[i], Volume(L, D))
  {
    var s := sites[i];
    forall k | 0 <= k < |s.next| && s.next[k].Some?
      ensures s.next[k].value < Volume(L, D)
    {
      assert s.next[k] == NextSlot(b, L, D, i, k);
    }
    forall k | 0 <= k < |s.previous| && s.previous[k].Some?
      ensures s.previous[k].value < Volume(L, D)
    {
      assert s.previous[k] == PreviousSlot(b, L, D, i, k);
    }
  }

  /**
   `Lattice::new`: L^D built sites, site i at position i with its spin from
   the initialisation policy (`draws[i]` is the random draw site i would
   use), the snapshot of those spins for the neighbour handles, and the
   wiring that the boundary conditions select.
   */
  method New(L: nat, D: nat, settings: Settings, draws: seq<real>) returns (lat: Lattice)
    requires |draws| == Volume(L, D)
    ensures WellFormed(lat, L, D)
    ensures Wired(lat.sites, settings.boundary, L, D)
    ensures forall i :: 0 <= i < |lat.sites| ==>
      lat.sites[i].field == NewField(settings.init, draws[i]) && lat.snapshot[i] == lat.sites[i].field
    ensures settings.init == Uniform ==> forall i :: 0 <= i < |lat.sites| ==> lat.sites[i].field == Up
    ensures settings.init == Uniform ==> forall i :: 0 <= i < |lat.snapshot| ==> lat.snapshot[i] == Up
  {
    var n := Volume(L, D);
    var built := seq(n, i requires 0 <= i < n => GeometrySite.New(i, settings.init, D, draws[i]));
    var snapshot := seq(n, i requires 0 <= i < n => built[i].field);
    var wired;
    match settings.boundary {
      case Periodic =>
        wired := InitialisePeriodic(built, L, D);
      case Open =>
        wired := InitialiseOpen(built, L, D);
    }
    forall i | 0 <= i < |wired|
      ensures Within(wired[i], n)
    {
      WiredInRange(wired, settings.boundary, L, D, i);
    }
    lat := Lattice(wired, snapshot);
  }

  /** `get`: the site stored at index i, which sits at position i. */
  function Get(lat: Lattice, i: nat): (s: Site)
    requires i < |lat.sites|
    ensures Indexed(lat) ==> s.position == i
    ensures s in lat.sites
  {
    lat.sites[i]
  }

  /** `get_mut(i).flip()`: flip site i and leave every other site and the snapshot alone. */
  function FlipAt(lat: Lattice, i: nat): (r: Lattice)
    requires i < |lat.sites|
    ensures r.snapshot == lat.snapshot && |r.sites| == |lat.sites|
    ensures r.sites[i].field != lat.sites[i].field
    ensures forall k :: 0 <= k < |lat.sites| && k != i ==> r.sites[k] == lat.sites[k]
    ensures forall k :: 0 <= k < |lat.sites| ==>
      r.sites[k].position == lat.sites[k].position && r.sites[k].next == lat.sites[k].next
      && r.sites[k].previous == lat.sites[k].previous
  {
    lat.(sites := lat.sites[i := Flip(lat.sites[i])])
  }

  /** Occupied slots summed over the given sites. */
  function TotalPresent(sites: seq<Site>): nat
  {
    if |sites| == 0 then 0 else TotalPresent(sites[..|sites| - 1]) + PresentSlots(sites[|sites| - 1])
  }

  /** Sum of the local energies of the given sites; each occupied slot adds +1 or -1. */
  function TotalLocalEnergy(sites: seq<Site>, view: seq<Spin>): (e: int)
    requires forall k :: 0 <= k < |sites| ==> Within(sites[k], |view|)
    ensures -(TotalPresent(sites) as int) <= e <= TotalPresent(sites)
  {
    if |sites| == 0 then 0
    else TotalLocalEnergy(sites[..|sites| - 1], view) + LocalEnergy(sites[|sites| - 1], view)
  }

  /** `get_energy`: the local energies count every bond from both ends, so their sum is halved. */
  function GetEnergy(lat: Lattice): (energy: real)
    requires SlotsInRange(lat)
    ensures -(TotalPresent(lat.sites) as real) <= 2.0 * energy <= TotalPresent(lat.sites) as real
  {
    TotalLocalEnergy(lat.sites, lat.snapshot) as real / 2.0
  }

  /** Replacing one site changes the sum of local energies by the change at that site alone. */
  lemma {:induction false} TotalAfterReplace(sites: seq<Site>, view: seq<Spin>, i: nat, s: Site)
    requires forall k :: 0 <= k < |sites| ==> Within(sites[k], |view|)
    requires i < |sites| && Within(s, |view|)
    ensures TotalLocalEnergy(sites[i := s], view)
      == TotalLocalEnergy(sites, view) - LocalEnergy(sites[i], view) + LocalEnergy(s, view)
  {
    var n := |sites|;
    var updated := sites[i := s];
    assert updated[..n - 1] == if i == n - 1 then sites[..n - 1] else sites[..n - 1][i := s];
    if i < n - 1 {
      TotalAfterReplace(sites[..n - 1], view, i, s);
    }
  }

  /**
   Flipping one site lowers the total energy by that site's local energy:
   its own local energy changes sign, and its neighbours read the
   snapshot, so nothing else moves.
   */
  lemma EnergyAfterFlip(lat: Lattice, i: nat)
    requires SlotsInRange(lat) && i < |lat.sites|
    ensures SlotsInRange(FlipAt(lat, i))
    ensures GetEnergy(FlipAt(lat, i)) == GetEnergy(lat) - LocalEnergy(lat.sites[i], lat.snapshot) as real
  {
    LocalEnergyFlip(lat.sites[i], lat.snapshot);
    TotalAfterReplace(lat.sites, lat.snapshot, i, Flip(lat.sites[i]));
  }

  /** Flipping a site twice restores the total energy. */
  lemma FlipTwiceRestoresEnergy(lat: Lattice, i: nat)
    requires SlotsInRange(lat) && i < |lat.sites|
    ensures SlotsInRange(FlipAt(FlipAt(lat, i), i))
    ensures GetEnergy(FlipAt(FlipAt(lat, i), i)) == GetEnergy(lat)
  {
    EnergyAfterFlip(lat, i);
    EnergyAfterFlip(FlipAt(lat, i), i);
    LocalEnergyFlip(lat.sites[i], lat.snapshot);
  }

  /**
   `montecarlo_sweep`, in sequence: one Metropolis trial per site, site i
   using `draws[i]`. Since neighbours read the snapshot, no trial sees
   another's outcome, so the order of the trials does not matter and the
   sequential loop stands for the parallel one.
   */
  method MonteCarloSweep(lat: Lattice, boltzmann: int -> real, draws: seq<real>) returns (swept: Lattice)
    requires SlotsInRange(lat) && |draws| == |lat.sites|
    ensures swept.snapshot == lat.snapshot && |swept.sites| == |lat.sites|
    ensures forall i :: 0 <= i < |lat.sites| ==>
      swept.sites[i] == MonteCarloSingleSite(lat.sites[i], lat.snapshot, boltzmann, draws[i]).site
    ensures forall i :: 0 <= i < |lat.sites| ==>
      && swept.sites[i].position == lat.sites[i].position
      && swept.sites[i].next == lat.sites[i].next
      && swept.sites[i].previous == lat.sites[i].previous
  {
    swept := lat;
    var i := 0;
    while i < |lat.sites|
      invariant 0 <= i <= |lat.sites|
      invariant swept.snapshot == lat.snapshot && |swept.sites| == |lat.sites|
      invariant forall k :: 0 <= k < i ==>
        swept.sites[k] == MonteCarloSingleSite(lat.sites[k], lat.snapshot, boltzmann, draws[k]).site
      invariant forall k :: i <= k < |lat.sites| ==> swept.sites[k] == lat.sites[k]
    {
      var trial := MonteCarloSingleSite(swept.sites[i], swept.snapshot, boltzmann, draws[i]);
      swept := swept.(sites := swept.sites[i := trial.site]);
      i := i + 1;
    }
  }

  /** A sweep keeps the lattice's shape: only spins change. */
  lemma SweepKeepsShape(lat: Lattice, swept: Lattice, L: nat, D: nat)
    requires WellFormed(lat, L, D)
    requires swept.snapshot == lat.snapshot && |swept.sites| == |lat.sites|
    requires forall i :: 0 <= i < |lat.sites| ==>
      && swept.sites[i].position == lat.sites[i].position
      && swept.sites[i].next == lat.sites[i].next
      && swept.sites[i].previous == lat.sites[i].previous
    ensures WellFormed(swept, L, D)
  {
    forall i | 0 <= i < |swept.sites|
      ensures Within(swept.sites[i], |swept.snapshot|)
    {
      assert Within(lat.sites[i], |lat.snapshot|);
    }
  }
}
