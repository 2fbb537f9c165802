/**
 One lattice site (src/geometry/site.rs): its linear position, its spin,
 and for every dimension an optional forward (`next`) and backward
 (`previous`) neighbour. A neighbour is held as the index of a site whose
 spin is read from a `view` sequence supplied by the lattice; see the
 GeometryLattice module for which spins that view holds.
 */
module GeometrySite {
  import opened Options
  import opened Ising

  /** One optional neighbour index per dimension. */
  type Slots = seq<Option<nat>>

  datatype Site = Site(position: nat, field: Spin, next: Slots, previous: Slots)

  /** Number of occupied slots. */
  function Present(slots: Slots): (n: nat)
    ensures n <= |slots|
  {
    if |slots| == 0 then 0
    else Present(slots[..|slots| - 1]) + (if slots[|slots| - 1].Some? then 1 else 0)
  }

  function PresentSlots(s: Site): nat
  {
    Present(s.next) + Present(s.previous)
  }

  /** Every occupied slot names one of the first n sites. */
  predicate SlotsWithin(slots: Slots, n: nat)
  {
    forall k :: 0 <= k < |slots| && slots[k].Some? ==> slots[k].value < n
  }

  predicate Within(s: Site, n: nat)
  {
    SlotsWithin(s.next, n) && SlotsWithin(s.previous, n)
  }

  function EmptySlots(D: nat): (slots: Slots)
    ensures |slots| == D && Present(slots) == 0
    ensures forall d :: 0 <= d < D ==> slots[d] == None
  {
    if D == 0 then [] else EmptySlots(D - 1) + [None]
  }

  /**
   `Site::new`: a site at the given position whose spin follows the
   initialisation policy (the draw is only consulted by the random one),
   with every neighbour slot empty.
   */
  function New(position: nat, init: Initialisation, D: nat, draw: real): (s: Site)
    ensures s.position == position
    ensures s.field == NewField(init, draw)
    ensures |s.next| == D && |s.previous| == D
    ensures forall d :: 0 <= d < D ==> s.next[d] == None && s.previous[d] == None
    ensures PresentSlots(s) == 0
  {
    Site(position, NewField(init, draw), EmptySlots(D), EmptySlots(D))
  }

  /** `update_next`: overwrite forward slot d and nothing else. */
  function UpdateNext(s: Site, d: nat, neighbour: Option<nat>): (r: Site)
    requires d < |s.next|
    ensures |r.next| == |s.next| && r.next[d] == neighbour
    ensures forall k :: 0 <= k < |s.next| && k != d ==> r.next[k] == s.next[k]
    ensures r.position == s.position && r.field == s.field && r.previous == s.previous
  {
    s.(next := s.next[d := neighbour])
  }

  /** `update_previous`: overwrite backward slot d and nothing else. */
  function UpdatePrevious(s: Site, d: nat, neighbour: Option<nat>): (r: Site)
    requires d < |s.previous|
    ensures |r.previous| == |s.previous| && r.previous[d] == neighbour
    ensures forall k :: 0 <= k < |s.previous| && k != d ==> r.previous[k] == s.previous[k]
    ensures r.position == s.position && r.field == s.field && r.next == s.next
  {
    s.(previous := s.previous[d := neighbour])
  }

  /** `flip`: the spin changes to the other value; position and neighbours stay. */
  function Flip(s: Site): (r: Site)
    ensures r.field != s.field
    ensures r.position == s.position && r.next == s.next && r.previous == s.previous
  {
    s.(field := Opposite(s.field))
  }

  lemma FlipInvolution(s: Site)
    ensures Flip(Flip(s)) == s
  {
    OppositeInvolution(s.field);
  }

  /**
   Sum of the interactions of spin f with the spins of the occupied slots;
   an empty slot contributes nothing.
   */
  function SlotEnergy(f: Spin, slots: Slots, view: seq<Spin>): (e: int)
    requires SlotsWithin(slots, |view|)
    ensures -(Present(slots) as int) <= e <= Present(slots)
  {
    if |slots| == 0 then 0
    else
      SlotEnergy(f, slots[..|slots| - 1], view)
      + match slots[|slots| - 1]
        case None => 0
        case Some(j) => Interaction(f, view[j])
  }

  /**
   `local_energy`: the site's interactions with its forward and its backward
   neighbours. Its magnitude is at most the number of occupied slots.
   */
  function LocalEnergy(s: Site, view: seq<Spin>): (e: int)
    requires Within(s, |view|)
    ensures -(PresentSlots(s) as int) <= e <= PresentSlots(s)
  {
    SlotEnergy(s.field, s.next, view) + SlotEnergy(s.field, s.previous, view)
  }

  lemma {:induction false} SlotEnergyOpposite(f: Spin, slots: Slots, view: seq<Spin>)
    requires SlotsWithin(slots, |view|)
    ensures SlotEnergy(Opposite(f), slots, view) == -SlotEnergy(f, slots, view)
  {
    if |slots| > 0 {
      SlotEnergyOpposite(f, slots[..|slots| - 1], view);
    }
  }

  /** Flipping a site negates its local energy (the neighbours' spins are not touched). */
  lemma LocalEnergyFlip(s: Site, view: seq<Spin>)
    requires Within(s, |view|)
    ensures LocalEnergy(Flip(s), view) == -LocalEnergy(s, view)
  {
    SlotEnergyOpposite(s.field, s.next, view);
    SlotEnergyOpposite(s.field, s.previous, view);
  }

  /** A site without neighbours, such as a freshly built one, has energy zero. */
  lemma LocalEnergyOfNew(position: nat, init: Initialisation, D: nat, draw: real, view: seq<Spin>)
    ensures Within(New(position, init, D, draw), |view|)
    ensures LocalEnergy(New(position, init, D, draw), view) == 0
  {
  }

  /** When every neighbour shares the site's spin, each occupied slot contributes +1. */
  lemma {:induction false} SlotEnergyAligned(f: Spin, slots: Slots, view: seq<Spin>)
    requires SlotsWithin(slots, |view|)
    requires forall k :: 0 <= k < |slots| && slots[k].Some? ==> view[slots[k].value] == f
    ensures SlotEnergy(f, slots, view) == Present(slots)
  {
    if |slots| > 0 {
      SlotEnergyAligned(f, slots[..|slots| - 1], view);
    }
  }

  lemma LocalEnergyAligned(s: Site, view: seq<Spin>)
    requires Within(s, |view|)
    requires forall k :: 0 <= k < |s.next| && s.next[k].Some? ==> view[s.next[k].value] == s.field
    requires forall k :: 0 <= k < |s.previous| && s.previous[k].Some? ==> view[s.previous[k].value] == s.field
    ensures LocalEnergy(s, view) == PresentSlots(s)
  {
    SlotEnergyAligned(s.field, s.next, view);
    SlotEnergyAligned(s.field, s.previous, view);
  }

  /** Outcome of one Metropolis trial: the site afterwards, and whether the flip was kept. */
  datatype Trial = Trial(site: Site, accepted: bool)

  /**
   `montecarlo_single_site`. The site is flipped speculatively and the
   energy ratio exp(-beta * (e1 - e0)) is computed; `boltzmann` stands for
   the map from the energy change to that ratio, and `u` for the draw in
   [0, 1] taken from the random source. A ratio above one accepts at once;
   otherwise the flip is kept when u is below the ratio and undone when not.

   Since the flip negates the local energy, the energy change is always
   -2 * e0.
   */
  function MonteCarloSingleSite(s: Site, view: seq<Spin>, boltzmann: int -> real, u: real): (t: Trial)
    requires Within(s, |view|)
    ensures t.site.position == s.position && t.site.next == s.next && t.site.previous == s.previous
    ensures t.accepted <==> t.site.field != s.field
    ensures !t.accepted <==> t.site == s
    ensures t.accepted <==>
      var ratio := boltzmann(-2 * LocalEnergy(s, view));
      ratio > 1.0 || u < ratio
  {
    var e0 := LocalEnergy(s, view);
    var flipped := Flip(s);
    var e1 := LocalEnergy(flipped, view);
    var ratio := boltzmann(e1 - e0);
    LocalEnergyFlip(s, view);
    if ratio > 1.0 then
      Trial(flipped, true)
    else if u < ratio then
      Trial(flipped, true)
    else
      FlipInvolution(s);
      Trial(Flip(flipped), false)
  }

  /** A ratio above one decides the trial without looking at the draw. */
  lemma FavourableTrialIgnoresDraw(s: Site, view: seq<Spin>, boltzmann: int -> real, u1: real, u2: real)
    requires Within(s, |view|)
    requires boltzmann(-2 * LocalEnergy(s, view)) > 1.0
    ensures MonteCarloSingleSite(s, view, boltzmann, u1) == MonteCarloSingleSite(s, view, boltzmann, u2)
    ensures MonteCarloSingleSite(s, view, boltzmann, u1).accepted
  {
  }

  /** The ratio map behaves like exp(-beta * delta) for beta > 0: any energy decrease gives a ratio above one. */
  ghost predicate FavoursDecrease(boltzmann: int -> real)
  {
    forall delta: int :: delta < 0 ==> boltzmann(delta) > 1.0
  }

  /** A flip that lowers the local energy is always accepted, whatever the draw. */
  lemma DownhillAlwaysAccepted(s: Site, view: seq<Spin>, boltzmann: int -> real, u: real)
    requires Within(s, |view|) && FavoursDecrease(boltzmann)
    requires LocalEnergy(Flip(s), view) < LocalEnergy(s, view)
    ensures MonteCarloSingleSite(s, view, boltzmann, u).accepted
  {
    LocalEnergyFlip(s, view);
  }
}
