/**
 The earlier revision of the lattice (src/lattice/lattice.rs): L^D fresh
 sites and no wiring at all.
 */
module EarlyLattice {
  import opened Options
  import opened Ising
  import opened Utils
  import EarlySite

  datatype Lattice = Lattice(sites: seq<EarlySite.Site>)

  /**
   `Lattice::new`: site i is a fresh site at position i; `draws[i]` is the
   draw it would use under the random policy.
   */
  function New(L: nat, D: nat, init: Initialisation, draws: seq<real>): (lat: Lattice)
    requires |draws| == Volume(L, D)
    ensures |lat.sites| == Volume(L, D)
    ensures forall i :: 0 <= i < |lat.sites| ==>
      && lat.sites[i].position == i
      && lat.sites[i].field == NewField(init, draws[i])
      && |lat.sites[i].next| == D && |lat.sites[i].previous| == D
    ensures init == Uniform ==> forall i :: 0 <= i < |lat.sites| ==> lat.sites[i].field == Up
    ensures forall i, d :: 0 <= i < |lat.sites| && 0 <= d < D ==>
      lat.sites[i].next[d] == None && lat.sites[i].previous[d] == None
  {
    var n := Volume(L, D);
    Lattice(seq(n, i requires 0 <= i < n => EarlySite.New(i, init, D, draws[i])))
  }

  /** No two sites of a freshly built lattice are equal, since their positions differ. */
  lemma SitesDistinct(L: nat, D: nat, init: Initialisation, draws: seq<real>, i: nat, j: nat)
    requires |draws| == Volume(L, D)
    requires i < Volume(L, D) && j < Volume(L, D)
    ensures EarlySite.Eq(New(L, D, init, draws).sites[i], New(L, D, init, draws).sites[j]) <==> i == j
  {
  }
}
