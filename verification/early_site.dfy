/**
 The earlier revision of the site (src/lattice/site.rs). Here a neighbour
 handle is a shared pointer to a whole site, so the datatype is recursive,
 and equality compares the sites behind two handles with the same
 equality again.
 */
module EarlySite {
  import opened Options
  import opened Ising

  datatype Site = Site(position: nat, field: Spin, next: seq<Option<Site>>, previous: seq<Option<Site>>)

  /** `Site::new`: the given position, a spin from the policy, and D empty slots each way. */
  function New(position: nat, init: Initialisation, D: nat, draw: real): (s: Site)
    ensures s.position == position
    ensures s.field == NewField(init, draw)
    ensures |s.next| == D && |s.previous| == D
    ensures forall d :: 0 <= d < D ==> s.next[d] == None && s.previous[d] == None
  {
    Site(position, NewField(init, draw), seq(D, _ => None), seq(D, _ => None))
  }

  /**
   `PartialEq for Site`: equal positions, equal spins, and slot-by-slot
   equal forward and backward handle arrays. Comparing the sites behind
   the handles with the same equality makes it coincide with structural
   equality at every depth.
   */
  predicate Eq(a: Site, b: Site)
    ensures Eq(a, b) <==> a == b
    decreases a
  {
    && a.position == b.position
    && a.field == b.field
    && |a.next| == |b.next|
    && |a.previous| == |b.previous|
    && (forall k :: 0 <= k < |a.next| ==>
          (a.next[k].None? && b.next[k].None?)
          || (a.next[k].Some? && b.next[k].Some? && Eq(a.next[k].value, b.next[k].value)))
    && (forall k :: 0 <= k < |a.previous| ==>
          (a.previous[k].None? && b.previous[k].None?)
          || (a.previous[k].Some? && b.previous[k].Some? && Eq(a.previous[k].value, b.previous[k].value)))
  }

  /** Two fresh sites are equal exactly when their positions and their first spins agree. */
  lemma NewSitesEq(p1: nat, p2: nat, init: Initialisation, D: nat, u1: real, u2: real)
    ensures Eq(New(p1, init, D, u1), New(p2, init, D, u2))
      <==> p1 == p2 && NewField(init, u1) == NewField(init, u2)
  {
  }

  /** Under the uniform policy, two fresh sites are equal exactly when their positions are. */
  lemma UniformSitesEq(p1: nat, p2: nat, D: nat, u1: real, u2: real)
    ensures Eq(New(p1, Uniform, D, u1), New(p2, Uniform, D, u2)) <==> p1 == p2
  {
    NewSitesEq(p1, p2, Uniform, D, u1, u2);
  }
}
