/**
 How many neighbour slots a wired lattice occupies, and from that the
 energy of a lattice whose spins are all Up (the energy test of
 src/geometry/lattice_geometry/lattice.rs).

 Under periodic conditions all 2 * D slots of every site are occupied.
 Under open conditions, for a side of at least two, dimension d loses
 L^d forward links and L^d backward links, one for each site whose step
 along d wraps the linear index.
 */
module LatticeContacts {
  import opened Ising
  import opened Utils
  import opened Sums
  import opened GeometrySite
  import opened GeometryLattice

  /** 1 when wiring occupies the forward slot of site i in dimension d, else 0. */
  function NextCount(b: Boundary, L: nat, D: nat, i: nat, d: nat): int
  {
    if 0 < Volume(L, D) && d < D && NextSlot(b, L, D, i, d).Some? then 1 else 0
  }

  /** 1 when wiring occupies the backward slot of site i in dimension d, else 0. */
  function PreviousCount(b: Boundary, L: nat, D: nat, i: nat, d: nat): int
  {
    if 0 < Volume(L, D) && d < D && PreviousSlot(b, L, D, i, d).Some? then 1 else 0
  }

  /** Occupied slots of site i in dimension d, both directions. */
  function Contacts(b: Boundary, L: nat, D: nat): (nat, nat) -> int
  {
    (i: nat, d: nat) => NextCount(b, L, D, i, d) + PreviousCount(b, L, D, i, d)
  }

  /** 1 + L + ... + L^(m-1). */
  function GeomSum(L: nat, m: nat): nat
  {
    if m == 0 then 0 else GeomSum(L, m - 1) + Pow(L, m - 1)
  }

  lemma {:induction false} PresentAsSum(slots: Slots, f: nat -> int)
    requires forall k :: 0 <= k < |slots| ==> f(k) == (if slots[k].Some? then 1 else 0)
    ensures Present(slots) == Sum(f, |slots|)
  {
    if |slots| > 0 {
      PresentAsSum(slots[..|slots| - 1], f);
    }
  }

  lemma SitePresentAsRow(s: Site, b: Boundary, L: nat, D: nat, i: nat)
    requires SiteWired(s, b, L, D, i)
    ensures PresentSlots(s) == Sum(Row(Contacts(b, L, D), i), D)
  {
    var f := (d: nat) => NextCount(b, L, D, i, d);
    var g := (d: nat) => PreviousCount(b, L, D, i, d);
    PresentAsSum(s.next, f);
    PresentAsSum(s.previous, g);
    SumAdd(f, g, Row(Contacts(b, L, D), i), D);
  }

  lemma {:induction false} TotalPresentAsRowSums(sites: seq<Site>, b: Boundary, L: nat, D: nat)
    requires forall i :: 0 <= i < |sites| ==> SiteWired(sites[i], b, L, D, i)
    ensures TotalPresent(sites) == RowSums(Contacts(b, L, D), |sites|, D)
  {
    if |sites| > 0 {
      TotalPresentAsRowSums(sites[..|sites| - 1], b, L, D);
      SitePresentAsRow(sites[|sites| - 1], b, L, D, |sites| - 1);
    }
  }

  /** Under periodic conditions each site occupies both slots of every dimension. */
  lemma PeriodicColumn(L: nat, D: nat, d: nat)
    requires 0 < Volume(L, D) && d < D
    ensures Sum(Column(Contacts(Periodic, L, D), d), Volume(L, D)) == 2 * Volume(L, D)
  {
    var n := Volume(L, D);
    forall i | 0 <= i < n
      ensures Column(Contacts(Periodic, L, D), d)(i) == 2
    {
      PeriodicSlots(L, D, i, d);
    }
    SumConstant(Column(Contacts(Periodic, L, D), d), 2, n);
  }

  /** Under open conditions dimension d loses L^d slots in each direction. */
  lemma OpenColumn(L: nat, D: nat, d: nat)
    requires L >= 2 && d < D
    ensures Sum(Column(Contacts(Open, L, D), d), Volume(L, D)) == 2 * Volume(L, D) - 2 * Pow(L, d)
  {
    var n := Volume(L, D);
    var a := Pow(L, d);
    PowStrict(L, d, D);
    var f := (i: nat) => NextCount(Open, L, D, i, d);
    var g := (i: nat) => PreviousCount(Open, L, D, i, d);
    forall i | 0 <= i < n
      ensures f(i) == (if i < n - a then 1 else 0)
      ensures g(i) == (if i < a then 0 else 1)
    {
      OpenCutsAtWrap(L, D, i, d);
    }
    CountBelow(f, n - a, n);
    CountFrom(g, a, n);
    SumAdd(f, g, Column(Contacts(Open, L, D), d), n);
  }

  lemma MultiplyStep(m: nat, n: nat)
    requires m > 0
    ensures m * n == (m - 1) * n + n
  {
  }

  lemma {:induction false} ColumnTotals(b: Boundary, L: nat, D: nat, m: nat)
    requires m <= D && 0 < Volume(L, D) && (b == Open ==> L >= 2)
    ensures ColumnSums(Contacts(b, L, D), Volume(L, D), m)
      == 2 * (m * Volume(L, D)) - (if b == Open then 2 * GeomSum(L, m) else 0)
  {
    if m > 0 {
      var n := Volume(L, D);
      var h := Contacts(b, L, D);
      ColumnTotals(b, L, D, m - 1);
      if b == Periodic {
        PeriodicColumn(L, D, m - 1);
      } else {
        OpenColumn(L, D, m - 1);
      }
      assert ColumnSums(h, n, m) == ColumnSums(h, n, m - 1) + Sum(Column(h, m - 1), n);
      MultiplyStep(m, n);
    }
  }

  /**
   The occupied slots of a wired lattice: 2 * D * L^D under periodic
   conditions, and 2 * (1 + L + ... + L^(D-1)) fewer under open ones.
   */
  lemma ContactCount(sites: seq<Site>, b: Boundary, L: nat, D: nat)
    requires Wired(sites, b, L, D) && (b == Open ==> L >= 2)
    ensures TotalPresent(sites) == 2 * (D * Volume(L, D)) - (if b == Open then 2 * GeomSum(L, D) else 0)
  {
    TotalPresentAsRowSums(sites, b, L, D);
    SwapSums(Contacts(b, L, D), |sites|, D);
    if 0 < Volume(L, D) {
      ColumnTotals(b, L, D, D);
    } else {
      ColumnsOfNoRows(Contacts(b, L, D), D);
    }
  }

  /** With every spin Up, the local energies add up to the number of occupied slots. */
  lemma {:induction false} AlignedTotal(sites: seq<Site>, view: seq<Spin>)
    requires forall k :: 0 <= k < |sites| ==> Within(sites[k], |view|) && sites[k].field == Up
    requires forall j :: 0 <= j < |view| ==> view[j] == Up
    ensures TotalLocalEnergy(sites, view) == TotalPresent(sites)
  {
    if |sites| > 0 {
      AlignedTotal(sites[..|sites| - 1], view);
      LocalEnergyAligned(sites[|sites| - 1], view);
    }
  }

  /**
   A wired lattice whose spins and snapshot are all Up: the local energies
   sum to the number of occupied slots, and the energy is half that.
   */
  lemma UniformEnergy(lat: Lattice, b: Boundary, L: nat, D: nat)
    requires SlotsInRange(lat) && Wired(lat.sites, b, L, D) && (b == Open ==> L >= 2)
    requires forall k :: 0 <= k < |lat.sites| ==> lat.sites[k].field == Up
    requires forall j :: 0 <= j < |lat.snapshot| ==> lat.snapshot[j] == Up
    ensures TotalLocalEnergy(lat.sites, lat.snapshot)
      == 2 * (D * Volume(L, D)) - (if b == Open then 2 * GeomSum(L, D) else 0)
    ensures GetEnergy(lat) == (D * Volume(L, D) - (if b == Open then GeomSum(L, D) else 0)) as real
  {
    AlignedTotal(lat.sites, lat.snapshot);
    ContactCount(lat.sites, b, L, D);
    var half := D * Volume(L, D) - (if b == Open then GeomSum(L, D) else 0);
    assert TotalLocalEnergy(lat.sites, lat.snapshot) == 2 * half;
  }

  /** The shape of the unit tests: a side of 4 in 3 dimensions. */
  lemma TestShape()
    ensures Volume(4, 3) == 64 && GeomSum(4, 3) == 21
    ensures 2 * (3 * Volume(4, 3)) == 384 && 2 * (3 * Volume(4, 3)) - 2 * GeomSum(4, 3) == 342
  {
    assert Pow(4, 2) == 16;
  }

  /**
   The energy test for a side of 4 in 3 dimensions, periodic and all Up:
   the local energies sum to 2 * 3 * 64 = 384.
   */
  method PeriodicUniformLocalEnergySum() returns (total: int)
    ensures total == 384
  {
    TestShape();
    var lat := GeometryLattice.New(4, 3, Settings(Periodic, Uniform), seq(64, _ => 0.0));
    UniformEnergy(lat, Periodic, 4, 3);
    total := TotalLocalEnergy(lat.sites, lat.snapshot);
  }

  /**
   The same with open conditions: 384 - 2 * (1 + 4 + 16) = 342 occupied
   slots, so the local energies sum to 342.
   */
  method OpenUniformLocalEnergySum() returns (total: int)
    ensures total == 342
  {
    TestShape();
    var lat := GeometryLattice.New(4, 3, Settings(Open, Uniform), seq(64, _ => 0.0));
    UniformEnergy(lat, Open, 4, 3);
    total := TotalLocalEnergy(lat.sites, lat.snapshot);
  }
}
