/**
 The two-valued Ising spin and its pairwise interaction (src/field/ising.rs).
 The interaction is +1 for equal spins and -1 for opposite ones, so all
 energies in this model are integers.
 */
module Ising {

  datatype Spin = Up | Down

  /** How a site's first spin is chosen. */
  datatype Initialisation = Random | Uniform

  /** The other spin value. */
  function Opposite(s: Spin): (r: Spin)
    ensures r != s
  {
    match s
    case Up => Down
    case Down => Up
  }

  lemma OppositeInvolution(s: Spin)
    ensures Opposite(Opposite(s)) == s
  {
  }

  /**
   `IsingField::new`. The uniform policy always starts Up; the random one
   compares a draw in [0, 1) from the random source with one half, and
   that draw is an input here.
   */
  function NewField(init: Initialisation, draw: real): (f: Spin)
    ensures init == Uniform ==> f == Up
    ensures init == Random ==> (f == Up <==> draw < 0.5)
  {
    match init
    case Random => if draw < 0.5 then Up else Down
    case Uniform => Up
  }

  /** Both spin values are reachable under the random policy, from draws in [0, 1). */
  lemma RandomReachesBoth()
    ensures exists u: real :: 0.0 <= u < 1.0 && NewField(Random, u) == Up
    ensures exists u: real :: 0.0 <= u < 1.0 && NewField(Random, u) == Down
  {
    assert NewField(Random, 0.0) == Up;
    assert NewField(Random, 0.5) == Down;
  }

  /** `Field::interaction` for the Ising field: a table over the four pairs. */
  function Interaction(a: Spin, b: Spin): (r: int)
    ensures r == 1 || r == -1
    ensures r == 1 <==> a == b
  {
    match a
    case Up => (match b case Up => 1 case Down => -1)
    case Down => (match b case Up => -1 case Down => 1)
  }

  lemma InteractionSymmetric(a: Spin, b: Spin)
    ensures Interaction(a, b) == Interaction(b, a)
  {
  }

  /** Reversing either spin reverses the sign of the interaction. */
  lemma InteractionOpposite(a: Spin, b: Spin)
    ensures Interaction(Opposite(a), b) == -Interaction(a, b)
    ensures Interaction(a, Opposite(b)) == -Interaction(a, b)
  {
  }
}
