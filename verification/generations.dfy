/**
 * The generation table and the species-id draw of each round. The random
 * number generator is not modelled: each draw receives an arbitrary
 * `entropy` value and maps it into the range the program asks `gen_range` for.
 */
module Generations {
  import opened Base

  /** Cumulative national-Pokédex id of the last species of generations 1 to 9. */
  const PokemonInGeneration: seq<nat> := [151, 251, 386, 493, 649, 721, 809, 905, 1008]

  /** Generations are numbered from 1; the table has one boundary per generation. */
  predicate IsGeneration(generation: int) {
    1 <= generation <= |PokemonInGeneration|
  }

  /** The boundary of `generation`, the table read at index `generation - 1`. */
  function Boundary(generation: int): (b: nat)
    requires IsGeneration(generation)
    ensures 151 <= b <= 1008
    ensures forall k :: 0 <= k < generation - 1 ==> PokemonInGeneration[k] < b
  {
    PokemonInGeneration[generation - 1]
  }

  /** The boundary table is strictly increasing. */
  lemma BoundariesStrictlyIncrease()
    ensures forall i, j :: 0 <= i < j < |PokemonInGeneration| ==> PokemonInGeneration[i] < PokemonInGeneration[j]
  {
  }

  /** The ids the draw for `generation` can produce: the half-open range from 1 to the boundary. */
  predicate Drawable(generation: int, id: int) {
    IsGeneration(generation) && 1 <= id < Boundary(generation)
  }

  /**
   * `gen_range(1..POKEMON_IN_GENERATION[generation - 1])`, fed with `entropy`.
   * A generation of 0 underflows the index and one above 9 is out of bounds;
   * both panic in the program and give `None` here.
   */
  function DrawId(generation: int, entropy: nat): (r: Option<nat>)
    ensures r.Some? <==> IsGeneration(generation)
    ensures r.Some? ==> Drawable(generation, r.value)
    ensures r.Some? ==> r.value != Boundary(generation)
  {
    if IsGeneration(generation) then Some(1 + entropy % (Boundary(generation) - 1)) else None
  }

  /** Every drawable id is the outcome of some draw, so `Drawable` is exactly the set of outcomes. */
  lemma DrawIdReachesEveryDrawable(generation: int, id: int)
    requires Drawable(generation, id)
    ensures DrawId(generation, id - 1) == Some(id)
  {
    SmallRemainder(id - 1, Boundary(generation) - 1);
  }

  /** A remainder of a number already below the divisor is that number. */
  lemma SmallRemainder(a: nat, m: nat)
    requires a < m
    ensures a % m == a
  {
    assert a == m * 0 + a;
  }

  /**
   * The draw starts at 1 for every generation, so every id drawable for an
   * earlier generation is drawable for a later one: the draws overlap.
   */
  lemma DrawsOfEarlierGenerationsOverlap(earlier: int, later: int, id: int)
    requires IsGeneration(later) && earlier <= later
    requires Drawable(earlier, id)
    ensures Drawable(later, id)
  {
    BoundariesStrictlyIncrease();
  }

  /** The id range a generation owns: above the previous boundary, up to and including its own. */
  predicate InGeneration(generation: int, id: int) {
    && IsGeneration(generation)
    && (if generation == 1 then 0 else Boundary(generation - 1)) < id <= Boundary(generation)
  }

  /** Every id from 1 to the last boundary belongs to exactly one generation. */
  lemma {:induction false} GenerationsPartitionIds(id: int)
    requires 1 <= id <= Boundary(|PokemonInGeneration|)
    ensures exists g :: InGeneration(g, id)
    ensures forall g, h :: InGeneration(g, id) && InGeneration(h, id) ==> g == h
  {
    BoundariesStrictlyIncrease();
    var g := 1;
    while Boundary(g) < id
      invariant IsGeneration(g)
      invariant g == 1 || Boundary(g - 1) < id
      decreases |PokemonInGeneration| - g
    {
      g := g + 1;
    }
    assert InGeneration(g, id);
  }

  /**
   * The draw for `generation` reaches the ids of that generation and of all
   * earlier ones, except the generation's own last id.
   */
  lemma {:induction false} DrawableVersusOwnedIds(generation: int, id: int)
    requires IsGeneration(generation)
    ensures Drawable(generation, id) <==>
              (exists g :: 1 <= g <= generation && InGeneration(g, id)) && id != Boundary(generation)
  {
    BoundariesStrictlyIncrease();
    if Drawable(generation, id) {
      GenerationsPartitionIds(id);
      var g :| InGeneration(g, id);
    }
  }
}
