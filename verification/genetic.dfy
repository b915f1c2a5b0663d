/** The mutation rule of `GeneticAlgorithm`, with its random draws passed in. */
module Genetic {

  import Levels

  /** An individual: the window and bias genes. Blend crossover makes them
      reals, so they are kept as reals. */
  datatype Individual = Individual(window: real, bias: real)

  /** `mutate`: with `coin = random.random()` below 0.5, the window gene becomes
      `int(abs(window + offset))` for `offset = random.randint(-5, 5)`;
      otherwise the bias gene is replaced by `draw = random.choice(biases)`. */
  function Mutate(ind: Individual, coin: real, offset: int, draw: real, biases: seq<real>): (r: Individual)
    requires 0.0 <= coin < 1.0 && -5 <= offset <= 5 && draw in biases
    ensures coin < 0.5 ==> r.bias == ind.bias
    ensures coin < 0.5 ==> 0.0 <= r.window && r.window == r.window.Floor as real
    ensures coin < 0.5 ==> Levels.Abs(ind.window) - 6.0 < r.window <= Levels.Abs(ind.window) + 5.0
    ensures coin >= 0.5 ==> r.window == ind.window && r.bias in biases
  {
    if coin < 0.5 then ind.(window := Levels.Abs(ind.window + offset as real).Floor as real)
    else ind.(bias := draw)
  }

  /** The genes an individual drawn from the grid has: a whole, non-negative
      window and a bias from the bias list. */
  predicate InRange(ind: Individual, biases: seq<real>) {
    0.0 <= ind.window && ind.window == ind.window.Floor as real && ind.bias in biases
  }

  /** Mutation keeps an individual's genes in range. */
  lemma MutateKeepsInRange(ind: Individual, coin: real, offset: int, draw: real, biases: seq<real>)
    requires InRange(ind, biases)
    requires 0.0 <= coin < 1.0 && -5 <= offset <= 5 && draw in biases
    ensures InRange(Mutate(ind, coin, offset, draw, biases), biases)
  {
  }
}
