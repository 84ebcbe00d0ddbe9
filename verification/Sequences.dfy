/** Facts about sequences that the solver does not see by itself. */
module Sequences {

  lemma TakeOneMore<T>(items: seq<T>, n: nat)
    requires n < |items|
    ensures items[..n] + [items[n]] == items[..n + 1]
  {
  }
}
