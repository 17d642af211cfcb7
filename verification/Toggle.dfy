/** A switch that follows a wish: it is operated only when the wish differs from how it
    stands. Both the space heater and the GPU miner's suspend and resume work this way. */
module Toggle {
  import opened Text

  /** How the switch stands after following the wishes; it starts off. */
  function Level(wishes: seq<Option<bool>>): bool {
    if wishes == [] then false
    else if wishes[|wishes| - 1].Some? then wishes[|wishes| - 1].value
    else Level(wishes[..|wishes| - 1])
  }

  /** The operations it takes: true for on, false for off. */
  function Edges(wishes: seq<Option<bool>>): seq<bool> {
    if wishes == [] then []
    else
      var n := |wishes| - 1;
      Edges(wishes[..n]) + if wishes[n].Some? && wishes[n].value != Level(wishes[..n]) then [wishes[n].value] else []
  }

  predicate Alternating(calls: seq<bool>) {
    forall k :: 0 <= k < |calls| ==> calls[k] == (k % 2 == 0)
  }

  /** The operations alternate on, off, on, off, and their number tells how the switch stands. */
  lemma {:induction false} EdgesAlternate(wishes: seq<Option<bool>>)
    ensures Alternating(Edges(wishes)) && Level(wishes) == (|Edges(wishes)| % 2 == 1)
  {
    if wishes != [] {
      EdgesAlternate(wishes[..|wishes| - 1]);
    }
  }

  /** One more wish. */
  lemma OneMore(wishes: seq<Option<bool>>, w: Option<bool>)
    ensures Level(wishes + [w]) == if w.Some? then w.value else Level(wishes)
    ensures Edges(wishes + [w]) == Edges(wishes) + if w.Some? && w.value != Level(wishes) then [w.value] else []
  {
    assert (wishes + [w])[..|wishes|] == wishes;
  }
}
