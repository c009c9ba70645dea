/** Merging the run items of an interrupted run with those of its resumption
    (adapters/openai_hitl_approval.py:557-582). An item is known by its signature. */
module RunItems {

  function Signatures<T, S>(sig: T -> S, items: seq<T>): seq<S> {
    seq(|items|, i requires 0 <= i < |items| => sig(items[i]))
  }

  /** The resumed items repeat the first run and may go on. */
  predicate Cumulative<T, S(==)>(sig: T -> S, first: seq<T>, resumed: seq<T>) {
    |resumed| >= |first| && forall i | 0 <= i < |first| :: sig(first[i]) == sig(resumed[i])
  }

  /** _merge_run_items */
  function Merge<T, S(==)>(sig: T -> S, first: seq<T>, resumed: seq<T>): seq<T> {
    if Cumulative(sig, first, resumed) then resumed else first + resumed
  }

  /** The merged history begins like the first run and ends with all the resumed items. */
  lemma MergeKeepsBoth<T, S>(sig: T -> S, first: seq<T>, resumed: seq<T>)
    ensures var merged := Merge(sig, first, resumed);
            && Signatures(sig, first) <= Signatures(sig, merged)
            && |merged| >= |resumed| && merged[|merged| - |resumed|..] == resumed
  {
  }

  /** A resumption that returns the whole history is taken as it is. */
  lemma MergeOfCumulative<T, S>(sig: T -> S, first: seq<T>, again: seq<T>, delta: seq<T>)
    requires Signatures(sig, again) == Signatures(sig, first)
    ensures Merge(sig, first, again + delta) == again + delta
  {
    assert |again| == |Signatures(sig, again)| == |first|;
    forall i | 0 <= i < |first| ensures sig(first[i]) == sig((again + delta)[i]) {
      assert Signatures(sig, again)[i] == Signatures(sig, first)[i];
    }
  }

  /** A resumption that returns only the new items is appended exactly when it does not itself begin with the
      signatures of the first run; otherwise the first run's items are lost. */
  lemma MergeOfDelta<T, S>(sig: T -> S, first: seq<T>, delta: seq<T>)
    ensures Merge(sig, first, delta) == first + delta
        <==> first == [] || !(Signatures(sig, first) <= Signatures(sig, delta))
  {
    if Signatures(sig, first) <= Signatures(sig, delta) {
      forall i | 0 <= i < |first| ensures sig(first[i]) == sig(delta[i]) {
        assert Signatures(sig, first)[i] == Signatures(sig, delta)[i];
      }
    }
    if first != [] {
      assert |first + delta| > |delta|;
    } else {
      assert first + delta == delta;
    }
  }

  /** Two items that differ but carry one signature: the resumption's new item is taken for the old one, and the first
      run's item is lost. */
  lemma DeltaLosesFirstRun()
    ensures var first, delta := [(1, "call")], [(2, "call")];
            var merged := Merge((item: (nat, string)) => item.1, first, delta);
            merged == delta && merged != first + delta && first[0] !in merged
  {
    var first, delta := [(1, "call")], [(2, "call")];
    assert |first + delta| == 2 && |delta| == 1;
  }
}
