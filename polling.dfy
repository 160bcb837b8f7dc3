/**
 * The re-poll loop both versions share: each round lists the day again,
 * skips the first `done_last` entries, plays the rest and adds their number
 * to `done_last`; a round that fails ends the program with that failure, and
 * a round with nothing left ends it normally.
 *
 * The loop is stated over the list each round yields (or the failure it
 * ends with), whatever the entries of the list are.
 */
module Polling {
  import opened Common

  /** How the loop ends, given each round's list and `doneLast` podcasts
      played before the first of them. */
  function Outcome<T>(lists: seq<Result<seq<T>>>, doneLast: nat): Stop
    decreases |lists|
  {
    if |lists| == 0 then OutOfRounds(doneLast)
    else
      match lists[0]
      case Err(e) => Failed(e, doneLast)
      case Ok(f) =>
        var slice := Drop(f, doneLast);
        if |slice| == 0 then Finished(doneLast)
        else Outcome(lists[1..], doneLast + |slice|)
  }

  /** The podcasts each round plays, `filtered[done_last:]`, round by
      round. */
  function Slices<T>(lists: seq<Result<seq<T>>>, doneLast: nat): seq<seq<T>>
    decreases |lists|
  {
    if |lists| == 0 then []
    else
      match lists[0]
      case Err(_) => []
      case Ok(f) =>
        var slice := Drop(f, doneLast);
        if |slice| == 0 then [] else [slice] + Slices(lists[1..], doneLast + |slice|)
  }

  /** Every round that plays plays something, and `done_last` grows by
      exactly the number of podcasts each round plays. */
  lemma {:induction false} SessionCount<T>(lists: seq<Result<seq<T>>>, doneLast: nat)
    ensures forall k :: 0 <= k < |Slices(lists, doneLast)| ==> |Slices(lists, doneLast)[k]| > 0
    ensures Outcome(lists, doneLast).doneLast == doneLast + |Flatten(Slices(lists, doneLast))|
    decreases |lists|
  {
    if |lists| > 0 && lists[0].Ok? {
      var slice := Drop(lists[0].value, doneLast);
      if |slice| > 0 {
        SessionCount(lists[1..], doneLast + |slice|);
        var rest := Slices(lists[1..], doneLast + |slice|);
        assert Slices(lists, doneLast) == [slice] + rest;
        assert ([slice] + rest)[1..] == rest;
      }
    }
  }

  /** `done_last` never decreases. */
  lemma {:induction false} OutcomeGrows<T>(lists: seq<Result<seq<T>>>, doneLast: nat)
    ensures Outcome(lists, doneLast).doneLast >= doneLast
    decreases |lists|
  {
    if |lists| > 0 && lists[0].Ok? && |Drop(lists[0].value, doneLast)| > 0 {
      OutcomeGrows(lists[1..], doneLast + |Drop(lists[0].value, doneLast)|);
    }
  }

  /** The loop ends normally exactly in a round whose slice is empty: with
      a non-empty slice it goes on and ends with a larger `done_last`. */
  lemma FinishedIffEmptySlice<T>(lists: seq<Result<seq<T>>>, doneLast: nat)
    requires |lists| > 0 && lists[0].Ok?
    ensures Outcome(lists, doneLast) == Finished(doneLast) <==> |Drop(lists[0].value, doneLast)| == 0
  {
    var slice := Drop(lists[0].value, doneLast);
    if |slice| > 0 {
      assert Outcome(lists, doneLast) == Outcome(lists[1..], doneLast + |slice|);
      OutcomeGrows(lists[1..], doneLast + |slice|);
    } else {
      assert Outcome(lists, doneLast) == Finished(doneLast);
    }
  }

  /** One round of the loop that fails or finds nothing left ends it. */
  lemma RoundStops<T>(lists: seq<Result<seq<T>>>, i: nat, doneLast: nat)
    requires i < |lists|
    ensures lists[i].Err? ==> Outcome(lists[i..], doneLast) == Failed(lists[i].error, doneLast) &&
                              Slices(lists[i..], doneLast) == []
    ensures lists[i].Ok? && |Drop(lists[i].value, doneLast)| == 0 ==>
              Outcome(lists[i..], doneLast) == Finished(doneLast) && Slices(lists[i..], doneLast) == []
  {
    assert lists[i..][0] == lists[i];
  }

  /** One round of the loop that plays something goes on to the next round
      with `done_last` advanced by what it played. */
  lemma RoundAdvances<T>(lists: seq<Result<seq<T>>>, i: nat, doneLast: nat, f: seq<T>)
    requires i < |lists| && lists[i] == Ok(f) && |Drop(f, doneLast)| > 0
    ensures Outcome(lists[i..], doneLast) == Outcome(lists[i + 1..], doneLast + |Drop(f, doneLast)|)
    ensures Slices(lists[i..], doneLast) == [Drop(f, doneLast)] + Slices(lists[i + 1..], doneLast + |Drop(f, doneLast)|)
  {
    assert lists[i..][0] == lists[i];
    assert lists[i..][1..] == lists[i + 1..];
  }

  /** A round that plays something keeps the loop's account: what is left
      to play after it is the rest of the run from the next round. */
  lemma RoundKeepsAccount<T>(lists: seq<Result<seq<T>>>, i: nat, doneLast: nat, slices: seq<seq<T>>,
                             f: seq<T>, next: nat, slices': seq<seq<T>>)
    requires i < |lists| && lists[i] == Ok(f) && |Drop(f, doneLast)| > 0
    requires next == doneLast + |Drop(f, doneLast)| && slices' == slices + [Drop(f, doneLast)]
    requires Outcome(lists, 0) == Outcome(lists[i..], doneLast)
    requires Slices(lists, 0) == slices + Slices(lists[i..], doneLast)
    ensures Outcome(lists, 0) == Outcome(lists[i + 1..], next)
    ensures Slices(lists, 0) == slices' + Slices(lists[i + 1..], next)
  {
    RoundAdvances(lists, i, doneLast, f);
    var rest := Slices(lists[i + 1..], doneLast + |Drop(f, doneLast)|);
    assert slices + ([Drop(f, doneLast)] + rest) == (slices + [Drop(f, doneLast)]) + rest;
  }

  /** A round that fails or has nothing left closes the account. */
  lemma RoundClosesAccount<T>(lists: seq<Result<seq<T>>>, i: nat, doneLast: nat, slices: seq<seq<T>>)
    requires i < |lists| && (lists[i].Err? || |Drop(lists[i].value, doneLast)| == 0)
    requires Outcome(lists, 0) == Outcome(lists[i..], doneLast)
    requires Slices(lists, 0) == slices + Slices(lists[i..], doneLast)
    ensures lists[i].Err? ==> Outcome(lists, 0) == Failed(lists[i].error, doneLast)
    ensures lists[i].Ok? ==> Outcome(lists, 0) == Finished(doneLast)
    ensures Slices(lists, 0) == slices
  {
    RoundStops(lists, i, doneLast);
    assert slices + [] == slices;
  }

}
