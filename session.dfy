/**
 * The re-poll loop of the current version (`main` in Rac1/Rac1.py): each
 * round downloads and filters the day's list again, skips the `done_last`
 * podcasts already played, plays the rest and adds their number to
 * `done_last`; a round with nothing left ends the program with `exit(0)`.
 *
 * Each round sees the network through its own snapshot in `rounds`; when
 * the snapshots run out the model stops with `OutOfRounds`. The loop's
 * specification is stated over the filtered list of each round (or the
 * failure that round ends with).
 */
module Session {
  import opened Common
  import opened Episodes
  import opened Filter
  import opened Player
  import opened Polling

  /** `filter_podcasts_list(get_podcasts_list(args.date), args)` for one
      snapshot of the network. */
  function RoundList(args: Args, fetch: Fetch, extract: string -> string, decode: string -> Option<Record>,
                     normalize: string -> string): Result<seq<Scheduled>>
  {
    var ps :- PodcastsList(args.date, fetch, extract, decode);
    Ok(Filtered(ps, TargetDate(args.date), args, normalize))
  }

  /** The filtered list of every round, in order. */
  function RoundLists(args: Args, rounds: seq<Fetch>, extract: string -> string, decode: string -> Option<Record>,
                      normalize: string -> string): (lists: seq<Result<seq<Scheduled>>>)
    ensures |lists| == |rounds|
    decreases |rounds|
  {
    if |rounds| == 0 then []
    else [RoundList(args, rounds[0], extract, decode, normalize)] + RoundLists(args, rounds[1..], extract, decode, normalize)
  }

  /** Round `k`'s entry is that round's filtered list. */
  lemma {:induction false} RoundListsAt(args: Args, rounds: seq<Fetch>, k: nat, extract: string -> string,
                                        decode: string -> Option<Record>, normalize: string -> string)
    requires k < |rounds|
    ensures RoundLists(args, rounds, extract, decode, normalize)[k] == RoundList(args, rounds[k], extract, decode, normalize)
    decreases k
  {
    if k > 0 {
      RoundListsAt(args, rounds[1..], k - 1, extract, decode, normalize);
    }
  }

  /** The first podcast of a list carries `startFirst`, every other one
      `0`. */
  predicate SeekTagged(f: seq<Scheduled>, startFirst: string) {
    forall i :: 0 <= i < |f| ==> f[i].start == (if i == 0 then startFirst else "0")
  }

  /** Every round's list is tagged that way by the filter. */
  lemma RoundListTagged(args: Args, fetch: Fetch, extract: string -> string, decode: string -> Option<Record>,
                        normalize: string -> string)
    requires RoundList(args, fetch, extract, decode, normalize).Ok?
    ensures SeekTagged(RoundList(args, fetch, extract, decode, normalize).value, args.startFirst)
  {
    var ps := PodcastsList(args.date, fetch, extract, decode).value;
    FilteredSpec(ps, TargetDate(args.date), args, normalize);
  }

  /** The seek offset is used once: of everything a run started from
      nothing plays, only the very first podcast gets `start_first`; every
      other one starts at `0`. */
  lemma {:induction false} SeekOnce(lists: seq<Result<seq<Scheduled>>>, doneLast: nat, startFirst: string)
    requires forall k :: 0 <= k < |lists| && lists[k].Ok? ==> SeekTagged(lists[k].value, startFirst)
    ensures forall k, i :: (0 <= k < |Slices(lists, doneLast)| && 0 <= i < |Slices(lists, doneLast)[k]| &&
                            (doneLast > 0 || k > 0 || i > 0)) ==> Slices(lists, doneLast)[k][i].start == "0"
    ensures doneLast == 0 && |Slices(lists, doneLast)| > 0 ==> Slices(lists, doneLast)[0][0].start == startFirst
    decreases |lists|
  {
    if |lists| > 0 && lists[0].Ok? {
      var f := lists[0].value;
      var slice := Drop(f, doneLast);
      if |slice| > 0 {
        assert SeekTagged(f, startFirst);
        assert forall i :: 0 <= i < |slice| ==> slice[i] == f[doneLast + i];
        assert forall k :: 0 <= k < |lists[1..]| ==> lists[1..][k] == lists[k + 1];
        SeekOnce(lists[1..], doneLast + |slice|, startFirst);
        var rest := Slices(lists[1..], doneLast + |slice|);
        assert Slices(lists, doneLast) == [slice] + rest;
      }
    }
  }

  /** Over a whole run: every round plays something, the final count is
      the number of podcasts played, and only the first gets
      `start_first`. */
  lemma RunSpec(args: Args, rounds: seq<Fetch>, extract: string -> string, decode: string -> Option<Record>,
                normalize: string -> string)
    ensures var lists := RoundLists(args, rounds, extract, decode, normalize);
            var slices := Slices(lists, 0);
            && (forall k :: 0 <= k < |slices| ==> |slices[k]| > 0)
            && Outcome(lists, 0).doneLast == |Flatten(slices)|
            && (forall k, i :: 0 <= k < |slices| && 0 <= i < |slices[k]| && (k > 0 || i > 0) ==>
                  slices[k][i].start == "0")
            && (|slices| > 0 ==> slices[0][0].start == args.startFirst)
  {
    var lists := RoundLists(args, rounds, extract, decode, normalize);
    forall k | 0 <= k < |lists| && lists[k].Ok? ensures SeekTagged(lists[k].value, args.startFirst) {
      RoundListsAt(args, rounds, k, extract, decode, normalize);
      RoundListTagged(args, rounds[k], extract, decode, normalize);
    }
    SessionCount(lists, 0);
    SeekOnce(lists, 0, args.startFirst);
  }

  /** The actions of all rounds, round after round. */
  function SessionActions(slices: seq<seq<Scheduled>>, onlyPrint: bool, player: seq<string> -> int): seq<Action>
    decreases |slices|
  {
    if |slices| == 0 then [] else Actions(slices[0], onlyPrint, player) + SessionActions(slices[1..], onlyPrint, player)
  }

  lemma {:induction false} SessionActionsSnoc(slices: seq<seq<Scheduled>>, slice: seq<Scheduled>, onlyPrint: bool,
                                              player: seq<string> -> int)
    ensures SessionActions(slices + [slice], onlyPrint, player) ==
              SessionActions(slices, onlyPrint, player) + Actions(slice, onlyPrint, player)
    decreases |slices|
  {
    if |slices| == 0 {
      assert [] + [slice] == [slice];
      assert [slice][1..] == [];
    } else {
      assert (slices + [slice])[1..] == slices[1..] + [slice];
      SessionActionsSnoc(slices[1..], slice, onlyPrint, player);
    }
  }

  /** `lists` holds, for every round, that round's filtered list. */
  predicate ListsFor(args: Args, rounds: seq<Fetch>, lists: seq<Result<seq<Scheduled>>>, extract: string -> string,
                     decode: string -> Option<Record>, normalize: string -> string)
  {
    && |lists| == |rounds|
    && forall k {:trigger RoundList(args, rounds[k], extract, decode, normalize)} :: 0 <= k < |rounds| ==>
         lists[k] == RoundList(args, rounds[k], extract, decode, normalize)
  }

  lemma RoundListsFor(args: Args, rounds: seq<Fetch>, extract: string -> string, decode: string -> Option<Record>,
                      normalize: string -> string)
    ensures ListsFor(args, rounds, RoundLists(args, rounds, extract, decode, normalize), extract, decode, normalize)
  {
    forall k | 0 <= k < |rounds|
      ensures RoundLists(args, rounds, extract, decode, normalize)[k] == RoundList(args, rounds[k], extract, decode, normalize)
    {
      RoundListsAt(args, rounds, k, extract, decode, normalize);
    }
  }

  /** One round's listing: download, resolve and filter the day's list
      through that round's snapshot of the network. */
  method ListRound(args: Args, fetch: Fetch, extract: string -> string, decode: string -> Option<Record>,
                   normalize: string -> string) returns (r: Result<seq<Scheduled>>)
    ensures r == RoundList(args, fetch, extract, decode, normalize)
  {
    var listed := GetPodcastsList(args.date, fetch, extract, decode);
    if listed.Err? {
      return Err(listed.error);
    }
    var filtered := FilterPodcastsList(listed.value, args, normalize);
    r := Ok(filtered);
  }

  /** `main` after argument parsing: poll, filter, skip what was played,
      play the rest, until a round has nothing left. */
  method Run(args: Args, rounds: seq<Fetch>, extract: string -> string, decode: string -> Option<Record>,
             normalize: string -> string, player: seq<string> -> int)
    returns (stop: Stop, slices: seq<seq<Scheduled>>, actions: seq<Action>)
    ensures stop == Outcome(RoundLists(args, rounds, extract, decode, normalize), 0)
    ensures slices == Slices(RoundLists(args, rounds, extract, decode, normalize), 0)
    ensures actions == SessionActions(slices, args.onlyPrint, player)
  {
    ghost var lists := RoundLists(args, rounds, extract, decode, normalize);
    RoundListsFor(args, rounds, extract, decode, normalize);
    stop, slices, actions := Poll(args, rounds, extract, decode, normalize, player, lists);
  }

  /** The `while True` loop of `main`, round after round. */
  method Poll(args: Args, rounds: seq<Fetch>, extract: string -> string, decode: string -> Option<Record>,
              normalize: string -> string, player: seq<string> -> int, ghost lists: seq<Result<seq<Scheduled>>>)
    returns (stop: Stop, slices: seq<seq<Scheduled>>, actions: seq<Action>)
    requires ListsFor(args, rounds, lists, extract, decode, normalize)
    ensures stop == Outcome(lists, 0)
    ensures slices == Slices(lists, 0)
    ensures actions == SessionActions(slices, args.onlyPrint, player)
  {
    var rac1 := new Rac1();
    var i := 0;
    var doneLast: nat := 0;
    slices := [];
    actions := [];
    assert lists[0..] == lists;
    assert slices + Slices(lists, 0) == Slices(lists, 0);
    while i < |rounds|
      invariant 0 <= i <= |rounds|
      invariant Outcome(lists, 0) == Outcome(lists[i..], doneLast)
      invariant Slices(lists, 0) == slices + Slices(lists[i..], doneLast)
      invariant actions == SessionActions(slices, args.onlyPrint, player)
    {
      var listed := ListRound(args, rounds[i], extract, decode, normalize);
      assert listed == lists[i];
      if listed.Err? || |Drop(listed.value, doneLast)| == 0 {
        RoundClosesAccount(lists, i, doneLast, slices);
        if listed.Err? {
          return Failed(listed.error, doneLast), slices, actions;
        }
        return Finished(doneLast), slices, actions;
      }
      var podcasts := Drop(listed.value, doneLast);
      var done, played := rac1.PlayAllPodcasts(podcasts, args.onlyPrint, player);
      SessionActionsSnoc(slices, podcasts, args.onlyPrint, player);
      var next := doneLast + done;
      var slices' := slices + [podcasts];
      RoundKeepsAccount(lists, i, doneLast, slices, listed.value, next, slices');
      doneLast, slices := next, slices';
      actions := actions + played;
      i := i + 1;
    }
    assert lists[i..] == [];
    assert slices + [] == slices;
    stop := OutOfRounds(doneLast);
  }
}
