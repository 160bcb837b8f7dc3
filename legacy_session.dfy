/**
 * The `__main__` loop of the earlier version (Rac1.py, 1.0.0): play the
 * day from `done_last`, add the number of entries the round walked to
 * `done_last`, and end with `exit(0)` after a round that walked none; a
 * download failure ends the program inside the round.
 *
 * Each round sees the feed server through its own snapshot in `rounds`;
 * when the snapshots run out the model stops with `OutOfRounds`.
 */
module LegacySession {
  import opened Common
  import opened Player
  import opened Polling
  import opened LegacyFeed
  import opened LegacyPlay

  /** The day's list each round downloads, in order. */
  function FeedLists(args: Args, rounds: seq<Feed>, parseXml: string -> Option<seq<XmlItem>>): (lists: seq<Result<seq<Item>>>)
    ensures |lists| == |rounds|
    decreases |rounds|
  {
    if |rounds| == 0 then []
    else [FeedList(args.date, rounds[0], parseXml)] + FeedLists(args, rounds[1..], parseXml)
  }

  /** Round `k`'s entry is the list of that round's snapshot. */
  lemma {:induction false} FeedListsAt(args: Args, rounds: seq<Feed>, k: nat, parseXml: string -> Option<seq<XmlItem>>)
    requires k < |rounds|
    ensures FeedLists(args, rounds, parseXml)[k] == FeedList(args.date, rounds[k], parseXml)
    decreases k
  {
    if k > 0 {
      FeedListsAt(args, rounds[1..], k - 1, parseXml);
    }
  }

  /** `lists` holds, for every round, that round's list. */
  predicate FeedListsFor(args: Args, rounds: seq<Feed>, lists: seq<Result<seq<Item>>>,
                         parseXml: string -> Option<seq<XmlItem>>)
  {
    && |lists| == |rounds|
    && forall k {:trigger FeedList(args.date, rounds[k], parseXml)} :: 0 <= k < |rounds| ==>
         lists[k] == FeedList(args.date, rounds[k], parseXml)
  }

  lemma FeedListsHold(args: Args, rounds: seq<Feed>, parseXml: string -> Option<seq<XmlItem>>)
    ensures FeedListsFor(args, rounds, FeedLists(args, rounds, parseXml), parseXml)
  {
    forall k | 0 <= k < |rounds|
      ensures FeedLists(args, rounds, parseXml)[k] == FeedList(args.date, rounds[k], parseXml)
    {
      FeedListsAt(args, rounds, k, parseXml);
    }
  }

  /** What every round plays, round after round, until a round fails or
      walks no entry: the entries after the first `doneLast` that `keep`
      accepts, with their seek offsets. */
  function SessionPlays(lists: seq<Result<seq<Item>>>, doneLast: nat, startFirst: string, keep: Item -> bool): seq<Play>
    decreases |lists|
  {
    if |lists| == 0 || lists[0].Err? then []
    else
      var slice := Drop(lists[0].value, doneLast);
      if |slice| == 0 then []
      else Picks(slice, doneLast, startFirst, keep) + SessionPlays(lists[1..], doneLast + |slice|, startFirst, keep)
  }

  /** A round with entries left plays its picks, then the rounds after it
      go on from `next`, the count of entries walked so far. */
  lemma SessionPlaysStep(lists: seq<Result<seq<Item>>>, doneLast: nat, startFirst: string, keep: Item -> bool,
                         f: seq<Item>, next: nat)
    requires |lists| > 0 && lists[0] == Ok(f) && |Drop(f, doneLast)| > 0
    requires next == doneLast + |Drop(f, doneLast)|
    ensures SessionPlays(lists, doneLast, startFirst, keep) ==
              Picks(Drop(f, doneLast), doneLast, startFirst, keep) + SessionPlays(lists[1..], next, startFirst, keep)
  {
  }

  /** Whether the first entry of the first round's list is played. */
  predicate FirstPlayed(lists: seq<Result<seq<Item>>>, keep: Item -> bool) {
    |lists| > 0 && lists[0].Ok? && |lists[0].value| > 0 && keep(lists[0].value[0])
  }

  /** Over the whole run, `start_first` goes to the first play exactly when
      it is the first entry of the day; every other play starts at `0`. */
  lemma {:induction false} SessionStarts(lists: seq<Result<seq<Item>>>, doneLast: nat, startFirst: string, keep: Item -> bool)
    ensures forall k :: 0 <= k < |SessionPlays(lists, doneLast, startFirst, keep)| ==>
              SessionPlays(lists, doneLast, startFirst, keep)[k].start ==
                (if doneLast == 0 && k == 0 && FirstPlayed(lists, keep) then startFirst else "0")
    ensures doneLast == 0 && FirstPlayed(lists, keep) ==>
              |SessionPlays(lists, doneLast, startFirst, keep)| > 0 &&
              SessionPlays(lists, doneLast, startFirst, keep)[0].item == lists[0].value[0]
    decreases |lists|
  {
    if |lists| > 0 && lists[0].Ok? {
      var f := lists[0].value;
      var slice := Drop(f, doneLast);
      if |slice| > 0 {
        var next := doneLast + |slice|;
        SessionPlaysStep(lists, doneLast, startFirst, keep, f, next);
        SessionStarts(lists[1..], next, startFirst, keep);
        PicksStarts(slice, doneLast, startFirst, keep);
        var here: seq<Play> := Picks(slice, doneLast, startFirst, keep);
        var rest: seq<Play> := SessionPlays(lists[1..], next, startFirst, keep);
        var plays: seq<Play> := here + rest;
        if doneLast == 0 {
          assert slice == f;
          assert FirstPlayed(lists, keep) <==> keep(slice[0]);
        }
        forall k: int | 0 <= k < |plays|
          ensures plays[k].start == (if doneLast == 0 && k == 0 && FirstPlayed(lists, keep) then startFirst else "0")
        {
          if k < |here| {
            assert plays[k] == here[k];
            assert here[k].start == (if doneLast == 0 && k == 0 && keep(slice[0]) then startFirst else "0");
          } else {
            assert plays[k] == rest[k - |here|];
            assert rest[k - |here|].start == "0";
            assert k == 0 ==> !keep(slice[0]);
          }
        }
      }
    }
  }

  /** Every play of the run is an entry that `keep` accepts. */
  lemma {:induction false} SessionPlaysKept(lists: seq<Result<seq<Item>>>, doneLast: nat, startFirst: string, keep: Item -> bool)
    ensures forall p :: p in SessionPlays(lists, doneLast, startFirst, keep) ==> keep(p.item)
    decreases |lists|
  {
    if |lists| > 0 && lists[0].Ok? {
      var slice := Drop(lists[0].value, doneLast);
      if |slice| > 0 {
        var next := doneLast + |slice|;
        SessionPlaysStep(lists, doneLast, startFirst, keep, lists[0].value, next);
        SessionPlaysKept(lists[1..], next, startFirst, keep);
        PicksMembers(slice, doneLast, startFirst, keep);
        var here := Picks(slice, doneLast, startFirst, keep);
        forall p | p in here ensures keep(p.item) {
          var k :| 0 <= k < |here| && here[k] == p;
          assert ItemsOf(here)[k] == p.item;
        }
      }
    }
  }

  /** A round for which `play_all_podcasts` failed or walked nothing ends
      the run; `rest` holds the lists of this round and the ones after it,
      and `outcome` and `total` are what the run ends with. */
  lemma RoundEnds(rest: seq<Result<seq<Item>>>, doneLast: nat, startFirst: string, keep: Item -> bool,
                  outcome: Stop, total: seq<Play>, plays: seq<Play>, r: Result<nat>)
    requires |rest| > 0
    requires RoundSlice(rest[0], doneLast).Err? ==> r == Err(RoundSlice(rest[0], doneLast).error)
    requires RoundSlice(rest[0], doneLast).Ok? ==> r == Ok(|RoundSlice(rest[0], doneLast).value|)
    requires r.Err? || r.value == 0
    requires outcome == Outcome(rest, doneLast)
    requires total == plays + SessionPlays(rest, doneLast, startFirst, keep)
    ensures r.Err? ==> outcome == Failed(r.error, doneLast)
    ensures r.Ok? ==> outcome == Finished(doneLast)
    ensures total == plays
  {
    assert plays + [] == plays;
  }

  /** A round for which `play_all_podcasts` walked `done > 0` entries and
      played `played` goes on from `next = done_last + done`. */
  lemma RoundGoesOn(rest: seq<Result<seq<Item>>>, doneLast: nat, startFirst: string, keep: Item -> bool,
                    outcome: Stop, total: seq<Play>, plays: seq<Play>, f: seq<Item>, done: nat, next: nat,
                    played: seq<Play>)
    requires |rest| > 0 && rest[0] == Ok(f)
    requires done == |Drop(f, doneLast)| && played == Picks(Drop(f, doneLast), doneLast, startFirst, keep)
    requires done > 0 && next == doneLast + done
    requires outcome == Outcome(rest, doneLast)
    requires total == plays + SessionPlays(rest, doneLast, startFirst, keep)
    ensures outcome == Outcome(rest[1..], next)
    ensures total == (plays + played) + SessionPlays(rest[1..], next, startFirst, keep)
  {
    SessionPlaysStep(rest, doneLast, startFirst, keep, f, next);
    var tail := SessionPlays(rest[1..], next, startFirst, keep);
    assert plays + (played + tail) == (plays + played) + tail;
  }

  /** Round `i` of the loop, when `play_all_podcasts` failed or walked
      nothing: the run ends with `outcome` and `total`. */
  lemma RoundAccountEnds(lists: seq<Result<seq<Item>>>, i: nat, doneLast: nat, startFirst: string, keep: Item -> bool,
                         outcome: Stop, total: seq<Play>, plays: seq<Play>, r: Result<nat>)
    requires i < |lists|
    requires RoundSlice(lists[i], doneLast).Err? ==> r == Err(RoundSlice(lists[i], doneLast).error)
    requires RoundSlice(lists[i], doneLast).Ok? ==> r == Ok(|RoundSlice(lists[i], doneLast).value|)
    requires r.Err? || r.value == 0
    requires outcome == Outcome(lists[i..], doneLast)
    requires total == plays + SessionPlays(lists[i..], doneLast, startFirst, keep)
    ensures r.Err? ==> outcome == Failed(r.error, doneLast)
    ensures r.Ok? ==> outcome == Finished(doneLast)
    ensures total == plays
  {
    var rest := lists[i..];
    assert rest[0] == lists[i];
    RoundEnds(rest, doneLast, startFirst, keep, outcome, total, plays, r);
  }

  /** Round `i` of the loop, when `play_all_podcasts` walked `done > 0`
      entries and played `played`: the run goes on with round `j = i + 1`
      from `next = done_last + done`. */
  lemma RoundAccountGoesOn(lists: seq<Result<seq<Item>>>, i: nat, doneLast: nat, startFirst: string, keep: Item -> bool,
                           outcome: Stop, total: seq<Play>, plays: seq<Play>, done: nat, played: seq<Play>,
                           j: nat, next: nat)
    requires i < |lists| && j == i + 1 && next == doneLast + done
    requires RoundSlice(lists[i], doneLast).Ok? && done == |RoundSlice(lists[i], doneLast).value|
    requires played == Picks(RoundSlice(lists[i], doneLast).value, doneLast, startFirst, keep)
    requires done > 0
    requires outcome == Outcome(lists[i..], doneLast)
    requires total == plays + SessionPlays(lists[i..], doneLast, startFirst, keep)
    ensures outcome == Outcome(lists[j..], next)
    ensures total == (plays + played) + SessionPlays(lists[j..], next, startFirst, keep)
  {
    var rest := lists[i..];
    assert rest[0] == lists[i];
    assert rest[1..] == lists[j..];
    RoundGoesOn(rest, doneLast, startFirst, keep, outcome, total, plays, lists[i].value, done, next, played);
  }

  /** The `__main__` loop after argument parsing. */
  method LegacyRun(args: Args, rounds: seq<Feed>, parseXml: string -> Option<seq<XmlItem>>, player: seq<string> -> int)
    returns (stop: Stop, plays: seq<Play>, actions: seq<Action>)
    ensures stop == Outcome(FeedLists(args, rounds, parseXml), 0)
    ensures plays == SessionPlays(FeedLists(args, rounds, parseXml), 0, args.startFirst, Keep(args))
    ensures actions == PlayActions(plays, args.onlyPrint, player)
  {
    ghost var lists := FeedLists(args, rounds, parseXml);
    FeedListsHold(args, rounds, parseXml);
    stop, plays, actions := LegacyPoll(args, rounds, parseXml, player, lists);
  }

  /** The call of `play_all_podcasts` in round `i`: the day's list is the
      round's entry of `lists`. */
  method PlayRoundOf(script: Script, args: Args, doneLast: nat, rounds: seq<Feed>, i: nat,
                     parseXml: string -> Option<seq<XmlItem>>, player: seq<string> -> int,
                     ghost lists: seq<Result<seq<Item>>>)
    returns (r: Result<nat>, played: seq<Play>, acted: seq<Action>)
    requires FeedListsFor(args, rounds, lists, parseXml) && i < |rounds|
    modifies script
    ensures RoundSlice(lists[i], doneLast).Err? ==> r == Err(RoundSlice(lists[i], doneLast).error)
    ensures RoundSlice(lists[i], doneLast).Ok? ==>
              && r == Ok(|RoundSlice(lists[i], doneLast).value|)
              && played == Picks(RoundSlice(lists[i], doneLast).value, doneLast, args.startFirst, Keep(args))
    ensures acted == PlayActions(played, args.onlyPrint, player)
  {
    r, played, acted := script.PlayAllPodcasts(args, doneLast, rounds[i], parseXml, player);
    assert FeedList(args.date, rounds[i], parseXml) == lists[i];
  }

  /** The `while True` loop, round after round. */
  method LegacyPoll(args: Args, rounds: seq<Feed>, parseXml: string -> Option<seq<XmlItem>>, player: seq<string> -> int,
                    ghost lists: seq<Result<seq<Item>>>)
    returns (stop: Stop, plays: seq<Play>, actions: seq<Action>)
    requires FeedListsFor(args, rounds, lists, parseXml)
    ensures stop == Outcome(lists, 0)
    ensures plays == SessionPlays(lists, 0, args.startFirst, Keep(args))
    ensures actions == PlayActions(plays, args.onlyPrint, player)
  {
    var script := new Script();
    var i := 0;
    var doneLast: nat := 0;
    plays := [];
    actions := [];
    ghost var outcome := Outcome(lists, 0);
    ghost var total := SessionPlays(lists, 0, args.startFirst, Keep(args));
    assert lists[0..] == lists;
    while i < |rounds|
      invariant 0 <= i <= |rounds|
      invariant outcome == Outcome(lists[i..], doneLast)
      invariant total == plays + SessionPlays(lists[i..], doneLast, args.startFirst, Keep(args))
      invariant actions == PlayActions(plays, args.onlyPrint, player)
    {
      var done, played, acted := PlayRoundOf(script, args, doneLast, rounds, i, parseXml, player, lists);
      if done.Err? || done.value == 0 {
        RoundAccountEnds(lists, i, doneLast, args.startFirst, Keep(args), outcome, total, plays, done);
        if done.Err? {
          return Failed(done.error, doneLast), plays, actions;
        }
        return Finished(doneLast), plays, actions;
      }
      PlayActionsConcat(plays, played, args.onlyPrint, player);
      ghost var i0, d0, p0 := i, doneLast, plays;
      doneLast := doneLast + done.value;
      plays := plays + played;
      actions := actions + acted;
      i := i + 1;
      RoundAccountGoesOn(lists, i0, d0, args.startFirst, Keep(args), outcome, total, p0, done.value, played, i, doneLast);
    }
    assert lists[i..] == [];
    assert plays + [] == plays;
    stop := OutOfRounds(doneLast);
  }

  /** Over a whole run: `done_last` ends at the number of entries walked,
      every play passes the filter, and only the day's first entry, when it
      passes the filter, is played from `start_first`. */
  lemma LegacyRunSpec(args: Args, rounds: seq<Feed>, parseXml: string -> Option<seq<XmlItem>>)
    ensures var lists := FeedLists(args, rounds, parseXml);
            Outcome(lists, 0).doneLast == |Flatten(Slices(lists, 0))|
    ensures var lists := FeedLists(args, rounds, parseXml);
            var plays := SessionPlays(lists, 0, args.startFirst, Keep(args));
            && (forall p :: p in plays ==> WillPlay(p.item, args))
            && (forall k :: 0 <= k < |plays| ==>
                  plays[k].start == (if k == 0 && FirstPlayed(lists, Keep(args)) then args.startFirst else "0"))
  {
    var lists := FeedLists(args, rounds, parseXml);
    SessionCount(lists, 0);
    SessionPlaysKept(lists, 0, args.startFirst, Keep(args));
    SessionStarts(lists, 0, args.startFirst, Keep(args));
  }
}
