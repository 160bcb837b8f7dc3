/**
 * Filtering and playing in the earlier version of the program (Rac1.py,
 * 1.0.0): `play_all_podcasts` lists the day again, skips the first
 * `done_last` entries and walks the rest, playing each entry inside the hour
 * window that no exclusion matches and counting every entry, played or not;
 * the `__main__` loop adds that count to `done_last` and stops after a round
 * that counts nothing.
 *
 * The external player is the parameter `player`, which maps an argument
 * vector to the exit code `subprocess.call` returns.
 */
module LegacyPlay {
  import opened Common
  import opened Text
  import opened Player
  import opened LegacyFeed

  /** One exclusion entry matches an entry: an integer equal to its hour,
      or text occurring in its title as derived from the feed. */
  predicate ExclusionHits(exc: string, item: Item) {
    (IsInt(exc) && IntValue(exc) == item.hora) || Contains(item.title, exc)
  }

  /** An entry is played when its hour is inside the inclusive window and
      no exclusion entry matches it. */
  predicate WillPlay(item: Item, args: Args) {
    && args.fromHour <= item.hora <= args.toHour
    && forall k :: 0 <= k < |args.excludes| ==> !ExclusionHits(args.excludes[k], item)
  }

  /** An entry that is played, with the seek offset it is played from. */
  datatype Play = Play(item: Item, start: string)

  /** The seek offset of the entry at index `i` of a round that skipped
      `doneLast` entries: `start_first` when `done + done_last == 0`. */
  function StartAt(startFirst: string, doneLast: nat, i: nat): string {
    if i + doneLast == 0 then startFirst else "0"
  }

  /** The entries of a slice that `keep` accepts, each with the seek offset
      of its index. */
  function Picks(slice: seq<Item>, doneLast: nat, startFirst: string, keep: Item -> bool): seq<Play>
    decreases |slice|
  {
    if |slice| == 0 then []
    else
      var n := |slice| - 1;
      Picks(slice[..n], doneLast, startFirst, keep) +
        (if keep(slice[n]) then [Play(slice[n], StartAt(startFirst, doneLast, n))] else [])
  }

  /** The filter of the round as a test on entries. */
  function Keep(args: Args): Item -> bool {
    item => WillPlay(item, args)
  }

  /** What one round plays from the entries after the first `doneLast`, in
      order. */
  function RoundPlays(slice: seq<Item>, doneLast: nat, args: Args): seq<Play> {
    Picks(slice, doneLast, args.startFirst, Keep(args))
  }

  /** The entries of a list of plays. */
  function ItemsOf(plays: seq<Play>): (items: seq<Item>)
    ensures |items| == |plays| && forall k :: 0 <= k < |plays| ==> items[k] == plays[k].item
  {
    seq(|plays|, k requires 0 <= k < |plays| => plays[k].item)
  }

  /** The picked entries are a subsequence of the slice. */
  lemma {:induction false} PicksInOrder(slice: seq<Item>, doneLast: nat, startFirst: string, keep: Item -> bool)
    ensures IsSubseq(ItemsOf(Picks(slice, doneLast, startFirst, keep)), slice)
    decreases |slice|
  {
    if |slice| > 0 {
      var n := |slice| - 1;
      var init := slice[..n];
      PicksInOrder(init, doneLast, startFirst, keep);
      var before := ItemsOf(Picks(init, doneLast, startFirst, keep));
      var after := ItemsOf(Picks(slice, doneLast, startFirst, keep));
      if keep(slice[n]) {
        assert after == before + [slice[n]];
        assert after[..|after| - 1] == before;
      } else {
        assert after == before;
        assert slice == init + [slice[n]];
        IsSubseqSnoc(before, init, slice[n]);
      }
    }
  }

  /** The picked entries are exactly the entries `keep` accepts. */
  lemma {:induction false} PicksMembers(slice: seq<Item>, doneLast: nat, startFirst: string, keep: Item -> bool)
    ensures forall it :: it in ItemsOf(Picks(slice, doneLast, startFirst, keep)) <==> it in slice && keep(it)
    ensures forall it :: multiset(ItemsOf(Picks(slice, doneLast, startFirst, keep)))[it] ==
              if keep(it) then multiset(slice)[it] else 0
    decreases |slice|
  {
    if |slice| > 0 {
      var n := |slice| - 1;
      var init := slice[..n];
      PicksMembers(init, doneLast, startFirst, keep);
      var before := ItemsOf(Picks(init, doneLast, startFirst, keep));
      var after := ItemsOf(Picks(slice, doneLast, startFirst, keep));
      assert slice == init + [slice[n]];
      if keep(slice[n]) {
        assert after == before + [slice[n]];
      } else {
        assert after == before;
      }
    }
  }

  /** Only the slice's first entry can get `start_first`, and only in a
      round that skipped nothing; every other play starts at `0`. */
  lemma {:induction false} PicksStarts(slice: seq<Item>, doneLast: nat, startFirst: string, keep: Item -> bool)
    ensures |slice| > 0 && keep(slice[0]) ==>
              |Picks(slice, doneLast, startFirst, keep)| > 0 && Picks(slice, doneLast, startFirst, keep)[0].item == slice[0]
    ensures forall k :: 0 <= k < |Picks(slice, doneLast, startFirst, keep)| ==>
              Picks(slice, doneLast, startFirst, keep)[k].start ==
                (if doneLast == 0 && k == 0 && keep(slice[0]) then startFirst else "0")
    decreases |slice|
  {
    if |slice| > 0 {
      var n := |slice| - 1;
      var init := slice[..n];
      PicksStarts(init, doneLast, startFirst, keep);
      var before := Picks(init, doneLast, startFirst, keep);
      if n > 0 {
        assert init[0] == slice[0];
      }
      if keep(slice[n]) {
        assert Picks(slice, doneLast, startFirst, keep) == before + [Play(slice[n], StartAt(startFirst, doneLast, n))];
      }
    }
  }

  /** One more entry of the slice. */
  lemma PicksSnoc(slice: seq<Item>, i: nat, doneLast: nat, startFirst: string, keep: Item -> bool)
    requires i < |slice|
    ensures Picks(slice[..i + 1], doneLast, startFirst, keep) ==
            Picks(slice[..i], doneLast, startFirst, keep) +
              (if keep(slice[i]) then [Play(slice[i], StartAt(startFirst, doneLast, i))] else [])
  {
    assert slice[..i + 1][..i] == slice[..i];
  }

  /** A round plays exactly the entries of its slice that pass the filter,
      in slice order; only the slice's first entry can get `start_first`,
      and only in a round that skipped nothing. */
  lemma RoundPlaysSpec(slice: seq<Item>, doneLast: nat, args: Args)
    ensures var plays := RoundPlays(slice, doneLast, args);
            && IsSubseq(ItemsOf(plays), slice)
            && (forall it :: it in ItemsOf(plays) <==> it in slice && WillPlay(it, args))
            && (forall it :: multiset(ItemsOf(plays))[it] == if WillPlay(it, args) then multiset(slice)[it] else 0)
            && (|slice| > 0 && WillPlay(slice[0], args) ==> |plays| > 0 && plays[0].item == slice[0])
            && (forall k :: 0 <= k < |plays| ==>
                  plays[k].start == (if doneLast == 0 && k == 0 && WillPlay(slice[0], args) then args.startFirst else "0"))
  {
    PicksInOrder(slice, doneLast, args.startFirst, Keep(args));
    PicksMembers(slice, doneLast, args.startFirst, Keep(args));
    PicksStarts(slice, doneLast, args.startFirst, Keep(args));
  }

  /** The as-written seek rule loses `start_first` when the day's first
      entry is filtered out: the first entry that is played then starts at
      `0`. */
  lemma StartFirstLost(first: Item, second: Item, args: Args)
    requires !WillPlay(first, args) && WillPlay(second, args) && args.startFirst != "0"
    ensures |RoundPlays([first, second], 0, args)| == 1
    ensures RoundPlays([first, second], 0, args)[0] == Play(second, "0")
    ensures RoundPlays([first, second], 0, args)[0].start != args.startFirst
  {
    var keep := Keep(args);
    assert !keep(first) && keep(second);
    assert [first][..0] == [];
    assert Picks([first], 0, args.startFirst, keep) == [];
    assert [first, second][..1] == [first];
    assert Picks([first, second], 0, args.startFirst, keep) == [Play(second, StartAt(args.startFirst, 0, 1))];
  }

  /** `call_args`: the player command for one play. */
  function LegacyCallArgs(p: Play): (argv: seq<string>)
    ensures |argv| == 8
    ensures argv[..4] == ["mplayer", "-cache-min", "1", "-cache"] && argv[5] == "-ss"
    ensures argv[4] == p.item.length && argv[6] == p.start && argv[7] == p.item.link
  {
    ["mplayer", "-cache-min", "1", "-cache", p.item.length, "-ss", p.start, p.item.link]
  }

  /** `print_args`: the command with its last word, the link, in double
      quotes. */
  function LegacyPrintArgs(p: Play): (words: seq<string>)
    ensures |words| == |LegacyCallArgs(p)|
    ensures forall i :: 0 <= i < 7 ==> words[i] == LegacyCallArgs(p)[i]
    ensures var w := words[7];
            |w| >= 2 && w[0] == '"' && w[|w| - 1] == '"' && w[1..|w| - 1] == LegacyCallArgs(p)[7]
  {
    LegacyCallArgs(p)[..7] + [Quoted(p.item.link)]
  }

  /** For an entry derived from a feed item, the cache size the player gets
      is the enclosure length in whole KiB. */
  lemma CacheSizeOf(x: XmlItem, start: string)
    requires DeriveItem(x).Ok?
    ensures var argv := LegacyCallArgs(Play(DeriveItem(x).value, start));
            IsInt(argv[4]) && IntValue(argv[4]) == KiB(IntValue(x.length))
  {
    var length := LengthText(x.length);
    assert length.Ok? && DeriveItem(x).value.length == length.value;
    assert LegacyCallArgs(Play(DeriveItem(x).value, start))[4] == length.value;
  }

  function PlayAction(p: Play, onlyPrint: bool, player: seq<string> -> int): Action {
    if onlyPrint then Printed(LegacyPrintArgs(p)) else Played(LegacyCallArgs(p), player(LegacyCallArgs(p)))
  }

  /** One action per play, in order. */
  function PlayActions(plays: seq<Play>, onlyPrint: bool, player: seq<string> -> int): seq<Action>
    decreases |plays|
  {
    if |plays| == 0 then []
    else PlayActions(plays[..|plays| - 1], onlyPrint, player) + [PlayAction(plays[|plays| - 1], onlyPrint, player)]
  }

  /** The actions of two lists of plays in a row are the actions of the
      first followed by those of the second. */
  lemma {:induction false} PlayActionsConcat(a: seq<Play>, b: seq<Play>, onlyPrint: bool, player: seq<string> -> int)
    ensures PlayActions(a + b, onlyPrint, player) == PlayActions(a, onlyPrint, player) + PlayActions(b, onlyPrint, player)
    decreases |b|
  {
    if |b| == 0 {
      assert a + b == a;
    } else {
      var n := |b| - 1;
      assert (a + b)[..|a + b| - 1] == a + b[..n];
      PlayActionsConcat(a, b[..n], onlyPrint, player);
    }
  }

  /** The loop over the exclusions in `play_all_podcasts`: whether an
      entry is played. */
  method Decide(item: Item, args: Args) returns (play: bool)
    ensures play == WillPlay(item, args)
  {
    play := true;
    if !(args.fromHour <= item.hora <= args.toHour) {
      play := false;
    } else {
      var k := 0;
      while k < |args.excludes|
        invariant 0 <= k <= |args.excludes|
        invariant forall j :: 0 <= j < k ==> !ExclusionHits(args.excludes[j], item)
      {
        var exc := args.excludes[k];
        if (IsInt(exc) && IntValue(exc) == item.hora) || Contains(item.title, exc) {
          play := false;
          break;
        }
        k := k + 1;
      }
    }
  }

  /** The value `mplayer_process` holds after the plays: the exit code of
      the last run, or what it held before when nothing ran. */
  function LastRun(before: Option<int>, plays: seq<Play>, onlyPrint: bool, player: seq<string> -> int): Option<int> {
    if onlyPrint || |plays| == 0 then before else Some(player(LegacyCallArgs(plays[|plays| - 1])))
  }

  /** The list of a round: `get_podcasts_list(args.date)[done_last:]`. */
  function RoundSlice(list: Result<seq<Item>>, doneLast: nat): Result<seq<Item>> {
    match list
    case Err(e) => Err(e)
    case Ok(items) => Ok(Drop(items, doneLast))
  }

  /** The module-level state of the script. */
  class Script {
    /** What the last `subprocess.call` returned (an exit code). */
    var mplayerProcess: Option<int>

    constructor()
      ensures mplayerProcess == None
    {
      mplayerProcess := None;
    }

    /** `play_podcast`: print the command, or run it and keep its exit
        code. */
    method PlayPodcast(p: Play, onlyPrint: bool, player: seq<string> -> int) returns (action: Action)
      modifies this
      ensures action == PlayAction(p, onlyPrint, player)
      ensures mplayerProcess == (if onlyPrint then old(mplayerProcess) else Some(player(LegacyCallArgs(p))))
    {
      var callArgs := LegacyCallArgs(p);
      if onlyPrint {
        var printArgs := callArgs[..7] + [Quoted(p.item.link)];
        return Printed(printArgs);
      }
      var code := player(callArgs);
      mplayerProcess := Some(code);
      action := Played(callArgs, code);
    }

    /** The loop of `play_all_podcasts` over a round's slice: decide for
        each entry whether it is played, play it with its seek offset, and
        count every entry. */
    method PlayRound(slice: seq<Item>, doneLast: nat, args: Args, player: seq<string> -> int)
      returns (done: nat, plays: seq<Play>, actions: seq<Action>)
      modifies this
      ensures done == |slice|
      ensures plays == RoundPlays(slice, doneLast, args)
      ensures actions == PlayActions(plays, args.onlyPrint, player)
      ensures mplayerProcess == LastRun(old(mplayerProcess), plays, args.onlyPrint, player)
    {
      done := 0;
      plays := [];
      actions := [];
      while done < |slice|
        invariant 0 <= done <= |slice|
        invariant plays == Picks(slice[..done], doneLast, args.startFirst, Keep(args))
        invariant actions == PlayActions(plays, args.onlyPrint, player)
        invariant mplayerProcess == LastRun(old(mplayerProcess), plays, args.onlyPrint, player)
      {
        var item := slice[done];
        var play := Decide(item, args);
        assert Keep(args)(item) == play;
        PicksSnoc(slice, done, doneLast, args.startFirst, Keep(args));
        if play {
          var start := if done + doneLast == 0 then args.startFirst else "0";
          var p := Play(item, start);
          var action := PlayPodcast(p, args.onlyPrint, player);
          assert (plays + [p])[..|plays|] == plays;
          plays := plays + [p];
          actions := actions + [action];
        }
        done := done + 1;
      }
      assert slice[..done] == slice;
    }

    /** `play_all_podcasts`: list the day, skip the first `done_last`
        entries and play the rest; the count of entries walked, or the
        download failure that ends the program. */
    method PlayAllPodcasts(args: Args, doneLast: nat, feed: Feed, parseXml: string -> Option<seq<XmlItem>>,
                           player: seq<string> -> int)
      returns (r: Result<nat>, plays: seq<Play>, actions: seq<Action>)
      modifies this
      ensures var slice := RoundSlice(FeedList(args.date, feed, parseXml), doneLast);
              && (slice.Err? ==> r == Err(slice.error) && plays == [] && mplayerProcess == old(mplayerProcess))
              && (slice.Ok? ==> r == Ok(|slice.value|) && plays == RoundPlays(slice.value, doneLast, args) &&
                                mplayerProcess == LastRun(old(mplayerProcess), plays, args.onlyPrint, player))
      ensures actions == PlayActions(plays, args.onlyPrint, player)
    {
      var list := GetPodcastsList(args.date, feed, parseXml);
      if list.Err? {
        return Err(list.error), [], [];
      }
      var podcasts := Drop(list.value, doneLast);
      var done;
      done, plays, actions := PlayRound(podcasts, doneLast, args, player);
      r := Ok(done);
    }
  }
}
