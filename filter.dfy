/**
 * Choosing what to play in the current version (Rac1/Rac1.py):
 * `filter_podcasts_list` keeps the podcasts of the requested day whose hour
 * is inside the window and that no exclusion matches, and sets the seek
 * offset of each kept podcast; `parse_my_args` turns the `-x` arguments
 * into the flat exclusion list the filter reads.
 *
 * `normalize_encoding_upper` (Unicode NFKD followed by upper-casing) is the
 * parameter `normalize`.
 */
module Filter {
  import opened Common
  import opened Text
  import opened Episodes

  /** A podcast the filter kept, with the `start` value it set: the seek
      offset handed to the player. */
  datatype Scheduled = Scheduled(podcast: Podcast, start: string)

  /** `'-'.join(date.split('/')[::-1])`: `DD/MM/YYYY` written as the
      `YYYY-MM-DD` that the audio records carry. */
  function TargetDate(date: string): string {
    Join(Reversed(Split(date, '/')), '-')
  }

  /** A `DD/MM/YYYY` date becomes `YYYY-MM-DD`. */
  lemma TargetDateOf(d: string, m: string, y: string)
    requires '/' !in d && '/' !in m && '/' !in y
    ensures TargetDate(d + "/" + m + "/" + y) == y + "-" + m + "-" + d
  {
    var parts := [d, m, y];
    assert Join(parts[2..], '/') == y;
    assert Join(parts[1..], '/') == m + "/" + y;
    assert Join(parts, '/') == d + "/" + m + "/" + y;
    SplitJoin(parts, '/');
    var rp := Reversed(parts);
    assert rp == [y, m, d];
    assert Join(rp[2..], '-') == d;
    assert Join(rp[1..], '-') == m + "-" + d;
  }

  /** Nothing is lost: reversing the `-` fields of the result and joining
      them with `/` gives back the date, for any date without `-`. */
  lemma TargetDateInverse(date: string)
    requires '-' !in date
    ensures Join(Reversed(Split(TargetDate(date), '-')), '/') == date
  {
    var parts := Split(date, '/');
    SplitPiecesWithout(date, '/', '-');
    var rp := Reversed(parts);
    assert forall i :: 0 <= i < |rp| ==> '-' !in rp[i];
    SplitJoin(rp, '-');
    ReversedTwice(parts);
    JoinSplit(date, '/');
  }

  /** One exclusion entry matches a podcast: an integer entry equal to its
      hour, or any entry occurring in its normalised title. */
  predicate ExclusionMatches(exc: string, p: Podcast, normalize: string -> string) {
    (IsInt(exc) && IntValue(exc) == p.audio.hour) || Contains(normalize(p.audio.title), exc)
  }

  /** The filter keeps a podcast of the target day, inside the inclusive
      hour window, that no exclusion entry matches. */
  predicate Playable(p: Podcast, target: string, args: Args, normalize: string -> string) {
    && p.audio.date == target
    && args.fromHour <= p.audio.hour <= args.toHour
    && forall k :: 0 <= k < |args.excludes| ==> !ExclusionMatches(args.excludes[k], p, normalize)
  }

  /** `int()` ignores the space a comma-separated `-x` list leaves before a
      number: the entry `" 12"` drops every podcast of hour 12. */
  lemma PaddedHourExcluded(p: Podcast, target: string, args: Args, normalize: string -> string, k: nat)
    requires k < |args.excludes| && args.excludes[k] == " 12" && p.audio.hour == 12
    ensures !Playable(p, target, args, normalize)
  {
    PaddedInt();
    assert ExclusionMatches(args.excludes[k], p, normalize);
  }

  /** The podcasts the filter keeps, in input order. */
  function Select(ps: seq<Podcast>, target: string, args: Args, normalize: string -> string): seq<Podcast>
    decreases |ps|
  {
    if |ps| == 0 then []
    else
      var last := ps[|ps| - 1];
      Select(ps[..|ps| - 1], target, args, normalize) + (if Playable(last, target, args, normalize) then [last] else [])
  }

  /** What `filter_podcasts_list` returns: each kept podcast with its
      `start`, which is `start_first` when nothing was kept before it and
      `0` otherwise. */
  function Filtered(ps: seq<Podcast>, target: string, args: Args, normalize: string -> string): seq<Scheduled>
    decreases |ps|
  {
    if |ps| == 0 then []
    else
      var kept := Filtered(ps[..|ps| - 1], target, args, normalize);
      var last := ps[|ps| - 1];
      if Playable(last, target, args, normalize)
      then kept + [Scheduled(last, if |kept| == 0 then args.startFirst else "0")]
      else kept
  }

  /** The kept podcasts are an order-preserving subsequence of the input;
      each of them is playable, and every playable input podcast is kept. */
  lemma {:induction false} SelectInOrder(ps: seq<Podcast>, target: string, args: Args, normalize: string -> string)
    ensures IsSubseq(Select(ps, target, args, normalize), ps)
    ensures forall p :: p in Select(ps, target, args, normalize) <==> p in ps && Playable(p, target, args, normalize)
    decreases |ps|
  {
    if |ps| > 0 {
      var init := ps[..|ps| - 1];
      var last := ps[|ps| - 1];
      SelectInOrder(init, target, args, normalize);
      assert ps == init + [last];
      var s := Select(init, target, args, normalize);
      if Playable(last, target, args, normalize) {
        assert Select(ps, target, args, normalize) == s + [last];
        assert (s + [last])[..|s|] == s;
      } else {
        assert Select(ps, target, args, normalize) == s;
        IsSubseqSnoc(s, init, last);
      }
    }
  }

  /** Each playable podcast is kept as many times as it occurs in the
      input, and no other podcast is kept. */
  lemma {:induction false} SelectCounts(ps: seq<Podcast>, target: string, args: Args, normalize: string -> string)
    ensures forall p :: multiset(Select(ps, target, args, normalize))[p] ==
              if Playable(p, target, args, normalize) then multiset(ps)[p] else 0
    decreases |ps|
  {
    if |ps| > 0 {
      var init := ps[..|ps| - 1];
      SelectCounts(init, target, args, normalize);
      assert ps == init + [ps[|ps| - 1]];
    }
  }

  /** The filter keeps, in input order, exactly the playable podcasts,
      each as many times as it occurs. */
  lemma SelectSpec(ps: seq<Podcast>, target: string, args: Args, normalize: string -> string)
    ensures IsSubseq(Select(ps, target, args, normalize), ps)
    ensures forall p :: p in Select(ps, target, args, normalize) <==> p in ps && Playable(p, target, args, normalize)
    ensures forall p :: multiset(Select(ps, target, args, normalize))[p] ==
              if Playable(p, target, args, normalize) then multiset(ps)[p] else 0
  {
    SelectInOrder(ps, target, args, normalize);
    SelectCounts(ps, target, args, normalize);
  }

  /** The filter output is the kept podcasts in order, the first one tagged
      with `start_first` and every other one with `0`. */
  lemma {:induction false} FilteredSpec(ps: seq<Podcast>, target: string, args: Args, normalize: string -> string)
    ensures |Filtered(ps, target, args, normalize)| == |Select(ps, target, args, normalize)|
    ensures forall i :: 0 <= i < |Filtered(ps, target, args, normalize)| ==>
              Filtered(ps, target, args, normalize)[i] ==
                Scheduled(Select(ps, target, args, normalize)[i], if i == 0 then args.startFirst else "0")
    decreases |ps|
  {
    if |ps| > 0 {
      FilteredSpec(ps[..|ps| - 1], target, args, normalize);
    }
  }

  /** Only the first kept podcast seeks: once `done_last` podcasts are
      behind, every podcast still to play starts at `0`. */
  lemma FilteredLaterStartAtZero(ps: seq<Podcast>, target: string, args: Args, normalize: string -> string, doneLast: nat)
    requires doneLast > 0
    ensures forall s :: s in Drop(Filtered(ps, target, args, normalize), doneLast) ==> s.start == "0"
  {
    var f := Filtered(ps, target, args, normalize);
    FilteredSpec(ps, target, args, normalize);
    forall s | s in Drop(f, doneLast) ensures s.start == "0" {
      var k :| 0 <= k < |Drop(f, doneLast)| && Drop(f, doneLast)[k] == s;
      assert s == f[doneLast + k];
    }
  }

  /** Every podcast the filter returns is playable: of the target day,
      inside the hour window, and matched by no exclusion entry. */
  lemma FilteredPlayable(ps: seq<Podcast>, target: string, args: Args, normalize: string -> string)
    ensures forall s :: s in Filtered(ps, target, args, normalize) ==>
              && s.podcast in ps
              && s.podcast.audio.date == target
              && args.fromHour <= s.podcast.audio.hour <= args.toHour
              && forall k :: 0 <= k < |args.excludes| ==> !ExclusionMatches(args.excludes[k], s.podcast, normalize)
  {
    var f := Filtered(ps, target, args, normalize);
    FilteredSpec(ps, target, args, normalize);
    SelectSpec(ps, target, args, normalize);
    forall s | s in f
      ensures s.podcast in ps && Playable(s.podcast, target, args, normalize)
    {
      var k :| 0 <= k < |f| && f[k] == s;
      assert s.podcast == Select(ps, target, args, normalize)[k];
    }
  }

  /** An empty exclusion entry (left by a trailing or doubled comma)
      occurs in every title, so it excludes everything. */
  lemma EmptyExclusionExcludesAll(p: Podcast, target: string, args: Args, normalize: string -> string)
    requires "" in args.excludes
    ensures !Playable(p, target, args, normalize)
  {
    var k :| 0 <= k < |args.excludes| && args.excludes[k] == "";
    assert StartsWith(normalize(p.audio.title), "");
  }

  /** The inner loop of `filter_podcasts_list`: it visits every exclusion
      entry (it does not stop at the first match) and reports whether any
      of them matched the podcast. */
  method MatchesSomeExclusion(podcast: Podcast, excludes: seq<string>, normalize: string -> string)
    returns (hit: bool)
    ensures hit <==> exists k :: 0 <= k < |excludes| && ExclusionMatches(excludes[k], podcast, normalize)
  {
    hit := false;
    var j := 0;
    while j < |excludes|
      invariant 0 <= j <= |excludes|
      invariant hit <==> exists k :: 0 <= k < j && ExclusionMatches(excludes[k], podcast, normalize)
    {
      var exc := excludes[j];
      if (IsInt(exc) && IntValue(exc) == podcast.audio.hour) || Contains(normalize(podcast.audio.title), exc) {
        hit := true;
      }
      j := j + 1;
    }
  }

  /** `filter_podcasts_list`: the loop over the podcasts, each checked
      against the date, the hour window and the exclusions. */
  method FilterPodcastsList(podcasts: seq<Podcast>, args: Args, normalize: string -> string)
    returns (r: seq<Scheduled>)
    ensures r == Filtered(podcasts, TargetDate(args.date), args, normalize)
  {
    r := [];
    var date := TargetDate(args.date);
    var i := 0;
    while i < |podcasts|
      invariant 0 <= i <= |podcasts|
      invariant r == Filtered(podcasts[..i], date, args, normalize)
    {
      var podcast := podcasts[i];
      var play := true;
      if date != podcast.audio.date {
        play := false;
      }
      if !(args.fromHour <= podcast.audio.hour <= args.toHour) {
        play := false;
      } else {
        var excluded := MatchesSomeExclusion(podcast, args.excludes, normalize);
        if excluded {
          play := false;
        }
      }
      assert play == Playable(podcast, date, args, normalize);
      if play {
        var start := if |r| == 0 then args.startFirst else "0";
        r := r + [Scheduled(podcast, start)];
      }
      assert podcasts[..i + 1][..i] == podcasts[..i];
      i := i + 1;
    }
    assert podcasts[..|podcasts|] == podcasts;
  }

  /** The entries one `-x` argument contributes: an integer verbatim, any
      other text normalised and split on commas. */
  function EntryPieces(exc: string, normalize: string -> string): seq<string> {
    if IsInt(exc) then [exc] else Split(normalize(exc), ',')
  }

  /** The exclusion list built from the `-x` arguments, in order. */
  function ExcludeEntries(entries: seq<string>, normalize: string -> string): seq<string> {
    ConcatMap(entries, exc => EntryPieces(exc, normalize))
  }

  /** An integer argument is kept as it was written; any other argument is
      cut at its commas into comma-free pieces that join back into its
      normalised text. */
  lemma EntryPiecesSpec(exc: string, normalize: string -> string)
    ensures IsInt(exc) ==> EntryPieces(exc, normalize) == [exc]
    ensures !IsInt(exc) ==>
              && Join(EntryPieces(exc, normalize), ',') == normalize(exc)
              && forall i :: 0 <= i < |EntryPieces(exc, normalize)| ==> ',' !in EntryPieces(exc, normalize)[i]
  {
    if !IsInt(exc) {
      JoinSplit(normalize(exc), ',');
    }
  }

  /** A name argument ending in a comma contributes an empty entry. */
  lemma TrailingCommaGivesEmptyEntry(exc: string, normalize: string -> string, t: string)
    requires !IsInt(exc) && normalize(exc) == t + ","
    ensures "" in EntryPieces(exc, normalize)
  {
    SplitAround(t, ',', "");
    assert t + "," == t + [','] + "";
    assert Split("", ',') == [""];
  }

  /** The exclusion list holds exactly the pieces of the arguments. */
  lemma ExcludeEntriesMembers(entries: seq<string>, normalize: string -> string)
    ensures forall x :: x in ExcludeEntries(entries, normalize) <==>
              exists i :: 0 <= i < |entries| && x in EntryPieces(entries[i], normalize)
  {
    ConcatMapMembers(entries, exc => EntryPieces(exc, normalize));
  }

  /** The normalisation loop of `parse_my_args` over the `-x` arguments. */
  method NormalizeExcludes(entries: seq<string>, normalize: string -> string) returns (excludes: seq<string>)
    ensures excludes == ExcludeEntries(entries, normalize)
  {
    excludes := [];
    var i := 0;
    while i < |entries|
      invariant 0 <= i <= |entries|
      invariant excludes == ExcludeEntries(entries[..i], normalize)
    {
      var exc := entries[i];
      if IsInt(exc) {
        excludes := excludes + [exc];
      } else {
        excludes := excludes + Split(normalize(exc), ',');
      }
      assert entries[..i + 1][..i] == entries[..i];
      i := i + 1;
    }
    assert entries[..|entries|] == entries;
  }
}
