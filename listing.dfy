/**
 * The listing side of the current version (Rac1/Rac1.py): scanning one
 * HTML search-results page for audio ids and page tokens
 * (`parse_rac1_data`) and walking every page of the day to collect the ids
 * without repetition (`get_audio_uuids`).
 *
 * The regular-expression substitution that reduces a marker line to
 * `data-name=value` is the parameter `extract`; the network is the
 * parameter `fetch`.
 */
module Listing {
  import opened Common
  import opened Text

  const AudioIdMarker: string := "data-audio-id"
  const PageMarker: string := "data-audioteca-search-page"

  predicate IsMarkerLine(line: string) {
    Contains(line, AudioIdMarker) || Contains(line, PageMarker)
  }

  /** The list comprehension that keeps the lines carrying either marker and
      rewrites each with `extract`. */
  function MarkerLines(lines: seq<string>, extract: string -> string): seq<string>
    decreases |lines|
  {
    if |lines| == 0 then []
    else
      var last := lines[|lines| - 1];
      MarkerLines(lines[..|lines| - 1], extract) + (if IsMarkerLine(last) then [extract(last)] else [])
  }

  /** The entries of `xs` that contain `marker`, in order. */
  function Having(xs: seq<string>, marker: string): seq<string>
    decreases |xs|
  {
    if |xs| == 0 then []
    else
      var last := xs[|xs| - 1];
      Having(xs[..|xs| - 1], marker) + (if Contains(last, marker) then [last] else [])
  }

  /** Every rewritten line comes from a marker line of the page. */
  lemma {:induction false} MarkerLinesFromPage(lines: seq<string>, extract: string -> string)
    ensures forall y :: y in MarkerLines(lines, extract) ==>
              exists k :: 0 <= k < |lines| && IsMarkerLine(lines[k]) && y == extract(lines[k])
    decreases |lines|
  {
    if |lines| > 0 {
      var init := lines[..|lines| - 1];
      var last := lines[|lines| - 1];
      MarkerLinesFromPage(init, extract);
      var m := MarkerLines(init, extract);
      assert MarkerLines(lines, extract) == m + (if IsMarkerLine(last) then [extract(last)] else []);
      forall y | y in MarkerLines(lines, extract)
        ensures exists k :: 0 <= k < |lines| && IsMarkerLine(lines[k]) && y == extract(lines[k])
      {
        if y in m {
          var k :| 0 <= k < |init| && IsMarkerLine(init[k]) && y == extract(init[k]);
          assert lines[k] == init[k];
        } else {
          assert IsMarkerLine(lines[|lines| - 1]) && y == extract(lines[|lines| - 1]);
        }
      }
    }
  }

  /** Every marker line of the page is rewritten into the result. */
  lemma {:induction false} MarkerLinesComplete(lines: seq<string>, extract: string -> string, k: nat)
    requires k < |lines| && IsMarkerLine(lines[k])
    ensures extract(lines[k]) in MarkerLines(lines, extract)
    decreases |lines|
  {
    var init := lines[..|lines| - 1];
    var last := lines[|lines| - 1];
    if k < |init| {
      MarkerLinesComplete(init, extract, k);
      assert lines[k] == init[k];
    }
    assert MarkerLines(lines, extract)
        == MarkerLines(init, extract) + (if IsMarkerLine(last) then [extract(last)] else []);
  }

  /** The marker lines of the page, in order, before they are rewritten. */
  function MarkerOnly(lines: seq<string>): seq<string>
    decreases |lines|
  {
    if |lines| == 0 then []
    else
      var last := lines[|lines| - 1];
      MarkerOnly(lines[..|lines| - 1]) + (if IsMarkerLine(last) then [last] else [])
  }

  /** Entry `k` of the result is the rewrite of marker line `k`. */
  lemma {:induction false} MarkerLinesAt(lines: seq<string>, extract: string -> string)
    ensures |MarkerLines(lines, extract)| == |MarkerOnly(lines)|
    ensures forall k :: 0 <= k < |MarkerOnly(lines)| ==> MarkerLines(lines, extract)[k] == extract(MarkerOnly(lines)[k])
    decreases |lines|
  {
    if |lines| > 0 {
      MarkerLinesAt(lines[..|lines| - 1], extract);
    }
  }

  /** A marker line is kept as many times as it occurs on the page. */
  lemma {:induction false} MarkerOnlyCounts(lines: seq<string>)
    ensures forall y :: multiset(MarkerOnly(lines))[y] == if IsMarkerLine(y) then multiset(lines)[y] else 0
    decreases |lines|
  {
    if |lines| > 0 {
      var init := lines[..|lines| - 1];
      MarkerOnlyCounts(init);
      assert lines == init + [lines[|lines| - 1]];
    }
  }

  /** The result is the rewrite of each marker line, one entry per marker
      line: a line that occurs several times is rewritten as often. */
  lemma MarkerLinesRewriteEach(lines: seq<string>, extract: string -> string)
    ensures |MarkerLines(lines, extract)| == |MarkerOnly(lines)|
    ensures forall k :: 0 <= k < |MarkerOnly(lines)| ==> MarkerLines(lines, extract)[k] == extract(MarkerOnly(lines)[k])
    ensures forall y :: multiset(MarkerOnly(lines))[y] == if IsMarkerLine(y) then multiset(lines)[y] else 0
  {
    MarkerLinesAt(lines, extract);
    MarkerOnlyCounts(lines);
  }

  /** Every line of the page rewritten with `extract`, marker or not. */
  function RewriteAll(lines: seq<string>, extract: string -> string): (r: seq<string>)
    ensures |r| == |lines| && forall k :: 0 <= k < |lines| ==> r[k] == extract(lines[k])
    decreases |lines|
  {
    if |lines| == 0 then [] else RewriteAll(lines[..|lines| - 1], extract) + [extract(lines[|lines| - 1])]
  }

  /** The rewritten lines keep the page's line order. */
  lemma {:induction false} MarkerLinesInOrder(lines: seq<string>, extract: string -> string)
    ensures IsSubseq(MarkerLines(lines, extract), RewriteAll(lines, extract))
    decreases |lines|
  {
    if |lines| > 0 {
      var init := lines[..|lines| - 1];
      var last := lines[|lines| - 1];
      MarkerLinesInOrder(init, extract);
      var m := MarkerLines(init, extract);
      var all := RewriteAll(lines, extract);
      assert all == RewriteAll(init, extract) + [extract(last)];
      assert all[..|all| - 1] == RewriteAll(init, extract);
      if !IsMarkerLine(last) {
        assert MarkerLines(lines, extract) == m;
        IsSubseqSnoc(m, RewriteAll(init, extract), extract(last));
      } else {
        var ml := m + [extract(last)];
        assert MarkerLines(lines, extract) == ml;
        assert ml[..|ml| - 1] == m;
      }
    }
  }

  /** `Having` keeps the entries that carry the marker, in order. */
  lemma {:induction false} HavingInOrder(xs: seq<string>, marker: string)
    ensures forall y :: y in Having(xs, marker) <==> y in xs && Contains(y, marker)
    ensures IsSubseq(Having(xs, marker), xs)
    decreases |xs|
  {
    if |xs| > 0 {
      var init := xs[..|xs| - 1];
      var last := xs[|xs| - 1];
      HavingInOrder(init, marker);
      assert xs == init + [last];
      var h := Having(init, marker);
      if Contains(last, marker) {
        assert Having(xs, marker) == h + [last];
        assert (h + [last])[..|h|] == h;
      } else {
        assert Having(xs, marker) == h;
        IsSubseqSnoc(h, init, last);
      }
    }
  }

  /** `Having` keeps each entry that carries the marker as many times as
      it occurs, and no other entry. */
  lemma {:induction false} HavingCounts(xs: seq<string>, marker: string)
    ensures forall y :: multiset(Having(xs, marker))[y] == if Contains(y, marker) then multiset(xs)[y] else 0
    decreases |xs|
  {
    if |xs| > 0 {
      var init := xs[..|xs| - 1];
      HavingCounts(init, marker);
      assert xs == init + [xs[|xs| - 1]];
    }
  }

  /** `Having` keeps exactly the entries that carry the marker, in order,
      each as many times as it occurs. */
  lemma HavingSpec(xs: seq<string>, marker: string)
    ensures forall y :: y in Having(xs, marker) <==> y in xs && Contains(y, marker)
    ensures forall y :: multiset(Having(xs, marker))[y] == if Contains(y, marker) then multiset(xs)[y] else 0
    ensures IsSubseq(Having(xs, marker), xs)
  {
    HavingInOrder(xs, marker);
    HavingCounts(xs, marker);
  }

  /** The lines of the page, as `data.split(b'\n')` gives them. */
  function Lines(data: string): seq<string> {
    Split(data, '\n')
  }

  /** The (not yet deduplicated) `data-audio-id=...` entries of a page. */
  function RawIds(data: string, extract: string -> string): seq<string> {
    Having(MarkerLines(Lines(data), extract), AudioIdMarker)
  }

  /** The page-token entries of a page. */
  function PageTokens(data: string, extract: string -> string): seq<string> {
    Having(MarkerLines(Lines(data), extract), PageMarker)
  }

  /** The deduplicated id list that `parse_rac1_data` returns. */
  function ScanIds(data: string, extract: string -> string): seq<string> {
    Merge([], RawIds(data, extract))
  }

  /** The id list of one page has no repetition, holds exactly the id
      entries of the page, each with the marker, in the order in which they
      first appear. */
  lemma ScanIdsSpec(data: string, extract: string -> string)
    ensures NoDup(ScanIds(data, extract))
    ensures forall y :: y in ScanIds(data, extract) <==> y in RawIds(data, extract)
    ensures forall y :: y in ScanIds(data, extract) ==> Contains(y, AudioIdMarker)
    ensures forall i, j :: 0 <= i < j < |ScanIds(data, extract)| ==>
              IndexOf(RawIds(data, extract), ScanIds(data, extract)[i]) <
              IndexOf(RawIds(data, extract), ScanIds(data, extract)[j])
  {
    var raw := RawIds(data, extract);
    MergeNoDup([], raw);
    MergeElements([], raw);
    MergeFirstSeenOrder(raw);
    HavingSpec(MarkerLines(Lines(data), extract), AudioIdMarker);
  }

  /** Every page-token entry carries the page marker, and the entries keep
      the order of the page's lines. */
  lemma PageTokensSpec(data: string, extract: string -> string)
    ensures forall y :: y in PageTokens(data, extract) ==> Contains(y, PageMarker)
    ensures forall y :: multiset(PageTokens(data, extract))[y] ==
              if Contains(y, PageMarker) then multiset(MarkerLines(Lines(data), extract))[y] else 0
    ensures IsSubseq(PageTokens(data, extract), MarkerLines(Lines(data), extract))
  {
    HavingSpec(MarkerLines(Lines(data), extract), PageMarker);
  }

  /** The loop "for x in xs: if x not in acc: acc.append(x)". */
  method AppendUnseen(acc: seq<string>, xs: seq<string>) returns (r: seq<string>)
    ensures r == Merge(acc, xs)
  {
    r := acc;
    var i := 0;
    while i < |xs|
      invariant 0 <= i <= |xs|
      invariant r == Merge(acc, xs[..i])
    {
      assert xs[..i + 1][..i] == xs[..i];
      if xs[i] !in r {
        r := r + [xs[i]];
      }
      i := i + 1;
    }
    assert xs[..|xs|] == xs;
  }

  /** `parse_rac1_data`: the deduplicated audio-id entries and the page-token
      entries of one page. */
  method ParseRac1Data(data: string, extract: string -> string) returns (ids: seq<string>, pages: seq<string>)
    ensures ids == ScanIds(data, extract)
    ensures pages == PageTokens(data, extract)
  {
    var list := MarkerLines(Lines(data), extract);
    var audioUuidList := Having(list, AudioIdMarker);
    pages := Having(list, PageMarker);
    ids := AppendUnseen([], audioUuidList);
  }

  /** Python's `_, p = page.split('=')`: the token must have exactly one
      `=`, otherwise the unpacking raises. */
  function PageNumber(token: string): (r: Result<string>)
    ensures r.Ok? ==> '=' !in r.value && token == BeforeFirst(token, '=') + "=" + r.value
  {
    var parts := Split(token, '=');
    if |parts| == 2 then
      JoinSplit(token, '=');
      Ok(parts[1])
    else Err(Malformed("page"))
  }

  /** A token without `=` is refused. */
  lemma PageNumberRefused(token: string)
    requires '=' !in token
    ensures PageNumber(token) == Err(Malformed("page"))
  {
    SplitWhole(token, '=');
  }

  /** A token `name=value` whose name has no `=` is accepted exactly when the
      value has none either, and then the value is the page number. */
  lemma PageNumberOf(name: string, value: string)
    requires '=' !in name
    ensures PageNumber(name + "=" + value).Ok? <==> '=' !in value
    ensures '=' !in value ==> PageNumber(name + "=" + value) == Ok(value)
  {
    assert name + "=" + value == name + ['='] + value;
    SplitAround(name, '=', value);
    SplitWhole(name, '=');
    SplitHasSeparator(value, '=');
    if '=' !in value {
      SplitWhole(value, '=');
    }
  }

  /** `pages_list[1:]`: every token but the first. */
  function LaterTokens(tokens: seq<string>): seq<string> {
    if |tokens| == 0 then [] else tokens[1..]
  }

  /** The body of the listing page a token names, or the failure that stops
      the walk there. */
  function FetchPage(date: string, token: string, fetch: Fetch): Result<string> {
    var p :- PageNumber(token);
    var resp := fetch(ListingPage(date, p));
    if resp.status != 200 then Err(Download(resp.status)) else Ok(resp.body)
  }

  /** The bodies of the pages the tokens name, fetched in order; the first
      failure wins. */
  function FetchPages(date: string, tokens: seq<string>, fetch: Fetch): Result<seq<string>>
    decreases |tokens|
  {
    if |tokens| == 0 then Ok([])
    else
      var body :- FetchPage(date, tokens[0], fetch);
      var rest :- FetchPages(date, tokens[1..], fetch);
      Ok([body] + rest)
  }

  /** The id list after merging in the ids of each later page in turn. */
  function MergePages(acc: seq<string>, bodies: seq<string>, extract: string -> string): seq<string>
    decreases |bodies|
  {
    if |bodies| == 0 then acc else MergePages(Merge(acc, ScanIds(bodies[0], extract)), bodies[1..], extract)
  }

  function FirstPage(date: string): Request {
    ListingPage(date, "0")
  }

  /** The `data-audio-id=...` entries of the whole day, before the key is
      stripped: the first page's ids followed by the unseen ids of each later
      page. */
  function CollectIds(date: string, fetch: Fetch, extract: string -> string): Result<seq<string>> {
    var first := fetch(FirstPage(date));
    if first.status != 200 then Err(Download(first.status))
    else
      var bodies :- FetchPages(date, LaterTokens(PageTokens(first.body, extract)), fetch);
      Ok(MergePages(ScanIds(first.body, extract), bodies, extract))
  }

  /** `[varval.split('=')[1] for varval in ...]`: the value after the first
      `=`; an entry without `=` raises. */
  function StripKeys(varvals: seq<string>): (r: Result<seq<string>>)
    ensures r.Ok? ==> (|r.value| == |varvals| &&
              forall i :: 0 <= i < |varvals| ==>
                |Split(varvals[i], '=')| >= 2 && r.value[i] == Split(varvals[i], '=')[1])
    ensures r.Err? <==> exists i :: 0 <= i < |varvals| && '=' !in varvals[i]
    decreases |varvals|
  {
    if |varvals| == 0 then Ok([])
    else
      var parts := Split(varvals[0], '=');
      SplitHasSeparator(varvals[0], '=');
      if |parts| < 2 then
        Err(Malformed("audio id"))
      else
        var rest :- StripKeys(varvals[1..]);
        Ok([parts[1]] + rest)
  }

  /** `get_audio_uuids`: the day's audio ids, or the failure that ends the
      program. */
  function AudioUuids(date: string, fetch: Fetch, extract: string -> string): Result<seq<string>> {
    var varvals :- CollectIds(date, fetch, extract);
    StripKeys(varvals)
  }

  /** Merging page after page is one first-seen deduplication of all the
      pages' ids together. */
  lemma {:induction false} MergePagesIsMerge(acc: seq<string>, bodies: seq<string>, extract: string -> string)
    ensures MergePages(acc, bodies, extract) ==
              Merge(acc, Flatten(seq(|bodies|, i requires 0 <= i < |bodies| => RawIds(bodies[i], extract))))
    decreases |bodies|
  {
    var raws := seq(|bodies|, i requires 0 <= i < |bodies| => RawIds(bodies[i], extract));
    if |bodies| > 0 {
      var tail := bodies[1..];
      var rawsTail := seq(|tail|, i requires 0 <= i < |tail| => RawIds(tail[i], extract));
      assert raws[1..] == rawsTail;
      MergePagesIsMerge(Merge(acc, ScanIds(bodies[0], extract)), tail, extract);
      MergeAbsorbs(acc, [], RawIds(bodies[0], extract));
      assert [] + RawIds(bodies[0], extract) == raws[0];
      MergeConcat(acc, raws[0], Flatten(rawsTail));
    }
  }

  /** What the walk promises: the first page's ids are kept as a prefix in
      their order; the whole list has no repetition; and it is exactly the
      first-seen deduplication of the id entries of all pages, first page
      first. */
  lemma CollectIdsSpec(date: string, fetch: Fetch, extract: string -> string)
    requires CollectIds(date, fetch, extract).Ok?
    ensures var first := fetch(FirstPage(date)).body;
            var ids := CollectIds(date, fetch, extract).value;
            var bodies := FetchPages(date, LaterTokens(PageTokens(first, extract)), fetch).value;
            && |ScanIds(first, extract)| <= |ids|
            && ids[..|ScanIds(first, extract)|] == ScanIds(first, extract)
            && NoDup(ids)
            && ids == Merge([], Flatten([RawIds(first, extract)] +
                         seq(|bodies|, i requires 0 <= i < |bodies| => RawIds(bodies[i], extract))))
  {
    var first := fetch(FirstPage(date)).body;
    var bodies := FetchPages(date, LaterTokens(PageTokens(first, extract)), fetch).value;
    var ids0 := ScanIds(first, extract);
    var raws := seq(|bodies|, i requires 0 <= i < |bodies| => RawIds(bodies[i], extract));
    MergePagesIsMerge(ids0, bodies, extract);
    MergeExtends(ids0, Flatten(raws));
    ScanIdsSpec(first, extract);
    MergeNoDup(ids0, Flatten(raws));
    MergeAbsorbs([], [], RawIds(first, extract));
    assert [] + RawIds(first, extract) == RawIds(first, extract);
    MergeConcat([], RawIds(first, extract), Flatten(raws));
    assert Flatten([RawIds(first, extract)] + raws) == RawIds(first, extract) + Flatten(raws) by {
      assert ([RawIds(first, extract)] + raws)[1..] == raws;
    }
  }

  /** `Then(bodies, r)`: the bodies already fetched followed by the outcome
      of fetching the rest. */
  function Then(bodies: seq<string>, r: Result<seq<string>>): Result<seq<string>> {
    match r
    case Ok(rest) => Ok(bodies + rest)
    case Err(e) => Err(e)
  }

  lemma FetchPagesStep(date: string, tokens: seq<string>, i: nat, bodies: seq<string>, body: string, fetch: Fetch)
    requires i < |tokens| && FetchPage(date, tokens[i], fetch) == Ok(body)
    ensures Then(bodies, FetchPages(date, tokens[i..], fetch)) ==
              Then(bodies + [body], FetchPages(date, tokens[i + 1..], fetch))
  {
    var t := tokens[i..];
    assert t[0] == tokens[i] && t[1..] == tokens[i + 1..];
    match FetchPages(date, tokens[i + 1..], fetch)
    case Ok(rest) =>
      assert FetchPages(date, t, fetch) == Ok([body] + rest);
      assert bodies + ([body] + rest) == (bodies + [body]) + rest;
    case Err(e) =>
  }

  lemma FetchPagesFail(date: string, tokens: seq<string>, i: nat, bodies: seq<string>, fetch: Fetch)
    requires i < |tokens| && FetchPage(date, tokens[i], fetch).Err?
    ensures Then(bodies, FetchPages(date, tokens[i..], fetch)) == Err(FetchPage(date, tokens[i], fetch).error)
  {
    assert tokens[i..][0] == tokens[i];
  }

  /** Fetching the later pages fails exactly when one of them fails. */
  lemma {:induction false} FetchPagesFails(date: string, tokens: seq<string>, fetch: Fetch)
    ensures FetchPages(date, tokens, fetch).Err? <==>
              exists i :: 0 <= i < |tokens| && FetchPage(date, tokens[i], fetch).Err?
    decreases |tokens|
  {
    if |tokens| > 0 {
      FetchPagesFails(date, tokens[1..], fetch);
      if exists i :: 0 <= i < |tokens[1..]| && FetchPage(date, tokens[1..][i], fetch).Err? {
        var i :| 0 <= i < |tokens[1..]| && FetchPage(date, tokens[1..][i], fetch).Err?;
        assert tokens[1..][i] == tokens[i + 1];
      }
      forall i | 1 <= i < |tokens|
        ensures tokens[i] == tokens[1..][i - 1]
      {
      }
    }
  }

  /** The failure is that of the first page that fails: every page before
      it was fetched. */
  lemma {:induction false} FetchPagesFirstFailure(date: string, tokens: seq<string>, fetch: Fetch, i: nat)
    requires i < |tokens| && FetchPage(date, tokens[i], fetch).Err?
    requires forall j :: 0 <= j < i ==> FetchPage(date, tokens[j], fetch).Ok?
    ensures FetchPages(date, tokens, fetch) == Err(FetchPage(date, tokens[i], fetch).error)
    decreases i
  {
    if i > 0 {
      assert FetchPage(date, tokens[0], fetch).Ok?;
      assert tokens[1..][i - 1] == tokens[i];
      forall j | 0 <= j < i - 1
        ensures FetchPage(date, tokens[1..][j], fetch).Ok?
      {
        assert tokens[1..][j] == tokens[j + 1];
      }
      FetchPagesFirstFailure(date, tokens[1..], fetch, i - 1);
    }
  }

  /** A first page that does not return 200 ends the walk with that status. */
  lemma FirstPageFails(date: string, fetch: Fetch, extract: string -> string)
    requires fetch(FirstPage(date)).status != 200
    ensures AudioUuids(date, fetch, extract) == Err(Download(fetch(FirstPage(date)).status))
  {
  }

  /** A later page that fails, after every earlier later page was fetched,
      ends the walk with its failure: a status other than 200 when its token
      gives a page number, and the malformed token otherwise. */
  lemma LaterPageFails(date: string, fetch: Fetch, extract: string -> string, i: nat)
    requires fetch(FirstPage(date)).status == 200
    requires i < |LaterTokens(PageTokens(fetch(FirstPage(date)).body, extract))|
    requires FetchPage(date, LaterTokens(PageTokens(fetch(FirstPage(date)).body, extract))[i], fetch).Err?
    requires forall j :: 0 <= j < i ==>
               FetchPage(date, LaterTokens(PageTokens(fetch(FirstPage(date)).body, extract))[j], fetch).Ok?
    ensures var token := LaterTokens(PageTokens(fetch(FirstPage(date)).body, extract))[i];
            && AudioUuids(date, fetch, extract) == Err(FetchPage(date, token, fetch).error)
            && (PageNumber(token).Ok? ==>
                  AudioUuids(date, fetch, extract) == Err(Download(fetch(ListingPage(date, PageNumber(token).value)).status)))
  {
    var tokens := LaterTokens(PageTokens(fetch(FirstPage(date)).body, extract));
    FetchPagesFirstFailure(date, tokens, fetch, i);
  }

  /** The request issued for each later page token, in order. */
  predicate IssuedFor(date: string, tokens: seq<string>, requests: seq<Request>) {
    && |requests| == |tokens|
    && forall k :: 0 <= k < |tokens| ==>
         PageNumber(tokens[k]).Ok? && requests[k] == ListingPage(date, PageNumber(tokens[k]).value)
  }

  lemma IssuedForSnoc(date: string, tokens: seq<string>, i: nat, requests: seq<Request>, p: string)
    requires i < |tokens| && IssuedFor(date, tokens[..i], requests) && PageNumber(tokens[i]) == Ok(p)
    ensures IssuedFor(date, tokens[..i + 1], requests + [ListingPage(date, p)])
  {
    assert tokens[..i + 1] == tokens[..i] + [tokens[i]];
  }

  /** The loop of `get_audio_uuids` over the later page tokens: fetch each
      page, stop at the first failure, and append the page's unseen ids.
      Also returns the requests issued. */
  method MergeLaterPages(date: string, tokens: seq<string>, acc: seq<string>, fetch: Fetch, extract: string -> string)
    returns (r: Result<seq<string>>, requests: seq<Request>)
    ensures FetchPages(date, tokens, fetch).Ok? ==> r == Ok(MergePages(acc, FetchPages(date, tokens, fetch).value, extract))
    ensures FetchPages(date, tokens, fetch).Err? ==> r == Err(FetchPages(date, tokens, fetch).error)
    ensures r.Ok? ==> IssuedFor(date, tokens, requests)
  {
    var audioUuidList := acc;
    ghost var bodies: seq<string> := [];
    requests := [];
    var i := 0;
    assert tokens[0..] == tokens;
    match FetchPages(date, tokens, fetch) {
      case Ok(rest) => assert [] + rest == rest;
      case Err(_) =>
    }
    while i < |tokens|
      invariant 0 <= i <= |tokens|
      invariant FetchPages(date, tokens, fetch) == Then(bodies, FetchPages(date, tokens[i..], fetch))
      invariant audioUuidList == MergePages(acc, bodies, extract)
      invariant IssuedFor(date, tokens[..i], requests)
    {
      var p := PageNumber(tokens[i]);
      if p.Err? {
        FetchPagesFail(date, tokens, i, bodies, fetch);
        assert FetchPages(date, tokens, fetch) == Err(p.error);
        return Err(p.error), requests;
      }
      var resp := fetch(ListingPage(date, p.value));
      IssuedForSnoc(date, tokens, i, requests, p.value);
      requests := requests + [ListingPage(date, p.value)];
      if resp.status != 200 {
        assert FetchPage(date, tokens[i], fetch) == Err(Download(resp.status));
        FetchPagesFail(date, tokens, i, bodies, fetch);
        assert FetchPages(date, tokens, fetch) == Err(Download(resp.status));
        return Err(Download(resp.status)), requests;
      }
      var audioUuidListPage, _ := ParseRac1Data(resp.body, extract);
      audioUuidList := AppendUnseen(audioUuidList, audioUuidListPage);
      assert FetchPage(date, tokens[i], fetch) == Ok(resp.body);
      FetchPagesStep(date, tokens, i, bodies, resp.body, fetch);
      MergePagesSnoc(acc, bodies, resp.body, extract);
      bodies := bodies + [resp.body];
      i := i + 1;
    }
    assert tokens[..i] == tokens;
    assert tokens[i..] == [];
    assert bodies + [] == bodies;
    assert FetchPages(date, tokens, fetch) == Ok(bodies);
    r := Ok(audioUuidList);
  }

  /** `get_audio_uuids`. Besides the ids it returns the requests it issued:
      on success, the first page and then one request per later page token,
      so exactly `len(pages_list) - 1` extra pages when there are tokens. */
  method GetAudioUuids(date: string, fetch: Fetch, extract: string -> string)
    returns (r: Result<seq<string>>, requests: seq<Request>)
    ensures r == AudioUuids(date, fetch, extract)
    ensures r.Ok? ==>
              var tokens := PageTokens(fetch(FirstPage(date)).body, extract);
              && (forall i :: 0 <= i < |LaterTokens(tokens)| ==> PageNumber(LaterTokens(tokens)[i]).Ok?)
              && |requests| >= 1 && requests[0] == FirstPage(date)
              && IssuedFor(date, LaterTokens(tokens), requests[1..])
              && |requests| == (if |tokens| == 0 then 1 else |tokens|)
  {
    var first := fetch(FirstPage(date));
    if first.status != 200 {
      return Err(Download(first.status)), [FirstPage(date)];
    }
    var audioUuidList, pagesList := ParseRac1Data(first.body, extract);
    var merged, later := MergeLaterPages(date, LaterTokens(pagesList), audioUuidList, fetch, extract);
    requests := [FirstPage(date)] + later;
    if merged.Err? {
      return Err(merged.error), requests;
    }
    r := StripKeys(merged.value);
  }

  lemma {:induction false} MergePagesSnoc(acc: seq<string>, bodies: seq<string>, body: string, extract: string -> string)
    ensures MergePages(acc, bodies + [body], extract) == Merge(MergePages(acc, bodies, extract), ScanIds(body, extract))
    decreases |bodies|
  {
    if |bodies| > 0 {
      assert (bodies + [body])[1..] == bodies[1..] + [body];
      MergePagesSnoc(Merge(acc, ScanIds(bodies[0], extract)), bodies[1..], body, extract);
    }
  }
}
