/**
 * Resolving the day's audio ids into podcasts in the current version
 * (Rac1/Rac1.py): `get_podcast_data` downloads the JSON record of one audio
 * and derives its hour; `get_podcasts_list` resolves every id of the day and
 * reverses the list.
 *
 * `json.loads` and the key lookups on its result are the parameter
 * `decode`, which yields the fields the pipeline reads, or nothing when the
 * body is not such a record.
 */
module Episodes {
  import opened Common
  import opened Text
  import opened Listing

  /** The fields of the decoded JSON record that the pipeline reads:
      `audio.title`, `audio.time`, `audio.date`, `path` and
      `durationSeconds`. */
  datatype Record = Record(title: string, time: string, date: string, path: string, durationSeconds: int)

  /** The `audio` part of a podcast, with the derived `hour`. */
  datatype Audio = Audio(title: string, time: string, date: string, hour: int)

  /** A resolved podcast, as `get_podcast_data` returns it. */
  datatype Podcast = Podcast(audio: Audio, path: string, durationSeconds: int)

  /** `int(time.split(':')[0])`: the integer before the first colon. */
  function HourOf(time: string): Result<int> {
    ToInt(BeforeFirst(time, ':'), "time")
  }

  /** The hour of a `HH:MM` text is the integer written before the colon,
      and a time whose hour part is not an integer is refused. */
  lemma HourOfTime(pre: string, rest: string)
    requires ':' !in pre
    ensures HourOf(pre + ":" + rest).Ok? <==> IsInt(pre)
    ensures IsInt(pre) ==> HourOf(pre + ":" + rest).value == IntValue(pre)
  {
    BeforeFirstOf(pre, ':', rest);
    assert pre + ":" + rest == pre + [':'] + rest;
  }

  /** Writing an hour before the colon and reading it back gives the hour. */
  lemma HourOfWritten(h: int, rest: string)
    ensures HourOf(IntToString(h) + ":" + rest) == Ok(h)
  {
    IntToStringRoundTrip(h);
    IntToStringChars(h);
    HourOfTime(IntToString(h), rest);
  }

  /** `get_podcast_data`: download the record of one audio, decode it and
      derive its hour. */
  function PodcastData(uuid: string, fetch: Fetch, decode: string -> Option<Record>): (r: Result<Podcast>)
    ensures var resp := fetch(AudioPiece(uuid));
            r.Ok? <==> resp.status == 200 && decode(resp.body).Some? && HourOf(decode(resp.body).value.time).Ok?
    ensures fetch(AudioPiece(uuid)).status != 200 ==> r == Err(Download(fetch(AudioPiece(uuid)).status))
    ensures r.Ok? ==>
              var rec := decode(fetch(AudioPiece(uuid)).body).value;
              && r.value.audio == Audio(rec.title, rec.time, rec.date, HourOf(rec.time).value)
              && r.value.path == rec.path && r.value.durationSeconds == rec.durationSeconds
  {
    var resp := fetch(AudioPiece(uuid));
    if resp.status != 200 then Err(Download(resp.status))
    else
      match decode(resp.body)
      case None => Err(Malformed("json"))
      case Some(rec) =>
        var hour :- HourOf(rec.time);
        Ok(Podcast(Audio(rec.title, rec.time, rec.date, hour), rec.path, rec.durationSeconds))
  }

  /** `[get_podcast_data(uuid) for uuid in uuids]`: every id resolved in
      order; the first failure ends the program. */
  function ResolveAll(uuids: seq<string>, fetch: Fetch, decode: string -> Option<Record>): (r: Result<seq<Podcast>>)
    ensures r.Ok? ==> (|r.value| == |uuids| &&
              forall i :: 0 <= i < |uuids| ==> PodcastData(uuids[i], fetch, decode) == Ok(r.value[i]))
    ensures r.Err? ==>
              exists i :: (0 <= i < |uuids| && PodcastData(uuids[i], fetch, decode) == Err(r.error) &&
                           forall j :: 0 <= j < i ==> PodcastData(uuids[j], fetch, decode).Ok?)
    ensures r.Err? <==> exists i :: 0 <= i < |uuids| && PodcastData(uuids[i], fetch, decode).Err?
  {
    var resolve := (uuid: string) => PodcastData(uuid, fetch, decode);
    MapAllFails(uuids, resolve);
    MapAll(uuids, resolve)
  }

  /** `get_podcasts_list`: the day's podcasts, resolved in listing order and
      then reversed. */
  function PodcastsList(date: string, fetch: Fetch, extract: string -> string, decode: string -> Option<Record>)
    : Result<seq<Podcast>>
  {
    var uuids :- AudioUuids(date, fetch, extract);
    var podcasts :- ResolveAll(uuids, fetch, decode);
    Ok(Reversed(podcasts))
  }

  /** The list holds one podcast per audio id of the day, the last id's
      first: the same length and the same podcasts as the resolved list, in
      reverse order. */
  lemma PodcastsListReversed(date: string, fetch: Fetch, extract: string -> string, decode: string -> Option<Record>)
    requires PodcastsList(date, fetch, extract, decode).Ok?
    ensures var uuids := AudioUuids(date, fetch, extract).value;
            var ps := PodcastsList(date, fetch, extract, decode).value;
            && |ps| == |uuids|
            && (forall i :: 0 <= i < |ps| ==> PodcastData(uuids[|uuids| - 1 - i], fetch, decode) == Ok(ps[i]))
            && multiset(ps) == multiset(ResolveAll(uuids, fetch, decode).value)
            && Reversed(ps) == ResolveAll(uuids, fetch, decode).value
  {
    var resolved := ResolveAll(AudioUuids(date, fetch, extract).value, fetch, decode).value;
    ReversedSameElements(resolved);
    ReversedTwice(resolved);
  }

  /** `get_podcasts_list`, issuing the listing requests through
      `get_audio_uuids`. */
  method GetPodcastsList(date: string, fetch: Fetch, extract: string -> string, decode: string -> Option<Record>)
    returns (r: Result<seq<Podcast>>)
    ensures r == PodcastsList(date, fetch, extract, decode)
  {
    var uuids, _ := GetAudioUuids(date, fetch, extract);
    if uuids.Err? {
      return Err(uuids.error);
    }
    var podcasts := ResolveAll(uuids.value, fetch, decode);
    if podcasts.Err? {
      return Err(podcasts.error);
    }
    r := Ok(Reversed(podcasts.value));
  }
}
