# Rac1 podcast selection, modelled in Dafny

Rac1 is a command-line player for the podcasts of the Catalan radio station
Rac1. Given a day, an inclusive hour window, a list of exclusions (hours or
pieces of titles) and a seek offset for the first podcast, it lists the
day's podcasts and plays those that pass the filter, one after another,
with an external player (`mplayer`). It then lists the day again to catch
podcasts published while it was playing. It stops after a round that has
nothing new.

Two versions of the program are modelled:

- **The current version** (`Rac1/Rac1.py`, 1.0.3):
  - Listing: it walks the HTML search pages of the day, collecting audio ids without repeating any (`parse_rac1_data`, `get_audio_uuids`).
  - Resolving: it downloads each id's JSON record and derives its hour (`get_podcast_data`), then reverses the list (`get_podcasts_list`).
  - Filtering: it keeps the podcasts of the day that are inside the window and match no exclusion, and sets the first one's seek offset (`filter_podcasts_list`).
  - Playing: each kept podcast is printed or played (`play_podcast`, `play_all_podcasts`).
  - Re-polling: `main` filters again each round and skips the `done_last` podcasts already played.
- **The earlier version** (`Rac1.py`, 1.0.0):
  - Listing: it downloads an XML feed and derives one entry per `<item>` (`parse_my_xml`, `get_podcasts_list`).
  - Each round, `play_all_podcasts` skips the first `done_last` entries, walks the rest and plays those that pass the filter. It counts every entry it walks.
  - The `__main__` loop adds that count to `done_last`.
  - Its `parse_my_args` builds the exclusion list the same way as the current version (Rac1.py:122-136), so the module `Filter` covers both. Its filter matches exclusions against the derived title as it is, without normalising it.

Modules:

| module | file | what it holds |
|---|---|---|
| `Common` | `common.dfy` | `Option`/`Result`, the failures, the requests, the arguments, how a run stops; reversal, `s[n:]`, the "append if not already in" merge |
| `Text` | `text.dfy` | `in` on strings, `split`/`join`, `strip`, `isint`/`int`/`str` on decimal text |
| `Listing` | `listing.dfy` | `parse_rac1_data`, `get_audio_uuids` |
| `Episodes` | `episodes.dfy` | `get_podcast_data`, `get_podcasts_list` |
| `Filter` | `filter.dfy` | `filter_podcasts_list`, the `-x` splitting of `parse_my_args` |
| `Player` | `player.dfy` | `call_args`, the class `Rac1` with `play_podcast` and `play_all_podcasts` |
| `Polling` | `polling.dfy` | the re-poll loop of both versions, stated over each round's list |
| `Session` | `session.dfy` | `main` of the current version |
| `LegacyFeed` | `legacy_feed.dfy` | `parse_my_xml`, `get_podcasts_list` of 1.0.0 |
| `LegacyPlay` | `legacy_play.dfy` | `play_podcast`, `play_all_podcasts` of 1.0.0, with the module state `mplayer_process` as a class |
| `LegacySession` | `legacy_session.dfy` | the `__main__` loop of 1.0.0 |

Everything outside the program is a parameter:

- the network (`fetch`, one function per polling round);
- the regular-expression rewrite of a marker line (`extract`);
- `json.loads` (`decode`);
- `unicodedata` normalisation with upper-casing (`normalize`);
- `ElementTree` (`parseXml`);
- the player process (`player`, an argument vector to an exit code).

A call that ends the program (`exit(1)` after a failed download, or an
uncaught exception from `int()`, `split` unpacking or parsing) becomes an
`Err` of `Result`. The loops take a finite sequence of network snapshots,
one per round.

## Model

| member | source | states |
|---|---|---|
| Common.Reversed | Rac1/Rac1.py:356 | `[::-1]` keeps the length, and position `i` holds position `len - 1 - i` of the input |
| Common.ReversedTwice | Rac1/Rac1.py:356 | reversing twice gives the list back, so the reversal loses nothing |
| Common.ReversedSameElements | Rac1.py:240 | the reversed list holds the same entries with the same multiplicities |
| Common.Drop | Rac1/Rac1.py:530 | `s[n:]` has `len(s) - n` elements, or none once `n` passes the end; element `i` is `s[n + i]` |
| Common.MapAll | Rac1.py:217-237 | a per-item derivation in order: on success there is one result per item, each the item's own; on failure it is the failure of the first refused item, with every earlier item accepted |
| Common.MapAllFails | Rac1.py:217-237 | the derivation fails exactly when some item is refused |
| Common.ConcatMapMembers | Rac1/Rac1.py:162-170 | an entry is in the extended list exactly when it is a piece of one of the arguments |
| Common.MergeExtends | Rac1/Rac1.py:307-309 | appending unseen ids keeps the list built so far, unchanged, as a prefix |
| Common.MergeElements | Rac1/Rac1.py:267-270 | after the dedup loop an id is in the list exactly when it was there before or is in the input |
| Common.MergeNoDup | Rac1/Rac1.py:267-270 | the dedup loop never adds an id twice |
| Common.MergeConcat | Rac1/Rac1.py:291-309 | merging two lists of ids in a row is merging their concatenation |
| Common.MergeOfDistinct | Rac1/Rac1.py:267-270 | ids that are all new and all distinct are appended whole, in order |
| Common.MergeAbsorbs | Rac1/Rac1.py:304-309 | deduplicating a page's ids before merging them into the list changes nothing |
| Common.MergeFirstSeenOrder | Rac1/Rac1.py:267-270 | the deduplicated ids come from the input, ordered by their first occurrence in it |
| Text.ContainsAt | Rac1/Rac1.py:387 | `sub in s` holds whenever `sub` occurs at some position of `s` |
| Text.ContainsOccurs | Rac1/Rac1.py:387 | `sub in s` holds only when `sub` occurs at some position of `s` |
| Text.Split | Rac1/Rac1.py:170 | `split(c)` gives at least one piece and no piece contains `c` |
| Text.JoinSplit | Rac1/Rac1.py:170 | joining the pieces with the separator gives back the text |
| Text.SplitAround | Rac1/Rac1.py:170 | splitting `x + c + y` gives the pieces of `x` followed by the pieces of `y` |
| Text.SplitWhole | Rac1.py:232 | a text without the separator splits into itself alone |
| Text.SplitJoin | Rac1/Rac1.py:365 | splitting a join of separator-free pieces gives back the pieces |
| Text.SplitPiecesWithout | Rac1/Rac1.py:365 | a character absent from the text is absent from every piece |
| Text.SplitHasSeparator | Rac1/Rac1.py:294 | there is more than one piece exactly when the separator occurs |
| Text.BeforeFirst | Rac1/Rac1.py:332 | `split(c)[0]` is a prefix of the text without `c`, followed in the text by `c` or by its end |
| Text.BeforeFirstOf | Rac1/Rac1.py:332 | in `p + c + w` with `c` not in `p`, the part before the first `c` is `p` |
| Text.AfterLastOf | Rac1.py:228 | in `p + c + w` with `c` not in `w`, `split(c)[-1]` is `w` |
| Text.Strip | Rac1.py:232 | `strip()` removes only whitespace, at both ends, and leaves no whitespace at either end |
| Text.StripWithout | Rac1.py:232 | stripping adds no character |
| Text.ToInt | Rac1/Rac1.py:63-70 | `int()` accepts a text exactly when `isint` holds for it |
| Text.PaddedInt | Rac1/Rac1.py:63-70 | `isint(" 12")` holds and `int(" 12")` is 12: whitespace around the number is ignored |
| Text.SeparatorRefused | Rac1/Rac1.py:63-70 | `isint` fails on `"\x1f12"`: U+001F is whitespace to `strip()` but not to `int()` |
| Text.IntToStringRoundTrip | Rac1/Rac1.py:411 | `str(n)` is accepted by `isint` and `int(str(n)) == n` |
| Listing.MarkerLinesFromPage | Rac1/Rac1.py:257-260 | every rewritten line is the rewrite of a page line that carries one of the two markers |
| Listing.MarkerLinesComplete | Rac1/Rac1.py:257-260 | every page line that carries one of the two markers is rewritten into the result |
| Listing.MarkerLinesRewriteEach | Rac1/Rac1.py:257-260 | the result has one rewritten entry per marker line, in line order, and a marker line that occurs several times is rewritten as often |
| Listing.MarkerLinesInOrder | Rac1/Rac1.py:257-260 | the rewritten lines keep the order of the page's lines |
| Listing.HavingSpec | Rac1/Rac1.py:263-264 | each type filter keeps exactly the entries with its marker, in order, each as many times as it occurs |
| Listing.ScanIdsSpec | Rac1/Rac1.py:248-273 | a page's id list has no repetition and holds exactly its `data-audio-id` entries, in first-seen order |
| Listing.PageTokensSpec | Rac1/Rac1.py:264 | every page token carries the page marker, in page order, and a repeated token is kept as many times as it occurs |
| Listing.AppendUnseen | Rac1/Rac1.py:267-270 | the dedup loop computes the merge of the list with the input |
| Listing.ParseRac1Data | Rac1/Rac1.py:248-273 | `parse_rac1_data` returns the deduplicated ids and the page tokens of the page |
| Listing.PageNumber | Rac1/Rac1.py:294 | an accepted token gives a page number free of `=`, and the token is the part before its `=`, the `=` and that number |
| Listing.PageNumberRefused | Rac1/Rac1.py:294 | a token without `=` is refused |
| Listing.PageNumberOf | Rac1/Rac1.py:294 | a token `name=value` with no `=` in `name` is accepted exactly when `value` has no `=`, and then the page number is `value` |
| Listing.StripKeys | Rac1/Rac1.py:312 | each id is the second `=`-separated piece of its entry; the list fails exactly when some entry has no `=` |
| Listing.MergePagesIsMerge | Rac1/Rac1.py:291-309 | merging page after page is one first-seen deduplication of all the pages' ids together |
| Listing.CollectIdsSpec | Rac1/Rac1.py:276-309 | the first page's ids stay a prefix in their order, the day's list has no repetition, and it is the first-seen dedup of all pages' id entries, first page first |
| Listing.MergeLaterPages | Rac1/Rac1.py:291-309 | the page loop ends with the first failure, or with every later page merged in; on success one request was issued per later token, for that token's page |
| Listing.MergePagesSnoc | Rac1/Rac1.py:304-309 | one more page merges its own ids into the list built so far |
| Listing.FetchPagesFails | Rac1/Rac1.py:291-302 | fetching the later pages fails exactly when one of them fails |
| Listing.FetchPagesFirstFailure | Rac1/Rac1.py:291-302 | when every earlier later page is fetched, the failure is that of the first page that fails |
| Listing.FirstPageFails | Rac1/Rac1.py:280-284 | a first page that does not return 200 ends the walk with that status |
| Listing.LaterPageFails | Rac1/Rac1.py:291-302 | a later page that fails after every earlier one was fetched ends the walk with its failure, its status when its token gives a page number |
| Listing.GetAudioUuids | Rac1/Rac1.py:276-312 | `get_audio_uuids` yields the day's ids or the failure; on success it requested the first page and then one page per later token, `len(pages_list) - 1` more in all when there are tokens |
| Episodes.HourOfTime | Rac1/Rac1.py:332 | the hour of `HH:rest` is the integer `HH`, and a non-integer hour part is refused |
| Episodes.HourOfWritten | Rac1/Rac1.py:332 | an hour written before the colon is read back unchanged |
| Episodes.PodcastData | Rac1/Rac1.py:315-335 | a podcast is resolved exactly when the download succeeds, the record decodes and its time has an integer hour; a non-200 status is that download failure; the podcast carries the record's fields and that hour |
| Episodes.ResolveAll | Rac1/Rac1.py:348 | one podcast per id, in order, each that id's own; a failure is that of the first id that fails, and the list fails exactly when some id does |
| Episodes.PodcastsListReversed | Rac1/Rac1.py:338-356 | the day's list has one podcast per id, podcast `i` from id `len - 1 - i`, the same podcasts as the resolved list in reverse |
| Episodes.GetPodcastsList | Rac1/Rac1.py:338-356 | `get_podcasts_list` yields that reversed list or the first failure |
| Filter.TargetDateOf | Rac1/Rac1.py:365 | `DD/MM/YYYY` becomes `YYYY-MM-DD` |
| Filter.TargetDateInverse | Rac1/Rac1.py:365 | for a date without `-`, reversing the `-` fields of the result and joining them with `/` gives the date back |
| Filter.SelectSpec | Rac1/Rac1.py:367-391 | the kept podcasts are an order-preserving subsequence of the input: exactly the input podcasts of the target day, inside the window, matched by no exclusion, each kept as many times as it occurs |
| Filter.FilteredSpec | Rac1/Rac1.py:391-399 | the filter output is the kept podcasts in order, the first with `start_first` and every other with `0` |
| Filter.FilteredLaterStartAtZero | Rac1/Rac1.py:393-397 | once `done_last > 0` podcasts are behind, every podcast still to play starts at `0` |
| Filter.FilteredPlayable | Rac1/Rac1.py:373-388 | every returned podcast comes from the input, is of the target day, is inside the window and is matched by no exclusion entry |
| Filter.EmptyExclusionExcludesAll | Rac1/Rac1.py:386-387 | an empty exclusion entry occurs in every title, so nothing is played |
| Filter.PaddedHourExcluded | Rac1/Rac1.py:384-386 | the entry `" 12"` (as `-x "NAME, 12"` leaves it) excludes every podcast of hour 12 |
| Filter.MatchesSomeExclusion | Rac1/Rac1.py:381-387 | the inner loop visits every exclusion entry and reports a match exactly when some entry matches the podcast |
| Filter.FilterPodcastsList | Rac1/Rac1.py:359-402 | the filter loop computes the filter output |
| Filter.EntryPiecesSpec | Rac1/Rac1.py:165-170 | an integer `-x` argument is kept as written; any other becomes comma-free pieces that join back into its normalised text |
| Filter.TrailingCommaGivesEmptyEntry | Rac1/Rac1.py:170 | a name argument ending in a comma contributes an empty entry |
| Filter.ExcludeEntriesMembers | Rac1/Rac1.py:159-170 | the exclusion list holds exactly the pieces of the arguments |
| Filter.NormalizeExcludes | Rac1/Rac1.py:159-170 | the normalisation loop builds the arguments' pieces in argument order |
| Player.CallArgs | Rac1/Rac1.py:411 | the command has eight words: the fixed player flags, then (after the cache size word) `-ss`, the podcast's seek offset and its path |
| Player.CallArgsCacheSize | Rac1/Rac1.py:411 | the cache size word is an integer, ten times the podcast's duration in seconds |
| Player.Quoted | Rac1/Rac1.py:418 | the text with one double quote before and one after |
| Player.PrintArgs | Rac1/Rac1.py:416-418 | the printed command is the executed one with its last word, the path, in double quotes |
| Player.ActionsSpec | Rac1/Rac1.py:440-451 | one action per podcast, in order, each printing or running the command with that podcast's seek offset and path |
| Player.Rac1.constructor | Rac1/Rac1.py:200-203 | a new object has no player process and is not exiting |
| Player.Rac1.PlayPodcast | Rac1/Rac1.py:405-437 | print the command, or run it and keep its exit code in `mplayer_process` |
| Player.Rac1.PlayAllPodcasts | Rac1/Rac1.py:440-453 | every podcast is played in order and the count returned is the list's length; `mplayer_process` holds the last run's exit code, or keeps its value when nothing ran |
| Polling.SessionCount | Rac1/Rac1.py:521-542 | every round that plays plays something, and `done_last` ends at the number of podcasts played |
| Polling.OutcomeGrows | Rac1/Rac1.py:537 | `done_last` never decreases |
| Polling.FinishedIffEmptySlice | Rac1/Rac1.py:533-542 | the loop ends normally in a round exactly when that round's slice is empty |
| Polling.RoundStops | Rac1/Rac1.py:539-542 | a round that fails or finds nothing left ends the loop, with `done_last` as it was |
| Polling.RoundAdvances | Rac1/Rac1.py:533-537 | a round that plays goes on with `done_last` advanced by what it played |
| Polling.RoundKeepsAccount | Rac1/Rac1.py:523-537 | after a round that plays, what is left of the run is the run from the next round |
| Polling.RoundClosesAccount | Rac1/Rac1.py:539-542 | a round that fails or has nothing left closes the run's account |
| Session.RoundListsAt | Rac1/Rac1.py:528-529 | round `k` filters the list of its own snapshot of the network |
| Session.RoundListTagged | Rac1/Rac1.py:393-397 | every round's list gives `start_first` to its first podcast and `0` to the others |
| Session.SeekOnce | Rac1/Rac1.py:528-537 | from `done_last = 0`, only the run's very first podcast gets `start_first` |
| Session.RunSpec | Rac1/Rac1.py:501-542 | over a whole run: every round plays something, `done_last` counts what was played, and only the first podcast gets `start_first` |
| Session.ListRound | Rac1/Rac1.py:528-529 | one round's listing is the filtered list of the day, or the failure |
| Session.Run | Rac1/Rac1.py:501-542 | `main` ends as the loop's outcome says and plays each round's slice, printing or running one command per podcast |
| Session.Poll | Rac1/Rac1.py:521-542 | the `while True` loop computes that outcome, slice by slice |
| LegacyFeed.ItemHourOf | Rac1.py:228 | a description ending in ` <hour><letter>` yields that hour |
| LegacyFeed.ItemHourRefused | Rac1.py:236 | a description whose last word, without its last character, is not an integer is refused |
| LegacyFeed.ItemTitle | Rac1.py:232 | the derived title contains no `(` |
| LegacyFeed.ItemTitleOf | Rac1.py:232 | the title is the stripped name before the first `(` |
| LegacyFeed.ItemTitleWhole | Rac1.py:232 | a title without `(` is only stripped |
| LegacyFeed.KiB | Rac1.py:235 | `int(n / 1024)` rounds toward zero: `q * 1024 <= n < (q + 1) * 1024` for `n >= 0`, mirrored below zero |
| LegacyFeed.LengthText | Rac1.py:235 | the length is accepted exactly when it is an integer, and becomes the decimal number of whole KiB |
| LegacyFeed.LengthTextOf | Rac1.py:235 | a byte count written in decimal becomes `bytes // 1024` in decimal |
| LegacyFeed.DeriveItemFails | Rac1.py:231-237 | an item is refused exactly when its length or its hour is not an integer, and a bad length is reported first |
| LegacyFeed.DeriveItemOf | Rac1.py:219-237 | an item written as the feed writes it yields the stripped name, the link and description as they are, the size in KiB and the hour |
| LegacyFeed.DeriveItemsSpec | Rac1.py:216-237 | the item loop yields one entry per item, each that item's own, or the failure of the first refused item; it fails exactly when some item is refused |
| LegacyFeed.ParsedItemsReversed | Rac1.py:208-240 | the list has one entry per item, entry `i` from item `j` when `i + j` is one less than the number of items |
| LegacyFeed.ParseMyXml | Rac1.py:208-240 | the append loop followed by the reversal computes that list |
| LegacyFeed.GetPodcastsList | Rac1.py:243-260 | the feed's list, or the download failure |
| LegacyPlay.PicksInOrder | Rac1.py:309-333 | the entries played are a subsequence of the round's slice |
| LegacyPlay.PicksMembers | Rac1.py:309-325 | the entries played are exactly the slice's entries that pass the filter, each as many times as it occurs |
| LegacyPlay.PicksStarts | Rac1.py:327-333 | only the slice's first entry can get `start_first`, only when nothing was skipped before it; every other play starts at `0` |
| LegacyPlay.RoundPlaysSpec | Rac1.py:303-336 | a round plays exactly the slice's entries that pass the filter, in order and as many times as each occurs, and `start_first` only on the first entry of a round that skipped nothing |
| LegacyPlay.StartFirstLost | Rac1.py:328-333 | when the day's first entry is filtered out, the first entry played starts at `0` and not at `start_first` |
| LegacyPlay.LegacyCallArgs | Rac1.py:269 | the command has eight words: the fixed flags, the entry's length, `-ss`, the seek offset and the link |
| LegacyPlay.LegacyPrintArgs | Rac1.py:272-276 | the printed command is the executed one with the link in double quotes |
| LegacyPlay.CacheSizeOf | Rac1.py:269 | for an entry derived from a feed item, the cache size handed to the player is the enclosure length in whole KiB |
| LegacyPlay.Decide | Rac1.py:311-322 | the loop that stops at the first matching exclusion decides exactly the filter |
| LegacyPlay.Script.constructor | Rac1.py:263 | the module starts with no player process |
| LegacyPlay.Script.PlayPodcast | Rac1.py:264-293 | print the command, or run it and keep its exit code |
| LegacyPlay.Script.PlayRound | Rac1.py:308-336 | the walk counts every entry of the slice, plays the ones that pass in order, and `mplayer_process` holds the last run's exit code |
| LegacyPlay.Script.PlayAllPodcasts | Rac1.py:296-336 | `play_all_podcasts` yields the number of entries after `done_last` and plays that round's picks, or yields the download failure and plays nothing |
| LegacySession.PlayRoundOf | Rac1.py:391 | round `i` plays the picks of that round's own list |
| LegacySession.SessionStarts | Rac1.py:388-395 | over a run, `start_first` goes to the first play exactly when it is the day's first entry; every other play starts at `0` |
| LegacySession.SessionPlaysKept | Rac1.py:311-325 | every play of the run passes the filter |
| LegacySession.LegacyRun | Rac1.py:388-395 | the `__main__` loop ends as the loop's outcome says and plays what each round picks |
| LegacySession.LegacyPoll | Rac1.py:388-395 | the `while True` loop computes that outcome and those plays, round after round |
| LegacySession.LegacyRunSpec | Rac1.py:388-395 | over a run, `done_last` ends at the number of entries walked, every play passes the filter, and `start_first` reaches the first play only when it is the day's first entry |

## Left out

- HTTP: `get_page`, `get_rac1_page` and `get_rac1_xml` are the parameters `fetch` and `feed`. A request is a value (date and page, or audio id). The model does not format URLs or decode responses.
- The library calls `json.loads`, `ElementTree`, the `re.sub` rewrite, and `unicodedata` normalisation with `upper()` are parameters. Their own behaviour is not modelled.
- Text.ToInt: the model skips the ASCII whitespace that `int()` skips (U+0009 to U+000D and space), and then accepts an optional sign followed by ASCII digits. The separators U+001C to U+001F around the digits are refused, as `int()` refuses them in ASCII text. Python's `int()` also skips non-ASCII whitespace such as U+0085 and U+00A0, and it accepts `_` between digits and non-ASCII digits. The model refuses those, because the texts the program reads (hours, lengths, `-x` hours) are written in ASCII.
- Text.Strip: removes the ASCII characters that `str.isspace()` accepts (U+0009 to U+000D, U+001C to U+001F and space), but not the non-ASCII ones such as U+0085, U+00A0 and U+3000.
- LegacyFeed.KiB: Python computes `int(n / 1024)` in floating point. The model is exact truncation, which differs only above 2^53 bytes.
- Printed text: the `### Escoltem` line, the terminal-title escape and the error messages are not modelled. The print-only mode is modelled as the word list it would print.
- Not modelled:
  - argument parsing (`argparse`, with its defaults);
  - `parse_my_date` (with `parsedatetime`);
  - the `-c` option, which clears the exclusions;
  - `signal_handler` and the `process_already_exiting` flag, which are interrupt handling (the flag is a field nobody sets here);
  - the `CalledProcessError` / `exit(2)` path of `play_podcast`;
  - the player as a process: the model keeps only the exit code `call` returns.
- `print_xml_recursive` in 1.0.0 is a debug helper that no path calls. It also calls a function that does not exist.
- `fdopen(stdout.fileno(), 'w', 0)` in 1.0.0 raises on Python 3 before anything else runs. The model describes the program as if that line succeeded.
- The re-poll loops have no bound in the source. The model takes a finite sequence of network snapshots, one per round, and reports `OutOfRounds` when they run out.
- The podcast dictionaries that `get_podcast_data` builds and `filter_podcasts_list` extends with `start` are values: `Podcast` and `Scheduled` records. The source returns freshly built dictionaries each round, so nothing else sees them change.
- LegacySession.LegacyPoll: the 1.0.0 state `mplayer_process` lives in a `Script` object created for the run, and its value across rounds is not stated in the loop's contract.
- Some behaviour of the code is easy to expect otherwise. The model follows the code in each case:
  - `get_podcast_data` downloads the record of every id again in every round (Rac1/Rac1.py:315-335). Nothing caches resolved ids.
  - `filter_podcasts_list` reads the whole list, including the podcasts after `to_hour` (Rac1/Rac1.py:366-399).
  - The docstrings of `parse_rac1_data` (Rac1/Rac1.py:249) and `parse_my_xml` (Rac1.py:209) promise the podcasts in ascending hour order. The code sorts nothing: `get_podcasts_list` and `parse_my_xml` only reverse the list (Rac1/Rac1.py:356, Rac1.py:240).
  - Print-only mode keeps polling, exactly like playing: the main loop goes round again after printing (Rac1/Rac1.py:521-542).

## Findings

| source | as written | input that shows it | evidently intended | confidence | as-written member | corrected member |
|---|---|---|---|---|---|---|
| Rac1.py:328-333 | `start_first` is applied when `done + done_last == 0`, and `done` counts every entry walked, played or not | a day whose first entry is outside the hour window (or excluded) and whose second entry passes, with `start_first` = `30`: the second entry is played from `0` | the seek offset goes to the first podcast actually played, as the current version does by testing the filtered list (Rac1/Rac1.py:394) | not executed; high | LegacyPlay.StartFirstLost | Filter.FilteredSpec |

In the earlier version, the whole-run consequence is LegacySession.LegacyRunSpec: `start_first` reaches the first play only when that play is the day's first entry. The current version's model uses the corrected rule. Filter.FilteredSpec proves that the first kept podcast carries `start_first`, and Session.RunSpec lifts that to the whole run: the first podcast played gets `start_first` and every other one gets `0`.
