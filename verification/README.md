# SearchAV core in Dafny

SearchAV is a video search aggregator. Its Go backend sends one keyword to
several MacCMS-style content sources, merges what they return into one entry
per title, and resolves a chosen entry into a list of playable episode URLs.
This project models the logic of that backend, with proofs:

- **Configuration queries** (`config.dfy`, module `Config`). These are:
  - the duplicate-code check run at load time;
  - the enabled-source filter;
  - the first-match lookup by source code;
  - the password whitelist.
- **Search aggregation** (`search.dfy`, module `Search`). A search:
  - picks the enabled sources that pass the adult switch;
  - keeps the item lists of the source calls that succeeded, in arrival order;
  - merges the items into one `VideoItem` per whitespace-trimmed title (`mergeResults`).

  The merge is specified by `Merged`, which folds one loop step per raw item. For each title:
  - the first item with that title supplies the name, picture, remarks and type;
  - every item with that title adds one `SourceInfo`, in input order.

  The result lists the map's entries in some order, because Go's map iteration order is unspecified.
- **Detail and play-URL parsing** (`detail.dfy`, module `Detail`). A play URL has three levels:
  - `$$$` separates player lines ("groups");
  - `#` separates episodes;
  - `$` separates an episode's label from its URL.

  `parseEpisodes` plays the first group that mentions `m3u8`, or the first group when none does. It keeps the second field of each episode when that field starts with `http://` or `https://`. `GetDetail` looks the source up, asks the client, and copies the fields.
- **Supporting modules.**
  - `GoStrings` models the Go `strings` functions the core calls. These are `TrimSpace` (with `unicode.IsSpace`), `Split`, `Contains` and `HasPrefix`, with Go's semantics: for example, `Split` of any string yields at least one part. `Index` and `Join` are modelled only to specify them: `Index` is the search `Contains` and `Split` are built on, and `Join` states `Split`'s contract as its inverse.
  - `Seqs` holds an order-preserving `Filter`, the shape of the services' `append` loops.
  - `Model` holds the records.
  - `Wrappers` holds `Option`/`Result`.

The source's loops are methods with loop invariants, and each one is proved against its contract: most against a specification function they are shown to equal, the others (`Validate`, `GetSourceByCode`, `ValidatePassword`, the listing loop of `MergeResults`) against the predicates their `ensures` name. The properties are proved as lemmas about those functions.

- **Fan-in.** The source fans out to the sources concurrently. Here the fan-in is an arbitrary arrival sequence of outcomes, one per dispatched source (`FanIn`, a multiset equality).
- **Source client.** The HTTP client is a parameter: `fetch` for `GetDetail`, the outcomes for `Search`.

The source's `parseEpisodes` tests `strings.Contains(src, ".m3u8") || strings.Contains(src, "m3u8")`. The first test adds nothing, because a group contains ".m3u8" only if it contains "m3u8" (`Detail.StreamMarkerIsM3u8`).

## Model

| member | source | states |
|---|---|---|
| Config.Validate | backend/internal/config/config.go:74-84 | Reports an error exactly when two sources share a code. The error names the code of the first source that repeats an earlier source's code. |
| Config.DuplicateCodeError | backend/internal/config/config.go:79 | The load-time error text: "duplicate source code: " followed by the code. |
| Config.IsEnabled | backend/internal/config/config.go:90 | The filter test of `GetEnabledSources`: the source's `enabled` flag. |
| Config.GetEnabledSources | backend/internal/config/config.go:87-95 | The result is the configured sources filtered on `enabled`, in configuration order. |
| Config.EnabledSourcesExactly | backend/internal/config/config.go:87-95 | A source is returned exactly when it is configured and enabled. The result is a subsequence of the configured list. |
| Config.FirstWithCode | backend/internal/config/config.go:98-105 | The position of the first source with the code, or the list's length when none has it. No earlier source has the code. |
| Config.GetSourceByCode | backend/internal/config/config.go:98-105 | Returns nothing exactly when no source has the code. Otherwise returns the first source with that code. |
| Config.LookupUnique | backend/internal/config/config.go:74-105 | Once the codes are pairwise distinct (what `validate` guarantees), the lookup of a source's code finds that very source. |
| Config.ValidatePassword | backend/internal/config/config.go:108-118 | With auth disabled every password passes. With auth enabled a password passes exactly when it is whitelisted, so an empty whitelist rejects every password. |
| GoStrings.TrimSpaceSpec | backend/internal/service/search.go:103 | The trimmed title is the input minus a leading and a trailing run of white space. It is empty or starts and ends with a non-space. |
| GoStrings.TrimSpaceIsSlice | backend/internal/service/search.go:103 | The trimmed title is a slice of the input whose cut-off prefix and suffix are all white space. |
| GoStrings.TrimSpaceIgnoresPadding | backend/internal/service/search.go:103 | White space added on either side of a title does not change its trimmed form. |
| GoStrings.Index | backend/internal/service/detail.go:75 | The first occurrence of the separator, or -1 exactly when it occurs nowhere. |
| GoStrings.Split | backend/internal/service/detail.go:67 | There is at least one part. Joining the parts with the separator gives back the input, and no part contains the separator. For a separator longer than one character these facts alone admit several splits; the left-to-right choice is stated by `GoStrings.SplitAt`. |
| GoStrings.SplitAt | backend/internal/service/detail.go:67 | Matching is leftmost: when the separator starts nowhere inside `a`, splitting `a + sep + b` cuts right after `a` and goes on splitting `b`. |
| GoStrings.SplitJoin | backend/internal/service/detail.go:86 | For a one-character separator, splitting the join of separator-free parts gives those parts back. |
| GoStrings.IsSpace | backend/internal/service/search.go:103 | The white-space test `strings.TrimSpace` uses (`unicode.IsSpace`): the Latin-1 space characters and Unicode's White_Space characters above U+00FF. |
| GoStrings.TrimSpace | backend/internal/service/search.go:103 | `strings.TrimSpace`: leading then trailing white space removed; its properties are `GoStrings.TrimSpaceSpec`. |
| GoStrings.Contains | backend/internal/service/detail.go:75 | `strings.Contains`: true exactly when the substring occurs at some position. |
| GoStrings.HasPrefix | backend/internal/service/detail.go:89 | `strings.HasPrefix`: the string starts with the prefix. |
| Search.TitleKey | backend/internal/service/search.go:103 | The merge key of a raw item: its title with surrounding white space trimmed. |
| Search.Info | backend/internal/service/search.go:110-114 | The reference one raw item contributes: its source code, source name and id. |
| Search.MergeStep | backend/internal/service/search.go:102-128 | One iteration of the merge loop: an empty key is skipped; a key already present gets one more reference appended; a new key gets a new item with the raw item's name, picture, remarks, type and its single reference. |
| Search.Merged | backend/internal/service/search.go:100-129 | The map after the whole merge loop: `MergeStep` applied to every raw item in input order, starting from the empty map. |
| Search.Candidates | backend/internal/service/search.go:40-48 | The sources `Search` dispatches to: the enabled sources, then those passing `includeAdult \|\| !adult`. |
| Search.Admits | backend/internal/service/search.go:45 | The adult switch as a filter test: a source passes when `includeAdult` is set or the source is not adult. |
| Search.Succeeded | backend/internal/service/search.go:81 | The collection test: an outcome counts when it carries no error. |
| Search.Collected | backend/internal/service/search.go:79-87 | The item lists of the outcomes without an error, concatenated in arrival order. |
| Detail.HasStreamMarker | backend/internal/service/detail.go:75 | The group test: the group contains ".m3u8" or "m3u8". |
| Detail.IsHttpUrl | backend/internal/service/detail.go:89 | The URL test: a `http://` or `https://` prefix. |
| Detail.PlayEpisodes | backend/internal/service/detail.go:61-96 | What `parseEpisodes` returns: nothing for an empty play URL, otherwise the URLs of the `#`-segments of the selected `$$$`-group. |
| Search.Entry | backend/internal/service/search.go:108-128 | The entry promised for a title is filed under that title and has one reference per raw item carrying the title. |
| Search.MergedSnoc | backend/internal/service/search.go:102-129 | Merging one more raw item is one more iteration of the merge loop. |
| Search.MergedKeyed | backend/internal/service/search.go:102-128 | Every merged entry is filed under its own trimmed title and has at least one source reference. |
| Search.MergedDomain | backend/internal/service/search.go:102-128 | A title is merged exactly when it is non-empty and some raw item carries it. |
| Search.MergedEntry | backend/internal/service/search.go:108-128 | Each merged entry has the canonical fields of the first raw item with that title. It has one reference (code, name, id) per raw item with that title, in input order. |
| Search.MergedKeys | backend/internal/service/search.go:100-129 | The merged titles are exactly the distinct non-empty trimmed titles of the input. |
| Search.MergeResults | backend/internal/service/search.go:99-137 | The result lists every entry of the merged map exactly once, in some order. |
| Search.ListedTitles | backend/internal/service/search.go:100-135 | The output has one item per distinct non-empty trimmed title. No two items share a title. |
| Search.ListedEntries | backend/internal/service/search.go:108-135 | Every output item is the first-wins, input-ordered entry for its title, with at least one source reference. |
| Search.MergedAppend | backend/internal/service/search.go:108-128 | Merging a concatenation merges each half. A title in both halves keeps the first half's fields and lists the first half's references, then the second half's. |
| Search.MergeTwiceDoubles | backend/internal/service/search.go:108-128 | Merging the input twice over keeps every canonical field and doubles each title's reference list. |
| Search.MergedDropsUntitled | backend/internal/service/search.go:102-106 | Raw items whose trimmed title is empty leave no trace in the merge. |
| Search.MergedWithout | backend/internal/service/search.go:108-128 | Removing every raw item with a given title removes exactly that title's entry. |
| Search.ListedSourceTotal | backend/internal/service/search.go:108-128 | The references over all output items number exactly the raw items with a non-empty trimmed title. |
| Search.MergeSameTitle | backend/internal/service/search.go:108-128 | Two raw items with the same non-empty trimmed title merge into one entry: the first item's fields and both references, in order. |
| Search.PaddedTitleExample | backend/internal/service/search.go:103 | "  Foo  " and "Foo" share the merge key "Foo". |
| Search.CandidatesExactly | backend/internal/service/search.go:40-48 | The dispatched sources are exactly the enabled sources with `includeAdult || !adult`, in configuration order. |
| Search.FilterAdult | backend/internal/service/search.go:43-48 | The adult loop keeps exactly the sources that pass the switch, in order. |
| Search.CollectResults | backend/internal/service/search.go:79-87 | The collected items are the lists of the successful outcomes, concatenated in arrival order. |
| Search.CollectedAppend | backend/internal/service/search.go:80-87 | Collecting consecutive runs of arrivals concatenates what each run collects. |
| Search.CollectedIgnoresFailures | backend/internal/service/search.go:81-84 | Outcomes with an error contribute nothing. |
| Search.CollectedMembers | backend/internal/service/search.go:80-87 | A raw item is collected exactly when some successful outcome carries it. |
| Search.MergedTitlesIgnoreArrivalOrder | backend/internal/service/search.go:57-92 | Any two arrival orders of the same outcomes merge to the same set of titles. |
| Search.NothingDispatched | backend/internal/service/search.go:57-80 | With no source dispatched, no outcome arrives. |
| Search.Search | backend/internal/service/search.go:39-96 | The sources it dispatches to are exactly `Candidates` (the enabled sources passing the adult switch, in order). Never reports an error. With nothing dispatched the list is empty. Otherwise it lists the merge of the successful outcomes' items, in arrival order. |
| Detail.StreamMarkerIsM3u8 | backend/internal/service/detail.go:75 | The group test amounts to "contains m3u8". |
| Detail.FirstMarked | backend/internal/service/detail.go:73-79 | The position of the first group that mentions m3u8, or the number of groups when none does. |
| Detail.SelectedGroup | backend/internal/service/detail.go:73-79 | The selected group is one of the groups. It is the first group when none mentions m3u8, and otherwise the first group that does. |
| Detail.SelectSource | backend/internal/service/detail.go:73-79 | The selection loop with `break` returns the selected group. |
| Detail.EpisodeUrl | backend/internal/service/detail.go:86-91 | A segment contributes at most its second `$`-field. That field is an http(s) URL and contains no `$`. |
| Detail.EpisodeUrlOneField | backend/internal/service/detail.go:86-87 | A segment without `$` is dropped. |
| Detail.EpisodeUrlTwoFields | backend/internal/service/detail.go:86-91 | "label$url" yields url exactly when it starts with `http://` or `https://`. |
| Detail.EpisodeUrlMoreFields | backend/internal/service/detail.go:86-88 | With more than two `$`-fields only the second one is used. |
| Detail.EpisodeUrls | backend/internal/service/detail.go:82-95 | At most one URL per segment, and every URL is an http(s) URL. |
| Detail.EpisodeUrlsAppend | backend/internal/service/detail.go:82-95 | The output keeps the segment order: consecutive runs of segments give their URLs one run after the other. |
| Detail.EpisodeUrlsMembers | backend/internal/service/detail.go:82-95 | A URL is returned exactly when some segment yields it. |
| Detail.ParseEpisodes | backend/internal/service/detail.go:61-96 | Returns the URLs of the selected group's segments. An empty play URL yields no episodes, and every URL starts with `http://` or `https://`. |
| Detail.FirstGroupWins | backend/internal/service/detail.go:67-79 | A first group that mentions m3u8, has no two adjacent `$` and does not end in `$` (so that `$$$` cannot start inside it) is played, whatever follows it. |
| Detail.MarkedGroupWins | backend/internal/service/detail.go:67-79 | For a play URL of exactly two groups `g1$$$g2`, where neither group has two adjacent `$`, `g1` is non-empty and does not end in `$`, `g1` does not mention m3u8 and `g2` does: `g2` is played. With more groups the first marked one wins, so this is not a rule about any later marked group. |
| Detail.TwoEpisodes | backend/internal/service/detail.go:82-95 | A group "n1$u1#n2$u2" whose four fields contain neither `$` nor `#`, and whose `u1` and `u2` are http(s) URLs, yields [u1, u2]. |
| Detail.HlsFirstLine | backend/internal/service/detail.go:61-96 | A play URL "n1$u1#n2$u2$$$rest" whose four first-line fields contain neither `$` nor `#`, whose `u1` and `u2` are both http(s) URLs, and whose `u1` contains m3u8, plays [u1, u2], whatever `rest` is. |
| Detail.HlsSecondLine | backend/internal/service/detail.go:61-96 | A play URL "m1$v1#m2$v2$$$n1$u1#n2$u2" whose eight fields contain neither `$` nor `#`, whose `v1` and `v2` are non-empty, whose first line does not mention m3u8, whose `u1` and `u2` are http(s) URLs, and whose `u1` contains m3u8, plays [u1, u2]. |
| Detail.ParseEpisodesExample | backend/internal/service/detail.go:58-96 | "E01$http://a/1.m3u8#E02$http://a/2.m3u8$$$E01$http://b/1.mp4#E02$http://b/2.mp4" yields ["http://a/1.m3u8", "http://a/2.m3u8"]. |
| Detail.ParseEpisodesSwappedExample | backend/internal/service/detail.go:58-96 | With the two lines swapped, the HLS line (now second) is still the one played. |
| Detail.SourceNotFound | backend/internal/service/detail.go:35 | The unknown-code error text: "source not found: " followed by the code. |
| Detail.GetDetail | backend/internal/service/detail.go:32-56 | An unknown code is the error "source not found: <code>". Otherwise the first source with that code is asked, and a client error is passed through. On success it copies name, picture, content, year, area, director and actor, and the episodes are those parsed from the play URL. |

## Left out

- **Concurrency.** The goroutines, the `sync.WaitGroup`, the buffered channel and the per-source timeout (search.go:57-76) are not modelled. The outcomes arrive as a sequence that holds one outcome per dispatched source, in any order.
- **Source client.** The HTTP client (backend/internal/source/client.go: resty, JSON decoding, query escaping) is not part of this model.
  - For `GetDetail` it is the `fetch` parameter.
  - For `Search` it is the items and errors inside the outcomes.
  - Raw items arrive with `sourceCode`/`sourceName` already stamped.
  - The search keyword reaches only the client, so `Search` takes no keyword.
- **Outside the core.** Configuration loading through viper (`config.New`), the server wiring, the handlers, DTOs, middleware and frontend are not part of this model.
- **Logging.** Every logging call is left out.
- **nil versus empty.** Go's nil slice and empty slice are both the empty sequence. `Search`'s `nil, nil` is `[]` with no error.
- **Search.MergeResults: aliasing.** The map of `*VideoItem` pointers is modelled as a map of values. Appending to `item.Sources` through the pointer becomes a map update.
- **Search.MergeResults: order.** The map iteration order is a `:|` choice, so only "each entry exactly once, in some order" is stated.
- **Config.Validate: the `seen` map.** The `map[string]bool` whose values are all `true` is modelled as a set.
- **Detail.ParseEpisodes: one method in Go.** The group-selection loop is the separate method `Detail.SelectSource`. Likewise, `Search`'s adult filter and collection loops are the methods `Search.FilterAdult` and `Search.CollectResults`. The statements are unchanged.
- **Detail.ParseEpisodes: unreachable branch.** The `len(sources) == 0` branch (detail.go:68-70) is not modelled, because `Split` always returns at least one part (`GoStrings.Split`).
- **GoStrings.TrimSpaceSpec: white space.** Unicode white space is the fixed character set of `unicode.IsSpace`. Strings are sequences of characters, not UTF-8 bytes.
