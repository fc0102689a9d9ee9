/**
 * The search aggregation of backend/internal/service/search.go: pick the
 * enabled, adult-filter-passing sources, collect the items of every source
 * call that succeeded (the fan-in is an arbitrary arrival order of one
 * outcome per dispatched source), and merge them into one item per trimmed
 * title.
 */
module Search {
  import opened Wrappers
  import opened Seqs
  import opened GoStrings
  import opened Model
  import opened Config

  /** sourceResult: what one worker hands back over the results channel. */
  datatype SourceOutcome = SourceOutcome(source: SourceItem, list: seq<RawVideo>, err: Option<string>)

  // ---------------------------------------------------------------------
  // Merge specification: one entry per trimmed title.
  // ---------------------------------------------------------------------

  /** The merge key of a raw item: its title without surrounding white space. */
  function TitleKey(v: RawVideo): string {
    TrimSpace(v.vodName)
  }

  /** The key a merged item is filed under. */
  function ItemKey(item: VideoItem): string {
    TrimSpace(item.vodName)
  }

  function HasKey(k: string): RawVideo -> bool {
    v => TitleKey(v) == k
  }

  function LacksKey(k: string): RawVideo -> bool {
    v => TitleKey(v) != k
  }

  /** Raw items with an empty trimmed title are noise and are dropped. */
  function IsTitled(v: RawVideo): bool {
    TitleKey(v) != ""
  }

  /** The source reference a raw item contributes. */
  function Info(v: RawVideo): SourceInfo {
    SourceInfo(v.sourceCode, v.sourceName, v.vodId)
  }

  function Infos(vs: seq<RawVideo>): (r: seq<SourceInfo>)
    ensures |r| == |vs|
  {
    seq(|vs|, i requires 0 <= i < |vs| => Info(vs[i]))
  }

  /** The distinct non-empty trimmed titles of raw. */
  ghost function Keys(raw: seq<RawVideo>): set<string> {
    set v | v in raw && TitleKey(v) != "" :: TitleKey(v)
  }

  /** The raw items filed under key k, in input order. */
  function Group(raw: seq<RawVideo>, k: string): seq<RawVideo> {
    Filter(raw, HasKey(k))
  }

  /**
   * The merged item the grouping promises for key k: canonical fields from
   * the first raw item with that key, and one reference per raw item with
   * that key, in input order.
   */
  function Entry(raw: seq<RawVideo>, k: string): (item: VideoItem)
    requires Group(raw, k) != []
    ensures ItemKey(item) == k && |item.sources| == |Group(raw, k)|
  {
    var first := Group(raw, k)[0];
    assert HasKey(k)(first);
    VideoItem(first.vodName, first.vodPic, first.vodRemarks, first.typeName, Infos(Group(raw, k)))
  }

  /** One iteration of mergeResults' first loop: file v under its trimmed title. */
  function MergeStep(m: map<string, VideoItem>, v: RawVideo): map<string, VideoItem> {
    var k := TitleKey(v);
    if k == "" then m
    else if k in m then m[k := m[k].(sources := m[k].sources + [Info(v)])]
    else m[k := VideoItem(v.vodName, v.vodPic, v.vodRemarks, v.typeName, [Info(v)])]
  }

  /** The map mergeResults builds from raw: MergeStep applied to each raw item in turn. */
  function Merged(raw: seq<RawVideo>): map<string, VideoItem>
    decreases |raw|
  {
    if raw == [] then map[]
    else MergeStep(Merged(raw[..|raw| - 1]), raw[|raw| - 1])
  }

  /** Merging one more raw item is one more step of the loop. */
  lemma MergedSnoc(raw: seq<RawVideo>, v: RawVideo)
    ensures Merged(raw + [v]) == MergeStep(Merged(raw), v)
  {
    assert (raw + [v])[..|raw|] == raw;
  }

  /** Every merged entry is filed under its own item's trimmed title and has at least one source reference. */
  lemma {:induction false} MergedKeyed(raw: seq<RawVideo>)
    ensures forall k :: k in Merged(raw) ==> ItemKey(Merged(raw)[k]) == k && Merged(raw)[k].sources != []
    decreases |raw|
  {
    if raw != [] {
      MergedKeyed(raw[..|raw| - 1]);
    }
  }

  /** The keys the merged items are filed under. */
  ghost function ItemKeys(items: seq<VideoItem>): set<string> {
    set i | 0 <= i < |items| :: ItemKey(items[i])
  }

  lemma ItemKeysSnoc(items: seq<VideoItem>, x: VideoItem)
    ensures ItemKeys(items + [x]) == ItemKeys(items) + {ItemKey(x)}
  {
    var s := items + [x];
    assert forall i :: 0 <= i < |items| ==> s[i] == items[i];
    assert ItemKey(s[|items|]) == ItemKey(x);
  }

  /**
   * items holds the entries of m, each exactly once, in some order: Go ranges
   * over the map, whose iteration order is unspecified.
   */
  ghost predicate Lists(items: seq<VideoItem>, m: map<string, VideoItem>) {
    && |items| == |m|
    && ItemKeys(items) == m.Keys
    && (forall i :: 0 <= i < |items| ==> ItemKey(items[i]) in m && m[ItemKey(items[i])] == items[i])
    && (forall i, j :: 0 <= i < j < |items| ==> ItemKey(items[i]) != ItemKey(items[j]))
  }

  lemma FilterSingle(v: RawVideo, p: RawVideo -> bool)
    ensures Filter([v], p) == if p(v) then [v] else []
  {
    assert [v][1..] == [];
  }

  /** The raw items filed under k, after one more item arrives. */
  lemma GroupSnoc(raw: seq<RawVideo>, v: RawVideo, k: string)
    ensures Group(raw + [v], k) == Group(raw, k) + (if TitleKey(v) == k then [v] else [])
  {
    FilterAppend(raw, [v], HasKey(k));
    FilterSingle(v, HasKey(k));
  }

  /** A key is in the merged map exactly when it is non-empty and some raw item carries it. */
  lemma {:induction false} MergedDomain(raw: seq<RawVideo>, k: string)
    ensures k in Merged(raw) <==> k != "" && Group(raw, k) != []
    decreases |raw|
  {
    if raw != [] {
      var init, v := raw[..|raw| - 1], raw[|raw| - 1];
      assert raw == init + [v];
      MergedDomain(init, k);
      GroupSnoc(init, v, k);
    }
  }

  lemma EntrySnocOther(init: seq<RawVideo>, v: RawVideo, k: string)
    requires Group(init, k) != [] && TitleKey(v) != k
    ensures Group(init + [v], k) == Group(init, k) && Entry(init + [v], k) == Entry(init, k)
  {
    GroupSnoc(init, v, k);
  }

  lemma EntrySnocSame(init: seq<RawVideo>, v: RawVideo)
    requires Group(init, TitleKey(v)) != []
    ensures var k := TitleKey(v);
      Group(init + [v], k) != [] &&
      Entry(init + [v], k) == Entry(init, k).(sources := Entry(init, k).sources + [Info(v)])
  {
    var k := TitleKey(v);
    GroupSnoc(init, v, k);
    assert Infos(Group(init, k) + [v]) == Infos(Group(init, k)) + [Info(v)];
  }

  lemma EntrySnocNew(init: seq<RawVideo>, v: RawVideo)
    requires Group(init, TitleKey(v)) == []
    ensures var k := TitleKey(v);
      Group(init + [v], k) == [v] &&
      Entry(init + [v], k) == VideoItem(v.vodName, v.vodPic, v.vodRemarks, v.typeName, [Info(v)])
  {
    GroupSnoc(init, v, TitleKey(v));
  }

  /**
   * Each merged entry is the one the grouping promises: the first raw item
   * with that trimmed title supplies the fields, and every raw item with that
   * title contributes one reference, in input order.
   */
  lemma {:induction false} MergedEntry(raw: seq<RawVideo>, k: string)
    requires k in Merged(raw)
    ensures Group(raw, k) != [] && Merged(raw)[k] == Entry(raw, k)
    decreases |raw|
  {
    MergedDomain(raw, k);
    var init, v := raw[..|raw| - 1], raw[|raw| - 1];
    assert raw == init + [v];
    MergedDomain(init, k);
    if TitleKey(v) != k {
      MergedEntry(init, k);
      EntrySnocOther(init, v, k);
    } else if k in Merged(init) {
      MergedEntry(init, k);
      EntrySnocSame(init, v);
    } else {
      EntrySnocNew(init, v);
    }
  }

  /** The keys of the merged map are exactly the distinct non-empty trimmed titles. */
  lemma MergedKeys(raw: seq<RawVideo>)
    ensures Merged(raw).Keys == Keys(raw)
  {
    forall k | k in Merged(raw) ensures k in Keys(raw) {
      MergedDomain(raw, k);
      FilterMembers(raw, HasKey(k));
      assert Group(raw, k)[0] in raw;
      assert HasKey(k)(Group(raw, k)[0]);
    }
    forall k | k in Keys(raw) ensures k in Merged(raw) {
      var v :| v in raw && TitleKey(v) != "" && TitleKey(v) == k;
      FilterMembers(raw, HasKey(k));
      assert v in Group(raw, k);
      MergedDomain(raw, k);
    }
  }

  /** A map whose entries are filed under their own titles is listed by an enumeration of its keys. */
  lemma ListedByKeys(items: seq<VideoItem>, keys: seq<string>, m: map<string, VideoItem>)
    requires forall k :: k in m ==> ItemKey(m[k]) == k
    requires |keys| == |items| == |m|
    requires forall i :: 0 <= i < |keys| ==> keys[i] in m && items[i] == m[keys[i]]
    requires forall i, j :: 0 <= i < j < |keys| ==> keys[i] != keys[j]
    requires forall k :: k in m ==> k in keys
    ensures Lists(items, m)
  {
    forall i | 0 <= i < |items| ensures ItemKey(items[i]) == keys[i] { }
    forall k | k in m ensures k in ItemKeys(items) {
      var i :| 0 <= i < |keys| && keys[i] == k;
      assert ItemKey(items[i]) == k;
    }
  }

  /**
   * mergeResults: one item per distinct non-empty trimmed title, no title
   * twice, each with at least one source reference; the items are the
   * entries of Merged(raw) in map iteration order.
   */
  method MergeResults(raw: seq<RawVideo>) returns (result: seq<VideoItem>)
    ensures Lists(result, Merged(raw))
  {
    var merged: map<string, VideoItem> := map[];
    for i := 0 to |raw|
      invariant merged == Merged(raw[..i])
    {
      var v := raw[i];
      assert raw[..i + 1] == raw[..i] + [v];
      MergedSnoc(raw[..i], v);
      var key := TrimSpace(v.vodName);
      assert key == TitleKey(v);
      if key == "" {
        continue;
      }
      if key in merged {
        // Exists: append this item's source reference.
        var item := merged[key];
        merged := merged[key := item.(sources := item.sources + [SourceInfo(v.sourceCode, v.sourceName, v.vodId)])];
      } else {
        // New entry: this item supplies the canonical fields.
        merged := merged[key := VideoItem(v.vodName, v.vodPic, v.vodRemarks, v.typeName,
                                          [SourceInfo(v.sourceCode, v.sourceName, v.vodId)])];
      }
    }
    assert raw[..|raw|] == raw;

    // Copy the map's values out, in an order Go leaves unspecified.
    result := [];
    ghost var keys: seq<string> := [];
    var rest := merged.Keys;
    while rest != {}
      invariant rest <= merged.Keys
      invariant |keys| == |result| && |result| + |rest| == |merged|
      invariant forall i :: 0 <= i < |keys| ==> keys[i] in merged && keys[i] !in rest && result[i] == merged[keys[i]]
      invariant forall i, j :: 0 <= i < j < |keys| ==> keys[i] != keys[j]
      invariant forall k :: k in merged && k !in rest ==> k in keys
      decreases |rest|
    {
      var k :| k in rest;
      result := result + [merged[k]];
      keys := keys + [k];
      rest := rest - {k};
    }
    MergedKeyed(raw);
    ListedByKeys(result, keys, merged);
  }

  /**
   * What a caller of mergeResults can rely on, part one: one item per
   * distinct non-empty trimmed title of the input, and no title twice.
   */
  lemma ListedTitles(items: seq<VideoItem>, raw: seq<RawVideo>)
    requires Lists(items, Merged(raw))
    ensures |items| == |Keys(raw)|
    ensures forall i, j :: 0 <= i < j < |items| ==> ItemKey(items[i]) != ItemKey(items[j])
    ensures forall k :: k in Keys(raw) <==> exists i :: 0 <= i < |items| && ItemKey(items[i]) == k
  {
    var m := Merged(raw);
    MergedKeys(raw);
    assert |m| == |m.Keys|;
    forall k | k in Keys(raw) ensures exists i :: 0 <= i < |items| && ItemKey(items[i]) == k {
      assert k in ItemKeys(items);
    }
  }

  /**
   * Part two: each item is the grouping's entry for its title, so its fields
   * come from the first raw item with that title and it lists every raw item
   * with that title; in particular it has at least one source reference.
   */
  lemma ListedEntries(items: seq<VideoItem>, raw: seq<RawVideo>)
    requires Lists(items, Merged(raw))
    ensures forall i :: 0 <= i < |items| ==>
      Group(raw, ItemKey(items[i])) != [] && items[i] == Entry(raw, ItemKey(items[i])) && items[i].sources != []
  {
    forall i | 0 <= i < |items|
      ensures Group(raw, ItemKey(items[i])) != [] && items[i] == Entry(raw, ItemKey(items[i])) && items[i].sources != []
    {
      MergedEntry(raw, ItemKey(items[i]));
    }
  }

  lemma InfosAppend(a: seq<RawVideo>, b: seq<RawVideo>)
    ensures Infos(a + b) == Infos(a) + Infos(b)
  {
  }

  /**
   * Merging a concatenation merges each half: a title present in both keeps
   * the first half's canonical fields and lists the first half's references
   * before the second half's.
   */
  lemma MergedAppend(a: seq<RawVideo>, b: seq<RawVideo>, k: string)
    ensures k in Merged(a + b) <==> k in Merged(a) || k in Merged(b)
    ensures k in Merged(a) && k in Merged(b) ==>
      Merged(a + b)[k] == Merged(a)[k].(sources := Merged(a)[k].sources + Merged(b)[k].sources)
    ensures k in Merged(a) && k !in Merged(b) ==> Merged(a + b)[k] == Merged(a)[k]
    ensures k !in Merged(a) && k in Merged(b) ==> Merged(a + b)[k] == Merged(b)[k]
  {
    FilterAppend(a, b, HasKey(k));
    MergedDomain(a + b, k);
    MergedDomain(a, k);
    MergedDomain(b, k);
    if k in Merged(a + b) {
      MergedEntry(a + b, k);
      if k in Merged(a) {
        MergedEntry(a, k);
      }
      if k in Merged(b) {
        MergedEntry(b, k);
      }
      InfosAppend(Group(a, k), Group(b, k));
    }
  }

  /** Merging raw ++ raw keeps every canonical field and doubles each title's reference list. */
  lemma MergeTwiceDoubles(raw: seq<RawVideo>)
    ensures Merged(raw + raw).Keys == Merged(raw).Keys
    ensures forall k :: k in Merged(raw) ==>
      Merged(raw + raw)[k] == Merged(raw)[k].(sources := Merged(raw)[k].sources + Merged(raw)[k].sources)
  {
    forall k ensures k in Merged(raw + raw) <==> k in Merged(raw) {
      MergedAppend(raw, raw, k);
    }
    forall k | k in Merged(raw)
      ensures Merged(raw + raw)[k] == Merged(raw)[k].(sources := Merged(raw)[k].sources + Merged(raw)[k].sources)
    {
      MergedAppend(raw, raw, k);
    }
  }

  /** Raw items whose trimmed title is empty leave no trace in the merge. */
  lemma {:induction false} MergedDropsUntitled(raw: seq<RawVideo>)
    ensures Merged(Filter(raw, IsTitled)) == Merged(raw)
    decreases |raw|
  {
    if raw != [] {
      var init, v := raw[..|raw| - 1], raw[|raw| - 1];
      assert raw == init + [v];
      MergedDropsUntitled(init);
      FilterAppend(init, [v], IsTitled);
      FilterSingle(v, IsTitled);
      var kept := Filter(init, IsTitled);
      MergedSnoc(init, v);
      if IsTitled(v) {
        MergedSnoc(kept, v);
      } else {
        assert kept + [] == kept;
      }
    }
  }

  /** The number of source references over all items. */
  function TotalSources(items: seq<VideoItem>): nat
    decreases |items|
  {
    if items == [] then 0 else TotalSources(items[..|items| - 1]) + |items[|items| - 1].sources|
  }

  /** Removing every raw item filed under k removes exactly the entry for k. */
  lemma MergedWithout(raw: seq<RawVideo>, k: string)
    ensures Merged(Filter(raw, LacksKey(k))) == Merged(raw) - {k}
  {
    var rest := Filter(raw, LacksKey(k));
    var m, m' := Merged(raw), Merged(rest);
    forall k' ensures Group(rest, k') == if k' == k then [] else Group(raw, k') {
      if k' == k {
        FilterNone(rest, HasKey(k));
      } else {
        FilterFilterWeaker(raw, LacksKey(k), HasKey(k'));
      }
    }
    forall k' ensures k' in m' <==> k' in m && k' != k {
      MergedDomain(raw, k');
      MergedDomain(rest, k');
    }
    forall k' | k' in m' ensures m'[k'] == m[k'] {
      MergedEntry(raw, k');
      MergedEntry(rest, k');
    }
  }

  /** When no title repeats, dropping the last item drops exactly its title. */
  lemma ItemKeysDropLast(items: seq<VideoItem>)
    requires items != []
    requires forall i, j :: 0 <= i < j < |items| ==> ItemKey(items[i]) != ItemKey(items[j])
    ensures ItemKeys(items[..|items| - 1]) == ItemKeys(items) - {ItemKey(items[|items| - 1])}
  {
    var init, x := items[..|items| - 1], items[|items| - 1];
    assert items == init + [x];
    ItemKeysSnoc(init, x);
    forall i | 0 <= i < |init| ensures ItemKey(init[i]) != ItemKey(x) {
      assert init[i] == items[i];
    }
  }

  /** Dropping the last listed item lists the map without that item's title. */
  lemma ListsDropLast(items: seq<VideoItem>, m: map<string, VideoItem>)
    requires Lists(items, m) && items != []
    ensures var init, k := items[..|items| - 1], ItemKey(items[|items| - 1]);
      k in m && m[k] == items[|items| - 1] && Lists(init, m - {k})
  {
    var init, x := items[..|items| - 1], items[|items| - 1];
    ItemKeysDropLast(items);
    assert forall i :: 0 <= i < |init| ==> init[i] == items[i];
  }

  /** With nothing merged, no raw item has a non-empty trimmed title. */
  lemma MergedNothing(raw: seq<RawVideo>)
    requires |Merged(raw)| == 0
    ensures Filter(raw, IsTitled) == []
  {
    MergedKeys(raw);
    assert Keys(raw) == {} by {
      assert |Merged(raw).Keys| == |Merged(raw)|;
    }
    forall i | 0 <= i < |raw| ensures IsTitled(raw[i]) ==> TitleKey(raw[i]) in Keys(raw) {
      assert raw[i] in raw;
    }
    FilterNone(raw, IsTitled);
  }

  /** The kept raw items are those filed under k, one per reference of k's entry, plus the kept others. */
  lemma CountByTitle(raw: seq<RawVideo>, k: string)
    requires k in Merged(raw)
    ensures |Filter(raw, IsTitled)| == |Merged(raw)[k].sources| + |Filter(Filter(raw, LacksKey(k)), IsTitled)|
  {
    MergedEntry(raw, k);
    MergedDomain(raw, k);
    FilterCountSplit(raw, IsTitled, HasKey(k), LacksKey(k));
  }

  /**
   * Every kept raw item contributes exactly one source reference: the
   * references over all merged items number the raw items with a non-empty
   * trimmed title.
   */
  lemma {:induction false} ListedSourceTotal(items: seq<VideoItem>, raw: seq<RawVideo>)
    requires Lists(items, Merged(raw))
    ensures TotalSources(items) == |Filter(raw, IsTitled)|
    decreases |items|
  {
    if items == [] {
      MergedNothing(raw);
    } else {
      var init, k := items[..|items| - 1], ItemKey(items[|items| - 1]);
      ListsDropLast(items, Merged(raw));
      MergedWithout(raw, k);
      ListedSourceTotal(init, Filter(raw, LacksKey(k)));
      CountByTitle(raw, k);
    }
  }

  /** Two raw items with the same non-empty trimmed title merge into one entry: the first one's fields, both references in order. */
  lemma MergeSameTitle(a: RawVideo, b: RawVideo)
    requires TitleKey(a) != "" && TitleKey(a) == TitleKey(b)
    ensures Merged([a, b]) == map[TitleKey(a) := VideoItem(a.vodName, a.vodPic, a.vodRemarks, a.typeName, [Info(a), Info(b)])]
  {
    assert [a] == [] + [a];
    assert [a, b] == [a] + [b];
    MergedSnoc([], a);
    MergedSnoc([a], b);
    assert [Info(a)] + [Info(b)] == [Info(a), Info(b)];
  }

  /** Worked example: "Foo" and "  Foo  " have the same trimmed title, "Foo". */
  lemma PaddedTitleExample()
    ensures TrimSpace("  Foo  ") == TrimSpace("Foo") == "Foo"
  {
    TrimSpaceOfTrimmed("Foo");
    assert "  " + "Foo" + "  " == "  Foo  ";
    TrimSpaceIgnoresPadding("  ", "Foo", "  ");
  }

  // ---------------------------------------------------------------------
  // Source selection and collection.
  // ---------------------------------------------------------------------

  /** The adult switch of a search: every source passes when adult content is requested, otherwise only the non-adult ones. */
  function Admits(includeAdult: bool): SourceItem -> bool {
    (src: SourceItem) => includeAdult || !src.adult
  }

  /** The sources a search dispatches to, in configuration order. */
  function Candidates(sources: seq<SourceItem>, includeAdult: bool): seq<SourceItem> {
    Filter(Filter(sources, IsEnabled), Admits(includeAdult))
  }

  /**
   * The candidates are exactly the enabled sources that pass the adult
   * switch, kept in configuration order.
   */
  lemma CandidatesExactly(sources: seq<SourceItem>, includeAdult: bool)
    ensures forall s :: s in Candidates(sources, includeAdult) <==> s in sources && s.enabled && (includeAdult || !s.adult)
    ensures IsSubsequence(Candidates(sources, includeAdult), sources)
  {
    FilterTwiceIsSubsequence(sources, IsEnabled, Admits(includeAdult));
    FilterMembers(sources, IsEnabled);
    FilterMembers(Filter(sources, IsEnabled), Admits(includeAdult));
  }

  lemma AdmitsSnoc(prefix: seq<SourceItem>, src: SourceItem, includeAdult: bool)
    ensures Filter(prefix + [src], Admits(includeAdult))
      == Filter(prefix, Admits(includeAdult)) + (if includeAdult || !src.adult then [src] else [])
  {
    FilterAppend(prefix, [src], Admits(includeAdult));
    assert [src][1..] == [];
  }

  /** A successful outcome: its source answered without error. */
  function Succeeded(o: SourceOutcome): bool {
    o.err.None?
  }

  /** The raw items of the successful outcomes, concatenated in arrival order. */
  function Collected(outcomes: seq<SourceOutcome>): seq<RawVideo>
    decreases |outcomes|
  {
    if outcomes == [] then []
    else
      var last := outcomes[|outcomes| - 1];
      Collected(outcomes[..|outcomes| - 1]) + (if Succeeded(last) then last.list else [])
  }

  lemma CollectedSnoc(outcomes: seq<SourceOutcome>, o: SourceOutcome)
    ensures Collected(outcomes + [o]) == Collected(outcomes) + (if Succeeded(o) then o.list else [])
  {
    assert (outcomes + [o])[..|outcomes|] == outcomes;
  }

  /** Collecting a concatenation of arrivals concatenates what each part collects. */
  lemma {:induction false} CollectedAppend(a: seq<SourceOutcome>, b: seq<SourceOutcome>)
    ensures Collected(a + b) == Collected(a) + Collected(b)
    decreases |b|
  {
    if b == [] {
      assert a + b == a;
    } else {
      var init, o := b[..|b| - 1], b[|b| - 1];
      assert a + b == (a + init) + [o];
      assert b == init + [o];
      CollectedAppend(a, init);
      CollectedSnoc(a + init, o);
      CollectedSnoc(init, o);
    }
  }

  /** Failed outcomes contribute nothing: collecting only the successful ones gives the same items. */
  lemma {:induction false} CollectedIgnoresFailures(outcomes: seq<SourceOutcome>)
    ensures Collected(Filter(outcomes, Succeeded)) == Collected(outcomes)
    decreases |outcomes|
  {
    if outcomes != [] {
      var init, o := outcomes[..|outcomes| - 1], outcomes[|outcomes| - 1];
      assert outcomes == init + [o];
      CollectedIgnoresFailures(init);
      FilterAppend(init, [o], Succeeded);
      assert [o][1..] == [];
      CollectedSnoc(init, o);
      if Succeeded(o) {
        CollectedSnoc(Filter(init, Succeeded), o);
      } else {
        assert Filter(init, Succeeded) + [] == Filter(init, Succeeded);
      }
    }
  }

  /** A raw item is collected exactly when some successful outcome carries it. */
  lemma {:induction false} CollectedMembers(outcomes: seq<SourceOutcome>, v: RawVideo)
    ensures v in Collected(outcomes) <==> exists o :: o in outcomes && Succeeded(o) && v in o.list
    decreases |outcomes|
  {
    if outcomes != [] {
      var init, o := outcomes[..|outcomes| - 1], outcomes[|outcomes| - 1];
      assert outcomes == init + [o];
      CollectedMembers(init, v);
      if v in Collected(outcomes) && v !in Collected(init) {
        assert o in outcomes;
      }
    }
  }

  /**
   * The merged titles do not depend on the order in which the sources
   * answer: two arrival orders of the same outcomes merge to the same titles,
   * hence to the same number of items.
   */
  lemma MergedTitlesIgnoreArrivalOrder(a: seq<SourceOutcome>, b: seq<SourceOutcome>)
    requires multiset(a) == multiset(b)
    ensures Keys(Collected(a)) == Keys(Collected(b))
  {
    forall v ensures v in Collected(a) <==> v in Collected(b) {
      CollectedMembers(a, v);
      CollectedMembers(b, v);
      assert forall o :: o in a <==> o in multiset(a);
      assert forall o :: o in b <==> o in multiset(b);
    }
  }

  /** The sources that answered, in arrival order. */
  function Answered(arrival: seq<SourceOutcome>): seq<SourceItem> {
    seq(|arrival|, i requires 0 <= i < |arrival| => arrival[i].source)
  }

  /** The fan-in delivers one outcome per dispatched source, in some order. */
  ghost predicate FanIn(arrival: seq<SourceOutcome>, dispatched: seq<SourceItem>) {
    multiset(Answered(arrival)) == multiset(dispatched)
  }

  /** Nothing dispatched, nothing arrives. */
  lemma NothingDispatched(arrival: seq<SourceOutcome>)
    requires FanIn(arrival, [])
    ensures arrival == []
  {
    assert |Answered(arrival)| == |multiset(Answered(arrival))| == 0;
  }

  /** The adult filter of Search: the given sources that pass the adult switch, in order. */
  method FilterAdult(allSources: seq<SourceItem>, includeAdult: bool) returns (sources: seq<SourceItem>)
    ensures sources == Filter(allSources, Admits(includeAdult))
  {
    sources := [];
    for i := 0 to |allSources|
      invariant sources == Filter(allSources[..i], Admits(includeAdult))
    {
      var src := allSources[i];
      assert allSources[..i + 1] == allSources[..i] + [src];
      AdmitsSnoc(allSources[..i], src, includeAdult);
      if includeAdult || !src.adult {
        sources := sources + [src];
      }
    }
    assert allSources[..|allSources|] == allSources;
  }

  /** The collection loop of Search: the items of every successful outcome, in arrival order. */
  method CollectResults(arrival: seq<SourceOutcome>) returns (allResults: seq<RawVideo>)
    ensures allResults == Collected(arrival)
  {
    allResults := [];
    for i := 0 to |arrival|
      invariant allResults == Collected(arrival[..i])
    {
      var r := arrival[i];
      assert arrival[..i + 1] == arrival[..i] + [r];
      CollectedSnoc(arrival[..i], r);
      if r.err.Some? {
        continue;
      }
      allResults := allResults + r.list;
    }
    assert arrival[..|arrival|] == arrival;
  }

  /**
   * Search: dispatch to the candidate sources (none: an empty list and no
   * error), skip the outcomes that failed, merge the items of the others in
   * arrival order. It never reports an error. `dispatched` is the list the
   * fan-out starts one request for; `arrival` is what the fan-in then
   * delivers for exactly those requests.
   */
  method Search(c: Config, includeAdult: bool, arrival: seq<SourceOutcome>)
    returns (items: seq<VideoItem>, err: Option<string>, dispatched: seq<SourceItem>)
    requires FanIn(arrival, Candidates(c.sources, includeAdult))
    ensures dispatched == Candidates(c.sources, includeAdult)
    ensures err.None?
    ensures dispatched == [] ==> items == []
    ensures Lists(items, Merged(Collected(arrival)))
  {
    var allSources := GetEnabledSources(c);
    var sources := FilterAdult(allSources, includeAdult);
    dispatched := sources;
    if |sources| == 0 {
      NothingDispatched(arrival);
      return [], None, dispatched;
    }
    var allResults := CollectResults(arrival);
    items := MergeResults(allResults);
    return items, None, dispatched;
  }
}
