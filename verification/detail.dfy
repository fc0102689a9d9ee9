/**
 * The detail path of backend/internal/service/detail.go: look the source up
 * by code, fetch the raw record through the source client, and turn its play
 * URL into the list of playable episode URLs.
 *
 * A play URL has three levels: groups (one per player line) separated by
 * "$$$", episodes inside a group separated by "#", and the name and URL of
 * an episode separated by "$".
 */
module Detail {
  import opened Wrappers
  import opened GoStrings
  import opened Model
  import opened Config

  // ---------------------------------------------------------------------
  // Choosing the group.
  // ---------------------------------------------------------------------

  /** The test parseEpisodes applies to a group: it mentions ".m3u8" or "m3u8". */
  predicate HasStreamMarker(group: string) {
    Contains(group, ".m3u8") || Contains(group, "m3u8")
  }

  /** The first half of the test is subsumed by the second: the marker is just "m3u8". */
  lemma StreamMarkerIsM3u8(group: string)
    ensures HasStreamMarker(group) <==> Contains(group, "m3u8")
  {
    if Contains(group, ".m3u8") {
      var j :| OccursAt(group, ".m3u8", j);
      assert group[j + 1..j + 5] == group[j..j + 5][1..];
      assert OccursAt(group, "m3u8", j + 1);
    }
  }

  /** The position of the first group with a stream marker, or |groups| when none has one. */
  function FirstMarked(groups: seq<string>): (i: nat)
    ensures i <= |groups|
    ensures i < |groups| ==> HasStreamMarker(groups[i])
    ensures forall j :: 0 <= j < i ==> !HasStreamMarker(groups[j])
  {
    if groups == [] then 0
    else if HasStreamMarker(groups[0]) then 0
    else 1 + FirstMarked(groups[1..])
  }

  /** The group parseEpisodes plays: the first one with a stream marker, or the first one if none has one. */
  function SelectedGroup(groups: seq<string>): (g: string)
    requires |groups| >= 1
    ensures g in groups
    ensures (forall j :: 0 <= j < |groups| ==> !HasStreamMarker(groups[j])) ==> g == groups[0]
    ensures (exists j :: 0 <= j < |groups| && HasStreamMarker(groups[j])) ==>
      HasStreamMarker(g) && exists i :: 0 <= i < |groups| && g == groups[i] && forall j :: 0 <= j < i ==> !HasStreamMarker(groups[j])
  {
    var i := FirstMarked(groups);
    if i < |groups| then groups[i] else groups[0]
  }

  // ---------------------------------------------------------------------
  // Episodes.
  // ---------------------------------------------------------------------

  /** The URL test: an http:// or https:// prefix. */
  predicate IsHttpUrl(u: string) {
    HasPrefix(u, "http://") || HasPrefix(u, "https://")
  }

  /**
   * The URL one "#"-segment contributes: its second "$"-field, when there is
   * one and it is an http(s) URL. The URL never contains "$".
   */
  function EpisodeUrl(segment: string): (r: Option<string>)
    ensures r.Some? ==> IsHttpUrl(r.value) && !Contains(r.value, "$")
  {
    var parts := Split(segment, "$");
    if |parts| >= 2 && IsHttpUrl(parts[1]) then Some(parts[1]) else None
  }

  /** A segment without "$" has a single field and is dropped. */
  lemma EpisodeUrlOneField(segment: string)
    requires '$' !in segment
    ensures EpisodeUrl(segment) == None
  {
    SplitWithout(segment, '$');
  }

  /** A segment "name$url" yields url exactly when url is an http(s) URL. */
  lemma EpisodeUrlTwoFields(name: string, url: string)
    requires '$' !in name && '$' !in url
    ensures EpisodeUrl(name + "$" + url) == if IsHttpUrl(url) then Some(url) else None
  {
    SplitAtFirst(name, '$', url);
    SplitWithout(url, '$');
  }

  /** In a segment with more than two fields only the second one counts. */
  lemma EpisodeUrlMoreFields(name: string, url: string, rest: string)
    requires '$' !in name && '$' !in url
    ensures EpisodeUrl(name + "$" + url + "$" + rest) == if IsHttpUrl(url) then Some(url) else None
  {
    assert name + "$" + url + "$" + rest == name + "$" + (url + "$" + rest);
    SplitAtFirst(name, '$', url + "$" + rest);
    assert url + "$" + rest == url + ['$'] + rest;
    SplitAtFirst(url, '$', rest);
  }

  /** The URLs the segments yield, in segment order. */
  function EpisodeUrls(segments: seq<string>): (urls: seq<string>)
    ensures |urls| <= |segments|
    ensures forall u :: u in urls ==> IsHttpUrl(u)
    decreases |segments|
  {
    if segments == [] then []
    else
      var init := EpisodeUrls(segments[..|segments| - 1]);
      match EpisodeUrl(segments[|segments| - 1])
      case Some(u) => init + [u]
      case None => init
  }

  lemma EpisodeUrlsSnoc(segments: seq<string>, s: string)
    ensures EpisodeUrls(segments + [s]) == EpisodeUrls(segments) + (if EpisodeUrl(s).Some? then [EpisodeUrl(s).value] else [])
  {
    assert (segments + [s])[..|segments|] == segments;
  }

  /** The URLs of consecutive runs of segments come out one run after the other: segment order is kept. */
  lemma {:induction false} EpisodeUrlsAppend(a: seq<string>, b: seq<string>)
    ensures EpisodeUrls(a + b) == EpisodeUrls(a) + EpisodeUrls(b)
    decreases |b|
  {
    if b == [] {
      assert a + b == a;
    } else {
      var init, s := b[..|b| - 1], b[|b| - 1];
      assert a + b == (a + init) + [s];
      assert b == init + [s];
      EpisodeUrlsAppend(a, init);
      EpisodeUrlsSnoc(a + init, s);
      EpisodeUrlsSnoc(init, s);
    }
  }

  /** A URL is returned exactly when some segment yields it. */
  lemma {:induction false} EpisodeUrlsMembers(segments: seq<string>, u: string)
    ensures u in EpisodeUrls(segments) <==> exists s :: s in segments && EpisodeUrl(s) == Some(u)
    decreases |segments|
  {
    if segments != [] {
      var init, s := segments[..|segments| - 1], segments[|segments| - 1];
      assert segments == init + [s];
      EpisodeUrlsMembers(init, u);
      EpisodeUrlsSnoc(init, s);
    }
  }

  /** What parseEpisodes returns for a play URL. */
  function PlayEpisodes(playUrl: string): seq<string> {
    if playUrl == "" then []
    else EpisodeUrls(Split(SelectedGroup(Split(playUrl, "$$$")), "#"))
  }

  /**
   * The group-selection loop of parseEpisodes: the first group that mentions
   * ".m3u8" or "m3u8", else the first group.
   */
  method SelectSource(sources: seq<string>) returns (selectedSource: string)
    requires |sources| >= 1
    ensures selectedSource == SelectedGroup(sources)
  {
    selectedSource := sources[0];
    for i := 0 to |sources|
      invariant forall j :: 0 <= j < i ==> !HasStreamMarker(sources[j])
      invariant selectedSource == sources[0]
    {
      var src := sources[i];
      if Contains(src, ".m3u8") || Contains(src, "m3u8") {
        selectedSource := src;
        assert FirstMarked(sources) == i;
        break;
      }
    }
  }

  /**
   * parseEpisodes: no episodes for an empty play URL; otherwise the URLs of
   * the first group that mentions m3u8 (the first group if none does).
   */
  method ParseEpisodes(playUrl: string) returns (episodes: seq<string>)
    ensures episodes == PlayEpisodes(playUrl)
    ensures playUrl == "" ==> episodes == []
    ensures forall u :: u in episodes ==> IsHttpUrl(u)
  {
    if playUrl == "" {
      return [];
    }

    // Split by groups; Split always yields at least one part, so Go's
    // len(sources) == 0 branch cannot be taken.
    var sources := Split(playUrl, "$$$");

    // Prefer a group containing m3u8.
    var selectedSource := SelectSource(sources);

    // Split episodes.
    var epList := Split(selectedSource, "#");
    episodes := [];
    for k := 0 to |epList|
      invariant episodes == EpisodeUrls(epList[..k])
    {
      var ep := epList[k];
      assert epList[..k + 1] == epList[..k] + [ep];
      EpisodeUrlsSnoc(epList[..k], ep);
      var parts := Split(ep, "$");
      if |parts| >= 2 {
        var url := parts[1];
        if HasPrefix(url, "http://") || HasPrefix(url, "https://") {
          episodes := episodes + [url];
        }
      }
    }
    assert epList[..|epList|] == epList;
  }

  // ---------------------------------------------------------------------
  // Group selection and episode extraction on play URLs of a given shape.
  // ---------------------------------------------------------------------

  /** A group whose first "$$$"-free stretch mentions m3u8 is played, whatever follows it. */
  lemma FirstGroupWins(g1: string, g2: string)
    requires Isolated(g1, '$') && g1 != [] && g1[|g1| - 1] != '$' && HasStreamMarker(g1)
    ensures PlayEpisodes(g1 + "$$$" + g2) == EpisodeUrls(Split(g1, "#"))
  {
    NoRunBefore(g1, '$', g2);
    SplitAt(g1, "$$$", g2);
    assert Split(g1 + "$$$" + g2, "$$$")[0] == g1;
  }

  /**
   * Two groups where "$" never repeats: a later group that mentions m3u8
   * wins over an earlier one that does not, and the earlier one's episodes
   * are all dropped.
   */
  lemma MarkedGroupWins(g1: string, g2: string)
    requires Isolated(g1, '$') && g1 != [] && g1[|g1| - 1] != '$' && Isolated(g2, '$')
    requires !HasStreamMarker(g1) && HasStreamMarker(g2)
    ensures PlayEpisodes(g1 + "$$$" + g2) == EpisodeUrls(Split(g2, "#"))
  {
    NoRunBefore(g1, '$', g2);
    SplitAt(g1, "$$$", g2);
    NoRun(g2, '$');
    assert Split(g2, "$$$") == [g2];
    assert Split(g1 + "$$$" + g2, "$$$") == [g1, g2];
    assert FirstMarked([g1, g2]) == 1 by {
      assert [g1, g2][1..] == [g2];
    }
  }

  /** Two segments free of "#" are the two pieces of their "#"-join. */
  lemma SplitTwoSegments(e1: string, e2: string)
    requires '#' !in e1 && '#' !in e2
    ensures Split(e1 + "#" + e2, "#") == [e1, e2]
  {
    assert e1 + "#" + e2 == e1 + ['#'] + e2;
    SplitAtFirst(e1, '#', e2);
    SplitWithout(e2, '#');
  }

  /** Two segments that each yield a URL yield both, in order. */
  lemma EpisodeUrlsPair(e1: string, e2: string)
    requires EpisodeUrl(e1).Some? && EpisodeUrl(e2).Some?
    ensures EpisodeUrls([e1, e2]) == [EpisodeUrl(e1).value, EpisodeUrl(e2).value]
  {
    EpisodeUrlsSnoc([], e1);
    assert [e1, e2] == [e1] + [e2];
    EpisodeUrlsSnoc([e1], e2);
  }

  /** Two "name$url" segments joined by "#" yield their two URLs in order. */
  lemma TwoEpisodes(n1: string, u1: string, n2: string, u2: string)
    requires '$' !in n1 && '$' !in u1 && '$' !in n2 && '$' !in u2
    requires '#' !in n1 && '#' !in u1 && '#' !in n2 && '#' !in u2
    requires IsHttpUrl(u1) && IsHttpUrl(u2)
    ensures EpisodeUrls(Split(n1 + "$" + u1 + "#" + n2 + "$" + u2, "#")) == [u1, u2]
  {
    var e1, e2 := n1 + "$" + u1, n2 + "$" + u2;
    assert n1 + "$" + u1 + "#" + n2 + "$" + u2 == e1 + "#" + e2;
    SplitTwoSegments(e1, e2);
    EpisodeUrlTwoFields(n1, u1);
    EpisodeUrlTwoFields(n2, u2);
    EpisodeUrlsPair(e1, e2);
  }

  /** In a group of two "name$url" episodes, no two "$" are adjacent and the group does not end in "$". */
  lemma TwoEpisodesIsolated(n1: string, u1: string, n2: string, u2: string)
    requires '$' !in n1 && '$' !in u1 && '$' !in n2 && '$' !in u2
    requires u1 != [] && u2 != []
    ensures var g := n1 + "$" + u1 + "#" + n2 + "$" + u2;
      Isolated(g, '$') && g[|g| - 1] != '$'
  {
    var mid := u1 + "#" + n2;
    IsolatedJoin(mid, '$', u2);
    assert n1 + "$" + u1 + "#" + n2 + "$" + u2 == n1 + ['$'] + (mid + ['$'] + u2);
    IsolatedJoin(n1, '$', mid + ['$'] + u2);
    assert u2[|u2| - 1] in u2;
  }

  /** A group mentions m3u8 when one of its URLs does. */
  lemma TwoEpisodesMarked(n1: string, u1: string, n2: string, u2: string)
    requires Contains(u1, "m3u8")
    ensures HasStreamMarker(n1 + "$" + u1 + "#" + n2 + "$" + u2)
  {
    assert n1 + "$" + u1 + "#" + n2 + "$" + u2 == (n1 + "$") + u1 + ("#" + n2 + "$" + u2);
    ContainsWithin(n1 + "$", u1, "#" + n2 + "$" + u2, "m3u8");
  }

  /** A group none of whose parts has a "3" cannot mention m3u8. */
  lemma GroupUnmarked(n1: string, u1: string, n2: string, u2: string)
    requires '3' !in n1 && '3' !in u1 && '3' !in n2 && '3' !in u2
    ensures !HasStreamMarker(n1 + "$" + u1 + "#" + n2 + "$" + u2)
  {
    var g := n1 + "$" + u1 + "#" + n2 + "$" + u2;
    MissingChar(g, "m3u8", '3');
    MissingChar(g, ".m3u8", '3');
  }

  // ---------------------------------------------------------------------
  // Worked examples.
  //
  // The strings of these examples come in as parameters pinned by a
  // `requires` (`requires n1 == "E01"`) rather than as literals: a literal in
  // an `ensures` makes the verifier unfold Split and Index on it character by
  // character, which exhausts its resources. The general lemmas above then
  // carry the proof.
  // ---------------------------------------------------------------------

  /** The URLs of the worked examples below. */
  lemma ExampleUrls(a1: string, a2: string, b1: string, b2: string)
    requires a1 == "http://a/1.m3u8" && a2 == "http://a/2.m3u8" && b1 == "http://b/1.mp4" && b2 == "http://b/2.mp4"
    ensures IsHttpUrl(a1) && IsHttpUrl(a2) && IsHttpUrl(b1) && IsHttpUrl(b2)
    ensures Contains(a1, "m3u8")
  {
    assert a1 == "http://a/1." + "m3u8" + "";
    OccursBetween("http://a/1.", "m3u8", "");
  }

  /** The URLs of the worked examples below hold no separator, and the MP4 ones no "3". */
  lemma ExampleUrlsPlain(a1: string, a2: string, b1: string, b2: string)
    requires a1 == "http://a/1.m3u8" && a2 == "http://a/2.m3u8" && b1 == "http://b/1.mp4" && b2 == "http://b/2.mp4"
    ensures Plain(a1) && Plain(a2) && Plain(b1) && Plain(b2)
    ensures '3' !in b1 && '3' !in b2
  {
  }

  /** "name$url" segment text, free of the three separators' characters. */
  predicate Plain(t: string) {
    '$' !in t && '#' !in t
  }

  /** A play URL whose first line has two episodes, the first URL HLS: that line's two URLs are played. */
  lemma HlsFirstLine(n1: string, u1: string, n2: string, u2: string, rest: string)
    requires Plain(n1) && Plain(u1) && Plain(n2) && Plain(u2)
    requires IsHttpUrl(u1) && IsHttpUrl(u2) && Contains(u1, "m3u8")
    ensures PlayEpisodes(n1 + "$" + u1 + "#" + n2 + "$" + u2 + "$$$" + rest) == [u1, u2]
  {
    var g1 := n1 + "$" + u1 + "#" + n2 + "$" + u2;
    TwoEpisodesIsolated(n1, u1, n2, u2);
    TwoEpisodesMarked(n1, u1, n2, u2);
    FirstGroupWins(g1, rest);
    TwoEpisodes(n1, u1, n2, u2);
  }

  /**
   * A play URL of two lines of two episodes, where only the second line is
   * HLS: the second line's two URLs are played.
   */
  lemma HlsSecondLine(m1: string, v1: string, m2: string, v2: string, n1: string, u1: string, n2: string, u2: string)
    requires Plain(m1) && Plain(v1) && Plain(m2) && Plain(v2) && v1 != [] && v2 != []
    requires !HasStreamMarker(m1 + "$" + v1 + "#" + m2 + "$" + v2)
    requires Plain(n1) && Plain(u1) && Plain(n2) && Plain(u2)
    requires IsHttpUrl(u1) && IsHttpUrl(u2) && Contains(u1, "m3u8")
    ensures PlayEpisodes(m1 + "$" + v1 + "#" + m2 + "$" + v2 + "$$$" + n1 + "$" + u1 + "#" + n2 + "$" + u2) == [u1, u2]
  {
    var g1 := m1 + "$" + v1 + "#" + m2 + "$" + v2;
    var g2 := n1 + "$" + u1 + "#" + n2 + "$" + u2;
    assert m1 + "$" + v1 + "#" + m2 + "$" + v2 + "$$$" + n1 + "$" + u1 + "#" + n2 + "$" + u2 == g1 + "$$$" + g2;
    TwoEpisodesIsolated(m1, v1, m2, v2);
    TwoEpisodesIsolated(n1, u1, n2, u2);
    TwoEpisodesMarked(n1, u1, n2, u2);
    MarkedGroupWins(g1, g2);
    TwoEpisodes(n1, u1, n2, u2);
  }

  /**
   * Worked example:
   * "E01$http://a/1.m3u8#E02$http://a/2.m3u8$$$E01$http://b/1.mp4#E02$http://b/2.mp4"
   * plays the first (HLS) line: "http://a/1.m3u8" then "http://a/2.m3u8".
   */
  lemma ParseEpisodesExample(playUrl: string, n1: string, n2: string, a1: string, a2: string, b1: string, b2: string)
    requires n1 == "E01" && n2 == "E02"
    requires a1 == "http://a/1.m3u8" && a2 == "http://a/2.m3u8" && b1 == "http://b/1.mp4" && b2 == "http://b/2.mp4"
    requires playUrl == n1 + "$" + a1 + "#" + n2 + "$" + a2 + "$$$" + (n1 + "$" + b1 + "#" + n2 + "$" + b2)
    ensures PlayEpisodes(playUrl) == [a1, a2]
  {
    ExampleUrls(a1, a2, b1, b2);
    ExampleUrlsPlain(a1, a2, b1, b2);
    HlsFirstLine(n1, a1, n2, a2, n1 + "$" + b1 + "#" + n2 + "$" + b2);
  }

  /**
   * Worked example with the lines swapped:
   * "E01$http://b/1.mp4#E02$http://b/2.mp4$$$E01$http://a/1.m3u8#E02$http://a/2.m3u8"
   * still plays the HLS line, now the second one.
   */
  lemma ParseEpisodesSwappedExample(playUrl: string, n1: string, n2: string, a1: string, a2: string, b1: string, b2: string)
    requires n1 == "E01" && n2 == "E02"
    requires a1 == "http://a/1.m3u8" && a2 == "http://a/2.m3u8" && b1 == "http://b/1.mp4" && b2 == "http://b/2.mp4"
    requires playUrl == n1 + "$" + b1 + "#" + n2 + "$" + b2 + "$$$" + n1 + "$" + a1 + "#" + n2 + "$" + a2
    ensures PlayEpisodes(playUrl) == [a1, a2]
  {
    ExampleUrls(a1, a2, b1, b2);
    ExampleUrlsPlain(a1, a2, b1, b2);
    GroupUnmarked(n1, b1, n2, b2);
    HlsSecondLine(n1, b1, n2, b2, n1, a1, n2, a2);
  }

  // ---------------------------------------------------------------------
  // GetDetail.
  // ---------------------------------------------------------------------

  /** The error GetDetail reports for an unknown source code. */
  function SourceNotFound(code: string): string {
    "source not found: " + code
  }

  /**
   * GetDetail: an unknown source code is an error naming the code; otherwise
   * the client is asked for the video at the first source with that code, its
   * error is passed through unchanged, and on success the descriptive fields
   * are copied and the episodes are parsed from the play URL. The client
   * (HTTP request and JSON decoding) is the parameter fetch.
   */
  method GetDetail(c: Config, sourceCode: string, vodId: int, fetch: (SourceItem, int) -> Result<RawVideo>)
    returns (r: Result<VideoDetail>)
    ensures (forall j :: 0 <= j < |c.sources| ==> c.sources[j].code != sourceCode) ==> r == Err(SourceNotFound(sourceCode))
    ensures (exists j :: 0 <= j < |c.sources| && c.sources[j].code == sourceCode) ==>
      var src := c.sources[FirstWithCode(c.sources, sourceCode)];
      src.code == sourceCode &&
      match fetch(src, vodId)
      case Err(e) => r == Err(e)
      case Ok(raw) => (r.Ok?
        && r.value.vodName == raw.vodName && r.value.vodPic == raw.vodPic
        && r.value.vodContent == raw.vodContent && r.value.vodYear == raw.vodYear
        && r.value.vodArea == raw.vodArea && r.value.vodDirector == raw.vodDirector
        && r.value.vodActor == raw.vodActor
        && r.value.episodes == PlayEpisodes(raw.vodPlayUrl))
  {
    var src := GetSourceByCode(c, sourceCode);
    if src.None? {
      return Err(SourceNotFound(sourceCode));
    }

    var raw := fetch(src.value, vodId);
    if raw.Err? {
      return Err(raw.msg);
    }

    // Parse play URLs into episodes.
    var episodes := ParseEpisodes(raw.value.vodPlayUrl);

    return Ok(VideoDetail(
      raw.value.vodName, raw.value.vodPic, raw.value.vodContent, raw.value.vodYear,
      raw.value.vodArea, raw.value.vodDirector, raw.value.vodActor, episodes));
  }
}
