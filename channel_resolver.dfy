/**
 * The nearest-channel resolver of the `play_channel` tool: the query and
 * every channel name are lower-cased, every channel of the service plan is
 * scanned once in the plan's order, the strictly closest one by edit
 * distance is kept (so ties stay with the first channel met), and the play
 * URL is built from the winner's id.
 *
 * The decoded channel map is the input, as the sequence of its values in
 * insertion order (the order in which a Python dict iterates); the map's
 * keys play no part in the selection.
 */
module ChannelResolver {
  import opened EditDistance

  datatype Option<T> = None | Some(value: T)

  /** A channel record of the service plan; either field may be absent. */
  datatype ChannelData = ChannelData(id: Option<string>, name: Option<string>)

  /** Lower-casing of one character, restricted to the ASCII letters. */
  function LowerChar(c: char): (r: char)
    ensures !('A' <= r <= 'Z')
    ensures 'A' <= c <= 'Z' ==> r as int == c as int + 32
    ensures !('A' <= c <= 'Z') ==> r == c
  {
    if 'A' <= c <= 'Z' then (c as int + 32) as char else c
  }

  /** Lower-casing of a string, character by character. */
  function Lower(s: string): (r: string)
    ensures |r| == |s|
    ensures forall k :: 0 <= k < |r| ==> !('A' <= r[k] <= 'Z')
    ensures forall k :: 0 <= k < |s| && 'A' <= s[k] <= 'Z' ==> r[k] as int == s[k] as int + 32
    ensures forall k :: 0 <= k < |s| && !('A' <= s[k] <= 'Z') ==> r[k] == s[k]
  {
    seq(|s|, k requires 0 <= k < |s| => LowerChar(s[k]))
  }

  /** Lower-casing twice is lower-casing once. */
  lemma LowerIdempotent(s: string)
    ensures Lower(Lower(s)) == Lower(s)
  {
  }

  /** `channel_data.get("name", "")`. */
  function NameOf(c: ChannelData): string
  {
    match c.name
    case Some(n) => n
    case None => ""
  }

  /** Distance the resolver measures between the query and a channel. */
  ghost function NameDistance(query: string, c: ChannelData): nat
  {
    Dist(Lower(query), Lower(NameOf(c)))
  }

  /** A channel without a name is measured against the empty string. */
  lemma MissingNameDistance(query: string, id: Option<string>)
    ensures NameDistance(query, ChannelData(id, None)) == |query|
  {
    DistToEmpty(Lower(query));
  }

  /** The distance of each channel of the plan to the query, in plan order. */
  ghost function Distances(query: string, channels: seq<ChannelData>): (ds: seq<nat>)
    ensures |ds| == |channels|
  {
    seq(|channels|, k requires 0 <= k < |channels| => NameDistance(query, channels[k]))
  }

  lemma DistancesAppend(query: string, channels: seq<ChannelData>, c: ChannelData)
    ensures Distances(query, channels + [c]) == Distances(query, channels) + [NameDistance(query, c)]
  {
  }

  /**
   * Index a left-to-right scan of `ds` ends with when it replaces its
   * current best only by a strictly smaller value; `None` for an empty `ds`.
   */
  function FirstMin(ds: seq<nat>): (r: Option<nat>)
    ensures r.None? <==> ds == []
    ensures r.Some? ==> r.value < |ds|
    decreases |ds|
  {
    if ds == [] then None
    else
      var last := |ds| - 1;
      match FirstMin(ds[..last])
      case None => Some(last)
      case Some(k) => if ds[last] < ds[k] then Some(last) else Some(k)
  }

  /** `ds[k]` is a minimum of `ds`, and every value before it is strictly larger. */
  ghost predicate IsFirstMin(ds: seq<nat>, k: nat)
  {
    k < |ds|
    && (forall j :: 0 <= j < |ds| ==> ds[k] <= ds[j])
    && (forall j :: 0 <= j < k ==> ds[k] < ds[j])
  }

  lemma {:induction false} FirstMinIsFirstMinimum(ds: seq<nat>)
    requires ds != []
    ensures FirstMin(ds).Some? && IsFirstMin(ds, FirstMin(ds).value)
    decreases |ds|
  {
    var last := |ds| - 1;
    var prefix := ds[..last];
    if prefix != [] {
      FirstMinIsFirstMinimum(prefix);
      assert forall j :: 0 <= j < last ==> prefix[j] == ds[j];
    }
  }

  lemma FirstMinUnique(ds: seq<nat>, k1: nat, k2: nat)
    requires IsFirstMin(ds, k1) && IsFirstMin(ds, k2)
    ensures k1 == k2
  {
    assert ds[k1] == ds[k2];
  }

  /**
   * The scan picks exactly the position of the smallest value, the first
   * one of them on a tie.
   */
  lemma FirstMinCharacterised(ds: seq<nat>, k: nat)
    ensures FirstMin(ds) == Some(k) <==> IsFirstMin(ds, k)
  {
    if ds != [] {
      FirstMinIsFirstMinimum(ds);
      if IsFirstMin(ds, k) {
        FirstMinUnique(ds, k, FirstMin(ds).value);
      }
    }
  }

  /** A value appended at no less than the current best does not replace it. */
  lemma FirstMinKeepsFirstOnTie(ds: seq<nat>, d: nat)
    requires ds != []
    requires d >= ds[FirstMin(ds).value]
    ensures FirstMin(ds + [d]) == FirstMin(ds)
  {
    assert (ds + [d])[..|ds|] == ds;
  }

  /** A value appended strictly below the current best replaces it. */
  lemma FirstMinTakesStrictlySmaller(ds: seq<nat>, d: nat)
    requires ds != []
    requires d < ds[FirstMin(ds).value]
    ensures FirstMin(ds + [d]) == Some(|ds|)
  {
    assert (ds + [d])[..|ds|] == ds;
  }

  /** Index of the channel the resolver selects for `query`. */
  ghost function Nearest(query: string, channels: seq<ChannelData>): (r: Option<nat>)
    ensures r.None? <==> channels == []
    ensures r.Some? ==> r.value < |channels|
  {
    FirstMin(Distances(query, channels))
  }

  /**
   * The selected channel is one no other channel is strictly closer to,
   * and every channel before it is strictly farther.
   */
  lemma NearestIsClosest(query: string, channels: seq<ChannelData>, k: nat)
    ensures Nearest(query, channels) == Some(k) <==>
      var ds := Distances(query, channels);
      && k < |channels|
      && (forall j :: 0 <= j < |channels| ==> ds[k] <= ds[j])
      && (forall j :: 0 <= j < k ==> ds[k] < ds[j])
  {
    FirstMinCharacterised(Distances(query, channels), k);
  }

  /** Case-insensitivity: queries that lower-case alike resolve alike. */
  lemma NearestIgnoresQueryCase(q1: string, q2: string, channels: seq<ChannelData>)
    requires Lower(q1) == Lower(q2)
    ensures Nearest(q1, channels) == Nearest(q2, channels)
  {
    assert Distances(q1, channels) == Distances(q2, channels);
  }

  const PlayUrlPrefix: string := "https://oqee.tv/home/channels/"
  const PlayUrlSuffix: string := "/play"

  /** Python's rendering of `best_match.get('id')` inside an f-string. */
  function IdText(id: Option<string>): string
  {
    match id
    case Some(s) => s
    case None => "None"
  }

  /** The play URL for a channel id. */
  function PlayUrl(id: string): (url: string)
    ensures |url| == |PlayUrlPrefix| + |id| + |PlayUrlSuffix|
    ensures url[..|PlayUrlPrefix|] == PlayUrlPrefix
    ensures url[|PlayUrlPrefix|..|url| - |PlayUrlSuffix|] == id
    ensures url[|url| - |PlayUrlSuffix|..] == PlayUrlSuffix
  {
    PlayUrlPrefix + id + PlayUrlSuffix
  }

  /** Reads the channel id back out of a play URL; `None` if `url` is not one. */
  function PlayUrlChannelId(url: string): Option<string>
  {
    if |url| >= |PlayUrlPrefix| + |PlayUrlSuffix|
       && url[..|PlayUrlPrefix|] == PlayUrlPrefix
       && url[|url| - |PlayUrlSuffix|..] == PlayUrlSuffix
    then Some(url[|PlayUrlPrefix|..|url| - |PlayUrlSuffix|])
    else None
  }

  /** The play URL carries the channel id unchanged, so distinct ids give distinct URLs. */
  lemma PlayUrlRoundTrip(id: string)
    ensures PlayUrlChannelId(PlayUrl(id)) == Some(id)
  {
    var url := PlayUrl(id);
    assert url[|PlayUrlPrefix|..|url| - |PlayUrlSuffix|] == id;
  }

  /** `distance < min_distance`, where `None` stands for `float('inf')`. */
  function Closer(distance: nat, minDistance: Option<nat>): bool
  {
    match minDistance
    case None => true
    case Some(m) => distance < m
  }

  /**
   * The selection loop of `play_channel` and the URL built from its
   * winner. An empty plan gives no URL; otherwise the URL is that of the
   * channel `Nearest` names, which `NearestIsClosest` shows to be the
   * first of the closest channels.
   */
  method PlayChannel(channelName: string, channels: seq<ChannelData>) returns (url: Option<string>)
    ensures channels == [] ==> url == None
    ensures channels != [] ==> url == Some(PlayUrl(IdText(channels[Nearest(channelName, channels).value].id)))
  {
    if channels == [] {
      return None;
    }
    var bestMatch: Option<ChannelData> := None;
    var minDistance: Option<nat> := None;
    ghost var bestIndex: Option<nat> := None;
    var i := 0;
    while i < |channels|
      invariant 0 <= i <= |channels|
      invariant bestIndex == Nearest(channelName, channels[..i])
      invariant bestIndex.None? ==> bestMatch.None? && minDistance.None?
      invariant bestIndex.Some? ==>
        && bestIndex.value < i
        && bestMatch == Some(channels[bestIndex.value])
        && minDistance == Some(NameDistance(channelName, channels[bestIndex.value]))
    {
      var channelData := channels[i];
      var name := NameOf(channelData);
      var distance := LevenshteinDistance(Lower(channelName), Lower(name));
      assert channels[..i + 1] == channels[..i] + [channelData];
      DistancesAppend(channelName, channels[..i], channelData);
      if Closer(distance, minDistance) {
        minDistance := Some(distance);
        bestMatch := Some(channelData);
        bestIndex := Some(i);
      }
      i := i + 1;
    }
    assert channels[..i] == channels;
    match bestMatch
    case Some(c) =>
      url := Some(PlayUrl(IdText(c.id)));
    case None =>
      url := None;
  }
}
