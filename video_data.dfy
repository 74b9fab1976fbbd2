/** The pure parts of `get_video_data_by_id` in youtube_analyzer.py: the
    id check made before any request, the choice of the best thumbnail,
    and the cleaning of the title, description and tags of the reply. */
module VideoData {
  import opened Wrappers
  import opened Text
  import UrlParsing

  // ---------------------------------------------------------------------
  // _get_best_thumbnail_url

  /** The thumbnail sizes, best first. */
  const ThumbnailKeys: seq<string> := ["maxres", "standard", "high", "medium", "default"]

  /** `thumbnails` maps a size name to that thumbnail's url; the best
      size present wins. */
  function BestThumbnailUrl(thumbnails: map<string, string>): Option<string> {
    if "maxres" in thumbnails then Some(thumbnails["maxres"])
    else if "standard" in thumbnails then Some(thumbnails["standard"])
    else if "high" in thumbnails then Some(thumbnails["high"])
    else if "medium" in thumbnails then Some(thumbnails["medium"])
    else if "default" in thumbnails then Some(thumbnails["default"])
    else None
  }

  /** The url chosen is the one of the best size present. */
  lemma BestThumbnailPriority(thumbnails: map<string, string>, i: nat)
    requires i < |ThumbnailKeys| && ThumbnailKeys[i] in thumbnails
    requires forall j :: 0 <= j < i ==> ThumbnailKeys[j] !in thumbnails
    ensures BestThumbnailUrl(thumbnails) == Some(thumbnails[ThumbnailKeys[i]])
  {
    assert 0 < i ==> ThumbnailKeys[0] !in thumbnails;
    assert 1 < i ==> ThumbnailKeys[1] !in thumbnails;
    assert 2 < i ==> ThumbnailKeys[2] !in thumbnails;
    assert 3 < i ==> ThumbnailKeys[3] !in thumbnails;
  }

  /** There is no url exactly when no size is present. */
  lemma BestThumbnailNone(thumbnails: map<string, string>)
    ensures BestThumbnailUrl(thumbnails).None?
        <==> forall i :: 0 <= i < |ThumbnailKeys| ==> ThumbnailKeys[i] !in thumbnails
  {
    if BestThumbnailUrl(thumbnails).None? {
      forall i | 0 <= i < |ThumbnailKeys| ensures ThumbnailKeys[i] !in thumbnails {
        assert i == 0 || i == 1 || i == 2 || i == 3 || i == 4;
      }
    } else {
      assert ThumbnailKeys[0] in thumbnails || ThumbnailKeys[1] in thumbnails || ThumbnailKeys[2] in thumbnails
          || ThumbnailKeys[3] in thumbnails || ThumbnailKeys[4] in thumbnails;
    }
  }

  // ---------------------------------------------------------------------
  // the id check

  /** `string.ascii_letters + string.digits + '_-'` */
  predicate IdChar(c: char) {
    IsAsciiLetter(c) || IsAsciiDigit(c) || c == '_' || c == '-'
  }

  /** The check before the request: `None` stands for a value that is not
      a string; the error is the message returned. */
  function CheckVideoId(videoId: Option<string>): (r: Result<string>)
    ensures r.Ok? <==> videoId.Some? && 0 < |videoId.value| <= 11
                       && forall i :: 0 <= i < |videoId.value| ==> IdChar(videoId.value[i])
    ensures r.Ok? ==> r.value == videoId.value
    ensures (videoId.None? || videoId.value == [] || |videoId.value| > 11) ==> r == Err("Неверный ID видео.")
    ensures r.Err? && videoId.Some? && 0 < |videoId.value| <= 11 ==> r == Err("Неверный формат ID видео.")
  {
    if videoId.None? || videoId.value == [] || |videoId.value| > 11 then Err("Неверный ID видео.")
    else if !(forall i :: 0 <= i < |videoId.value| ==> IdChar(videoId.value[i])) then Err("Неверный формат ID видео.")
    else Ok(videoId.value)
  }

  /** Every id `_extract_video_id` finds uses only id characters, so it
      fails the check only by being longer than 11. */
  lemma ExtractedIdPassesFormat(input: UrlParsing.Input)
    requires UrlParsing.ExtractVideoId(input).Some?
    ensures var id := UrlParsing.ExtractVideoId(input).value;
      CheckVideoId(Some(id)).Ok? <==> |id| <= 11
  {
    var id := UrlParsing.ExtractVideoId(input).value;
    assert forall i :: 0 <= i < |id| ==> UrlParsing.InClass(id[i], UrlParsing.IdClass);
  }

  // ---------------------------------------------------------------------
  // cleaning the reply

  /** A JSON value of the reply, as far as the cleaning looks at it. */
  datatype Json = JStr(s: string) | JList(items: seq<Json>) | JOther

  /** `x if isinstance(x, str) else 'N/A'`, then cut to `limit`. */
  function CleanText(v: Json, limit: nat): (r: string)
    ensures |r| <= limit
    ensures v.JStr? ==> r == Take(v.s, limit)
    ensures !v.JStr? ==> r == Take("N/A", limit)
  {
    Take(if v.JStr? then v.s else "N/A", limit)
  }

  /** The title, at most 500 characters. */
  function CleanVideoTitle(v: Json): (r: string)
    ensures |r| <= 500 && (v.JStr? ==> StartsWith(v.s, r) && (|v.s| <= 500 ==> r == v.s))
  {
    CleanText(v, 500)
  }

  /** The description, at most 2000 characters. */
  function CleanDescription(v: Json): (r: string)
    ensures |r| <= 2000 && (v.JStr? ==> StartsWith(v.s, r) && (|v.s| <= 2000 ==> r == v.s))
  {
    CleanText(v, 2000)
  }

  /** The string entries of a list, in order. */
  function StringEntries(items: seq<Json>): (r: seq<string>)
    ensures |r| <= |items|
    ensures forall t :: t in r <==> JStr(t) in items
  {
    if items == [] then []
    else (if items[0].JStr? then [items[0].s] else []) + StringEntries(items[1..])
  }

  /** Keeping the string entries commutes with concatenation, so their
      order is the order of the list. */
  lemma {:induction false} StringEntriesConcat(a: seq<Json>, b: seq<Json>)
    ensures StringEntries(a + b) == StringEntries(a) + StringEntries(b)
  {
    if a != [] {
      assert (a + b)[0] == a[0];
      assert (a + b)[1..] == a[1..] + b;
      StringEntriesConcat(a[1..], b);
    } else {
      assert a + b == b;
    }
  }

  /** `tags = snippet.get('tags', []) if isinstance(..., list) else []`,
      then `[tag[:100] for tag in tags if isinstance(tag, str)][:50]`. */
  function CleanTags(tags: Option<Json>): (r: seq<string>)
    ensures |r| <= 50 && forall i :: 0 <= i < |r| ==> |r[i]| <= 100
    ensures var strs := if tags.Some? && tags.value.JList? then StringEntries(tags.value.items) else [];
      && |r| == (if |strs| <= 50 then |strs| else 50)
      && forall i :: 0 <= i < |r| ==> r[i] == Take(strs[i], 100)
  {
    var strs := if tags.Some? && tags.value.JList? then StringEntries(tags.value.items) else [];
    Take100(strs[..if |strs| <= 50 then |strs| else 50])
  }

  function Take100(tags: seq<string>): (r: seq<string>)
    ensures |r| == |tags| && forall i :: 0 <= i < |r| ==> r[i] == Take(tags[i], 100)
  {
    if tags == [] then [] else [Take(tags[0], 100)] + Take100(tags[1..])
  }

  /** The kept tags keep their order: the tags that were at most 100
      characters come through unchanged, as a prefix of the string tags. */
  lemma CleanTagsShortPrefix(items: seq<Json>)
    requires forall t :: JStr(t) in items ==> |t| <= 100
    ensures var strs := StringEntries(items);
      CleanTags(Some(JList(items))) == strs[..if |strs| <= 50 then |strs| else 50]
  {
    var strs := StringEntries(items);
    var r := CleanTags(Some(JList(items)));
    forall i | 0 <= i < |r| ensures r[i] == strs[i] {
      assert strs[i] in strs;
    }
  }

  /** Something other than a list of tags gives no tags. */
  lemma CleanTagsNotList(tags: Option<Json>)
    requires tags.None? || !tags.value.JList?
    ensures CleanTags(tags) == []
  {
  }
}
