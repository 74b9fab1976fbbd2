/** The two paging loops over a channel's uploads playlist in
    youtube_analyzer.py: `get_all_video_titles`, which walks every page and
    collects the titles, and `download_thumbnails_zip`, which walks pages
    until `limit` videos are counted and writes one zip entry per
    thumbnail it could download.

    The playlist is an abstract page source: `pages[k]` is the reply to
    the `k`-th request of a run, and a request beyond the end of `pages`
    fails. The thumbnail GET of each item is part of the item. */
module Pagination {
  import opened Wrappers
  import opened Text
  import opened Http
  import BotHelpers
  import VideoData

  /** One playlist item: its title, its thumbnail urls by size, and the
      reply the GET of its best thumbnail would get. */
  datatype Item = Item(title: string, thumbnails: map<string, string>, image: Reply)

  /** The reply to one `playlistItems().list` request: the items and
      `nextPageToken`, or the exception `execute()` raised. */
  datatype PageReply = Page(items: seq<Item>, next: Option<string>) | Failure(detail: string)

  /** What a request past the end of the page source gets. */
  const NoReply: string := "no reply"

  function ReplyAt(pages: seq<PageReply>, k: nat): PageReply {
    if k < |pages| then pages[k] else Failure(NoReply)
  }

  /** `if not next_page_token` is false: a token that is present and not empty. */
  predicate HasToken(token: Option<string>) {
    token.Some? && token.value != ""
  }

  /** A reply after which `get_all_video_titles` asks for the next page. */
  predicate Continues(reply: PageReply) {
    reply.Page? && reply.items != [] && HasToken(reply.next)
  }

  /** The index of the last request of a title walk: the first reply that
      does not continue. */
  function LastRequest(pages: seq<PageReply>, from: nat): (n: nat)
    requires from <= |pages|
    ensures from <= n <= |pages|
    ensures forall k :: from <= k < n ==> Continues(pages[k])
    ensures !Continues(ReplyAt(pages, n))
    decreases |pages| - from
  {
    if from == |pages| || !Continues(pages[from]) then from else LastRequest(pages, from + 1)
  }

  function Titles(items: seq<Item>): (r: seq<string>)
    ensures |r| == |items| && forall j :: 0 <= j < |items| ==> r[j] == items[j].title
  {
    if items == [] then [] else [items[0].title] + Titles(items[1..])
  }

  /** The titles of a reply; a failed reply has none. */
  function PageTitles(reply: PageReply): seq<string> {
    if reply.Page? then Titles(reply.items) else []
  }

  /** The titles of replies `i .. n - 1`, page by page, each page in its
      own order. */
  function TitlesFrom(pages: seq<PageReply>, i: nat, n: nat): seq<string>
    decreases n - i
  {
    if n <= i then [] else PageTitles(ReplyAt(pages, i)) + TitlesFrom(pages, i + 1, n)
  }

  /** What a title walk from request `i` on produces: the exception it
      stopped at, if any, the titles and the page tokens sent. */
  datatype TitleRun = TitleRun(error: Option<string>, titles: seq<string>, tokens: seq<Option<string>>)

  /** The loop of `get_all_video_titles` from request `i`, sending `token`. */
  function Collect(pages: seq<PageReply>, i: nat, token: Option<string>): (o: TitleRun)
    ensures |o.tokens| >= 1 && o.tokens[0] == token
    decreases |pages| - i
  {
    var reply := ReplyAt(pages, i);
    if reply.Failure? then TitleRun(Some(reply.detail), [], [token])
    else if !Continues(reply) then TitleRun(None, Titles(reply.items), [token])
    else
      var rest := Collect(pages, i + 1, reply.next);
      TitleRun(rest.error, Titles(reply.items) + rest.titles, [token] + rest.tokens)
  }

  const TitlesErrorPrefix: string := "Ошибка при сборе видео: "

  function TitlesResult(o: TitleRun): Result<seq<string>> {
    if o.error.Some? then Err(TitlesErrorPrefix + o.error.value) else Ok(o.titles)
  }

  /** The walk sends one request per reply up to the first that does not
      continue; it fails exactly when that reply is a failure, and
      otherwise collects the titles of every reply it got. */
  lemma {:induction false} CollectStopsAtLastRequest(pages: seq<PageReply>, i: nat, token: Option<string>)
    requires i <= |pages|
    ensures var o, n := Collect(pages, i, token), LastRequest(pages, i);
      && |o.tokens| == n - i + 1
      && (ReplyAt(pages, n).Failure? ==> o.error == Some(ReplyAt(pages, n).detail))
      && (ReplyAt(pages, n).Page? ==> o.error == None && o.titles == TitlesFrom(pages, i, n + 1))
    decreases |pages| - i
  {
    var reply := ReplyAt(pages, i);
    if Continues(reply) {
      CollectStopsAtLastRequest(pages, i + 1, reply.next);
    } else {
      assert TitlesFrom(pages, i + 1, i + 1) == [];
    }
  }

  /** Request `k > 0` of a walk sends the `nextPageToken` of the reply
      before it, a reply that had items and a token. */
  lemma {:induction false} CollectToken(pages: seq<PageReply>, i: nat, token: Option<string>, k: nat)
    requires 0 < k < |Collect(pages, i, token).tokens|
    ensures Continues(ReplyAt(pages, i + k - 1))
    ensures Collect(pages, i, token).tokens[k] == ReplyAt(pages, i + k - 1).next
    decreases k
  {
    var reply := ReplyAt(pages, i);
    if k > 1 {
      CollectToken(pages, i + 1, reply.next, k - 1);
    }
  }

  /** `later` after the titles and tokens already collected. */
  function PrependRun(titles: seq<string>, tokens: seq<Option<string>>, later: TitleRun): TitleRun {
    TitleRun(later.error, titles + later.titles, tokens + later.tokens)
  }

  /** The paging loop of `get_all_video_titles`; `requests` are the page
      tokens sent, in order. */
  method AllVideoTitles(pages: seq<PageReply>) returns (r: Result<seq<string>>, requests: seq<Option<string>>)
    ensures var o := Collect(pages, 0, None);
      r == TitlesResult(o) && requests == o.tokens
  {
    var titles: seq<string> := [];
    var token: Option<string> := None;
    var i := 0;
    requests := [];
    ghost var whole := Collect(pages, 0, None);
    assert whole == PrependRun([], [], whole);
    while true
      invariant i <= |pages|
      invariant whole == PrependRun(titles, requests, Collect(pages, i, token))
      decreases |pages| - i
    {
      ghost var here := Collect(pages, i, token);
      var reply := ReplyAt(pages, i);
      if reply.Failure? {
        assert here == TitleRun(Some(reply.detail), [], [token]);
        requests := requests + [token];
        r := Err(TitlesErrorPrefix + reply.detail);
        return;
      }
      if reply.items == [] {
        assert here == TitleRun(None, [], [token]);
        assert titles + [] == titles;
        requests := requests + [token];
        r := Ok(titles);
        return;
      }
      if !HasToken(reply.next) {
        assert here == TitleRun(None, Titles(reply.items), [token]);
        titles, requests := titles + Titles(reply.items), requests + [token];
        r := Ok(titles);
        return;
      }
      ghost var rest := Collect(pages, i + 1, reply.next);
      assert here == PrependRun(Titles(reply.items), [token], rest);
      assert whole == PrependRun(titles + Titles(reply.items), requests + [token], rest) by {
        assert titles + (Titles(reply.items) + rest.titles) == (titles + Titles(reply.items)) + rest.titles;
        assert requests + ([token] + rest.tokens) == (requests + [token]) + rest.tokens;
      }
      titles, requests := titles + Titles(reply.items), requests + [token];
      token := reply.next;
      i := i + 1;
    }
  }

  // ---------------------------------------------------------------------
  // download_thumbnails_zip

  function Min(a: int, b: int): int {
    if a <= b then a else b
  }

  /** `maxResults` and `pageToken` of one `playlistItems().list` request. */
  datatype Request = Request(pageToken: Option<string>, maxResults: int)

  /** A zip entry: the item's count when it was written, the item's title
      and the downloaded bytes; it is written under `Name(e)`. */
  datatype ZipEntry = ZipEntry(number: nat, title: string, data: Bytes)

  /** `f"{videos_processed + 1:03d}_{safe_title}.jpg"` */
  function EntryName(number: nat, safeTitle: string): string {
    ZeroPad(number, 3) + "_" + safeTitle + ".jpg"
  }

  function Name(e: ZipEntry): string {
    EntryName(e.number, BotHelpers.CleanTitle(e.title))
  }

  /** The number can be read back from the name: the digits before the
      first '_'. */
  lemma EntryNameInjective(n1: nat, t1: string, n2: nat, t2: string)
    requires EntryName(n1, t1) == EntryName(n2, t2)
    ensures n1 == n2
  {
    var a1, a2 := ZeroPad(n1, 3), ZeroPad(n2, 3);
    var s := EntryName(n1, t1);
    assert s == a1 + "_" + t1 + ".jpg";
    assert s == a2 + "_" + t2 + ".jpg";
    assert s[|a1|] == '_' && s[|a2|] == '_';
    if |a1| < |a2| {
      assert false;
    } else if |a2| < |a1| {
      assert false;
    }
    assert a1 == s[..|a1|] == a2;
    ZeroPadInjective(n1, n2, 3);
  }

  /** The zip entry an item gets as video number `number`: none when it
      has no thumbnail url, or the GET fails or is not a 200. */
  function ItemEntry(item: Item, number: nat): (r: seq<ZipEntry>)
    ensures |r| <= 1
    ensures r != [] ==> r[0].number == number
  {
    var url := VideoData.BestThumbnailUrl(item.thumbnails);
    if url.Some? && url.value != "" && item.image.Reply? && item.image.status == 200
    then [ZipEntry(number, item.title, item.image.body)]
    else []
  }

  /** Entry numbers strictly increase. */
  predicate Increasing(entries: seq<ZipEntry>) {
    forall a, b :: 0 <= a < b < |entries| ==> entries[a].number < entries[b].number
  }

  /** Numbers in `lo + 1 .. hi`. */
  predicate NumberedIn(entries: seq<ZipEntry>, lo: int, hi: int) {
    forall k :: 0 <= k < |entries| ==> lo < entries[k].number <= hi
  }

  lemma NumberedConcat(a: seq<ZipEntry>, b: seq<ZipEntry>, lo: int, mid: int, hi: int)
    requires NumberedIn(a, lo, mid) && Increasing(a)
    requires NumberedIn(b, mid, hi) && Increasing(b)
    requires lo <= mid <= hi
    ensures NumberedIn(a + b, lo, hi) && Increasing(a + b)
  {
    forall x, y | 0 <= x < y < |a + b|
      ensures (a + b)[x].number < (a + b)[y].number
    {
      if y < |a| {
      } else if x >= |a| {
        assert (a + b)[x] == b[x - |a|] && (a + b)[y] == b[y - |a|];
      } else {
        assert (a + b)[x] == a[x] && (a + b)[y] == b[y - |a|];
      }
    }
  }

  /** The inner loop over one page, from item `from` on: each item counts,
      with or without an entry, until `limit` is reached. */
  function Consume(items: seq<Item>, from: nat, processed: nat, limit: int): (res: (seq<ZipEntry>, nat))
    requires from <= |items| && processed < limit
    ensures res.1 == Min(limit, processed + (|items| - from))
    decreases |items| - from
  {
    if from == |items| then ([], processed)
    else
      var e := ItemEntry(items[from], processed + 1);
      if processed + 1 >= limit then (e, processed + 1)
      else
        var rest := Consume(items, from + 1, processed + 1, limit);
        (e + rest.0, rest.1)
  }

  /** The entries of one page are numbered by the count after each item. */
  lemma {:induction false} ConsumeNumbered(items: seq<Item>, from: nat, processed: nat, limit: int)
    requires from <= |items| && processed < limit
    ensures var res := Consume(items, from, processed, limit);
      NumberedIn(res.0, processed, res.1) && Increasing(res.0)
    decreases |items| - from
  {
    if from < |items| && processed + 1 < limit {
      var rest := Consume(items, from + 1, processed + 1, limit);
      ConsumeNumbered(items, from + 1, processed + 1, limit);
      NumberedConcat(ItemEntry(items[from], processed + 1), rest.0, processed, processed + 1, rest.1);
    }
  }

  /** What a run from request `i` on produces. */
  datatype Outcome = Outcome(error: Option<string>, entries: seq<ZipEntry>, processed: nat, requests: seq<Request>)

  /** `later` after the entries and requests already made. */
  function Prepend(entries: seq<ZipEntry>, requests: seq<Request>, later: Outcome): Outcome {
    Outcome(later.error, entries + later.entries, later.processed, requests + later.requests)
  }

  /** The outer loop from request `i`, with `token` and `processed` as the
      loop left them. */
  function Fetch(pages: seq<PageReply>, i: nat, token: Option<string>, processed: nat, limit: int): (o: Outcome)
    ensures processed <= o.processed && (processed < limit ==> o.processed <= limit)
    ensures processed >= limit ==> o == Outcome(None, [], processed, [])
    decreases |pages| - i
  {
    if processed >= limit then Outcome(None, [], processed, [])
    else
      var req := Request(token, Min(50, limit - processed));
      var reply := ReplyAt(pages, i);
      if reply.Failure? then Outcome(Some(reply.detail), [], processed, [req])
      else if reply.items == [] then Outcome(None, [], processed, [req])
      else
        var page := Consume(reply.items, 0, processed, limit);
        if !HasToken(reply.next) then Outcome(None, page.0, page.1, [req])
        else Prepend(page.0, [req], Fetch(pages, i + 1, reply.next, page.1, limit))
  }

  /** The entries of a whole run are numbered by the count after each
      item, so their numbers increase. */
  lemma {:induction false} FetchNumbered(pages: seq<PageReply>, i: nat, token: Option<string>, processed: nat, limit: int)
    ensures var o := Fetch(pages, i, token, processed, limit);
      NumberedIn(o.entries, processed, o.processed) && Increasing(o.entries)
    decreases |pages| - i
  {
    if processed < limit {
      var reply := ReplyAt(pages, i);
      if reply.Page? && reply.items != [] {
        var page := Consume(reply.items, 0, processed, limit);
        ConsumeNumbered(reply.items, 0, processed, limit);
        if HasToken(reply.next) {
          var rest := Fetch(pages, i + 1, reply.next, page.1, limit);
          FetchNumbered(pages, i + 1, reply.next, page.1, limit);
          NumberedConcat(page.0, rest.entries, processed, page.1, rest.processed);
        }
      }
    }
  }

  datatype Download = Download(entries: seq<ZipEntry>, count: nat)

  const DownloadErrorPrefix: string := "Ошибка при скачивании: "

  function Finish(o: Outcome): Result<Download> {
    if o.error.Some? then Err(DownloadErrorPrefix + o.error.value) else Ok(Download(o.entries, o.processed))
  }

  lemma PrependEmpty(entries: seq<ZipEntry>, requests: seq<Request>, processed: nat)
    ensures Prepend(entries, requests, Outcome(None, [], processed, [])) == Outcome(None, entries, processed, requests)
  {
    assert entries + [] == entries && requests + [] == requests;
  }

  lemma PrependAssoc(e1: seq<ZipEntry>, r1: seq<Request>, e2: seq<ZipEntry>, r2: seq<Request>, o: Outcome)
    ensures Prepend(e1, r1, Prepend(e2, r2, o)) == Prepend(e1 + e2, r1 + r2, o)
  {
    assert e1 + (e2 + o.entries) == (e1 + e2) + o.entries;
    assert r1 + (r2 + o.requests) == (r1 + r2) + o.requests;
  }

  /** The paging loop of `download_thumbnails_zip`. */
  method DownloadThumbnails(pages: seq<PageReply>, limit: int) returns (r: Result<Download>, requests: seq<Request>)
    ensures var o := Fetch(pages, 0, None, 0, limit);
      r == Finish(o) && requests == o.requests
    ensures r.Ok? ==> r.value.count <= (if limit > 0 then limit else 0)
  {
    var entries: seq<ZipEntry> := [];
    var processed: nat := 0;
    var token: Option<string> := None;
    var i := 0;
    requests := [];
    ghost var whole := Fetch(pages, 0, None, 0, limit);
    assert whole == Prepend([], [], whole);
    while processed < limit
      invariant whole == Prepend(entries, requests, Fetch(pages, i, token, processed, limit))
      decreases |pages| + 1 - i
    {
      ghost var here := Fetch(pages, i, token, processed, limit);
      var req := Request(token, Min(50, limit - processed));
      var reply := ReplyAt(pages, i);
      if reply.Failure? {
        assert here == Outcome(Some(reply.detail), [], processed, [req]);
        requests := requests + [req];
        r := Err(DownloadErrorPrefix + reply.detail);
        return;
      }
      if reply.items == [] {
        assert here == Outcome(None, [], processed, [req]);
        PrependAssoc(entries, requests, [], [req], Outcome(None, [], processed, []));
        assert entries + [] == entries;
        requests := requests + [req];
        PrependEmpty(entries, requests, processed);
        break;
      }
      var page := ConsumePage(reply.items, processed, limit);
      if !HasToken(reply.next) {
        assert here == Outcome(None, page.0, page.1, [req]);
        PrependAssoc(entries, requests, page.0, [req], Outcome(None, [], page.1, []));
        entries, requests, processed := entries + page.0, requests + [req], page.1;
        PrependEmpty(entries, requests, processed);
        break;
      }
      assert i < |pages|;
      ghost var rest := Fetch(pages, i + 1, reply.next, page.1, limit);
      assert here == Prepend(page.0, [req], rest);
      PrependAssoc(entries, requests, page.0, [req], rest);
      entries, requests, processed := entries + page.0, requests + [req], page.1;
      token := reply.next;
      i := i + 1;
    }
    PrependEmpty(entries, requests, processed);
    r := Ok(Download(entries, processed));
  }

  /** The inner `for item in items` loop with its `break` at `limit`. */
  method ConsumePage(items: seq<Item>, processed0: nat, limit: int) returns (res: (seq<ZipEntry>, nat))
    requires processed0 < limit
    ensures res == Consume(items, 0, processed0, limit)
  {
    var entries: seq<ZipEntry> := [];
    var processed := processed0;
    var j := 0;
    ghost var whole := Consume(items, 0, processed0, limit);
    assert whole.0 == entries + whole.0;
    while j < |items|
      invariant 0 <= j <= |items| && processed == processed0 + j
      invariant processed < limit
      invariant whole.0 == entries + Consume(items, j, processed, limit).0
      invariant whole.1 == Consume(items, j, processed, limit).1
    {
      var e := ItemEntry(items[j], processed + 1);
      if processed + 1 >= limit {
        assert e + [] == e;
        res := (entries + e, processed + 1);
        assert res.0 == whole.0 && res.1 == whole.1;
        return;
      }
      assert whole.0 == (entries + e) + Consume(items, j + 1, processed + 1, limit).0;
      entries := entries + e;
      processed := processed + 1;
      j := j + 1;
    }
    assert whole.0 == entries + [];
    res := (entries, processed);
    assert res.0 == whole.0 && res.1 == whole.1;
  }

  // ---------------------------------------------------------------------
  // properties of a download run

  /** The number of items in the replies to requests `i .. i + k - 1`. */
  function ItemsBefore(pages: seq<PageReply>, i: nat, k: nat): nat {
    if k == 0 then 0
    else ItemsBefore(pages, i, k - 1) + (if ReplyAt(pages, i + k - 1).Page? then |ReplyAt(pages, i + k - 1).items| else 0)
  }

  lemma {:induction false} ItemsBeforeShift(pages: seq<PageReply>, i: nat, k: nat)
    ensures ItemsBefore(pages, i, k + 1)
         == (if ReplyAt(pages, i).Page? then |ReplyAt(pages, i).items| else 0) + ItemsBefore(pages, i + 1, k)
  {
    if k > 0 {
      ItemsBeforeShift(pages, i, k - 1);
    }
  }

  /** The first request sends the token the run started with, and every
      later one the `nextPageToken` of the reply before it, a reply that
      had items and a token. */
  lemma {:induction false} FetchToken(pages: seq<PageReply>, i: nat, token: Option<string>, processed: nat, limit: int, k: nat)
    requires k < |Fetch(pages, i, token, processed, limit).requests|
    ensures var o := Fetch(pages, i, token, processed, limit);
      && (k == 0 ==> o.requests[k].pageToken == token)
      && (k > 0 ==> Continues(ReplyAt(pages, i + k - 1)) && o.requests[k].pageToken == ReplyAt(pages, i + k - 1).next)
    decreases k
  {
    if k > 0 {
      var reply := ReplyAt(pages, i);
      var page := Consume(reply.items, 0, processed, limit);
      FetchToken(pages, i + 1, reply.next, page.1, limit, k - 1);
    }
  }

  /** Request `k` asks for `min(50, limit - videos_processed)`, where
      `videos_processed` counts every item of the replies before it, and is
      still below `limit`. */
  lemma {:induction false} FetchSize(pages: seq<PageReply>, i: nat, token: Option<string>, processed: nat, limit: int, k: nat)
    requires k < |Fetch(pages, i, token, processed, limit).requests|
    ensures var o := Fetch(pages, i, token, processed, limit);
      && processed + ItemsBefore(pages, i, k) < limit
      && o.requests[k].maxResults == Min(50, limit - (processed + ItemsBefore(pages, i, k)))
    decreases k
  {
    if k > 0 {
      var reply := ReplyAt(pages, i);
      var page := Consume(reply.items, 0, processed, limit);
      FetchSize(pages, i + 1, reply.next, page.1, limit, k - 1);
      ItemsBeforeShift(pages, i, k - 1);
    }
  }

  /** Every item of every reply counts, until `limit`: the run's count is
      `min(limit, processed + the items of the replies it got)`. */
  lemma {:induction false} FetchCount(pages: seq<PageReply>, i: nat, token: Option<string>, processed: nat, limit: int)
    ensures var o := Fetch(pages, i, token, processed, limit);
      o.processed == if processed >= limit then processed
                     else Min(limit, processed + ItemsBefore(pages, i, |o.requests|))
    decreases |pages| - i
  {
    var reply := ReplyAt(pages, i);
    if processed < limit {
      assert ItemsBefore(pages, i, 1) == (if reply.Page? then |reply.items| else 0);
      if Continues(reply) {
        var page := Consume(reply.items, 0, processed, limit);
        var rest := Fetch(pages, i + 1, reply.next, page.1, limit);
        FetchCount(pages, i + 1, reply.next, page.1, limit);
        ItemsBeforeShift(pages, i, |rest.requests|);
      }
    }
  }

  /** The entries of a run have distinct names. */
  lemma DistinctNames(entries: seq<ZipEntry>)
    requires Increasing(entries)
    ensures forall a, b :: 0 <= a < b < |entries| ==> Name(entries[a]) != Name(entries[b])
  {
    forall a, b | 0 <= a < b < |entries|
      ensures Name(entries[a]) != Name(entries[b])
    {
      if Name(entries[a]) == Name(entries[b]) {
        EntryNameInjective(entries[a].number, BotHelpers.CleanTitle(entries[a].title),
                           entries[b].number, BotHelpers.CleanTitle(entries[b].title));
      }
    }
  }

  /** A download never counts more than `limit` videos, and a `limit` of 0
      or less sends no request. */
  lemma DownloadBounds(pages: seq<PageReply>, limit: int)
    ensures var o := Fetch(pages, 0, None, 0, limit);
      && o.processed <= (if limit > 0 then limit else 0)
      && (limit <= 0 ==> o.requests == [] && Finish(o) == Ok(Download([], 0)))
      && NumberedIn(o.entries, 0, o.processed)
  {
    FetchNumbered(pages, 0, None, 0, limit);
  }
}
