/** The HD-thumbnail batch download of main.py (`batch_download_and_send`
    with `send_archive`): entries are taken in order, each entry's
    thumbnail is fetched from the maxres URL and then the hq URL, and the
    images are packed into archives of at most 45 MiB and 500 files, an
    archive being sent before an image that would not fit. */
module ThumbnailBatch {
  import opened Wrappers
  import opened Http
  import opened BotHelpers

  /** `MAX_ARCHIVE_SIZE = 45 * 1024 * 1024` */
  const MaxArchiveSize: nat := 45 * 1024 * 1024
  /** `MAX_FILES_COUNT = 500` */
  const MaxFilesCount: nat := 500

  /** `entry.get('title', 'video')`: absent, present but null, or a string. */
  datatype TitleField = NoTitle | NullTitle | Title(text: string)

  /** One entry of the channel's flat listing, together with the replies
      its two thumbnail URLs (`ThumbTargets`) would get. */
  datatype Entry = Entry(id: Option<string>, title: TitleField, maxres: Reply, hq: Reply)

  /** A thumbnail saved to the temporary directory: the title and id it is
      named after and its bytes; it is written under `FileName(t)`. */
  datatype Thumb = Thumb(title: string, videoId: string, data: Bytes)

  function FileName(t: Thumb): string {
    ThumbFileName(t.title, t.videoId)
  }

  /** Two thumbnails share a file name only when they share the id and the
      sanitised title, so thumbnails of distinct videos never overwrite
      each other. */
  lemma FileNameInjective(a: Thumb, b: Thumb)
    requires FileName(a) == FileName(b)
    ensures a.videoId == b.videoId && SafeTitle(a.title) == SafeTitle(b.title)
  {
    ThumbFileNameParts(a.title, a.videoId);
    ThumbFileNameParts(b.title, b.videoId);
  }

  /** One `send_archive` call: the part number, the files in the order
      they were added, and the running `processed_count` shown in the caption. */
  datatype Archive = Archive(partNum: nat, files: seq<Thumb>, totalProcessed: nat)

  const ThumbHost: string := "https://img.youtube.com/vi/"

  /** The URLs tried for an id, best quality first; `Entry.maxres` and
      `Entry.hq` are the replies to these two. */
  function ThumbTargets(videoId: string): seq<string> {
    [ ThumbHost + videoId + "/maxresdefault.jpg",
      ThumbHost + videoId + "/hqdefault.jpg" ]
  }

  /** Two distinct URLs, each naming the entry's id right after the host
      path, so distinct ids are fetched from distinct URLs. */
  lemma ThumbTargetsShape(videoId: string)
    ensures var t := ThumbTargets(videoId);
      && |t| == 2 && t[0] != t[1]
      && Text.StartsWith(t[0], ThumbHost) && t[0][|ThumbHost|..|ThumbHost| + |videoId|] == videoId
      && Text.StartsWith(t[1], ThumbHost) && t[1][|ThumbHost|..|ThumbHost| + |videoId|] == videoId
  {
    var t := ThumbTargets(videoId);
    assert |t[0]| != |t[1]|;
    assert t[0][..|ThumbHost|] == ThumbHost && t[1][..|ThumbHost|] == ThumbHost;
  }

  const ArchivePrefix: string := "thumbnails_part_"

  /** `f"thumbnails_part_{part_num}.zip"`, the temporary file `send_archive`
      writes and uploads. */
  function ArchiveFileName(partNum: nat): string {
    ArchivePrefix + Text.NatToDecimal(partNum) + ".zip"
  }

  /** Distinct part numbers give distinct archive names, so no part is
      uploaded under another part's name. */
  lemma ArchiveFileNameInjective(p: nat, q: nat)
    requires ArchiveFileName(p) == ArchiveFileName(q)
    ensures p == q
  {
    var a := ArchiveFileName(p);
    var b := ArchiveFileName(q);
    assert a[|ArchivePrefix|..|a| - 4] == Text.NatToDecimal(p);
    assert b[|ArchivePrefix|..|b| - 4] == Text.NatToDecimal(q);
    Text.DecimalRoundTrip(p);
    Text.DecimalRoundTrip(q);
  }

  // ---------------------------------------------------------------------
  // Fetching

  /** The image the fetch loop ends with: the body of the first reply with
      status 200, provided it is not empty. An exception stops the loop
      (the whole entry is skipped), and so does an empty 200 body. */
  function FirstImage(replies: seq<Reply>): Option<Bytes> {
    if replies == [] then None
    else match replies[0]
      case NetworkError => None
      case Reply(status, body) =>
        if status == 200 then (if |body| == 0 then None else Some(body))
        else FirstImage(replies[1..])
  }

  /** `FirstImage` is the body of the reply at the first position holding
      either an exception or a 200 status, when that position is a
      non-empty 200; otherwise there is no image. */
  lemma {:induction false} FirstImageCharacterized(replies: seq<Reply>, k: nat)
    requires k < |replies|
    requires forall j :: 0 <= j < k ==> replies[j].Reply? && replies[j].status != 200
    ensures replies[k].Reply? && replies[k].status == 200 && |replies[k].body| > 0
            ==> FirstImage(replies) == Some(replies[k].body)
    ensures replies[k].NetworkError? || (replies[k].status == 200 && |replies[k].body| == 0)
            ==> FirstImage(replies) == None
    ensures FirstImage(replies) == FirstImage(replies[k..]) || k == 0
  {
    if k > 0 {
      FirstImageCharacterized(replies[1..], k - 1);
      assert replies[1..][k - 1..] == replies[k..];
    }
  }

  /** When no reply has status 200 and none raised, there is no image. */
  lemma {:induction false} FirstImageNone(replies: seq<Reply>)
    requires forall j :: 0 <= j < |replies| ==> replies[j].Reply? && replies[j].status != 200
    ensures FirstImage(replies) == None
  {
    if replies != [] {
      FirstImageNone(replies[1..]);
    }
  }

  /** The `for url in targets` loop with the check after it. */
  method FetchImage(replies: seq<Reply>) returns (img: Option<Bytes>)
    ensures img == FirstImage(replies)
    ensures img.Some? ==> |img.value| > 0
  {
    var i := 0;
    while i < |replies|
      invariant 0 <= i <= |replies|
      invariant FirstImage(replies) == FirstImage(replies[i..])
    {
      assert replies[i..][1..] == replies[i + 1..];
      match replies[i]
      case NetworkError =>
        return None;
      case Reply(status, body) =>
        if status == 200 {
          if |body| == 0 {
            return None;
          }
          return Some(body);
        }
      i := i + 1;
    }
    return None;
  }

  /** The image bytes an entry contributes, if any: entries without an id
      are skipped before anything is fetched. */
  function FetchedImage(e: Entry): Option<Bytes> {
    if e.id.None? || e.id.value == "" then None else FirstImage([e.maxres, e.hq])
  }

  /** The file an entry adds to the current batch, if any. A null title makes
      the sanitiser raise after the flush check, so such an entry adds nothing. */
  function EntryFile(e: Entry): Option<Thumb> {
    match FetchedImage(e)
    case None => None
    case Some(data) =>
      match e.title
      case NullTitle => None
      case NoTitle => Some(Thumb("video", e.id.value, data))
      case Title(t) => Some(Thumb(t, e.id.value, data))
  }

  // ---------------------------------------------------------------------
  // The accumulator as a value

  /** The loop's local variables (`current_batch_files`, `current_batch_size`,
      `part_num`, `processed_count`) and the archives sent so far. */
  datatype BatchState = BatchState(files: seq<Thumb>, size: nat, partNum: nat,
                                   processed: nat, archives: seq<Archive>)

  function Initial(): BatchState {
    BatchState([], 0, 1, 0, [])
  }

  /** The total byte size of some files. */
  function TotalBytes(files: seq<Thumb>): nat {
    if files == [] then 0 else TotalBytes(files[..|files| - 1]) + |files[|files| - 1].data|
  }

  /** The number of files over some archives. */
  function TotalFiles(archives: seq<Archive>): nat {
    if archives == [] then 0 else TotalFiles(archives[..|archives| - 1]) + |archives[|archives| - 1].files|
  }

  /** The files of some archives, in order. */
  function Flatten(archives: seq<Archive>): seq<Thumb> {
    if archives == [] then [] else Flatten(archives[..|archives| - 1]) + archives[|archives| - 1].files
  }

  /** The flush test before an image of `fileSize` bytes is added. */
  predicate NeedsFlush(s: BatchState, fileSize: nat) {
    (s.size + fileSize > MaxArchiveSize || |s.files| >= MaxFilesCount) && |s.files| > 0
  }

  /** `send_archive` of the current batch, then the reset. */
  function Flush(s: BatchState): BatchState {
    BatchState([], 0, s.partNum + 1, s.processed,
               s.archives + [Archive(s.partNum, s.files, s.processed)])
  }

  function AddFile(s: BatchState, f: Thumb): BatchState {
    s.(files := s.files + [f], size := s.size + |f.data|, processed := s.processed + 1)
  }

  /** One iteration of the entries loop. */
  function Step(s: BatchState, e: Entry): BatchState {
    match FetchedImage(e)
    case None => s
    case Some(data) =>
      var t := if NeedsFlush(s, |data|) then Flush(s) else s;
      match EntryFile(e)
      case None => t
      case Some(f) => AddFile(t, f)
  }

  /** The final `if current_batch_files: send_archive(...)`. */
  function Finish(s: BatchState): BatchState {
    if |s.files| > 0 then Flush(s) else s
  }

  function Run(s: BatchState, entries: seq<Entry>): BatchState
    decreases |entries|
  {
    if entries == [] then s else Run(Step(s, entries[0]), entries[1..])
  }

  /** The files the entries contribute, in order. */
  function AcceptedFiles(entries: seq<Entry>): seq<Thumb> {
    if entries == [] then []
    else Contributed(entries[0]) + AcceptedFiles(entries[1..])
  }

  /** The entry's file as a sequence of none or one. */
  function Contributed(e: Entry): seq<Thumb> {
    if EntryFile(e).Some? then [EntryFile(e).value] else []
  }

  /** A sent archive: one to 500 files, and over 45 MiB only when it
      holds a single file. */
  predicate ArchiveBounds(a: Archive) {
    FitsOneArchive(a.files)
  }

  predicate FitsOneArchive(files: seq<Thumb>) {
    && 1 <= |files| <= MaxFilesCount
    && (TotalBytes(files) > MaxArchiveSize ==> |files| == 1)
  }

  /** Archives are numbered 1, 2, 3, ... in the order they were sent. */
  predicate Numbered(archives: seq<Archive>) {
    forall i :: 0 <= i < |archives| ==> archives[i].partNum == i + 1
  }

  predicate AllBounded(archives: seq<Archive>) {
    forall i :: 0 <= i < |archives| ==> ArchiveBounds(archives[i])
  }

  /** Each caption's total is the number of files sent up to that archive. */
  predicate RunningTotals(archives: seq<Archive>) {
    forall i :: 0 <= i < |archives| ==> archives[i].totalProcessed == TotalFiles(archives[..i + 1])
  }

  /** The current batch: its size is the sum of its files, it never holds
      more than 500 files, and it exceeds 45 MiB only with a single file. */
  predicate BatchBounds(s: BatchState) {
    && s.size == TotalBytes(s.files)
    && |s.files| <= MaxFilesCount
    && (s.size > MaxArchiveSize ==> |s.files| == 1)
  }

  /** The invariant of the accumulator. */
  predicate Inv(s: BatchState) {
    && BatchBounds(s)
    && s.partNum == |s.archives| + 1
    && s.processed == TotalFiles(s.archives) + |s.files|
    && Numbered(s.archives)
    && AllBounded(s.archives)
    && RunningTotals(s.archives)
  }

  lemma InitialInv()
    ensures Inv(Initial())
  {
  }

  /** Appending the archive sent next keeps the numbering, the bounds and the
      running totals. */
  lemma SnocArchive(archives: seq<Archive>, a: Archive)
    requires Numbered(archives) && AllBounded(archives) && RunningTotals(archives)
    requires a.partNum == |archives| + 1 && ArchiveBounds(a)
    requires a.totalProcessed == TotalFiles(archives) + |a.files|
    ensures var t := archives + [a];
      Numbered(t) && AllBounded(t) && RunningTotals(t) && TotalFiles(t) == TotalFiles(archives) + |a.files|
  {
    var t := archives + [a];
    forall i | 0 <= i < |t| ensures t[i].partNum == i + 1 && ArchiveBounds(t[i]) {
      if i < |archives| {
        assert t[i] == archives[i];
      } else {
        assert t[i] == a;
      }
    }
    SnocTotals(archives, a);
  }

  lemma SnocTotals(archives: seq<Archive>, a: Archive)
    requires RunningTotals(archives)
    requires a.totalProcessed == TotalFiles(archives) + |a.files|
    ensures RunningTotals(archives + [a]) && TotalFiles(archives + [a]) == TotalFiles(archives) + |a.files|
  {
    var t := archives + [a];
    assert t[..|archives|] == archives;
    forall i | 0 <= i < |t| ensures t[i].totalProcessed == TotalFiles(t[..i + 1]) {
      if i < |archives| {
        assert t[..i + 1] == archives[..i + 1];
      } else {
        assert t[..i + 1] == t;
      }
    }
  }

  lemma FlushInv(s: BatchState)
    requires Inv(s) && |s.files| > 0
    ensures Inv(Flush(s))
  {
    SnocArchive(s.archives, Archive(s.partNum, s.files, s.processed));
  }

  lemma AddFileBounds(t: BatchState, f: Thumb)
    requires BatchBounds(t)
    requires |t.files| == 0 || (t.size + |f.data| <= MaxArchiveSize && |t.files| < MaxFilesCount)
    ensures BatchBounds(AddFile(t, f))
  {
    var u := AddFile(t, f);
    assert u.files[..|u.files| - 1] == t.files;
  }

  /** Every iteration keeps the invariant. */
  lemma StepInv(s: BatchState, e: Entry)
    requires Inv(s)
    ensures Inv(Step(s, e))
  {
    match FetchedImage(e)
    case None =>
    case Some(data) =>
      var t := if NeedsFlush(s, |data|) then Flush(s) else s;
      if NeedsFlush(s, |data|) {
        FlushInv(s);
      }
      match EntryFile(e)
      case None =>
      case Some(f) =>
        assert f.data == data;
        AddFileBounds(t, f);
    }

  /** The flush rule: an image is preceded by exactly one `send_archive`
      when the batch is non-empty and the image would push it past 45 MiB or
      it already holds 500 files, and by none otherwise; the archive sent is
      the whole current batch under the current part number. */
  lemma StepFlushes(s: BatchState, e: Entry)
    requires Inv(s)
    ensures FetchedImage(e).None? ==> Step(s, e) == s
    ensures FetchedImage(e).Some? && NeedsFlush(s, |FetchedImage(e).value|) ==>
      && Step(s, e).archives == s.archives + [Archive(s.partNum, s.files, s.processed)]
      && Step(s, e).partNum == s.partNum + 1
    ensures FetchedImage(e).Some? && !NeedsFlush(s, |FetchedImage(e).value|) ==>
      Step(s, e).archives == s.archives && Step(s, e).partNum == s.partNum
    ensures Step(s, e).files == (match EntryFile(e)
      case None => if FetchedImage(e).Some? && NeedsFlush(s, |FetchedImage(e).value|) then [] else s.files
      case Some(f) => if FetchedImage(e).Some? && NeedsFlush(s, |FetchedImage(e).value|) then [f] else s.files + [f])
  {
    if EntryFile(e).Some? {
      assert FetchedImage(e).Some?;
    }
  }

  /** The final flush sends the last batch once, if it is non-empty, and
      leaves nothing behind. */
  lemma FinishInv(s: BatchState)
    requires Inv(s)
    ensures Inv(Finish(s)) && Finish(s).files == []
    ensures |Finish(s).archives| == |s.archives| + (if |s.files| > 0 then 1 else 0)
    ensures Finish(s).archives[..|s.archives|] == s.archives
  {
    if |s.files| > 0 {
      FlushInv(s);
    }
  }

  lemma FlattenSnoc(archives: seq<Archive>, a: Archive)
    ensures Flatten(archives + [a]) == Flatten(archives) + a.files
  {
    assert (archives + [a])[..|archives|] == archives;
  }

  /** Everything handed on so far: the files of the sent archives, then the
      current batch. */
  function Delivered(s: BatchState): seq<Thumb> {
    Flatten(s.archives) + s.files
  }

  /** One iteration loses and duplicates nothing: what was handed on grows
      by exactly the file the entry contributes. */
  lemma StepConserves(s: BatchState, e: Entry)
    ensures Delivered(Step(s, e)) == Delivered(s) + Contributed(e)
  {
    if FetchedImage(e).None? {
      assert Step(s, e) == s && Contributed(e) == [];
    } else {
      var data := FetchedImage(e).value;
      var t := if NeedsFlush(s, |data|) then Flush(s) else s;
      if NeedsFlush(s, |data|) {
        FlushDelivered(s);
      }
      assert Delivered(t) == Delivered(s);
      if EntryFile(e).Some? {
        AddDelivered(t, EntryFile(e).value);
        assert Step(s, e) == AddFile(t, EntryFile(e).value);
      } else {
        assert Step(s, e) == t && Contributed(e) == [];
      }
    }
  }

  lemma FlushDelivered(s: BatchState)
    ensures Delivered(Flush(s)) == Delivered(s)
  {
    FlattenSnoc(s.archives, Archive(s.partNum, s.files, s.processed));
  }

  lemma AddDelivered(t: BatchState, f: Thumb)
    ensures Delivered(AddFile(t, f)) == Delivered(t) + [f]
  {
  }

  lemma {:induction false} RunInv(s: BatchState, entries: seq<Entry>)
    requires Inv(s)
    ensures Inv(Run(s, entries))
    decreases |entries|
  {
    if entries != [] {
      StepInv(s, entries[0]);
      RunInv(Step(s, entries[0]), entries[1..]);
    }
  }

  /** Nothing is lost or duplicated: what was handed on is the accepted
      files so far, in order. */
  lemma {:induction false} RunConserves(s: BatchState, entries: seq<Entry>)
    ensures Delivered(Run(s, entries)) == Delivered(s) + AcceptedFiles(entries)
    decreases |entries|
  {
    if entries == [] {
      assert Delivered(s) + [] == Delivered(s);
    } else {
      var e, rest := entries[0], entries[1..];
      var t := Step(s, e);
      StepConserves(s, e);
      RunConserves(t, rest);
      assert Run(s, entries) == Run(t, rest);
      assert AcceptedFiles(entries) == Contributed(e) + AcceptedFiles(rest);
      assert (Delivered(s) + Contributed(e)) + AcceptedFiles(rest)
          == Delivered(s) + (Contributed(e) + AcceptedFiles(rest));
    }
  }

  /** The whole job: after the final flush every accepted file was sent
      exactly once, in order; `processed_count` counts them; the archives
      are numbered 1, 2, 3, ... and each respects the bounds. */
  lemma JobConserves(entries: seq<Entry>)
    ensures var r := Finish(Run(Initial(), entries));
      && Inv(r)
      && r.files == []
      && Flatten(r.archives) == AcceptedFiles(entries)
      && r.processed == |AcceptedFiles(entries)|
  {
    InitialInv();
    RunInv(Initial(), entries);
    RunConserves(Initial(), entries);
    assert Delivered(Initial()) == [];
    FinishDelivers(Run(Initial(), entries), AcceptedFiles(entries));
  }

  /** The final flush hands on the whole current batch: afterwards the sent
      archives hold everything, and `processed_count` is their number. */
  lemma FinishDelivers(m: BatchState, accepted: seq<Thumb>)
    requires Inv(m) && Delivered(m) == accepted
    ensures var r := Finish(m);
      && Inv(r)
      && r.files == []
      && Flatten(r.archives) == accepted
      && r.processed == |accepted|
  {
    FinishInv(m);
    if |m.files| > 0 {
      FlushDelivered(m);
    } else {
      assert Delivered(m) == Flatten(m.archives);
    }
    FlattenLength(Finish(m).archives);
  }

  lemma {:induction false} FlattenLength(archives: seq<Archive>)
    ensures |Flatten(archives)| == TotalFiles(archives)
  {
    if archives != [] {
      FlattenLength(archives[..|archives| - 1]);
    }
  }

  // ---------------------------------------------------------------------
  // The accumulator as the source keeps it

  /** `Step` once an image of `data` was fetched: the flush test, then the
      entry's file, if any. */
  lemma StepUnfold(s: BatchState, e: Entry, data: Bytes)
    requires FetchedImage(e) == Some(data)
    ensures var t := if NeedsFlush(s, |data|) then Flush(s) else s;
      Step(s, e) == if EntryFile(e).Some? then AddFile(t, EntryFile(e).value) else t
    ensures e.title.NullTitle? ==> EntryFile(e).None?
  {
  }

  /** The file written for an entry: `safe_title = "".join(...)`, then
      `f"{safe_title}_{video_id}.jpg"` holding the image bytes. */
  method SaveThumb(e: Entry, data: Bytes) returns (thumb: Thumb)
    requires FetchedImage(e) == Some(data) && !e.title.NullTitle?
    ensures EntryFile(e) == Some(thumb)
    ensures thumb.data == data
  {
    var title := if e.title.NoTitle? then "video" else e.title.text;
    thumb := Thumb(title, e.id.value, data);
  }

  class Batcher {
    var currentFiles: seq<Thumb>
    var currentSize: nat
    var partNum: nat
    var processedCount: nat
    /** The archives `send_archive` was called with, in order. */
    var sent: seq<Archive>

    ghost function State(): BatchState
      reads this
    {
      BatchState(currentFiles, currentSize, partNum, processedCount, sent)
    }

    constructor ()
      ensures State() == Initial()
    {
      currentFiles := [];
      currentSize := 0;
      partNum := 1;
      processedCount := 0;
      sent := [];
    }

    /** `send_archive(message, current_batch_files, part_num, processed_count)` */
    method SendArchive()
      modifies this`sent
      ensures sent == old(sent) + [Archive(partNum, currentFiles, processedCount)]
    {
      sent := sent + [Archive(partNum, currentFiles, processedCount)];
    }

    /** One iteration of `for index, entry in enumerate(entries)`. */
    method ProcessEntry(e: Entry)
      modifies this
      ensures State() == Step(old(State()), e)
    {
      ghost var s0 := State();
      if e.id.None? || e.id.value == "" {
        assert FetchedImage(e).None?;
        return;
      }
      var img := FetchImage([e.maxres, e.hq]);
      if img.None? {
        assert FetchedImage(e).None?;
        return;
      }
      var data := img.value;
      FlushIfNeeded(|data|);
      ghost var t := State();
      StepUnfold(s0, e, data);
      if e.title.NullTitle? {
        // iterating over a null title raises; the entry is skipped
        return;
      }
      var thumb := SaveThumb(e, data);
      AddThumb(thumb);
    }

    /** The flush check before an image of `fileSize` bytes is added:
        `send_archive`, the next part number and an empty batch. */
    method FlushIfNeeded(fileSize: nat)
      modifies this
      ensures State() == if NeedsFlush(old(State()), fileSize) then Flush(old(State())) else old(State())
    {
      var isSizeLimit := currentSize + fileSize > MaxArchiveSize;
      var isCountLimit := |currentFiles| >= MaxFilesCount;
      if (isSizeLimit || isCountLimit) && |currentFiles| > 0 {
        SendArchive();
        partNum := partNum + 1;
        currentFiles := [];
        currentSize := 0;
      }
    }

    /** The saved file joins the current batch and is counted. */
    method AddThumb(thumb: Thumb)
      modifies this
      ensures State() == AddFile(old(State()), thumb)
    {
      currentFiles := currentFiles + [thumb];
      currentSize := currentSize + |thumb.data|;
      processedCount := processedCount + 1;
    }

    /** The final flush after the loop. */
    method FinishBatches()
      modifies this
      ensures State() == Finish(old(State()))
    {
      if |currentFiles| > 0 {
        SendArchive();
        partNum := partNum + 1;
        currentFiles := [];
        currentSize := 0;
      }
    }
  }

  /** The packing part of `batch_download_and_send` over the listing's
      entries: the archives sent and the final `processed_count`. */
  method BatchDownload(entries: seq<Entry>) returns (archives: seq<Archive>, processed: nat)
    ensures archives == Finish(Run(Initial(), entries)).archives
    ensures Flatten(archives) == AcceptedFiles(entries)
    ensures processed == |AcceptedFiles(entries)|
    ensures forall i :: 0 <= i < |archives| ==> archives[i].partNum == i + 1
    ensures forall i :: 0 <= i < |archives| ==> ArchiveBounds(archives[i])
    ensures forall i :: 0 <= i < |archives| ==> archives[i].totalProcessed == TotalFiles(archives[..i + 1])
  {
    var b := new Batcher();
    for i := 0 to |entries|
      invariant b.State() == Run(Initial(), entries[..i])
    {
      RunSnoc(Initial(), entries[..i], entries[i]);
      assert entries[..i + 1] == entries[..i] + [entries[i]];
      b.ProcessEntry(entries[i]);
    }
    assert entries[..|entries|] == entries;
    b.FinishBatches();
    JobConserves(entries);
    archives := b.sent;
    processed := b.processedCount;
  }

  lemma {:induction false} RunSnoc(s: BatchState, entries: seq<Entry>, e: Entry)
    ensures Run(s, entries + [e]) == Step(Run(s, entries), e)
    decreases |entries|
  {
    if entries == [] {
      assert [e][1..] == [];
    } else {
      assert (entries + [e])[1..] == entries[1..] + [e];
      RunSnoc(Step(s, entries[0]), entries[1..], e);
    }
  }
}
