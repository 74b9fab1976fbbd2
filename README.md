# YouTube analysis bot — verified model of its core

The bot is a Telegram front-end (main.py) for a YouTube data helper
(youtube_analyzer.py) and a spreadsheet builder (excel_generator.py). This
project models the parts of those files that compute something, and proves
what they promise:

- **The HD-thumbnail batch download** (`batch_download_and_send`). Each
  entry's image is fetched from the maxres URL and then the hq URL. Images
  are packed into archives of at most 45 MiB and 500 files, and an archive
  is sent before an image that would not fit. An image over 45 MiB still
  goes alone into an empty archive. The accumulator is the class
  `ThumbnailBatch.Batcher`. Its methods are proved against the value-level
  step function `ThumbnailBatch.Step`. Lemmas about `Step` prove:
  - the size and count bounds;
  - archive numbering 1, 2, 3, …;
  - the running caption totals;
  - that every accepted file lands in exactly one archive, in order.
- **The small helpers of main.py**: the Russian plural of "канал", the
  thousands formatter, channel-URL normalisation, the title sanitiser and
  thumbnail file name, the count prompt and its clamp, and the subscriber
  categories.
- **The parsers and validators of youtube_analyzer.py**:
  - `_extract_video_id` and `_extract_channel_info`, as hand-written
    scanners with `re.search` semantics;
  - the best-thumbnail choice;
  - the video-id check and the field truncation of `get_video_data_by_id`.
- **The loops of youtube_analyzer.py**, over an abstract page source
  (`pages[k]` is the reply to the `k`-th request):
  - the 7×24 publication heat map, with numpy's first-maximum `argmax`;
  - the title walk of `get_all_video_titles`;
  - the counting and paging loop of `download_thumbnails_zip`.
- **The spreadsheet layout of `ExcelGenerator`**, as the class
  `NicheSheet.Sheet` holding a map from (row, column) to cell value. It
  covers:
  - the title and the three header blocks;
  - the column block of a category;
  - the first-free-row search;
  - the five cells of a channel row;
  - the quote doubling of the `HYPERLINK` formula, proved to read back.

Files:
- wrappers.dfy: `Option`/`Result`.
- http.dfy: a byte string and an HTTP reply.
- text.dfy: the Python string built-ins used.
- bot_helpers.dfy, thumbnail_batch.dfy: main.py.
- url_parsing.dfy, video_data.dfy, heatmap.dfy, pagination.dfy:
  youtube_analyzer.py.
- niche_sheet.dfy: excel_generator.py.

Network replies, the listing produced by yt-dlp, and the weekday and hour
of each upload are parameters of the model.

The `try` at main.py:219 encloses the whole `for url in targets` loop, so an
exception on the maxres URL skips the entry without trying the hq URL. A
200 reply with an empty body also ends the loop and skips the entry. The
model follows the code (`ThumbnailBatch.FirstImage`).

## Model

| member | source | states |
|---|---|---|
| BotHelpers.PluralizeByDigits | main.py:72-78 | "канал" exactly when the last digit is 1 and the tens digit is not 1; "канала" exactly for last digits 2-4 outside the teens; "каналов" in every other case |
| BotHelpers.PluralizePeriodic | main.py:72-78 | the chosen form depends only on the count modulo 100 |
| BotHelpers.DigitBodyDigits | main.py:83 | the digits `int()` accepts, underscores removed, are all decimal digits |
| BotHelpers.ParseIntRoundTrip | main.py:83 | `int(str(n)) == n` for every integer |
| BotHelpers.GroupThousandsRemoveDots | main.py:84 | grouping inserts dots and nothing else: removing them gives the digits back |
| BotHelpers.GroupThousandsDots | main.py:84 | the dots stand exactly every fourth position counted from the right |
| BotHelpers.GroupThousandsLength | main.py:84 | a grouped number never has a length divisible by 4 (it never starts with a dot) |
| BotHelpers.GroupThousandsGrouped | main.py:84 | the result is digit groups of three joined by '.', the first group 1-3 digits |
| BotHelpers.GroupThousandsDigits | main.py:84 | the grouped result starts with a digit and holds only digits and dots |
| BotHelpers.FormatNumber | main.py:81-86 | input `int()` rejects is returned unchanged; for an integer, deleting the dots gives `str(int(x))` |
| BotHelpers.FormatNumberGroups | main.py:81-86 | for an integer, the output is a minus sign exactly when negative, then its digits grouped in threes |
| BotHelpers.BeforeFirst | main.py:150 | `split(ch)[0]` is the longest prefix without `ch`, followed by `ch` when shorter than the string |
| BotHelpers.BeforeFirstPrefix | main.py:150 | a prefix without `ch` followed by `ch` is what `split(ch)[0]` returns |
| BotHelpers.NormalizeChannelUrl | main.py:150-154 | no '?' in the result, which ends with "/videos" or "/shorts"; "/videos" is appended exactly when the cleaned URL ends with neither |
| BotHelpers.NormalizeChannelUrlPrefix | main.py:150-154 | no trailing '/', and the result is a prefix of the input, possibly followed by "/videos" |
| BotHelpers.NormalizeChannelUrlIdempotent | main.py:150-154 | normalising twice equals normalising once |
| BotHelpers.FilterTitle | main.py:255 | keeps only letters, digits and spaces, keeps every such character of the title, and is never longer than the title |
| BotHelpers.FilterTitleConcat | main.py:255 | the filter works character by character: filtering a concatenation is the concatenation of the filtered parts, so order and multiplicity of the kept characters are those of the title |
| BotHelpers.CleanTitle | main.py:255-256 | at most 50 title characters, no leading space, a prefix of the stripped filtered title, as long as it or 50 |
| BotHelpers.StripKeepsTitleChars | main.py:255-256 | stripping and cutting a filtered title keep only letters, digits and spaces |
| BotHelpers.CleanTitleEmpty | main.py:255-257 | the cleaned title is empty exactly when the title has no letter and no digit |
| BotHelpers.SafeTitle | main.py:255-257 | 1 to 50 letters, digits or spaces; exactly the cleaned title when that is non-empty, and exactly "img" when it is empty |
| BotHelpers.ThumbFileNameParts | main.py:259 | the file name splits back at its first '_' into the safe title and the id, and ends with ".jpg" |
| BotHelpers.NameParts | main.py:259 | `t + "_" + id + ".jpg"` splits back into `t` and `id` when `t` has no '_' |
| BotHelpers.ParseCount | main.py:497-501 | a count is accepted exactly when the text is non-empty and all digits, and its value is the decimal value |
| BotHelpers.ParseCountRoundTrip | main.py:497-501 | the decimal spelling of any count is accepted as that count |
| BotHelpers.ClampCount | main.py:506-509 | with `max_videos >= 1` the count lies in [1, max_videos], an in-range request is kept and the others go to the nearer end; with `max_videos < 1` it is `max_videos` |
| BotHelpers.ClampCountStable | main.py:506-509 | clamping is idempotent and monotone in the request |
| BotHelpers.SubscriberCategory | main.py:680 | "whales" iff subs >= 100000, "small" iff 1000 <= subs < 100000, "tiny" iff subs < 1000 |
| BotHelpers.SubscriberCategoryMonotone | main.py:680 | more subscribers never give a smaller category |
| ThumbnailBatch.ThumbTargetsShape | main.py:211-214 | the two URLs tried, maxres then hq, are distinct and each names the video id right after the host path |
| ThumbnailBatch.ArchiveFileNameInjective | main.py:125 | distinct part numbers give distinct archive file names |
| ThumbnailBatch.FileNameInjective | main.py:259-260 | two thumbnails share a file name only if they share the id and the safe title |
| ThumbnailBatch.FirstImageCharacterized | main.py:219-227 | the image is the body of the first reply that raised or had status 200, when that is a non-empty 200; otherwise there is none |
| ThumbnailBatch.FirstImageNone | main.py:219-227 | with no 200 reply and no exception there is no image |
| ThumbnailBatch.FetchImage | main.py:219-227 | the `for url in targets` loop returns `FirstImage` of the replies, and an image it returns is non-empty |
| ThumbnailBatch.InitialInv | main.py:199-202 | the empty state (no files, size 0, part 1, count 0) satisfies the accumulator invariant |
| ThumbnailBatch.SnocArchive | main.py:236-244 | sending the next archive keeps the numbering 1, 2, 3, …, the archive bounds and the running totals |
| ThumbnailBatch.SnocTotals | main.py:236 | each caption total is the number of files sent up to and including that archive |
| ThumbnailBatch.FlushInv | main.py:232-246 | a flush of a non-empty batch keeps the invariant |
| ThumbnailBatch.AddFileBounds | main.py:232-235 | adding a file to an empty batch, or to one it fits, keeps the batch size equal to the sum of its files, at most 500 files, over 45 MiB only with one file |
| ThumbnailBatch.StepInv | main.py:205-270 | every loop iteration keeps the invariant |
| ThumbnailBatch.StepFlushes | main.py:232-246 | an entry without an image changes nothing; before an image the batch is sent exactly when it is non-empty and the image would pass 45 MiB or it holds 500 files; it is the whole batch under the current part number, and the part number goes up by one; afterwards the batch is exactly the new file (or empty when the entry has no file), and without a flush it is the old batch followed by the new file |
| ThumbnailBatch.FinishInv | main.py:273-274 | the final flush sends the last batch once if it is non-empty, keeps the earlier archives and leaves no file behind |
| ThumbnailBatch.StepConserves | main.py:205-270 | one iteration adds to what was handed on exactly the file the entry contributes |
| ThumbnailBatch.FlushDelivered | main.py:236-246 | a flush moves the batch into the archives without losing or reordering a file |
| ThumbnailBatch.AddDelivered | main.py:265-267 | a saved file is appended to what was handed on |
| ThumbnailBatch.RunInv | main.py:205-270 | the whole entries loop keeps the invariant |
| ThumbnailBatch.RunConserves | main.py:205-270 | after the loop, what was handed on is the accepted files in entry order |
| ThumbnailBatch.FinishDelivers | main.py:272-274 | after the final flush the archives hold everything handed on and `processed_count` is its number |
| ThumbnailBatch.FlattenLength | main.py:267 | the files of the archives number their total |
| ThumbnailBatch.JobConserves | main.py:199-274 | the job sends every accepted file exactly once, in order, in archives numbered 1, 2, 3, … within the bounds; `processed_count` equals their number |
| ThumbnailBatch.StepUnfold | main.py:229-267 | after an image is fetched: the flush test, then the entry's file if its title is not null |
| ThumbnailBatch.SaveThumb | main.py:255-263 | the file saved for an entry is the entry's file and holds the fetched bytes |
| ThumbnailBatch.RunSnoc | main.py:205 | running the loop one entry further is one more step |
| ThumbnailBatch.Batcher.constructor | main.py:199-202 | the accumulator starts empty, at part 1 with count 0 |
| ThumbnailBatch.Batcher.SendArchive | main.py:236 | `send_archive` records the current files, part number and count |
| ThumbnailBatch.Batcher.ProcessEntry | main.py:205-270 | one loop iteration changes the state exactly as `Step` says |
| ThumbnailBatch.Batcher.FlushIfNeeded | main.py:232-246 | the flush check sends and resets exactly when `NeedsFlush` holds |
| ThumbnailBatch.Batcher.AddThumb | main.py:265-267 | the file is appended, the size grows by its bytes, the count by one |
| ThumbnailBatch.Batcher.FinishBatches | main.py:273-274 | the final flush changes the state as `Finish` says |
| ThumbnailBatch.BatchDownload | main.py:192-274 | the archives sent are exactly those of the reference run `Finish(Run(Initial(), entries))`; they hold exactly the accepted files in order; the final count is their number; archives are numbered 1, 2, 3, …, respect the bounds, and carry running totals |
| Text.Take | youtube_analyzer.py:127-128 | `s[:n]` is the prefix of `s` of length `min(n, len(s))` |
| Text.LStrip | main.py:255 | `lstrip()` drops exactly the leading whitespace |
| Text.RStrip | main.py:255 | `rstrip()` drops exactly the trailing whitespace |
| Text.RStripChar | main.py:150 | `rstrip('/')` drops exactly the trailing slashes |
| Text.Strip | main.py:255 | `strip()` is a slice of the input with no whitespace at either end |
| Text.StripDropsOnlySpace | main.py:255 | everything `strip()` drops, before and after the slice it keeps, is whitespace |
| Text.StripEmpty | main.py:255-257 | the stripped text is empty exactly when the text is all whitespace |
| Text.StripSubset | youtube_analyzer.py:68 | stripping keeps only characters of the original |
| Text.StripUnchanged | youtube_analyzer.py:56 | a text with no whitespace at either end is its own strip |
| Text.LStripAllSpace | main.py:255 | an all-whitespace text lstrips to nothing |
| Text.RemoveChar | youtube_analyzer.py:68 | `replace(ch, '')` removes every `ch` and adds nothing |
| Text.RemoveCharConcat | youtube_analyzer.py:68 | removing a character distributes over concatenation |
| Text.RemoveCharAbsent | youtube_analyzer.py:68 | removing an absent character changes nothing |
| Text.DigitChar | main.py:84 | a digit value is spelt with an ASCII digit |
| Text.DigitValue | main.py:83 | an ASCII digit has a value below 10 |
| Text.DigitRoundTrip | main.py:83-84 | a digit read back from its character is itself |
| Text.NatToDecimal | main.py:84 | `str(n)` is a non-empty digit string without a leading zero |
| Text.DecimalRoundTrip | main.py:83-84 | `int(str(n)) == n` for `n >= 0` |
| Text.DecimalAppend | main.py:83 | appending a digit multiplies the value by ten and adds the digit |
| Text.ZeroPad | youtube_analyzer.py:512 | `f"{n:0{w}d}"` is all digits, as long as `w` or `str(n)` |
| Text.Zeros | youtube_analyzer.py:512 | the padding is that many zeros |
| Text.DecimalValueLeadingZeros | youtube_analyzer.py:512 | leading zeros do not change the value |
| Text.ZerosValue | youtube_analyzer.py:512 | zeros denote 0 |
| Text.ZerosSnoc | youtube_analyzer.py:512 | k zeros are k - 1 zeros and one more |
| Text.ZeroPadValue | youtube_analyzer.py:512 | the padded spelling still denotes `n` |
| Text.ZeroPadInjective | youtube_analyzer.py:512 | distinct numbers get distinct padded spellings |
| UrlParsing.RunEnd | youtube_analyzer.py:41-46 | the greedy `+` takes the longest run of class characters |
| UrlParsing.Search | youtube_analyzer.py:41-46 | `re.search` finds a match at the leftmost matching position with the longest run, or reports that no position matches |
| UrlParsing.SearchLeftmost | youtube_analyzer.py:41-46 | the leftmost match position determines the captured span |
| UrlParsing.Group | youtube_analyzer.py:42-46 | a captured group is non-empty and all class characters |
| UrlParsing.ExtractVideoId | youtube_analyzer.py:33-47 | empty, non-string or over-2048-character input gives None; otherwise the patterns run on the stripped input |
| UrlParsing.VideoIdIn | youtube_analyzer.py:41-47 | a found id is a non-empty run of `[a-zA-Z0-9_-]` |
| UrlParsing.NoMatchSearch | youtube_analyzer.py:41-46 | where no position matches, the search finds nothing |
| UrlParsing.VideoIdStandard | youtube_analyzer.py:41-42 | a "v=" match anywhere wins, and its leftmost match is the id |
| UrlParsing.VideoIdShortLink | youtube_analyzer.py:43-44 | "youtu.be/" gives the id only when "v=" matches nowhere |
| UrlParsing.VideoIdShorts | youtube_analyzer.py:45-46 | "/shorts/" gives the id only when neither earlier pattern matches |
| UrlParsing.VideoIdNone | youtube_analyzer.py:47 | with none of the three patterns matching there is no id |
| UrlParsing.PlainQuery | youtube_analyzer.py:68 | the plain-text query has no '@' and no whitespace at either end |
| UrlParsing.ExtractChannelInfo | youtube_analyzer.py:49-71 | empty, non-string or over-2048-character input gives None; otherwise the pattern chain runs on the stripped input |
| UrlParsing.ChannelInfoIn | youtube_analyzer.py:57-71 | a result has a non-empty value, and an id or username value is all `[a-zA-Z0-9_-]` |
| UrlParsing.ChannelInfoRawHandle | youtube_analyzer.py:57-58 | a whole-string "@handle" wins and gives the handle without '@' as a search query |
| UrlParsing.ChannelInfoById | youtube_analyzer.py:59-60 | otherwise the leftmost "/channel/" match gives an id |
| UrlParsing.ChannelInfoByUser | youtube_analyzer.py:61-62 | "/user/" gives a username only when "/channel/" matches nowhere |
| UrlParsing.ChannelInfoByHandle | youtube_analyzer.py:63-64 | "/@" gives a search query only when "/channel/" and "/user/" match nowhere |
| UrlParsing.ChannelInfoByCustom | youtube_analyzer.py:65-66 | "/c/" gives a search query only when no earlier URL pattern matches |
| UrlParsing.ChannelInfoPlainText | youtube_analyzer.py:67-71 | without any pattern match there is a result exactly when the text is not a link, has no '/', and its cleaned form has 1 to 100 characters; the result is then that query, without '@' |
| VideoData.BestThumbnailPriority | youtube_analyzer.py:95-101 | the url chosen is the url of the first size present in the order maxres, standard, high, medium, default |
| VideoData.BestThumbnailNone | youtube_analyzer.py:95-101 | there is no url exactly when none of the five sizes is present |
| VideoData.CheckVideoId | youtube_analyzer.py:104-110 | the id passes exactly when it is a string of 1 to 11 letters, digits, '_' or '-'; otherwise it gets the "invalid id" error for a missing, empty or too long value and the "invalid format" error for a bad character |
| VideoData.ExtractedIdPassesFormat | youtube_analyzer.py:104-110 | an id found in a link fails the check only by being longer than 11 |
| VideoData.CleanText | youtube_analyzer.py:123-128 | a string is cut to the limit, anything else becomes "N/A" |
| VideoData.CleanVideoTitle | youtube_analyzer.py:123-127 | the title is at most 500 characters, a prefix of the original, and unchanged when it was short enough |
| VideoData.CleanDescription | youtube_analyzer.py:124-128 | the description is at most 2000 characters, a prefix of the original, and unchanged when it was short enough |
| VideoData.StringEntries | youtube_analyzer.py:129 | at most the list's length, and exactly the string entries of the list |
| VideoData.StringEntriesConcat | youtube_analyzer.py:129 | the string entries keep list order |
| VideoData.Take100 | youtube_analyzer.py:129 | each tag is cut to 100 characters, position by position |
| VideoData.CleanTags | youtube_analyzer.py:125-129 | at most 50 tags of at most 100 characters: the first 50 string entries, each cut to 100 characters, in order |
| VideoData.CleanTagsShortPrefix | youtube_analyzer.py:129 | when all string tags are short, the result is the first 50 of them unchanged |
| VideoData.CleanTagsNotList | youtube_analyzer.py:125 | tags that are missing or not a list give no tags |
| Heatmap.GridOf | youtube_analyzer.py:311-319 | a 7×24 grid whose cell (d, h) counts the uploads at weekday d, hour h |
| Heatmap.CountGrid | youtube_analyzer.py:311-319 | the counting loop over a fresh 7×24 array fills each cell with the number of uploads in it |
| Heatmap.ArgMax | youtube_analyzer.py:321 | `argmax` is a position of the largest cell, and every earlier cell is smaller |
| Heatmap.FirstMaxUnique | youtube_analyzer.py:321 | at most one cell is the first maximum |
| Heatmap.CellAt | youtube_analyzer.py:321 | `unravel_index` reads row-major position `d * 24 + h` as cell (d, h) |
| Heatmap.ArgMaxIsFirstMax | youtube_analyzer.py:321 | the reported (weekday, hour) is the first maximum in row-major order |
| Heatmap.HourLabelShape | youtube_analyzer.py:323 | the hour label is "HH:00 - HH:00" with the two numbers `h` and `h + 1` zero-padded |
| Heatmap.NatTwoDigits | youtube_analyzer.py:323 | an hour below 100 has at most two digits |
| Heatmap.PublicationHeatmap | youtube_analyzer.py:307-334 | no uploads is the "no recent videos" error (exactly then); otherwise the grid of counts, the first-maximum cell and the report naming its day and hours |
| Heatmap.RowSumSnoc | youtube_analyzer.py:314-319 | one more upload adds one to its own row sum only |
| Heatmap.GridSumSnoc | youtube_analyzer.py:314-319 | one more upload adds one to the grid sum |
| Heatmap.GridTotal | youtube_analyzer.py:314-319 | the grid adds up to the number of uploads |
| Heatmap.GridSumEmpty | youtube_analyzer.py:311 | the grid of no uploads sums to 0 |
| Heatmap.RowSumEmpty | youtube_analyzer.py:311 | each row of the grid of no uploads sums to 0 |
| Heatmap.FirstMaxOccupied | youtube_analyzer.py:321 | with some upload, the reported cell holds at least one |
| Pagination.LastRequest | youtube_analyzer.py:398-419 | the last request of a title walk is the first reply that is empty, has no token or failed |
| Pagination.Titles | youtube_analyzer.py:411-413 | the titles of a page, one per item, in order |
| Pagination.Collect | youtube_analyzer.py:398-419 | the first request of a walk sends the starting token |
| Pagination.CollectStopsAtLastRequest | youtube_analyzer.py:398-419 | the walk makes one request per reply up to `LastRequest`; it fails with that reply's exception when that reply failed, and otherwise returns the titles of all pages so far, in page order |
| Pagination.CollectToken | youtube_analyzer.py:403-415 | every later request sends the `nextPageToken` of the reply before it, a reply with items and a token |
| Pagination.AllVideoTitles | youtube_analyzer.py:394-433 | the paging loop returns the walk's titles or its error, and sends the walk's tokens |
| Pagination.EntryNameInjective | youtube_analyzer.py:512 | the number can be read back from a zip entry name |
| Pagination.ItemEntry | youtube_analyzer.py:504-515 | an item gives at most one entry, numbered `videos_processed + 1` |
| Pagination.NumberedConcat | youtube_analyzer.py:512 | entries numbered in consecutive ranges stay increasing when joined |
| Pagination.Consume | youtube_analyzer.py:496-519 | the inner loop counts every item of the page until `limit` |
| Pagination.ConsumeNumbered | youtube_analyzer.py:512-517 | a page's entries are numbered within its count range, increasingly |
| Pagination.Fetch | youtube_analyzer.py:477-523 | the count never decreases and never passes `limit`; at `limit` nothing more is requested |
| Pagination.FetchNumbered | youtube_analyzer.py:477-523 | a run's entries are numbered within its count range, increasingly |
| Pagination.DownloadThumbnails | youtube_analyzer.py:477-528 | the loop returns the run's entries and count or its error, sends its requests, and counts at most `limit` |
| Pagination.ConsumePage | youtube_analyzer.py:496-519 | the `for item in items` loop with its break computes `Consume` |
| Pagination.FetchToken | youtube_analyzer.py:483-488 | the first request sends no token, each later one the `nextPageToken` of the reply before it |
| Pagination.FetchSize | youtube_analyzer.py:479-481 | request k asks for `min(50, limit - videos_processed)`, where `videos_processed` counts every earlier item and is below `limit` |
| Pagination.FetchCount | youtube_analyzer.py:496-519 | the count is `min(limit, items in the replies received)`: every item counts, with or without a thumbnail |
| Pagination.DistinctNames | youtube_analyzer.py:512-513 | the zip entries of a run have distinct names |
| Pagination.DownloadBounds | youtube_analyzer.py:477-519 | the count is at most `limit`; a `limit` of 0 or less sends no request and gives an empty archive |
| NicheSheet.SheetTitle | excel_generator.py:16 | "Анализ - " followed by a prefix of the niche name, the first 20 characters when it is that long, and the whole name when it is shorter |
| NicheSheet.WithHeadersLayout | excel_generator.py:33-61 | a header loop writes its headers into row 1 from its start column on, and changes no other cell |
| NicheSheet.HeaderLayout | excel_generator.py:33-61 | the header row is exactly columns 1-5, 7-11 and 13-17 of row 1 (6 and 12 empty) with the three groups of headers in order |
| NicheSheet.StartColumn | excel_generator.py:70-74 | 7 exactly for "small", 13 exactly for "tiny", 1 for every other category |
| NicheSheet.BlocksApart | excel_generator.py:70-74 | different blocks start at least six columns apart |
| NicheSheet.Escape | excel_generator.py:104-105 | escaping never shortens a text |
| NicheSheet.ReadEscaped | excel_generator.py:104-108 | an escaped text followed by a closing quote reads back as the text |
| NicheSheet.QuotedReads | excel_generator.py:108-110 | a quoted escaped text reads back as the text |
| NicheSheet.EscapeKeepsOthers | excel_generator.py:104-105 | escaping changes no character but the quotes |
| NicheSheet.HyperlinkPartReads | excel_generator.py:102-110 | for an http url the part is `HYPERLINK(` with two literals reading back as the url and the text; otherwise one literal reading back as the text |
| NicheSheet.RowCells | excel_generator.py:81-125 | a channel row is exactly five cells (row, col..col+4): name, subscribers, views, the ideas formula, "" |
| NicheSheet.FirstFreeRowUnique | excel_generator.py:76-78 | the first free row is determined |
| NicheSheet.AddFillsNextRow | excel_generator.py:76-82 | successive adds to one block fill rows 2, 3, 4, … in order and leave every other block as it was |
| NicheSheet.BelowShrinks | excel_generator.py:77-78 | each step of the row search passes one filled cell, so the search ends |
| NicheSheet.AddKeepsHeaders | excel_generator.py:81-125 | a channel row never touches the header row |
| NicheSheet.Sheet.constructor | excel_generator.py:13-61 | a new sheet has the title and exactly the header cells, and no links |
| NicheSheet.Sheet.WriteHeaders | excel_generator.py:34-36 | one header loop writes its headers into row 1 from its start column on |
| NicheSheet.Sheet.AddChannelData | excel_generator.py:65-125 | the row written is the first free row from 2 in the category's column; the sheet gains exactly that row's five cells, and the name cell links to the url |

## Left out

- Telegram handlers, keyboards, state transitions and the web server are left out: framework glue.
- All network calls are inputs to the model: yt-dlp extraction, aiohttp and httpx GETs, and Google API requests.
- `asyncio.sleep` and the async structure are left out: everything runs sequentially.
- The zip files and the temporary directory are left out. An archive is the list of its files, a zip the list of its entries.
- Datetime parsing is left out: the heat map takes (weekday, hour) pairs.
- Floats, matplotlib and pytrends are left out. channel_graphics.py, trends_analyzer.py and config.py are not part of this model.
- openpyxl styling is left out: fills, fonts, borders, widths, heights and number formats.
- `save_to_buffer` is left out, as is openpyxl's refusal of sheet titles with forbidden characters.
- The channel lookup before the paging loops is left out (youtube_analyzer.py:364-391 and 441-467): it calls the API. The loops start from the uploads playlist.
- The loop in `finish_excel` that calls `add_channel_data` once per channel (main.py:662-663) is left out: it is glue around `add_channel_data`.
- Text.IsAlpha: Python's Unicode `isalpha` is approximated by Latin and Cyrillic letters.
- Text.IsDigit: Python's `isdigit` is approximated by ASCII digits.
- Text.IsSpace: only space, `\t`, `\n`, `\r`, `\v` and `\f` count as whitespace; Python's `strip()` also removes `\x1c`-`\x1f` and Unicode whitespace.
- BotHelpers.ParseCount: only ASCII digits are modelled. Characters such as '²' pass `str.isdigit` at main.py:497 but make `int` raise `ValueError` at main.py:501, which nothing catches, so the handler aborts; the model instead answers with the "enter a number" reply, and this abort path is not modelled.
- ThumbnailBatch.Batcher.SendArchive: every call returns normally in the model. `send_archive` catches a failing zip or upload itself and posts a warning (main.py:134-135), and the batch is then treated as sent, as in the model. If that warning post fails too, the exception leaves `send_archive`: inside the loop it is caught at main.py:269-270, so the file removal, the part number increment and the reset (main.py:238-246) are skipped and the current image is neither saved nor counted, and later images go into the same batch under the same part number; at the final send (main.py:273-274) it ends the handler before the reply at main.py:283. This path is not modelled.
- BotHelpers.ParsePythonInt: `int()` is modelled on ASCII digits, an optional sign, underscores between digits and surrounding whitespace. The non-string input behind `TypeError` is not modelled. Neither is the integer string conversion limit of Python 3.10.7 and later, under which `int()` raises `ValueError` for more than 4300 digits; the model accepts numbers of any length, because the limit depends on the interpreter version and its settings.
- BotHelpers.FormatNumber: because of that, a string of more than 4300 digits is grouped with dots by the model, while on Python 3.10.7 and later `format_number` returns it unchanged (main.py:85-86). `BotHelpers.ParseCount` is affected in the same way in principle.
- Pagination.AllVideoTitles: an item without `snippet` or `title` raises `KeyError` inside the `try`; the model's items always have a title.
- Pagination.DownloadThumbnails: as for titles, items always have a snippet, so that `KeyError` path is not modelled.
- VideoData.BestThumbnailPriority: a size present without a `url` raises `KeyError`; the model maps each size straight to its url.
- Pagination.ReplyAt: a request past the last reply of the page source is a failed request with the message "no reply".
- Heatmap.PublicationHeatmap: the missing-playlist error and the exception path (youtube_analyzer.py:296-298, 335-336) are left out; they come from API calls.
- NicheSheet.Sheet.AddChannelData: `int(data['subs'])` and `int(data['views'])` are taken as already integers, and name and url as strings. A cell is free exactly when nothing was written to it, which holds because every value written is a string or an integer, never `None`.
- NicheSheet.IdeasFormula has no contract of its own. It is stated through `RowCells` and `AddChannelData`, and its parts through `HyperlinkPartReads`.
- ThumbnailBatch.Batcher: the status message every 50 entries after a flush (main.py:248-252) is left out, and so are the file writes and removals.
- ThumbnailBatch.EntryFile: a title that is neither a string nor null is not modelled. A null title raises after the flush check, and that entry is skipped; this is modelled.
