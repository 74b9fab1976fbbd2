/** The pure helpers of the chat front-end (main.py): the Russian plural of
    "канал", the thousands formatter, channel-URL normalisation, the
    thumbnail title sanitiser, the requested-count clamp and the
    subscriber categories. */
module BotHelpers {
  import opened Wrappers
  import opened Text

  // ---------------------------------------------------------------------
  // pluralize_canal

  /** The Russian word for "channel" agreeing with `count`. Python's `%`
      with a positive modulus agrees with Dafny's for negative counts too. */
  function PluralizeCanal(count: int): string {
    PluralForm(count % 10, count % 100)
  }

  /** The form chosen from the last digit and the last two digits. */
  function PluralForm(last: int, lastTwo: int): string {
    if last == 1 && lastTwo != 11 then "канал"
    else if 2 <= last <= 4 && (lastTwo < 10 || lastTwo >= 20) then "канала"
    else "каналов"
  }

  lemma HundredsSplit(n: int)
    ensures n % 100 == 10 * ((n / 10) % 10) + n % 10
  {
    var q := n / 100;
    var r := n % 100;
    assert n == 100 * q + r;
    assert n / 10 == 10 * q + r / 10;
    assert (n / 10) % 10 == r / 10;
    assert n % 10 == r % 10;
  }

  /** The rule in terms of the last two decimal digits: the singular form
      for a last digit 1, the paucal form for 2..4, the plural otherwise,
      with every count whose tens digit is 1 taking the plural. */
  lemma PluralizeByDigits(n: int)
    ensures var last, tens := n % 10, (n / 10) % 10;
      && (PluralizeCanal(n) == "канал" <==> last == 1 && tens != 1)
      && (PluralizeCanal(n) == "канала" <==> 2 <= last <= 4 && tens != 1)
      && (PluralizeCanal(n) == "каналов" <==> !(1 <= last <= 4 && tens != 1))
  {
    HundredsSplit(n);
  }

  /** Only the last two digits matter. */
  lemma PluralizePeriodic(n: int)
    ensures PluralizeCanal(n + 100) == PluralizeCanal(n)
  {
    assert (n + 100) % 100 == n % 100 by {
      assert n + 100 == 100 * (n / 100 + 1) + n % 100;
    }
    assert (n + 100) % 10 == n % 10 by {
      assert n + 100 == 10 * (n / 10 + 10) + n % 10;
    }
  }

  // ---------------------------------------------------------------------
  // format_number

  /** The digits part accepted by Python's `int(str)`: ASCII digits with
      single underscores allowed between two digits. */
  predicate DigitBody(b: string) {
    && |b| > 0
    && IsAsciiDigit(b[0])
    && forall i :: 0 <= i < |b| ==> DigitOrJoin(b, i)
  }

  /** Position `i` holds a digit, or an underscore followed by a digit. */
  predicate DigitOrJoin(b: string, i: nat)
    requires i < |b|
  {
    IsAsciiDigit(b[i]) || (b[i] == '_' && i + 1 < |b| && IsAsciiDigit(b[i + 1]))
  }

  lemma DigitBodyDigits(b: string)
    requires DigitBody(b)
    ensures AllDigits(RemoveChar(b, '_'))
  {
    var r := RemoveChar(b, '_');
    forall i | 0 <= i < |r| ensures IsAsciiDigit(r[i]) {
      var c := r[i];
      assert c in r;
      assert c != '_';
      assert c in b;
      var j :| 0 <= j < |b| && b[j] == c;
      assert DigitOrJoin(b, j);
    }
  }

  /** `int(s)` for a string `s`: `None` where Python raises ValueError. */
  function ParsePythonInt(s: string): Option<int> {
    var t := Strip(s);
    if t == [] then None
    else
      var negative := t[0] == '-';
      var body := if t[0] == '-' || t[0] == '+' then t[1..] else t;
      if DigitBody(body) then
        DigitBodyDigits(body);
        var v: int := DecimalValue(RemoveChar(body, '_'));
        Some(if negative then -v else v)
      else None
  }

  /** Python's `str(n)` is read back by `int`. */
  lemma ParseIntRoundTrip(n: int)
    ensures ParsePythonInt(IntToDecimal(n)) == Some(n)
  {
    var s := IntToDecimal(n);
    var d := NatToDecimal(if n < 0 then -n else n);
    assert !IsSpace(s[0]) && !IsSpace(s[|s| - 1]);
    StripUnchanged(s);
    var body := if s[0] == '-' || s[0] == '+' then s[1..] else s;
    assert body == d;
    assert '_' !in d;
    RemoveCharAbsent(d, '_');
    DecimalRoundTrip(if n < 0 then -n else n);
  }

  /** `f"{n:,}".replace(',', '.')` on the digits of a non-negative number:
      groups of three from the right. */
  function GroupThousands(d: string): string {
    if |d| <= 3 then d else GroupThousands(d[..|d| - 3]) + "." + d[|d| - 3..]
  }

  /** Grouping inserts dots and nothing else. */
  lemma {:induction false} GroupThousandsRemoveDots(d: string)
    requires '.' !in d
    ensures RemoveChar(GroupThousands(d), '.') == d
  {
    if |d| <= 3 {
      RemoveCharAbsent(d, '.');
    } else {
      var p := d[..|d| - 3];
      var tail := d[|d| - 3..];
      assert d == p + tail;
      assert '.' !in p && '.' !in tail;
      GroupThousandsRemoveDots(p);
      var g := GroupThousands(p);
      calc {
        RemoveChar(GroupThousands(d), '.');
        RemoveChar((g + ".") + tail, '.');
        { RemoveCharConcat(g + ".", tail, '.'); }
        RemoveChar(g + ".", '.') + RemoveChar(tail, '.');
        { RemoveCharConcat(g, ".", '.'); RemoveCharAbsent(tail, '.'); }
        (RemoveChar(g, '.') + RemoveChar(".", '.')) + tail;
        { assert RemoveChar(".", '.') == []; }
        (p + []) + tail;
        { assert p + [] == p; }
        p + tail;
        d;
      }
    }
  }

  /** Dots stand exactly at the positions 4, 8, 12, ... counted from the
      right end, so the first group has one to three digits and every other
      group three. */
  lemma {:induction false} GroupThousandsDots(d: string)
    requires '.' !in d
    ensures DotsEveryFourth(GroupThousands(d))
  {
    if |d| > 3 {
      var p := d[..|d| - 3];
      var tail := d[|d| - 3..];
      assert '.' !in p && '.' !in tail;
      GroupThousandsDots(p);
      var g := GroupThousands(p);
      var r := GroupThousands(d);
      assert r == g + "." + tail;
      forall i | 0 <= i < |r| ensures r[i] == '.' <==> (|r| - i) % 4 == 0 {
        if i < |g| {
          assert r[i] == g[i];
          assert (|r| - i) % 4 == (|g| - i) % 4 by {
            assert |r| - i == (|g| - i) + 4;
          }
          assert DotsEveryFourth(g);
          assert g[i] == '.' <==> (|g| - i) % 4 == 0;
        } else if i == |g| {
          assert r[i] == '.' && |r| - i == 4;
        } else {
          assert r[i] == tail[i - |g| - 1] && tail[i - |g| - 1] in tail;
          assert 0 < |r| - i < 4;
          assert r[i] != '.';
        }
      }
    }
  }

  predicate DotsEveryFourth(r: string) {
    forall i :: 0 <= i < |r| ==> (r[i] == '.' <==> (|r| - i) % 4 == 0)
  }

  lemma {:induction false} GroupThousandsLength(d: string)
    requires |d| > 0
    ensures |GroupThousands(d)| % 4 != 0
  {
    if |d| > 3 {
      GroupThousandsLength(d[..|d| - 3]);
      assert |GroupThousands(d)| == |GroupThousands(d[..|d| - 3])| + 4;
    }
  }

  /** main.py's `format_number`. */
  function FormatNumber(s: string): (r: string)
    ensures ParsePythonInt(s).None? ==> r == s
    ensures ParsePythonInt(s).Some? ==> RemoveChar(r, '.') == IntToDecimal(ParsePythonInt(s).value)
  {
    match ParsePythonInt(s)
    case None => s
    case Some(n) =>
      var d := NatToDecimal(if n < 0 then -n else n);
      assert '.' !in d;
      GroupThousandsRemoveDots(d);
      if n < 0 then
        RemoveCharConcat("-", GroupThousands(d), '.');
        "-" + GroupThousands(d)
      else GroupThousands(d)
  }

  /** Digits in dot-separated groups of three counted from the right; the
      first group has one to three digits. */
  predicate Grouped(g: string) {
    && |g| % 4 != 0
    && DotsEveryFourth(g)
    && (forall i :: 0 <= i < |g| ==> g[i] == '.' || IsAsciiDigit(g[i]))
  }

  lemma GroupThousandsGrouped(d: string)
    requires AllDigits(d) && |d| > 0
    ensures Grouped(GroupThousands(d))
  {
    assert '.' !in d;
    GroupThousandsDots(d);
    GroupThousandsLength(d);
    GroupThousandsDigits(d);
  }

  /** For a number, the formatter yields its digits grouped in threes,
      behind a minus sign exactly when the number is negative. */
  lemma FormatNumberGroups(s: string, n: int)
    requires ParsePythonInt(s) == Some(n)
    ensures var r := FormatNumber(s);
      && |r| > 0
      && (n < 0 <==> r[0] == '-')
      && Grouped(if n < 0 then r[1..] else r)
  {
    var d := NatToDecimal(if n < 0 then -n else n);
    var r := FormatNumber(s);
    GroupThousandsGrouped(d);
    GroupThousandsDigits(d);
    if n < 0 {
      assert r == "-" + GroupThousands(d);
      assert r[1..] == GroupThousands(d);
    } else {
      assert r == GroupThousands(d);
    }
  }

  lemma {:induction false} GroupThousandsDigits(d: string)
    requires AllDigits(d) && |d| > 0
    ensures var r := GroupThousands(d);
      |r| > 0 && IsAsciiDigit(r[0]) && forall i :: 0 <= i < |r| ==> r[i] == '.' || IsAsciiDigit(r[i])
  {
    if |d| > 3 {
      GroupThousandsDigits(d[..|d| - 3]);
    }
  }

  // ---------------------------------------------------------------------
  // channel URL normalisation in batch_download_and_send

  /** `s.split(ch)[0]`: everything before the first `ch`. */
  function BeforeFirst(s: string, ch: char): (r: string)
    ensures |r| <= |s| && r == s[..|r|] && ch !in r
    ensures |r| < |s| ==> s[|r|] == ch
  {
    if s == [] || s[0] == ch then [] else [s[0]] + BeforeFirst(s[1..], ch)
  }

  /** The playlist URL the batch download scans: the query string and the
      trailing slashes are dropped and "/videos" is appended unless the URL
      already names the videos or shorts tab. */
  function NormalizeChannelUrl(url: string): (r: string)
    ensures '?' !in r
    ensures EndsWith(r, "/videos") || EndsWith(r, "/shorts")
    ensures var clean := RStripChar(BeforeFirst(url, '?'), '/');
      r == (if EndsWith(clean, "/videos") || EndsWith(clean, "/shorts") then clean else clean + "/videos")
  {
    var clean := RStripChar(BeforeFirst(url, '?'), '/');
    if !EndsWith(clean, "/videos") && !EndsWith(clean, "/shorts") then
      assert (clean + "/videos")[|clean + "/videos"| - 7..] == "/videos";
      clean + "/videos"
    else clean
  }

  /** The result is a clean prefix of the input, possibly followed by
      "/videos": no trailing slash survives and `url` itself before the
      first '?' starts with `clean`. */
  lemma NormalizeChannelUrlPrefix(url: string)
    ensures var r := NormalizeChannelUrl(url);
      && r[|r| - 1] != '/'
      && (StartsWith(url, r) || (EndsWith(r, "/videos") && StartsWith(url, r[..|r| - 7])))
  {
    var r := NormalizeChannelUrl(url);
    var b := BeforeFirst(url, '?');
    var clean := RStripChar(b, '/');
    assert clean == url[..|clean|];
    if r == clean {
      assert StartsWith(url, r);
    } else {
      assert r[..|r| - 7] == clean;
    }
  }

  /** Normalising twice changes nothing. */
  lemma NormalizeChannelUrlIdempotent(url: string)
    ensures NormalizeChannelUrl(NormalizeChannelUrl(url)) == NormalizeChannelUrl(url)
  {
    var r := NormalizeChannelUrl(url);
    assert BeforeFirst(r, '?') == r;
    assert r[|r| - 1] == 's';
    assert RStripChar(r, '/') == r;
  }

  // ---------------------------------------------------------------------
  // title sanitiser and file name in batch_download_and_send

  /** The characters the title filter keeps. */
  predicate TitleChar(c: char) {
    IsAlpha(c) || IsDigit(c) || c == ' '
  }

  /** `"".join([c for c in title if c.isalpha() or c.isdigit() or c == ' '])` */
  function FilterTitle(title: string): (r: string)
    ensures forall i :: 0 <= i < |r| ==> TitleChar(r[i])
    ensures forall c :: c in r <==> c in title && TitleChar(c)
    ensures |r| <= |title|
  {
    if title == [] then []
    else (if TitleChar(title[0]) then [title[0]] else []) + FilterTitle(title[1..])
  }

  /** Filtering works character by character, so it distributes over
      concatenation. */
  lemma {:induction false} FilterTitleConcat(a: string, b: string)
    ensures FilterTitle(a + b) == FilterTitle(a) + FilterTitle(b)
  {
    if a == [] {
      assert a + b == b;
    } else {
      assert (a + b)[0] == a[0] && (a + b)[1..] == a[1..] + b;
      FilterTitleConcat(a[1..], b);
    }
  }

  /** The filtered title, stripped and cut to 50 characters; it is what
      download_thumbnails_zip uses, with no fallback. */
  function CleanTitle(title: string): (r: string)
    ensures |r| <= 50
    ensures forall i :: 0 <= i < |r| ==> TitleChar(r[i])
    ensures r != [] ==> r[0] != ' '
    ensures StartsWith(Strip(FilterTitle(title)), r)
    ensures |r| == if |Strip(FilterTitle(title))| <= 50 then |Strip(FilterTitle(title))| else 50
  {
    var f := FilterTitle(title);
    StripKeepsTitleChars(f);
    Take(Strip(f), 50)
  }

  /** Stripping and cutting keep only title characters. */
  lemma StripKeepsTitleChars(f: string)
    requires forall i :: 0 <= i < |f| ==> TitleChar(f[i])
    ensures var r := Take(Strip(f), 50); forall i :: 0 <= i < |r| ==> TitleChar(r[i])
  {
    var s := Strip(f);
    var a := |f| - |LStrip(f)|;
    var r := Take(s, 50);
    forall i | 0 <= i < |r| ensures TitleChar(r[i]) {
      assert r[i] == s[i] == f[a + i];
    }
  }

  /** A clean title is empty exactly when the original has no letter and
      no digit. */
  lemma CleanTitleEmpty(title: string)
    ensures CleanTitle(title) == [] <==> forall c :: c in title ==> !IsAlpha(c) && !IsDigit(c)
  {
    var f := FilterTitle(title);
    StripEmpty(f);
    if CleanTitle(title) == [] {
      forall c | c in title ensures !IsAlpha(c) && !IsDigit(c) {
        if IsAlpha(c) || IsDigit(c) {
          assert false;
        }
      }
    } else {
      var r := CleanTitle(title);
      assert r[0] in f;
    }
  }

  /** The title part of a thumbnail file name: never empty, at most 50
      letters, digits and spaces, "img" when nothing is left. */
  function SafeTitle(title: string): (r: string)
    ensures 1 <= |r| <= 50
    ensures forall i :: 0 <= i < |r| ==> TitleChar(r[i])
    ensures CleanTitle(title) != [] ==> r == CleanTitle(title)
    ensures CleanTitle(title) == [] ==> r == "img"
  {
    var c := CleanTitle(title);
    if c == [] then FallbackTitleChars(); "img"
    else c
  }

  /** The fallback name "img" is made of title characters. */
  lemma FallbackTitleChars()
    ensures forall i :: 0 <= i < |"img"| ==> TitleChar("img"[i])
  {
  }

  /** `f"{safe_title}_{video_id}.jpg"` */
  function ThumbFileName(title: string, videoId: string): string {
    SafeTitle(title) + "_" + videoId + ".jpg"
  }

  /** The file name splits back into the safe title, the id and ".jpg":
      the title part holds no '_', so the first '_' separates the two. */
  lemma ThumbFileNameParts(title: string, videoId: string)
    ensures var name := ThumbFileName(title, videoId);
      var k := |SafeTitle(title)|;
      && BeforeFirst(name, '_') == SafeTitle(title)
      && name[k + 1..|name| - 4] == videoId
      && EndsWith(name, ".jpg")
  {
    var t := SafeTitle(title);
    TitleCharsNoUnderscore(t);
    NameParts(t, videoId);
  }

  /** A string of title characters holds no '_'. */
  lemma TitleCharsNoUnderscore(t: string)
    requires forall i :: 0 <= i < |t| ==> TitleChar(t[i])
    ensures '_' !in t
  {
    forall i | 0 <= i < |t| ensures t[i] != '_' {
      assert TitleChar(t[i]);
    }
  }

  /** `t + "_" + id + ".jpg"` splits back at the first '_' when `t` holds none. */
  lemma NameParts(t: string, videoId: string)
    requires '_' !in t
    ensures var name := t + "_" + videoId + ".jpg";
      && BeforeFirst(name, '_') == t
      && name[|t| + 1..|name| - 4] == videoId
      && EndsWith(name, ".jpg")
  {
    var name := t + "_" + videoId + ".jpg";
    assert name[..|t|] == t;
    assert name[|t|] == '_';
    BeforeFirstPrefix(name, t, '_');
    assert name[|t| + 1..|name| - 4] == videoId;
    assert name[|name| - 4..] == ".jpg";
  }

  lemma {:induction false} BeforeFirstPrefix(s: string, p: string, ch: char)
    requires |p| < |s| && s[..|p|] == p && ch !in p && s[|p|] == ch
    ensures BeforeFirst(s, ch) == p
  {
    if p != [] {
      assert s[0] == p[0];
      BeforeFirstPrefix(s[1..], p[1..], ch);
    }
  }

  // ---------------------------------------------------------------------
  // process_thumb_count_step

  /** `text.isdigit()` followed by `int(text)`; `None` is the "enter a
      number" reply. */
  function ParseCount(text: string): (r: Option<nat>)
    ensures r.Some? <==> |text| > 0 && AllDigits(text)
    ensures r.Some? ==> r.value == DecimalValue(text)
  {
    if |text| > 0 && AllDigits(text) then Some(DecimalValue(text)) else None
  }

  /** Every count typed as its plain decimal spelling is accepted as itself. */
  lemma ParseCountRoundTrip(n: nat)
    ensures ParseCount(NatToDecimal(n)) == Some(n)
  {
    DecimalRoundTrip(n);
  }

  /** The requested count raised to at least 1, then lowered to `maxVideos`. */
  function ClampCount(count: int, maxVideos: int): (r: int)
    ensures maxVideos >= 1 ==> 1 <= r <= maxVideos
    ensures 1 <= count <= maxVideos ==> r == count
    ensures count > maxVideos ==> r == maxVideos
    ensures count < 1 && maxVideos >= 1 ==> r == 1
    ensures maxVideos < 1 ==> r == maxVideos
  {
    var c := if count < 1 then 1 else count;
    if c > maxVideos then maxVideos else c
  }

  /** Clamping is idempotent and monotone in the request. */
  lemma ClampCountStable(count: int, other: int, maxVideos: int)
    requires maxVideos >= 1
    ensures ClampCount(ClampCount(count, maxVideos), maxVideos) == ClampCount(count, maxVideos)
    ensures count <= other ==> ClampCount(count, maxVideos) <= ClampCount(other, maxVideos)
  {
  }

  // ---------------------------------------------------------------------
  // process_niche_channel

  /** The spreadsheet block a channel belongs to. */
  function SubscriberCategory(subs: int): (cat: string)
    ensures cat == "whales" <==> subs >= 100000
    ensures cat == "small" <==> 1000 <= subs < 100000
    ensures cat == "tiny" <==> subs < 1000
  {
    if subs >= 100000 then "whales" else if subs >= 1000 then "small" else "tiny"
  }

  function CategoryRank(cat: string): nat {
    if cat == "tiny" then 0 else if cat == "small" then 1 else 2
  }

  /** More subscribers never put a channel in a smaller category. */
  lemma SubscriberCategoryMonotone(a: int, b: int)
    requires a <= b
    ensures CategoryRank(SubscriberCategory(a)) <= CategoryRank(SubscriberCategory(b))
  {
  }
}
