/** The two link parsers of youtube_analyzer.py, `_extract_video_id` and
    `_extract_channel_info`. Each regular expression they use has the shape
    "a fixed marker, then one or more characters of a class"; `Search`
    is a hand-written scanner for that shape with the semantics of
    Python's `re.search`: the leftmost position where the marker is
    followed by a class character, then the longest run of class
    characters (the `+` is greedy and nothing follows it). */
module UrlParsing {
  import opened Wrappers
  import opened Text

  /** The character classes of the patterns. */
  datatype CharClass =
    | IdClass      // [a-zA-Z0-9_-]
    | HandleClass  // [a-zA-Z0-9_.-]

  predicate InClass(c: char, k: CharClass) {
    IsAsciiLetter(c) || IsAsciiDigit(c) || c == '_' || c == '-' || (k == HandleClass && c == '.')
  }

  /** The captured group of a match: `s[start..end]`. */
  datatype Span = Span(start: nat, end: nat)

  /** The marker occurs at `p` and a class character follows it, so the
      pattern `marker[class]+` matches starting at `p`. */
  predicate MatchAt(s: string, marker: string, k: CharClass, p: nat) {
    && p + |marker| < |s|
    && s[p..p + |marker|] == marker
    && InClass(s[p + |marker|], k)
  }

  /** The end of the longest run of class characters starting at `i`. */
  function RunEnd(s: string, i: nat, k: CharClass): (e: nat)
    requires i <= |s|
    ensures i <= e <= |s|
    ensures forall j :: i <= j < e ==> InClass(s[j], k)
    ensures e == |s| || !InClass(s[e], k)
    decreases |s| - i
  {
    if i == |s| || !InClass(s[i], k) then i else RunEnd(s, i + 1, k)
  }

  /** `re.search(marker + "([class]+)", s[from..])`, the group's span. */
  function Search(s: string, marker: string, k: CharClass, from: nat): (r: Option<Span>)
    requires from <= |s|
    ensures r.Some? ==>
      && from + |marker| <= r.value.start < r.value.end <= |s|
      && MatchAt(s, marker, k, r.value.start - |marker|)
      && r.value.end == RunEnd(s, r.value.start, k)
    ensures r.Some? ==> forall p :: from <= p < r.value.start - |marker| ==> !MatchAt(s, marker, k, p)
    ensures r.None? ==> forall p :: from <= p ==> !MatchAt(s, marker, k, p)
    decreases |s| - from
  {
    if from + |marker| >= |s| then None
    else if MatchAt(s, marker, k, from) then
      var b := from + |marker|;
      Some(Span(b, RunEnd(s, b, k)))
    else Search(s, marker, k, from + 1)
  }

  /** A search over the whole string finds the leftmost match and captures
      the longest run after its marker. */
  lemma SearchLeftmost(s: string, marker: string, k: CharClass, p: nat)
    requires MatchAt(s, marker, k, p)
    requires forall q :: 0 <= q < p ==> !MatchAt(s, marker, k, q)
    ensures Search(s, marker, k, 0) == Some(Span(p + |marker|, RunEnd(s, p + |marker|, k)))
  {
    var r := Search(s, marker, k, 0);
    assert r.Some?;
    var q := r.value.start - |marker|;
    assert !(q < p);
    assert !(p < q);
  }

  /** The text of a group `Search` captured: never empty, all class
      characters. */
  function Group(s: string, k: CharClass, sp: Span): (g: string)
    requires sp.start < sp.end <= |s| && sp.end == RunEnd(s, sp.start, k)
    ensures |g| > 0 && forall j :: 0 <= j < |g| ==> InClass(g[j], k)
  {
    var g := s[sp.start..sp.end];
    assert forall j :: 0 <= j < |g| ==> g[j] == s[sp.start + j];
    g
  }

  // ---------------------------------------------------------------------
  // _extract_video_id

  /** The argument as the core receives it: `None` stands for a value that
      is not a string. */
  type Input = Option<string>

  /** Empty, non-string or longer than 2048 characters: refused before
      any pattern is tried. */
  predicate Refused(input: Input) {
    input.None? || input.value == [] || |input.value| > 2048
  }

  /** The id in a video link: the run after "v=" (a look-behind), else
      after "youtu.be/", else after "/shorts/", searched in the stripped
      input. */
  function ExtractVideoId(input: Input): (r: Option<string>)
    ensures Refused(input) ==> r.None?
    ensures !Refused(input) ==> r == VideoIdIn(Strip(input.value))
  {
    if Refused(input) then None else VideoIdIn(Strip(input.value))
  }

  /** The pattern chain of `_extract_video_id` over the stripped text. */
  function VideoIdIn(u: string): (r: Option<string>)
    ensures r.Some? ==> |r.value| > 0 && forall i :: 0 <= i < |r.value| ==> InClass(r.value[i], IdClass)
  {
    var standard := Search(u, "v=", IdClass, 0);
    var short := Search(u, "youtu.be/", IdClass, 0);
    var shorts := Search(u, "/shorts/", IdClass, 0);
    if standard.Some? then Some(Group(u, IdClass, standard.value))
    else if short.Some? then Some(Group(u, IdClass, short.value))
    else if shorts.Some? then Some(Group(u, IdClass, shorts.value))
    else None
  }

  /** No match of `marker[class]+` anywhere in `s`. */
  predicate NoMatch(s: string, marker: string, k: CharClass) {
    forall p :: 0 <= p < |s| ==> !MatchAt(s, marker, k, p)
  }

  lemma NoMatchSearch(s: string, marker: string, k: CharClass)
    requires NoMatch(s, marker, k)
    ensures Search(s, marker, k, 0).None?
  {
    var r := Search(s, marker, k, 0);
    if r.Some? {
      assert false;
    }
  }

  /** The leftmost match of `marker` is at `p`. */
  predicate FirstMatchAt(s: string, marker: string, k: CharClass, p: nat) {
    MatchAt(s, marker, k, p) && forall q :: 0 <= q < p ==> !MatchAt(s, marker, k, q)
  }

  /** The text captured by the leftmost match at `p`. */
  function Captured(s: string, marker: string, k: CharClass, p: nat): string
    requires MatchAt(s, marker, k, p)
  {
    s[p + |marker|..RunEnd(s, p + |marker|, k)]
  }

  /** "v=" wins wherever it occurs; its leftmost match gives the id. */
  lemma VideoIdStandard(u: string, p: nat)
    requires FirstMatchAt(u, "v=", IdClass, p)
    ensures VideoIdIn(u) == Some(Captured(u, "v=", IdClass, p))
  {
    SearchLeftmost(u, "v=", IdClass, p);
  }

  /** "youtu.be/" counts only when "v=" matches nowhere. */
  lemma VideoIdShortLink(u: string, p: nat)
    requires NoMatch(u, "v=", IdClass)
    requires FirstMatchAt(u, "youtu.be/", IdClass, p)
    ensures VideoIdIn(u) == Some(Captured(u, "youtu.be/", IdClass, p))
  {
    NoMatchSearch(u, "v=", IdClass);
    SearchLeftmost(u, "youtu.be/", IdClass, p);
  }

  /** "/shorts/" counts only when neither earlier pattern matches. */
  lemma VideoIdShorts(u: string, p: nat)
    requires NoMatch(u, "v=", IdClass) && NoMatch(u, "youtu.be/", IdClass)
    requires FirstMatchAt(u, "/shorts/", IdClass, p)
    ensures VideoIdIn(u) == Some(Captured(u, "/shorts/", IdClass, p))
  {
    NoMatchSearch(u, "v=", IdClass);
    NoMatchSearch(u, "youtu.be/", IdClass);
    SearchLeftmost(u, "/shorts/", IdClass, p);
  }

  /** With none of the three patterns matching, there is no id. */
  lemma VideoIdNone(u: string)
    requires NoMatch(u, "v=", IdClass) && NoMatch(u, "youtu.be/", IdClass) && NoMatch(u, "/shorts/", IdClass)
    ensures VideoIdIn(u).None?
  {
    NoMatchSearch(u, "v=", IdClass);
    NoMatchSearch(u, "youtu.be/", IdClass);
    NoMatchSearch(u, "/shorts/", IdClass);
  }

  // ---------------------------------------------------------------------
  // _extract_channel_info

  /** `{'type': ..., 'value': ...}` */
  datatype RefKind = ChannelId | Username | SearchQuery
  datatype ChannelRef = ChannelRef(kind: RefKind, value: string)

  /** `re.fullmatch(r'@([a-zA-Z0-9_.-]+)', t)` */
  predicate RawHandle(t: string) {
    |t| >= 2 && t[0] == '@' && forall i :: 1 <= i < |t| ==> InClass(t[i], HandleClass)
  }

  /** The plain-text fallback applies: not a link and no '/'. */
  predicate PlainText(t: string) {
    !(StartsWith(t, "http") || StartsWith(t, "www.") || '/' in t)
  }

  /** The query made of plain text: '@' removed, then stripped. */
  function PlainQuery(t: string): (q: string)
    ensures '@' !in q
    ensures q != [] ==> !IsSpace(q[0]) && !IsSpace(q[|q| - 1])
  {
    var c := RemoveChar(t, '@');
    StripSubset(c);
    Strip(c)
  }

  /** What to look the channel up by. */
  function ExtractChannelInfo(input: Input): (r: Option<ChannelRef>)
    ensures Refused(input) ==> r.None?
    ensures !Refused(input) ==> r == ChannelInfoIn(Strip(input.value))
  {
    if Refused(input) then None else ChannelInfoIn(Strip(input.value))
  }

  /** The pattern chain of `_extract_channel_info` over the stripped text. */
  function ChannelInfoIn(t: string): (r: Option<ChannelRef>)
    ensures r.Some? ==> |r.value.value| > 0
    ensures r.Some? && r.value.kind != SearchQuery ==>
      forall i :: 0 <= i < |r.value.value| ==> InClass(r.value.value[i], IdClass)
  {
    if RawHandle(t) then Some(ChannelRef(SearchQuery, t[1..]))
    else
      var id := Search(t, "/channel/", IdClass, 0);
      var user := Search(t, "/user/", IdClass, 0);
      var at := Search(t, "/@", HandleClass, 0);
      var custom := Search(t, "/c/", HandleClass, 0);
      if id.Some? then Some(ChannelRef(ChannelId, Group(t, IdClass, id.value)))
      else if user.Some? then Some(ChannelRef(Username, Group(t, IdClass, user.value)))
      else if at.Some? then Some(ChannelRef(SearchQuery, Group(t, HandleClass, at.value)))
      else if custom.Some? then Some(ChannelRef(SearchQuery, Group(t, HandleClass, custom.value)))
      else if PlainText(t) && PlainQuery(t) != [] && |PlainQuery(t)| <= 100 then
        Some(ChannelRef(SearchQuery, PlainQuery(t)))
      else None
  }

  /** A whole-string handle wins over everything else and drops the '@'. */
  lemma ChannelInfoRawHandle(t: string)
    requires RawHandle(t)
    ensures ChannelInfoIn(t) == Some(ChannelRef(SearchQuery, t[1..]))
  {
  }

  /** "/channel/" comes first among the URL patterns and gives an id. */
  lemma ChannelInfoById(t: string, p: nat)
    requires !RawHandle(t)
    requires FirstMatchAt(t, "/channel/", IdClass, p)
    ensures ChannelInfoIn(t) == Some(ChannelRef(ChannelId, Captured(t, "/channel/", IdClass, p)))
  {
    SearchLeftmost(t, "/channel/", IdClass, p);
  }

  /** "/user/" counts only when "/channel/" matches nowhere. */
  lemma ChannelInfoByUser(t: string, p: nat)
    requires !RawHandle(t) && NoMatch(t, "/channel/", IdClass)
    requires FirstMatchAt(t, "/user/", IdClass, p)
    ensures ChannelInfoIn(t) == Some(ChannelRef(Username, Captured(t, "/user/", IdClass, p)))
  {
    NoMatchSearch(t, "/channel/", IdClass);
    SearchLeftmost(t, "/user/", IdClass, p);
  }

  /** "/@" counts only when neither "/channel/" nor "/user/" matches. */
  lemma ChannelInfoByHandle(t: string, p: nat)
    requires !RawHandle(t) && NoMatch(t, "/channel/", IdClass) && NoMatch(t, "/user/", IdClass)
    requires FirstMatchAt(t, "/@", HandleClass, p)
    ensures ChannelInfoIn(t) == Some(ChannelRef(SearchQuery, Captured(t, "/@", HandleClass, p)))
  {
    NoMatchSearch(t, "/channel/", IdClass);
    NoMatchSearch(t, "/user/", IdClass);
    SearchLeftmost(t, "/@", HandleClass, p);
  }

  /** "/c/" is the last URL pattern. */
  lemma ChannelInfoByCustom(t: string, p: nat)
    requires !RawHandle(t) && NoMatch(t, "/channel/", IdClass) && NoMatch(t, "/user/", IdClass)
    requires NoMatch(t, "/@", HandleClass)
    requires FirstMatchAt(t, "/c/", HandleClass, p)
    ensures ChannelInfoIn(t) == Some(ChannelRef(SearchQuery, Captured(t, "/c/", HandleClass, p)))
  {
    NoMatchSearch(t, "/channel/", IdClass);
    NoMatchSearch(t, "/user/", IdClass);
    NoMatchSearch(t, "/@", HandleClass);
    SearchLeftmost(t, "/c/", HandleClass, p);
  }

  /** With no handle and no URL pattern, the input is a search query
      exactly when it is plain text whose cleaned form has 1 to 100
      characters; the query then has no '@'. */
  lemma ChannelInfoPlainText(t: string)
    requires !RawHandle(t)
    requires NoMatch(t, "/channel/", IdClass) && NoMatch(t, "/user/", IdClass)
    requires NoMatch(t, "/@", HandleClass) && NoMatch(t, "/c/", HandleClass)
    ensures var r := ChannelInfoIn(t);
      && (r.Some? <==> PlainText(t) && 0 < |PlainQuery(t)| <= 100)
      && (r.Some? ==> r.value == ChannelRef(SearchQuery, PlainQuery(t)) && '@' !in r.value.value)
  {
    NoMatchSearch(t, "/channel/", IdClass);
    NoMatchSearch(t, "/user/", IdClass);
    NoMatchSearch(t, "/@", HandleClass);
    NoMatchSearch(t, "/c/", HandleClass);
  }
}
