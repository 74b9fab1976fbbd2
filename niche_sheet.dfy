/** The niche-analysis spreadsheet of excel_generator.py (`ExcelGenerator`):
    a header row of three five-column blocks — large, small and very small
    channels — and one row per channel in the block of its category, written
    in the first free row. The sheet is a map from (row, column) to the value
    of a cell; a cell that is absent has the value `None`. */
module NicheSheet {
  import opened Wrappers
  import opened Text

  /** A cell value: a string (also a formula) or an integer. */
  datatype CellValue = Str(s: string) | Int(n: int)

  /** The `data` dict one channel is added with. */
  datatype ChannelRow = ChannelRow(name: string, url: string, subs: int, views: int,
                                   idea7d: string, idea14d: string, idea30d: string)

  // ---------------------------------------------------------------------
  // the sheet title and the headers

  const TitlePrefix: string := "Анализ - "

  /** `f"Анализ - {niche_name[:20]}"` */
  function SheetTitle(nicheName: string): (r: string)
    ensures StartsWith(r, TitlePrefix) && |r| <= |TitlePrefix| + 20
    ensures StartsWith(nicheName, r[|TitlePrefix|..])
    ensures |nicheName| >= 20 ==> |r| == |TitlePrefix| + 20
    ensures |nicheName| < 20 ==> r == TitlePrefix + nicheName
  {
    var cut := Take(nicheName, 20);
    var r := TitlePrefix + cut;
    assert r[..|TitlePrefix|] == TitlePrefix && r[|TitlePrefix|..] == cut;
    r
  }

  const WhalesHeaders: seq<string> := ["Киты (название канала)", "Подписчики", "Просмотры", "Идеи", "Фишки и качество"]
  const SmallHeaders: seq<string> := ["Маленькие каналы", "Подписчики", "Просмотры", "Идеи", "Фишки и качество"]
  const TinyHeaders: seq<string> := ["Совсем маленькие", "Подписчики", "Просмотры", "Идеи", "Фишки и качество"]

  /** `base` with the first `n` of `headers` written into row 1 from
      column `start` on. */
  function WithHeaders(base: map<(int, int), CellValue>, headers: seq<string>, start: int, n: nat)
    : map<(int, int), CellValue>
    requires n <= |headers|
  {
    if n == 0 then base
    else WithHeaders(base, headers, start, n - 1)[(1, start + n - 1) := Str(headers[n - 1])]
  }

  /** The header cells are added to `base` and overwrite only row 1,
      columns `start .. start + n - 1`. */
  lemma {:induction false} WithHeadersLayout(base: map<(int, int), CellValue>, headers: seq<string>, start: int, n: nat)
    requires n <= |headers|
    ensures var r := WithHeaders(base, headers, start, n);
      && (forall p :: p in r <==> p in base || (p.0 == 1 && start <= p.1 < start + n))
      && (forall k :: 0 <= k < n ==> r[(1, start + k)] == Str(headers[k]))
      && (forall p :: p in base && !(p.0 == 1 && start <= p.1 < start + n) ==> r[p] == base[p])
  {
    if n > 0 {
      WithHeadersLayout(base, headers, start, n - 1);
    }
  }

  /** The header row `_setup_styles_and_headers` writes. */
  function HeaderCells(): map<(int, int), CellValue> {
    var w := WithHeaders(map[], WhalesHeaders, 1, |WhalesHeaders|);
    var s := WithHeaders(w, SmallHeaders, 7, |SmallHeaders|);
    WithHeaders(s, TinyHeaders, 13, |TinyHeaders|)
  }

  /** Row 1 holds the three header groups at columns 1-5, 7-11 and 13-17,
      with columns 6 and 12 left empty, and nothing else is written. */
  lemma HeaderLayout()
    ensures forall p :: p in HeaderCells() <==> p.0 == 1 && (1 <= p.1 <= 5 || 7 <= p.1 <= 11 || 13 <= p.1 <= 17)
    ensures forall k :: 0 <= k < 5 ==>
      && HeaderCells()[(1, 1 + k)] == Str(WhalesHeaders[k])
      && HeaderCells()[(1, 7 + k)] == Str(SmallHeaders[k])
      && HeaderCells()[(1, 13 + k)] == Str(TinyHeaders[k])
  {
    var w := WithHeaders(map[], WhalesHeaders, 1, |WhalesHeaders|);
    var s := WithHeaders(w, SmallHeaders, 7, |SmallHeaders|);
    var t := WithHeaders(s, TinyHeaders, 13, |TinyHeaders|);
    assert |WhalesHeaders| == 5 && |SmallHeaders| == 5 && |TinyHeaders| == 5;
    WithHeadersLayout(map[], WhalesHeaders, 1, 5);
    WithHeadersLayout(w, SmallHeaders, 7, 5);
    WithHeadersLayout(s, TinyHeaders, 13, 5);
    forall k | 0 <= k < 5
      ensures t[(1, 1 + k)] == Str(WhalesHeaders[k])
      ensures t[(1, 7 + k)] == Str(SmallHeaders[k])
    {
      assert (1, 1 + k) in w && s[(1, 1 + k)] == w[(1, 1 + k)];
      assert (1, 7 + k) in s;
    }
  }

  // ---------------------------------------------------------------------
  // one channel row

  /** The column a category's block starts at. */
  function StartColumn(category: string): (col: int)
    ensures col == 7 <==> category == "small"
    ensures col == 13 <==> category == "tiny"
    ensures col == 1 <==> category != "small" && category != "tiny"
  {
    if category == "small" then 7 else if category == "tiny" then 13 else 1
  }

  /** The blocks of two different start columns are at least six columns
      apart, so a five-cell row of one never reaches into another. */
  lemma BlocksApart(c1: string, c2: string)
    requires StartColumn(c1) != StartColumn(c2)
    ensures StartColumn(c1) + 5 < StartColumn(c2) || StartColumn(c2) + 5 < StartColumn(c1)
  {
  }

  /** `s.replace('"', '""')`: the escaping of an Excel string literal. */
  function Escape(s: string): (r: string)
    ensures |r| >= |s|
  {
    if s == [] then [] else (if s[0] == '"' then "\"\"" else [s[0]]) + Escape(s[1..])
  }

  /** Reading an Excel string literal after its opening quote: a doubled
      quote stands for one quote, a single quote ends the literal. The text
      read and what follows the closing quote, or `None` when the literal
      is not closed. */
  function ReadLiteral(r: string): Option<(string, string)>
    decreases |r|
  {
    if r == [] then None
    else if r[0] == '"' then
      if |r| >= 2 && r[1] == '"' then Cons('"', ReadLiteral(r[2..])) else Some(([], r[1..]))
    else Cons(r[0], ReadLiteral(r[1..]))
  }

  function Cons(c: char, o: Option<(string, string)>): Option<(string, string)> {
    if o.None? then None else Some(([c] + o.value.0, o.value.1))
  }

  /** An escaped text in quotes reads back as the text, ending at its
      closing quote, whatever follows that is not itself a quote. */
  lemma {:induction false} ReadEscaped(t: string, rest: string)
    requires rest == [] || rest[0] != '"'
    ensures ReadLiteral(Escape(t) + ['"'] + rest) == Some((t, rest))
    decreases |t|
  {
    var r := Escape(t) + ['"'] + rest;
    if t == [] {
      assert r == ['"'] + rest;
      assert r[1..] == rest;
    } else {
      ReadEscaped(t[1..], rest);
      var tail := Escape(t[1..]) + ['"'] + rest;
      if t[0] == '"' {
        assert r == ['"', '"'] + tail;
        assert r[2..] == tail;
      } else {
        assert r == [t[0]] + tail;
        assert r[1..] == tail;
      }
      assert [t[0]] + t[1..] == t;
    }
  }

  /** `f'"{safe}"'` with `safe` the escaped text. */
  function Quoted(t: string): string {
    ['"'] + Escape(t) + ['"']
  }

  /** Reading one string literal from the start of `r`. */
  function ReadQuoted(r: string): Option<(string, string)> {
    if r != [] && r[0] == '"' then ReadLiteral(r[1..]) else None
  }

  /** A quoted text reads back as the text. */
  lemma QuotedReads(t: string, rest: string)
    requires rest == [] || rest[0] != '"'
    ensures ReadQuoted(Quoted(t) + rest) == Some((t, rest))
  {
    var r := Quoted(t) + rest;
    assert r[1..] == Escape(t) + ['"'] + rest;
    ReadEscaped(t, rest);
  }

  /** Escaping changes nothing but the quotes. */
  lemma {:induction false} EscapeKeepsOthers(s: string)
    ensures RemoveChar(Escape(s), '"') == RemoveChar(s, '"')
  {
    if s != [] {
      EscapeKeepsOthers(s[1..]);
      var head := if s[0] == '"' then "\"\"" else [s[0]];
      RemoveCharConcat(head, Escape(s[1..]), '"');
      if s[0] == '"' {
        RemoveCharConcat("\"", "\"", '"');
        assert RemoveChar("\"", '"') == [];
      }
    }
  }

  /** `create_hyperlink_part(text, url)` */
  function HyperlinkPart(text: string, url: string): string {
    if StartsWith(url, "http") then "HYPERLINK(" + Quoted(url) + ", " + Quoted(text) + ")"
    else Quoted(text)
  }

  /** A link part calls HYPERLINK with two literals that read back as the
      url and the text; any other part is one literal that reads back as
      the text. */
  lemma HyperlinkPartReads(text: string, url: string)
    ensures var p := HyperlinkPart(text, url);
      if StartsWith(url, "http") then
        && StartsWith(p, "HYPERLINK(")
        && var first := ReadQuoted(p[10..]);
        && first.Some? && first.value.0 == url && StartsWith(first.value.1, ", ")
        && ReadQuoted(first.value.1[2..]) == Some((text, ")"))
      else
        ReadQuoted(p) == Some((text, []))
  {
    var p := HyperlinkPart(text, url);
    if StartsWith(url, "http") {
      var second := Quoted(text) + ")";
      var after := ", " + second;
      assert p == "HYPERLINK(" + (Quoted(url) + after);
      assert p[10..] == Quoted(url) + after;
      QuotedReads(url, after);
      assert after[2..] == second;
      QuotedReads(text, ")");
    } else {
      assert p == Quoted(text) + [];
      QuotedReads(text, []);
    }
  }

  /** The ideas cell: the 7-, 14- and 30-day parts joined by line breaks. */
  function IdeasFormula(d: ChannelRow): string {
    "=" + HyperlinkPart("7d: " + d.idea7d, d.idea7d)
      + " & CHAR(10) & " + HyperlinkPart("14d: " + d.idea14d, d.idea14d)
      + " & CHAR(10) & " + HyperlinkPart("30d: " + d.idea30d, d.idea30d)
  }

  /** The five cells of a channel row: name, subscribers, views, ideas and
      an empty features cell. */
  function RowCells(row: int, col: int, d: ChannelRow): (r: map<(int, int), CellValue>)
    ensures forall p :: p in r <==> p.0 == row && col <= p.1 < col + 5
    ensures r[(row, col)] == Str(d.name) && r[(row, col + 1)] == Int(d.subs)
    ensures r[(row, col + 2)] == Int(d.views) && r[(row, col + 3)] == Str(IdeasFormula(d))
    ensures r[(row, col + 4)] == Str("")
  {
    map[(row, col) := Str(d.name), (row, col + 1) := Int(d.subs), (row, col + 2) := Int(d.views),
        (row, col + 3) := Str(IdeasFormula(d)), (row, col + 4) := Str("")]
  }

  /** `row` is the first row from 2 whose cell in column `col` is empty. */
  predicate FirstFreeRow(cells: map<(int, int), CellValue>, col: int, row: int) {
    && 2 <= row && (row, col) !in cells
    && forall r :: 2 <= r < row ==> (r, col) in cells
  }

  /** The search determines the row. */
  lemma FirstFreeRowUnique(cells: map<(int, int), CellValue>, col: int, r1: int, r2: int)
    requires FirstFreeRow(cells, col, r1) && FirstFreeRow(cells, col, r2)
    ensures r1 == r2
  {
    if r1 < r2 {
      assert false;
    } else if r2 < r1 {
      assert false;
    }
  }

  /** Rows 2 .. n - 1 of column `col` are filled and no row after them. */
  ghost predicate FilledTo(cells: map<(int, int), CellValue>, col: int, n: int) {
    forall r :: 2 <= r ==> ((r, col) in cells <==> r < n)
  }

  /** Successive adds to one block fill rows 2, 3, 4, ... in order, and
      leave the filling of every other block as it was. */
  lemma AddFillsNextRow(cells: map<(int, int), CellValue>, col: int, n: int, row: int, d: ChannelRow,
                        other: int, m: int)
    requires 2 <= n && FilledTo(cells, col, n) && FirstFreeRow(cells, col, row)
    requires (other + 5 < col || col + 5 < other) && FilledTo(cells, other, m)
    ensures row == n
    ensures FilledTo(cells + RowCells(row, col, d), col, n + 1)
    ensures FilledTo(cells + RowCells(row, col, d), other, m)
  {
    assert (n, col) !in cells;
    assert row <= n;
    assert (row, col) in cells <==> row < n;
  }

  // ---------------------------------------------------------------------
  // the generator

  class Sheet {
    var title: string
    /** The value of every written cell. */
    var cells: map<(int, int), CellValue>
    /** The hyperlink of every linked cell. */
    var links: map<(int, int), string>

    /** `ExcelGenerator(niche_name)`: the title and the header row. */
    constructor (nicheName: string)
      ensures title == SheetTitle(nicheName)
      ensures cells == HeaderCells() && links == map[]
    {
      title := SheetTitle(nicheName);
      cells := map[];
      links := map[];
      new;
      WriteHeaders(WhalesHeaders, 1);
      WriteHeaders(SmallHeaders, 7);
      WriteHeaders(TinyHeaders, 13);
    }

    /** One `for col_idx, header in enumerate(headers, start)` loop. */
    method WriteHeaders(headers: seq<string>, start: int)
      modifies this`cells
      ensures cells == WithHeaders(old(cells), headers, start, |headers|)
    {
      for i := 0 to |headers|
        invariant cells == WithHeaders(old(cells), headers, start, i)
      {
        cells := cells[(1, start + i) := Str(headers[i])];
      }
    }

    /** `add_channel_data(category, data)`; `row` is the row written. */
    method AddChannelData(category: string, d: ChannelRow) returns (row: int)
      modifies this`cells, this`links
      ensures FirstFreeRow(old(cells), StartColumn(category), row)
      ensures cells == old(cells) + RowCells(row, StartColumn(category), d)
      ensures links == old(links)[(row, StartColumn(category)) := d.url]
    {
      var col := StartColumn(category);
      row := 2;
      while (row, col) in cells
        invariant cells == old(cells) && links == old(links)
        invariant 2 <= row
        invariant forall r :: 2 <= r < row ==> (r, col) in cells
        decreases |Below(cells, col, row)|
      {
        BelowShrinks(cells, col, row);
        row := row + 1;
      }
      cells := cells + RowCells(row, col, d);
      links := links[(row, col) := d.url];
    }
  }

  /** The filled cells of column `col` from row `row` on. */
  function Below(cells: map<(int, int), CellValue>, col: int, row: int): set<(int, int)> {
    set p | p in cells && p.1 == col && p.0 >= row
  }

  lemma BelowShrinks(cells: map<(int, int), CellValue>, col: int, row: int)
    requires (row, col) in cells
    ensures |Below(cells, col, row + 1)| < |Below(cells, col, row)|
  {
    var a, b := Below(cells, col, row), Below(cells, col, row + 1);
    assert a == b + {(row, col)};
    assert (row, col) !in b;
  }

  /** No channel row touches the header row. */
  lemma AddKeepsHeaders(cells: map<(int, int), CellValue>, row: int, col: int, d: ChannelRow)
    requires 2 <= row
    ensures forall c :: (1, c) in cells ==>
      (1, c) in cells + RowCells(row, col, d) && (cells + RowCells(row, col, d))[(1, c)] == cells[(1, c)]
  {
  }
}
