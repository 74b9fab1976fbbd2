/** The publication heat map of `get_publication_heatmap_data`
    (youtube_analyzer.py): a 7×24 grid counting the recent uploads per
    weekday and hour, and the report naming the fullest cell, the first
    maximum in row-major order as numpy's `argmax` picks it. The upload
    times come in already split into weekday and hour. */
module Heatmap {
  import opened Wrappers
  import opened Text

  const Days: nat := 7
  const Hours: nat := 24

  /** One upload: `dt.weekday()` (Monday is 0) and `dt.hour`. */
  datatype Slot = Slot(weekday: int, hour: int)

  /** The ranges `datetime` guarantees. */
  predicate ValidSlot(s: Slot) {
    0 <= s.weekday < Days && 0 <= s.hour < Hours
  }

  predicate ValidSlots(slots: seq<Slot>) {
    forall i :: 0 <= i < |slots| ==> ValidSlot(slots[i])
  }

  /** How many of `slots` fall in the cell (`d`, `h`). */
  function Count(slots: seq<Slot>, d: int, h: int): nat {
    if slots == [] then 0
    else Count(slots[..|slots| - 1], d, h) + (if slots[|slots| - 1] == Slot(d, h) then 1 else 0)
  }

  /** The grid the loop fills, as values. */
  function GridOf(slots: seq<Slot>): (g: seq<seq<nat>>)
    ensures Shaped(g)
    ensures forall d, h :: 0 <= d < Days && 0 <= h < Hours ==> g[d][h] == Count(slots, d, h)
  {
    seq(Days, d => seq(Hours, h => Count(slots, d, h)))
  }

  predicate Shaped(g: seq<seq<nat>>) {
    |g| == Days && forall d :: 0 <= d < Days ==> |g[d]| == Hours
  }

  /** `grid = np.zeros((7, 24))`, then `grid[weekday, hour] += 1` per upload. */
  method CountGrid(slots: seq<Slot>) returns (grid: array2<nat>)
    requires ValidSlots(slots)
    ensures fresh(grid) && grid.Length0 == Days && grid.Length1 == Hours
    ensures forall d, h :: 0 <= d < Days && 0 <= h < Hours ==> grid[d, h] == Count(slots, d, h)
  {
    grid := new nat[Days, Hours]((d, h) => 0);
    for i := 0 to |slots|
      invariant forall d, h :: 0 <= d < Days && 0 <= h < Hours ==> grid[d, h] == Count(slots[..i], d, h)
    {
      var s := slots[i];
      assert ValidSlot(s);
      grid[s.weekday, s.hour] := grid[s.weekday, s.hour] + 1;
      assert slots[..i + 1][..i] == slots[..i];
    }
    assert slots[..|slots|] == slots;
  }

  // ---------------------------------------------------------------------
  // first maximum

  /** The cell at row-major position `k`. */
  function Cell(g: seq<seq<nat>>, k: nat): nat
    requires Shaped(g) && k < Days * Hours
  {
    g[k / Hours][k % Hours]
  }

  /** The row-major position of the first maximum among the first `n`
      cells (what `np.argmax` returns when `n` is the whole grid). */
  function ArgMax(g: seq<seq<nat>>, n: nat): (best: nat)
    requires Shaped(g) && 0 < n <= Days * Hours
    ensures best < n
    ensures forall k :: 0 <= k < n ==> Cell(g, k) <= Cell(g, best)
    ensures forall k :: 0 <= k < best ==> Cell(g, k) < Cell(g, best)
  {
    if n == 1 then 0
    else
      var b := ArgMax(g, n - 1);
      if Cell(g, n - 1) > Cell(g, b) then n - 1 else b
  }

  /** (`d`, `h`) holds the largest count, and every cell before it in
      row-major order holds less. */
  predicate IsFirstMax(slots: seq<Slot>, d: int, h: int) {
    && 0 <= d < Days && 0 <= h < Hours
    && (forall d', h' :: 0 <= d' < Days && 0 <= h' < Hours ==> Count(slots, d', h') <= Count(slots, d, h))
    && (forall d', h' :: 0 <= d' < Days && 0 <= h' < Hours && d' * Hours + h' < d * Hours + h
          ==> Count(slots, d', h') < Count(slots, d, h))
  }

  /** The first maximum is determined: no two cells can both be it. */
  lemma FirstMaxUnique(slots: seq<Slot>, d1: int, h1: int, d2: int, h2: int)
    requires IsFirstMax(slots, d1, h1) && IsFirstMax(slots, d2, h2)
    ensures d1 == d2 && h1 == h2
  {
    var c1, c2 := Count(slots, d1, h1), Count(slots, d2, h2);
    assert c1 == c2;
    assert !(d1 * Hours + h1 < d2 * Hours + h2);
    assert !(d2 * Hours + h2 < d1 * Hours + h1);
  }

  /** The row-major position `d * 24 + h` names the cell (`d`, `h`). */
  lemma CellAt(g: seq<seq<nat>>, d: nat, h: nat)
    requires Shaped(g) && d < Days && h < Hours
    ensures d * Hours + h < Days * Hours && Cell(g, d * Hours + h) == g[d][h]
  {
    var k := d * Hours + h;
    assert k / Hours == d && k % Hours == h;
  }

  /** Position `k` of `ArgMax` read back as (weekday, hour). */
  lemma ArgMaxIsFirstMax(slots: seq<Slot>, k: nat)
    requires k == ArgMax(GridOf(slots), Days * Hours)
    ensures IsFirstMax(slots, k / Hours, k % Hours)
  {
    var g := GridOf(slots);
    var d, h := k / Hours, k % Hours;
    CellAt(g, d, h);
    forall d', h' | 0 <= d' < Days && 0 <= h' < Hours
      ensures Count(slots, d', h') <= Count(slots, d, h)
      ensures d' * Hours + h' < d * Hours + h ==> Count(slots, d', h') < Count(slots, d, h)
    {
      CellAt(g, d', h');
    }
  }

  // ---------------------------------------------------------------------
  // the report

  const DayNames: seq<string> :=
    ["Понедельник", "Вторник", "Среда", "Четверг", "Пятница", "Суббота", "Воскресенье"]

  /** `f"{h:02d}:00 - {h + 1:02d}:00"` */
  function HourLabel(h: nat): string {
    ZeroPad(h, 2) + ":00 - " + ZeroPad(h + 1, 2) + ":00"
  }

  /** For an hour of the day the label is two two-digit numbers, `h` and
      `h + 1`, each followed by ":00". */
  lemma HourLabelShape(h: nat)
    requires h < Hours
    ensures var r := HourLabel(h);
      && |r| == 13 && r[2..8] == ":00 - " && r[10..] == ":00"
      && AllDigits(r[..2]) && DecimalValue(r[..2]) == h
      && AllDigits(r[8..10]) && DecimalValue(r[8..10]) == h + 1
  {
    var a := ZeroPad(h, 2);
    var b := ZeroPad(h + 1, 2);
    NatTwoDigits(h);
    NatTwoDigits(h + 1);
    ZeroPadValue(h, 2);
    ZeroPadValue(h + 1, 2);
    var r := HourLabel(h);
    assert r == a + ":00 - " + b + ":00";
    assert r[..2] == a;
    assert r[8..10] == b;
  }

  lemma NatTwoDigits(n: nat)
    requires n < 100
    ensures |NatToDecimal(n)| <= 2
  {
  }

  function ReportText(day: string, hours: string): string {
    "<b>Отчет по 50 последним видео:</b>\n├ <b>Самый частый день:</b> " + day
      + "\n└ <b>Самое \"горячее\" время (UTC):</b> " + hours
  }

  datatype HeatmapData = HeatmapData(grid: seq<seq<nat>>, day: nat, hour: nat, report: string)

  const NoVideos: string := "На канале нет недавних видео."

  /** The grid and report for the uploads of one page of the uploads
      playlist; no uploads is an error. */
  method PublicationHeatmap(slots: seq<Slot>) returns (r: Result<HeatmapData>)
    requires ValidSlots(slots)
    ensures slots == [] <==> r == Err(NoVideos)
    ensures r.Ok? ==>
      && r.value.grid == GridOf(slots)
      && IsFirstMax(slots, r.value.day, r.value.hour)
      && r.value.report == ReportText(DayNames[r.value.day], HourLabel(r.value.hour))
  {
    if slots == [] {
      return Err(NoVideos);
    }
    var grid := CountGrid(slots);
    var g := seq(Days, d requires 0 <= d < Days reads grid =>
                   seq(Hours, h requires 0 <= h < Hours reads grid => grid[d, h]));
    forall d | 0 <= d < Days
      ensures g[d] == GridOf(slots)[d]
    {
    }
    assert g == GridOf(slots);
    var k := ArgMax(g, Days * Hours);
    ArgMaxIsFirstMax(slots, k);
    var d, h := k / Hours, k % Hours;
    r := Ok(HeatmapData(g, d, h, ReportText(DayNames[d], HourLabel(h))));
  }

  // ---------------------------------------------------------------------
  // what the grid adds up to

  /** The counts of row `d`, hours before `h`. */
  function RowSum(slots: seq<Slot>, d: int, h: nat): nat {
    if h == 0 then 0 else RowSum(slots, d, h - 1) + Count(slots, d, h - 1)
  }

  /** The counts of the rows before `d`. */
  function GridSum(slots: seq<Slot>, d: nat): nat {
    if d == 0 then 0 else GridSum(slots, d - 1) + RowSum(slots, d - 1, Hours)
  }

  lemma {:induction false} RowSumSnoc(slots: seq<Slot>, x: Slot, d: int, h: nat)
    ensures RowSum(slots + [x], d, h)
         == RowSum(slots, d, h) + (if x.weekday == d && 0 <= x.hour < h then 1 else 0)
  {
    assert (slots + [x])[..|slots|] == slots;
    if h > 0 {
      RowSumSnoc(slots, x, d, h - 1);
    }
  }

  lemma {:induction false} GridSumSnoc(slots: seq<Slot>, x: Slot, d: nat)
    requires ValidSlot(x)
    ensures GridSum(slots + [x], d) == GridSum(slots, d) + (if x.weekday < d then 1 else 0)
  {
    if d > 0 {
      GridSumSnoc(slots, x, d - 1);
      RowSumSnoc(slots, x, d - 1, Hours);
    }
  }

  /** Each upload adds one to exactly one cell, so the grid adds up to the
      number of uploads. */
  lemma {:induction false} GridTotal(slots: seq<Slot>)
    requires ValidSlots(slots)
    ensures GridSum(slots, Days) == |slots|
  {
    if slots == [] {
      GridSumEmpty(Days);
    } else {
      var init := slots[..|slots| - 1];
      GridTotal(init);
      assert init + [slots[|slots| - 1]] == slots;
      GridSumSnoc(init, slots[|slots| - 1], Days);
    }
  }

  lemma {:induction false} GridSumEmpty(d: nat)
    ensures GridSum([], d) == 0
  {
    if d > 0 {
      GridSumEmpty(d - 1);
      RowSumEmpty(d - 1, Hours);
    }
  }

  lemma {:induction false} RowSumEmpty(d: int, h: nat)
    ensures RowSum([], d, h) == 0
  {
    if h > 0 {
      RowSumEmpty(d, h - 1);
    }
  }

  /** Some upload falls in the reported cell. */
  lemma {:induction false} FirstMaxOccupied(slots: seq<Slot>, d: int, h: int)
    requires ValidSlots(slots) && slots != [] && IsFirstMax(slots, d, h)
    ensures Count(slots, d, h) >= 1
  {
    var x := slots[|slots| - 1];
    assert ValidSlot(x);
    assert Count(slots, x.weekday, x.hour) >= 1;
  }
}
