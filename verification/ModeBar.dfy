/**
 The tab bar of the TUI (`backend/apps/omnescode/src/app.rs`: `visible_mode_window`, the geometry of `draw_mode_bar`,
 `ModeBarLayout::mode_at`). The display width of a string is left abstract; an overflow marker adds one column.
 */
module ModeBar {
  import opened Wrappers

  const U16_MAX: nat := 65535

  type Width = string -> nat

  function Min(a: nat, b: nat): nat { if a < b then a else b }

  function Monus(a: nat, b: nat): nat { if a < b then 0 else a - b }

  // ----- The window of visible tabs -----

  function TotalWidth(width: Width, titles: seq<string>): nat {
    if titles == [] then 0 else width(titles[0]) + TotalWidth(width, titles[1..])
  }

  /** Titles, dividers and the markers for hidden neighbours. */
  function WindowWidth(width: Width, titles: seq<string>, start: nat, end: nat): nat
    requires start <= end <= |titles|
  {
    TotalWidth(width, titles[start..end]) + Monus(end, start + 1)
    + (if start > 0 then 1 else 0) + (if end < |titles| then 1 else 0)
  }

  lemma {:induction false} TotalWidthAppend(width: Width, a: seq<string>, b: seq<string>)
    ensures TotalWidth(width, a + b) == TotalWidth(width, a) + TotalWidth(width, b)
  {
    if a == [] {
      assert a + b == b;
    } else {
      TotalWidthAppend(width, a[1..], b);
      assert (a + b)[0] == a[0] && (a + b)[1..] == a[1..] + b;
    }
  }

  lemma WidthGrows(width: Width, titles: seq<string>, start: nat, end: nat)
    requires start < end <= |titles|
    ensures start > 0 ==> WindowWidth(width, titles, start, end) <= WindowWidth(width, titles, start - 1, end)
    ensures end < |titles| ==> WindowWidth(width, titles, start, end) <= WindowWidth(width, titles, start, end + 1)
  {
    if start > 0 {
      assert titles[start - 1..end] == [titles[start - 1]] + titles[start..end];
      TotalWidthAppend(width, [titles[start - 1]], titles[start..end]);
    }
    if end < |titles| {
      assert titles[start..end + 1] == titles[start..end] + [titles[end]];
      TotalWidthAppend(width, titles[start..end], [titles[end]]);
    }
  }

  /** A wider window is never narrower on screen, although it may need fewer markers. */
  lemma {:induction false} WidthMonotone(width: Width, titles: seq<string>, s: nat, start: nat, end: nat, e: nat)
    requires s <= start < end <= e <= |titles|
    ensures WindowWidth(width, titles, start, end) <= WindowWidth(width, titles, s, e)
    decreases start - s + e - end
  {
    hide WindowWidth;
    WidthGrows(width, titles, start, end);
    if s < start {
      WidthMonotone(width, titles, s, start - 1, end, e);
    } else if end < e {
      WidthMonotone(width, titles, s, start, end + 1, e);
    }
  }

  /** The window holds the active tab, fits unless it is that tab alone, and no larger one around it fits. */
  method VisibleModeWindow(width: Width, titles: seq<string>, activeIdx: nat, available: nat)
    returns (start: nat, end: nat, markersFit: bool)
    ensures start <= end <= |titles|
    ensures titles != [] ==> start <= Min(activeIdx, |titles| - 1) < end
    ensures markersFit <==> WindowWidth(width, titles, start, end) <= available
    ensures !markersFit ==> end == start + 1
    ensures forall s, e | 0 <= s <= start && end <= e <= |titles| && (s < start || end < e) ::
      WindowWidth(width, titles, s, e) > available
    ensures titles != [] && WindowWidth(width, titles, 0, |titles|) <= available ==>
      start == 0 && end == |titles| && markersFit
  {
    hide WindowWidth;
    start := Min(activeIdx, Monus(|titles|, 1));
    end := Min(start + 1, |titles|);
    if titles == [] {
      Nothing(width);
    }
    while true
      invariant start <= end <= |titles| && (titles != [] ==> start <= Min(activeIdx, |titles| - 1) < end)
      invariant end == start + 1 || WindowWidth(width, titles, start, end) <= available
      invariant titles == [] ==> start == end == 0 && WindowWidth(width, titles, 0, 0) == 0
      decreases start + |titles| - end
    {
      var expanded := false;
      if start > 0 && WindowWidth(width, titles, start - 1, end) <= available {
        start := start - 1;
        expanded := true;
      }
      if end < |titles| && WindowWidth(width, titles, start, end + 1) <= available {
        end := end + 1;
        expanded := true;
      }
      if !expanded {
        break;
      }
    }
    forall s, e | 0 <= s <= start && end <= e <= |titles| && (s < start || end < e)
      ensures WindowWidth(width, titles, s, e) > available
    {
      if s < start {
        WidthMonotone(width, titles, s, start - 1, end, e);
      } else {
        WidthMonotone(width, titles, s, start, end + 1, e);
      }
    }
    markersFit := WindowWidth(width, titles, start, end) <= available;
  }

  lemma Nothing(width: Width)
    ensures WindowWidth(width, [], 0, 0) == 0
  {
  }

  // ----- Geometry -----

  /** Screen rectangles, in unsigned 16-bit coordinates. */
  datatype Rect = Rect(x: nat, y: nat, width: nat, height: nat) {
    predicate Valid() { x + width <= U16_MAX && y + height <= U16_MAX }

    function Right(): nat { Min(x + width, U16_MAX) }

    predicate Contains(column: nat, row: nat) { x <= column < x + width && y <= row < y + height }
  }

  /** Width and height are cut so that both far edges stay representable. */
  function NewRect(x: nat, y: nat, width: nat, height: nat): (r: Rect)
    requires x <= U16_MAX && y <= U16_MAX
    ensures r.Valid()
  {
    Rect(x, y, Min(width, U16_MAX - x), Min(height, U16_MAX - y))
  }

  function AsU16(n: nat): nat { n % (U16_MAX + 1) }

  datatype Mode = Dashboard | Config | Doctor | Acp | Chat | Logs | Quickstart | Sop

  const MODES := [Dashboard, Config, Acp, Chat, Logs, Doctor, Quickstart, Sop]

  datatype ModeBarEntry = ModeBarEntry(mode: Mode, title: string, hitRect: Rect)

  datatype ModeBarLayout = ModeBarLayout(tabArea: Rect, summaryArea: Option<Rect>, entries: seq<ModeBarEntry>) {
    /** Which tab a click on a cell selects. */
    function ModeAt(column: nat, row: nat): Option<Mode> {
      if (summaryArea.Some? && summaryArea.value.Contains(column, row)) || !tabArea.Contains(column, row) then None
      else Find(entries, column, row)
    }
  }

  function Find(entries: seq<ModeBarEntry>, column: nat, row: nat): Option<Mode> {
    if entries == [] then None
    else if entries[0].hitRect.Contains(column, row) then Some(entries[0].mode)
    else Find(entries[1..], column, row)
  }

  /** Hit rectangles lie in the tab area, one after another, and the summary begins where the tab area ends. */
  predicate WellPlaced(layout: ModeBarLayout) {
    var tab := layout.tabArea;
    && tab.Valid()
    && (layout.summaryArea.Some? ==> layout.summaryArea.value.x == tab.x + tab.width)
    && (forall i | 0 <= i < |layout.entries| ::
          var r := layout.entries[i].hitRect;
          tab.x <= r.x && r.x + r.width <= tab.x + tab.width && r.y == tab.y && r.height == tab.height)
    && Increasing(layout.entries)
  }

  predicate Increasing(entries: seq<ModeBarEntry>) {
    forall i, j | 0 <= i < j < |entries| :: entries[i].hitRect.x + entries[i].hitRect.width <= entries[j].hitRect.x
  }

  lemma {:induction false} FindOnly(entries: seq<ModeBarEntry>, i: nat, column: nat, row: nat)
    requires Increasing(entries) && i < |entries| && entries[i].hitRect.Contains(column, row)
    ensures Find(entries, column, row) == Some(entries[i].mode)
  {
    if i > 0 {
      FindOnly(entries[1..], i - 1, column, row);
    }
  }

  lemma {:induction false} FindNone(entries: seq<ModeBarEntry>, column: nat, row: nat)
    requires forall i | 0 <= i < |entries| :: !entries[i].hitRect.Contains(column, row)
    ensures Find(entries, column, row) == None
  {
    if entries != [] {
      assert forall i | 0 <= i < |entries[1..]| :: entries[1..][i] == entries[i + 1];
      FindNone(entries[1..], column, row);
    }
  }

  /** A click selects a tab exactly when it falls into that tab's rectangle, and it falls into at most one. */
  lemma ModeAtUnambiguous(layout: ModeBarLayout, column: nat, row: nat)
    requires WellPlaced(layout)
    ensures forall i | 0 <= i < |layout.entries| ::
      var r := layout.entries[i].hitRect;
      r.x <= column < r.x + r.width && r.y <= row < r.y + r.height ==>
        layout.ModeAt(column, row) == Some(layout.entries[i].mode)
    ensures layout.ModeAt(column, row).Some? ==>
      exists i | 0 <= i < |layout.entries| ::
        var r := layout.entries[i].hitRect; r.x <= column < r.x + r.width && r.y <= row < r.y + r.height
    ensures forall i, j | 0 <= i < j < |layout.entries| ::
      !(layout.entries[i].hitRect.Contains(column, row) && layout.entries[j].hitRect.Contains(column, row))
    ensures layout.summaryArea.Some? && layout.summaryArea.value.Contains(column, row) ==>
      forall i | 0 <= i < |layout.entries| :: !layout.entries[i].hitRect.Contains(column, row)
  {
    hide Find;
    if i :| 0 <= i < |layout.entries| && layout.entries[i].hitRect.Contains(column, row) {
      FindOnly(layout.entries, i, column, row);
    } else {
      FindNone(layout.entries, column, row);
    }
  }

  // ----- Drawing -----

  const LEFT_MARKER := "\U{2039}"
  const RIGHT_MARKER := "\U{203A}"

  /** A marker is one column wide wherever it stands. */
  ghost predicate MarkersAdd(width: Width) {
    forall t: string :: width(LEFT_MARKER + t) == width(t) + 1 && width(t + RIGHT_MARKER) == width(t) + 1
  }

  /** The titles of the window, with a marker on each side that hides a neighbour. */
  function Marked(titles: seq<string>, start: nat, end: nat, markers: bool): (marked: seq<string>)
    requires start < end <= |titles|
    ensures |marked| == end - start
  {
    var shown := titles[start..end];
    var left := if markers && start > 0 then shown[0 := LEFT_MARKER + shown[0]] else shown;
    if markers && end < |titles| then left[|left| - 1 := left[|left| - 1] + RIGHT_MARKER] else left
  }

  lemma TotalWidthUpdate(width: Width, titles: seq<string>, i: nat, title: string)
    requires i < |titles|
    ensures TotalWidth(width, titles[i := title]) + width(titles[i]) == TotalWidth(width, titles) + width(title)
  {
    var a, b := titles[..i], titles[i + 1..];
    assert titles == a + ([titles[i]] + b) && titles[i := title] == a + ([title] + b);
    TotalWidthAppend(width, a, [titles[i]] + b);
    TotalWidthAppend(width, a, [title] + b);
    assert ([titles[i]] + b)[1..] == b && ([title] + b)[1..] == b;
  }

  /** With its markers and dividers, a window is exactly as wide as it was counted. */
  lemma MarkedWidth(width: Width, titles: seq<string>, start: nat, end: nat)
    requires MarkersAdd(width) && start < end <= |titles|
    ensures TotalWidth(width, Marked(titles, start, end, true)) + (end - start - 1)
      == WindowWidth(width, titles, start, end)
  {
    var shown := titles[start..end];
    TotalWidthUpdate(width, shown, 0, LEFT_MARKER + shown[0]);
    var left := if start > 0 then shown[0 := LEFT_MARKER + shown[0]] else shown;
    TotalWidthUpdate(width, left, |left| - 1, left[|left| - 1] + RIGHT_MARKER);
  }

  predicate Fits(width: Width, titles: seq<string>, available: nat) {
    TotalWidth(width, titles) + Monus(|titles|, 1) <= available && forall i | 0 <= i < |titles| :: width(titles[i]) > 0
  }

  lemma FitsAt(width: Width, titles: seq<string>, available: nat, i: nat)
    requires Fits(width, titles, available) && i < |titles|
    ensures TotalWidth(width, titles[..i]) + i + width(titles[i]) <= available && width(titles[i]) > 0
    ensures i + 1 < |titles| ==> TotalWidth(width, titles[..i]) + i + width(titles[i]) < available
    ensures TotalWidth(width, titles[..i + 1]) == TotalWidth(width, titles[..i]) + width(titles[i])
  {
    var rest := titles[i + 1..];
    assert titles == titles[..i + 1] + rest && titles[..i + 1] == titles[..i] + [titles[i]];
    TotalWidthAppend(width, titles[..i + 1], rest);
    TotalWidthAppend(width, titles[..i], [titles[i]]);
  }

  /** The entries placed so far lie left of `x`, in the order of the tabs. */
  predicate Placed(tab: Rect, modes: seq<Mode>, titles: seq<string>, entries: seq<ModeBarEntry>, x: nat) {
    && |entries| <= |titles| == |modes| && tab.x <= x <= tab.x + tab.width
    && WellPlaced(ModeBarLayout(tab, None, entries))
    && forall i | 0 <= i < |entries| ::
      entries[i].hitRect.x + entries[i].hitRect.width <= x && entries[i].mode == modes[i]
        && entries[i].title == titles[i]
  }

  predicate ShownWhole(width: Width, entries: seq<ModeBarEntry>) {
    forall i | 0 <= i < |entries| :: entries[i].hitRect.width == width(entries[i].title)
  }

  lemma PlaceNext(tab: Rect, modes: seq<Mode>, titles: seq<string>, entries: seq<ModeBarEntry>, x: nat,
      entry: ModeBarEntry, x': nat)
    requires Placed(tab, modes, titles, entries, x) && |entries| < |titles|
    requires entry.mode == modes[|entries|] && entry.title == titles[|entries|]
    requires entry.hitRect == Rect(x, tab.y, entry.hitRect.width, tab.height)
    requires x + entry.hitRect.width <= x' <= tab.x + tab.width
    ensures Placed(tab, modes, titles, entries + [entry], x')
  {
    var longer := entries + [entry];
    assert longer[|entries|] == entry && forall i | 0 <= i < |entries| :: longer[i] == entries[i];
  }

  lemma WholeNext(width: Width, entries: seq<ModeBarEntry>, entry: ModeBarEntry)
    requires ShownWhole(width, entries) && entry.hitRect.width == width(entry.title)
    ensures ShownWhole(width, entries + [entry])
  {
  }

  /** The titles from left to right, cut at the end of the tab area; when they fit, every one is shown whole. */
  method PlaceTabs(width: Width, tabArea: Rect, modes: seq<Mode>, titles: seq<string>)
    returns (entries: seq<ModeBarEntry>)
    requires |modes| == |titles| > 0 && tabArea.Valid()
    ensures exists x :: Placed(tabArea, modes, titles, entries, x)
    ensures Fits(width, titles, tabArea.width) ==> |entries| == |titles| && ShownWhole(width, entries)
    ensures tabArea.width > 0 ==>
      entries != [] && entries[0].hitRect.width == Min(AsU16(width(titles[0])), tabArea.width)
    ensures forall i | 0 <= i < |entries| :: AsU16(width(entries[i].title)) > 0 ==> entries[i].hitRect.width > 0
  {
    hide TotalWidth, Fits, Placed, ShownWhole, AsU16;
    entries := [];
    var x := tabArea.x;
    NothingPlaced(width, tabArea, modes, titles);
    assert titles[..0] == [];
    for index := 0 to |titles|
      invariant tabArea.x <= x <= tabArea.x + tabArea.width
      invariant |entries| == index && Placed(tabArea, modes, titles, entries, x)
      invariant Fits(width, titles, tabArea.width) ==>
        x == tabArea.x + TotalWidth(width, titles[..index]) + Min(index, |titles| - 1) && ShownWhole(width, entries)
      invariant index == 0 ==> x == tabArea.x
      invariant index > 0 && tabArea.width > 0 ==>
        entries[0].hitRect.width == Min(AsU16(width(titles[0])), tabArea.width)
      invariant forall i | 0 <= i < |entries| :: AsU16(width(entries[i].title)) > 0 ==> entries[i].hitRect.width > 0
    {
      ghost var fits := Fits(width, titles, tabArea.width);
      if fits {
        FitsAt(width, titles, tabArea.width, index);
        SmallTitle(width(titles[index]));
      }
      var remaining := Monus(tabArea.Right(), x);
      if remaining == 0 {
        return;
      }
      var titleWidth := AsU16(width(titles[index]));
      var renderedWidth := Min(titleWidth, remaining);
      var entry := ModeBarEntry(modes[index], titles[index], NewRect(x, tabArea.y, renderedWidth, tabArea.height));
      var more := index + 1 < |titles| && x + renderedWidth < tabArea.Right();
      PlaceNext(tabArea, modes, titles, entries, x, entry, x + renderedWidth + (if more then 1 else 0));
      PlaceNext(tabArea, modes, titles, entries, x, entry, x + renderedWidth);
      if fits {
        WholeNext(width, entries, entry);
      }
      entries := entries + [entry];
      x := Min(x + renderedWidth, U16_MAX);
      if renderedWidth < titleWidth {
        return;
      }
      if index + 1 < |titles| && x < tabArea.Right() {
        x := Min(x + 1, U16_MAX);
      }
    }
  }

  lemma NothingPlaced(width: Width, tab: Rect, modes: seq<Mode>, titles: seq<string>)
    requires |modes| == |titles| && tab.Valid()
    ensures Placed(tab, modes, titles, [], tab.x) && ShownWhole(width, []) && TotalWidth(width, []) == 0
  {
  }

  lemma SmallTitle(n: nat)
    ensures n <= U16_MAX ==> AsU16(n) == n
  {
  }

  function Position(active: Mode): (i: nat)
    ensures i < |MODES| && MODES[i] == active
  {
    match active
    case Dashboard => 0
    case Config => 1
    case Acp => 2
    case Chat => 3
    case Logs => 4
    case Doctor => 5
    case Quickstart => 6
    case Sop => 7
  }

  lemma MarkedFits(width: Width, titles: seq<string>, start: nat, end: nat, available: nat)
    requires MarkersAdd(width) && start < end <= |titles| && forall i | 0 <= i < |titles| :: width(titles[i]) > 0
    requires WindowWidth(width, titles, start, end) <= available
    ensures Fits(width, Marked(titles, start, end, true), available)
  {
    MarkedWidth(width, titles, start, end);
  }

  lemma AloneUnmarked(titles: seq<string>, start: nat)
    requires start < |titles|
    ensures Marked(titles, start, start + 1, false) == [titles[start]]
  {
  }

  /** The summary takes its width from the right, but only when the active tab still fits beside it. */
  method SplitArea(area: Rect, activeWidth: nat, summary: Option<nat>)
    returns (tabArea: Rect, summaryArea: Option<Rect>)
    requires area.Valid()
    ensures tabArea.Valid() && tabArea.x == area.x && tabArea.y == area.y && tabArea.height == area.height
    ensures summaryArea.None? ==> tabArea.width == area.width
    ensures summaryArea.Some? ==>
      && summaryArea.value.x == tabArea.x + tabArea.width && tabArea.width + summaryArea.value.width == area.width
      && activeWidth <= tabArea.width && Some(summaryArea.value.width) == summary
    ensures summaryArea.Some? <==> summary.Some? && summary.value > 0 && summary.value + activeWidth <= area.width
  {
    var summaryWidth := if summary.Some? && area.width >= summary.value + activeWidth then
      Min(summary.value, U16_MAX) else 0;
    tabArea := NewRect(area.x, area.y, Monus(area.width, summaryWidth), area.height);
    summaryArea := if summaryWidth > 0 then Some(NewRect(tabArea.Right(), area.y, summaryWidth, area.height)) else None;
  }

  /**
   The bar's geometry. The tabs shown are a window of all tabs; when it fits they are all shown whole, otherwise it
   is the active tab alone. The summary is dropped rather than the active tab.
   */
  method DrawModeBar(width: Width, area: Rect, active: Mode, titles: seq<string>, summary: Option<nat>)
    returns (layout: ModeBarLayout, start: nat, end: nat)
    requires MarkersAdd(width) && area.Valid() && |titles| == |MODES|
    requires forall i | 0 <= i < |titles| :: width(titles[i]) > 0
    ensures WellPlaced(layout) && layout.tabArea.x == area.x
    ensures layout.tabArea.width + (if layout.summaryArea.Some? then layout.summaryArea.value.width else 0)
      == area.width
    ensures start <= Position(active) < end <= |MODES| && |layout.entries| <= end - start
    ensures forall i | 0 <= i < |layout.entries| :: layout.entries[i].mode == MODES[start + i]
    ensures WindowWidth(width, titles, start, end) <= layout.tabArea.width ==>
      && |layout.entries| == end - start && ShownWhole(width, layout.entries)
      && forall i | 0 <= i < |layout.entries| :: layout.entries[i].title == Marked(titles, start, end, true)[i]
    ensures WindowWidth(width, titles, start, end) > layout.tabArea.width ==>
      end == start + 1 && forall i | 0 <= i < |layout.entries| :: layout.entries[i].title == titles[start]
    ensures layout.tabArea.width > 0 ==>
      Position(active) - start < |layout.entries| && layout.entries[Position(active) - start].mode == active
    ensures layout.summaryArea.Some? && 0 < layout.tabArea.width && width(titles[Position(active)]) <= U16_MAX ==>
      var entry := layout.entries[Position(active) - start]; entry.hitRect.width == width(entry.title)
    ensures WindowWidth(width, titles, 0, |titles|) <= layout.tabArea.width ==> |layout.entries| == |MODES|
    ensures layout.summaryArea.Some? <==>
      summary.Some? && summary.value > 0 && summary.value + AsU16(width(titles[Position(active)])) <= area.width
    ensures layout.summaryArea.Some? ==> layout.summaryArea.value.width == summary.value
  {
    hide WindowWidth, TotalWidth, Marked, Fits, WellPlaced, AsU16, Position, MarkersAdd, Placed;
    var activeIdx := Position(active);
    var tabArea, summaryArea := SplitArea(area, AsU16(width(titles[activeIdx])), summary);
    var markers;
    start, end, markers := VisibleModeWindow(width, titles, activeIdx, tabArea.width);
    SmallTitle(width(titles[activeIdx]));
    if markers {
      MarkedFits(width, titles, start, end, tabArea.width);
    } else {
      AloneUnmarked(titles, start);
    }
    var visible := Marked(titles, start, end, markers);
    var entries := PlaceTabs(width, tabArea, MODES[start..end], visible);
    layout := ModeBarLayout(tabArea, summaryArea, entries);
    ghost var x :| Placed(tabArea, MODES[start..end], visible, entries, x);
    PlacedTabs(tabArea, MODES, start, end, visible, entries, x);
    SummaryBeside(layout);
  }

  lemma PlacedTabs(tab: Rect, modes: seq<Mode>, start: nat, end: nat, titles: seq<string>, entries: seq<ModeBarEntry>,
      x: nat)
    requires start <= end <= |modes| && Placed(tab, modes[start..end], titles, entries, x)
    ensures WellPlaced(ModeBarLayout(tab, None, entries)) && |entries| <= |titles| == end - start
    ensures forall i | 0 <= i < |entries| :: entries[i].mode == modes[start + i] && entries[i].title == titles[i]
  {
    hide WellPlaced;
  }

  lemma SummaryBeside(layout: ModeBarLayout)
    requires WellPlaced(ModeBarLayout(layout.tabArea, None, layout.entries))
    requires layout.summaryArea.Some? ==> layout.summaryArea.value.x == layout.tabArea.x + layout.tabArea.width
    ensures WellPlaced(layout)
  {
  }
}
