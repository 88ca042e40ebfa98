/** The layout kernel of the text and curses interface: column widths, aligned rows, the status bar. */
module Layout {
  import MB = ManagedBlock

  const GAP: nat := 2
  const COUNTER_GAP: nat := 3
  const CONTENT_MEASURE: nat := 100

  // ---- column widths ----

  function Sum(ws: seq<nat>): nat {
    if ws == [] then 0 else ws[0] + Sum(ws[1..])
  }

  function Gaps(count: nat): nat {
    if count == 0 then 0 else GAP * (count - 1)
  }

  /** The width of every column before shrinking: its widest cell. */
  predicate Natural(rows: seq<seq<string>>, natural: seq<nat>) {
    (forall r :: 0 <= r < |rows| ==> |rows[r]| <= |natural|) &&
    (natural != [] ==> exists r :: 0 <= r < |rows| && |rows[r]| == |natural|) &&
    forall c :: 0 <= c < |natural| ==> IsWidest(rows, c, natural[c])
  }

  predicate IsWidest(rows: seq<seq<string>>, c: nat, w: nat) {
    (forall r :: 0 <= r < |rows| && c < |rows[r]| ==> |rows[r][c]| <= w) &&
    (w > 0 ==> exists r :: 0 <= r < |rows| && c < |rows[r]| && |rows[r][c]| == w)
  }

  function AtMostOne(w: nat): nat {
    if w < 1 then w else 1
  }

  predicate AllSmall(ws: seq<nat>, start: nat) {
    forall i :: start <= i < |ws| ==> ws[i] <= 1
  }

  /** A shrunk later column was always the widest, the rightmost one of several. */
  predicate Leveled(natural: seq<nat>, ws: seq<nat>)
    requires |ws| == |natural|
  {
    forall i, j :: 1 <= i < |ws| && 1 <= j < |ws| && ws[i] < natural[i] ==>
      (j > i ==> ws[j] <= ws[i]) && (j < i ==> ws[j] <= ws[i] + 1)
  }

  /** What the allocator promises: no column is widened or shrunk away; the first column gives way only after all
      others are down to one character; the others are levelled; and no more is taken than the budget asks for. */
  predicate Fair(natural: seq<nat>, budget: int, ws: seq<nat>) {
    |ws| == |natural| &&
    (forall i :: 0 <= i < |ws| ==> AtMostOne(natural[i]) <= ws[i] <= natural[i]) &&
    (ws != [] && ws[0] < natural[0] ==> AllSmall(ws, 1)) &&
    Leveled(natural, ws) &&
    (if Sum(natural) + Gaps(|natural|) <= budget then ws == natural
     else Sum(ws) + Gaps(|ws|) == budget || (Sum(ws) + Gaps(|ws|) > budget && AllSmall(ws, 0)))
  }

  lemma {:induction false} SumUpdate(ws: seq<nat>, i: nat, w: nat)
    requires i < |ws|
    ensures Sum(ws[i := w]) + ws[i] == Sum(ws) + w
  {
    if i == 0 {
      assert ws[i := w][1..] == ws[1..];
    } else {
      assert ws[i := w][1..] == ws[1..][i - 1 := w];
      SumUpdate(ws[1..], i - 1, w);
    }
  }

  lemma {:induction false} SumMonotone(a: seq<nat>, b: seq<nat>)
    requires |a| == |b| && forall i :: 0 <= i < |a| ==> a[i] <= b[i]
    ensures Sum(a) <= Sum(b)
    ensures Sum(a) == Sum(b) ==> a == b
  {
    if a != [] {
      SumMonotone(a[1..], b[1..]);
      assert a == [a[0]] + a[1..] && b == [b[0]] + b[1..];
    }
  }

  predicate Rightmost(ws: seq<nat>, start: nat, end: nat, widest: nat) {
    start <= widest < end <= |ws| && ws[widest] > 1 &&
    forall j :: start <= j < end ==> ws[j] <= ws[widest] && (j > widest ==> ws[j] < ws[widest])
  }

  /** The widest column at or after start that is wider than one character, the rightmost of several. */
  method WidestShrinkable(ws: seq<nat>, start: nat) returns (found: bool, widest: nat)
    requires start <= |ws|
    ensures !found <==> AllSmall(ws, start)
    ensures found ==> Rightmost(ws, start, |ws|, widest)
  {
    found, widest := false, 0;
    for i := start to |ws|
      invariant !found ==> forall j :: start <= j < i ==> ws[j] <= 1
      invariant found ==> Rightmost(ws, start, i, widest)
    {
      if ws[i] > 1 && (!found || ws[i] >= ws[widest]) {
        found, widest := true, i;
      }
    }
  }

  /** Shrinks the widest later column by one until the row fits or nothing can shrink. */
  method ShrinkToFit(natural: seq<nat>, budget: int) returns (ws: seq<nat>)
    ensures Fair(natural, budget, ws)
  {
    hide Sum;
    ws := natural;
    while Sum(ws) + Gaps(|ws|) > budget
      invariant |ws| == |natural|
      invariant forall i :: 0 <= i < |ws| ==> AtMostOne(natural[i]) <= ws[i] <= natural[i]
      invariant ws != [] && ws[0] < natural[0] ==> AllSmall(ws, 1)
      invariant Leveled(natural, ws)
      invariant Sum(natural) + Gaps(|natural|) <= budget ==> ws == natural
      invariant Sum(natural) + Gaps(|natural|) > budget ==> Sum(ws) + Gaps(|ws|) >= budget
      decreases Sum(ws)
    {
      if |ws| == 0 { break; }
      var found, widest := WidestShrinkable(ws, 1);
      if !found {
        found, widest := WidestShrinkable(ws, 0);
      }
      if !found { break; }
      SumUpdate(ws, widest, ws[widest] - 1);
      ws := ws[widest := ws[widest] - 1];
    }
  }

  /** Two allocations that keep the promise are the same: the promise leaves no freedom. */
  lemma FairIsUnique(natural: seq<nat>, budget: int, a: seq<nat>, b: seq<nat>)
    requires Fair(natural, budget, a) && Fair(natural, budget, b)
    ensures a == b
  {
    if Sum(natural) + Gaps(|natural|) > budget {
      if AllSmall(a, 0) {
        SumMonotone(a, b);
      } else if AllSmall(b, 0) {
        SumMonotone(b, a);
      } else {
        assert Sum(a) == Sum(b);
        if a[0] < b[0] {
          SumMonotone(a[1..], b[1..]);
        } else if b[0] < a[0] {
          SumMonotone(b[1..], a[1..]);
        } else {
          LeveledIsUnique(natural, a, b);
        }
      }
    }
  }

  lemma LeveledIsUnique(natural: seq<nat>, a: seq<nat>, b: seq<nat>)
    requires |a| == |b| == |natural| && |a| > 0 && a[0] == b[0] && Sum(a) == Sum(b)
    requires forall i :: 0 <= i < |a| ==> a[i] <= natural[i] && b[i] <= natural[i]
    requires Leveled(natural, a) && Leveled(natural, b)
    ensures a == b
  {
    if a != b {
      if forall i :: 0 <= i < |a| ==> a[i] <= b[i] {
        SumMonotone(a, b);
      } else if forall i :: 0 <= i < |a| ==> b[i] <= a[i] {
        SumMonotone(b, a);
      }
    }
  }

  method MaxLength(rows: seq<seq<string>>) returns (count: nat)
    ensures forall r :: 0 <= r < |rows| ==> |rows[r]| <= count
    ensures count > 0 ==> exists r :: 0 <= r < |rows| && |rows[r]| == count
  {
    count := 0;
    for r := 0 to |rows|
      invariant forall x :: 0 <= x < r ==> |rows[x]| <= count
      invariant count > 0 ==> exists x :: 0 <= x < r && |rows[x]| == count
    {
      if |rows[r]| > count { count := |rows[r]|; }
    }
  }

  method WidestCell(rows: seq<seq<string>>, c: nat) returns (w: nat)
    ensures IsWidest(rows, c, w)
  {
    w := 0;
    for r := 0 to |rows|
      invariant forall x :: 0 <= x < r && c < |rows[x]| ==> |rows[x][c]| <= w
      invariant w > 0 ==> exists x :: 0 <= x < r && c < |rows[x]| && |rows[x][c]| == w
    {
      if c < |rows[r]| && |rows[r][c]| > w { w := |rows[r][c]|; }
    }
  }

  /** Fits the natural column widths of the rows into the budget. */
  method ColumnWidths(rows: seq<seq<string>>, budget: int) returns (ws: seq<nat>)
    ensures exists natural :: Natural(rows, natural) && Fair(natural, budget, ws)
  {
    var count := MaxLength(rows);
    var widths: seq<nat> := [];
    for c := 0 to count
      invariant |widths| == c
      invariant forall x :: 0 <= x < c ==> IsWidest(rows, x, widths[x])
    {
      var w := WidestCell(rows, c);
      widths := widths + [w];
    }
    ws := ShrinkToFit(widths, budget);
    assert Natural(rows, widths);
  }

  /** The rows determine the natural widths, and with the budget the whole allocation. */
  lemma WidthsAreDetermined(rows: seq<seq<string>>, budget: int, m: seq<nat>, a: seq<nat>, n: seq<nat>, b: seq<nat>)
    requires Natural(rows, m) && Fair(m, budget, a)
    requires Natural(rows, n) && Fair(n, budget, b)
    ensures m == n && a == b
  {
    hide Fair;
    forall c | 0 <= c < |m| && c < |n| ensures m[c] == n[c] {
      assert IsWidest(rows, c, m[c]) && IsWidest(rows, c, n[c]);
    }
    assert |m| <= |n| && |n| <= |m|;
    assert m == n;
    FairIsUnique(m, budget, a, b);
  }

  // ---- aligned rows ----

  /** Line breaks become spaces. */
  function Flat(t: string): (r: string)
    ensures |r| == |t|
  {
    if t == "" then "" else [if t[0] == '\r' || t[0] == '\n' then ' ' else t[0]] + Flat(t[1..])
  }

  predicate IsFlat(t: string) {
    forall i :: 0 <= i < |t| ==> t[i] != '\r' && t[i] != '\n'
  }

  lemma {:induction false} FlatIsFlat(t: string)
    ensures IsFlat(Flat(t)) && (IsFlat(t) ==> Flat(t) == t)
  {
    if t != "" {
      FlatIsFlat(t[1..]);
      assert t == [t[0]] + t[1..];
    }
  }

  function Ellipsize(t: string, width: int): (r: string)
    ensures |r| <= if width > 0 then width else 0
  {
    if width <= 0 then ""
    else if |t| <= width then Flat(t)
    else if width == 1 then "\U{2026}"
    else Flat(t)[..width - 1] + "\U{2026}"
  }

  function Spaces(n: nat): (r: string)
    ensures |r| == n
  {
    if n == 0 then "" else " " + Spaces(n - 1)
  }

  function Padded(t: string, width: nat): (r: string)
    ensures |r| >= width && t <= r
  {
    if |t| >= width then t else t + Spaces(width - |t|)
  }

  /** One cell of a row, exactly as wide as its column; a missing cell is blank. */
  function Cell(row: seq<string>, ws: seq<nat>, i: nat): (r: string)
    requires i < |ws|
    ensures |r| == ws[i]
  {
    Padded(Ellipsize(if i < |row| then row[i] else "", ws[i]), ws[i])
  }

  function Cells(row: seq<string>, ws: seq<nat>): (r: seq<string>) {
    seq(|ws|, i requires 0 <= i < |ws| => Cell(row, ws, i))
  }

  function JoinCells(cells: seq<string>): string {
    if cells == [] then ""
    else if |cells| == 1 then cells[0]
    else JoinCells(cells[..|cells| - 1]) + "  " + cells[|cells| - 1]
  }

  /** Where column i starts in every line. */
  function Column(ws: seq<nat>, i: nat): nat
    requires i <= |ws|
  {
    Sum(ws[..i]) + GAP * i
  }

  lemma {:induction false} SumSnoc(ws: seq<nat>, w: nat)
    ensures Sum(ws + [w]) == Sum(ws) + w
  {
    if ws != [] {
      assert (ws + [w])[1..] == ws[1..] + [w];
      SumSnoc(ws[1..], w);
    }
  }

  lemma ColumnNext(ws: seq<nat>, i: nat)
    requires i < |ws|
    ensures Column(ws, i + 1) == Column(ws, i) + ws[i] + GAP
  {
    assert ws[..i + 1] == ws[..i] + [ws[i]];
    SumSnoc(ws[..i], ws[i]);
  }

  predicate Sized(cells: seq<string>, ws: seq<nat>) {
    |cells| == |ws| && forall i :: 0 <= i < |ws| ==> |cells[i]| == ws[i]
  }

  predicate StandsAt(line: string, ws: seq<nat>, i: nat, cell: string)
    requires i < |ws|
  {
    Column(ws, i) + ws[i] <= |line| && line[Column(ws, i)..Column(ws, i) + ws[i]] == cell
  }

  /** In the joined row every cell stands at its column. */
  lemma {:induction false} CellsStandAtColumns(cells: seq<string>, ws: seq<nat>, n: nat)
    requires Sized(cells, ws) && 0 < n <= |ws|
    ensures |JoinCells(cells[..n])| == Column(ws, n) - GAP
    ensures forall i :: 0 <= i < n ==> StandsAt(JoinCells(cells[..n]), ws, i, cells[i])
  {
    hide Column;
    var line := JoinCells(cells[..n]);
    ColumnNext(ws, n - 1);
    if n == 1 {
      ColumnStart(ws);
      assert line == cells[0];
      assert line[0..ws[0]] == line;
    } else {
      CellsStandAtColumns(cells, ws, n - 1);
      var before := JoinCells(cells[..n - 1]);
      assert cells[..n][..n - 1] == cells[..n - 1];
      assert line == before + "  " + cells[n - 1];
      forall i | 0 <= i < n
        ensures StandsAt(line, ws, i, cells[i])
      {
        if i < n - 1 {
          assert StandsAt(before, ws, i, cells[i]);
          assert line[Column(ws, i)..Column(ws, i) + ws[i]] == before[Column(ws, i)..Column(ws, i) + ws[i]];
        }
      }
    }
  }

  lemma ColumnStart(ws: seq<nat>)
    ensures Column(ws, 0) == 0
  {
  }

  function Grid(row: seq<string>, ws: seq<nat>): string {
    JoinCells(Cells(row, ws))
  }

  function Line(row: seq<string>, ws: seq<nat>, budget: int): (r: string)
    ensures |r| <= if budget > 0 then budget else 0
  {
    Ellipsize(MB.RStrip(Grid(row, ws)), budget)
  }

  lemma {:induction false} StripIsPrefix(t: string)
    ensures MB.RStrip(t) <= t
  {
    if t != "" && MB.IsSpace(t[|t| - 1]) {
      StripIsPrefix(t[..|t| - 1]);
    }
  }

  lemma CellIsFlat(row: seq<string>, ws: seq<nat>, i: nat)
    requires i < |ws|
    ensures IsFlat(Cell(row, ws, i))
  {
    hide Flat, IsFlat, Ellipsize, Padded;
    var t := if i < |row| then row[i] else "";
    EllipsizeIsFlat(t, ws[i]);
    PaddedIsFlat(Ellipsize(t, ws[i]), ws[i]);
  }

  lemma EllipsizeIsFlat(t: string, width: int)
    ensures IsFlat(Ellipsize(t, width))
  {
    hide Flat;
    FlatIsFlat(t);
  }

  lemma PaddedIsFlat(t: string, width: nat)
    requires IsFlat(t)
    ensures IsFlat(Padded(t, width))
  {
    if |t| < width { SpacesAreFlat(width - |t|); }
  }

  lemma {:induction false} SpacesAreFlat(n: nat)
    ensures IsFlat(Spaces(n))
  {
    if n > 0 { SpacesAreFlat(n - 1); }
  }

  lemma {:induction false} JoinIsFlat(cells: seq<string>)
    requires forall i :: 0 <= i < |cells| ==> IsFlat(cells[i])
    ensures IsFlat(JoinCells(cells))
  {
    if |cells| > 1 {
      JoinIsFlat(cells[..|cells| - 1]);
    }
  }

  lemma GridAligned(row: seq<string>, ws: seq<nat>)
    requires ws != []
    ensures |Grid(row, ws)| == Sum(ws) + Gaps(|ws|)
    ensures forall i :: 0 <= i < |ws| ==> StandsAt(Grid(row, ws), ws, i, Cell(row, ws, i))
  {
    hide Cell, StandsAt, JoinCells, Sum;
    var cells := Cells(row, ws);
    CellsStandAtColumns(cells, ws, |ws|);
    assert cells[..|ws|] == cells;
    assert ws[..|ws|] == ws;
  }

  lemma GridIsFlat(row: seq<string>, ws: seq<nat>)
    ensures IsFlat(Grid(row, ws))
  {
    hide Cell, IsFlat, JoinCells;
    var cells := Cells(row, ws);
    forall i | 0 <= i < |cells| ensures IsFlat(cells[i]) {
      CellIsFlat(row, ws, i);
    }
    JoinIsFlat(cells);
  }

  /** When the columns fit, a line is the grid row without its trailing blanks: nothing is cut, and what it shows of
      column i it shows at the same place as every other line. */
  lemma LinesAreAligned(row: seq<string>, ws: seq<nat>, budget: int)
    requires ws != [] && budget > 0 && Sum(ws) + Gaps(|ws|) <= budget
    ensures Line(row, ws, budget) == MB.RStrip(Grid(row, ws)) <= Grid(row, ws)
    ensures forall i :: 0 <= i < |ws| ==> StandsAt(Grid(row, ws), ws, i, Cell(row, ws, i))
  {
    hide Cell, Flat, IsFlat, MB.RStrip, StandsAt, Grid, Sum;
    GridAligned(row, ws);
    GridIsFlat(row, ws);
    StripIsPrefix(Grid(row, ws));
    var t := MB.RStrip(Grid(row, ws));
    PrefixIsFlat(t, Grid(row, ws));
    FlatIsFlat(t);
  }

  lemma PrefixIsFlat(t: string, g: string)
    requires t <= g && IsFlat(g)
    ensures IsFlat(t)
  {
  }

  function Measure(width: int, bound: nat): int {
    var w := if width > 1 then width else 1;
    var b := if bound > 1 then bound else 1;
    if w < b then w else b
  }

  /** Lays out every row on one grid. */
  method Columns(rows: seq<seq<string>>, width: int) returns (lines: seq<string>, ghost ws: seq<nat>)
    ensures |lines| == |rows|
    ensures forall r :: 0 <= r < |rows| ==>
              lines[r] == (if ws == [] then "" else Line(rows[r], ws, Measure(width, CONTENT_MEASURE)))
    ensures forall r :: 0 <= r < |rows| ==> |lines[r]| <= Measure(width, CONTENT_MEASURE)
    ensures rows != [] ==>
              exists natural :: Natural(rows, natural) && Fair(natural, Measure(width, CONTENT_MEASURE), ws)
  {
    hide Line, Natural, Fair;
    lines := [];
    ws := [];
    if rows == [] { return; }
    var budget := Measure(width, CONTENT_MEASURE);
    var widths := ColumnWidths(rows, budget);
    ws := widths;
    for r := 0 to |rows|
      invariant |lines| == r
      invariant forall x :: 0 <= x < r ==> lines[x] == (if ws == [] then "" else Line(rows[x], ws, budget))
    {
      if |widths| == 0 {
        lines := lines + [""];
      } else {
        var line := LayOut(rows[r], widths, budget);
        lines := lines + [line];
      }
    }
  }

  method LayOut(row: seq<string>, ws: seq<nat>, budget: int) returns (line: string)
    ensures line == Line(row, ws, budget)
  {
    hide Cell, Ellipsize, JoinCells, MB.RStrip;
    var cells: seq<string> := [];
    for i := 0 to |ws|
      invariant cells == Cells(row, ws)[..i]
    {
      cells := cells + [Cell(row, ws, i)];
    }
    assert cells == Cells(row, ws);
    line := Ellipsize(MB.RStrip(JoinCells(cells)), budget);
  }

  // ---- the status bar ----

  datatype Hint = Hint(key: string, action: string)

  predicate Protected(h: Hint) {
    h.key == "enter" || h.key == "q"
  }

  function HintText(hints: seq<Hint>): string {
    if hints == [] then ""
    else if |hints| == 1 then hints[0].key + "=" + hints[0].action
    else HintText(hints[..|hints| - 1]) + ", " + hints[|hints| - 1].key + "=" + hints[|hints| - 1].action
  }

  function CounterText(counters: seq<string>): string {
    if counters == [] then ""
    else if |counters| == 1 then counters[0]
    else CounterText(counters[..|counters| - 1]) + "   " + counters[|counters| - 1]
  }

  function Droppable(hints: seq<Hint>): nat {
    if hints == [] then 0 else Droppable(hints[1..]) + (if Protected(hints[0]) then 0 else 1)
  }

  /** The hints without the n rightmost unprotected ones. */
  function Dropped(hints: seq<Hint>, n: nat): (r: seq<Hint>)
    ensures |r| <= |hints|
  {
    if hints == [] || n == 0 then hints
    else if Protected(hints[|hints| - 1]) then Dropped(hints[..|hints| - 1], n) + [hints[|hints| - 1]]
    else Dropped(hints[..|hints| - 1], n - 1)
  }

  predicate BothFit(left: string, right: string, width: int) {
    |left| + COUNTER_GAP + |right| <= width
  }

  /** What the bar shows: counters given up from the right until they fit beside all hints; only without any counter
      text, hints given up from the right, as few as possible and none of the protected ones; then a cut. */
  predicate Shows(hints: seq<Hint>, counters: seq<string>, width: int, bar: string, kept: nat, dropped: nat) {
    kept <= |counters| && dropped <= Droppable(hints) &&
    (forall n :: kept < n <= |counters| ==>
       CounterText(counters[..n]) != "" && !BothFit(HintText(hints), CounterText(counters[..n]), width)) &&
    var right := CounterText(counters[..kept]);
    if right != "" then
      dropped == 0 && BothFit(HintText(hints), right, width) &&
      bar == HintText(hints) + Spaces(width - |HintText(hints)| - |right|) + right
    else
      (forall n :: 0 <= n < dropped ==> |HintText(Dropped(hints, n))| > width) &&
      (if |HintText(Dropped(hints, dropped))| <= width then bar == HintText(Dropped(hints, dropped))
       else dropped == Droppable(hints) && bar == Ellipsize(HintText(Dropped(hints, dropped)), width))
  }

  lemma {:induction false} DroppedAll(hints: seq<Hint>, n: nat)
    ensures multiset(Dropped(hints, n)) <= multiset(hints)
    ensures forall h :: h in hints && Protected(h) ==> h in Dropped(hints, n)
  {
    if hints != [] && n > 0 {
      var last := |hints| - 1;
      DroppedAll(hints[..last], if Protected(hints[last]) then n else n - 1);
      assert hints == hints[..last] + [hints[last]];
    }
  }

  /** The rightmost unprotected hint, if any. */
  method LastDroppable(hints: seq<Hint>) returns (found: bool, at: nat)
    ensures !found <==> forall i :: 0 <= i < |hints| ==> Protected(hints[i])
    ensures found ==> at < |hints| && !Protected(hints[at]) && forall i :: at < i < |hints| ==> Protected(hints[i])
  {
    found, at := false, 0;
    for i := 0 to |hints|
      invariant !found <==> forall j :: 0 <= j < i ==> Protected(hints[j])
      invariant found ==> at < i && !Protected(hints[at]) && forall j :: at < j < i ==> Protected(hints[j])
    {
      if !Protected(hints[i]) { found, at := true, i; }
    }
  }

  /** Dropping one more hint removes the rightmost unprotected one of those left. */
  lemma {:induction false} DropOneMore(hints: seq<Hint>, n: nat, at: nat)
    requires at < |Dropped(hints, n)| && !Protected(Dropped(hints, n)[at])
    requires forall i :: at < i < |Dropped(hints, n)| ==> Protected(Dropped(hints, n)[i])
    ensures Dropped(hints, n + 1) == Dropped(hints, n)[..at] + Dropped(hints, n)[at + 1..]
  {
    var d := Dropped(hints, n);
    var last := |hints| - 1;
    if Protected(hints[last]) {
      if n == 0 { assert Dropped(hints[..last], 0) == hints[..last]; }
      var e := Dropped(hints[..last], n);
      assert d == e + [hints[last]];
      assert at < |e|;
      assert forall i :: 0 <= i < |e| ==> e[i] == d[i];
      DropOneMore(hints[..last], n, at);
      assert d[..at] + d[at + 1..] == e[..at] + e[at + 1..] + [hints[last]];
    } else if n == 0 {
      assert at == last;
      assert Dropped(hints[..last], 0) == hints[..last];
      assert d[..at] + d[at + 1..] == hints[..last];
    } else {
      DropOneMore(hints[..last], n - 1, at);
    }
  }

  lemma {:induction false} DroppableLeft(hints: seq<Hint>, n: nat)
    requires exists i :: 0 <= i < |Dropped(hints, n)| && !Protected(Dropped(hints, n)[i])
    ensures n < Droppable(hints)
  {
    var last := |hints| - 1;
    DroppableSnoc(hints[..last], hints[last]);
    assert hints == hints[..last] + [hints[last]];
    var i :| 0 <= i < |Dropped(hints, n)| && !Protected(Dropped(hints, n)[i]);
    if n == 0 {
      if Protected(hints[last]) {
        assert Dropped(hints[..last], 0)[i] == hints[i];
        DroppableLeft(hints[..last], 0);
      }
    } else if Protected(hints[last]) {
      assert Dropped(hints[..last], n)[i] == Dropped(hints, n)[i];
      DroppableLeft(hints[..last], n);
    } else {
      DroppableLeft(hints[..last], n - 1);
    }
  }

  lemma {:induction false} DroppableSnoc(hints: seq<Hint>, h: Hint)
    ensures Droppable(hints + [h]) == Droppable(hints) + (if Protected(h) then 0 else 1)
  {
    if hints != [] {
      assert (hints + [h])[1..] == hints[1..] + [h];
      DroppableSnoc(hints[1..], h);
    }
  }

  lemma {:induction false} NothingLeft(hints: seq<Hint>, n: nat)
    requires n <= Droppable(hints)
    requires forall i :: 0 <= i < |Dropped(hints, n)| ==> Protected(Dropped(hints, n)[i])
    ensures n == Droppable(hints)
  {
    if hints != [] {
      var last := |hints| - 1;
      DroppableSnoc(hints[..last], hints[last]);
      assert hints == hints[..last] + [hints[last]];
      if n == 0 {
        assert Dropped(hints, 0)[last] == hints[last];
        assert forall i :: 0 <= i < last ==> Dropped(hints[..last], 0)[i] == Dropped(hints, 0)[i];
        NothingLeft(hints[..last], 0);
      } else if Protected(hints[last]) {
        var e := Dropped(hints[..last], n);
        assert forall i :: 0 <= i < |e| ==> e[i] == Dropped(hints, n)[i];
        NothingLeft(hints[..last], n);
      } else {
        assert Dropped(hints, n) == Dropped(hints[..last], n - 1);
        NothingLeft(hints[..last], n - 1);
      }
    }
  }

  /** The pinned bar, never wider than the terminal. */
  method StatusBar(hints: seq<Hint>, counters: seq<string>, width: int)
      returns (bar: string, ghost kept: nat, ghost dropped: nat)
    ensures |bar| <= if width > 0 then width else 0
    ensures width > 0 ==> Shows(hints, counters, width, bar, kept, dropped)
  {
    hide HintText, CounterText, Dropped, Droppable;
    bar, kept, dropped := "", 0, 0;
    if width <= 0 { return; }
    var remaining := hints;
    var shown := counters;
    dropped := 0;
    assert Dropped(hints, 0) == hints by { DropNone(hints); }
    assert counters[..|counters|] == counters;
    while true
      invariant |shown| <= |counters| && shown == counters[..|shown|]
      invariant dropped <= Droppable(hints) && remaining == Dropped(hints, dropped)
      invariant dropped > 0 ==> CounterText(shown) == ""
      invariant forall n :: |shown| < n <= |counters| ==>
                  CounterText(counters[..n]) != "" && !BothFit(HintText(hints), CounterText(counters[..n]), width)
      invariant forall n :: 0 <= n < dropped ==> |HintText(Dropped(hints, n))| > width
      decreases |shown| + |remaining|
    {
      var left, right := HintText(remaining), CounterText(shown);
      kept := |shown|;
      if right == "" {
        if |left| <= width { return left, kept, dropped; }
      } else {
        assert dropped == 0;
        if BothFit(left, right, width) {
          return left + Spaces(width - |left| - |right|) + right, kept, dropped;
        }
        assert shown != [] by { NoCounterText(); }
        shown := shown[..|shown| - 1];
        continue;
      }
      var found, at := LastDroppable(remaining);
      if !found {
        NothingLeft(hints, dropped);
        return Ellipsize(left, width), kept, dropped;
      }
      DropOneMore(hints, dropped, at);
      DroppableLeft(hints, dropped);
      remaining := remaining[..at] + remaining[at + 1..];
      dropped := dropped + 1;
    }
  }

  lemma DropNone(hints: seq<Hint>)
    ensures Dropped(hints, 0) == hints
  {
  }

  lemma NoCounterText()
    ensures CounterText([]) == ""
  {
  }
}
