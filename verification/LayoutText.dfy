/** What cells, lines and the status bar show, character by character. */
module LayoutText {
  import opened Layout

  const ELLIPSIS: char := '\U{2026}'

  /** A character of a text as it is shown: line breaks are blanks. */
  function Shown(c: char): char {
    if c == '\r' || c == '\n' then ' ' else c
  }

  lemma {:induction false} FlatAt(t: string, k: nat)
    requires k < |t|
    ensures Flat(t)[k] == Shown(t[k])
  {
    if k > 0 { FlatAt(t[1..], k - 1); }
  }

  /** A text that fits is shown whole; one that does not is cut to the width, its last place marking the cut. */
  predicate ShowsText(t: string, width: nat, r: string) {
    if |t| <= width then |r| == |t| && forall k :: 0 <= k < |t| ==> r[k] == Shown(t[k])
    else
      |r| == width && (width > 0 ==> r[width - 1] == ELLIPSIS) &&
      forall k :: 0 <= k < width - 1 ==> r[k] == Shown(t[k])
  }

  lemma EllipsizeShows(t: string, width: nat)
    ensures ShowsText(t, width, Ellipsize(t, width))
  {
    hide Flat;
    forall k | 0 <= k < |t| ensures Flat(t)[k] == Shown(t[k]) { FlatAt(t, k); }
  }

  lemma {:induction false} SpacesAt(n: nat, k: nat)
    requires k < n
    ensures Spaces(n)[k] == ' '
  {
    if k > 0 { SpacesAt(n - 1, k - 1); }
  }

  /** A cell shows the text of its own row and column, and blanks behind it. */
  lemma CellShows(row: seq<string>, ws: seq<nat>, i: nat)
    requires i < |ws|
    ensures var t, cell := if i < |row| then row[i] else "", Cell(row, ws, i);
            var n := if |t| <= ws[i] then |t| else ws[i];
            |cell| == ws[i] && ShowsText(t, ws[i], cell[..n]) && forall k :: n <= k < ws[i] ==> cell[k] == ' '
  {
    hide Ellipsize, Spaces;
    var t := if i < |row| then row[i] else "";
    EllipsizeShows(t, ws[i]);
    var e := Ellipsize(t, ws[i]);
    var blanks := Spaces(ws[i] - |e|);
    forall k | 0 <= k < |blanks| ensures blanks[k] == ' ' { SpacesAt(|blanks|, k); }
    assert Cell(row, ws, i)[..|e|] == e;
  }

  /** The measure is the width, but at most the bound and at least one. */
  lemma MeasureMeans(width: int, bound: nat)
    ensures var m := Measure(width, bound);
            1 <= m && (m <= width || width < 1) && (m <= bound || bound < 1) &&
            (m == width || m == bound || (m == 1 && (width < 1 || bound < 1)))
  {
  }

  /** Hints and counters fit beside each other when at least three blanks are left between them. */
  lemma CountersFit(left: string, right: string, width: int)
    ensures BothFit(left, right, width) <==> width - |left| - |right| >= 3
  {
  }

  // ---- joined texts ----

  /** The parts one after the other with the separator between them. */
  function JoinWith(sep: string, parts: seq<string>): string {
    if parts == [] then "" else if |parts| == 1 then parts[0] else parts[0] + sep + JoinWith(sep, parts[1..])
  }

  lemma {:induction false} JoinSnoc(sep: string, parts: seq<string>, last: string)
    requires parts != []
    ensures JoinWith(sep, parts + [last]) == JoinWith(sep, parts) + sep + last
  {
    if |parts| > 1 {
      assert (parts + [last])[1..] == parts[1..] + [last];
      JoinSnoc(sep, parts[1..], last);
      assert parts[0] + sep + (JoinWith(sep, parts[1..]) + sep + last)
          == parts[0] + sep + JoinWith(sep, parts[1..]) + sep + last;
    }
  }

  /** A row on the grid is its cells with two blanks between them. */
  lemma {:induction false} CellsJoined(cells: seq<string>)
    ensures JoinCells(cells) == JoinWith("  ", cells)
  {
    if |cells| > 1 {
      var n := |cells| - 1;
      CellsJoined(cells[..n]);
      assert cells == cells[..n] + [cells[n]];
      JoinSnoc("  ", cells[..n], cells[n]);
    }
  }

  /** The counters stand with three blanks between them. */
  lemma {:induction false} CountersJoined(counters: seq<string>)
    ensures CounterText(counters) == JoinWith("   ", counters)
  {
    if |counters| > 1 {
      var n := |counters| - 1;
      CountersJoined(counters[..n]);
      assert counters == counters[..n] + [counters[n]];
      JoinSnoc("   ", counters[..n], counters[n]);
    }
  }

  function HintParts(hints: seq<Hint>): (parts: seq<string>)
    ensures |parts| == |hints| && forall i :: 0 <= i < |hints| ==> parts[i] == hints[i].key + "=" + hints[i].action
  {
    seq(|hints|, i requires 0 <= i < |hints| => hints[i].key + "=" + hints[i].action)
  }

  /** Every hint is shown as its key, an equals sign and its action, in order, with a comma and a blank between them. */
  lemma {:induction false} HintsJoined(hints: seq<Hint>)
    ensures HintText(hints) == JoinWith(", ", HintParts(hints))
  {
    if |hints| > 1 {
      var n := |hints| - 1;
      HintsJoined(hints[..n]);
      assert HintParts(hints) == HintParts(hints[..n]) + [hints[n].key + "=" + hints[n].action];
      JoinSnoc(", ", HintParts(hints[..n]), hints[n].key + "=" + hints[n].action);
      var t := HintText(hints[..n]);
      assert t + ", " + (hints[n].key + "=" + hints[n].action) == t + ", " + hints[n].key + "=" + hints[n].action;
    }
  }

  /** As many hints are given up as said, as long as there are unprotected ones. */
  lemma {:induction false} DroppedCount(hints: seq<Hint>, n: nat)
    ensures n <= Droppable(hints) ==> |Dropped(hints, n)| == |hints| - n
  {
    if hints != [] && n > 0 {
      var last := |hints| - 1;
      assert hints == hints[..last] + [hints[last]];
      DroppableSnoc(hints[..last], hints[last]);
      DroppedCount(hints[..last], if Protected(hints[last]) then n else n - 1);
    }
  }
}
