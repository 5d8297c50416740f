/**
 The grid a terminal's output is drawn on: clusters, erasing, and the cursor commands.
 What Unicode says of a character, and what counts as a number, are parameters.
 */
module TerminalScreen {
  import opened Wrappers

  const SELECTOR := '\U{FE0F}'
  const TEXT_SELECTOR := '\U{FE0E}'
  const JOINER := '\U{200D}'

  /** East Asian width, general category and combining class; and what `isdigit` and `int` make of a parameter. */
  datatype Unicode = Unicode(
    wide: char -> bool, mark: char -> bool, combining: char -> bool,
    isDigits: string -> bool, toInt: string -> Option<nat>)
  {
    predicate Joins(c: char) { combining(c) || c == SELECTOR || c == TEXT_SELECTOR || c == JOINER }

    function Width(cluster: string): (w: nat)
      requires cluster != ""
      ensures w <= 2
    {
      if wide(cluster[0]) || SELECTOR in cluster then 2 else if mark(cluster[0]) then 0 else 1
    }
  }

  /** A cluster, or the second half of the wide one before it. */
  datatype Cell = Cluster(text: string) | Covered

  const BLANK := Cluster(" ")

  datatype View = View(rows: nat, cols: nat, grid: seq<seq<Cell>>, r: nat, c: int)
  {
    /**
     Exactly `rows` rows of exactly `cols` cells. The cursor may stand below or right of them, and
     left where there are no columns.
     */
    ghost predicate Valid() {
      |grid| == rows && (forall y :: 0 <= y < rows ==> |grid[y]| == cols) && (c >= 0 || (c == -1 && cols == 0))
    }

    function With(y: int, x: int, v: Cell): (v': View)
      requires Valid()
      ensures v'.Valid()
    {
      if 0 <= y < rows && 0 <= x < cols then this.(grid := grid[y := grid[y][x := v]]) else this
    }

    /** `put`: nothing of a lone mark; past the last column, over the last cell. */
    function Put(u: Unicode, cluster: string): (v: View)
      requires Valid() && cluster != ""
      ensures v.Valid()
    {
      var w, at := u.Width(cluster), if c >= cols then cols - 1 else c;
      if w == 0 then this
      else
        var drawn := With(r, at, Cluster(cluster));
        (if w == 2 then drawn.With(r, at + 1, Covered) else drawn).(c := at + w)
    }
  }

  function BlankRow(cols: nat): (row: seq<Cell>)
    ensures |row| == cols
  {
    seq(cols, i => BLANK)
  }

  function BlankGrid(rows: nat, cols: nat): (g: seq<seq<Cell>>)
    ensures |g| == rows && forall y :: 0 <= y < rows ==> g[y] == BlankRow(cols)
  {
    seq(rows, i => BlankRow(cols))
  }

  /**
   The columns a line erase takes: from the cursor on, up to and with it, all, and from the cursor
   on for any other mode.
   */
  function Span(v: View, mode: nat): (s: (nat, nat))
    requires v.Valid()
    ensures s.1 <= v.cols
  {
    if mode == 1 then (0, if v.c + 1 < v.cols then v.c + 1 else v.cols)
    else if mode == 2 || v.c < 0 then (0, v.cols) else (v.c, v.cols)
  }

  /** Erasing onwards from left of a row with no cells reaches for a cell that is not there. */
  predicate LineRaises(v: View, mode: nat) { v.r < v.rows && v.c < 0 && mode != 1 && mode != 2 }

  /** A row with the cells of a span blank. */
  function RowErased(row: seq<Cell>, from: nat, upTo: nat): (row': seq<Cell>)
    ensures |row'| == |row|
    ensures forall x :: 0 <= x < |row| ==> row'[x] == if from <= x < upTo then BLANK else row[x]
  {
    seq(|row|, x requires 0 <= x < |row| => if from <= x < upTo then BLANK else row[x])
  }

  function LineErased(v: View, mode: nat): (v': View)
    requires v.Valid()
    ensures v'.Valid()
  {
    if v.r >= v.rows then v
    else v.(grid := v.grid[v.r := RowErased(v.grid[v.r], Span(v, mode).0, Span(v, mode).1)])
  }

  /** A grid with the rows of a span blank. */
  function GridErased(grid: seq<seq<Cell>>, cols: nat, from: nat, upTo: nat): (grid': seq<seq<Cell>>)
    ensures |grid'| == |grid|
    ensures forall y :: 0 <= y < |grid| ==> grid'[y] == if from <= y < upTo then BlankRow(cols) else grid[y]
  {
    seq(|grid|, y requires 0 <= y < |grid| => if from <= y < upTo then BlankRow(cols) else grid[y])
  }

  function RowsErased(v: View, from: nat, upTo: nat): (v': View)
    requires v.Valid()
    ensures v'.Valid()
  {
    v.(grid := GridErased(v.grid, v.cols, from, upTo))
  }

  /** What a call leaves, or leaves behind it when it raises. */
  datatype Outcome = Done(view: View) | Raised(view: View)
  {
    ghost predicate Valid() { view.Valid() }
  }

  /** `erase_line`. */
  function LineOutcome(v: View, mode: nat): (o: Outcome)
    requires v.Valid()
    ensures o.Valid()
  {
    if LineRaises(v, mode) then Raised(v) else Done(LineErased(v, mode))
  }

  /** `erase_screen`. Erasing up to a cursor more than one row below the last reaches for a row that is not there. */
  function ScreenErased(v: View, mode: nat): (o: Outcome)
    requires v.Valid()
    ensures o.Valid()
  {
    if mode == 2 || mode == 3 then Done(v.(grid := BlankGrid(v.rows, v.cols)))
    else if mode == 0 then
      if LineRaises(v, 0) then Raised(v) else Done(RowsErased(LineErased(v, 0), v.r + 1, v.rows))
    else if mode == 1 then
      var v' := RowsErased(LineErased(v, 1), 0, v.r);
      if v.r > v.rows then Raised(v') else Done(v')
    else Done(v)
  }

  // ---- control sequences ---------------------------------------------------

  function Fields(params: string): (fs: seq<string>)
    ensures fs != []
  {
    if params == "" then [""]
    else
      var rest := Fields(params[1..]);
      if params[0] == ';' then [""] + rest else [[params[0]] + rest[0]] + rest[1..]
  }

  /** A field that looks like a number and is refused by `int` raises. */
  function NumberIn(u: Unicode, field: string): Option<nat> {
    if u.isDigits(field) then u.toInt(field) else Some(0)
  }

  function Numbers(u: Unicode, fields: seq<string>): Option<seq<nat>> {
    if fields == [] then Some([])
    else
      var init, last := Numbers(u, fields[..|fields| - 1]), NumberIn(u, fields[|fields| - 1]);
      if init.None? || last.None? then None else Some(init.value + [last.value])
  }

  lemma {:induction false} NumbersRefused(u: Unicode, fields: seq<string>)
    ensures Numbers(u, fields).None? <==> exists i :: 0 <= i < |fields| && NumberIn(u, fields[i]).None?
    decreases |fields|
  {
    if fields != [] {
      var init := fields[..|fields| - 1];
      NumbersRefused(u, init);
      assert forall i :: 0 <= i < |init| ==> init[i] == fields[i];
      if i :| 0 <= i < |fields| && NumberIn(u, fields[i]).None? {
        if i < |init| { assert NumberIn(u, init[i]).None?; }
      }
    }
  }

  function ParamsOf(u: Unicode, params: string): Option<seq<nat>> {
    if params == "" then Some([]) else Numbers(u, Fields(params))
  }

  function Nth(ns: seq<nat>, k: nat, default_: nat): nat { if k < |ns| && ns[k] != 0 then ns[k] else default_ }

  /** Onto the grid, or to nothing where there is no grid. */
  function Clamp(x: int, n: nat): (y: nat)
    ensures (n >= 1 ==> y < n) && (0 <= x < n ==> y == x)
  {
    if x < 0 || n == 0 then 0 else if x < n then x else n - 1
  }

  /** Where the cursor is asked to go. */
  function Moved(v: View, final: char, ns: seq<nat>): (int, int) {
    var n := Nth(ns, 0, 1);
    match final
    case 'H' => (Nth(ns, 0, 1) - 1, Nth(ns, 1, 1) - 1)
    case 'f' => (Nth(ns, 0, 1) - 1, Nth(ns, 1, 1) - 1)
    case 'A' => (v.r - n, v.c)
    case 'B' => (v.r + n, v.c)
    case 'C' => (v.r, v.c + n)
    case 'D' => (v.r, v.c - n)
    case 'G' => (v.r, n - 1)
    case 'd' => (n - 1, v.c)
    case _ => (v.r, v.c)
  }

  function Mode(ns: seq<nat>): nat { if ns == [] then 0 else ns[0] }

  /** `_csi`: the command, and then the cursor back onto the grid whatever it was. */
  function AfterCsi(u: Unicode, v: View, params: string, final: char): (o: Outcome)
    requires v.Valid()
    ensures o.Valid()
  {
    var ns := ParamsOf(u, params);
    if ns.None? then Raised(v)
    else
      var o := if final == 'J' then ScreenErased(v, Mode(ns.value))
               else if final == 'K' then LineOutcome(v, Mode(ns.value)) else Done(v);
      if o.Raised? then o
      else
        var at := Moved(v, final, ns.value);
        Done(o.view.(r := Clamp(at.0, v.rows), c := Clamp(at.1, v.cols)))
  }

  /** A command raises exactly on a number `int` refuses, on erasing upwards from beyond the row below
   the last, or on erasing onwards from left of a row with no cells. */
  lemma {:induction false} CsiRaisesExactly(u: Unicode, v: View, params: string, final: char)
    requires v.Valid()
    ensures AfterCsi(u, v, params, final).Raised? <==>
      || (params != "" && exists i :: 0 <= i < |Fields(params)| && NumberIn(u, Fields(params)[i]).None?)
      || (ParamsOf(u, params).Some? && var mode := Mode(ParamsOf(u, params).value);
            || (final == 'J' && mode == 1 && v.r > v.rows)
            || (v.c < 0 && v.r < v.rows && ((final == 'J' && mode == 0) || (final == 'K' && mode != 1 && mode != 2))))
  {
    NumbersRefused(u, Fields(params));
    if params != "" { assert ParamsOf(u, params) == Numbers(u, Fields(params)); }
  }

  /** Two newlines on a screen of one row, and then an erase upwards, are enough. */
  lemma {:induction false} ErasingFromBelowRaises(u: Unicode, v: View)
    requires v.Valid() && v.r > v.rows && u.isDigits("1") && u.toInt("1") == Some(1)
    ensures AfterCsi(u, v, "1", 'J').Raised?
  {
    var one: string := "1";
    var fields: seq<string> := [one];
    assert one[1..] == "" && Fields("") == [""];
    assert [one[0]] + "" == one;
    assert Fields(one) == fields;
    assert fields[..0] == [] && Numbers(u, fields[..0]) == Some([]);
    assert Numbers(u, fields) == Some([] + [1]);
  }

  /** Nothing a command does moves a cell it does not erase; and it leaves the cursor on the grid. */
  lemma {:induction false} CsiErasesOnly(u: Unicode, v: View, params: string, final: char, y: nat, x: nat)
    requires v.Valid() && y < v.rows && x < v.cols
    ensures var v' := AfterCsi(u, v, params, final).view;
      && (v'.grid[y][x] == v.grid[y][x] || v'.grid[y][x] == BLANK)
      && (AfterCsi(u, v, params, final).Done? ==> v'.r < v'.rows && 0 <= v'.c < v'.cols)
  {
  }

  // ---- the screen, in place -------------------------------------------------

  class Screen {
    const rows: nat
    const cols: nat
    var grid: seq<seq<Cell>>
    var r: nat
    var c: int

    ghost predicate Valid() reads this { Look().Valid() }

    ghost function Look(): View reads this { View(rows, cols, grid, r, c) }

    constructor (rows: nat, cols: nat)
      ensures Valid() && Look() == View(rows, cols, BlankGrid(rows, cols), 0, 0)
    {
      this.rows, this.cols, this.r, this.c := rows, cols, 0, 0;
      this.grid := BlankGrid(rows, cols);
    }

    method Blank()
      requires Valid()
      modifies this`grid
      ensures Look() == old(Look()).(grid := BlankGrid(rows, cols))
    {
      grid := BlankGrid(rows, cols);
    }

    method PutCell(y: int, x: int, v: Cell)
      requires Valid()
      modifies this`grid
      ensures Look() == old(Look()).With(y, x, v)
    {
      if 0 <= y < rows && 0 <= x < cols { grid := grid[y := grid[y][x := v]]; }
    }

    method Put(u: Unicode, cluster: string)
      requires Valid() && cluster != ""
      modifies this`grid, this`c
      ensures Look() == old(Look()).Put(u, cluster)
    {
      var w := u.Width(cluster);
      if w == 0 { return; }
      if c >= cols { c := cols - 1; }
      PutCell(r, c, Cluster(cluster));
      if w == 2 { PutCell(r, c + 1, Covered); }
      c := c + w;
    }

    method EraseLine(mode: nat) returns (raised: bool)
      requires Valid()
      modifies this`grid
      ensures LineOutcome(old(Look()), mode) == if raised then Raised(Look()) else Done(Look())
    {
      raised := false;
      if r >= rows { return; }
      if c < 0 && mode != 1 && mode != 2 { return true; }
      var s := Span(View(rows, cols, grid, r, c), mode);
      var row := grid[r];
      var x := s.0;
      while x < s.1
        invariant |row| == cols && (x <= s.1 || x == s.0)
        invariant forall k :: 0 <= k < cols ==> row[k] == if s.0 <= k < x && k < s.1 then BLANK else old(grid)[r][k]
        decreases s.1 - x
      {
        row := row[x := BLANK];
        x := x + 1;
      }
      grid := grid[r := row];
      assert grid[r] == LineErased(old(Look()), mode).grid[r];
    }

    /** Blank rows one by one; a row that is not there raises. */
    method EraseRows(from: nat, upTo: nat) returns (raised: bool)
      requires Valid()
      modifies this`grid
      ensures Look() == RowsErased(old(Look()), from, upTo)
      ensures raised <==> from < upTo && upTo > rows
    {
      var y := from;
      while y < upTo
        invariant Valid()
        invariant (from <= y <= rows && y <= upTo) || y == from
        invariant forall k :: 0 <= k < rows ==> grid[k] == if from <= k < y then BlankRow(cols) else old(grid)[k]
        decreases upTo - y
      {
        if y >= rows {
          assert grid == RowsErased(old(Look()), from, upTo).grid;
          return true;
        }
        grid := grid[y := BlankRow(cols)];
        y := y + 1;
      }
      assert grid == RowsErased(old(Look()), from, upTo).grid;
      return false;
    }

    method EraseScreen(mode: nat) returns (raised: bool)
      requires Valid()
      modifies this`grid
      ensures ScreenErased(old(Look()), mode) == if raised then Raised(Look()) else Done(Look())
    {
      raised := false;
      if mode == 2 || mode == 3 { Blank(); return; }
      if mode == 0 {
        raised := EraseLine(0);
        if raised { return; }
        raised := EraseRows(r + 1, rows);
      } else if mode == 1 {
        raised := EraseLine(1);
        raised := EraseRows(0, r);
      }
    }

    method Csi(u: Unicode, params: string, final: char) returns (raised: bool)
      requires Valid()
      modifies this`grid, this`r, this`c
      ensures AfterCsi(u, old(Look()), params, final) == if raised then Raised(Look()) else Done(Look())
    {
      raised := false;
      var ns := ParamsOf(u, params);
      if ns.None? { return true; }
      var at := Moved(View(rows, cols, grid, r, c), final, ns.value);
      if final == 'J' {
        raised := EraseScreen(Mode(ns.value));
        if raised { return; }
      } else if final == 'K' {
        raised := EraseLine(Mode(ns.value));
        if raised { return; }
      }
      r, c := Clamp(at.0, rows), Clamp(at.1, cols);
    }
  }
}
