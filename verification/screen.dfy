/** A terminal: lines, a cursor, and the few controls the progress block uses. */
module Screen {
  import opened Common

  type Row = string

  /**
   What is written to the terminal: cells, a line feed (which the terminal driver
   completes with a return), a return, cursor up by n lines (CUU, section 8.3.22
   of ECMA-48) and erasing the whole line (EL with parameter 2, section 8.3.41).
   */
  datatype Cmd = Cells(cells: Row) | Feed | Return | Up(n: nat) | Erase

  /** Every line ever shown, the ones scrolled off the top included. */
  datatype Terminal = Terminal(lines: seq<Row>, row: nat, col: nat)

  predicate WellTerminal(t: Terminal) {
    t.row < |t.lines|
  }

  function Padded(line: Row, col: nat): (r: Row)
    ensures |r| >= col && line <= r
    decreases if |line| < col then col - |line| else 0
  {
    if |line| >= col then line else Padded(line + [' '], col)
  }

  /** The next line, added at the bottom where there is none. */
  function FeedOne(t: Terminal): (r: Terminal)
    requires WellTerminal(t)
    ensures WellTerminal(r)
  {
    Terminal(if t.row + 1 < |t.lines| then t.lines else t.lines + [[]], t.row + 1, 0)
  }

  /** One cell; a line that is filled wraps at once. */
  function PutCell(width: nat, t: Terminal, c: char): (r: Terminal)
    requires WellTerminal(t)
    ensures WellTerminal(r)
  {
    var line := Padded(t.lines[t.row], t.col);
    var put := if t.col < |line| then line[t.col := c] else line + [c];
    var s := Terminal(t.lines[t.row := put], t.row, t.col + 1);
    if s.col >= width then FeedOne(s) else s
  }

  function PutCells(width: nat, t: Terminal, cells: Row): (r: Terminal)
    requires WellTerminal(t)
    ensures WellTerminal(r)
    decreases |cells|
  {
    if cells == [] then t else PutCells(width, PutCell(width, t, cells[0]), cells[1..])
  }

  /** The cursor cannot move above the first of the lines on the screen. */
  function Top(height: nat, t: Terminal): nat {
    if |t.lines| > height then |t.lines| - height else 0
  }

  function Apply(width: nat, height: nat, t: Terminal, cmd: Cmd): (r: Terminal)
    requires WellTerminal(t)
    ensures WellTerminal(r)
  {
    match cmd
    case Cells(cells) => PutCells(width, t, cells)
    case Feed => FeedOne(t)
    case Return => t.(col := 0)
    case Up(n) => if t.row <= Top(height, t) then t else if t.row - n < Top(height, t) then t.(row := Top(height, t))
      else t.(row := t.row - n)
    case Erase => t.(lines := t.lines[t.row := []])
  }

  function Run(width: nat, height: nat, t: Terminal, cmds: seq<Cmd>): (r: Terminal)
    requires WellTerminal(t)
    ensures WellTerminal(r)
    decreases |cmds|
  {
    if cmds == [] then t else Run(width, height, Apply(width, height, t, cmds[0]), cmds[1..])
  }

  lemma {:induction false} RunAppend(width: nat, height: nat, t: Terminal, a: seq<Cmd>, b: seq<Cmd>)
    requires WellTerminal(t)
    ensures Run(width, height, t, a + b) == Run(width, height, Run(width, height, t, a), b)
    decreases |a|
  {
    if a == [] {
      assert a + b == b;
    } else {
      RunAppend(width, height, Apply(width, height, t, a[0]), a[1..], b);
      ConsAppend(a, b);
      assert (a + b)[1..] == a[1..] + b;
    }
  }

  lemma RunOne(width: nat, height: nat, t: Terminal, a: Cmd)
    requires WellTerminal(t)
    ensures Run(width, height, t, [a]) == Apply(width, height, t, a)
  {
    assert [a][1..] == [];
  }

  lemma RunTwo(width: nat, height: nat, t: Terminal, a: Cmd, b: Cmd)
    requires WellTerminal(t)
    ensures Run(width, height, t, [a, b]) == Apply(width, height, Apply(width, height, t, a), b)
  {
    assert [a, b] == [a] + [b];
    RunAppend(width, height, t, [a], [b]);
    RunOne(width, height, t, a);
    RunOne(width, height, Apply(width, height, t, a), b);
  }

  // ----- the lines above the cursor and the line it is on

  function Blanks(n: nat): (r: seq<Row>)
    ensures |r| == n && forall i | 0 <= i < n :: r[i] == []
  {
    seq(n, _ => [])
  }

  /** Above the cursor's line stands above, the line holds what was written up to the cursor, and below is blank. */
  predicate At(t: Terminal, above: seq<Row>, line: Row, below: nat) {
    t.lines == above + [line] + Blanks(below) && t.row == |above| && t.col == |line|
  }

  function Less(n: nat): nat {
    if n == 0 then 0 else n - 1
  }

  lemma FeedAt(t: Terminal, above: seq<Row>, line: Row, below: nat)
    requires At(t, above, line, below)
    ensures WellTerminal(t) && At(FeedOne(t), above + [line], [], Less(below))
  {
    if below > 0 {
      assert Blanks(below) == [[]] + Blanks(below - 1);
      assert t.lines == (above + [line]) + [[]] + Blanks(below - 1);
    } else {
      assert t.lines == above + [line];
      assert t.lines + [[]] == (above + [line]) + [[]] + Blanks(0);
    }
  }

  lemma CellAt(width: nat, t: Terminal, above: seq<Row>, line: Row, below: nat, c: char)
    requires At(t, above, line, below)
    ensures WellTerminal(t)
    ensures |line| + 1 < width ==> At(PutCell(width, t, c), above, line + [c], below)
    ensures |line| + 1 >= width ==> At(PutCell(width, t, c), above + [line + [c]], [], Less(below))
  {
    assert t.lines[t.row] == line && Padded(line, t.col) == line;
    var s := Terminal(t.lines[t.row := line + [c]], t.row, t.col + 1);
    assert s.lines == above + [line + [c]] + Blanks(below);
    FeedAt(s, above, line + [c], below);
  }

  /** Cells that leave the last column empty stay on their line. */
  lemma {:induction false} CellsAt(width: nat, t: Terminal, above: seq<Row>, line: Row, below: nat, cells: Row)
    requires At(t, above, line, below) && |line| + |cells| < width
    ensures WellTerminal(t) && At(PutCells(width, t, cells), above, line + cells, below)
    decreases |cells|
  {
    if cells == [] {
      assert line + cells == line;
    } else {
      CellAt(width, t, above, line, below, cells[0]);
      CellsAt(width, PutCell(width, t, cells[0]), above, line + [cells[0]], below, cells[1..]);
      assert line + cells == line + [cells[0]] + cells[1..];
    }
  }

  /** Any text, wrapped or not, only adds to what stands above. */
  lemma {:induction false} TextAt(width: nat, t: Terminal, above: seq<Row>, line: Row, below: nat, cells: Row)
      returns (more: seq<Row>, last: Row, left: nat)
    requires At(t, above, line, below)
    ensures WellTerminal(t) && At(PutCells(width, t, cells), above + more, last, left) && left <= below
    decreases |cells|
  {
    if cells == [] {
      more, last, left := [], line, below;
      assert above + more == above;
    } else {
      CellAt(width, t, above, line, below, cells[0]);
      var s := PutCell(width, t, cells[0]);
      if |line| + 1 < width {
        more, last, left := TextAt(width, s, above, line + [cells[0]], below, cells[1..]);
      } else {
        more, last, left := TextAt(width, s, above + [line + [cells[0]]], [], Less(below), cells[1..]);
        more := [line + [cells[0]]] + more;
        assert above + more == above + [line + [cells[0]]] + more[1..];
      }
    }
  }

  // ----- the block

  /** The block is the last of the text: its rows leave the last column empty, and below it is blank. */
  predicate Painted(width: nat, t: Terminal, log: seq<Row>, block: seq<Row>, below: nat) {
    if block == [] then At(t, log, [], below)
    else
      && At(t, log + block[..|block| - 1], block[|block| - 1], below)
      && forall i | 0 <= i < |block| :: |block[i]| < width
  }

  function FeedErase(n: nat): seq<Cmd> {
    if n == 0 then [] else [Feed, Erase] + FeedErase(n - 1)
  }

  function UpBy(n: nat): seq<Cmd> {
    if n > 0 then [Up(n)] else []
  }

  /** Clearing the lines the block occupies and returning to the first of them. */
  function EraseBlock(drawn: nat): seq<Cmd> {
    if drawn == 0 then []
    else [Return] + UpBy(drawn - 1) + [Erase] + FeedErase(drawn - 1) + UpBy(drawn - 1)
  }

  lemma UpAt(width: nat, height: nat, t: Terminal, n: nat)
    requires WellTerminal(t) && n <= t.row && Top(height, t) <= t.row - n
    ensures Run(width, height, t, UpBy(n)) == t.(row := t.row - n)
  {
    if n > 0 {
      assert UpBy(n) == [Up(n)] && UpBy(n)[1..] == [];
    }
  }

  /** The first i lines of the block are cleared and the rest still stand. */
  predicate Half(t: Terminal, log: seq<Row>, i: nat, rest: seq<Row>, below: nat) {
    i > 0 && t.lines == log + Blanks(i) + rest + Blanks(below) && t.row == |log| + i - 1 && t.col == 0
  }

  lemma {:induction false} FeedEraseAt(width: nat, height: nat, t: Terminal, log: seq<Row>, i: nat, rest: seq<Row>,
      below: nat)
    requires Half(t, log, i, rest, below)
    ensures WellTerminal(t) && Half(Run(width, height, t, FeedErase(|rest|)), log, i + |rest|, [], below)
    decreases |rest|
  {
    if rest != [] {
      var cmds := FeedErase(|rest|);
      assert cmds[0] == Feed && cmds[1..][0] == Erase && cmds[1..][1..] == FeedErase(|rest| - 1);
      var fed := Apply(width, height, t, Feed);
      var s := Apply(width, height, fed, Erase);
      assert fed.lines == t.lines && fed.row == |log| + i;
      assert s.lines == log + Blanks(i + 1) + rest[1..] + Blanks(below);
      FeedEraseAt(width, height, s, log, i + 1, rest[1..], below);
      assert Run(width, height, t, cmds) == Run(width, height, s, FeedErase(|rest| - 1));
    } else {
      assert rest == [];
    }
  }

  lemma EraseFirst(width: nat, height: nat, t: Terminal, log: seq<Row>, block: seq<Row>, below: nat)
    requires block != [] && Painted(width, t, log, block, below) && |block| + below <= height
    ensures WellTerminal(t)
      && Half(Run(width, height, t, [Return] + UpBy(|block| - 1) + [Erase]), log, 1, block[1..], below)
  {
    var n := |block| - 1;
    assert t.lines == log + block + Blanks(below);
    var back := t.(col := 0);
    UpAt(width, height, back, n);
    var up := back.(row := |log|);
    RunAppend(width, height, t, [Return], UpBy(n));
    assert Run(width, height, t, [Return]) == back by { assert [Return][1..] == []; }
    RunAppend(width, height, t, [Return] + UpBy(n), [Erase]);
    assert Run(width, height, up, [Erase]) == Apply(width, height, up, Erase) by { assert [Erase][1..] == []; }
    assert block == [block[0]] + block[1..];
    assert up.lines[|log| := []] == log + Blanks(1) + block[1..] + Blanks(below);
  }

  /** Erasing leaves every line above the block as it was. */
  lemma EraseAt(width: nat, height: nat, t: Terminal, log: seq<Row>, block: seq<Row>, below: nat)
    requires block != [] && Painted(width, t, log, block, below) && |block| + below <= height
    ensures WellTerminal(t) && Painted(width, Run(width, height, t, EraseBlock(|block|)), log, [], |block| - 1 + below)
  {
    var n := |block| - 1;
    var first := [Return] + UpBy(n) + [Erase];
    EraseFirst(width, height, t, log, block, below);
    var s := Run(width, height, t, first);
    FeedEraseAt(width, height, s, log, 1, block[1..], below);
    var e := Run(width, height, s, FeedErase(n));
    assert e.lines == log + [[]] + Blanks(n + below);
    UpAt(width, height, e, n);
    RunAppend(width, height, t, first, FeedErase(n));
    RunAppend(width, height, t, first + FeedErase(n), UpBy(n));
  }

  // ----- drawing

  /** Each row on its own line, the last one left open. */
  function DrawRows(rows: seq<Row>): seq<Cmd> {
    if rows == [] then []
    else if |rows| == 1 then [Cells(rows[0])]
    else DrawRows(rows[..|rows| - 1]) + [Feed, Cells(rows[|rows| - 1])]
  }

  function Remaining(below: nat, rows: nat): nat {
    if 1 + below > rows then (if rows == 0 then below else 1 + below - rows) else 0
  }

  lemma FeedCells(width: nat, height: nat, t: Terminal, above: seq<Row>, line: Row, below: nat, row: Row)
    requires At(t, above, line, below) && |row| < width
    ensures WellTerminal(t) && At(Run(width, height, t, [Feed, Cells(row)]), above + [line], row, Less(below))
  {
    FeedAt(t, above, line, below);
    CellsAt(width, FeedOne(t), above + [line], [], Less(below), row);
    assert [] + row == row;
    RunTwo(width, height, t, Feed, Cells(row));
  }

  lemma {:induction false} DrawAt(width: nat, height: nat, t: Terminal, log: seq<Row>, below: nat, rows: seq<Row>)
    requires Painted(width, t, log, [], below) && forall i | 0 <= i < |rows| :: |rows[i]| < width
    ensures WellTerminal(t)
      && Painted(width, Run(width, height, t, DrawRows(rows)), log, rows, Remaining(below, |rows|))
    decreases |rows|
  {
    if |rows| == 1 {
      CellsAt(width, t, log, [], below, rows[0]);
      assert [] + rows[0] == rows[0] && [Cells(rows[0])][1..] == [];
      assert log + rows[..0] == log;
    } else if |rows| > 1 {
      var front, last := rows[..|rows| - 1], rows[|rows| - 1];
      DrawAt(width, height, t, log, below, front);
      var s := Run(width, height, t, DrawRows(front));
      FeedCells(width, height, s, log + front[..|front| - 1], front[|front| - 1], Remaining(below, |front|), last);
      RunAppend(width, height, t, DrawRows(front), [Feed, Cells(last)]);
      assert front == front[..|front| - 1] + [front[|front| - 1]];
      assert log + front == (log + front[..|front| - 1]) + [front[|front| - 1]];
    }
  }

  /** One settled row above the block's place. */
  lemma LineAt(width: nat, height: nat, t: Terminal, log: seq<Row>, below: nat, row: Row)
    requires Painted(width, t, log, [], below) && |row| < width
    ensures WellTerminal(t) && Painted(width, Run(width, height, t, [Cells(row), Feed]), log + [row], [], Less(below))
  {
    CellsAt(width, t, log, [], below, row);
    assert [] + row == row;
    FeedAt(PutCells(width, t, row), log, row, below);
    assert [Cells(row), Feed][1..] == [Feed] && [Feed][1..] == [];
  }

  /** Leaving the block as text. */
  lemma CloseAt(width: nat, height: nat, t: Terminal, log: seq<Row>, block: seq<Row>, below: nat)
    requires block != [] && Painted(width, t, log, block, below)
    ensures WellTerminal(t) && Painted(width, Run(width, height, t, [Feed]), log + block, [], Less(below))
  {
    FeedAt(t, log + block[..|block| - 1], block[|block| - 1], below);
    assert block == block[..|block| - 1] + [block[|block| - 1]];
    assert log + block == log + block[..|block| - 1] + [block[|block| - 1]];
    assert [Feed][1..] == [];
  }

  /** A blank line and a line of any length. */
  lemma ParagraphAt(width: nat, height: nat, t: Terminal, log: seq<Row>, below: nat,
      text: Row) returns (grown: seq<Row>, left: nat)
    requires Painted(width, t, log, [], below)
    ensures WellTerminal(t) && log <= grown && left <= below
    ensures Painted(width, Run(width, height, t, [Feed, Cells(text), Feed]), grown, [], left)
  {
    FeedAt(t, log, [], below);
    var more, last, k := TextAt(width, FeedOne(t), log + [[]], [], Less(below), text);
    var s := PutCells(width, FeedOne(t), text);
    FeedAt(s, log + [[]] + more, last, k);
    grown, left := log + [[]] + more + [last], Less(k);
    var cmds := [Feed, Cells(text), Feed];
    assert cmds == [Feed, Cells(text)] + [Feed];
    RunTwo(width, height, t, Feed, Cells(text));
    RunAppend(width, height, t, [Feed, Cells(text)], [Feed]);
    RunOne(width, height, s, Feed);
  }

  // ----- a whole repaint

  function Lines(rows: seq<Row>): seq<Cmd> {
    if rows == [] then [] else Lines(rows[..|rows| - 1]) + [Cells(rows[|rows| - 1]), Feed]
  }

  predicate Narrow(width: nat, rows: seq<Row>) {
    forall i | 0 <= i < |rows| :: |rows[i]| < width
  }

  lemma {:induction false} LinesAt(width: nat, height: nat, t: Terminal, log: seq<Row>, below: nat,
      rows: seq<Row>) returns (left: nat)
    requires Painted(width, t, log, [], below) && Narrow(width, rows)
    ensures WellTerminal(t) && left <= below && Painted(width, Run(width, height, t, Lines(rows)), log + rows, [], left)
    decreases |rows|
  {
    if rows == [] {
      assert log + rows == log;
      left := below;
    } else {
      var front, last := rows[..|rows| - 1], rows[|rows| - 1];
      var k := LinesAt(width, height, t, log, below, front);
      LineAt(width, height, Run(width, height, t, Lines(front)), log + front, k, last);
      RunAppend(width, height, t, Lines(front), [Cells(last), Feed]);
      assert log + rows == log + front + [last];
      left := Less(k);
    }
  }

  /** The lines the block and what is below it occupy are all on the screen. */
  predicate OnScreen(width: nat, height: nat, t: Terminal, log: seq<Row>, block: seq<Row>, below: nat) {
    && WellTerminal(t)
    && Painted(width, t, log, block, below)
    && below < height
    && |block| + below <= height
  }

  lemma EraseAny(width: nat, height: nat, t: Terminal, log: seq<Row>, block: seq<Row>, below: nat) returns (left: nat)
    requires OnScreen(width, height, t, log, block, below)
    ensures OnScreen(width, height, Run(width, height, t, EraseBlock(|block|)), log, [], left)
  {
    if block == [] {
      left := below;
    } else {
      EraseAt(width, height, t, log, block, below);
      left := |block| - 1 + below;
    }
  }

  function Repaint(drawn: nat, settled: seq<Row>, rows: seq<Row>): seq<Cmd> {
    EraseBlock(drawn) + Lines(settled) + DrawRows(rows)
  }

  /**
   Erasing the block, writing the settled rows in its place and a new block under
   them only adds to the text above the block.
   */
  lemma RepaintAt(width: nat, height: nat, t: Terminal, log: seq<Row>, block: seq<Row>, below: nat, settled: seq<Row>,
      rows: seq<Row>) returns (left: nat)
    requires OnScreen(width, height, t, log, block, below)
    requires Narrow(width, settled) && Narrow(width, rows) && |rows| <= height
    ensures OnScreen(width, height, Run(width, height, t, Repaint(|block|, settled, rows)), log + settled, rows, left)
  {
    var erase := EraseBlock(|block|);
    var k := EraseAny(width, height, t, log, block, below);
    var erased := Run(width, height, t, erase);
    var l := LinesAt(width, height, erased, log, k, settled);
    var wrote := Run(width, height, erased, Lines(settled));
    DrawAt(width, height, wrote, log + settled, l, rows);
    RunAppend(width, height, t, erase, Lines(settled));
    RunAppend(width, height, t, erase + Lines(settled), DrawRows(rows));
    left := Remaining(l, |rows|);
  }
}
