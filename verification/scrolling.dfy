/** A screen that scrolls, seen as a window that moves down a taller screen that does not: what
    holds of text written with room below it then holds of text written at the bottom. */
module Scrolling {
  import opened Terminal

  /** `r` is the rows of `t` from `off` on; the rows of `t` below them are blank. */
  ghost predicate Window(r: Screen, t: Screen, off: nat) {
    && Valid(r) && Valid(t) && t.cols == r.cols && off + r.rows <= t.rows
    && t.row == r.row + off && t.col == r.col && t.wrap == r.wrap
    && RowStart(off + r.rows, r.cols) == RowStart(off, r.cols) + |r.grid| <= |t.grid|
    && r.grid == t.grid[RowStart(off, r.cols)..RowStart(off, r.cols) + |r.grid|]
    && BlankFrom(t, RowStart(off, r.cols) + |r.grid|)
  }

  /** A screen with more rows below. */
  ghost function Taller(r: Screen, more: nat): Screen {
    r.(rows := r.rows + more, grid := r.grid + Blank(RowStart(more, r.cols)))
  }

  lemma TallerWindow(r: Screen, more: nat)
    requires Valid(r)
    ensures Window(r, Taller(r, more), 0)
  {
    RowStartAdd(r.rows, more, r.cols);
    assert Taller(r, more).grid[..|r.grid|] == r.grid;
  }

  predicate Feeds(t: Screen, cmd: Cmd) {
    cmd.Lf? || (cmd.Put? && t.wrap)
  }

  /** The commands that mean the same in the window: none that goes to a corner of the screen or
      is stopped by an edge that only one of the two has. */
  predicate Relative(t: Screen, cmd: Cmd, off: nat, rows: nat) {
    match cmd
    case Home => false
    case EraseAll => false
    case Up(n) => 0 < n && (off == 0 || off + n <= t.row)
    case Down(n) => 0 < n && t.row + n < off + rows
    case _ => Feeds(t, cmd) ==> t.row + 1 < t.rows
  }

  /** How far a window of so many rows has moved once the cursor was on this row. */
  function Moved(off: nat, row: nat, rows: nat): nat {
    if row + 1 > off + rows then row + 1 - rows else off
  }

  lemma SliceSet(g: string, p: nat, n: nat, q: nat, c: char)
    requires p + n <= |g| && q < n
    ensures g[p + q := c][p..p + n] == g[p..p + n][q := c]
  {
  }

  lemma SliceErase(g: string, h: string, p: nat, n: nat, q: nat, k: nat)
    requires p + n <= |g| && q + k <= n && h == g[..p + q] + Blank(k) + g[p + q + k..]
    ensures |h| == |g| && h[p..p + n] == g[p..p + n][..q] + Blank(k) + g[p..p + n][q + k..]
    ensures forall i :: p + n <= i < |g| ==> h[i] == g[i]
  {
    var u := g[p..p + n][..q] + Blank(k) + g[p..p + n][q + k..];
    assert |u| == n == |h[p..p + n]|;
    forall i | 0 <= i < n ensures h[p..p + n][i] == u[i] {
      assert h[p..p + n][i] == h[p + i];
    }
  }

  lemma SliceDown(g: string, p: nat, n: nat, w: nat)
    requires w <= n && p + n + w <= |g| && forall i :: p + n <= i < p + n + w ==> g[i] == ' '
    ensures g[p..p + n][w..] + Blank(w) == g[p + w..p + w + n]
  {
  }

  lemma NextRows(off: nat, n: nat, all: nat, w: nat)
    requires off + n < all
    ensures RowStart(off + 1, w) == RowStart(off, w) + w
    ensures RowStart(off + 1 + n, w) == RowStart(off + n, w) + w <= RowStart(all, w)
  {
    RowStartMono(off + n + 1, all, w);
  }

  lemma ScrollWindow(r: Screen, t: Screen, off: nat)
    requires Window(r, t, off) && t.row + 1 < t.rows && r.row + 1 == r.rows
    ensures Window(LineFeed(r), LineFeed(t), off + 1)
  {
    hide RowStart;
    var p, n, w := RowStart(off, r.cols), |r.grid|, r.cols;
    RowBound(r, 1);
    assert w <= n by {
      OneRow(w);
    }
    NextRows(off, r.rows, t.rows, w);
    SliceDown(t.grid, p, n, w);
    assert LineFeed(r).grid == r.grid[w..] + Blank(w);
  }

  lemma OneRow(w: nat)
    ensures RowStart(1, w) == w
  {
    assert RowStart(0, w) == 0;
  }

  lemma FeedWindow(r: Screen, t: Screen, off: nat)
    requires Window(r, t, off) && t.row + 1 < t.rows
    ensures Window(LineFeed(r), LineFeed(t), Moved(off, t.row + 1, r.rows))
  {
    if r.row + 1 == r.rows {
      ScrollWindow(r, t, off);
    } else {
      hide RowStart;
    }
  }

  lemma Cell(r: Screen, t: Screen, off: nat)
    requires Window(r, t, off)
    ensures RowStart(t.row, t.cols) == RowStart(off, r.cols) + RowStart(r.row, r.cols)
    ensures RowStart(r.row, r.cols) + r.cols <= |r.grid|
  {
    RowStartAdd(off, r.row, r.cols);
    RowBound(r, r.row);
  }

  lemma PutWindow(r: Screen, t: Screen, off: nat, c: char)
    requires Window(r, t, off) && !t.wrap
    ensures Window(Apply(r, Put(c)), Apply(t, Put(c)), off)
  {
    hide RowStart;
    Cell(r, t, off);
    SliceSet(t.grid, RowStart(off, r.cols), |r.grid|, RowStart(r.row, r.cols) + r.col, c);
  }

  lemma EraseWindow(r: Screen, t: Screen, off: nat)
    requires Window(r, t, off)
    ensures Window(Apply(r, EraseRight), Apply(t, EraseRight), off)
  {
    hide RowStart;
    Cell(r, t, off);
    var p, q := RowStart(off, r.cols), RowStart(r.row, r.cols) + r.col;
    SliceErase(t.grid, Apply(t, EraseRight).grid, p, |r.grid|, q, r.cols - r.col);
  }

  lemma CursorWindow(r: Screen, t: Screen, off: nat, r': Screen, t': Screen)
    requires Window(r, t, off) && Valid(r') && Valid(t') && t'.row == r'.row + off
    requires r' == r.(row := r'.row, col := t'.col, wrap := t'.wrap)
    requires t' == t.(row := t'.row, col := t'.col, wrap := t'.wrap)
    ensures Window(r', t', off)
  {
    hide RowStart;
  }

  lemma WrapWindow(r: Screen, t: Screen, off: nat, c: char)
    requires Window(r, t, off) && t.wrap && t.row + 1 < t.rows
    ensures Window(Apply(r, Put(c)), Apply(t, Put(c)), Moved(off, t.row + 1, r.rows))
  {
    hide RowStart, BlankFrom, Moved, LineFeed;
    FeedWindow(r, t, off);
    var r', t' := LineFeed(r).(col := 0), LineFeed(t).(col := 0);
    CursorWindow(LineFeed(r), LineFeed(t), Moved(off, t.row + 1, r.rows), r', t');
    PutWindow(r', t', Moved(off, t.row + 1, r.rows), c);
    assert Apply(r, Put(c)) == Apply(r', Put(c)) && Apply(t, Put(c)) == Apply(t', Put(c));
  }

  lemma MoveWindow(r: Screen, t: Screen, off: nat, cmd: Cmd)
    requires Window(r, t, off) && Relative(t, cmd, off, r.rows)
    requires !cmd.Put? && !cmd.Lf? && !cmd.EraseRight?
    ensures Window(Apply(r, cmd), Apply(t, cmd), off) && Apply(t, cmd).row < off + r.rows
  {
    hide RowStart, BlankFrom, LineFeed;
    CursorWindow(r, t, off, Apply(r, cmd), Apply(t, cmd));
  }

  /** One command in the window is that command on the taller screen. */
  lemma WindowStep(r: Screen, t: Screen, off: nat, cmd: Cmd)
    requires Window(r, t, off) && Relative(t, cmd, off, r.rows)
    ensures Window(Apply(r, cmd), Apply(t, cmd), Moved(off, Apply(t, cmd).row, r.rows))
  {
    hide RowStart, BlankFrom, Window;
    WindowRow(r, t, off);
    match cmd
    case Put(c) => if t.wrap { WrapWindow(r, t, off, c); } else { PutWindow(r, t, off, c); }
    case Lf => FeedWindow(r, t, off);
    case EraseRight => EraseWindow(r, t, off);
    case _ => MoveWindow(r, t, off, cmd);
  }

  lemma WindowRow(r: Screen, t: Screen, off: nat)
    requires Window(r, t, off)
    ensures Valid(r) && Valid(t) && off <= t.row < off + r.rows
  {
  }

  /** Text written in the window is text written on the taller screen, however far it moves. */
  lemma {:induction false} WindowPuts(r: Screen, t: Screen, off: nat, text: string, p: nat)
    requires Window(r, t, off) && At(t, p) && p + |text| <= |t.grid|
    ensures var u := Run(t, Puts(text)); Window(Run(r, Puts(text)), u, Moved(off, u.row, r.rows))
    decreases |text|
  {
    hide RowStart, BlankFrom, Window;
    WindowRow(r, t, off);
    if text == "" {
      assert Puts(text) == [];
    } else {
      var n := |text| - 1;
      WindowPuts(r, t, off, text[..n], p);
      WrittenSoFar(t, text[..n], p);
      var u, k := Run(t, Puts(text[..n])), Run(r, Puts(text[..n]));
      assert Puts(text) == Puts(text[..n]) + [Put(text[n])];
      RunSnoc(r, Puts(text[..n]), Put(text[n]));
      RunSnoc(t, Puts(text[..n]), Put(text[n]));
      WindowStep(k, u, Moved(off, u.row, r.rows), Put(text[n]));
      assert u.row <= Apply(u, Put(text[n])).row;
    }
  }

  lemma WrittenSoFar(t: Screen, text: string, p: nat)
    requires At(t, p) && p + |text| < |t.grid|
    ensures var u := Run(t, Puts(text)); Valid(u) && (u.wrap ==> u.row + 1 < u.rows)
  {
    assert [] + Puts(text) == Puts(text);
    PutText(t, [], text, p);
    var u := Run(t, Puts(text));
    if u.wrap {
      WrapRoom(u, p + |text|);
    }
  }
}
