/** A character terminal, as far as the line editor drives it: CR and LF, the cursor
    movements CUU, CUD and CUF, and EL (sections 8.3.22, 8.3.19, 8.3.20 and 8.3.41 of
    ECMA-48), and the home and erase-display of `clear screen`; with the deferred wrap of a
    VT100: a character written in the last column leaves the cursor there, and only the next
    character moves it to the next row. */
module Terminal {

  datatype Cmd =
    | Put(c: char)
    | Cr
    | Lf
    | Up(n: nat)
    | Down(n: nat)
    | Right(n: nat)
    | EraseRight
    | Home
    | EraseAll
    | Sgr(params: string)    // a colour or its end: changes no cell and moves nothing

  /** The rows are laid end to end in `grid`. */
  datatype Screen = Screen(cols: nat, rows: nat, grid: string, row: nat, col: nat, wrap: bool)

  ghost predicate Valid(s: Screen) {
    && 0 < s.cols && 0 < s.rows && |s.grid| == RowStart(s.rows, s.cols)
    && s.row < s.rows && s.col < s.cols
    && (s.wrap ==> s.col == s.cols - 1)
  }

  function Blank(n: nat): (b: string)
    ensures |b| == n && forall i :: 0 <= i < n ==> b[i] == ' '
  {
    seq(n, i => ' ')
  }

  /** The cell a row starts at: `r * w`, by repeated addition. */
  function RowStart(r: nat, w: nat): nat {
    if r == 0 then 0 else RowStart(r - 1, w) + w
  }

  lemma {:induction false} RowStartMono(a: nat, b: nat, w: nat)
    ensures a <= b ==> RowStart(a, w) <= RowStart(b, w)
    ensures a < b ==> RowStart(a, w) + w <= RowStart(b, w)
    decreases b
  {
    if a < b {
      RowStartMono(a, b - 1, w);
    }
  }

  lemma RowBound(s: Screen, r: nat)
    requires Valid(s) && r <= s.rows
    ensures RowStart(r, s.cols) <= |s.grid|
    ensures r < s.rows ==> RowStart(r, s.cols) + s.cols == RowStart(r + 1, s.cols) <= |s.grid|
  {
    RowStartMono(r, s.rows, s.cols);
    if r < s.rows {
      RowStartMono(r + 1, s.rows, s.cols);
    }
  }

  lemma {:induction false} RowStartIsProduct(r: nat, w: nat)
    ensures RowStart(r, w) == r * w
  {
    if r > 0 {
      RowStartIsProduct(r - 1, w);
      assert r * w == (r - 1) * w + w;
    }
  }

  lemma {:induction false} RowStartAdd(a: nat, b: nat, w: nat)
    ensures RowStart(a + b, w) == RowStart(a, w) + RowStart(b, w)
  {
    if b > 0 {
      RowStartAdd(a, b - 1, w);
    }
  }

  /** Cell `x` is on row `r`, and `x` cells take up `rows` rows. */
  ghost predicate InRow(r: nat, x: nat, w: nat) {
    RowStart(r, w) <= x < RowStart(r, w) + w
  }

  ghost predicate Covers(rows: nat, x: nat, w: nat) {
    0 < rows && RowStart(rows - 1, w) < x <= RowStart(rows, w)
  }

  lemma InRowUnique(r: nat, q: nat, x: nat, w: nat)
    requires InRow(r, x, w) && InRow(q, x, w)
    ensures r == q
  {
    RowStartMono(r, q, w);
    RowStartMono(q, r, w);
  }

  lemma CoversUnique(r: nat, q: nat, x: nat, w: nat)
    requires Covers(r, x, w) && Covers(q, x, w)
    ensures r == q
  {
    RowStartMono(r, q - 1, w);
    RowStartMono(q, r - 1, w);
  }

  lemma CoversBelow(base: nat, rows: nat, x: nat, w: nat)
    requires Covers(rows, x, w)
    ensures Covers(base + rows, RowStart(base, w) + x, w)
  {
    RowStartAdd(base, rows, w);
    RowStartAdd(base, rows - 1, w);
  }

  /** The quotients the editor computes are these rows. */
  lemma RowOf(x: nat, w: nat)
    requires w > 0
    ensures InRow(x / w, x, w) && x == RowStart(x / w, w) + x % w
  {
    RowStartIsProduct(x / w, w);
  }

  lemma NextRowOf(x: nat, w: nat)
    requires w > 0
    ensures (x + w) / w == x / w + 1
  {
    RowOf(x, w);
    RowOf(x + w, w);
    assert (x + w) / w > 0;
    InRowUnique(x / w, (x + w) / w - 1, x, w);
  }

  lemma RowsOf(x: nat, w: nat)
    requires w > 0 && x > 0
    ensures Covers((x + w - 1) / w, x, w)
  {
    RowOf(x + w - 1, w);
    assert (x + w - 1) / w > 0;
  }

  function LineFeed(s: Screen): (t: Screen)
    requires Valid(s)
    ensures Valid(t) && t.cols == s.cols && t.rows == s.rows && t.col == s.col && !t.wrap
  {
    RowBound(s, 1);
    if s.row + 1 < s.rows then s.(row := s.row + 1, wrap := false)
    else s.(grid := s.grid[s.cols..] + Blank(s.cols), wrap := false)   // the screen scrolls
  }

  function Apply(s: Screen, cmd: Cmd): (t: Screen)
    requires Valid(s)
    ensures Valid(t) && t.cols == s.cols && t.rows == s.rows
  {
    match cmd
    case Put(c) =>
      var t := if s.wrap then LineFeed(s).(col := 0) else s;
      RowBound(t, t.row);
      var g := t.grid[RowStart(t.row, t.cols) + t.col := c];
      if t.col == t.cols - 1 then t.(grid := g, wrap := true) else t.(grid := g, col := t.col + 1)
    case Cr => s.(col := 0, wrap := false)
    case Lf => LineFeed(s)
    case Up(n) =>
      var k := if n == 0 then 1 else n;
      s.(row := if s.row < k then 0 else s.row - k, wrap := false)
    case Down(n) =>
      var k := if n == 0 then 1 else n;
      s.(row := if s.row + k < s.rows then s.row + k else s.rows - 1, wrap := false)
    case Right(n) =>
      var k := if n == 0 then 1 else n;
      s.(col := if s.col + k < s.cols then s.col + k else s.cols - 1, wrap := false)
    case Sgr(_) => s
    case Home => s.(row := 0, col := 0, wrap := false)
    case EraseAll => s.(grid := Blank(|s.grid|))
    case EraseRight =>
      RowBound(s, s.row);
      var p := RowStart(s.row, s.cols) + s.col;
      s.(grid := s.grid[..p] + Blank(s.cols - s.col) + s.grid[p + (s.cols - s.col)..])
  }

  function Run(s: Screen, cmds: seq<Cmd>): (t: Screen)
    requires Valid(s)
    ensures Valid(t) && t.cols == s.cols && t.rows == s.rows
    decreases |cmds|
  {
    if cmds == [] then s else
      var before := Run(s, cmds[..|cmds| - 1]);
      Apply(before, cmds[|cmds| - 1])
  }

  lemma RunSnoc(s: Screen, cmds: seq<Cmd>, cmd: Cmd)
    requires Valid(s)
    ensures Run(s, cmds + [cmd]) == Apply(Run(s, cmds), cmd)
  {
    assert (cmds + [cmd])[..|cmds|] == cmds;
  }

  lemma {:induction false} RunAppend(s: Screen, a: seq<Cmd>, b: seq<Cmd>)
    requires Valid(s)
    ensures Run(s, a + b) == Run(Run(s, a), b)
    decreases |b|
  {
    if b == [] {
      assert a + b == a;
    } else {
      var n := |b| - 1;
      RunAppend(s, a, b[..n]);
      RunSnoc(s, a + b[..n], b[n]);
      assert a + b == a + b[..n] + [b[n]];
    }
  }

  // ---------------------------------------------------------------- writing text

  /** The next character goes to cell `p`, whether the wrap is still pending or not. */
  ghost predicate At(s: Screen, p: nat) {
    Valid(s) && p == RowStart(s.row, s.cols) + s.col + (if s.wrap then 1 else 0)
  }

  /** With the wrap pending there is a next row, as long as the next cell exists. */
  lemma WrapRoom(s: Screen, p: nat)
    requires At(s, p) && p < |s.grid| && s.wrap
    ensures s.row + 1 < s.rows && p == RowStart(s.row + 1, s.cols)
  {
    assert RowStart(s.row + 1, s.cols) == p;
    assert s.row + 1 == s.rows ==> |s.grid| == p;
  }

  lemma PutAt(s: Screen, c: char, p: nat)
    requires At(s, p) && p < |s.grid|
    ensures var t := Apply(s, Put(c)); At(t, p + 1) && t.grid == s.grid[p := c] && (t.wrap || t.col > 0)
  {
    if s.wrap {
      WrapRoom(s, p);
    }
    var u := if s.wrap then LineFeed(s).(col := 0) else s;
    assert RowStart(u.row, u.cols) + u.col == p;
  }

  /** Some text leaves the cursor on the last row the text takes up. */
  lemma LastRow(s: Screen, base: nat, x: nat, rows: nat)
    requires At(s, RowStart(base, s.cols) + x) && (s.wrap || s.col > 0) && Covers(rows, x, s.cols)
    ensures s.row + 1 == base + rows
  {
    CoversBelow(base, rows, x, s.cols);
    CoversUnique(s.row + 1, base + rows, RowStart(base, s.cols) + x, s.cols);
  }

  function Puts(text: string): seq<Cmd> {
    seq(|text|, i requires 0 <= i < |text| => Put(text[i]))
  }

  lemma PutsSnoc(cmds: seq<Cmd>, text: string)
    requires text != ""
    ensures var n := |text| - 1; cmds + Puts(text) == cmds + Puts(text[..n]) + [Put(text[n])]
  {
  }

  function Splice(g: string, p: nat, text: string): (r: string)
    requires p + |text| <= |g|
    ensures |r| == |g|
  {
    g[..p] + text + g[p + |text|..]
  }

  lemma SpliceSnoc(g: string, p: nat, text: string)
    requires text != "" && p + |text| <= |g|
    ensures var n := |text| - 1; Splice(g, p, text[..n])[p + n := text[n]] == Splice(g, p, text)
  {
    var n := |text| - 1;
    assert Splice(g, p, text[..n])[p + n := text[n]] == g[..p] + text + g[p + |text|..];
  }

  /** Text written with room for it lands in consecutive cells and changes no other. */
  lemma {:induction false} PutText(s: Screen, cmds: seq<Cmd>, text: string, p: nat)
    requires Valid(s) && At(Run(s, cmds), p) && p + |text| <= |Run(s, cmds).grid|
    ensures var s0, t := Run(s, cmds), Run(s, cmds + Puts(text));
            && At(t, p + |text|) && t.grid == Splice(s0.grid, p, text)
            && (if text == "" then t == s0 else t.wrap || t.col > 0)
    decreases |text|
  {
    var s0 := Run(s, cmds);
    if text == "" {
      assert cmds + Puts(text) == cmds;
      assert Splice(s0.grid, p, "") == s0.grid;
    } else {
      var n := |text| - 1;
      PutText(s, cmds, text[..n], p);
      var t := Run(s, cmds + Puts(text[..n]));
      PutsSnoc(cmds, text);
      RunSnoc(s, cmds + Puts(text[..n]), Put(text[n]));
      PutAt(t, text[n], p + n);
      SpliceSnoc(s0.grid, p, text);
    }
  }

  // ---------------------------------------------------------------- clearing rows

  /** Everything from cell `p` on is blank. */
  ghost predicate BlankFrom(s: Screen, p: int) {
    forall i {:trigger s.grid[i]} :: 0 <= p <= i < |s.grid| ==> s.grid[i] == ' '
  }

  lemma ClearRow(s: Screen)
    requires Valid(s)
    ensures var t := Apply(Apply(s, Cr), EraseRight);
            && Valid(t) && t == s.(grid := t.grid, col := 0, wrap := false)
            && 0 <= RowStart(s.row, s.cols) <= |s.grid| && |t.grid| == |s.grid|
            && t.grid[..RowStart(s.row, s.cols)] == s.grid[..RowStart(s.row, s.cols)]
            && (BlankFrom(s, RowStart(s.row + 1, s.cols)) ==> BlankFrom(t, RowStart(s.row, s.cols)))
  {
    var a := Apply(s, Cr);
    RowBound(s, s.row);
    var t := Apply(a, EraseRight);
    var p := RowStart(s.row, s.cols);
    assert t.grid == s.grid[..p] + Blank(s.cols) + s.grid[p + s.cols..];
    if BlankFrom(s, p + s.cols) {
      forall i | p <= i < |t.grid| ensures t.grid[i] == ' ' {
        if i >= p + s.cols { assert t.grid[i] == s.grid[i]; }
      }
    }
  }
}
