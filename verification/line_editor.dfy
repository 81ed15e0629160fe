/** The multi-line line editor: commands that change a fixed buffer in place, each followed
    by a refresh that must leave the terminal showing exactly that buffer. */
module LineEditor {
  import opened Terminal
  import opened Scrolling
  import opened Escapes
  import opened LineText
  import opened LineHistory

  class Tty {
    var screen: Screen

    constructor (screen: Screen)
      ensures this.screen == screen
    {
      this.screen := screen;
    }

    method Write(bytes: string)
      requires Terminal.Valid(screen)
      modifies this
      ensures screen == Run(old(screen), Decode(bytes))
    {
      screen := Run(screen, Decode(bytes));
    }
  }

  // ---------------------------------------------------------------- the append buffer

  /** The bytes gathered so far and the commands they spell. The screen after them is the window
      at `off` on the taller screen `t`. */
  ghost predicate Tape(r: Screen, ab: string, cmds: seq<Cmd>, t: Screen, off: nat) {
    && Terminal.Valid(r)
    && ab == EncodeAll(cmds)
    && (forall c :: c in cmds ==> Sendable(c))
    && Window(Run(r, cmds), t, off)
  }

  lemma TapeSnoc(r: Screen, ab: string, cmds: seq<Cmd>, t: Screen, off: nat, cmd: Cmd)
    requires Tape(r, ab, cmds, t, off) && Sendable(cmd) && Relative(t, cmd, off, r.rows)
    ensures Tape(r, ab + Encode(cmd), cmds + [cmd], Apply(t, cmd), Moved(off, Apply(t, cmd).row, r.rows))
  {
    hide Window, Encode, Apply, Sendable;
    EncodeSnoc(cmds, cmd);
    RunSnoc(r, cmds, cmd);
    WindowRow(Run(r, cmds), t, off);
    WindowStep(Run(r, cmds), t, off, cmd);
  }

  lemma TapeSpot(r: Screen, ab: string, cmds: seq<Cmd>, t: Screen, off: nat)
    requires Tape(r, ab, cmds, t, off)
    ensures Terminal.Valid(r) && Terminal.Valid(t) && off <= t.row < off + r.rows <= t.rows && t.cols == r.cols
  {
  }

  /** A command that takes the cursor to no new row. */
  lemma TapeStill(r: Screen, ab: string, cmds: seq<Cmd>, t: Screen, off: nat, cmd: Cmd)
    requires Tape(r, ab, cmds, t, off) && Sendable(cmd) && Relative(t, cmd, off, r.rows)
    requires cmd == Cr || cmd == EraseRight || cmd.Right? || cmd.Sgr? || cmd.Up? || cmd.Down?
    ensures Tape(r, ab + Encode(cmd), cmds + [cmd], Apply(t, cmd), off)
  {
    hide Tape, Encode;
    TapeSpot(r, ab, cmds, t, off);
    TapeSnoc(r, ab, cmds, t, off, cmd);
  }

  lemma TapePuts(r: Screen, ab: string, cmds: seq<Cmd>, t: Screen, off: nat, text: string, p: nat)
    returns (cmds': seq<Cmd>, t': Screen)
    requires Tape(r, ab, cmds, t, off) && forall c :: c in text ==> Printable(c)
    requires At(t, p) && p + |text| <= |t.grid|
    ensures SameSize(t, t') && Tape(r, ab + text, cmds', t', Moved(off, t'.row, r.rows))
    ensures At(t', p + |text|) && t'.grid == Splice(t.grid, p, text)
    ensures if text == "" then t' == t else t'.wrap || t'.col > 0
  {
    hide RowStart, Window, Encode;
    EncodePuts(cmds, text);
    assert [] + Puts(text) == Puts(text);
    PutText(t, [], text, p);
    RunAppend(r, cmds, Puts(text));
    WindowRow(Run(r, cmds), t, off);
    WindowPuts(Run(r, cmds), t, off, text, p);
    cmds', t' := cmds + Puts(text), Run(t, Puts(text));
    forall c | c in cmds' ensures Sendable(c) {
      if c !in cmds {
        var i :| 0 <= i < |text| && Puts(text)[i] == c;
        assert text[i] in text;
      }
    }
  }

  lemma TapeColour(r: Screen, ab: string, cmds: seq<Cmd>, t: Screen, off: nat, sgr: Cmd)
    returns (cmds': seq<Cmd>)
    requires Tape(r, ab, cmds, t, off) && sgr.Sgr? && Sendable(sgr)
    ensures Tape(r, ab + Encode(sgr), cmds', t, off)
  {
    TapeSpot(r, ab, cmds, t, off);
    TapeStill(r, ab, cmds, t, off, sgr);
    cmds' := cmds + [sgr];
  }

  lemma TapeDecodes(r: Screen, ab: string, cmds: seq<Cmd>, t: Screen, off: nat)
    requires Tape(r, ab, cmds, t, off)
    ensures Window(Run(r, Decode(ab)), t, off)
  {
    hide Window, Encode, Decode, EncodeAll;
    DecodeAll(cmds);
  }

  lemma DecodeAll(cmds: seq<Cmd>)
    requires forall c :: c in cmds ==> Sendable(c)
    ensures Decode(EncodeAll(cmds)) == cmds
  {
    DecodeEncoded(cmds, "");
    assert EncodeAll(cmds) + "" == EncodeAll(cmds);
    assert cmds + Decode("") == cmds;
  }

  lemma ShorterPrefix(g: string, h: string, a: nat, b: nat)
    requires a <= b <= |g| == |h| && g[..b] == h[..b]
    ensures g[..a] == h[..a]
  {
    assert g[..b][..a] == g[..a] && h[..b][..a] == h[..a];
  }

  lemma BlankFurther(s: Screen, p: nat, q: nat)
    requires BlankFrom(s, p) && p <= q
    ensures BlankFrom(s, q)
  {
  }

  /** One round of clearing: the row is blanked and the cursor goes up, unless it is at the
      top already. */
  lemma ClearUp(t: Screen, top: nat)
    requires Terminal.Valid(t) && top <= t.row && BlankFrom(t, RowStart(t.row + 1, t.cols))
    ensures var u := Apply(Apply(Apply(t, Cr), EraseRight), Up(1));
            && Terminal.Valid(u) && u.cols == t.cols && u.rows == t.rows
            && u.row == (if t.row == 0 then 0 else t.row - 1)
            && BlankFrom(u, RowStart(u.row + 1, u.cols))
            && 0 <= RowStart(top, t.cols) <= |t.grid| && |u.grid| == |t.grid|
            && u.grid[..RowStart(top, t.cols)] == t.grid[..RowStart(top, t.cols)]
  {
    ClearRow(t);
    var v := Apply(Apply(t, Cr), EraseRight);
    var u := Apply(v, Up(1));
    RowBound(t, top);
    RowStartMono(top, t.row, t.cols);
    ShorterPrefix(v.grid, t.grid, RowStart(top, t.cols), RowStart(t.row, t.cols));
    assert BlankFrom(u, RowStart(t.row, t.cols));
    if t.row == 0 {
      BlankFurther(u, 0, RowStart(u.row + 1, u.cols));
    }
  }

  lemma TapeDown(r: Screen, ab: string, cmds: seq<Cmd>, t: Screen, n: nat) returns (cmds': seq<Cmd>, u: Screen)
    requires Tape(r, ab, cmds, t, 0) && Terminal.Valid(t) && 0 < n && t.row + n < r.rows
    ensures Tape(r, ab + Encode(Down(n)), cmds', u, 0) && u == t.(row := t.row + n, wrap := false)
  {
    hide Tape, Encode;
    TapeSpot(r, ab, cmds, t, 0);
    TapeStill(r, ab, cmds, t, 0, Down(n));
    cmds', u := cmds + [Down(n)], Apply(t, Down(n));
  }

  const CLEAR_ROW: string := Encode(Cr) + Encode(EraseRight)
  const CLEAR_UP: string := CLEAR_ROW + Encode(Up(1))

  lemma TapeClearRow(r: Screen, ab: string, cmds: seq<Cmd>, t: Screen)
    requires Tape(r, ab, cmds, t, 0) && Terminal.Valid(t)
    ensures Tape(r, ab + CLEAR_ROW, cmds + [Cr] + [EraseRight], Apply(Apply(t, Cr), EraseRight), 0)
  {
    hide Tape, Encode;
    TapeStill(r, ab, cmds, t, 0, Cr);
    TapeStill(r, ab + Encode(Cr), cmds + [Cr], Apply(t, Cr), 0, EraseRight);
    Append(ab, Encode(Cr), Encode(EraseRight));
  }

  lemma TapeClearUp(r: Screen, ab: string, cmds: seq<Cmd>, t: Screen, top: nat)
    returns (cmds': seq<Cmd>, u: Screen)
    requires Tape(r, ab, cmds, t, 0)
    requires Terminal.Valid(t) && top <= t.row && BlankFrom(t, RowStart(t.row + 1, t.cols))
    ensures Tape(r, ab + CLEAR_UP, cmds', u, 0) && SameSize(t, u)
    ensures u.row == (if t.row == 0 then 0 else t.row - 1)
    ensures BlankFrom(u, RowStart(u.row + 1, u.cols))
    ensures SameBefore(t, u, RowStart(top, t.cols))
  {
    hide Tape, Encode;
    ClearUp(t, top);
    TapeClearRow(r, ab, cmds, t);
    var v := Apply(Apply(t, Cr), EraseRight);
    TapeStill(r, ab + CLEAR_ROW, cmds + [Cr] + [EraseRight], v, 0, Up(1));
    Append(ab, CLEAR_ROW, Encode(Up(1)));
    cmds', u := cmds + [Cr] + [EraseRight] + [Up(1)], Apply(v, Up(1));
  }

  lemma TapeClearTop(r: Screen, ab: string, cmds: seq<Cmd>, t: Screen)
    returns (cmds': seq<Cmd>, u: Screen)
    requires Tape(r, ab, cmds, t, 0)
    requires Terminal.Valid(t) && BlankFrom(t, RowStart(t.row + 1, t.cols))
    ensures Tape(r, ab + CLEAR_ROW, cmds', u, 0) && SameSize(t, u)
    ensures u.row == t.row && u.col == 0 && !u.wrap
    ensures BlankFrom(u, RowStart(u.row, u.cols)) && SameBefore(t, u, RowStart(t.row, t.cols))
  {
    hide Tape, Encode;
    RowBound(t, t.row);
    ClearRow(t);
    TapeClearRow(r, ab, cmds, t);
    cmds', u := cmds + [Cr] + [EraseRight], Apply(Apply(t, Cr), EraseRight);
  }

  ghost predicate SameSize(s: Screen, t: Screen) {
    Terminal.Valid(s) && Terminal.Valid(t) && t.cols == s.cols && t.rows == s.rows && |t.grid| == |s.grid|
  }

  /** The cells in front of `p`, above the prompt, are untouched. */
  ghost predicate SameBefore(s: Screen, t: Screen, p: nat) {
    p <= |s.grid| == |t.grid| && t.grid[..p] == s.grid[..p]
  }

  // ---------------------------------------------------------------- the steps of a refresh

  /** The row clearing starts on, and the one it ends on. */
  ghost function BottomRow(s: Screen, oldRows: nat, rpos: nat): nat {
    if oldRows > rpos then s.row + (oldRows - rpos) else s.row
  }

  ghost function TopRow(bottom: nat, oldRows: nat): nat {
    if oldRows <= 1 then bottom else if bottom + 1 >= oldRows then bottom + 1 - oldRows else 0
  }

  /** Blank every row used before, ending on the top one; `t0` is the screen made taller. */
  method EmitClear(oldRows: nat, rpos: nat, ghost r: Screen, ghost t0: Screen)
    returns (ab: string, ghost cmds: seq<Cmd>, ghost t: Screen)
    requires Window(r, t0, 0) && BottomRow(t0, oldRows, rpos) < r.rows
    requires BlankFrom(t0, RowStart(BottomRow(t0, oldRows, rpos) + 1, t0.cols))
    ensures Tape(r, ab, cmds, t, 0) && SameSize(t0, t)
    ensures t.row == TopRow(BottomRow(t0, oldRows, rpos), oldRows) && t.col == 0 && !t.wrap
    ensures SameBefore(t0, t, RowStart(t.row, t0.cols)) && BlankFrom(t, RowStart(t.row, t0.cols))
  {
    ghost var bottom := BottomRow(t0, oldRows, rpos);
    ghost var top := TopRow(bottom, oldRows);
    RowBound(t0, top);
    ab, cmds, t := "", [], t0;
    assert Tape(r, ab, cmds, t, 0);
    hide Tape, Encode;
    if oldRows > rpos {
      cmds, t := TapeDown(r, ab, cmds, t, oldRows - rpos);
      ab := ab + Encode(Down(oldRows - rpos));
    }
    var j := 0;
    while j + 1 < oldRows
      invariant j == 0 || j < oldRows
      invariant Tape(r, ab, cmds, t, 0) && SameSize(t0, t)
      invariant t.row == (if bottom >= j then bottom - j else 0)
      invariant BlankFrom(t, RowStart(t.row + 1, t.cols))
      invariant SameBefore(t0, t, RowStart(top, t0.cols))
    {
      ghost var cmds', u := TapeClearUp(r, ab, cmds, t, top);
      ab, cmds, t := ab + CLEAR_UP, cmds', u;
      j := j + 1;
    }
    ghost var cmds', u := TapeClearTop(r, ab, cmds, t);
    ab, cmds, t := ab + CLEAR_ROW, cmds', u;
  }

  /** The rows from `base` on show exactly `text`, wrapped at the screen's width, with every
      cell after it blank. */
  ghost predicate Shown(scr: Screen, base: nat, text: string) {
    var p := RowStart(base, scr.cols);
    && p + |text| <= |scr.grid|
    && scr.grid[p..p + |text|] == text
    && BlankFrom(scr, p + |text|)
  }

  /** The prompt in its colour, then the text, however far that scrolls. */
  method EmitText(ab0: string, ghost cmds0: seq<Cmd>, ghost t0: Screen, ghost r: Screen,
                  colour: seq<Cmd>, prompt: string, text: string, ghost rows: nat)
    returns (ab: string, ghost cmds: seq<Cmd>, ghost t: Screen)
    requires Tape(r, ab0, cmds0, t0, 0) && Terminal.Valid(t0) && t0.col == 0 && !t0.wrap
    requires BlankFrom(t0, RowStart(t0.row, t0.cols))
    requires |colour| <= 1 && forall c :: c in colour ==> c.Sgr? && Sendable(c)
    requires prompt != "" && forall c :: c in prompt + text ==> Printable(c)
    requires Covers(rows, |prompt| + |text|, t0.cols)
    requires RowStart(t0.row, t0.cols) + |prompt| + |text| <= |t0.grid|
    ensures SameSize(t0, t) && SameBefore(t0, t, RowStart(t0.row, t0.cols))
    ensures Tape(r, ab, cmds, t, Moved(0, t.row, r.rows))
    ensures Shown(t, t0.row, prompt + text) && t.row + 1 == t0.row + rows
    ensures ab == ab0 + (if colour == [] then "" else Encode(colour[0])) + prompt + [ESC, '[', 'm'] + text
  {
    ColourOff();
    hide Tape, Encode, Covers, BlankFrom, Shown, Sendable;
    ab, cmds, t := ab0, cmds0, t0;
    ghost var p := RowStart(t0.row, t0.cols);
    if colour != [] {
      cmds := TapeColour(r, ab, cmds, t, 0, colour[0]);
      ab := ab + Encode(colour[0]);
    }
    assert forall c :: c in prompt ==> c in prompt + text;
    assert forall c :: c in text ==> c in prompt + text;
    cmds, t := TapePuts(r, ab, cmds, t, 0, prompt, p);
    ab := ab + prompt;
    ghost var mid, off := t.grid, Moved(0, t.row, r.rows);
    cmds := TapeColour(r, ab, cmds, t, off, Sgr(""));
    ab := ab + Encode(Sgr(""));
    ghost var was := t;
    cmds, t := TapePuts(r, ab, cmds, t, off, text, p + |prompt|);
    ab := ab + text;
    TextDone(t0, mid, t, p, prompt, text, rows);
    Downward(was, t, p + |prompt|, p + |prompt| + |text|);
    MovedTwice(0, was.row, t.row, r.rows);
  }

  lemma ColourOff()
    ensures Sendable(Sgr("")) && Encode(Sgr("")) == [ESC, '[', 'm']
    ensures forall s: string :: s + "" == s
  {
  }

  lemma Downward(s: Screen, t: Screen, p: nat, q: nat)
    requires SameSize(s, t) && At(s, p) && At(t, q) && p <= q && (p == q ==> s == t) && (p < q ==> t.wrap || t.col > 0)
    ensures s.row <= t.row
  {
    RowStartMono(t.row + 1, s.row, s.cols);
  }

  lemma MovedTwice(off: nat, a: nat, b: nat, rows: nat)
    requires a <= b
    ensures Moved(Moved(off, a, rows), b, rows) == Moved(off, b, rows)
  {
  }

  lemma TextDone(scr0: Screen, mid: string, scr: Screen, p: nat, prompt: string, text: string, rows: nat)
    requires SameSize(scr0, scr) && p + |prompt| + |text| <= |scr0.grid| && BlankFrom(scr0, p)
    requires p == RowStart(scr0.row, scr0.cols) && prompt != ""
    requires At(scr, p + |prompt| + |text|) && (scr.wrap || scr.col > 0)
    requires mid == Splice(scr0.grid, p, prompt) && scr.grid == Splice(mid, p + |prompt|, text)
    requires Covers(rows, |prompt| + |text|, scr0.cols)
    ensures SameBefore(scr0, scr, RowStart(scr0.row, scr0.cols))
    ensures Shown(scr, scr0.row, prompt + text) && scr.row + 1 == scr0.row + rows
  {
    LastRow(scr, scr0.row, |prompt| + |text|, rows);
    SpliceTwice(scr0, scr, p, prompt, text);
  }

  lemma SpliceTwice(s: Screen, t: Screen, p: nat, a: string, b: string)
    requires p + |a + b| <= |s.grid| && BlankFrom(s, p)
    requires t.grid == Splice(Splice(s.grid, p, a), p + |a|, b)
    ensures |t.grid| == |s.grid| && t.grid[..p] == s.grid[..p]
    ensures t.grid[p..p + |a + b|] == a + b && BlankFrom(t, p + |a + b|)
  {
    var g := Splice(s.grid, p, a);
    assert g[..p] == s.grid[..p] && g[p..p + |a|] == a;
    assert g[p + |a|..] == s.grid[p + |a|..];
    assert t.grid[..p + |a|] == g[..p + |a|];
    assert t.grid[..p] == g[..p];
    assert t.grid[p..p + |a|] == g[p..p + |a|];
    var q := p + |a + b|;
    assert t.grid[p + |a|..q] == b;
    assert t.grid[p..q] == t.grid[p..p + |a|] + t.grid[p + |a|..q];
    forall i | q <= i < |t.grid| ensures t.grid[i] == ' ' {
      assert t.grid[i] == g[i] == s.grid[i];
    }
  }

  lemma TapeNewline(r: Screen, ab: string, cmds: seq<Cmd>, t: Screen, off: nat)
    returns (cmds': seq<Cmd>, u: Screen)
    requires Tape(r, ab, cmds, t, off) && Terminal.Valid(t) && t.row + 1 < t.rows
    ensures u == t.(row := t.row + 1, col := 0, wrap := false)
    ensures Tape(r, ab + (Encode(Lf) + Encode(Cr)), cmds', u, Moved(off, u.row, r.rows))
  {
    hide Tape, Encode;
    TapeSpot(r, ab, cmds, t, off);
    TapeSnoc(r, ab, cmds, t, off, Lf);
    TapeStill(r, ab + Encode(Lf), cmds + [Lf], Apply(t, Lf), Moved(off, t.row + 1, r.rows), Cr);
    Append(ab, Encode(Lf), Encode(Cr));
    cmds', u := cmds + [Lf] + [Cr], Apply(Apply(t, Lf), Cr);
  }

  lemma TapeUp(r: Screen, ab: string, cmds: seq<Cmd>, t: Screen, off: nat, n: nat)
    returns (cmds': seq<Cmd>, u: Screen)
    requires Tape(r, ab, cmds, t, off) && Terminal.Valid(t) && 0 < n && off + n <= t.row
    ensures Tape(r, ab + Encode(Up(n)), cmds', u, off) && u == t.(row := t.row - n, wrap := false)
  {
    hide Tape, Encode;
    TapeStill(r, ab, cmds, t, off, Up(n));
    cmds', u := cmds + [Up(n)], Apply(t, Up(n));
  }

  lemma TapeColumn(r: Screen, ab: string, cmds: seq<Cmd>, t: Screen, off: nat, col: nat)
    returns (cmds': seq<Cmd>, u: Screen)
    requires Tape(r, ab, cmds, t, off) && Terminal.Valid(t) && col < t.cols
    ensures Tape(r, ab + (Encode(Cr) + if col > 0 then Encode(Right(col)) else ""), cmds', u, off)
    ensures u == t.(col := col, wrap := false)
  {
    hide Tape, Encode;
    TapeStill(r, ab, cmds, t, off, Cr);
    cmds', u := cmds + [Cr], Apply(t, Cr);
    if col > 0 {
      TapeStill(r, ab + Encode(Cr), cmds', u, off, Right(col));
      Append(ab, Encode(Cr), Encode(Right(col)));
      cmds', u := cmds' + [Right(col)], Apply(u, Right(col));
    } else {
      assert Encode(Cr) + "" == Encode(Cr);
    }
  }

  /** The numbers of a refresh: the rows of the text, with the newline that is added when
      the cursor is at its end and its last row is full; the cursor's row and column. */
  lemma RowPlan(plen: nat, pos: nat, len: nat, w: nat)
    requires 0 < plen < w && pos <= len
    ensures var newline := pos != 0 && pos == len && (pos + plen) % w == 0;
            var rows, rpos2 := (plen + len + w - 1) / w, (plen + pos + w) / w;
            && Covers(rows, plen + len, w)
            && (newline ==> plen + len == RowStart(rows, w))
            && 0 < rpos2 <= (if newline then rows + 1 else rows)
            && plen + pos == RowStart(rpos2 - 1, w) + (plen + pos) % w
  {
    RowsOf(plen + len, w);
    RowOf(plen + pos, w);
    NextRowOf(plen + pos, w);
    var newline := pos != 0 && pos == len && (pos + plen) % w == 0;
    assert plen + pos == pos + plen;
    CursorInRows(plen, pos, len, w, (plen + len + w - 1) / w, (plen + pos + w) / w, (plen + pos) % w, newline);
  }

  lemma CursorInRows(plen: nat, pos: nat, len: nat, w: nat, rows: nat, rpos2: nat, col: nat, newline: bool)
    requires 0 < plen < w && pos <= len && col < w && 0 < rpos2
    requires Covers(rows, plen + len, w) && plen + pos == RowStart(rpos2 - 1, w) + col
    requires newline <==> pos != 0 && pos == len && col == 0
    ensures newline ==> plen + len == RowStart(rows, w)
    ensures rpos2 <= (if newline then rows + 1 else rows)
  {
    RowStartMono(rows, rpos2 - 1, w);
    RowStartMono(rpos2 - 1, rows - 1, w);
    RowStartMono(1, rows, w);
  }

  /** From the end of the text to row `rpos2` of the prompt's rows and column `col`. */
  method EmitCursor(ab0: string, ghost cmds0: seq<Cmd>, ghost t0: Screen, ghost r: Screen, ghost base: nat,
                    rows: nat, newline: bool, rpos2: nat, col: nat)
    returns (ab: string, ghost cmds: seq<Cmd>, ghost t: Screen)
    requires Terminal.Valid(t0) && Tape(r, ab0, cmds0, t0, Moved(0, t0.row, r.rows))
    requires t0.row + 1 + (if newline then 1 else 0) == base + rows <= t0.rows
    requires 0 < rpos2 <= rows <= r.rows && col < t0.cols
    ensures Tape(r, ab, cmds, t, Moved(0, base + rows - 1, r.rows))
    ensures t == t0.(row := base + rpos2 - 1, col := col, wrap := false)
  {
    hide Tape, Encode;
    ab, cmds, t := ab0, cmds0, t0;
    if newline {
      ghost var cmds', u := TapeNewline(r, ab, cmds, t, Moved(0, t.row, r.rows));
      ab, cmds, t := ab + (Encode(Lf) + Encode(Cr)), cmds', u;
    }
    ghost var off := Moved(0, base + rows - 1, r.rows);
    if rows > rpos2 {
      ghost var cmds', u := TapeUp(r, ab, cmds, t, off, rows - rpos2);
      ab, cmds, t := ab + Encode(Up(rows - rpos2)), cmds', u;
    }
    ghost var cmds', u := TapeColumn(r, ab, cmds, t, off, col);
    ab, cmds, t := ab + (Encode(Cr) + if col > 0 then Encode(Right(col)) else ""), cmds', u;
  }

  // ---------------------------------------------------------------- the editor's state

  class LineState {
    const buf: array<char>
    const buflen: nat           // one less than the size of the buffer
    const prompt: string
    const colour: seq<Cmd>      // currentPromptAnsiCode
    const cols: nat
    const tty: Tty
    const guard: char           // the byte of memory in front of the buffer
    var len: nat
    var pos: nat
    var oldpos: nat
    var maxrows: nat
    var historyIndex: nat
    ghost var nul: nat          // where the text ends for a C string function
    ghost var base: nat         // the screen row the prompt starts on

    /** The start of `linenoiseEdit`: an empty line, with the prompt written on the row the
        cursor is on. The rows from there on are blank. */
    constructor (buf: array<char>, prompt: string, colour: seq<Cmd>, tty: Tty, guard: char)
      requires buf.Length > 1 && 0 < |prompt| < tty.screen.cols
      requires forall c :: c in prompt ==> Printable(c)
      requires |colour| <= 1 && (forall c :: c in colour ==> c.Sgr? && Sendable(c))
      requires Terminal.Valid(tty.screen) && tty.screen.col == 0 && !tty.screen.wrap
      requires BlankFrom(tty.screen, RowStart(tty.screen.row, tty.screen.cols))
      modifies buf, tty
      ensures Ready() && Text() == "" && CString() == "" && pos == 0 == historyIndex
      ensures this.buf == buf && this.prompt == prompt && this.tty == tty && this.guard == guard
      ensures buflen == buf.Length - 1 && base == old(tty.screen.row)
      ensures SameBefore(old(tty.screen), tty.screen, RowStart(base, cols))
    {
      hide Shown, BlankFrom, Decode, SameBefore;
      this.buf, buflen, this.prompt, this.colour := buf, buf.Length - 1, prompt, colour;
      this.tty, this.guard, cols := tty, guard, tty.screen.cols;
      len, pos, oldpos, maxrows, historyIndex := 0, 0, 0, 0, 0;
      nul, base := 0, tty.screen.row;
      new;
      buf[0] := '\0';
      WritePrompt(tty.screen, prompt);
      tty.Write(prompt);
      StartsReady(RowStart(base, cols) + |prompt|);
    }

    /** A prompt shorter than a row, printable text, and a terminator at or after its end. */
    ghost predicate Valid()
      reads this, buf
    {
      && 0 < buflen && buf.Length == buflen + 1
      && 0 < |prompt| < cols && (forall c :: c in prompt ==> Printable(c))
      && |colour| <= 1 && (forall c :: c in colour ==> c.Sgr? && Sendable(c))
      && pos <= len <= nul <= buflen && buf[nul] == '\0'
      && forall i :: 0 <= i < nul ==> Printable(buf[i])
    }

    ghost function Text(): string
      requires Valid()
      reads this, buf
    {
      buf[..len]
    }

    ghost function Line(): Line
      requires Valid()
      reads this, buf
    {
      LineText.Line(buf[..pos], buf[pos..len])
    }

    /** What `strlen` and `strdup` take the text to be. */
    ghost function CString(): string
      requires Valid()
      reads this, buf
    {
      buf[..nul]
    }

    /** A text of this length fits with the cursor anywhere in it. */
    ghost predicate HasRoom(length: nat)
      reads this, tty
    {
      |prompt| + length < |tty.screen.grid|
    }

    /** The bookkeeping of earlier refreshes. */
    ghost predicate Counted()
      reads this, tty
    {
      && Terminal.Valid(tty.screen) && tty.screen.cols == cols
      && |prompt| + oldpos < RowStart(Max(1, maxrows), cols)
      && base + Max(1, maxrows) <= tty.screen.rows
    }

    /** The cursor is on the row of cell `plen + oldpos`, and rows never used are blank. */
    ghost predicate Tracks()
      reads this, tty
    {
      && Counted()
      && InRow(tty.screen.row, RowStart(base, cols) + |prompt| + oldpos, cols)
      && BlankFrom(tty.screen, RowStart(base + Max(1, maxrows), cols))
    }

    /** After the screen was cleared: blank, with the cursor in its corner. */
    ghost predicate Cleared()
      reads this, tty
    {
      Counted() && base == 0 == tty.screen.row && BlankFrom(tty.screen, 0)
    }

    /** The screen shows exactly the prompt and the text, and the cursor is on its cell. */
    ghost predicate Showing()
      requires Valid()
      reads this, buf, tty
    {
      && Shown(tty.screen, base, prompt + Text())
      && At(tty.screen, RowStart(base, tty.screen.cols) + |prompt| + pos)
      && !tty.screen.wrap
    }

    lemma ClearPlan(rpos: nat)
      requires Valid() && (Tracks() || Cleared())
      requires rpos > 0 && InRow(rpos - 1, |prompt| + oldpos, cols)
      ensures Counted()
      ensures var bottom := BottomRow(tty.screen, maxrows, rpos);
              && bottom < tty.screen.rows && TopRow(bottom, maxrows) == base
              && BlankFrom(tty.screen, RowStart(bottom + 1, cols))
    {
      RowStartMono(Max(1, maxrows), rpos - 1, cols);
      assert rpos <= Max(1, maxrows);
      if Cleared() {
        BlankFurther(tty.screen, 0, RowStart(BottomRow(tty.screen, maxrows, rpos) + 1, cols));
      } else {
        RowStartAdd(base, rpos - 1, cols);
        InRowUnique(tty.screen.row, base + rpos - 1, RowStart(base, cols) + |prompt| + oldpos, cols);
      }
    }

    lemma PrintableText()
      requires Valid()
      ensures forall c :: c in prompt + buf[..len] ==> Printable(c)
    {
    }

    /** The screen has a cell for every character of the prompt and the text, and one for the
        cursor. */
    ghost predicate Fits()
      reads this, tty
    {
      |prompt| + Max(len, pos + 1) <= |tty.screen.grid|
    }

    /** No other line can be shown. */
    lemma ShownFits()
      requires Valid() && Tracks() && Showing()
      ensures Fits()
    {
      RowBound(tty.screen, tty.screen.row);
      assert |prompt + Text()| == |prompt| + len;
    }

    /** The rows the text and the cursor take are not more than the screen has. */
    lemma RowsFit(rows: nat, used: nat)
      requires Valid() && Fits() && Counted() && Covers(rows, |prompt| + len, cols)
      requires used == rows || (used == rows + 1 && pos == len && |prompt| + len == RowStart(rows, cols))
      ensures used <= tty.screen.rows
    {
      RowStartMono(tty.screen.rows, used - 1, cols);
    }

    /** The text or the cursor after it reaches the last row of the screen. */
    ghost predicate ReachesBottom()
      reads this, tty
    {
      tty.screen.rows > 0 && RowStart(tty.screen.rows - 1, cols) < RowStart(base, cols) + |prompt| + Max(len, pos + 1)
    }

    lemma AtBottom(rows: nat, used: nat)
      requires base + used == tty.screen.rows && used > 0 && Covers(rows, |prompt| + len, cols)
      requires used == rows || (used == rows + 1 && pos == len && |prompt| + len == RowStart(rows, cols))
      ensures ReachesBottom()
    {
      RowStartAdd(base, used - 1, cols);
    }

    /** What a refresh may change around the text: the prompt goes up with what is above it,
        and only if the text then reaches the last row. */
    twostate predicate Settled()
      reads this, tty
    {
      && ScrolledAbove(old(tty.screen), old(base), tty.screen, base)
      && (base < old(base) ==> ReachesBottom())
    }

    /** What `Redraw` leaves, in its own terms. */
    ghost predicate Redrawn(rpos2: nat)
      requires Valid() && rpos2 > 0
      reads this, buf, tty
    {
      && Terminal.Valid(tty.screen) && tty.screen.cols == cols
      && |prompt| + pos == RowStart(rpos2 - 1, cols) + tty.screen.col
      && Shown(tty.screen, base, prompt + buf[..len])
      && tty.screen.row == base + rpos2 - 1 && !tty.screen.wrap
    }

    lemma NowShowing(rpos2: nat)
      requires Valid() && rpos2 > 0 && Redrawn(rpos2)
      ensures Showing()
      ensures InRow(tty.screen.row, RowStart(base, cols) + |prompt| + pos, cols)
    {
      RowStartAdd(base, rpos2 - 1, cols);
    }

    lemma NowTracks(rows: nat, rpos2: nat)
      requires Valid() && 0 < rpos2 <= rows <= maxrows && Redrawn(rpos2)
      requires oldpos == pos && base + maxrows <= tty.screen.rows
      requires |prompt| + len <= RowStart(rows, cols)
      ensures Tracks()
    {
      hide Showing, InRow, Shown, BlankFrom, At;
      NowShowing(rpos2);
      ShownBlank(tty.screen, base, prompt + buf[..len]);
      RowStartAdd(base, maxrows, cols);
      RowStartMono(rows, maxrows, cols);
      RowStartMono(rpos2, maxrows, cols);
      assert |prompt + buf[..len]| == |prompt| + len;
      BlankFurther(tty.screen, RowStart(base, cols) + |prompt| + len, RowStart(base + maxrows, cols));
    }

    lemma ShownBlank(scr: Screen, base: nat, text: string)
      requires Shown(scr, base, text)
      ensures BlankFrom(scr, RowStart(base, scr.cols) + |text|)
    {
    }

    /** `refreshMultiLine`, from the row numbers on. */
    method RefreshRows(rpos: nat, rows: nat, newline: bool, rpos2: nat, col: nat)
      requires Valid() && Fits() && (Tracks() || Cleared())
      requires rpos > 0 && InRow(rpos - 1, |prompt| + oldpos, cols)
      requires Covers(rows, |prompt| + len, cols) && (newline ==> pos == len && |prompt| + len == RowStart(rows, cols))
      requires 0 < rpos2 <= (if newline then rows + 1 else rows) && col < cols
      requires |prompt| + pos == RowStart(rpos2 - 1, cols) + col
      modifies this`oldpos, this`maxrows, this`base, tty
      ensures Tracks() && Showing() && oldpos == pos && Settled() && |tty.screen.grid| == old(|tty.screen.grid|)
    {
      hide Tracks, Cleared, Showing, InRow, BlankFrom, Shown, ScrolledAbove, ReachesBottom;
      hide RowStart, Covers, BottomRow, TopRow, Sendable;
      var used := if newline then rows + 1 else rows;
      ClearPlan(rpos);
      PrintableText();
      RowsFit(rows, used);
      ghost var up := Redraw(tty, base, colour, prompt, buf[..len], maxrows, rpos, rows, newline, rpos2, col);
      base := base - up;
      maxrows := Max(used, maxrows);
      oldpos := pos;
      assert Redrawn(rpos2);
      CoversMore(rows, used, |prompt| + len, cols);
      NowShowing(rpos2);
      NowTracks(used, rpos2);
      if up > 0 {
        AtBottom(rows, used);
      }
    }

    /** `refreshMultiLine` */
    method RefreshMultiLine()
      requires Valid() && Fits() && (Tracks() || Cleared())
      modifies this`oldpos, this`maxrows, this`base, tty
      ensures Valid() && Tracks() && Showing() && oldpos == pos && Settled()
      ensures |tty.screen.grid| == old(|tty.screen.grid|)
    {
      hide Tracks, Cleared, Showing, RowStart, InRow, Covers, Settled, Fits;
      var plen := |prompt|;
      var rows := (plen + len + cols - 1) / cols;
      var rpos := (plen + oldpos + cols) / cols;
      var newline := pos != 0 && pos == len && (pos + plen) % cols == 0;
      var rpos2 := (plen + pos + cols) / cols;
      var col := (plen + pos) % cols;
      RowOf(plen + oldpos, cols);
      NextRowOf(plen + oldpos, cols);
      RowPlan(plen, pos, len, cols);
      RefreshRows(rpos, rows, newline, rpos2, col);
    }

    // -------------------------------------------------------------- editing

    /** Between commands the screen shows the line. */
    ghost predicate Ready()
      reads this, buf, tty
    {
      Valid() && Tracks() && Showing() && HasRoom(len) && oldpos == pos
    }

    /** What each command does: its meaning on the text, shown on the screen, with nothing
        above the prompt touched but what scrolled away. */
    twostate predicate Edited(cmd: Command)
      requires old(Valid())
      reads this, buf, tty
    {
      && Ready() && Line() == Edit(cmd, old(Line()), buflen)
      && historyIndex == old(historyIndex) && Settled()
    }

    lemma StartsReady(cell: nat)
      requires Valid() && len == pos == oldpos == maxrows == 0 && tty.screen.cols == cols && Terminal.Valid(tty.screen)
      requires base == tty.screen.row && !tty.screen.wrap && cell == RowStart(base, cols) + |prompt|
      requires Shown(tty.screen, base, prompt) && At(tty.screen, cell)
      requires BlankFrom(tty.screen, RowStart(base + 1, cols))
      ensures Ready()
    {
      assert prompt + Text() == prompt;
      RowBound(tty.screen, base);
    }

    lemma Unmoved()
      requires Ready()
      ensures ScrolledAbove(tty.screen, base, tty.screen, base)
    {
    }

    ghost predicate Terminated()
      reads this
    {
      nul == len
    }

    /** `linenoiseEditInsert` */
    method Insert(c: char)
      requires Ready() && Printable(c) && (len < buflen ==> HasRoom(len + 1))
      modifies this, buf, tty
      ensures Edited(Command.Insert(c))
      ensures old(len) < buflen || old(Terminated()) ==> Terminated()
    {
      hide Showing, ScrolledAbove, ReachesBottom, InRow, BlankFrom, RowStart;
      Unmoved();
      if len < buflen {
        PutChar(c);
        RefreshMultiLine();
      }
    }

    method PutChar(c: char)
      requires Valid() && Printable(c) && len < buflen
      modifies this`len, this`pos, this`nul, buf
      ensures Valid() && Terminated() && Line() == Edit(Command.Insert(c), old(Line()), buflen)
    {
      if len == pos {
        AppendChar(c);
      } else {
        OpenGap(c);
      }
    }

    method AppendChar(c: char)
      requires Valid() && Printable(c) && pos == len < buflen
      modifies this`len, this`pos, this`nul, buf
      ensures Valid() && Terminated() && Line() == LineText.Line(old(Line().before) + [c], "")
    {
      buf[pos] := c;
      pos := pos + 1;
      len := len + 1;
      buf[len] := '\0';
      nul := len;
    }

    method OpenGap(c: char)
      requires Valid() && Printable(c) && pos < len < buflen
      modifies this`len, this`pos, this`nul, buf
      ensures Valid() && Terminated() && Line() == LineText.Line(old(Line().before) + [c], old(Line().after))
    {
      MemMove(buf, pos + 1, pos, len - pos);
      buf[pos] := c;
      len := len + 1;
      pos := pos + 1;
      buf[len] := '\0';
      nul := len;
    }

    method MoveLeft()
      requires Ready()
      modifies this, tty
      ensures Edited(Command.MoveLeft) && nul == old(nul)
    {
      hide Showing, ScrolledAbove, ReachesBottom, InRow, BlankFrom, RowStart;
      Unmoved();
      if pos > 0 {
        pos := pos - 1;
        RefreshMultiLine();
      }
    }

    method MoveRight()
      requires Ready()
      modifies this, tty
      ensures Edited(Command.MoveRight) && nul == old(nul)
    {
      hide Showing, ScrolledAbove, ReachesBottom, InRow, BlankFrom, RowStart;
      Unmoved();
      if pos != len {
        pos := pos + 1;
        RefreshMultiLine();
      }
    }

    method MoveHome()
      requires Ready()
      modifies this, tty
      ensures Edited(Command.MoveHome) && nul == old(nul)
    {
      hide Showing, ScrolledAbove, ReachesBottom, InRow, BlankFrom, RowStart;
      Unmoved();
      if pos != 0 {
        pos := 0;
        RefreshMultiLine();
      }
    }

    method MoveEnd()
      requires Ready()
      modifies this, tty
      ensures Edited(Command.MoveEnd) && nul == old(nul) && pos == len
    {
      hide Showing, ScrolledAbove, ReachesBottom, InRow, BlankFrom, RowStart;
      Unmoved();
      if pos != len {
        pos := len;
        RefreshMultiLine();
      }
    }

    /** `linenoiseEditMoveWordEnd` */
    method MoveWordEnd()
      requires Ready()
      modifies this, tty
      ensures Edited(Command.MoveWordEnd) && nul == old(nul)
    {
      hide Showing, ScrolledAbove, ReachesBottom, InRow, BlankFrom, RowStart, NextWord;
      Unmoved();
      if len == 0 || pos >= len {
        return;
      }
      JumpWordEnd();
      RefreshMultiLine();
    }

    method JumpWordEnd()
      requires Valid()
      modifies this`pos
      ensures Valid() && Line() == Edit(Command.MoveWordEnd, old(Line()), buflen)
    {
      hide SpacesAhead, WordAhead, NextWord;
      ghost var line, n := Line(), NextWord(Line().after);
      pos := WordEnd(pos);
      assert buf[..pos] == line.before + line.after[..n] && buf[pos..len] == line.after[n..];
    }

    /** The scan shared by word-end and delete-next-word. */
    method WordEnd(from: nat) returns (p: nat)
      requires Valid() && from <= len
      ensures p == from + NextWord(buf[from..len]) <= len
    {
      p := from;
      while p < len && buf[p] == ' '
        invariant from <= p <= len
        invariant SpacesAhead(buf[from..len]) == p - from + SpacesAhead(buf[p..len])
      {
        assert buf[p..len][1..] == buf[p + 1..len];
        p := p + 1;
      }
      ghost var q := p;
      assert SpacesAhead(buf[p..len]) == 0;
      assert buf[from..len][q - from..] == buf[q..len];
      while p < len && buf[p] != ' '
        invariant q <= p <= len
        invariant WordAhead(buf[q..len]) == p - q + WordAhead(buf[p..len])
      {
        assert buf[p..len][1..] == buf[p + 1..len];
        p := p + 1;
      }
    }

    /** `linenoiseEditMoveWordStart`. At position 0 of a non-empty line it looks at the byte
        in front of the buffer, and exactly if that is a space it leaves the buffer for good,
        where the model stops it. */
    method MoveWordStart() returns (inside: bool)
      requires Ready()
      modifies this, tty
      ensures inside <==> old(len) == 0 || old(pos) > 0 || guard != ' '
      ensures inside ==> Edited(Command.MoveWordStart) && nul == old(nul)
      ensures !inside ==> Ready() && unchanged(this) && unchanged(tty)
    {
      hide Showing, ScrolledAbove, ReachesBottom, InRow, BlankFrom, RowStart, Edit;
      Unmoved();
      if len == 0 {
        assert Line() == LineText.Line("", "");
        NoWordStart(buflen);
        return true;
      }
      inside := JumpWordStart();
      if inside {
        RefreshMultiLine();
      }
    }

    lemma NoWordStart(capacity: nat)
      ensures Edit(Command.MoveWordStart, LineText.Line("", ""), capacity) == LineText.Line("", "")
    {
    }

    method JumpWordStart() returns (inside: bool)
      requires Valid() && len > 0
      modifies this`pos
      ensures Valid() && (inside <==> old(pos) > 0 || guard != ' ')
      ensures inside ==> Line() == Edit(Command.MoveWordStart, old(Line()), buflen)
      ensures !inside ==> pos == old(pos)
    {
      ghost var line := Line();
      PrefixBack(line.before);
      var p := WordStart();
      inside := p >= 0;
      if inside {
        pos := p;
        assert line.before[..pos] == buf[..pos] && line.before[pos..] + line.after == buf[pos..len];
      }
    }

    /** The scan, by an index that may go below 0. */
    method WordStart() returns (p: int)
      requires Valid() && len > 0
      ensures p < 0 <==> pos == 0 && guard == ' '
      ensures p >= 0 ==> p == |DropWordBack(DropSpacesBack(buf[..pos]))| && p <= pos
    {
      p := BackOverSpaces();
      if p < 0 {
        return;
      }
      ghost var start := DropWordBack(DropSpacesBack(buf[..pos]));
      while p > 0 && buf[p - 1] != ' '
        invariant 0 <= p <= pos && DropWordBack(buf[..p]) == start
      {
        assert buf[..p][..p - 1] == buf[..p - 1];
        p := p - 1;
      }
    }

    method BackOverSpaces() returns (p: int)
      requires Valid() && len > 0
      ensures p < 0 <==> pos == 0 && guard == ' '
      ensures p >= 0 ==> p <= pos && DropWordBack(buf[..p]) == DropWordBack(DropSpacesBack(buf[..pos]))
    {
      ghost var trimmed := DropSpacesBack(buf[..pos]);
      p := pos;
      if (if p == 0 then guard else buf[p - 1]) == ' ' {
        p := p - 1;
      }
      if p < 0 {
        return;
      }
      if buf[p] == ' ' {
        while p > 0 && buf[p] == ' '
          invariant 0 <= p <= pos
          invariant p < pos ==> DropSpacesBack(buf[..p + 1]) == trimmed
          invariant p == pos ==> trimmed == buf[..pos]
        {
          assert buf[..p + 1][..p] == buf[..p];
          p := p - 1;
        }
      }
      assert buf[..p + 1][..p] == buf[..p];
    }

    /** `linenoiseEditBackspace` */
    method Backspace()
      requires Ready()
      modifies this, buf, tty
      ensures Edited(Command.Backspace)
      ensures old(pos > 0) || old(Terminated()) ==> Terminated()
    {
      if pos > 0 && len > 0 {
        CutBefore();
        RefreshMultiLine();
      }
    }

    method CutBefore()
      requires Valid() && pos > 0
      modifies this`len, this`pos, this`nul, buf
      ensures Valid() && Terminated() && len == old(len) - 1
      ensures Line() == LineText.Line(old(buf[..pos - 1]), old(Line().after))
    {
      MemMove(buf, pos - 1, pos, len - pos);
      pos := pos - 1;
      len := len - 1;
      buf[len] := '\0';
      nul := len;
    }

    /** `linenoiseEditDelete` */
    method Delete()
      requires Ready()
      modifies this, buf, tty
      ensures Edited(Command.Delete)
      ensures old(pos < len) || old(Terminated()) ==> Terminated()
    {
      hide Showing, ScrolledAbove, ReachesBottom, InRow, BlankFrom, RowStart;
      Unmoved();
      if len > 0 && pos < len {
        CutAfter();
        RefreshMultiLine();
      }
    }

    method CutAfter()
      requires Valid() && pos < len
      modifies this`len, this`nul, buf
      ensures Valid() && Terminated() && len == old(len) - 1
      ensures Line() == LineText.Line(old(Line().before), old(buf[pos + 1..len]))
    {
      MemMove(buf, pos, pos + 1, len - pos - 1);
      len := len - 1;
      buf[len] := '\0';
      nul := len;
    }

    /** `linenoiseEditDeletePrevWord`: it moves the byte after the text as well. */
    method DeletePrevWord()
      requires Ready()
      modifies this, buf, tty
      ensures Edited(Command.DeletePrevWord)
      ensures Terminated() <==> old(Terminated())
    {
      CutPrevWord();
      RefreshMultiLine();
    }

    method CutPrevWord()
      requires Valid()
      modifies this`len, this`pos, this`nul, buf
      ensures Valid() && (Terminated() <==> old(Terminated())) && len <= old(len)
      ensures Line() == Edit(Command.DeletePrevWord, old(Line()), buflen)
    {
      var p := PrevWord();
      CloseBack(p);
    }

    method CloseBack(to: nat)
      requires Valid() && to <= pos
      modifies this`len, this`pos, this`nul, buf
      ensures Valid() && (Terminated() <==> old(Terminated())) && len == old(len) - (old(pos) - to)
      ensures Line() == LineText.Line(old(buf[..to]), old(Line().after))
    {
      ghost var moved := buf[pos..len + 1];
      assert moved[..len - pos] == buf[pos..len];
      MemMove(buf, to, pos, len - pos + 1);
      assert buf[to..to + (len - pos)] == buf[to..to + (len - pos + 1)][..len - pos];
      nul := if nul == len then len - (pos - to) else nul;
      len := len - (pos - to);
      pos := to;
    }

    /** The scan of delete-previous-word. */
    method PrevWord() returns (p: nat)
      requires Valid()
      ensures p <= pos && buf[..p] == DropWordBack(DropSpacesBack(buf[..pos]))
    {
      p := pos;
      while p > 0 && buf[p - 1] == ' '
        invariant p <= pos && DropSpacesBack(buf[..p]) == DropSpacesBack(buf[..pos])
      {
        assert buf[..p][..p - 1] == buf[..p - 1];
        p := p - 1;
      }
      ghost var trimmed := DropSpacesBack(buf[..pos]);
      while p > 0 && buf[p - 1] != ' '
        invariant p <= pos && DropWordBack(buf[..p]) == DropWordBack(trimmed)
      {
        assert buf[..p][..p - 1] == buf[..p - 1];
        p := p - 1;
      }
    }

    /** `linenoiseEditDeleteNextWord`: its move leaves the terminator behind, so when it
        deletes something the C string keeps a tail of the old text. */
    method DeleteNextWord()
      requires Ready()
      modifies this, buf, tty
      ensures Edited(Command.DeleteNextWord)
      ensures CString() == Text() + old(CString())[len..]
      ensures Terminated() <==> old(Terminated()) && NextWord(old(Line()).after) == 0
    {
      hide Showing, NextWord, SpacesAhead, WordAhead, Edit, SameBefore;
      CutNextWord();
      RefreshMultiLine();
    }

    /** So it goes with the text "ab" and the cursor in front of it: the line is empty, and
        still "ab" as a C string. */
    method StaleTail()
      requires Ready() && Text() == "ab" == CString() && pos == 0
      modifies this, buf, tty
      ensures Ready() && Text() == "" && CString() == "ab" && !Terminated()
    {
      assert Line().after == "ab" && Line().before == "";
      assert NextWord("ab") == 2 by {
        assert "ab"[0..] == "ab" && "ab"[1..] == "b" && "b"[1..] == "";
      }
      DeleteNextWord();
    }

    method CutNextWord()
      requires Valid()
      modifies this`len, buf
      ensures Valid() && len == old(len) - NextWord(old(Line()).after) && nul == old(nul)
      ensures Line() == Edit(Command.DeleteNextWord, old(Line()), buflen)
      ensures CString() == Text() + old(CString())[len..]
    {
      hide SpacesAhead, WordAhead;
      ghost var was := CString();
      var nextWordEnd := WordEnd(pos);
      CloseGap(nextWordEnd);
      assert buf[len..nul] == was[len..];
      assert CString() == Text() + buf[len..nul];
    }

    method CloseGap(end: nat)
      requires Valid() && pos <= end <= len
      modifies this`len, buf
      ensures Valid() && len == old(len) - (end - pos) && nul == old(nul)
      ensures Line() == LineText.Line(old(Line().before), old(buf[end..len]))
      ensures forall i :: len <= i < nul ==> buf[i] == old(buf[i])
    {
      hide Printable;
      MemMove(buf, pos, end, len - end);
      assert buf[nul] == '\0' && forall i :: 0 <= i < nul ==> Printable(buf[i]);
      len := len - (end - pos);
    }

    /** The swap command of the key loop. */
    method SwapChars()
      requires Ready()
      modifies this, buf, tty
      ensures Edited(Command.SwapChars) && nul == old(nul)
    {
      hide Showing, ScrolledAbove, ReachesBottom, InRow, BlankFrom, RowStart;
      Unmoved();
      if pos > 0 && pos < len {
        SwapAround();
        RefreshMultiLine();
      }
    }

    method SwapAround()
      requires Valid() && 0 < pos < len
      modifies this`pos, buf
      ensures Valid() && Line() == Edit(Command.SwapChars, old(Line()), buflen)
    {
      ghost var line := Line();
      var aux := buf[pos - 1];
      buf[pos - 1] := buf[pos];
      buf[pos] := aux;
      assert buf[..pos - 1] == line.before[..pos - 1];
      if pos != len - 1 {
        pos := pos + 1;
      }
    }

    method ClearLine()
      requires Ready()
      modifies this, buf, tty
      ensures Edited(Command.ClearLine) && Terminated()
    {
      buf[0] := '\0';
      pos, len, nul := 0, 0, 0;
      RefreshMultiLine();
    }

    method DeleteToEnd()
      requires Ready()
      modifies this, buf, tty
      ensures Edited(Command.DeleteToEnd) && Terminated()
    {
      buf[pos] := '\0';
      len, nul := pos, pos;
      RefreshMultiLine();
    }

    /** `linenoiseClearScreen` and the refresh after it: the prompt moves to the top row. */
    method ClearScreen()
      requires Ready()
      modifies this, tty
      ensures Ready() && Line() == old(Line()) && nul == old(nul) && base == 0 && historyIndex == old(historyIndex)
    {
      hide Run, Decode, Encode, Showing, Shown, InRow;
      ClearBytes(tty.screen);
      tty.Write(Encode(Home) + Encode(EraseAll));
      RowStartMono(0, base, cols);
      base := 0;
      RefreshMultiLine();
    }

    // -------------------------------------------------------------- history

    ghost function Browsing(h: History): Browse
      requires Valid() && h.Valid()
      reads this, buf, h, h.lines
    {
      Browse(h.Contents(), historyIndex, CString())
    }

    /** The history has an entry for the edited line, and all of it can be shown. */
    ghost predicate Browsable(h: History)
      requires Valid()
      reads this, buf, h, h.lines
    {
      && h.Valid() && InRange(Browsing(h))
      && forall e, c :: e in h.Contents() && c in e ==> Printable(c)
    }

    /** `linenoiseEditHistoryNext`: the edited text is what C takes it to be. */
    method HistoryNext(h: History, back: bool)
      requires Ready() && Browsable(h)
      requires var m := Move(Browsing(h), back, buflen); m.index != historyIndex ==> HasRoom(|m.text|)
      modifies this, buf, tty, h.lines
      ensures Ready() && Browsable(h) && Browsing(h) == Move(old(Browsing(h)), back, buflen)
      ensures Line() == if historyIndex == old(historyIndex) then old(Line()) else LineText.Line(CString(), "")
      ensures Settled()
    {
      var moved := BrowseStep(h, back);
      if moved {
        RefreshMultiLine();
      }
    }

    method BrowseStep(h: History, back: bool) returns (moved: bool)
      requires Valid() && Browsable(h)
      modifies this`len, this`pos, this`nul, this`historyIndex, buf, h.lines
      ensures Valid() && Browsable(h) && Browsing(h) == Move(old(Browsing(h)), back, buflen)
      ensures moved <==> historyIndex != old(historyIndex)
      ensures !moved ==> len == old(len) && pos == old(pos) && nul == old(nul) && buf[..] == old(buf[..])
      ensures moved ==> Terminated() && Line() == LineText.Line(CString(), "")
    {
      if h.len <= 1 {
        return false;
      }
      SaveCurrent(h);
      if (back && historyIndex + 1 == h.len) || (!back && historyIndex == 0) {
        return false;
      }
      Recall(h, if back then historyIndex + 1 else historyIndex - 1);
      return true;
    }

    method Recall(h: History, index: nat)
      requires Valid() && Browsable(h) && h.lines != null && index < h.len
      modifies this`len, this`pos, this`nul, this`historyIndex, buf
      ensures Valid() && Browsable(h) && h.Contents() == old(h.Contents())
      ensures CString() == Fit(h.Contents()[h.len - 1 - index], buflen) && historyIndex == index
      ensures Terminated() && Line() == LineText.Line(CString(), "")
    {
      historyIndex := index;
      assert h.Contents()[h.len - 1 - index] in h.Contents();
      Load(h.lines[h.len - 1 - index]);
    }

    /** `history[history_len - 1 - history_index] = strdup(buf)` */
    method SaveCurrent(h: History)
      requires Valid() && Browsable(h) && h.lines != null
      modifies h.lines
      ensures h.Valid() && Browsable(h)
      ensures h.Contents() == old(h.Contents())[h.len - 1 - historyIndex := CString()]
    {
      var n := StrLen();
      ghost var was := h.Contents();
      h.lines[h.len - 1 - historyIndex] := buf[..n];
      assert h.Contents() == was[h.len - 1 - historyIndex := CString()];
      forall e, c | e in h.Contents() && c in e ensures Printable(c) {
        if e !in was {
          assert e == CString();
        }
      }
    }

    method StrLen() returns (n: nat)
      requires Valid()
      ensures n == nul
    {
      n := 0;
      while buf[n] != '\0'
        invariant n <= nul
        decreases nul - n
      {
        n := n + 1;
      }
    }

    /** `strncpy` into the buffer, its terminator, and the length taken from it. */
    method Load(entry: string)
      requires Valid() && forall c :: c in entry ==> Printable(c)
      modifies this`len, this`pos, this`nul, buf
      ensures Valid() && Terminated() && Text() == CString() == Fit(entry, buflen) && pos == len
    {
      forall i | 0 <= i < buflen {
        buf[i] := if i < |entry| then entry[i] else '\0';
      }
      buf[buflen - 1] := '\0';
      nul := |Fit(entry, buflen)|;
      len, pos := 0, 0;
      assert buf[..nul] == Fit(entry, buflen);
      assert forall i :: 0 <= i < nul ==> buf[i] == entry[i] && entry[i] in entry;
      var n := StrLen();
      len, pos := n, n;
    }
  }

  /** `memmove` within one buffer. */
  method MemMove(a: array<char>, dst: nat, src: nat, n: nat)
    requires dst + n <= a.Length && src + n <= a.Length
    modifies a
    ensures forall i :: 0 <= i < a.Length ==>
              a[i] == if dst <= i < dst + n then old(a[src + (i - dst)]) else old(a[i])
    ensures a[..dst] == old(a[..dst]) && a[dst..dst + n] == old(a[src..src + n])
  {
    forall i | 0 <= i < n {
      a[dst + i] := a[src + i];
    }
  }

  /** What was above the prompt has moved up with it, as far as it is still on the screen. */
  ghost predicate ScrolledAbove(s: Screen, base: nat, t: Screen, base': nat) {
    && SameSize(s, t) && base' <= base
    && var p, q := RowStart(base - base', s.cols), RowStart(base, s.cols);
      && p + RowStart(base', s.cols) == q <= |s.grid|
      && t.grid[..RowStart(base', s.cols)] == s.grid[p..q]
  }

  /** The screen made taller has room for all the rows of a refresh. */
  lemma TallerRoom(r: Screen, more: nat, bottom: nat, base: nat, x: nat, rows: nat)
    requires Terminal.Valid(r) && base <= bottom < r.rows && BlankFrom(r, RowStart(bottom + 1, r.cols))
    requires Covers(rows, x, r.cols) && rows <= more
    ensures var t := Taller(r, more);
            && Window(r, t, 0) && BlankFrom(t, RowStart(bottom + 1, t.cols))
            && RowStart(base, t.cols) + x <= |t.grid| && base + more <= t.rows
  {
    TallerWindow(r, more);
    var t := Taller(r, more);
    RowStartAdd(base, rows, r.cols);
    RowStartMono(base + rows, t.rows, r.cols);
    forall i | RowStart(bottom + 1, t.cols) <= i < |t.grid| ensures t.grid[i] == ' ' {
      if i < |r.grid| { assert t.grid[i] == r.grid[i]; }
    }
  }

  lemma WindowRows(r: Screen, up: nat, base: nat, all: nat)
    requires Terminal.Valid(r) && up <= base <= r.rows && base + all <= up + r.rows
    ensures var p, q := RowStart(up, r.cols), RowStart(base, r.cols);
            && p + RowStart(base - up, r.cols) == q <= |r.grid|
            && q + RowStart(all, r.cols) <= p + |r.grid|
  {
    RowStartAdd(up, base - up, r.cols);
    RowStartAdd(base - up, all, r.cols);
    RowStartMono(base - up + all, r.rows, r.cols);
    RowBound(r, base);
  }

  /** What was above the prompt on the taller screen, and the text, as the window has them. */
  lemma WindowAbove(r: Screen, t0: Screen, r': Screen, t: Screen, up: nat, base: nat)
    requires Window(r, t0, 0) && Window(r', t, up) && SameSize(r, r') && up <= base
    requires SameBefore(t0, t, RowStart(base, r.cols))
    requires RowStart(up, r.cols) + RowStart(base - up, r.cols) == RowStart(base, r.cols) <= |r.grid|
    ensures ScrolledAbove(r, base, r', base - up)
  {
    hide BlankFrom;
    var p, q, g := RowStart(up, r.cols), RowStart(base, r.cols), t.grid;
    assert base - (base - up) == up && RowStart(0, r.cols) == 0;
    assert r.grid == t0.grid[0..0 + |r.grid|];
    SliceOfSlice(t0.grid, r.grid, 0, p, q);
    SliceOfSlice(g, r'.grid, p, 0, q - p);
    SliceOfSlice(t0.grid, t0.grid[..q], 0, p, q);
    SliceOfSlice(g, g[..q], 0, p, q);
    assert r'.grid[0..q - p] == r.grid[p..q];
    assert r'.grid[..q - p] == r'.grid[0..q - p];
    assert SameSize(r, r');
    assert RowStart(base - (base - up), r.cols) + RowStart(base - up, r.cols) == q;
  }

  lemma SliceOfSlice(h: string, g: string, p: nat, a: nat, b: nat)
    requires p + |g| <= |h| && g == h[p..p + |g|] && a <= b <= |g|
    ensures g[a..b] == h[p + a..p + b]
  {
    forall i | 0 <= i < b - a ensures g[a..b][i] == h[p + a..p + b][i] {
      assert g[a + i] == h[p + (a + i)];
    }
  }

  lemma WindowText(r: Screen, t: Screen, up: nat, base: nat, text: string)
    requires Window(r, t, up) && up <= base && Shown(t, base, text)
    requires RowStart(up, r.cols) + RowStart(base - up, r.cols) == RowStart(base, r.cols)
    requires RowStart(base - up, r.cols) + |text| <= |r.grid|
    ensures Shown(r, base - up, text)
  {
    hide RowStart;
    var p, q := RowStart(up, r.cols), RowStart(base - up, r.cols);
    SliceOfSlice(t.grid, r.grid, p, q, q + |text|);
    forall i | q + |text| <= i < |r.grid| ensures r.grid[i] == ' ' {
      assert r.grid[i] == t.grid[p + i];
    }
  }

  /** What stands on the taller screen stands in the window, as many rows higher as it moved. */
  lemma WindowShows(r: Screen, t0: Screen, r': Screen, t: Screen, up: nat, base: nat, text: string, all: nat)
    requires Window(r, t0, 0) && Window(r', t, up) && SameSize(r, r')
    requires up <= base <= r.rows && base + all <= up + r.rows
    requires SameBefore(t0, t, RowStart(base, r.cols)) && Shown(t, base, text) && |text| <= RowStart(all, r.cols)
    ensures ScrolledAbove(r, base, r', base - up) && Shown(r', base - up, text)
  {
    hide RowStart, Window, Shown, ScrolledAbove, SameBefore;
    WindowRows(r, up, base, all);
    WindowAbove(r, t0, r', t, up, base);
    WindowText(r', t, up, base, text);
  }

  /** One refresh, from the row clearing starts on to the cursor's new cell, in one write; the
      screen scrolls only as far as the rows of the text and the cursor need. */
  method Redraw(tty: Tty, ghost base: nat, colour: seq<Cmd>, prompt: string, text: string,
                oldRows: nat, rpos: nat, rows: nat, newline: bool, rpos2: nat, col: nat) returns (ghost up: nat)
    requires Terminal.Valid(tty.screen) && 0 < |prompt| < tty.screen.cols
    requires |colour| <= 1 && (forall c :: c in colour ==> c.Sgr? && Sendable(c))
    requires forall c :: c in prompt + text ==> Printable(c)
    requires var bottom := BottomRow(tty.screen, oldRows, rpos);
             && bottom < tty.screen.rows && TopRow(bottom, oldRows) == base
             && BlankFrom(tty.screen, RowStart(bottom + 1, tty.screen.cols))
    requires Covers(rows, |prompt| + |text|, tty.screen.cols)
    requires 0 < rpos2 <= (if newline then rows + 1 else rows) <= tty.screen.rows
    requires col < tty.screen.cols
    modifies tty
    ensures up == Moved(0, base + (if newline then rows + 1 else rows) - 1, tty.screen.rows) <= base
    ensures SameSize(old(tty.screen), tty.screen) && ScrolledAbove(old(tty.screen), base, tty.screen, base - up)
    ensures Shown(tty.screen, base - up, prompt + text)
    ensures tty.screen.row == base - up + rpos2 - 1 && tty.screen.col == col && !tty.screen.wrap
  {
    hide Tape, Covers, BlankFrom, Shown, SameBefore, ScrolledAbove;
    var all := if newline then rows + 1 else rows;
    ghost var r, t0 := tty.screen, Taller(tty.screen, all);
    TallerRoom(r, all, BottomRow(r, oldRows, rpos), base, |prompt| + |text|, rows);
    var ab, cmds, t := EmitClear(oldRows, rpos, r, t0);
    ghost var t1 := t;
    ab, cmds, t := EmitText(ab, cmds, t, r, colour, prompt, text, rows);
    ghost var t2 := t;
    ab, cmds, t := EmitCursor(ab, cmds, t, r, base, all, newline, rpos2, col);
    up := Moved(0, base + all - 1, r.rows);
    TapeDecodes(r, ab, cmds, t, up);
    StillShown(t0, t1, t2, t, base, prompt + text);
    CoversMore(rows, all, |prompt| + |text|, r.cols);
    WindowShows(r, t0, Run(r, Decode(ab)), t, up, base, prompt + text, all);
    tty.Write(ab);
  }

  lemma CoversMore(rows: nat, all: nat, x: nat, w: nat)
    requires Covers(rows, x, w) && rows <= all
    ensures x <= RowStart(all, w)
  {
    RowStartMono(rows, all, w);
  }

  /** Moving the cursor changes nothing that is shown. */
  lemma StillShown(t0: Screen, t1: Screen, t2: Screen, t: Screen, base: nat, text: string)
    requires SameBefore(t0, t1, RowStart(base, t0.cols)) && SameBefore(t1, t2, RowStart(base, t0.cols))
    requires Shown(t2, base, text) && t.grid == t2.grid && t.cols == t2.cols
    ensures SameBefore(t0, t, RowStart(base, t0.cols)) && Shown(t, base, text)
  {
  }

  function Max(a: nat, b: nat): nat {
    if a < b then b else a
  }

  lemma ClearBytes(s: Screen)
    requires Terminal.Valid(s)
    ensures var t := Run(s, Decode(Encode(Home) + Encode(EraseAll)));
            SameSize(s, t) && t.row == 0 && BlankFrom(t, 0)
  {
    var cmds := [Home] + [EraseAll];
    assert EncodeAll(cmds) == Encode(Home) + Encode(EraseAll) by {
      EncodeSnoc([], Home);
      EncodeSnoc([Home], EraseAll);
      assert [] + [Home] == [Home] && EncodeAll([]) == "" && "" + Encode(Home) == Encode(Home);
    }
    DecodeAll(cmds);
    RunSnoc(s, [], Home);
    RunSnoc(s, [Home], EraseAll);
    assert [] + [Home] == [Home];
  }

  lemma PromptBytes(prompt: string)
    requires forall c :: c in prompt ==> Printable(c)
    ensures Decode(prompt) == [] + Puts(prompt)
  {
    EncodePuts([], prompt);
    assert EncodeAll([]) == "" && "" + prompt == prompt;
    DecodeAll([] + Puts(prompt));
  }

  lemma WritePrompt(s0: Screen, prompt: string)
    requires Terminal.Valid(s0) && s0.col == 0 && !s0.wrap && 0 < |prompt| < s0.cols
    requires BlankFrom(s0, RowStart(s0.row, s0.cols)) && forall c :: c in prompt ==> Printable(c)
    ensures var t := Run(s0, Decode(prompt));
            && SameSize(s0, t) && t.row == s0.row
            && SameBefore(s0, t, RowStart(s0.row, s0.cols))
            && BlankFrom(t, RowStart(s0.row + 1, s0.cols))
            && Shown(t, s0.row, prompt) && At(t, RowStart(s0.row, s0.cols) + |prompt|) && !t.wrap
  {
    hide BlankFrom, Shown, RowStart, SameBefore, Decode, Puts, At, Splice, Run, Printable;
    PromptBytes(prompt);
    PromptPut(s0, prompt);
    PromptDone(s0, Run(s0, [] + Puts(prompt)), prompt);
  }

  lemma PromptPut(s0: Screen, prompt: string)
    requires Terminal.Valid(s0) && s0.col == 0 && !s0.wrap && 0 < |prompt| < s0.cols
    ensures var t, p := Run(s0, [] + Puts(prompt)), RowStart(s0.row, s0.cols);
            && SameSize(s0, t) && p + |prompt| <= |s0.grid| && t.grid == Splice(s0.grid, p, prompt)
            && At(t, p + |prompt|) && (t.wrap || t.col > 0)
  {
    hide RowStart, Splice, Puts, Apply;
    RowBound(s0, s0.row);
    PutText(s0, [], prompt, RowStart(s0.row, s0.cols));
  }

  lemma PromptDone(s0: Screen, t: Screen, prompt: string)
    requires Terminal.Valid(s0) && SameSize(s0, t) && 0 < |prompt| < s0.cols
    requires BlankFrom(s0, RowStart(s0.row, s0.cols)) && RowStart(s0.row, s0.cols) + |prompt| <= |s0.grid|
    requires At(t, RowStart(s0.row, s0.cols) + |prompt|) && (t.wrap || t.col > 0)
    requires t.grid == Splice(s0.grid, RowStart(s0.row, s0.cols), prompt)
    ensures t.row == s0.row && SameBefore(s0, t, RowStart(s0.row, s0.cols))
    ensures BlankFrom(t, RowStart(s0.row + 1, s0.cols)) && Shown(t, s0.row, prompt) && !t.wrap
  {
    LastRow(t, s0.row, |prompt|, 1);
    var p := RowStart(s0.row, s0.cols);
    assert Splice(s0.grid, p, prompt)[..p] == s0.grid[..p];
  }
}
