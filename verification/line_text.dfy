/** What each editing command means: an operation on the text before the cursor and the
    text after it, with no buffer, position or screen. */
module LineText {

  datatype Line = Line(before: string, after: string)

  function Whole(l: Line): string {
    l.before + l.after
  }

  /** The text without its trailing spaces, or without its trailing word. */
  function DropSpacesBack(s: string): string {
    if s != "" && s[|s| - 1] == ' ' then DropSpacesBack(s[..|s| - 1]) else s
  }

  function DropWordBack(s: string): string {
    if s != "" && s[|s| - 1] != ' ' then DropWordBack(s[..|s| - 1]) else s
  }

  /** The length of the leading spaces, or of the leading word. */
  function SpacesAhead(s: string): (n: nat)
    ensures n <= |s|
  {
    if s != "" && s[0] == ' ' then 1 + SpacesAhead(s[1..]) else 0
  }

  function WordAhead(s: string): (n: nat)
    ensures n <= |s|
  {
    if s != "" && s[0] != ' ' then 1 + WordAhead(s[1..]) else 0
  }

  /** Up to the end of the next word, with the spaces in front of it. */
  function NextWord(s: string): (n: nat)
    ensures n <= |s|
  {
    var k := SpacesAhead(s);
    k + WordAhead(s[k..])
  }

  datatype Command =
    | Insert(c: char)
    | MoveLeft
    | MoveRight
    | MoveHome
    | MoveEnd
    | MoveWordStart
    | MoveWordEnd
    | Backspace
    | Delete
    | DeletePrevWord
    | DeleteNextWord
    | SwapChars
    | ClearLine
    | DeleteToEnd

  function Edit(cmd: Command, l: Line, capacity: nat): Line {
    match cmd
    case Insert(c) => if |Whole(l)| < capacity then Line(l.before + [c], l.after) else l
    case MoveLeft =>
      if l.before == "" then l else
        var n := |l.before| - 1;
        Line(l.before[..n], [l.before[n]] + l.after)
    case MoveRight => if l.after == "" then l else Line(l.before + [l.after[0]], l.after[1..])
    case MoveHome => Line("", Whole(l))
    case MoveEnd => Line(Whole(l), "")
    case MoveWordStart =>
      var start := DropWordBack(DropSpacesBack(l.before));
      PrefixBack(l.before);
      Line(start, l.before[|start|..] + l.after)
    case MoveWordEnd => Line(l.before + l.after[..NextWord(l.after)], l.after[NextWord(l.after)..])
    case Backspace => if l.before == "" then l else Line(l.before[..|l.before| - 1], l.after)
    case Delete => if l.after == "" then l else Line(l.before, l.after[1..])
    case DeletePrevWord => Line(DropWordBack(DropSpacesBack(l.before)), l.after)
    case DeleteNextWord => Line(l.before, l.after[NextWord(l.after)..])
    case SwapChars =>
      if l.before == "" || l.after == "" then l else
        var n := |l.before| - 1;
        if |l.after| == 1 then Line(l.before[..n] + [l.after[0]], [l.before[n]])
        else Line(l.before[..n] + [l.after[0], l.before[n]], l.after[1..])
    case ClearLine => Line("", "")
    case DeleteToEnd => Line(l.before, "")
  }

  lemma {:induction false} SpacesBackPrefix(s: string)
    ensures DropSpacesBack(s) <= s
  {
    if s != "" && s[|s| - 1] == ' ' {
      SpacesBackPrefix(s[..|s| - 1]);
    }
  }

  lemma {:induction false} WordBackPrefix(s: string)
    ensures DropWordBack(s) <= s
  {
    if s != "" && s[|s| - 1] != ' ' {
      WordBackPrefix(s[..|s| - 1]);
    }
  }

  lemma PrefixBack(s: string)
    ensures DropWordBack(DropSpacesBack(s)) <= s
  {
    SpacesBackPrefix(s);
    WordBackPrefix(DropSpacesBack(s));
  }

  /** The moves change no text, and going back over a word is where deleting it lands. */
  lemma MovesKeepText(cmd: Command, l: Line, capacity: nat)
    requires cmd in {MoveLeft, MoveRight, MoveHome, MoveEnd, MoveWordStart, MoveWordEnd}
    ensures Whole(Edit(cmd, l, capacity)) == Whole(l)
    ensures Edit(MoveWordStart, l, capacity).before == Edit(DeletePrevWord, l, capacity).before
  {
    PrefixBack(l.before);
  }

  /** What one command undoes: typing then backspace, and stepping then stepping back. */
  lemma BackspaceUndoesInsert(l: Line, c: char, capacity: nat)
    requires |Whole(l)| < capacity
    ensures Edit(Backspace, Edit(Insert(c), l, capacity), capacity) == l
    ensures l.after != "" ==> Edit(MoveLeft, Edit(MoveRight, l, capacity), capacity) == l
  {
    assert (l.before + [c])[..|l.before|] == l.before;
    if l.after != "" {
      assert (l.before + [l.after[0]])[..|l.before|] == l.before;
      assert [l.after[0]] + l.after[1..] == l.after;
    }
  }

  lemma EditWithinCapacity(cmd: Command, l: Line, capacity: nat)
    requires |Whole(l)| <= capacity
    ensures |Whole(Edit(cmd, l, capacity))| <= capacity
  {
    PrefixBack(l.before);
  }

  // ---------------------------------------------------------------- what the user sees

  /** Going right from the front of `s`: `k` spaces, then a word up to `n`. */
  ghost predicate WordEndsAt(s: string, k: nat, n: nat) {
    && k <= n <= |s|
    && (forall i :: 0 <= i < k ==> s[i] == ' ') && (k < |s| ==> s[k] != ' ')
    && (forall i :: k <= i < n ==> s[i] != ' ') && (n < |s| ==> s[n] == ' ')
  }

  /** Going left from the end of `s`: spaces back to `k`, then a word back to `n`. */
  ghost predicate WordStartsAt(s: string, n: nat, k: nat) {
    && n <= k <= |s|
    && (forall i :: k <= i < |s| ==> s[i] == ' ') && (k > 0 ==> s[k - 1] != ' ')
    && (forall i :: n <= i < k ==> s[i] != ' ') && (n > 0 ==> s[n - 1] == ' ')
  }

  /** A user's next word ends at `n`, or the previous one starts there. */
  ghost predicate NextEnd(s: string, n: nat) {
    exists k :: WordEndsAt(s, k, n)
  }

  ghost predicate PrevStart(s: string, n: nat) {
    exists k :: WordStartsAt(s, n, k)
  }

  lemma {:induction false} SpacesAheadAre(s: string)
    ensures var k := SpacesAhead(s);
            (forall i :: 0 <= i < k ==> s[i] == ' ') && (k < |s| ==> s[k] != ' ')
  {
    if s != "" && s[0] == ' ' {
      SpacesAheadAre(s[1..]);
      assert forall i :: 0 < i < |s| ==> s[i] == s[1..][i - 1];
    }
  }

  lemma {:induction false} WordAheadIs(s: string)
    ensures var n := WordAhead(s);
            (forall i :: 0 <= i < n ==> s[i] != ' ') && (n < |s| ==> s[n] == ' ')
  {
    if s != "" && s[0] != ' ' {
      WordAheadIs(s[1..]);
      assert forall i :: 0 < i < |s| ==> s[i] == s[1..][i - 1];
    }
  }

  /** The next word is that one, and no other end is. */
  lemma NextWordEnds(s: string)
    ensures NextEnd(s, NextWord(s)) && forall n :: NextEnd(s, n) ==> n == NextWord(s)
  {
    var k := SpacesAhead(s);
    SpacesAheadAre(s);
    WordAheadIs(s[k..]);
    assert forall i :: k <= i < |s| ==> s[i] == s[k..][i - k];
    assert WordEndsAt(s, k, NextWord(s));
    forall n | NextEnd(s, n) ensures n == NextWord(s) {
      var j :| WordEndsAt(s, j, n);
      SameWordEnd(s, k, NextWord(s), j, n);
    }
  }

  lemma SameWordEnd(s: string, k: nat, n: nat, j: nat, m: nat)
    requires WordEndsAt(s, k, n) && WordEndsAt(s, j, m)
    ensures k == j && n == m
  {
  }

  lemma {:induction false} DropSpacesBackIs(s: string)
    ensures var k := |DropSpacesBack(s)|;
            && k <= |s| && DropSpacesBack(s) == s[..k]
            && (forall i :: k <= i < |s| ==> s[i] == ' ') && (k > 0 ==> s[k - 1] != ' ')
  {
    if s != "" && s[|s| - 1] == ' ' {
      var t := s[..|s| - 1];
      DropSpacesBackIs(t);
      assert t[..|DropSpacesBack(t)|] == s[..|DropSpacesBack(t)|];
    }
  }

  lemma {:induction false} DropWordBackIs(s: string)
    ensures var n := |DropWordBack(s)|;
            && n <= |s| && DropWordBack(s) == s[..n]
            && (forall i :: n <= i < |s| ==> s[i] != ' ') && (n > 0 ==> s[n - 1] == ' ')
  {
    if s != "" && s[|s| - 1] != ' ' {
      var t := s[..|s| - 1];
      DropWordBackIs(t);
      assert t[..|DropWordBack(t)|] == s[..|DropWordBack(t)|];
    }
  }

  /** The previous word is that one, and no other start is. */
  lemma PrevWordStarts(s: string)
    ensures var t := DropWordBack(DropSpacesBack(s)); t <= s && PrevStart(s, |t|)
    ensures forall n :: PrevStart(s, n) ==> n == |DropWordBack(DropSpacesBack(s))|
  {
    hide DropSpacesBack, DropWordBack;
    var t := DropSpacesBack(s);
    DropSpacesBackIs(s);
    DropWordBackIs(t);
    var n := |DropWordBack(t)|;
    assert t[..n] == s[..n];
    assert WordStartsAt(s, n, |t|);
    forall m | PrevStart(s, m) ensures m == n {
      var j :| WordStartsAt(s, m, j);
      SameWordStart(s, n, |t|, m, j);
    }
  }

  lemma SameWordStart(s: string, n: nat, k: nat, m: nat, j: nat)
    requires WordStartsAt(s, n, k) && WordStartsAt(s, m, j)
    ensures k == j && n == m
  {
  }

  /** What each command does to a text `t` with the cursor in front of its character `p`. */
  ghost predicate Does(cmd: Command, t: string, p: nat, u: string, q: nat, capacity: nat)
    requires p <= |t|
  {
    match cmd
    case Insert(c) => if |t| < capacity then u == t[..p] + [c] + t[p..] && q == p + 1 else u == t && q == p
    case MoveLeft => u == t && q == if p > 0 then p - 1 else p
    case MoveRight => u == t && q == if p < |t| then p + 1 else p
    case MoveHome => u == t && q == 0
    case MoveEnd => u == t && q == |t|
    case MoveWordStart => u == t && PrevStart(t[..p], q)
    case MoveWordEnd => u == t && p <= q && NextEnd(t[p..], q - p)
    case Backspace => if p > 0 then u == t[..p - 1] + t[p..] && q == p - 1 else u == t && q == p
    case Delete => q == p && u == if p < |t| then t[..p] + t[p + 1..] else t
    case DeletePrevWord => q <= p && PrevStart(t[..p], q) && u == t[..q] + t[p..]
    case DeleteNextWord => q == p && exists n :: NextEnd(t[p..], n) && p + n <= |t| && u == t[..p] + t[p + n..]
    case SwapChars =>
      if 0 < p < |t| then u == t[p - 1 := t[p]][p := t[p - 1]] && q == (if p + 1 == |t| then p else p + 1)
      else u == t && q == p
    case ClearLine => u == "" && q == 0
    case DeleteToEnd => u == t[..p] && q == p
  }

  lemma EditDoes(cmd: Command, l: Line, capacity: nat)
    ensures var l' := Edit(cmd, l, capacity); Does(cmd, Whole(l), |l.before|, Whole(l'), |l'.before|, capacity)
  {
    hide NextEnd, PrevStart, NextWord, DropSpacesBack, DropWordBack;
    if cmd in {MoveWordStart, MoveWordEnd, DeletePrevWord, DeleteNextWord} {
      WordsDo(cmd, l, capacity);
    } else if cmd in {MoveLeft, MoveRight, MoveHome, MoveEnd} {
      MovesDo(cmd, l, capacity);
    } else {
      ChangesDo(cmd, l, capacity);
    }
  }

  lemma WordsDo(cmd: Command, l: Line, capacity: nat)
    requires cmd in {MoveWordStart, MoveWordEnd, DeletePrevWord, DeleteNextWord}
    ensures var l' := Edit(cmd, l, capacity); Does(cmd, Whole(l), |l.before|, Whole(l'), |l'.before|, capacity)
  {
    hide NextEnd, PrevStart, NextWord, DropSpacesBack, DropWordBack;
    var b, n := DropWordBack(DropSpacesBack(l.before)), NextWord(l.after);
    PrevWordStarts(l.before);
    NextWordEnds(l.after);
    var t, p := Whole(l), |l.before|;
    assert t[..p] == l.before && t[p..] == l.after && t[..|b|] == b;
    assert l.after[n..] == t[p + n..];
    assert b + (l.before[|b|..] + l.after) == t && l.before + l.after[..n] + l.after[n..] == t;
  }

  lemma MovesDo(cmd: Command, l: Line, capacity: nat)
    requires cmd in {MoveLeft, MoveRight, MoveHome, MoveEnd}
    ensures var l' := Edit(cmd, l, capacity); Does(cmd, Whole(l), |l.before|, Whole(l'), |l'.before|, capacity)
  {
    hide NextEnd, PrevStart, NextWord, DropSpacesBack, DropWordBack;
    MovesKeepText(cmd, l, capacity);
  }

  lemma ChangesDo(cmd: Command, l: Line, capacity: nat)
    requires cmd.Insert? || cmd in {Backspace, Delete, SwapChars, ClearLine, DeleteToEnd}
    ensures var l' := Edit(cmd, l, capacity); Does(cmd, Whole(l), |l.before|, Whole(l'), |l'.before|, capacity)
  {
    hide NextEnd, PrevStart, NextWord, DropSpacesBack, DropWordBack;
    var t, p := Whole(l), |l.before|;
    assert t[..p] == l.before && t[p..] == l.after;
    assert p > 0 ==> l.before[..p - 1] == t[..p - 1];
    assert p < |t| ==> l.after[1..] == t[p + 1..];
    if cmd == SwapChars && 0 < p < |t| {
      assert Whole(Edit(cmd, l, capacity)) == t[p - 1 := t[p]][p := t[p - 1]];
    }
  }

  // ---------------------------------------------------------------- the word-start scan

  /** The scan in three parts, one test at a time, over the memory around the buffer. The position
      is an unsigned number in C: before the buffer it has wrapped around, and so is not zero. */
  datatype Scan = First(p: int) | OverSpaces(p: int) | OverWord(p: int) | Found(p: int)

  function ScanStep(mem: int -> char, s: Scan): Scan {
    match s
    case First(p) => OverSpaces(if mem(p - 1) == ' ' then p - 1 else p)
    case OverSpaces(p) => if p != 0 && mem(p) == ' ' then OverSpaces(p - 1) else OverWord(p)
    case OverWord(p) => if p != 0 && mem(p - 1) != ' ' then OverWord(p - 1) else Found(p)
    case Found(p) => s
  }

  function ScanAfter(mem: int -> char, s: Scan, n: nat): Scan
    decreases n
  {
    if n == 0 then s else ScanAfter(mem, ScanStep(mem, s), n - 1)
  }

  function ScanStart(pos: nat, len: nat): Scan {
    if len == 0 then Found(pos) else First(pos)
  }

  lemma {:induction false} ScanKeepsSide(mem: int -> char, s: Scan, n: nat)
    requires !s.First?
    ensures s.p >= 0 ==> 0 <= ScanAfter(mem, s, n).p <= s.p
    ensures s.p < 0 ==> ScanAfter(mem, s, n).p < 0
    decreases n
  {
    if n > 0 {
      ScanKeepsSide(mem, ScanStep(mem, s), n - 1);
    }
  }

  /** The scan stays in the buffer exactly when it does not start at the front of a non-empty
      line with a space in the byte before it. Otherwise it never comes back. */
  lemma ScanStaysExactly(mem: int -> char, pos: nat, len: nat)
    requires pos <= len
    ensures (forall n: nat :: 0 <= ScanAfter(mem, ScanStart(pos, len), n).p <= len)
      <==> len == 0 || pos > 0 || mem(-1) != ' '
    ensures !(len == 0 || pos > 0 || mem(-1) != ' ') ==>
      forall n: nat :: n > 0 ==> ScanAfter(mem, ScanStart(pos, len), n).p < 0
  {
    var s := ScanStart(pos, len);
    var t := ScanStep(mem, s);
    assert ScanAfter(mem, s, 1) == ScanAfter(mem, t, 0) == t;
    forall n: nat
      ensures t.p >= 0 ==> 0 <= ScanAfter(mem, s, n).p <= len
      ensures t.p < 0 && n > 0 ==> ScanAfter(mem, s, n).p < 0
    {
      if n > 0 {
        ScanKeepsSide(mem, t, n - 1);
      }
    }
    if t.p < 0 {
      assert !(0 <= ScanAfter(mem, s, 1).p);
    }
  }

  /** A line where it leaves: one character, the cursor in front of it, a space before that. */
  lemma ScanLeaves()
    ensures ScanAfter(i => if i == 0 then 'a' else ' ', ScanStart(0, 1), 1).p == -1
  {
    assert ScanAfter(i => if i == 0 then 'a' else ' ', OverSpaces(-1), 0) == OverSpaces(-1);
  }

  ghost predicate Holds(mem: int -> char, text: string) {
    forall i :: 0 <= i < |text| ==> mem(i) == text[i]
  }

  /** Inside, it finds what dropping trailing spaces and then a word leaves, whatever stands
      at the cursor. */
  lemma ScanFinds(mem: int -> char, before: string, len: nat) returns (n: nat)
    requires Holds(mem, before) && 0 < len && (before == "" ==> mem(-1) != ' ')
    ensures ScanAfter(mem, ScanStart(|before|, len), n) == Found(|DropWordBack(DropSpacesBack(before))|)
  {
    var pos := |before|;
    assert before[..pos] == before;
    if pos > 0 && mem(pos - 1) == ' ' {
      n := SpacesRun(mem, before, pos - 1);
    } else if pos > 0 && mem(pos) == ' ' {
      n := SpacesRun(mem, before, pos - 1);
      n := n + 1;
    } else {
      n := WordRun(mem, before, pos);
      n := n + 1;
    }
    n := n + 1;
  }

  lemma {:induction false} SpacesRun(mem: int -> char, text: string, p: nat) returns (n: nat)
    requires Holds(mem, text) && p < |text|
    ensures ScanAfter(mem, OverSpaces(p), n) == Found(|DropWordBack(DropSpacesBack(text[..p + 1]))|)
  {
    assert text[..p + 1][..p] == text[..p];
    if p != 0 && text[p] == ' ' {
      n := SpacesRun(mem, text, p - 1);
      n := n + 1;
    } else {
      n := WordRun(mem, text, p);
      n := n + 1;
    }
  }

  lemma {:induction false} WordRun(mem: int -> char, text: string, p: nat) returns (n: nat)
    requires Holds(mem, text) && p <= |text|
    ensures ScanAfter(mem, OverWord(p), n) == Found(|DropWordBack(text[..p])|)
  {
    if p != 0 && text[p - 1] != ' ' {
      assert text[..p][..p - 1] == text[..p - 1];
      n := WordRun(mem, text, p - 1);
      n := n + 1;
    } else {
      assert ScanAfter(mem, Found(p), 0) == Found(p);
      n := 1;
    }
  }
}
