/** The line editor's history: an array of lines that is shifted in place. */
module LineHistory {

  function LastN<T>(s: seq<T>, n: nat): seq<T> {
    if |s| <= n then s else s[|s| - n..]
  }

  /** Adding one line, on the list of stored lines. */
  function AddLine(entries: seq<string>, max: nat, line: string): seq<string> {
    if max == 0 || (entries != [] && entries[|entries| - 1] == line) then entries
    else LastN(entries + [line], max)
  }

  function AddAll(max: nat, lines: seq<string>): seq<string> {
    if lines == [] then [] else AddLine(AddAll(max, lines[..|lines| - 1]), max, lines[|lines| - 1])
  }

  /** The lines with runs of equal neighbours reduced to one. */
  function Collapse(lines: seq<string>): seq<string> {
    if lines == [] then [] else
      var c, l := Collapse(lines[..|lines| - 1]), lines[|lines| - 1];
      if c != [] && c[|c| - 1] == l then c else c + [l]
  }

  /** What is kept is the end of the list, all of it or `n` of it. */
  lemma LastNIs<T>(s: seq<T>, n: nat)
    ensures |LastN(s, n)| == if |s| < n then |s| else n
    ensures LastN(s, n) == s[|s| - |LastN(s, n)|..]
  {
  }

  lemma {:induction false} CollapseIs(lines: seq<string>)
    ensures forall i :: 0 <= i < |Collapse(lines)| - 1 ==> Collapse(lines)[i] != Collapse(lines)[i + 1]
    ensures lines != [] ==> Collapse(lines) != [] && Collapse(lines)[|Collapse(lines)| - 1] == lines[|lines| - 1]
    ensures forall l :: l in Collapse(lines) <==> l in lines
    decreases |lines|
  {
    if lines != [] {
      var init := lines[..|lines| - 1];
      assert lines == init + [lines[|lines| - 1]];
      CollapseIs(init);
    }
  }

  lemma LastNSnoc<T>(s: seq<T>, n: nat, x: T)
    requires n > 0
    ensures LastN(LastN(s, n) + [x], n) == LastN(s + [x], n)
    ensures s != [] ==> LastN(s, n) != [] && LastN(s, n)[|LastN(s, n)| - 1] == s[|s| - 1]
  {
  }

  lemma AddToLast(c: seq<string>, max: nat, l: string)
    requires max > 0
    ensures AddLine(LastN(c, max), max, l) == LastN(if c != [] && c[|c| - 1] == l then c else c + [l], max)
  {
    LastNSnoc(c, max, l);
  }

  /** With a fixed maximum, the history is the last `max` of all the lines ever added, with
      adjacent repetitions counted once, however often it overflowed. */
  lemma {:induction false} HistoryIsLastLines(max: nat, lines: seq<string>)
    requires max > 0
    ensures AddAll(max, lines) == LastN(Collapse(lines), max)
    decreases |lines|
  {
    hide AddLine;
    if lines != [] {
      var init, l := lines[..|lines| - 1], lines[|lines| - 1];
      HistoryIsLastLines(max, init);
      AddToLast(Collapse(init), max, l);
    }
  }

  lemma LastNTwice<T>(s: seq<T>, n: nat, m: nat)
    ensures LastN(LastN(s, n), m) == LastN(s, if m < n then m else n)
  {
  }

  class History {
    var lines: array?<string>
    var len: nat
    var maxLen: nat

    constructor (maxLen: nat)
      ensures Valid() && Contents() == [] && this.maxLen == maxLen && lines == null
    {
      lines, len, this.maxLen := null, 0, maxLen;
    }

    ghost predicate Valid()
      reads this
    {
      && len <= maxLen
      && (if lines == null then len == 0 else lines.Length == maxLen)
    }

    ghost function Contents(): seq<string>
      requires Valid()
      reads this, lines
    {
      if lines == null then [] else lines[..len]
    }

    /** `linenoiseHistoryAdd`. */
    method Add(line: string) returns (added: bool)
      requires Valid()
      modifies this, lines
      ensures Valid() && maxLen == old(maxLen) && (lines == old(lines) || fresh(lines))
      ensures Contents() == AddLine(old(Contents()), maxLen, line)
      ensures added <==> maxLen > 0 && old(len == 0 || Contents()[len - 1] != line)
    {
      if maxLen == 0 {
        return false;
      }
      if lines == null {
        lines := new string[maxLen](_ => "");
      }
      if len > 0 && lines[len - 1] == line {
        return false;
      }
      ghost var before := lines[..len];
      if len == maxLen {
        DropOldest();
      }
      lines[len] := line;
      len := len + 1;
      assert lines[..len] == lines[..len - 1] + [line];
      assert lines[..len] == LastN(before + [line], maxLen);
      return true;
    }

    method DropOldest()
      requires Valid() && lines != null && 0 < len == maxLen
      modifies this`len, lines
      ensures len == maxLen - 1 && lines[..len] == old(lines[..len])[1..]
    {
      forall i | 0 <= i < maxLen - 1 {
        lines[i] := lines[i + 1];
      }
      len := len - 1;
    }

    /** Dropping the entry that stood for the edited line. */
    method Pop()
      requires Valid() && len > 0
      modifies this`len
      ensures Valid() && Contents() == old(Contents()[..len - 1])
    {
      len := len - 1;
      assert lines[..len] == old(lines[..len][..len - 1]);
    }

    method Latest(newMax: nat) returns (fresher: array<string>)
      requires Valid() && lines != null
      ensures fresh(fresher) && fresher.Length == newMax
      ensures fresher[..if newMax < len then newMax else len] == LastN(lines[..len], newMax)
    {
      var tocopy := if newMax < len then newMax else len;
      fresher := new string[newMax](_ => "");
      forall i | 0 <= i < tocopy {
        fresher[i] := lines[len - tocopy + i];
      }
    }

    /** `linenoiseHistorySetMaxLen`: growing keeps everything, shrinking keeps the latest. */
    method SetMaxLen(newMax: int) returns (ok: bool)
      requires Valid()
      modifies this
      ensures Valid() && (ok <==> newMax >= 1)
      ensures !ok ==> maxLen == old(maxLen) && Contents() == old(Contents())
      ensures ok ==> maxLen == newMax && Contents() == LastN(old(Contents()), newMax)
      ensures lines == old(lines) || fresh(lines)
    {
      if newMax < 1 {
        return false;
      }
      if lines != null {
        lines := Latest(newMax);
      }
      maxLen := newMax;
      if len > maxLen {
        len := maxLen;
      }
      return true;
    }
  }

  // ---------------------------------------------------------------- moving through it

  /** Editing: the stored lines, how far back the edited one is, and its text. The last
      entry stands for the line being edited. */
  datatype Browse = Browse(entries: seq<string>, index: nat, text: string)

  predicate InRange(b: Browse) {
    b.index < |b.entries|
  }

  function Slot(b: Browse): nat
    requires InRange(b)
  {
    |b.entries| - 1 - b.index
  }

  /** What a buffer of `buflen` characters keeps of an entry: `strncpy` and a terminator. */
  function Fit(entry: string, buflen: nat): string
    requires buflen > 0
  {
    if |entry| < buflen then entry else entry[..buflen - 1]
  }

  /** One step: the text is saved in its entry first; a step past either end only saves. */
  function Move(b: Browse, back: bool, buflen: nat): (r: Browse)
    requires InRange(b) && buflen > 0
    ensures InRange(r)
  {
    if |b.entries| <= 1 then b else
      var saved := b.entries[Slot(b) := b.text];
      if back && b.index + 1 == |b.entries| then b.(entries := saved)
      else if !back && b.index == 0 then b.(entries := saved)
      else
        var i := if back then b.index + 1 else b.index - 1;
        Browse(saved, i, Fit(saved[|saved| - 1 - i], buflen))
  }

  function Moves(b: Browse, back: bool, k: nat, buflen: nat): (r: Browse)
    requires InRange(b) && buflen > 0
    ensures InRange(r)
  {
    if k == 0 then b else Move(Moves(b, back, k - 1, buflen), back, buflen)
  }

  predicate Fits(b: Browse, buflen: nat) {
    |b.text| < buflen && forall e :: e in b.entries ==> |e| < buflen
  }

  lemma MoveBack(b: Browse, buflen: nat)
    requires InRange(b) && buflen > 0 && b.index + 1 < |b.entries|
    ensures var saved := b.entries[Slot(b) := b.text];
            Move(b, true, buflen) == Browse(saved, b.index + 1, Fit(saved[Slot(b) - 1], buflen))
  {
  }

  /** A step past either end keeps the place and the text; if there are other entries, the text
      is saved in its own. */
  lemma MovePastEnd(b: Browse, back: bool, buflen: nat)
    requires InRange(b) && buflen > 0 && if back then b.index + 1 == |b.entries| else b.index == 0
    ensures var r := Move(b, back, buflen);
            && r.index == b.index && r.text == b.text && |r.entries| == |b.entries|
            && (forall i :: 0 <= i < |b.entries| && i != Slot(b) ==> r.entries[i] == b.entries[i])
            && r.entries[Slot(b)] == if |b.entries| > 1 then b.text else b.entries[Slot(b)]
  {
  }

  /** Any other step goes one entry on and shows it, cut to what the buffer holds; the text left
      is saved in its own entry. */
  lemma MoveWithin(b: Browse, back: bool, buflen: nat)
    requires InRange(b) && buflen > 0 && if back then b.index + 1 < |b.entries| else b.index > 0
    ensures var r := Move(b, back, buflen);
            && r.index == (if back then b.index + 1 else b.index - 1) && |r.entries| == |b.entries|
            && (forall i :: 0 <= i < |b.entries| && i != Slot(b) ==> r.entries[i] == b.entries[i])
            && r.entries[Slot(b)] == b.text
            && var shown := b.entries[|b.entries| - 1 - r.index];
               r.text <= shown && |r.text| == if |shown| < buflen then |shown| else buflen - 1
  {
  }

  lemma {:induction false} MovesBack(b: Browse, k: nat, buflen: nat)
    requires InRange(b) && buflen > 0 && Fits(b, buflen) && 0 < k && b.index + k < |b.entries|
    ensures var saved := b.entries[Slot(b) := b.text];
            Moves(b, true, k, buflen) == Browse(saved, b.index + k, saved[Slot(b) - k])
  {
    hide Move;
    var saved := b.entries[Slot(b) := b.text];
    assert saved[Slot(b) - k] == b.entries[Slot(b) - k] && b.entries[Slot(b) - k] in b.entries;
    if k > 1 {
      MovesBack(b, k - 1, buflen);
      MoveBack(Moves(b, true, k - 1, buflen), buflen);
      assert saved[Slot(b) - (k - 1) := saved[Slot(b) - (k - 1)]] == saved;
    } else {
      assert Moves(b, true, 0, buflen) == b;
      MoveBack(b, buflen);
    }
  }

  lemma MoveForth(b: Browse, buflen: nat)
    requires InRange(b) && buflen > 0 && 0 < b.index && b.text == b.entries[Slot(b)]
    ensures Move(b, false, buflen) == Browse(b.entries, b.index - 1, Fit(b.entries[Slot(b) + 1], buflen))
  {
  }

  lemma {:induction false} MovesForth(b: Browse, j: nat, buflen: nat)
    requires InRange(b) && buflen > 0 && j <= b.index
    requires b.text == b.entries[Slot(b)] && forall e :: e in b.entries ==> |e| < buflen
    ensures Moves(b, false, j, buflen) == Browse(b.entries, b.index - j, b.entries[Slot(b) + j])
  {
    hide Move;
    if j > 0 {
      MovesForth(b, j - 1, buflen);
      assert b.entries[Slot(b) + j] in b.entries;
      MoveForth(Moves(b, false, j - 1, buflen), buflen);
    }
  }

  /** k steps back and k steps forward restore the edited text, and change no stored entry
      but the one that now holds it. */
  lemma BackAndForth(b: Browse, k: nat, buflen: nat)
    requires InRange(b) && buflen > 0 && Fits(b, buflen) && b.index + k < |b.entries|
    ensures var r := Moves(Moves(b, true, k, buflen), false, k, buflen);
            && r.text == b.text && r.index == b.index
            && r.entries == if k == 0 then b.entries else b.entries[Slot(b) := b.text]
  {
    if k > 0 {
      MovesBack(b, k, buflen);
      var m := Moves(b, true, k, buflen);
      assert forall e :: e in m.entries ==> e in b.entries || e == b.text;
      MovesForth(m, k, buflen);
    }
  }
}
