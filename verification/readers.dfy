/** `planck.core` readers: a buffer over a raw source that delivers text in chunks of
    its own choosing. Nothing a caller sees may depend on the chunking. */
module Readers {

  datatype Option<T> = None | Some(value: T)

  function Concat(chunks: seq<string>): string {
    if chunks == [] then "" else chunks[0] + Concat(chunks[1..])
  }

  // ---------------------------------------------------------------- lines of a text

  /** The index of the first newline at or after `from`, or the length: `index-of`. */
  function NewlineAt(s: string, from: nat): (n: nat)
    requires from <= |s|
    ensures from <= n <= |s|
    ensures forall i :: from <= i < n ==> s[i] != '\n'
    ensures n < |s| ==> s[n] == '\n'
    decreases |s| - from
  {
    if from == |s| || s[from] == '\n' then from else NewlineAt(s, from + 1)
  }

  /** One line taken off a text: nothing when the text is empty; otherwise the text up to
      its first newline, which is consumed but not returned. */
  datatype LineStep = LineStep(line: Option<string>, rest: string)

  function TakeLine(text: string): LineStep {
    if text == "" then LineStep(None, "") else
      var n := NewlineAt(text, 0);
      LineStep(Some(text[..n]), if n < |text| then text[n + 1..] else "")
  }

  /** A plain newline split with no extra final empty line. */
  function Lines(text: string): seq<string>
    decreases |text|
  {
    if text == "" then [] else
      var step := TakeLine(text);
      [step.line.value] + Lines(step.rest)
  }

  function LinesFrom(step: LineStep): seq<string> {
    if step.line.None? then [] else [step.line.value] + Lines(step.rest)
  }

  lemma LinesStep(text: string)
    ensures Lines(text) == LinesFrom(TakeLine(text))
    ensures if text == "" then TakeLine(text) == LineStep(None, "")
            else TakeLine(text).line.Some? && |TakeLine(text).rest| < |text|
  {
  }

  function Unlines(lines: seq<string>): string {
    if lines == [] then "" else lines[0] + "\n" + Unlines(lines[1..])
  }

  lemma TakeLineShape(text: string)
    requires text != ""
    ensures var step := TakeLine(text);
            step.line.Some? && '\n' !in step.line.value &&
            (text == step.line.value + "\n" + step.rest || (text == step.line.value && step.rest == ""))
  {
    var n := NewlineAt(text, 0);
    if n < |text| {
      assert text[..n] + "\n" + text[n + 1..] == text;
    } else {
      assert text[..n] == text;
    }
  }

  lemma TakeLineOf(line: string, rest: string)
    requires '\n' !in line
    ensures TakeLine(line + "\n" + rest) == LineStep(Some(line), rest)
    ensures line != "" ==> TakeLine(line) == LineStep(Some(line), "")
  {
    var t := line + "\n" + rest;
    assert forall i :: 0 <= i < |line| ==> t[i] == line[i] && line[i] in line;
    assert t[|line|] == '\n' && NewlineAt(t, 0) == |line|;
    assert t[..|line|] == line && t[|line| + 1..] == rest;
    assert line != "" ==> NewlineAt(line, 0) == |line| && line[..|line|] == line;
  }

  predicate Ended(text: string) {
    text == "" || text[|text| - 1] == '\n'
  }

  lemma EndLine(text: string, l: string, rest: string)
    requires text != "" && '\n' !in l && (text == l + "\n" + rest || (text == l && rest == ""))
    ensures l + "\n" + (if Ended(rest) then rest else rest + "\n") == if Ended(text) then text else text + "\n"
  {
    if text == l + "\n" + rest {
      assert rest != "" ==> rest[|rest| - 1] == text[|text| - 1];
      assert rest == "" ==> text[|text| - 1] == '\n';
      assert l + "\n" + (rest + "\n") == text + "\n";
    } else {
      assert text[|text| - 1] in l;
      assert l + "\n" + "" == text + "\n";
    }
  }

  /** The defining property of the split: no line holds a newline, and ending every line
      with one gives back the text, up to a final newline that the text may lack. */
  lemma {:induction false} LinesSplit(text: string)
    ensures forall l :: l in Lines(text) ==> '\n' !in l
    ensures Unlines(Lines(text)) == if Ended(text) then text else text + "\n"
    decreases |text|
  {
    hide TakeLine;
    if text != "" {
      TakeLineShape(text);
      LinesStep(text);
      var l, rest := TakeLine(text).line.value, TakeLine(text).rest;
      LinesSplit(rest);
      UnlinesCons(l, Lines(rest));
      EndLine(text, l, rest);
      assert Lines(text) == [l] + Lines(rest);
    }
  }

  lemma UnlinesCons(l: string, lines: seq<string>)
    ensures Unlines([l] + lines) == l + "\n" + Unlines(lines)
  {
    assert ([l] + lines)[1..] == lines;
  }

  /** It is the only such split: a list of newline-free lines is recovered from its text. */
  lemma {:induction false} LinesOfUnlines(lines: seq<string>)
    requires forall l :: l in lines ==> '\n' !in l
    ensures Lines(Unlines(lines)) == lines
  {
    if lines != [] {
      TakeLineOf(lines[0], Unlines(lines[1..]));
      LinesOfUnlines(lines[1..]);
      assert lines == [lines[0]] + lines[1..];
    }
  }

  // ---------------------------------------------------------------- Reader

  /** A reader's state: what the source has yet to deliver, the buffer, and how much of it is
      consumed. */
  datatype Source = Source(raw: seq<string>, buffer: Option<string>, pos: nat) {
    predicate Valid() {
      buffer.Some? ==> pos <= |buffer.value|
    }

    /** The text not yet handed out: the rest of the buffer, then the rest of the source. */
    function Text(): string
      requires Valid()
    {
      (if buffer.Some? then buffer.value[pos..] else "") + Concat(raw)
    }
  }

  /** A line read chunk by chunk, and the state it leaves. */
  function ScanLine(s: Source): (r: (Option<string>, Source))
    requires s.Valid()
    decreases |s.raw|, if s.buffer.Some? then 0 else 1
  {
    if s.buffer.None? then
      if s.raw == [] then (None, s) else ScanLine(Source(s.raw[1..], Some(s.raw[0]), 0))
    else
      var b := s.buffer.value;
      var n := NewlineAt(b, s.pos);
      if n < |b| then (Some(b[s.pos..n]), s.(pos := n + 1))
      else if s.raw == [] then (if b[s.pos..] == "" then None else Some(b[s.pos..]), s.(buffer := None))
      else ScanLine(Source(s.raw[1..], Some(b[s.pos..] + s.raw[0]), 0))
  }

  /** It is one line taken off the text, whatever the chunks. */
  lemma {:induction false} ScanTakes(s: Source)
    requires s.Valid()
    ensures ScanLine(s).1.Valid() && LineStep(ScanLine(s).0, ScanLine(s).1.Text()) == TakeLine(s.Text())
    decreases |s.raw|, if s.buffer.Some? then 0 else 1
  {
    hide TakeLine, NewlineAt;
    if s.buffer.None? {
      if s.raw == [] {
        EmptyText();
      } else {
        NextChunk(s);
        ScanTakes(Source(s.raw[1..], Some(s.raw[0]), 0));
      }
    } else {
      var b := s.buffer.value;
      var n := NewlineAt(b, s.pos);
      if n < |b| {
        LineInBuffer(b, s.pos, n, Concat(s.raw));
      } else if s.raw == [] {
        assert s.Text() == b[s.pos..];
        EmptyText();
        TakeLineOf(b[s.pos..], "");
      } else {
        NextChunk(s);
        ScanTakes(Source(s.raw[1..], Some(b[s.pos..] + s.raw[0]), 0));
      }
    }
  }

  lemma EmptyText()
    ensures TakeLine("") == LineStep(None, "")
  {
  }

  /** Reading a chunk into the buffer changes nothing of the text. */
  lemma NextChunk(s: Source)
    requires s.Valid() && s.raw != []
    ensures s.buffer.Some? ==> Source(s.raw[1..], Some(s.buffer.value[s.pos..] + s.raw[0]), 0).Text() == s.Text()
    ensures s.buffer.None? ==> Source(s.raw[1..], Some(s.raw[0]), 0).Text() == s.Text()
  {
    if s.buffer.Some? {
      var head := s.buffer.value[s.pos..];
      assert (head + s.raw[0])[0..] == head + s.raw[0];
      assert head + s.raw[0] + Concat(s.raw[1..]) == head + (s.raw[0] + Concat(s.raw[1..]));
    } else {
      assert s.raw[0][0..] == s.raw[0] && "" + Concat(s.raw) == Concat(s.raw);
    }
  }

  class Reader {
    var raw: seq<string>        // what the raw source has yet to deliver; nil once empty
    var buffer: Option<string>
    var pos: nat

    constructor (raw: seq<string>)
      ensures Valid() && this.raw == raw && buffer == None
      ensures Remaining() == Concat(raw)
    {
      this.raw, buffer, pos := raw, None, 0;
    }

    ghost predicate Valid() reads this {
      buffer.Some? ==> pos <= |buffer.value|
    }

    ghost function Now(): Source reads this {
      Source(raw, buffer, pos)
    }

    /** The text not yet handed out: the rest of the buffer, then the rest of the source. */
    ghost function Remaining(): string
      requires Valid()
      reads this
    {
      Now().Text()
    }

    method RawRead() returns (r: Option<string>)
      modifies this`raw
      ensures old(raw) == [] ==> r == None && raw == []
      ensures old(raw) != [] ==> r == Some(old(raw)[0]) && raw == old(raw)[1..]
    {
      if raw == [] {
        r := None;
      } else {
        r, raw := Some(raw[0]), raw[1..];
      }
    }

    /** `-read`: some text from the front, or nil exactly when nothing is buffered and the
        source is finished. It always leaves the buffer empty. */
    method Read() returns (r: Option<string>)
      requires Valid()
      modifies this
      ensures Valid() && buffer == None && |raw| <= old(|raw|)
      ensures r == None <==> old(buffer) == None && old(raw) == []
      ensures r == None ==> old(Remaining()) == "" == Remaining()
      ensures r.Some? ==> old(Remaining()) == r.value + Remaining()
      ensures old(buffer.Some?) ==> r == Some(old(buffer.value[pos..])) && raw == old(raw)
      ensures old(buffer.None? && raw != []) ==> r == Some(old(raw[0])) && raw == old(raw[1..])
      ensures r.Some? && old(buffer).None? ==> |raw| < old(|raw|)
    {
      if buffer.Some? {
        var buffered := buffer.value;
        buffer := None;
        r := Some(buffered[pos..]);
      } else {
        r := RawRead();
      }
    }

    /** `-read-line` is `TakeLine` on the remaining text, whatever the chunks. */
    method ReadLine() returns (r: Option<string>)
      requires Valid()
      modifies this
      ensures Valid()
      ensures LineStep(r, Remaining()) == TakeLine(old(Remaining()))
      ensures (r, Now()) == ScanLine(old(Now()))
    {
      hide NewlineAt, Concat, TakeLine;
      ScanTakes(Now());
      while true
        invariant Valid() && ScanLine(Now()) == ScanLine(old(Now()))
        decreases |raw|, if buffer.Some? then 0 else 1
      {
        if buffer.Some? {
          var buffered := buffer.value;
          var n := NewlineAt(buffered, pos);
          if n < |buffered| {
            r := Some(buffered[pos..n]);
            pos := n + 1;
            return;
          }
          var newChars := RawRead();
          if newChars.Some? {
            buffer := Some(buffered[pos..] + newChars.value);
            pos := 0;
          } else {
            buffer := None;
            var rv := buffered[pos..];
            return if rv == "" then None else Some(rv);
          }
        } else {
          var newChars := RawRead();
          if newChars.Some? {
            buffer := Some(newChars.value);
            pos := 0;
          } else {
            return None;
          }
        }
      }
    }

    /** `-unread` prepends to the whole buffer and rewinds: it restores the consumed part
        of the buffer as well, so it is exact just when nothing of it was consumed. */
    method Unread(s: string)
      requires Valid()
      modifies this
      ensures Valid() && raw == old(raw) && pos == 0
      ensures buffer == Some(s + if old(buffer).Some? then old(buffer).value else "")
      ensures Remaining() == s + old(Remaining()) <==> old(buffer.None? || pos == 0)
    {
      ghost var kept := if buffer.Some? then buffer.value else "";
      buffer := Some(s + if buffer.Some? then buffer.value else "");
      pos := 0;
      assert Remaining() == s + kept + Concat(raw);
      assert |Remaining()| == |s| + |kept| + |Concat(raw)|;
      if old(buffer).Some? {
        assert old(buffer.value[pos..]) == kept[old(pos)..];
        if old(pos) == 0 {
          assert kept[0..] == kept;
          assert s + kept + Concat(raw) == s + (kept + Concat(raw));
        }
      }
    }

    /** `slurp`'s loop: every chunk appended, which is the whole remaining text. */
    method Slurp() returns (sb: string)
      requires Valid()
      modifies this
      ensures Valid() && sb == old(Remaining()) && Remaining() == ""
    {
      sb := "";
      var s := Read();
      while s.Some?
        invariant Valid() && buffer == None
        invariant s.Some? ==> old(Remaining()) == sb + s.value + Remaining()
        invariant s.None? ==> old(Remaining()) == sb && Remaining() == ""
        decreases |raw|, if s.Some? then 1 else 0
      {
        sb := sb + s.value;
        s := Read();
      }
    }

    /** `line-seq`, fully forced. */
    method LineSeq() returns (lines: seq<string>)
      requires Valid()
      modifies this
      ensures Valid() && lines == Lines(old(Remaining())) && Remaining() == ""
    {
      hide Lines, TakeLine, Remaining, ScanLine;
      ghost var text := Remaining();
      lines := [];
      LinesStep(text);
      var line := ReadLine();
      while line.Some?
        invariant Valid()
        invariant Lines(text) == lines + LinesFrom(LineStep(line, Remaining()))
        invariant line.None? ==> Remaining() == ""
        decreases |Remaining()|, if line.Some? then 1 else 0
      {
        ghost var before := Remaining();
        LinesStep(before);
        lines := lines + [line.value];
        assert Lines(text) == lines + Lines(before);
        line := ReadLine();
        assert LineStep(line, Remaining()) == TakeLine(before);
      }
    }
  }

  lemma LineInBuffer(buffered: string, pos: nat, n: nat, tail: string)
    requires pos <= n < |buffered| && buffered[n] == '\n' && '\n' !in buffered[pos..n]
    ensures TakeLine(buffered[pos..] + tail) == LineStep(Some(buffered[pos..n]), buffered[n + 1..] + tail)
  {
    TakeLineOf(buffered[pos..n], buffered[n + 1..] + tail);
    assert buffered[pos..] + tail == buffered[pos..n] + "\n" + (buffered[n + 1..] + tail);
  }

  // ---------------------------------------------------------------- mixed reading

  datatype ReadOp = ReadSome | ReadALine

  /** One read on a plain text: some of its front, nothing only when there is none; or a line. */
  ghost predicate Takes(op: ReadOp, text: string, answer: Option<string>, rest: string) {
    match op
    case ReadSome => if answer.Some? then text == answer.value + rest else text == "" == rest
    case ReadALine => LineStep(answer, rest) == TakeLine(text)
  }

  /** The texts before and after each of the reads. */
  ghost predicate TakesAll(ops: seq<ReadOp>, answers: seq<Option<string>>, texts: seq<string>) {
    && |answers| == |ops| && |texts| == |ops| + 1
    && forall i :: 0 <= i < |ops| ==> Takes(ops[i], texts[i], answers[i], texts[i + 1])
  }

  /** Any mix of `-read` and `-read-line`, over any chunking, takes the text apart from the
      front, one read after the other. */
  method Mixed(rdr: Reader, ops: seq<ReadOp>) returns (answers: seq<Option<string>>, ghost texts: seq<string>)
    requires rdr.Valid()
    modifies rdr
    ensures rdr.Valid() && TakesAll(ops, answers, texts)
    ensures texts[0] == old(rdr.Remaining()) && texts[|ops|] == rdr.Remaining()
  {
    answers, texts := [], [rdr.Remaining()];
    for k := 0 to |ops|
      invariant rdr.Valid() && TakesAll(ops[..k], answers, texts)
      invariant texts[0] == old(rdr.Remaining()) && texts[k] == rdr.Remaining()
    {
      var r := ReadOne(rdr, ops[k]);
      TakesSnoc(ops[..k], answers, texts, ops[k], r, rdr.Remaining());
      assert ops[..k + 1] == ops[..k] + [ops[k]];
      answers, texts := answers + [r], texts + [rdr.Remaining()];
    }
    assert ops[..|ops|] == ops;
  }

  method ReadOne(rdr: Reader, op: ReadOp) returns (r: Option<string>)
    requires rdr.Valid()
    modifies rdr
    ensures rdr.Valid() && Takes(op, old(rdr.Remaining()), r, rdr.Remaining())
  {
    match op {
      case ReadSome => r := rdr.Read();
      case ReadALine => r := rdr.ReadLine();
    }
  }

  lemma TakesSnoc(ops: seq<ReadOp>, answers: seq<Option<string>>, texts: seq<string>,
                  op: ReadOp, answer: Option<string>, rest: string)
    requires TakesAll(ops, answers, texts) && Takes(op, texts[|ops|], answer, rest)
    ensures TakesAll(ops + [op], answers + [answer], texts + [rest])
  {
    hide Takes;
    forall i | 0 <= i < |ops| + 1
      ensures Takes((ops + [op])[i], (texts + [rest])[i], (answers + [answer])[i], (texts + [rest])[i + 1])
    {
      if i < |ops| {
        assert Takes(ops[i], texts[i], answers[i], texts[i + 1]);
      }
    }
  }

  /** The text an answer stands for: a line also stands for the newline that ended it. */
  function Piece(op: ReadOp, text: string, answer: Option<string>): string {
    match answer
    case None => ""
    case Some(s) => if op == ReadALine && |s| < |text| then s + "\n" else s
  }

  function Pieces(ops: seq<ReadOp>, answers: seq<Option<string>>, texts: seq<string>): string
    requires |answers| == |ops| && |texts| == |ops| + 1
  {
    if ops == [] then "" else
      Piece(ops[0], texts[0], answers[0]) + Pieces(ops[1..], answers[1..], texts[1..])
  }

  lemma PieceTaken(op: ReadOp, text: string, answer: Option<string>, rest: string)
    requires Takes(op, text, answer, rest)
    ensures text == Piece(op, text, answer) + rest
  {
    if op == ReadALine && text != "" {
      TakeLineShape(text);
    }
  }

  /** Nothing is lost, repeated or rearranged. */
  lemma {:induction false} NothingLost(ops: seq<ReadOp>, answers: seq<Option<string>>, texts: seq<string>)
    requires TakesAll(ops, answers, texts)
    ensures Pieces(ops, answers, texts) + texts[|ops|] == texts[0]
    decreases |ops|
  {
    if ops != [] {
      assert Takes(ops[0], texts[0], answers[0], texts[1]);
      PieceTaken(ops[0], texts[0], answers[0], texts[1]);
      hide Takes, Piece;
      assert TakesAll(ops[1..], answers[1..], texts[1..]) by {
        forall i | 0 <= i < |ops| - 1 ensures Takes(ops[1..][i], texts[1..][i], answers[1..][i], texts[1..][i + 1]) {
          assert Takes(ops[i + 1], texts[i + 1], answers[i + 1], texts[i + 1 + 1]);
        }
      }
      NothingLost(ops[1..], answers[1..], texts[1..]);
    }
  }

  /** Lines do not depend on the chunks: reading them from the same text answers the same. */
  lemma LinesAgree(n: nat, answers: seq<Option<string>>, texts: seq<string>,
                   answers': seq<Option<string>>, texts': seq<string>)
    requires TakesAll(seq(n, _ => ReadALine), answers, texts) && TakesAll(seq(n, _ => ReadALine), answers', texts')
    requires texts[0] == texts'[0]
    ensures answers == answers' && texts == texts'
  {
    var ops := seq(n, _ => ReadALine);
    var i := 0;
    while i < n
      invariant i <= n && texts[..i + 1] == texts'[..i + 1] && answers[..i] == answers'[..i]
    {
      assert texts[i] == texts[..i + 1][i] == texts'[..i + 1][i] == texts'[i];
      assert Takes(ops[i], texts[i], answers[i], texts[i + 1]) && Takes(ops[i], texts'[i], answers'[i], texts'[i + 1]);
      assert texts[..i + 2] == texts[..i + 1] + [texts[i + 1]] && texts'[..i + 2] == texts'[..i + 1] + [texts'[i + 1]];
      i := i + 1;
    }
  }

  // ---------------------------------------------------------------- the pushback adapter

  /** `adapt-pushback-reader`: the character interface the form reader uses. */
  class Adapter {
    const rdr: Reader

    constructor (rdr: Reader)
      ensures this.rdr == rdr
    {
      this.rdr := rdr;
    }

    ghost function Chars(): string
      requires rdr.Valid()
      reads this, rdr
    {
      rdr.Remaining()
    }

    /** The buffer is not used up, and without one the next chunk is not empty. */
    ghost predicate Offers() reads this, rdr {
      if rdr.buffer.Some? then rdr.pos < |rdr.buffer.value| else rdr.raw != [] ==> rdr.raw[0] != ""
    }

    /** The adapter's own operations keep to this: the buffer is absent, or non-empty and
        unconsumed, and the source has no empty chunk to offer. */
    ghost predicate Valid() reads this, rdr {
      && rdr.Valid()
      && (rdr.buffer.Some? ==> rdr.pos == 0 && rdr.buffer.value != "")
      && forall c :: c in rdr.raw ==> c != ""
    }

    lemma ValidOffers()
      requires Valid()
      ensures rdr.Valid() && Offers()
    {
      assert rdr.raw != [] ==> rdr.raw[0] in rdr.raw;
    }

    /** `read-char` on any reader is uncons exactly if something is on offer; otherwise it
        answers the empty string. */
    method ReadChar() returns (ch: Option<string>)
      requires rdr.Valid()
      modifies rdr
      ensures rdr.Valid() && (rdr.buffer.Some? ==> rdr.pos == 0) && (old(Valid()) ==> Valid())
      ensures (ch, Chars()) == Uncons(old(Chars())) <==> old(Offers())
      ensures !old(Offers()) ==> ch == Some("") && Chars() == old(Chars())
    {
      ghost var text := Chars();
      var characters := rdr.Read();
      match characters
      case None => return None;
      case Some(cs) =>
        ghost var rest := rdr.Remaining();
        assert text == cs + rest;
        assert forall c :: c in rdr.raw ==> c in old(rdr.raw);
        assert cs != "" ==> text[..1] == cs[..1] && text[1..] == cs[1..] + rest;
        if |cs| > 1 {
          rdr.Unread(cs[1..]);
        } else {
          assert cs != "" ==> cs[1..] == "";
        }
        return Some(if cs == "" then "" else cs[..1]);
    }

    /** `unread` is cons exactly if nothing of the buffer was consumed, and ignores nil. */
    method Unread(ch: Option<string>)
      requires rdr.Valid()
      modifies rdr
      ensures rdr.Valid() && (old(Valid()) && (ch.Some? ==> ch.value != "") ==> Valid())
      ensures ch.None? ==> Chars() == old(Chars())
      ensures ch.Some? ==> (Chars() == ch.value + old(Chars()) <==> old(rdr.buffer.None? || rdr.pos == 0))
    {
      if ch.Some? {
        rdr.Unread(ch.value);
      }
    }

    /** `peek-char` takes nothing, and is head exactly if something is on offer. */
    method PeekChar() returns (ch: Option<string>)
      requires rdr.Valid()
      modifies rdr
      ensures rdr.Valid() && Chars() == old(Chars()) && (old(Valid()) ==> Valid())
      ensures ch == Uncons(old(Chars())).0 <==> old(Offers())
      ensures !old(Offers()) ==> ch == Some("")
    {
      ghost var text, offers := Chars(), Offers();
      if Valid() {
        ValidOffers();
      }
      ch := ReadChar();
      if ch.Some? {
        assert offers ==> text == ch.value + Chars();
        assert !offers ==> "" + Chars() == text;
        rdr.Unread(ch.value);
      }
    }
  }

  /** Taking the first character of a text. */
  function Uncons(text: string): (Option<string>, string) {
    if text == "" then (None, "") else (Some(text[..1]), text[1..])
  }

  /** A line of the first chunk leaves the rest of that chunk in the buffer. */
  lemma FirstLine(line: string, more: string, rest: seq<string>)
    requires '\n' !in line
    ensures var chunk := line + "\n" + more;
            ScanLine(Source([chunk] + rest, None, 0)) == (Some(line), Source(rest, Some(chunk), |line| + 1))
  {
    var chunk := line + "\n" + more;
    assert forall i :: 0 <= i < |line| ==> chunk[i] == line[i] && line[i] in line;
    assert chunk[|line|] == '\n' && chunk[0..|line|] == line;
    assert NewlineAt(chunk, 0) == |line|;
    assert ([chunk] + rest)[1..] == rest;
    assert ScanLine(Source(rest, Some(chunk), 0)) == (Some(line), Source(rest, Some(chunk), |line| + 1));
  }

  /** A line that ends where the buffer does, and then a character: the answer is the empty
      string although "b" is still to come. */
  method LineThenChar() returns (line: Option<string>, ch: Option<string>, a: Adapter)
    ensures line == Some("a") && ch == Some("")
    ensures fresh(a) && a.rdr.Valid() && a.Chars() == "b"
  {
    var rdr := new Reader(["a\n", "b"]);
    assert "a" + "\n" + "" == "a\n" && ["a\n"] + ["b"] == ["a\n", "b"];
    FirstLine("a", "", ["b"]);
    line := rdr.ReadLine();
    a := new Adapter(rdr);
    assert Concat(["b"]) == "b";
    ch := a.ReadChar();
  }

  /** A line, and then a character put back: the line comes back with it. */
  method LineThenUnread() returns (line: Option<string>, rdr: Reader)
    ensures line == Some("a") && fresh(rdr) && rdr.Valid() && rdr.Remaining() == "xa\nb"
  {
    rdr := new Reader(["a\nb"]);
    assert "a" + "\n" + "b" == "a\nb" && ["a\nb"] + [] == ["a\nb"];
    FirstLine("a", "b", []);
    line := rdr.ReadLine();
    rdr.Unread("x");
  }

  datatype CharOp = TakeChar | LookChar | PutChar(c: char)

  /** The same operations on one plain character sequence. */
  function PlainChars(text: string, ops: seq<CharOp>): (string, seq<Option<string>>) {
    if ops == [] then (text, []) else
      var (t, outs) := PlainChars(text, ops[..|ops| - 1]);
      var head := if t == "" then None else Some(t[..1]);
      match ops[|ops| - 1]
      case TakeChar => (if t == "" then t else t[1..], outs + [head])
      case LookChar => (t, outs + [head])
      case PutChar(c) => ([c] + t, outs)
  }

  /** Over any non-empty chunks, any run of the adapter is the run on the plain text. */
  method RunAdapter(raw: seq<string>, ops: seq<CharOp>) returns (outs: seq<Option<string>>, a: Adapter)
    requires forall c :: c in raw ==> c != ""
    ensures fresh(a) && a.Valid()
    ensures (a.Chars(), outs) == PlainChars(Concat(raw), ops)
  {
    var rdr := new Reader(raw);
    a := new Adapter(rdr);
    outs := [];
    for k := 0 to |ops|
      invariant fresh(a) && fresh(a.rdr) && a.Valid()
      invariant (a.Chars(), outs) == PlainChars(Concat(raw), ops[..k])
    {
      assert ops[..k + 1][..k] == ops[..k];
      a.ValidOffers();
      match ops[k] {
        case TakeChar => var ch := a.ReadChar(); outs := outs + [ch];
        case LookChar => var ch := a.PeekChar(); outs := outs + [ch];
        case PutChar(c) => a.Unread(Some([c]));
      }
    }
    assert ops[..|ops|] == ops;
  }
}
