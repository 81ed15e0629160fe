/** The recursive-descent EDN reader: one pushback slot, line and column counters, a nesting
    depth, a discard counter and a stream of events, all changed in place. A `longjmp` is
    the result `Failed`. */
module EdnReader {
  import opened Edn
  import opened EdnTrees

  // ---------------------------------------------------------------- string buffer

  class StringBuffer {
    var chars: array<char>
    var length: nat
    var capacity: nat

    ghost predicate Valid()
      reads this, chars
    {
      && 0 < capacity && chars.Length == capacity + 1
      && length <= capacity && chars[length] == '\0'
    }

    ghost function Contents(): string
      requires Valid()
      reads this, chars
    {
      chars[..length]
    }

    constructor (capacity: nat)
      requires capacity > 0
      ensures Valid() && Contents() == "" && fresh(chars)
    {
      chars := new char[capacity + 1];
      this.capacity, length := capacity, 0;
      new;
      chars[0] := '\0';
    }

    method Resize(newCapacity: nat)
      requires Valid() && newCapacity >= capacity
      modifies this`chars, this`capacity
      ensures Valid() && capacity == newCapacity && Contents() == old(Contents()) && fresh(chars)
    {
      var bigger := new char[newCapacity + 1];
      forall i | 0 <= i <= length {
        bigger[i] := chars[i];
      }
      assert bigger[..length] == chars[..length];
      chars, capacity := bigger, newCapacity;
    }

    method Append(c: char)
      requires Valid()
      modifies this, chars
      ensures Valid() && Contents() == old(Contents()) + [c] && (chars == old(chars) || fresh(chars))
    {
      if length == capacity {
        Resize(capacity * 2);
      }
      chars[length] := c;
      length := length + 1;
      chars[length] := '\0';
    }

    method Appends(s: string)
      requires Valid()
      modifies this, chars
      ensures Valid() && Contents() == old(Contents()) + s && (chars == old(chars) || fresh(chars))
    {
      for i := 0 to |s|
        invariant Valid() && Contents() == old(Contents()) + s[..i] && (chars == old(chars) || fresh(chars))
      {
        assert s[..i + 1] == s[..i] + [s[i]];
        Append(s[i]);
      }
      assert s[..|s|] == s;
    }

    /** The contents as a value. */
    method Text() returns (s: string)
      requires Valid()
      ensures s == Contents()
    {
      s := chars[..length];
    }
  }

  // ---------------------------------------------------------------- the reader

  const EMPTY: Wint := Wc('\0')   // _readback == 0

  datatype CResult = Done(status: Status) | Failed(error: Error)

  /** What the rest of a read can see of a reader. */
  datatype View = View(pos: nat, depth: nat, discard: nat, emitted: seq<Event>)

  function Visible(v: View, events: seq<Event>): seq<Event> {
    if v.discard == 0 then v.emitted + events else v.emitted
  }

  /** A method did what the specification says: same position, status and events, with depth
      and discard count back where they were unless it failed. */
  ghost predicate Did(o: Outcome, r: CResult, before: View, after: View) {
    match o
    case Ok(p, status, forest) =>
      r == Done(status) && after == before.(pos := p, emitted := Visible(before, EventsAll(forest)))
    case Fail(p, error, events) =>
      r == Failed(error) && after.pos == p && after.emitted == Visible(before, events)
  }

  lemma LeafEvents(kind: Kind, value: string)
    ensures EventsAll([Leaf(kind, value)]) == [Atom(kind, value)]
  {
    assert [Leaf(kind, value)][1..] == [];
  }

  class Reader {
    const text: string          // what getwchar delivers, then WEOF for ever
    var next: nat               // how often getwchar was called
    var line: int
    var column: int
    var depth: nat
    var discard: nat
    var readback: Wint
    var readbackColumn: int
    var emitted: seq<Event>

    constructor (text: string)
      requires '\0' !in text
      ensures this.text == text && next == 0 && emitted == []
    {
      this.text, next, emitted := text, 0, [];
      line, column, depth, discard, readback, readbackColumn := 0, 0, 0, 0, EMPTY, 0;
    }

    ghost function Pos(): nat
      requires readback == EMPTY || next > 0
      reads this
    {
      if readback == EMPTY then next else next - 1
    }

    /** The slot holds the last character read, and the counters tell the position. */
    ghost predicate Valid()
      reads this
    {
      && '\0' !in text
      && (readback != EMPTY ==> next > 0 && readback == CharAt(text, next - 1))
      && line == LineNumber(text, Pos()) && column == Column(text, Pos())
    }

    ghost function Now(): View
      requires Valid()
      reads this
    {
      View(Pos(), depth, discard, emitted)
    }

    method GetWchar() returns (c: Wint)
      modifies this`next
      ensures c == CharAt(text, old(next)) && next == old(next) + 1
    {
      c := CharAt(text, next);
      next := next + 1;
    }

    /** `pop_char` */
    method PopChar() returns (c: Wint)
      requires Valid()
      modifies this`next, this`line, this`column, this`readback, this`readbackColumn
      ensures Valid() && readback == EMPTY && c == CharAt(text, old(Pos())) && Pos() == old(Pos()) + 1
      ensures c.Wc? && EndsLine(c.c) ==> readbackColumn == Column(text, old(Pos()))
    {
      if readback == EMPTY {
        c := GetWchar();
      } else {
        c := readback;
        readback := EMPTY;
      }
      assert c.Wc? ==> c.c in text;
      if c.Wc? && EndsLine(c.c) {
        line := line + 1;
        readbackColumn := column;
        column := 0;
      } else {
        column := column + 1;
      }
    }

    /** `push_char`: the slot is empty in every run, as its assertion demands. */
    method PushChar(c: Wint)
      requires Valid() && readback == EMPTY && Pos() > 0 && c == CharAt(text, Pos() - 1)
      requires c.Wc? && EndsLine(c.c) ==> readbackColumn == Column(text, Pos() - 1)
      modifies this`line, this`column, this`readback
      ensures Valid() && Pos() == old(Pos()) - 1
    {
      assert c.Wc? ==> c.c in text;
      readback := c;
      if c.Wc? && EndsLine(c.c) {
        line := line - 1;
        column := readbackColumn;
      } else {
        column := column - 1;
      }
    }

    method PeekChar() returns (c: Wint)
      requires Valid()
      modifies this`next, this`line, this`column, this`readback, this`readbackColumn
      ensures Valid() && Pos() == old(Pos()) && c == CharAt(text, Pos())
    {
      c := PopChar();
      PushChar(c);
    }

    method Emit(e: Event)
      requires Valid()
      modifies this`emitted
      ensures Valid() && Now() == old(Now()).(emitted := Visible(old(Now()), [e]))
    {
      if discard == 0 {
        emitted := emitted + [e];
      }
    }

    /** `skip_whitespace`: it returns the first other character, consumed. */
    method SkipWhitespace() returns (c: Wint)
      requires Valid()
      modifies this`next, this`line, this`column, this`readback, this`readbackColumn
      ensures Valid() && readback == EMPTY && c == CharAt(text, SkipSpace(text, old(Pos())))
      ensures Pos() == SkipSpace(text, old(Pos())) + 1
      ensures c.Wc? && EndsLine(c.c) ==> readbackColumn == Column(text, Pos() - 1)
    {
      c := PopChar();
      while c.Wc? && IsSpace(c.c)
        invariant Valid() && readback == EMPTY && Pos() > 0 && c == CharAt(text, Pos() - 1)
        invariant SkipSpace(text, Pos() - 1) == SkipSpace(text, old(Pos()))
        invariant c.Wc? && EndsLine(c.c) ==> readbackColumn == Column(text, Pos() - 1)
        decreases Left(text, Pos() - 1)
      {
        c := PopChar();
      }
    }

    /** Inside a string whose text began at `p`: what was read since is in the buffer. */
    ghost predicate InString(prefix: string, strbuf: StringBuffer, p: nat, escape: bool)
      reads this, strbuf, strbuf.chars
    {
      && Valid() && p <= Pos() <= |text|
      && strbuf.Valid() && strbuf.Contents() == prefix + text[p..Pos()]
      && StringEnd(text, p, false) == StringEnd(text, Pos(), escape)
    }

    method NextStringChar(prefix: string, strbuf: StringBuffer, ghost p: nat, escape: bool)
      returns (c: Wint, closes: bool, escape': bool)
      requires InString(prefix, strbuf, p, escape)
      modifies this`next, this`line, this`column, this`readback, this`readbackColumn, strbuf, strbuf.chars
      ensures Valid() && Pos() == old(Pos()) + 1
      ensures strbuf.chars == old(strbuf.chars) || fresh(strbuf.chars)
      ensures if old(Pos()) == |text| then c == Weof && StringEnd(text, p, false) == |text|
              else if closes then
                && c.Wc? && StringEnd(text, p, false) == old(Pos())
                && strbuf.Valid() && strbuf.Contents() == prefix + text[p..Pos()]
              else c.Wc? && InString(prefix, strbuf, p, escape')
    {
      hide LineNumber, LineStart, Column;
      ghost var i := Pos();
      closes, escape' := false, false;
      c := PopChar();
      if c == Weof {
        return;
      }
      assert text[p..i + 1] == text[p..i] + [c.c];
      strbuf.Append(c.c);
      if c.c == '\\' {
        escape' := !escape;
      } else if c.c == '\"' && !escape {
        closes := true;
      }
    }

    /** The loop of `read_typed_string`; nothing at the end of the text. */
    method ScanString(prefix: string) returns (value: Option<string>)
      requires Valid() && Pos() <= |text|
      modifies this`next, this`line, this`column, this`readback, this`readbackColumn
      ensures Valid()
      ensures var p, q := old(Pos()), StringEnd(text, old(Pos()), false);
              && Pos() == q + 1
              && (value.Some? <==> q < |text|)
              && (q < |text| ==> value.value == prefix + text[p..q + 1])
    {
      hide LineNumber, LineStart, Column, StringEnd;
      ghost var p := Pos();
      var strbuf := new StringBuffer(80);
      strbuf.Appends(prefix);
      var escape := false;
      while true
        invariant fresh(strbuf) && fresh(strbuf.chars) && InString(prefix, strbuf, p, escape)
        decreases Left(text, Pos())
      {
        var c, closes, escape' := NextStringChar(prefix, strbuf, p, escape);
        if c == Weof {
          return None;
        }
        if closes {
          var v := strbuf.Text();
          return Some(v);
        }
        escape := escape';
      }
    }

    /** `read_typed_string` */
    method ReadTypedString(kind: Kind, prefix: string) returns (r: CResult)
      requires Valid() && Pos() <= |text|
      modifies this
      ensures Valid() && Did(ReadString(kind, prefix, text, old(Pos())), r, old(Now()), Now())
    {
      hide LineNumber, LineStart, Column, StringEnd, EventsAll;
      var value := ScanString(prefix);
      if value.None? {
        return Failed(UnexpectedEof);
      }
      LeafEvents(kind, value.value);
      Emit(Atom(kind, value.value));
      return Done(More);
    }

    /** Inside a token that began at `p`: what was read since is in the buffer, but for `c`. */
    ghost predicate InToken(kind: Kind, initch: char, strbuf: StringBuffer, p: nat, c: Wint)
      reads this, strbuf, strbuf.chars
    {
      && Valid() && readback == EMPTY && p < Pos() <= |text| + 1 && c == CharAt(text, Pos() - 1)
      && (c.Wc? && EndsLine(c.c) ==> readbackColumn == Column(text, Pos() - 1))
      && strbuf.Valid() && strbuf.Contents() == [initch] + text[p..Pos() - 1]
      && TokenEnd(kind, text, p) == TokenEnd(kind, text, Pos() - 1)
    }

    method NextTokenChar(kind: Kind, initch: char, strbuf: StringBuffer, ghost p: nat, c: char) returns (c': Wint)
      requires InToken(kind, initch, strbuf, p, Wc(c)) && !IsSpace(c) && !Terminates(kind, c)
      modifies this`next, this`line, this`column, this`readback, this`readbackColumn, strbuf, strbuf.chars
      ensures InToken(kind, initch, strbuf, p, c') && Pos() == old(Pos()) + 1 && old(Pos()) <= |text|
      ensures strbuf.chars == old(strbuf.chars) || fresh(strbuf.chars)
    {
      ghost var i := Pos() - 1;
      assert text[p..i + 1] == text[p..i] + [c];
      strbuf.Append(c);
      c' := PopChar();
    }

    /** The loop of `read_token`: the character that ends it is pushed back. */
    method ScanToken(kind: Kind, initch: char, capacity: nat) returns (value: string, c: Wint)
      requires Valid() && Pos() <= |text| && capacity > 0
      modifies this`next, this`line, this`column, this`readback, this`readbackColumn
      ensures Valid()
      ensures var p, q := old(Pos()), TokenEnd(kind, text, old(Pos()));
              Pos() == q && c == CharAt(text, q) && value == [initch] + text[p..q]
    {
      hide LineNumber, LineStart, Column;
      ghost var p := Pos();
      var strbuf := new StringBuffer(capacity);
      strbuf.Append(initch);
      c := PopChar();
      while c.Wc? && !IsSpace(c.c) && !Terminates(kind, c.c)
        invariant fresh(strbuf) && fresh(strbuf.chars) && InToken(kind, initch, strbuf, p, c)
        decreases |text| + 1 - Pos()
      {
        c := NextTokenChar(kind, initch, strbuf, p, c.c);
      }
      PushChar(c);
      value := strbuf.Text();
    }

    /** `read_token` */
    method ReadTokenRest(kind: Kind, initch: char, capacity: nat) returns (r: CResult)
      requires Valid() && Pos() <= |text| && capacity > 0
      modifies this
      ensures Valid() && Did(ReadToken(kind, text, old(Pos()), initch), r, old(Now()), Now())
    {
      ghost var p := Pos();
      var value, c := ScanToken(kind, initch, capacity);
      LeafEvents(kind, value);
      Emit(Atom(kind, value));
      return Done(if c == Weof then Eof else More);
    }

    method ReadCommentRest() returns (r: CResult)
      requires Valid()
      modifies this
      ensures Valid() && Did(ReadComment(text, old(Pos())), r, old(Now()), Now())
    {
      ghost var p, before := Pos(), Now();
      var c := PopChar();
      while c != Weof && !EndsLine(c.c)
        invariant Valid() && Pos() > 0 && Now() == before.(pos := Pos()) && c == CharAt(text, Pos() - 1)
        invariant LineEnd(text, Pos() - 1) == LineEnd(text, p)
        decreases Left(text, Pos() - 1)
      {
        c := PopChar();
      }
      return Done(if c == Weof then Eof else More);
    }

    /** `read_wrapped` */
    method ReadWrapped(symbol: string) returns (r: CResult)
      requires Valid()
      modifies this
      ensures Valid() && Did(Wrap(symbol, ReadForm(text, old(Pos()), old(depth))), r, old(Now()), Now())
      decreases Left(text, Pos()), 1
    {
      ghost var p, d, v0 := Pos(), depth, Now();
      Emit(Begin(List, "("));
      Emit(Atom(Symbol, symbol));
      ghost var v1 := Now();
      r := ReadOneForm();
      ghost var v2 := Now();
      WrapDid(symbol, ReadForm(text, p, d), r, v0, v1, v2);
      if r.Failed? {
        return;
      }
      Emit(End(List, ")"));
    }

    /** `read_discard`: the counter silences whatever is read. */
    method ReadDiscard() returns (r: CResult)
      requires Valid()
      modifies this
      ensures Valid() && Did(Discard(ReadForm(text, old(Pos()), old(depth))), r, old(Now()), Now())
      decreases Left(text, Pos()), 1
    {
      ghost var p, d, v0 := Pos(), depth, Now();
      discard := discard + 1;
      ghost var v1 := Now();
      r := ReadOneForm();
      DiscardDid(ReadForm(text, p, d), r, v0, v1, Now());
      if r.Failed? {
        return;
      }
      discard := discard - 1;
    }

    /** `read_delimited` */
    method ReadDelimited(coll: Coll) returns (r: CResult)
      requires Valid()
      modifies this
      ensures Valid() && Did(Delimit(coll, ReadItems(coll, text, old(Pos()), old(depth) + 1)), r, old(Now()), Now())
      decreases Left(text, Pos()), 3
    {
      hide ReadItems, EventsAll, LineNumber, LineStart, Column;
      ghost var p, v0 := Pos(), Now();
      Emit(Begin(coll, Opening(coll)));
      depth := depth + 1;
      ghost var v1 := Now();
      ghost var whole := ReadItems(coll, text, p, depth);
      var item, items := ReadAllItems(coll);
      if item.Bad? {
        BadDid(coll, whole, item.error, v0, v1, Now());
        return Failed(item.error);
      }
      ClosedDid(coll, items, v0, v1, Now());
      depth := depth - 1;
      Emit(End(coll, [Closing(coll)]));
      return Done(More);
    }

    /** Its loop, up to the closing delimiter or an error. */
    method ReadAllItems(coll: Coll) returns (item: ItemResult, ghost items: seq<Node>)
      requires Valid()
      modifies this
      ensures Valid() && item != Item
      ensures item == Closed ==>
        && Now() == Later(old(Now()), Pos(), items)
        && ReadItems(coll, text, old(Pos()), old(depth)) == Ok(Pos(), More, items)
      ensures item.Bad? ==> Did(ReadItems(coll, text, old(Pos()), old(depth)), Failed(item.error), old(Now()), Now())
      decreases Left(text, Pos()), 2
    {
      ghost var p, v1 := Pos(), Now();
      ghost var whole := ReadItems(coll, text, p, depth);
      items := [];
      PrependNothing(whole, v1);
      item := Item;
      while item == Item
        invariant Valid() && (item == Item ==> Pos() >= p)
        invariant item == Item ==>
          Now() == Later(v1, Pos(), items) && whole == Prepend(items, ReadItems(coll, text, Pos(), v1.depth))
        invariant item == Closed ==> Now() == Later(v1, Pos(), items) && whole == Ok(Pos(), More, items)
        invariant item.Bad? ==> Did(whole, Failed(item.error), v1, Now())
        decreases if item == Item then 1 else 0, Left(text, Pos())
      {
        ghost var i, v := Pos(), Now();
        item := ReadItem(coll);
        ghost var f := ItemDid(coll, text, i, item, items, whole, v1, v, Now());
        items := items + f;
      }
    }

    /** One round of the loop of `read_delimited`. */
    method ReadItem(coll: Coll) returns (item: ItemResult)
      requires Valid()
      modifies this
      ensures Valid() && ItemOutcome(coll, text, old(Pos()), old(depth), item, old(Now()), Now())
      decreases Left(text, Pos()), 1
    {
      hide ReadItems, ReadMacro, EventsAll, LineNumber, LineStart, Column;
      ghost var q, d := SkipSpace(text, Pos()), depth;
      var c := SkipWhitespace();
      if c == Wc(Closing(coll)) {
        return Closed;
      }
      if c == Weof {
        return Bad(UnexpectedEof);
      }
      var r;
      match MacroOf(c.c) {
        case Some(m) =>
          FormHere(text, q, d);
          r := ReadMacroForm(m);
        case None =>
          PushChar(c);
          r := ReadOneForm();
      }
      return if r.Failed? then Bad(r.error) else Item;
    }

    /** The macro readers, `get_macro_reader`'s results. */
    method ReadMacroForm(m: Macro) returns (r: CResult)
      requires Valid() && Pos() <= |text|
      modifies this
      ensures Valid() && Did(ReadMacro(m, text, old(Pos()), old(depth)), r, old(Now()), Now())
      decreases Left(text, Pos()), 5
    {
      match m {
        case StringMacro => r := ReadTypedString(String, "\"");
        case KeywordMacro => r := ReadTokenRest(Keyword, ':', 25);
        case CharMacro => r := ReadTokenRest(Character, '\\', 10);
        case CommentMacro => r := ReadCommentRest();
        case QuoteMacro => r := ReadWrapped("quote");
        case DerefMacro => r := ReadWrapped("deref");
        case MetaMacro => r := ReadDiscard();
        case NotImplementedMacro => r := Failed(NotImplemented);
        case UnmatchedMacro => r := Failed(UnmatchedDelimiter);
        case ListMacro => r := ReadDelimited(List);
        case VectorMacro => r := ReadDelimited(Vector);
        case MapMacro => r := ReadDelimited(Map);
        case DispatchMacro => r := ReadDispatch();
      }
    }

    /** `read_dispatch`; an unknown character fails its assertion. */
    method ReadDispatch() returns (r: CResult)
      requires Valid()
      modifies this
      ensures Valid() && Did(ReadMacro(DispatchMacro, text, old(Pos()), old(depth)), r, old(Now()), Now())
      decreases Left(text, Pos()), 4
    {
      hide ReadItems, ReadForm, EventsAll, LineNumber, LineStart, Column;
      var c := PopChar();
      match c {
        case Wc('{') => r := ReadDelimited(Set);
        case Wc('<') => r := Failed(Unreadable);
        case Wc('\"') => r := ReadTypedString(Regex, "#\"");
        case Wc('!') => r := ReadCommentRest();
        case Wc('_') => r := ReadDiscard();
        case _ => r := Failed(AssertionFailed);
      }
    }

    /** `read_form` */
    method ReadOneForm() returns (r: CResult)
      requires Valid()
      modifies this
      ensures Valid() && Did(ReadForm(text, old(Pos()), old(depth)), r, old(Now()), Now())
      decreases Left(text, Pos()), 0
    {
      hide ReadItems, ReadMacro, EventsAll, LineNumber, LineStart, Column;
      ghost var v0 := Now();
      ghost var p, q := Pos(), SkipSpace(text, Pos());
      var c := SkipWhitespace();
      if c == Weof {
        NoEvents(v0);
        return if depth > 0 then Failed(UnexpectedEof) else Done(Eof);
      }
      SkipThenForm(text, p, depth);
      match MacroOf(c.c) {
        case Some(m) =>
          r := ReadMacroForm(m);
        case None =>
          var number := IsDigit(c.c);
          if !number && IsSign(c.c) {
            var c1 := PeekChar();
            number := c1.Wc? && IsDigit(c1.c);
          }
          if number {
            r := ReadTokenRest(Number, c.c, 20);
          } else {
            r := ReadTokenRest(Symbol, c.c, 40);
          }
      }
    }

    /** `clj_read`, on a reader whose input has not been touched: the counters are reset and
        one form is read. Whatever the text, the events are those of the specification; they
        are a prefix of a well-nested sequence, and of at most one tree unless it failed. */
    method CljRead() returns (r: CResult)
      requires '\0' !in text && next == 0 && emitted == []
      modifies this
      ensures Valid() && Did(ReadForm(text, 0, 0), r, View(0, 0, 0, []), Now())
      ensures emitted == Emitted(ReadForm(text, 0, 0))
      ensures Nest([], emitted).Some?
      ensures r.Done? ==> depth == 0 && discard == 0 && (emitted == [] || exists n :: emitted == Events(n))
      ensures line == LineNumber(text, Pos()) && column == Column(text, Pos())
    {
      line, column, depth, discard, readback := 1, 0, 0, 0, EMPTY;
      r := ReadOneForm();
      EventsWellNested(text);
    }
  }

  // ---------------------------------------------------------------- how the parts compose

  datatype ItemResult = Item | Closed | Bad(error: Error)

  function Later(v: View, pos: nat, items: seq<Node>): View {
    v.(pos := pos, emitted := Visible(v, EventsAll(items)))
  }

  function Prepend(items: seq<Node>, o: Outcome): Outcome {
    match o
    case Ok(p, _, rest) => Ok(p, More, items + rest)
    case Fail(p, error, events) => Fail(p, error, EventsAll(items) + events)
  }

  lemma NoEvents(v: View)
    ensures Visible(v, []) == v.emitted && EventsAll([]) == []
  {
  }

  lemma PrependNothing(o: Outcome, v: View)
    requires o.Ok? ==> o.status == More
    ensures Prepend([], o) == o && Later(v, v.pos, []) == v
  {
    NoEvents(v);
  }

  ghost predicate ItemOutcome(coll: Coll, text: string, p: nat, depth: nat,
                              item: ItemResult, before: View, after: View)
  {
    var q := SkipSpace(text, p);
    if q >= |text| then item == Bad(UnexpectedEof) && after.pos == q + 1 && after.emitted == before.emitted
    else if text[q] == Closing(coll) then item == Closed && after == before.(pos := q + 1)
    else
      match item
      case Item =>
        && ReadForm(text, q, depth).Ok?
        && Did(ReadForm(text, q, depth), Done(ReadForm(text, q, depth).status), before, after)
      case Bad(e) => Did(ReadForm(text, q, depth), Failed(e), before, after)
      case Closed => false
  }

  lemma SkipThenForm(text: string, p: nat, depth: nat)
    ensures var q := SkipSpace(text, p); q < |text| ==> ReadForm(text, p, depth) == ReadForm(text, q, depth)
  {
  }

  lemma VisibleTwice(v: View, a: seq<Event>, b: seq<Event>)
    ensures Visible(v.(emitted := Visible(v, a)), b) == Visible(v, a + b)
  {
    assert v.emitted + a + b == v.emitted + (a + b);
  }

  lemma WrapDid(symbol: string, o: Outcome, r: CResult, v0: View, v1: View, v2: View)
    requires v1 == v0.(emitted := Visible(v0.(emitted := Visible(v0, [Begin(List, "(")])), [Atom(Symbol, symbol)]))
    requires Did(o, r, v1, v2)
    ensures r.Failed? ==> Did(Wrap(symbol, o), r, v0, v2)
    ensures r.Done? ==> Did(Wrap(symbol, o), r, v0, v2.(emitted := Visible(v2, [End(List, ")")])))
  {
    var begin := [Begin(List, "("), Atom(Symbol, symbol)];
    assert [Begin(List, "(")] + [Atom(Symbol, symbol)] == begin;
    VisibleTwice(v0, [Begin(List, "(")], [Atom(Symbol, symbol)]);
    match o
    case Fail(_, _, events) => VisibleTwice(v0, begin, events);
    case Ok(_, _, forest) =>
      VisibleTwice(v0, begin, EventsAll(forest));
      VisibleTwice(v0, begin + EventsAll(forest), [End(List, ")")]);
      WrapEvents(symbol, forest);
  }

  lemma WrapEvents(symbol: string, forest: seq<Node>)
    ensures EventsAll([Branch(List, [Leaf(Symbol, symbol)] + forest)]) ==
            [Begin(List, "("), Atom(Symbol, symbol)] + EventsAll(forest) + [End(List, ")")]
  {
    var items := [Leaf(Symbol, symbol)] + forest;
    assert items[1..] == forest;
    assert EventsAll(items) == [Atom(Symbol, symbol)] + EventsAll(forest);
    BranchEvents(List, items);
  }

  lemma BranchEvents(coll: Coll, items: seq<Node>)
    ensures EventsAll([Branch(coll, items)]) ==
            [Begin(coll, Opening(coll))] + EventsAll(items) + [End(coll, [Closing(coll)])]
  {
    assert [Branch(coll, items)][1..] == [];
  }

  lemma DiscardDid(o: Outcome, r: CResult, v0: View, v1: View, v2: View)
    requires v1 == v0.(discard := v0.discard + 1) && Did(o, r, v1, v2)
    ensures r.Failed? ==> Did(Discard(o), r, v0, v2)
    ensures r.Done? ==> v2.discard > 0 && Did(Discard(o), r, v0, v2.(discard := v2.discard - 1))
  {
    NoEvents(v0);
  }

  lemma PrependTwice(a: seq<Node>, b: seq<Node>, o: Outcome)
    ensures Prepend(a, Prepend(b, o)) == Prepend(a + b, o)
  {
    EventsConcat(a, b);
    match o
    case Ok(_, _, rest) => assert a + (b + rest) == a + b + rest;
    case Fail(_, _, events) => assert EventsAll(a) + (EventsAll(b) + events) == EventsAll(a) + EventsAll(b) + events;
  }

  function ItemsAfter(first: Outcome, coll: Coll, text: string, depth: nat): Outcome {
    match first
    case Ok(p1, _, f1) => Prepend(f1, ReadItems(coll, text, p1, depth))
    case Fail(_, _, _) => first
  }

  /** `ReadItems`, with the item that is here read as a form. */
  lemma ItemsHere(coll: Coll, text: string, p: nat, depth: nat)
    ensures var q := SkipSpace(text, p);
            q < |text| && text[q] != Closing(coll) ==>
              ReadItems(coll, text, p, depth) == ItemsAfter(ReadForm(text, q, depth), coll, text, depth)
  {
    hide ReadForm, ReadMacro, SkipSpace, EventsAll;
    var q := SkipSpace(text, p);
    if q < |text| {
      FormHere(text, q, depth);
    }
  }

  lemma ItemDid(coll: Coll, text: string, i: nat, item: ItemResult, items: seq<Node>, whole: Outcome,
                v1: View, v: View, v': View) returns (f: seq<Node>)
    requires ItemOutcome(coll, text, i, v1.depth, item, v, v') && v == Later(v1, i, items)
    requires whole == Prepend(items, ReadItems(coll, text, i, v1.depth))
    ensures item == Item ==>
      && v' == Later(v1, v'.pos, items + f) && v'.pos > i && i < |text|
      && whole == Prepend(items + f, ReadItems(coll, text, v'.pos, v1.depth))
    ensures item == Closed ==> f == [] && v' == Later(v1, v'.pos, items) && whole == Ok(v'.pos, More, items)
    ensures item.Bad? ==> Did(whole, Failed(item.error), v1, v')
  {
    var q := SkipSpace(text, i);
    f := [];
    ItemsHere(coll, text, i, v1.depth);
    if q >= |text| {
      assert EventsAll(items) + [] == EventsAll(items);
    } else if text[q] == Closing(coll) {
      assert items + [] == items;
    } else {
      match ReadForm(text, q, v1.depth)
      case Ok(p1, _, f1) =>
        f := f1;
        PrependTwice(items, f1, ReadItems(coll, text, p1, v1.depth));
        EventsConcat(items, f1);
        VisibleTwice(v1, EventsAll(items), EventsAll(f1));
      case Fail(_, _, events) =>
        VisibleTwice(v1, EventsAll(items), events);
    }
  }

  lemma BadDid(coll: Coll, whole: Outcome, error: Error, v0: View, v1: View, v: View)
    requires v1 == v0.(emitted := Visible(v0, [Begin(coll, Opening(coll))]), depth := v0.depth + 1)
    requires Did(whole, Failed(error), v1, v)
    ensures Did(Delimit(coll, whole), Failed(error), v0, v)
  {
    VisibleTwice(v0, [Begin(coll, Opening(coll))], whole.events);
  }

  lemma ClosedDid(coll: Coll, items: seq<Node>, v0: View, v1: View, v: View)
    requires v1 == v0.(emitted := Visible(v0, [Begin(coll, Opening(coll))]), depth := v0.depth + 1)
    requires v == Later(v1, v.pos, items)
    ensures v.depth > 0
    ensures Did(Delimit(coll, Ok(v.pos, More, items)), Done(More), v0,
                v.(depth := v.depth - 1, emitted := Visible(v, [End(coll, [Closing(coll)])])))
  {
    var begin, end := [Begin(coll, Opening(coll))], [End(coll, [Closing(coll)])];
    VisibleTwice(v0, begin, EventsAll(items));
    VisibleTwice(v0, begin + EventsAll(items), end);
    BranchEvents(coll, items);
  }
}
