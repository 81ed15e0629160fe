/** What the reader makes of everything that is not a printed tree: white space, comments,
    metadata and discarded forms, errors and texts that end too early. */
module EdnForms {
  import opened Edn
  import opened EdnTrees

  // ---------------------------------------------------------------- characters

  /** The characters between tokens. */
  const BLANKS: string := [' ', ',', '\t', '\n', '\r', 11 as char, 12 as char]

  /** The tokens by their characters: what each kind starts with, and what it goes on with. */
  lemma ValidTokensAre(kind: Kind, v: string)
    requires v != ""
    ensures kind == Symbol ==>
      (ValidToken(kind, v) <==>
        && v[0] !in BLANKS && v[0] !in "\":;'@^`~()[]{}\\%#" && !StartsNumber(v)
        && forall c :: c in v[1..] ==> c !in BLANKS && c !in "\";@^`~()[]{}\\%")
    ensures kind == Keyword ==>
      (ValidToken(kind, v) <==>
        v[0] == ':' && forall c :: c in v[1..] ==> c !in BLANKS && c !in "\";@^`~()[]{}\\%")
    ensures kind == Character ==>
      (ValidToken(kind, v) <==>
        v[0] == '\\' && forall c :: c in v[1..] ==> c !in BLANKS && c !in "\";@^`~()[]{}\\%")
    ensures kind == Number ==>
      (ValidToken(kind, v) <==>
        StartsNumber(v) && forall c :: c in v[1..] ==> c !in BLANKS && c !in "\":;'@^`~()[]{}\\%#")
  {
    hide StringEnd;
    BlanksAre();
    TerminatorsAre(kind);
  }

  lemma BlanksAre()
    ensures forall c :: IsSpace(c) <==> c in BLANKS
  {
    assert BLANKS[0] == ' ' && BLANKS[1] == ',' && BLANKS[2] == '\t' && BLANKS[3] == '\n' && BLANKS[4] == '\r';
    assert BLANKS[5] == 11 as char && BLANKS[6] == 12 as char;
  }

  lemma TerminatorsAre(kind: Kind)
    ensures forall c :: MacroOf(c).Some? <==> c in "\":;'@^`~()[]{}\\%#"
    ensures forall c :: Terminates(kind, c) <==>
      if kind == Number then c in "\":;'@^`~()[]{}\\%#" else c in "\";@^`~()[]{}\\%"
  {
  }

  /** A digit, or a sign and a digit. */
  predicate StartsNumber(v: string) {
    v != "" && (v[0] in "0123456789" || (v[0] in "+-" && |v| > 1 && v[1] in "0123456789"))
  }

  lemma BracketsAre()
    ensures Opening(List) == "(" && Opening(Vector) == "[" && Opening(Map) == "{" && Opening(Set) == "#{"
    ensures Closing(List) == ')' && Closing(Vector) == ']' && Closing(Map) == '}' && Closing(Set) == '}'
  {
  }

  // ---------------------------------------------------------------- white space

  lemma {:induction false} SkipBlanks(text: string, p: nat, w: string)
    requires Occurs(text, p, w) && forall c :: c in w ==> c in BLANKS
    ensures SkipSpace(text, p) == SkipSpace(text, p + |w|)
    decreases |w|
  {
    if w != "" {
      BlanksAre();
      OccursAt(text, p, w, 0);
      assert w == [w[0]] + w[1..];
      OccursSplit(text, p, [w[0]], w[1..]);
      SkipBlanks(text, p + 1, w[1..]);
    }
  }

  /** Any white space in front of a form or an item makes no difference. */
  lemma BlanksSkipped(coll: Coll, text: string, p: nat, w: string, depth: nat)
    requires Occurs(text, p, w) && forall c :: c in w ==> c in BLANKS
    ensures ReadForm(text, p, depth) == ReadForm(text, p + |w|, depth)
    ensures ReadItems(coll, text, p, depth) == ReadItems(coll, text, p + |w|, depth)
  {
    hide SkipSpace, Occurs, ReadMacro;
    SkipBlanks(text, p, w);
  }

  /** Where only white space is left there is no form, which is an error inside another one. */
  lemma NothingLeft(coll: Coll, text: string, p: nat, depth: nat)
    requires p <= |text| && forall c :: c in text[p..] ==> c in BLANKS
    ensures ReadForm(text, p, depth) ==
      if depth > 0 then Fail(|text| + 1, UnexpectedEof, []) else Ok(|text| + 1, Eof, [])
    ensures ReadItems(coll, text, p, depth) == Fail(|text| + 1, UnexpectedEof, [])
  {
    BlanksSkipped(coll, text, p, text[p..], depth);
  }

  // ---------------------------------------------------------------- comments

  lemma {:induction false} LineEndIs(text: string, p: nat, q: nat)
    requires p <= q <= |text| && (forall i :: p <= i < q ==> text[i] != '\n' && text[i] != '\r')
    requires q < |text| ==> text[q] == '\n' || text[q] == '\r'
    ensures LineEnd(text, p) == q
    decreases q - p
  {
    if p < q {
      LineEndIs(text, p + 1, q);
    }
  }

  lemma CommentHere(text: string, p: nat, open: string, depth: nat)
    requires open in {";", "#!"} && Occurs(text, p, open)
    ensures ReadForm(text, p, depth) == ReadComment(text, p + |open|)
    ensures !IsSpace(text[p]) && MacroOf(text[p]).Some?
    ensures ReadMacro(MacroOf(text[p]).value, text, p + 1, depth) == ReadComment(text, p + |open|)
  {
    hide ReadComment, ReadForm;
    OccursAt(text, p, open, 0);
    if open == "#!" {
      OccursAt(text, p, open, 1);
      assert CharAt(text, p + 1) == Wc('!');
    }
    FormHere(text, p, depth);
  }

  lemma LineOf(text: string, p: nat, line: string)
    requires Occurs(text, p, line) && '\n' !in line && '\r' !in line
    requires p + |line| < |text| ==> text[p + |line|] == '\n' || text[p + |line|] == '\r'
    ensures LineEnd(text, p) == p + |line|
  {
    forall i | p <= i < p + |line| ensures text[i] != '\n' && text[i] != '\r' {
      OccursAt(text, p, line, i - p);
      assert line[i - p] in line;
    }
    LineEndIs(text, p, p + |line|);
  }

  /** A comment is read through the end of its line, whatever it says, and leaves nothing; among
      items, reading goes on behind it. */
  lemma CommentSkipped(coll: Coll, text: string, p: nat, open: string, line: string, end: char, depth: nat)
    requires open in {";", "#!"} && '\n' !in line && '\r' !in line && end in {'\n', '\r'}
    requires Occurs(text, p, open + line + [end])
    ensures var q := p + |open| + |line| + 1;
      && ReadForm(text, p, depth) == Ok(q, More, [])
      && ReadItems(coll, text, p, depth) == ReadItems(coll, text, q, depth)
  {
    hide ReadForm, ReadItems, ReadMacro, LineEnd;
    CommentParts(text, p, open, line, end);
    var q := p + |open| + |line|;
    CommentHere(text, p, open, depth);
    LineOf(text, p + |open|, line);
    assert ReadComment(text, p + |open|) == Ok(q + 1, More, []);
    NoItem(coll, text, p, q + 1, More, depth);
  }

  lemma CommentParts(text: string, p: nat, open: string, line: string, end: char)
    requires Occurs(text, p, open + line + [end])
    ensures Occurs(text, p, open) && Occurs(text, p + |open|, line)
    ensures var q := p + |open| + |line|; q < |text| && text[q] == end
  {
    OccursSplit(text, p, open + line, [end]);
    OccursSplit(text, p, open, line);
    OccursAt(text, p + |open + line|, [end], 0);
  }

  /** The last line may end with the text. */
  lemma CommentToTheEnd(text: string, p: nat, open: string, line: string, depth: nat)
    requires open in {";", "#!"} && '\n' !in line && '\r' !in line
    requires Occurs(text, p, open + line) && p + |open + line| == |text|
    ensures ReadForm(text, p, depth) == Ok(|text| + 1, Eof, [])
  {
    hide ReadForm, LineEnd;
    OccursSplit(text, p, open, line);
    CommentHere(text, p, open, depth);
    LineOf(text, p + |open|, line);
  }

  /** A form that leaves nothing is no item. */
  lemma NoItem(coll: Coll, text: string, p: nat, q: nat, status: Status, depth: nat)
    requires p < |text| && !IsSpace(text[p]) && MacroOf(text[p]).Some? && text[p] !in {')', ']', '}'}
    requires ReadMacro(MacroOf(text[p]).value, text, p + 1, depth) == Ok(q, status, [])
    ensures ReadItems(coll, text, p, depth) == ReadItems(coll, text, q, depth)
  {
    ItemsMore(coll, text, q, depth);
    ItemsStep(coll, text, p, depth);
    var o := ReadItems(coll, text, q, depth);
    assert o.Ok? ==> [] + o.forest == o.forest;
    assert o.Fail? ==> EventsAll([]) + o.events == o.events;
  }

  lemma ItemsMore(coll: Coll, text: string, p: nat, depth: nat)
    ensures var o := ReadItems(coll, text, p, depth); o.Ok? ==> o.status == More
  {
  }

  /** The items from a character that neither is blank nor closes them. */
  lemma ItemsStep(coll: Coll, text: string, p: nat, depth: nat)
    requires p < |text| && !IsSpace(text[p]) && text[p] != Closing(coll)
    ensures var first := ReadForm(text, p, depth);
      ReadItems(coll, text, p, depth) ==
        if first.Fail? then first else Prepend(first.forest, ReadItems(coll, text, first.pos, depth))
    ensures MacroOf(text[p]).Some? ==>
      ReadForm(text, p, depth) == ReadMacro(MacroOf(text[p]).value, text, p + 1, depth)
  {
    FormHere(text, p, depth);
  }

  function Prepend(ns: seq<Node>, o: Outcome): Outcome {
    match o
    case Ok(pos, _, forest) => Ok(pos, More, ns + forest)
    case Fail(pos, error, events) => Fail(pos, error, EventsAll(ns) + events)
  }

  // ---------------------------------------------------------------- metadata and discards

  lemma DiscardHere(text: string, p: nat, mark: string, depth: nat)
    requires mark in {"^", "#_"} && Occurs(text, p, mark)
    ensures ReadForm(text, p, depth) == Discard(ReadForm(text, p + |mark|, depth))
    ensures p < |text| && !IsSpace(text[p]) && MacroOf(text[p]).Some? && text[p] !in {')', ']', '}'}
    ensures ReadMacro(MacroOf(text[p]).value, text, p + 1, depth) == Discard(ReadForm(text, p + |mark|, depth))
  {
    hide ReadForm;
    OccursAt(text, p, mark, 0);
    if mark == "#_" {
      OccursAt(text, p, mark, 1);
      assert CharAt(text, p + 1) == Wc('_');
    }
    FormHere(text, p, depth);
  }

  /** A form marked as metadata or to be discarded is read to its end and leaves nothing. */
  lemma MarkedSkipped(coll: Coll, n: Node, text: string, p: nat, mark: string, depth: nat)
    requires mark in {"^", "#_"} && ValidNode(n) && Occurs(text, p, mark + Print(n))
    requires Delimited(text, p + |mark| + |Print(n)|)
    ensures var q := p + |mark| + |Print(n)|;
      && ReadForm(text, p, depth) == Ok(q, StatusAfter(n, text, q), [])
      && ReadItems(coll, text, p, depth) == ReadItems(coll, text, q, depth)
  {
    hide ReadForm, ReadItems, ReadMacro, Print, ValidNode, Delimited;
    OccursSplit(text, p, mark, Print(n));
    DiscardHere(text, p, mark, depth);
    ReadPrint(n, text, p + |mark|, depth);
    var q := p + |mark| + |Print(n)|;
    NoItem(coll, text, p, q, StatusAfter(n, text, q), depth);
  }

  /** When it cannot be read its error stands, and its events are gone. */
  lemma MarkedFails(text: string, p: nat, mark: string, depth: nat)
    requires mark in {"^", "#_"} && Occurs(text, p, mark) && ReadForm(text, p + |mark|, depth).Fail?
    ensures var o := ReadForm(text, p + |mark|, depth); ReadForm(text, p, depth) == Fail(o.pos, o.error, [])
  {
    hide ReadForm;
    DiscardHere(text, p, mark, depth);
  }

  // ---------------------------------------------------------------- errors

  /** What cannot start a form, each with its error. */
  lemma Refused(text: string, p: nat, depth: nat)
    requires p < |text|
    ensures text[p] in "`~%" ==> ReadForm(text, p, depth) == Fail(p + 1, NotImplemented, [])
    ensures text[p] in ")]}" ==> ReadForm(text, p, depth) == Fail(p + 1, UnmatchedDelimiter, [])
    ensures text[p] == '#' && p + 1 < |text| && text[p + 1] == '<' ==>
      ReadForm(text, p, depth) == Fail(p + 2, Unreadable, [])
    ensures text[p] == '#' && (p + 1 < |text| ==> text[p + 1] !in "{<\"!_") ==>
      ReadForm(text, p, depth) == Fail(p + 2, AssertionFailed, [])
  {
    if text[p] in "`~%)]}#" {
      FormHere(text, p, depth);
    }
  }

  /** A failure among the items is the failure of the whole. */
  lemma ItemFails(coll: Coll, text: string, p: nat, depth: nat)
    requires p < |text| && text[p] !in BLANKS && text[p] != Closing(coll) && ReadForm(text, p, depth).Fail?
    ensures ReadItems(coll, text, p, depth) == ReadForm(text, p, depth)
  {
    hide ReadForm, ReadItems;
    BlanksAre();
    ItemsStep(coll, text, p, depth);
  }

  // ---------------------------------------------------------------- items and what follows them

  lemma {:induction false} PrependTwice(a: seq<Node>, b: seq<Node>, o: Outcome)
    ensures Prepend(a, Prepend(b, o)) == Prepend(a + b, o)
  {
    EventsConcat(a, b);
    if o.Ok? {
      assert a + (b + o.forest) == a + b + o.forest;
    } else {
      assert EventsAll(a) + (EventsAll(b) + o.events) == EventsAll(a) + EventsAll(b) + o.events;
    }
  }

  lemma ItemHere(n: Node, coll: Coll, text: string, p: nat, depth: nat)
    requires ValidNode(n) && Occurs(text, p, Print(n)) && Delimited(text, p + |Print(n)|)
    ensures ReadItems(coll, text, p, depth) == Prepend([n], ReadItems(coll, text, p + |Print(n)|, depth))
  {
    hide ReadForm, ReadItems, Print, ValidNode, Delimited;
    ReadPrint(n, text, p, depth);
    PrintStarts(n);
    OccursAt(text, p, Print(n), 0);
    ItemsStep(coll, text, p, depth);
  }

  /** Printed items in front of anything are read first, and it is read behind them. */
  lemma {:induction false} ItemsBefore(ns: seq<Node>, coll: Coll, text: string, p: nat, depth: nat)
    requires ValidNodes(ns) && Occurs(text, p, PrintAll(ns)) && Delimited(text, p + |PrintAll(ns)|)
    ensures ReadItems(coll, text, p, depth) == Prepend(ns, ReadItems(coll, text, p + |PrintAll(ns)|, depth))
    decreases |ns|
  {
    hide ReadForm, ReadItems, Print, ValidNode, Delimited;
    if ns == [] {
      ItemsMore(coll, text, p, depth);
      var o := ReadItems(coll, text, p, depth);
      assert o.Ok? ==> [] + o.forest == o.forest;
      assert o.Fail? ==> EventsAll([]) + o.events == o.events;
    } else {
      assert ns == [ns[0]] + ns[1..];
      if |ns| == 1 {
        assert ns == [ns[0]] && PrintAll(ns) == Print(ns[0]);
        ItemHere(ns[0], coll, text, p, depth);
      } else {
        var p1 := p + |Print(ns[0])|;
        FirstOfMany(ns, text, p);
        ItemHere(ns[0], coll, text, p, depth);
        SpaceBefore(coll, text, p1, depth);
        ItemsBefore(ns[1..], coll, text, p1 + 1, depth);
        PrependTwice([ns[0]], ns[1..], ReadItems(coll, text, p + |PrintAll(ns)|, depth));
      }
    }
  }

  lemma FirstOfMany(ns: seq<Node>, text: string, p: nat)
    requires |ns| > 1 && Occurs(text, p, PrintAll(ns))
    ensures var p1 := p + |Print(ns[0])|;
      && Occurs(text, p, Print(ns[0])) && p1 < |text| && text[p1] == ' ' && Delimited(text, p1)
      && Occurs(text, p1 + 1, PrintAll(ns[1..])) && p1 + 1 + |PrintAll(ns[1..])| == p + |PrintAll(ns)|
  {
    hide Print, Occurs;
    SplitAtSpace(text, p, Print(ns[0]), PrintAll(ns[1..]));
  }

  lemma SplitAtSpace(text: string, p: nat, s: string, rest: string)
    requires Occurs(text, p, s + " " + rest)
    ensures Occurs(text, p, s) && Occurs(text, p + |s| + 1, rest)
    ensures p + |s| < |text| && text[p + |s|] == ' '
  {
    assert s + " " + rest == s + (" " + rest);
    OccursSplit(text, p, s, " " + rest);
    OccursSplit(text, p + |s|, " ", rest);
    OccursAt(text, p + |s|, " ", 0);
  }

  lemma ItemsOf(coll: Coll, ns: seq<Node>, rest: string)
    requires ValidNodes(ns) && Delimited(rest, 0)
    ensures var text := Opening(coll) + PrintAll(ns) + rest;
      var p := |Opening(coll) + PrintAll(ns)|;
      ReadForm(text, 0, 0) == Delimit(coll, Prepend(ns, ReadItems(coll, text, p, 1)))
  {
    hide ReadForm, ReadItems, PrintAll, ValidNodes, EventsAll, Opening;
    var text, p := Opening(coll) + PrintAll(ns) + rest, |Opening(coll) + PrintAll(ns)|;
    assert text[0..p] == Opening(coll) + PrintAll(ns);
    assert p < |text| ==> text[p] == rest[0];
    OccursSplit(text, 0, Opening(coll), PrintAll(ns));
    BranchHere(coll, text, 0, 0);
    ItemsBefore(ns, coll, text, |Opening(coll)|, 1);
  }

  /** A form that is not closed: what was begun has been reported when the text ends. */
  lemma Unclosed(coll: Coll, ns: seq<Node>)
    requires ValidNodes(ns)
    ensures var text := Opening(coll) + PrintAll(ns);
      ReadForm(text, 0, 0) ==
        Fail(|text| + 1, UnexpectedEof, [Begin(coll, Opening(coll))] + (EventsAll(ns) + []))
  {
    hide ReadForm, ReadItems, PrintAll, ValidNodes, EventsAll, Opening;
    var text := Opening(coll) + PrintAll(ns);
    assert text + "" == text;
    ItemsOf(coll, ns, "");
    NothingLeft(coll, text, |text|, 1);
  }

  /** A form with an item that cannot be read, such as the closing of another one. */
  lemma Spoilt(coll: Coll, ns: seq<Node>, bad: string)
    requires ValidNodes(ns) && bad != "" && bad[0] in ")]}`~%" && bad[0] != Closing(coll)
    ensures var text := Opening(coll) + PrintAll(ns) + bad;
      ReadForm(text, 0, 0) ==
        Fail(|Opening(coll) + PrintAll(ns)| + 1, if bad[0] in ")]}" then UnmatchedDelimiter else NotImplemented,
             [Begin(coll, Opening(coll))] + (EventsAll(ns) + []))
  {
    hide ReadForm, ReadItems, PrintAll, ValidNodes, EventsAll, Opening, Closing;
    var text, p := Opening(coll) + PrintAll(ns) + bad, |Opening(coll) + PrintAll(ns)|;
    assert text[p] == bad[0];
    ItemsOf(coll, ns, bad);
    Refused(text, p, 1);
    ItemFails(coll, text, p, 1);
  }

  // ---------------------------------------------------------------- quotes

  /** A quoted form that fails has begun its list; one in front of a comment quotes nothing. */
  lemma QuoteFails(text: string, p: nat, deref: bool, depth: nat)
    requires Occurs(text, p, if deref then "@" else "'") && ReadForm(text, p + 1, depth).Fail?
    ensures var o := ReadForm(text, p + 1, depth);
      ReadForm(text, p, depth) ==
        Fail(o.pos, o.error, [Begin(List, "("), Atom(Symbol, if deref then "deref" else "quote")] + o.events)
  {
    hide ReadForm;
    OccursAt(text, p, if deref then "@" else "'", 0);
    FormHere(text, p, depth);
  }

  /** Inside another form a quote must be followed by one. */
  lemma QuoteUnclosed(coll: Coll, ns: seq<Node>)
    requires ValidNodes(ns)
    ensures var text := Opening(coll) + PrintAll(ns) + " '";
      ReadForm(text, 0, 0) ==
        Fail(|text| + 1, UnexpectedEof,
             [Begin(coll, Opening(coll))] + (EventsAll(ns) + ([Begin(List, "("), Atom(Symbol, "quote")] + [])))
  {
    hide ReadForm, ReadItems, PrintAll, ValidNodes, EventsAll, Opening;
    var text, p := Opening(coll) + PrintAll(ns) + " '", |Opening(coll) + PrintAll(ns)|;
    assert text[p] == ' ' && text[p + 1] == '\'' && text[p + 1..p + 2] == "'";
    ItemsOf(coll, ns, " '");
    SpaceBefore(coll, text, p, 1);
    NothingLeft(coll, text, p + 2, 1);
    QuoteFails(text, p + 1, false, 1);
    ItemFails(coll, text, p + 1, 1);
  }

  lemma QuotedComment(line: string)
    requires '\n' !in line && '\r' !in line
    ensures var text := "';" + line + "\n";
      ReadForm(text, 0, 0) == Ok(|text|, More, [Branch(List, [Leaf(Symbol, "quote")])])
  {
    hide ReadForm, ReadItems;
    var text := "';" + line + "\n";
    assert text[1..|text|] == ";" + line + ['\n'];
    CommentSkipped(List, text, 1, ";", line, '\n', 0);
    FormHere(text, 0, 0);
    assert [Leaf(Symbol, "quote")] + [] == [Leaf(Symbol, "quote")];
  }

  /** A character that is a delimiter is not read as one: the backslash alone is the character. */
  lemma BackslashAlone(c: char, rest: string)
    requires c in "()[]{}\";@^`~\\%"
    ensures ReadForm(['\\', c] + rest, 0, 0) == Ok(1, More, [Leaf(Character, "\\")])
  {
    var text := ['\\', c] + rest;
    assert text[1] == c && Terminates(Character, c) && !IsSpace(c);
    FormHere(text, 0, 0);
    assert TokenEnd(Character, text, 1) == 1;
    assert ['\\'] + "" == "\\";
  }

  // ---------------------------------------------------------------- strings

  ghost predicate NeverCloses(text: string, from: nat) {
    forall i :: from <= i < |text| ==> !Closes(text, from, i)
  }

  /** A string without its closing quote. */
  lemma StringUnclosed(text: string, p: nat, depth: nat)
    requires p < |text| && text[p] == '\"' && NeverCloses(text, p + 1)
    ensures ReadForm(text, p, depth) == Fail(|text| + 1, UnexpectedEof, [])
  {
    hide StringEnd;
    StringEndsAtEvenQuote(text, p + 1);
    FormHere(text, p, depth);
  }

  // ---------------------------------------------------------------- events

  lemma {:induction false} EventsCancel(m: Node, n: Node, x: seq<Event>, y: seq<Event>)
    requires Events(m) + x == Events(n) + y
    ensures m == n && x == y
    decreases m, 0
  {
    assert (Events(m) + x)[0] == Events(m)[0] && (Events(n) + y)[0] == Events(n)[0];
    if m.Branch? && n.Branch? {
      var e := End(m.coll, [Closing(m.coll)]);
      var a, b := EventsAll(m.items) + ([e] + x), EventsAll(n.items) + ([e] + y);
      assert Events(m) + x == [Begin(m.coll, Opening(m.coll))] + a;
      assert Events(n) + y == [Begin(m.coll, Opening(m.coll))] + b;
      assert ([Begin(m.coll, Opening(m.coll))] + a)[1..] == a && ([Begin(m.coll, Opening(m.coll))] + b)[1..] == b;
      ItemsCancel(m.items, n.items, e, x, y);
    } else {
      assert (Events(m) + x)[1..] == x && (Events(n) + y)[1..] == y;
    }
  }

  lemma {:induction false} ItemsCancel(a: seq<Node>, b: seq<Node>, e: Event, x: seq<Event>, y: seq<Event>)
    requires e.End? && EventsAll(a) + ([e] + x) == EventsAll(b) + ([e] + y)
    ensures a == b && x == y
    decreases a, 1
  {
    var s, t := EventsAll(a) + ([e] + x), EventsAll(b) + ([e] + y);
    FirstEvent(a, [e] + x);
    FirstEvent(b, [e] + y);
    if a == [] || b == [] {
      assert a == [] && b == [];
      assert s[1..] == x && t[1..] == y;
    } else {
      var u, v := EventsAll(a[1..]) + ([e] + x), EventsAll(b[1..]) + ([e] + y);
      assert s == Events(a[0]) + u && t == Events(b[0]) + v;
      EventsCancel(a[0], b[0], u, v);
      ItemsCancel(a[1..], b[1..], e, x, y);
      assert a == [a[0]] + a[1..] && b == [b[0]] + b[1..];
    }
  }

  lemma FirstEvent(a: seq<Node>, rest: seq<Event>)
    requires rest != [] && rest[0].End?
    ensures (EventsAll(a) + rest)[0].End? <==> a == []
  {
    if a != [] {
      assert (EventsAll(a) + rest)[0] == Events(a[0])[0];
    }
  }

  /** The events tell which tree was read. */
  lemma EventsInjective(m: Node, n: Node)
    requires Events(m) == Events(n)
    ensures m == n
  {
    EventsCancel(m, n, [], []);
  }

  // ---------------------------------------------------------------- lines and columns

  ghost function LineEnds(text: string, p: nat): set<nat> {
    set i: nat | i < p && i < |text| && (text[i] == '\n' || text[i] == '\r')
  }

  /** The line is one more than the line ends before the position, and the column counts from
      after the last of them. */
  lemma {:induction false} CountersAre(text: string, p: nat)
    ensures LineNumber(text, p) == 1 + |LineEnds(text, p)|
    ensures var s := p - Column(text, p);
      && 0 <= s <= p && (s > 0 ==> s <= |text| && (text[s - 1] == '\n' || text[s - 1] == '\r'))
      && forall i :: s <= i < p && i < |text| ==> text[i] != '\n' && text[i] != '\r'
  {
    if p == 0 {
      assert LineEnds(text, 0) == {};
    } else {
      CountersAre(text, p - 1);
      OneMore(text, p - 1);
    }
  }

  lemma OneMore(text: string, p: nat)
    ensures |LineEnds(text, p + 1)|
      == |LineEnds(text, p)| + if p < |text| && (text[p] == '\n' || text[p] == '\r') then 1 else 0
  {
    assert LineEnds(text, p + 1) ==
      if p < |text| && (text[p] == '\n' || text[p] == '\r') then LineEnds(text, p) + {p} else LineEnds(text, p);
  }
}
