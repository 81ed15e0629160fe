/** Reading undoes printing, and every event sequence the reader emits is properly nested. */
module EdnTrees {
  import opened Edn

  // ---------------------------------------------------------------- printing

  function Print(n: Node): string
    decreases n, 0
  {
    match n
    case Leaf(_, value) => value
    case Branch(coll, items) => Opening(coll) + PrintAll(items) + [Closing(coll)]
  }

  /** Single spaces between the items. */
  function PrintAll(ns: seq<Node>): string
    decreases ns, 1
  {
    if ns == [] then "" else if |ns| == 1 then Print(ns[0]) else Print(ns[0]) + " " + PrintAll(ns[1..])
  }

  predicate TokenChars(kind: Kind, s: string) {
    forall c :: c in s ==> !IsSpace(c) && !Terminates(kind, c)
  }

  /** The tokens that stand for themselves. */
  predicate ValidToken(kind: Kind, v: string) {
    v != "" && match kind
    case Symbol =>
      !IsSpace(v[0]) && MacroOf(v[0]).None? && !AtNumber(v, 0) && TokenChars(kind, v[1..])
    case Number => AtNumber(v, 0) && TokenChars(kind, v[1..])
    case Keyword => v[0] == ':' && TokenChars(kind, v[1..])
    case Character => v[0] == '\\' && TokenChars(kind, v[1..])
    case String => v[0] == '\"' && StringEnd(v, 1, false) == |v| - 1
    case Regex => |v| > 1 && v[..2] == "#\"" && StringEnd(v, 2, false) == |v| - 1
  }

  predicate ValidNode(n: Node)
    decreases n, 0
  {
    match n
    case Leaf(kind, value) => ValidToken(kind, value)
    case Branch(_, items) => ValidNodes(items)
  }

  predicate ValidNodes(ns: seq<Node>)
    decreases ns, 1
  {
    ns == [] || (ValidNode(ns[0]) && ValidNodes(ns[1..]))
  }

  ghost predicate Occurs(text: string, p: nat, s: string) {
    p + |s| <= |text| && text[p..p + |s|] == s
  }

  lemma OccursAt(text: string, p: nat, s: string, k: nat)
    requires Occurs(text, p, s) && k < |s|
    ensures text[p + k] == s[k]
  {
    assert text[p..p + |s|][k] == s[k];
  }

  lemma InText(text: string, p: nat, s: string)
    requires Occurs(text, p, s)
    ensures p + |s| <= |text|
  {
  }

  lemma OccursSplit(text: string, p: nat, a: string, b: string)
    requires Occurs(text, p, a + b)
    ensures Occurs(text, p, a) && Occurs(text, p + |a|, b)
  {
    assert (a + b)[..|a|] == a && (a + b)[|a|..] == b;
    assert text[p..p + |a + b|][..|a|] == text[p..p + |a|];
    assert text[p..p + |a + b|][|a|..] == text[p + |a|..p + |a + b|];
  }

  /** A token can end at `p`: at the end of the text, white space or a delimiter. */
  predicate Delimited(text: string, p: nat) {
    p < |text| ==> IsSpace(text[p]) || text[p] in "()[]{}\";@^`~\\%"
  }

  lemma {:induction false} TokenEndIs(kind: Kind, text: string, p: nat, q: nat)
    requires p <= q <= |text| && (forall i :: p <= i < q ==> !IsSpace(text[i]) && !Terminates(kind, text[i]))
    requires Delimited(text, q)
    ensures TokenEnd(kind, text, p) == q
    decreases q - p
  {
    if p < q {
      TokenEndIs(kind, text, p + 1, q);
    }
  }

  /** The scan of a string does not depend on what stands around it. */
  lemma {:induction false} StringEndMoves(text: string, p: nat, v: string, i: nat, escape: bool)
    requires Occurs(text, p, v) && i < |v| && StringEnd(v, i, escape) == |v| - 1
    ensures StringEnd(text, p + i, escape) == p + |v| - 1
    decreases |v| - i
  {
    OccursAt(text, p, v, i);
    if v[i] == '\\' {
      StringEndMoves(text, p, v, i + 1, !escape);
    } else if v[i] == '\"' && !escape {
    } else {
      StringEndMoves(text, p, v, i + 1, false);
    }
  }

  function StatusAfter(n: Node, text: string, p: nat): Status {
    if n.Leaf? && n.kind != String && n.kind != Regex then StatusAt(text, p) else More
  }

  lemma TokenRead(kind: Kind, v: string, text: string, p: nat, initch: char)
    requires v != "" && Occurs(text, p, v) && TokenChars(kind, v[1..]) && initch == v[0]
    requires Delimited(text, p + |v|)
    ensures ReadToken(kind, text, p + 1, initch) ==
            Ok(p + |v|, StatusAt(text, p + |v|), [Leaf(kind, v)])
  {
    forall i | p + 1 <= i < p + |v| ensures !IsSpace(text[i]) && !Terminates(kind, text[i]) {
      OccursAt(text, p, v, i - p);
      assert v[1..][i - p - 1] in v[1..];
    }
    TokenEndIs(kind, text, p + 1, p + |v|);
    assert text[p..p + |v|] == [text[p]] + text[p + 1..p + |v|];
    OccursAt(text, p, v, 0);
    assert |v| == 1 ==> v == [v[0]];
  }

  lemma StringRead(kind: Kind, prefix: string, v: string, text: string, p: nat)
    requires Occurs(text, p, v) && 0 < |prefix| < |v| && v[..|prefix|] == prefix
    requires StringEnd(v, |prefix|, false) == |v| - 1
    ensures ReadString(kind, prefix, text, p + |prefix|) == Ok(p + |v|, More, [Leaf(kind, v)])
  {
    hide StringEnd, Occurs, ReadString;
    var rest := v[|prefix|..];
    assert prefix + rest == v;
    InText(text, p, v);
    StringEndMoves(text, p, v, |prefix|, false);
    OccursSplit(text, p, prefix, rest);
    StringHere(kind, prefix, rest, text, p + |prefix|);
  }

  lemma StringHere(kind: Kind, prefix: string, rest: string, text: string, p: nat)
    requires Occurs(text, p, rest) && StringEnd(text, p, false) == p + |rest| - 1 < |text|
    ensures ReadString(kind, prefix, text, p) == Ok(p + |rest|, More, [Leaf(kind, prefix + rest)])
  {
    hide StringEnd;
  }

  /** A form whose first character is here. */
  lemma FormHere(text: string, p: nat, depth: nat)
    requires p < |text| && !IsSpace(text[p])
    ensures ReadForm(text, p, depth) ==
      match MacroOf(text[p])
      case Some(m) => ReadMacro(m, text, p + 1, depth)
      case None => ReadToken(if AtNumber(text, p) then Number else Symbol, text, p + 1, text[p])
  {
  }

  lemma AtomRead(kind: Kind, v: string, text: string, p: nat, depth: nat)
    requires (kind == Symbol || kind == Number) && ValidToken(kind, v) && Occurs(text, p, v) && Delimited(text, p + |v|)
    ensures ReadForm(text, p, depth) == Ok(p + |v|, StatusAt(text, p + |v|), [Leaf(kind, v)])
  {
    hide ReadForm, ReadToken, SkipSpace, TokenEnd;
    OccursAt(text, p, v, 0);
    FormHere(text, p, depth);
    NumberHere(v, text, p);
    TokenRead(kind, v, text, p, text[p]);
  }

  lemma LeafRead(kind: Kind, v: string, text: string, p: nat, depth: nat)
    requires ValidToken(kind, v) && Occurs(text, p, v) && Delimited(text, p + |v|)
    ensures ReadForm(text, p, depth) == Ok(p + |v|, StatusAfter(Leaf(kind, v), text, p + |v|), [Leaf(kind, v)])
  {
    hide ReadForm, ReadToken, SkipSpace, TokenEnd, StringEnd, ReadItems;
    OccursAt(text, p, v, 0);
    match kind
    case Symbol => AtomRead(kind, v, text, p, depth);
    case Number => AtomRead(kind, v, text, p, depth);
    case Keyword => FormHere(text, p, depth); TokenRead(kind, v, text, p, ':');
    case Character => FormHere(text, p, depth); TokenRead(kind, v, text, p, '\\');
    case String =>
      FormHere(text, p, depth);
      assert v[..1] == "\"";
      StringRead(kind, "\"", v, text, p);
    case Regex => RegexRead(v, text, p, depth);
  }

  lemma RegexRead(v: string, text: string, p: nat, depth: nat)
    requires ValidToken(Regex, v) && Occurs(text, p, v)
    ensures ReadForm(text, p, depth) == Ok(p + |v|, More, [Leaf(Regex, v)])
  {
    hide ReadForm, ReadToken, SkipSpace, StringEnd, ReadItems;
    assert v[..2][0] == '#' && v[..2][1] == '\"';
    OccursAt(text, p, v, 0);
    OccursAt(text, p, v, 1);
    FormHere(text, p, depth);
    StringRead(Regex, "#\"", v, text, p);
  }

  lemma NumberHere(v: string, text: string, p: nat)
    requires v != "" && Occurs(text, p, v) && Delimited(text, p + |v|)
    ensures AtNumber(text, p) == AtNumber(v, 0)
  {
    OccursAt(text, p, v, 0);
    if |v| > 1 {
      OccursAt(text, p, v, 1);
    }
  }

  /** The first character of a printed form starts it: no white space, no closing. */
  lemma PrintStarts(n: Node)
    requires ValidNode(n)
    ensures var s := Print(n); s != "" && !IsSpace(s[0]) && s[0] !in {')', ']', '}'}
  {
  }

  /** Reading undoes printing, anywhere in a text. */
  lemma {:induction false} ReadPrint(n: Node, text: string, p: nat, depth: nat)
    requires ValidNode(n) && Occurs(text, p, Print(n)) && Delimited(text, p + |Print(n)|)
    ensures ReadForm(text, p, depth) == Ok(p + |Print(n)|, StatusAfter(n, text, p + |Print(n)|), [n])
    decreases n, 0
  {
    match n
    case Leaf(kind, value) => LeafRead(kind, value, text, p, depth);
    case Branch(coll, items) =>
      ReadPrintBranch(coll, items, text, p, depth);
  }

  lemma {:induction false} ReadPrintBranch(coll: Coll, items: seq<Node>, text: string, p: nat, depth: nat)
    requires ValidNodes(items) && Occurs(text, p, Print(Branch(coll, items)))
    ensures ReadForm(text, p, depth) == Ok(p + |Print(Branch(coll, items))|, More, [Branch(coll, items)])
    decreases items, 2
  {
    hide ReadForm, ReadItems, Print, PrintAll, ValidNodes;
    var p1 := p + |Opening(coll)|;
    PrintedBranch(coll, items, text, p);
    ReadPrintAll(items, coll, text, p1, depth + 1);
    BranchDone(coll, items, text, p, p1 + |PrintAll(items)| + 1, depth);
  }

  lemma PrintedBranch(coll: Coll, items: seq<Node>, text: string, p: nat)
    requires Occurs(text, p, Print(Branch(coll, items)))
    ensures Occurs(text, p, Opening(coll)) && Occurs(text, p + |Opening(coll)|, PrintAll(items) + [Closing(coll)])
    ensures |Print(Branch(coll, items))| == |Opening(coll)| + |PrintAll(items)| + 1
  {
    var body := PrintAll(items) + [Closing(coll)];
    assert Print(Branch(coll, items)) == Opening(coll) + body;
    OccursSplit(text, p, Opening(coll), body);
  }

  lemma BranchDone(coll: Coll, items: seq<Node>, text: string, p: nat, p2: nat, depth: nat)
    requires Occurs(text, p, Opening(coll))
    requires ReadItems(coll, text, p + |Opening(coll)|, depth + 1) == Ok(p2, More, items)
    ensures ReadForm(text, p, depth) == Ok(p2, More, [Branch(coll, items)])
  {
    BranchHere(coll, text, p, depth);
  }

  lemma BranchHere(coll: Coll, text: string, p: nat, depth: nat)
    requires Occurs(text, p, Opening(coll))
    ensures ReadForm(text, p, depth) == Delimit(coll, ReadItems(coll, text, p + |Opening(coll)|, depth + 1))
  {
    hide ReadForm, ReadItems, ReadMacro;
    OccursAt(text, p, Opening(coll), 0);
    match coll
    case Set =>
      OccursAt(text, p, "#{", 1);
      SetHere(text, p, depth);
    case List => PlainHere(List, ListMacro, text, p, depth);
    case Vector => PlainHere(Vector, VectorMacro, text, p, depth);
    case Map => PlainHere(Map, MapMacro, text, p, depth);
  }

  lemma PlainHere(coll: Coll, m: Macro, text: string, p: nat, depth: nat)
    requires (coll == List && m == ListMacro) || (coll == Vector && m == VectorMacro) || (coll == Map && m == MapMacro)
    requires p < |text| && [text[p]] == Opening(coll)
    ensures ReadForm(text, p, depth) == Delimit(coll, ReadItems(coll, text, p + 1, depth + 1))
  {
    assert MacroOf(text[p]) == Some(m);
    FormHere(text, p, depth);
  }

  lemma SetHere(text: string, p: nat, depth: nat)
    requires p + 1 < |text| && text[p] == '#' && text[p + 1] == '{'
    ensures ReadForm(text, p, depth) == Delimit(Set, ReadItems(Set, text, p + 2, depth + 1))
  {
    FormHere(text, p, depth);
    assert CharAt(text, p + 1) == Wc('{');
  }

  lemma {:induction false} ReadPrintAll(ns: seq<Node>, coll: Coll, text: string, p: nat, depth: nat)
    requires ValidNodes(ns) && Occurs(text, p, PrintAll(ns) + [Closing(coll)])
    ensures ReadItems(coll, text, p, depth) == Ok(p + |PrintAll(ns)| + 1, More, ns)
    decreases ns, 1
  {
    hide ReadForm, Print, ValidNode;
    if ns == [] {
      assert PrintAll(ns) + [Closing(coll)] == [Closing(coll)];
      OccursAt(text, p, [Closing(coll)], 0);
    } else {
      if |ns| > 1 {
        ReadPrintMany(ns, coll, text, p, depth);
      } else {
        var p1 := p + |Print(ns[0])|;
        assert ns == [ns[0]];
        PrintedLast(ns[0], coll, text, p);
        ReadPrint(ns[0], text, p, depth);
        OneItem(ns, coll, text, p, p1, StatusAfter(ns[0], text, p1), depth);
      }
    }
  }

  lemma {:induction false} ReadPrintMany(ns: seq<Node>, coll: Coll, text: string, p: nat, depth: nat)
    requires |ns| > 1 && ValidNodes(ns) && Occurs(text, p, PrintAll(ns) + [Closing(coll)])
    ensures ReadItems(coll, text, p, depth) == Ok(p + |PrintAll(ns)| + 1, More, ns)
    decreases ns, 0
  {
    hide ReadForm, ReadItems, Print, PrintAll, ValidNode;
    var p1 := p + |Print(ns[0])|;
    assert ns == [ns[0]] + ns[1..];
    PrintedItems(ns[0], ns[1..], coll, text, p);
    ReadPrint(ns[0], text, p, depth);
    var status := StatusAfter(ns[0], text, p1);
    var p2 := p1 + 1 + |PrintAll(ns[1..])| + 1;
    ReadPrintAll(ns[1..], coll, text, p1 + 1, depth);
    MoreItems(ns, coll, text, p, p1, p2, status, depth);
  }

  lemma OneItem(ns: seq<Node>, coll: Coll, text: string, p: nat, p1: nat, status: Status, depth: nat)
    requires |ns| == 1 && ValidNode(ns[0]) && Occurs(text, p, Print(ns[0]))
    requires ReadForm(text, p, depth) == Ok(p1, status, [ns[0]])
    requires p1 < |text| && text[p1] == Closing(coll)
    ensures ReadItems(coll, text, p, depth) == Ok(p1 + 1, More, ns)
  {
    FirstItem(ns[0], coll, text, p, p1, p1 + 1, [], depth);
    assert ns == [ns[0]] + [];
  }

  lemma MoreItems(ns: seq<Node>, coll: Coll, text: string, p: nat, p1: nat, p2: nat, status: Status, depth: nat)
    requires |ns| > 1 && ValidNode(ns[0]) && Occurs(text, p, Print(ns[0]))
    requires ReadForm(text, p, depth) == Ok(p1, status, [ns[0]])
    requires p1 < |text| && text[p1] == ' '
    requires ReadItems(coll, text, p1 + 1, depth) == Ok(p2, More, ns[1..])
    ensures ReadItems(coll, text, p, depth) == Ok(p2, More, ns)
  {
    SpaceBefore(coll, text, p1, depth);
    FirstItem(ns[0], coll, text, p, p1, p2, ns[1..], depth);
    assert ns == [ns[0]] + ns[1..];
  }

  // Where the parts of printed items stand.

  lemma PrintedLast(n: Node, coll: Coll, text: string, p: nat)
    requires Occurs(text, p, PrintAll([n]) + [Closing(coll)])
    ensures var p1 := p + |Print(n)|;
            Occurs(text, p, Print(n)) && p1 < |text| && text[p1] == Closing(coll) && PrintAll([n]) == Print(n)
  {
    OccursSplit(text, p, Print(n), [Closing(coll)]);
    OccursAt(text, p + |Print(n)|, [Closing(coll)], 0);
  }

  lemma PrintedItems(n: Node, ns: seq<Node>, coll: Coll, text: string, p: nat)
    requires ns != [] && Occurs(text, p, PrintAll([n] + ns) + [Closing(coll)])
    ensures var p1 := p + |Print(n)|;
            && Occurs(text, p, Print(n)) && p1 < |text| && text[p1] == ' '
            && Occurs(text, p1 + 1, PrintAll(ns) + [Closing(coll)])
    ensures |PrintAll([n] + ns)| == |Print(n)| + 1 + |PrintAll(ns)|
  {
    assert ([n] + ns)[1..] == ns;
    PrintedRest(Print(n), PrintAll(ns) + [Closing(coll)], PrintAll([n] + ns), coll, text, p);
  }

  lemma PrintedRest(s: string, rest: string, all: string, coll: Coll, text: string, p: nat)
    requires |rest| > 0 && all == s + " " + rest[..|rest| - 1] && rest[|rest| - 1] == Closing(coll)
    requires Occurs(text, p, all + [Closing(coll)])
    ensures Occurs(text, p, s) && p + |s| < |text| && text[p + |s|] == ' ' && Occurs(text, p + |s| + 1, rest)
  {
    assert all + [Closing(coll)] == s + (" " + rest);
    OccursSplit(text, p, s, " " + rest);
    OccursSplit(text, p + |s|, " ", rest);
    OccursAt(text, p + |s|, " ", 0);
  }

  /** The items start with the form that is here. */
  lemma FirstItem(n: Node, coll: Coll, text: string, p: nat, p1: nat, p2: nat, rest: seq<Node>, depth: nat)
    requires ValidNode(n) && Occurs(text, p, Print(n))
    requires var o := ReadForm(text, p, depth); o.Ok? && o.pos == p1 && o.forest == [n]
    requires var o := ReadItems(coll, text, p1, depth); o.Ok? && o.pos == p2 && o.forest == rest
    ensures ReadItems(coll, text, p, depth) == Ok(p2, More, [n] + rest)
  {
    PrintStarts(n);
    OccursAt(text, p, Print(n), 0);
    FormHere(text, p, depth);
  }

  lemma SpaceBefore(coll: Coll, text: string, p: nat, depth: nat)
    requires p < |text| && text[p] == ' '
    ensures ReadItems(coll, text, p, depth) == ReadItems(coll, text, p + 1, depth)
  {
  }

  /** `clj_read` of a printed tree: its events, and nothing of the text left but at most the
      end mark that ended a token. */
  lemma ReadOfPrint(n: Node)
    requires ValidNode(n)
    ensures ReadForm(Print(n), 0, 0) == Ok(|Print(n)|, StatusAfter(n, Print(n), |Print(n)|), [n])
  {
    hide ReadForm, ReadItems, Print, ValidNode;
    assert Print(n)[0..|Print(n)|] == Print(n);
    ReadPrint(n, Print(n), 0, 0);
  }

  /** Hence printing is injective on valid trees. */
  lemma PrintInjective(m: Node, n: Node)
    requires ValidNode(m) && ValidNode(n) && Print(m) == Print(n)
    ensures m == n
  {
    ReadOfPrint(m);
    ReadOfPrint(n);
  }

  /** A quoted or dereferenced form reads as the list it abbreviates. */
  lemma ReadQuoted(n: Node, deref: bool)
    requires ValidNode(n)
    ensures var text := (if deref then "@" else "'") + Print(n);
            var list := Branch(List, [Leaf(Symbol, if deref then "deref" else "quote"), n]);
            ReadForm(text, 0, 0) == Ok(|text|, StatusAfter(n, text, |text|), [list])
  {
    hide ReadForm, ReadMacro, ReadItems, Print, ValidNode;
    var q := if deref then "@" else "'";
    var text := q + Print(n);
    assert text[0..|text|] == q + Print(n);
    OccursSplit(text, 0, q, Print(n));
    ReadPrint(n, text, 1, 0);
    QuoteHere(text, n, ReadForm(text, 1, 0));
  }

  lemma QuoteHere(text: string, n: Node, o: Outcome)
    requires text != "" && (text[0] == '\'' || text[0] == '@')
    requires o == ReadForm(text, 1, 0) && o.Ok? && o.forest == [n]
    ensures ReadForm(text, 0, 0) ==
      Ok(o.pos, o.status, [Branch(List, [Leaf(Symbol, if text[0] == '@' then "deref" else "quote"), n])])
  {
    FormHere(text, 0, 0);
    var symbol := Leaf(Symbol, if text[0] == '@' then "deref" else "quote");
    assert [symbol] + [n] == [symbol, n];
  }

  // ---------------------------------------------------------------- where strings end

  /** How many backslashes stand directly before `q`, back to `from`. */
  function Backslashes(text: string, from: nat, q: nat): nat
    requires from <= q <= |text|
  {
    if q > from && text[q - 1] == '\\' then 1 + Backslashes(text, from, q - 1) else 0
  }

  predicate Closes(text: string, from: nat, q: nat)
    requires from <= q <= |text|
  {
    q < |text| && text[q] == '\"' && Backslashes(text, from, q) % 2 == 0
  }

  lemma {:induction false} StringEndFrom(text: string, from: nat, p: nat, escape: bool)
    requires from <= p <= |text| && escape == (Backslashes(text, from, p) % 2 == 1)
    ensures var q := StringEnd(text, p, escape);
            q <= |text| && (q < |text| ==> Closes(text, from, q)) && forall i :: p <= i < q ==> !Closes(text, from, i)
    decreases |text| - p
  {
    if p < |text| {
      if text[p] == '\\' {
        StringEndFrom(text, from, p + 1, !escape);
      } else if text[p] == '\"' && !escape {
      } else {
        StringEndFrom(text, from, p + 1, false);
      }
    }
  }

  /** A string ends at the first quote preceded by an even run of backslashes. */
  lemma StringEndsAtEvenQuote(text: string, from: nat)
    requires from <= |text|
    ensures var q := StringEnd(text, from, false);
            && from <= q <= |text|
            && (q < |text| ==> Closes(text, from, q))
            && (forall i :: from <= i < q ==> !Closes(text, from, i))
  {
    StringEndFrom(text, from, from, false);
  }

  // ---------------------------------------------------------------- nesting

  /** The forms left open by a sequence of events, or nothing when an end matches no begin. */
  function Nest(stack: seq<Coll>, events: seq<Event>): Option<seq<Coll>>
    decreases |events|
  {
    if events == [] then Some(stack) else
      match events[0]
      case Atom(_, _) => Nest(stack, events[1..])
      case Begin(coll, v) => if v == Opening(coll) then Nest([coll] + stack, events[1..]) else None
      case End(coll, v) =>
        if stack != [] && stack[0] == coll && v == [Closing(coll)] then Nest(stack[1..], events[1..]) else None
  }

  lemma {:induction false} NestConcat(stack: seq<Coll>, a: seq<Event>, b: seq<Event>)
    requires Nest(stack, a).Some?
    ensures Nest(stack, a + b) == Nest(Nest(stack, a).value, b)
    decreases |a|
  {
    if a == [] {
      assert a + b == b;
    } else {
      assert (a + b)[0] == a[0] && (a + b)[1..] == a[1..] + b;
      match a[0]
      case Atom(_, _) => NestConcat(stack, a[1..], b);
      case Begin(coll, _) => NestConcat([coll] + stack, a[1..], b);
      case End(_, _) => NestConcat(stack[1..], a[1..], b);
    }
  }

  lemma {:induction false} TreeNests(n: Node, stack: seq<Coll>)
    ensures Nest(stack, Events(n)) == Some(stack)
    decreases n, 0
  {
    if n.Branch? {
      var inner, end := EventsAll(n.items), [End(n.coll, [Closing(n.coll)])];
      ForestNests(n.items, [n.coll] + stack);
      NestConcat([n.coll] + stack, inner, end);
      assert ([n.coll] + stack)[1..] == stack;
      assert Events(n)[1..] == inner + end;
      assert end[1..] == [];
    } else {
      assert Events(n)[1..] == [];
    }
  }

  lemma {:induction false} ForestNests(ns: seq<Node>, stack: seq<Coll>)
    ensures Nest(stack, EventsAll(ns)) == Some(stack)
    decreases ns, 1
  {
    if ns != [] {
      TreeNests(ns[0], stack);
      ForestNests(ns[1..], stack);
      NestConcat(stack, Events(ns[0]), EventsAll(ns[1..]));
    }
  }

  /** The ends that are still to come. */
  function Closers(stack: seq<Coll>): seq<Event> {
    if stack == [] then [] else [End(stack[0], [Closing(stack[0])])] + Closers(stack[1..])
  }

  lemma {:induction false} ClosersNest(stack: seq<Coll>)
    ensures Nest(stack, Closers(stack)) == Some([])
  {
    if stack != [] {
      assert Closers(stack)[1..] == Closers(stack[1..]);
      ClosersNest(stack[1..]);
    }
  }

  ghost predicate Nested(o: Outcome, stack: seq<Coll>) {
    match o
    case Ok(_, _, forest) => Nest(stack, EventsAll(forest)) == Some(stack)
    case Fail(_, _, events) => Nest(stack, events).Some?
  }

  lemma BegunNested(coll: Coll, events: seq<Event>, stack: seq<Coll>)
    requires Nest([coll] + stack, events).Some?
    ensures Nest(stack, [Begin(coll, Opening(coll))] + events).Some?
  {
    assert ([Begin(coll, Opening(coll))] + events)[1..] == events;
  }

  lemma WrapNested(symbol: string, text: string, p: nat, depth: nat, stack: seq<Coll>)
    requires Nested(ReadForm(text, p, depth), [List] + stack)
    ensures Wrap(symbol, ReadForm(text, p, depth)).Fail? ==> Nested(Wrap(symbol, ReadForm(text, p, depth)), stack)
  {
    var o := ReadForm(text, p, depth);
    if o.Fail? {
      assert ([Atom(Symbol, symbol)] + o.events)[1..] == o.events;
      BegunNested(List, [Atom(Symbol, symbol)] + o.events, stack);
      assert [Begin(List, "(")] + ([Atom(Symbol, symbol)] + o.events)
          == [Begin(List, "("), Atom(Symbol, symbol)] + o.events;
    }
  }

  lemma {:induction false} FormNested(text: string, p: nat, depth: nat, stack: seq<Coll>)
    ensures Nested(ReadForm(text, p, depth), stack)
    ensures var o := ReadForm(text, p, depth); o.Ok? ==> |o.forest| <= 1
    decreases Left(text, p), 0
  {
    var q := SkipSpace(text, p);
    if q < |text| && MacroOf(text[q]).Some? {
      MacroNested(MacroOf(text[q]).value, text, q + 1, depth, stack);
    }
    var o := ReadForm(text, p, depth);
    if o.Ok? {
      ForestNests(o.forest, stack);
    }
  }

  lemma {:induction false} MacroNested(m: Macro, text: string, p: nat, depth: nat, stack: seq<Coll>)
    ensures Nested(ReadMacro(m, text, p, depth), stack)
    ensures var o := ReadMacro(m, text, p, depth); o.Ok? ==> |o.forest| <= 1
    decreases Left(text, p), 2
  {
    var o := ReadMacro(m, text, p, depth);
    if o.Ok? {
      ForestNests(o.forest, stack);
    } else {
      match m
      case QuoteMacro =>
        FormNested(text, p, depth, [List] + stack);
        WrapNested("quote", text, p, depth, stack);
      case DerefMacro =>
        FormNested(text, p, depth, [List] + stack);
        WrapNested("deref", text, p, depth, stack);
      case ListMacro => ItemsFailNested(List, text, p, depth + 1, stack);
      case VectorMacro => ItemsFailNested(Vector, text, p, depth + 1, stack);
      case MapMacro => ItemsFailNested(Map, text, p, depth + 1, stack);
      case DispatchMacro =>
        if CharAt(text, p) == Wc('{') {
          ItemsFailNested(Set, text, p + 1, depth + 1, stack);
        }
      case _ =>
    }
  }

  lemma {:induction false} ItemsFailNested(coll: Coll, text: string, p: nat, depth: nat, stack: seq<Coll>)
    ensures var o := ReadItems(coll, text, p, depth);
            o.Fail? ==> Nest(stack, [Begin(coll, Opening(coll))] + o.events).Some?
    decreases Left(text, p), 1, 1
  {
    ItemsNested(coll, text, p, depth, [coll] + stack);
    var o := ReadItems(coll, text, p, depth);
    if o.Fail? {
      BegunNested(coll, o.events, stack);
    }
  }

  lemma {:induction false} ItemsNested(coll: Coll, text: string, p: nat, depth: nat, stack: seq<Coll>)
    ensures Nested(ReadItems(coll, text, p, depth), stack)
    decreases Left(text, p), 1, 0
  {
    var q := SkipSpace(text, p);
    var o := ReadItems(coll, text, p, depth);
    if o.Ok? {
      ForestNests(o.forest, stack);
    } else if q < |text| {
      var first := match MacroOf(text[q])
        case Some(m) => ReadMacro(m, text, q + 1, depth)
        case None => ReadForm(text, q, depth);
      if MacroOf(text[q]).Some? {
        MacroNested(MacroOf(text[q]).value, text, q + 1, depth, stack);
      } else {
        FormNested(text, q, depth, stack);
      }
      if first.Ok? {
        ItemsNested(coll, text, first.pos, depth, stack);
        ForestNests(first.forest, stack);
        NestConcat(stack, EventsAll(first.forest), ReadItems(coll, text, first.pos, depth).events);
      }
    }
  }

  function Emitted(o: Outcome): seq<Event> {
    match o case Ok(_, _, forest) => EventsAll(forest) case Fail(_, _, events) => events
  }

  /** On every input the events are a prefix of a well-nested sequence; on any outcome that
      is no error they are the traversal of at most one tree. */
  lemma EventsWellNested(text: string)
    ensures var o := ReadForm(text, 0, 0);
            && Nest([], Emitted(o)).Some?
            && Nest([], Emitted(o) + Closers(Nest([], Emitted(o)).value)) == Some([])
            && (o.Ok? ==> Nest([], Emitted(o)) == Some([])
                          && (Emitted(o) == [] || exists n :: Emitted(o) == Events(n)))
  {
    FormNested(text, 0, 0, []);
    var o := ReadForm(text, 0, 0);
    var stack := Nest([], Emitted(o)).value;
    ClosersNest(stack);
    NestConcat([], Emitted(o), Closers(stack));
    if o.Ok? && o.forest != [] {
      assert EventsAll(o.forest) == Events(o.forest[0]) + EventsAll(o.forest[1..]);
      assert o.forest[1..] == [];
      assert Emitted(o) == Events(o.forest[0]);
    }
  }
}
