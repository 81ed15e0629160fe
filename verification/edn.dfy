/** What the EDN reader reads, as a function from text to trees.

    A position counts the characters read and not pushed back. Reading past the end gives
    the end-of-file mark each time, so positions may lie beyond the text. */
module Edn {

  datatype Option<T> = None | Some(value: T)

  /** A character or WEOF. */
  datatype Wint = Weof | Wc(c: char)

  function CharAt(text: string, p: nat): Wint {
    if p < |text| then Wc(text[p]) else Weof
  }

  // ---------------------------------------------------------------- character classes

  predicate IsSpace(c: char) {
    c in {' ', '\t', '\n', '\r', 11 as char, 12 as char} || c == ','
  }

  predicate IsDigit(c: char) {
    '0' <= c <= '9'
  }

  predicate IsSign(c: char) {
    c == '+' || c == '-'
  }

  predicate EndsLine(c: char) {
    c == '\n' || c == '\r'
  }

  datatype Macro =
    | StringMacro
    | KeywordMacro
    | CommentMacro
    | QuoteMacro
    | DerefMacro
    | MetaMacro
    | NotImplementedMacro
    | ListMacro
    | VectorMacro
    | MapMacro
    | UnmatchedMacro
    | CharMacro
    | DispatchMacro

  /** `get_macro_reader` */
  function MacroOf(c: char): Option<Macro> {
    match c
    case '\"' => Some(StringMacro)
    case ':' => Some(KeywordMacro)
    case ';' => Some(CommentMacro)
    case '\'' => Some(QuoteMacro)
    case '@' => Some(DerefMacro)
    case '^' => Some(MetaMacro)
    case '`' => Some(NotImplementedMacro)
    case '~' => Some(NotImplementedMacro)
    case '(' => Some(ListMacro)
    case ')' => Some(UnmatchedMacro)
    case '[' => Some(VectorMacro)
    case ']' => Some(UnmatchedMacro)
    case '{' => Some(MapMacro)
    case '}' => Some(UnmatchedMacro)
    case '\\' => Some(CharMacro)
    case '%' => Some(NotImplementedMacro)
    case '#' => Some(DispatchMacro)
    case _ => None
  }

  predicate MacroTerminating(c: char) {
    c != '#' && c != '\'' && c != ':' && MacroOf(c).Some?
  }

  /** Where tokens stop: a number at any macro character, others not at `#`, `'` and `:`. */
  predicate Terminates(kind: Kind, c: char) {
    if kind == Number then MacroOf(c).Some? else MacroTerminating(c)
  }

  // ---------------------------------------------------------------- trees and events

  datatype Kind = Number | Character | String | Keyword | Symbol | Regex
  datatype Coll = List | Vector | Map | Set

  datatype Node = Leaf(kind: Kind, value: string) | Branch(coll: Coll, items: seq<Node>)

  datatype Event = Atom(kind: Kind, value: string) | Begin(coll: Coll, value: string) | End(coll: Coll, value: string)

  function Opening(coll: Coll): string {
    match coll case List => "(" case Vector => "[" case Map => "{" case Set => "#{"
  }

  function Closing(coll: Coll): char {
    match coll case List => ')' case Vector => ']' case Map => '}' case Set => '}'
  }

  function Events(n: Node): seq<Event>
    decreases n, 0
  {
    match n
    case Leaf(kind, value) => [Atom(kind, value)]
    case Branch(coll, items) => [Begin(coll, Opening(coll))] + EventsAll(items) + [End(coll, [Closing(coll)])]
  }

  function EventsAll(ns: seq<Node>): seq<Event>
    decreases ns, 1
  {
    if ns == [] then [] else Events(ns[0]) + EventsAll(ns[1..])
  }

  lemma {:induction false} EventsConcat(a: seq<Node>, b: seq<Node>)
    ensures EventsAll(a + b) == EventsAll(a) + EventsAll(b)
    decreases |a|
  {
    if a == [] {
      assert a + b == b;
    } else {
      assert (a + b)[1..] == a[1..] + b;
      EventsConcat(a[1..], b);
    }
  }

  // ---------------------------------------------------------------- reading

  datatype Error = UnexpectedEof | UnmatchedDelimiter | NotImplemented | Unreadable | AssertionFailed

  datatype Status = Eof | More

  /** A read ends at a position with a status and the trees read, or fails there with the
      events of what was begun. */
  datatype Outcome =
    | Ok(pos: nat, status: Status, forest: seq<Node>)
    | Fail(pos: nat, error: Error, events: seq<Event>)

  function StatusAt(text: string, p: nat): Status {
    if p < |text| then More else Eof
  }

  function SkipSpace(text: string, p: nat): (q: nat)
    ensures p <= q && (q < |text| ==> !IsSpace(text[q])) && (q > p ==> q <= |text|)
    decreases |text| - p
  {
    if p < |text| && IsSpace(text[p]) then SkipSpace(text, p + 1) else p
  }

  function TokenEnd(kind: Kind, text: string, p: nat): (q: nat)
    ensures p <= q && (q > p ==> q <= |text|)
    ensures forall i :: p <= i < q ==> !IsSpace(text[i]) && !Terminates(kind, text[i])
    ensures q < |text| ==> IsSpace(text[q]) || Terminates(kind, text[q])
    decreases |text| - p
  {
    if p < |text| && !IsSpace(text[p]) && !Terminates(kind, text[p]) then TokenEnd(kind, text, p + 1) else p
  }

  /** The rest of a token after its first character; the character that ends it stays. */
  function ReadToken(kind: Kind, text: string, p: nat, initch: char): Outcome {
    var q := TokenEnd(kind, text, p);
    Ok(q, StatusAt(text, q), [Leaf(kind, [initch] + (if p < q then text[p..q] else ""))])
  }

  /** The closing quote of a string, given whether an escape is open; the length if none. */
  function StringEnd(text: string, p: nat, escape: bool): (q: nat)
    ensures p <= q && (q > p ==> q <= |text|)
    ensures q < |text| ==> text[q] == '\"'
    decreases |text| - p
  {
    if p >= |text| then p
    else if text[p] == '\\' then StringEnd(text, p + 1, !escape)
    else if text[p] == '\"' && !escape then p
    else StringEnd(text, p + 1, false)
  }

  function ReadString(kind: Kind, prefix: string, text: string, p: nat): Outcome {
    var q := StringEnd(text, p, false);
    if q < |text| then Ok(q + 1, More, [Leaf(kind, prefix + text[p..q + 1])])
    else Fail(q + 1, UnexpectedEof, [])
  }

  function LineEnd(text: string, p: nat): (q: nat)
    ensures p <= q && (q > p ==> q <= |text|) && (q < |text| ==> EndsLine(text[q]))
    decreases |text| - p
  {
    if p < |text| && !EndsLine(text[p]) then LineEnd(text, p + 1) else p
  }

  function ReadComment(text: string, p: nat): Outcome {
    var q := LineEnd(text, p);
    Ok(q + 1, StatusAt(text, q), [])
  }

  function Left(text: string, p: nat): nat {
    if p < |text| then |text| - p else 0
  }

  predicate AtNumber(text: string, p: nat)
    requires p < |text|
  {
    IsDigit(text[p]) || (IsSign(text[p]) && p + 1 < |text| && IsDigit(text[p + 1]))
  }

  /** One form, after white space; nothing at the end of the text unless inside a
      delimited form, where that is an error. */
  function ReadForm(text: string, p: nat, depth: nat): (o: Outcome)
    ensures o.Ok? ==> o.pos >= p && (p < |text| ==> o.pos > p)
    decreases Left(text, p), 0
  {
    var q := SkipSpace(text, p);
    if q >= |text| then
      if depth > 0 then Fail(q + 1, UnexpectedEof, []) else Ok(q + 1, Eof, [])
    else
      match MacroOf(text[q])
      case Some(m) => ReadMacro(m, text, q + 1, depth)
      case None =>
        if AtNumber(text, q) then ReadToken(Number, text, q + 1, text[q])
        else ReadToken(Symbol, text, q + 1, text[q])
  }

  function ReadMacro(m: Macro, text: string, p: nat, depth: nat): (o: Outcome)
    ensures o.Ok? ==> o.pos >= p
    decreases Left(text, p), 2
  {
    match m
    case StringMacro => ReadString(String, "\"", text, p)
    case KeywordMacro => ReadToken(Keyword, text, p, ':')
    case CharMacro => ReadToken(Character, text, p, '\\')
    case CommentMacro => ReadComment(text, p)
    case QuoteMacro => Wrap("quote", ReadForm(text, p, depth))
    case DerefMacro => Wrap("deref", ReadForm(text, p, depth))
    case MetaMacro => Discard(ReadForm(text, p, depth))
    case NotImplementedMacro => Fail(p, NotImplemented, [])
    case UnmatchedMacro => Fail(p, UnmatchedDelimiter, [])
    case ListMacro => Delimit(List, ReadItems(List, text, p, depth + 1))
    case VectorMacro => Delimit(Vector, ReadItems(Vector, text, p, depth + 1))
    case MapMacro => Delimit(Map, ReadItems(Map, text, p, depth + 1))
    case DispatchMacro =>
      match CharAt(text, p)
      case Wc('{') => Delimit(Set, ReadItems(Set, text, p + 1, depth + 1))
      case Wc('<') => Fail(p + 1, Unreadable, [])
      case Wc('\"') => ReadString(Regex, "#\"", text, p + 1)
      case Wc('!') => ReadComment(text, p + 1)
      case Wc('_') => Discard(ReadForm(text, p + 1, depth))
      case _ => Fail(p + 1, AssertionFailed, [])
  }

  function Wrap(symbol: string, o: Outcome): Outcome {
    match o
    case Ok(pos, status, forest) => Ok(pos, status, [Branch(List, [Leaf(Symbol, symbol)] + forest)])
    case Fail(pos, error, events) => Fail(pos, error, [Begin(List, "("), Atom(Symbol, symbol)] + events)
  }

  function Discard(o: Outcome): Outcome {
    match o
    case Ok(pos, status, _) => Ok(pos, status, [])
    case Fail(pos, error, _) => Fail(pos, error, [])
  }

  function Delimit(coll: Coll, o: Outcome): Outcome {
    match o
    case Ok(pos, _, forest) => Ok(pos, More, [Branch(coll, forest)])
    case Fail(pos, error, events) => Fail(pos, error, [Begin(coll, Opening(coll))] + events)
  }

  /** The items of a delimited form, through its closing delimiter. */
  function ReadItems(coll: Coll, text: string, p: nat, depth: nat): (o: Outcome)
    ensures o.Ok? ==> o.pos >= p
    decreases Left(text, p), 1
  {
    var q := SkipSpace(text, p);
    if q >= |text| then Fail(q + 1, UnexpectedEof, [])
    else if text[q] == Closing(coll) then Ok(q + 1, More, [])
    else
      var first := match MacroOf(text[q])
        case Some(m) => ReadMacro(m, text, q + 1, depth)
        case None => ReadForm(text, q, depth);
      match first
      case Fail(_, _, _) => first
      case Ok(p1, _, f1) =>
        match ReadItems(coll, text, p1, depth)
        case Ok(p2, _, f2) => Ok(p2, More, f1 + f2)
        case Fail(p2, error, events) => Fail(p2, error, EventsAll(f1) + events)
  }

  // ---------------------------------------------------------------- lines and columns

  /** The start of the line a position is on: after the last line end before it. */
  function LineStart(text: string, p: nat): (s: nat)
    ensures s <= p
  {
    if p == 0 then 0
    else if p <= |text| && EndsLine(text[p - 1]) then p
    else LineStart(text, p - 1)
  }

  function LineNumber(text: string, p: nat): nat {
    if p == 0 then 1
    else LineNumber(text, p - 1) + if p <= |text| && EndsLine(text[p - 1]) then 1 else 0
  }

  function Column(text: string, p: nat): nat {
    p - LineStart(text, p)
  }
}
