/** The key loop of the line editor: bytes from the terminal become commands, and after
    every one of them the terminal shows the edited line. */
module LineKeys {
  import opened Terminal
  import opened Escapes
  import opened LineText
  import opened LineHistory
  import opened LineEditor

  // The actions of the key map, in the order of its entries.
  const GO_TO_START_OF_LINE := 0
  const MOVE_LEFT := 1
  const CANCEL := 2
  const DELETE_RIGHT := 3
  const GO_TO_END_OF_LINE := 4
  const MOVE_RIGHT := 5
  const DELETE := 6
  const TAB := 7
  const DELETE_TO_END_OF_LINE := 8
  const CLEAR_SCREEN := 9
  const ENTER := 10
  const HISTORY_NEXT := 11
  const HISTORY_PREVIOUS := 12
  const SWAP_CHARS := 13
  const CLEAR_LINE := 14
  const DELETE_PREVIOUS_WORD := 15
  const ESCAPE := 16
  const BACKSPACE := 17
  const REVERSE_I_SEARCH := 18

  type Keymap = k: seq<char> | |k| == 21 witness seq(21, i => '\0')

  datatype Action =
    | Do(cmd: Command)
    | DeleteOrEnd          // delete right, or the end of input on an empty line
    | Recall(back: bool)
    | Clear
    | Enter
    | Cancel
    | Nothing
    | Outside              // completion, search, unprintable text, or an unfinished escape

  /** What one key does, and how many bytes it took. */
  datatype Key = Key(action: Action, bytes: nat)

  function DecodeKey(km: Keymap, input: string): (k: Key)
    requires input != ""
    ensures 0 < k.bytes <= |input|
  {
    if input[0] == km[TAB] then Key(Outside, 1) else ProcessChar(km, input)
  }

  function ProcessChar(km: Keymap, input: string): (k: Key)
    requires input != ""
    ensures 0 < k.bytes <= |input|
    decreases |input|
  {
    var c := input[0];
    if c == '\0' then Key(Nothing, 1)
    else if c == km[ENTER] then Key(Enter, 1)
    else if c == km[CANCEL] then Key(Cancel, 1)
    else if c == km[BACKSPACE] || c == km[DELETE] then Key(Do(Command.Backspace), 1)
    else if c == km[DELETE_RIGHT] then Key(DeleteOrEnd, 1)
    else if c == km[SWAP_CHARS] then Key(Do(SwapChars), 1)
    else if c == km[MOVE_LEFT] then Key(Do(MoveLeft), 1)
    else if c == km[MOVE_RIGHT] then Key(Do(MoveRight), 1)
    else if c == km[HISTORY_PREVIOUS] then Key(Recall(true), 1)
    else if c == km[HISTORY_NEXT] then Key(Recall(false), 1)
    else if c == km[REVERSE_I_SEARCH] then Key(Outside, 1)
    else if c == km[ESCAPE] then ProcessEscape(km, input)
    else if c == km[CLEAR_LINE] then Key(Do(ClearLine), 1)
    else if c == km[DELETE_TO_END_OF_LINE] then Key(Do(DeleteToEnd), 1)
    else if c == km[GO_TO_START_OF_LINE] then Key(Do(MoveHome), 1)
    else if c == km[GO_TO_END_OF_LINE] then Key(Do(MoveEnd), 1)
    else if c == km[CLEAR_SCREEN] then Key(Clear, 1)
    else if c == km[DELETE_PREVIOUS_WORD] then Key(Do(DeletePrevWord), 1)
    else if Printable(c) then Key(Do(Insert(c)), 1)
    else Key(Outside, 1)
  }

  function ProcessEscape(km: Keymap, input: string): (k: Key)
    requires input != ""
    ensures 0 < k.bytes <= |input|
    decreases |input|, 0
  {
    if |input| == 1 then Key(Outside, 1)
    else if input[1] != '[' && input[1] != 'O' then
      (match input[1]
       case 'f' => Key(Do(MoveWordEnd), 2)
       case 'b' => Key(Do(MoveWordStart), 2)
       case 'd' => Key(Do(DeleteNextWord), 2)
       case _ => var k := ProcessChar(km, input[1..]); Key(k.action, k.bytes + 1))
    else if |input| == 2 then Key(Outside, 2)
    else if input[1] == '[' && '0' <= input[2] <= '9' then
      if |input| == 3 then Key(Outside, 3)
      else Key(if input[3] == '~' && input[2] == '3' then Do(Command.Delete) else Nothing, 4)
    else if input[1] == '[' then
      Key(match input[2]
          case 'A' => Recall(true)
          case 'B' => Recall(false)
          case 'C' => Do(MoveRight)
          case 'D' => Do(MoveLeft)
          case 'H' => Do(MoveHome)
          case 'F' => Do(MoveEnd)
          case _ => Nothing, 3)
    else
      Key(match input[2]
          case 'H' => Do(MoveHome)
          case 'F' => Do(MoveEnd)
          case _ => Nothing, 3)
  }

  // ---------------------------------------------------------------- what is pressed

  /** The key map Planck starts with. */
  const KEYMAP: Keymap := [1 as char, 2 as char, 3 as char, 4 as char, 5 as char, 6 as char, 8 as char,
    9 as char, 11 as char, 12 as char, 13 as char, 14 as char, 16 as char, 20 as char, 21 as char, 23 as char,
    27 as char, 127 as char, 18 as char, 7 as char, 10 as char]

  const ESC := 27 as char

  /** What a user presses: a character, a control key, or a key the terminal sends as an escape
      sequence. */
  datatype Stroke =
    | Typed(c: char)
    | Ctrl(letter: char)
    | Alt(letter: char)
    | DeleteKey
    | BackspaceKey
    | ReturnKey
    | UpKey | DownKey | LeftKey | RightKey
    | HomeKey | EndKey
    | HomeKeyO | EndKeyO      // as sent in application mode
    | TildeKey(digit: char)   // insert, page up, page down and the like
    | OtherKey(final: char)   // any other key a terminal sends as three bytes
    | OtherKeyO(final: char)
    | NullKey                 // control and the space bar

  predicate Pressable(s: Stroke) {
    match s
    case Typed(c) => 32 <= c as int <= 126
    case Ctrl(letter) => 'A' <= letter <= 'Z'
    case Alt(letter) => 32 <= letter as int <= 126 && letter != '[' && letter != 'O'
    case TildeKey(digit) => digit in "012456789"
    case OtherKey(final) => final !in "0123456789ABCDHF"
    case OtherKeyO(final) => final != 'H' && final != 'F'
    case _ => true
  }

  function Bytes(s: Stroke): (b: string)
    requires Pressable(s)
    ensures b != ""
  {
    match s
    case Typed(c) => [c]
    case Ctrl(letter) => [(letter as int - 'A' as int + 1) as char]
    case Alt(letter) => [ESC, letter]
    case DeleteKey => [ESC, '[', '3', '~']
    case BackspaceKey => [127 as char]
    case ReturnKey => [13 as char]
    case UpKey => [ESC, '[', 'A']
    case DownKey => [ESC, '[', 'B']
    case RightKey => [ESC, '[', 'C']
    case LeftKey => [ESC, '[', 'D']
    case HomeKey => [ESC, '[', 'H']
    case EndKey => [ESC, '[', 'F']
    case HomeKeyO => [ESC, 'O', 'H']
    case EndKeyO => [ESC, 'O', 'F']
    case TildeKey(digit) => [ESC, '[', digit, '~']
    case OtherKey(final) => [ESC, '[', final]
    case OtherKeyO(final) => [ESC, 'O', final]
    case NullKey => "\0"
  }

  /** What the user means by it. */
  function Meaning(s: Stroke): Action
    requires Pressable(s)
  {
    match s
    case Typed(c) => Do(Insert(c))
    case Ctrl(letter) => (
      match letter
      case 'A' => Do(MoveHome)
      case 'B' => Do(MoveLeft)
      case 'C' => Cancel
      case 'D' => DeleteOrEnd
      case 'E' => Do(MoveEnd)
      case 'F' => Do(MoveRight)
      case 'H' => Do(Command.Backspace)
      case 'K' => Do(DeleteToEnd)
      case 'L' => Clear
      case 'M' => Enter
      case 'N' => Recall(false)
      case 'P' => Recall(true)
      case 'T' => Do(SwapChars)
      case 'U' => Do(ClearLine)
      case 'W' => Do(DeletePrevWord)
      case _ => Outside)
    case Alt(letter) =>
      Do(match letter
         case 'f' => MoveWordEnd
         case 'b' => MoveWordStart
         case 'd' => DeleteNextWord
         case _ => Insert(letter))   // as without Alt
    case DeleteKey => Do(Command.Delete)
    case BackspaceKey => Do(Command.Backspace)
    case ReturnKey => Enter
    case UpKey => Recall(true)
    case DownKey => Recall(false)
    case LeftKey => Do(MoveLeft)
    case RightKey => Do(MoveRight)
    case HomeKey => Do(MoveHome)
    case EndKey => Do(MoveEnd)
    case HomeKeyO => Do(MoveHome)
    case EndKeyO => Do(MoveEnd)
    case _ => Nothing
  }

  lemma CtrlDecodes(letter: char, rest: string)
    requires Pressable(Ctrl(letter))
    ensures DecodeKey(KEYMAP, Bytes(Ctrl(letter)) + rest) == Key(Meaning(Ctrl(letter)), 1)
  {
    var input := Bytes(Ctrl(letter)) + rest;
    assert input[0] as int == letter as int - 'A' as int + 1;
  }

  lemma EscapeDecodes(s: Stroke, rest: string)
    requires Pressable(s) && Bytes(s)[0] == ESC && !s.Alt?
    ensures DecodeKey(KEYMAP, Bytes(s) + rest) == Key(Meaning(s), |Bytes(s)|)
  {
    var input := Bytes(s) + rest;
    assert forall i :: 0 <= i < |Bytes(s)| ==> input[i] == Bytes(s)[i];
    assert DecodeKey(KEYMAP, input) == ProcessEscape(KEYMAP, input);
  }

  lemma AltDecodes(letter: char, rest: string)
    requires Pressable(Alt(letter))
    ensures DecodeKey(KEYMAP, Bytes(Alt(letter)) + rest) == Key(Meaning(Alt(letter)), 2)
  {
    var input := Bytes(Alt(letter)) + rest;
    assert input[1..] == [letter] + rest && ([letter] + rest)[0] == letter;
    assert DecodeKey(KEYMAP, input) == ProcessEscape(KEYMAP, input);
    if letter !in {'f', 'b', 'd'} {
      assert ProcessChar(KEYMAP, [letter] + rest) == Key(Do(Insert(letter)), 1);
    }
  }

  /** Each stroke is decoded as what it means, whatever is typed after it. */
  lemma StrokeDecodes(s: Stroke, rest: string)
    requires Pressable(s)
    ensures DecodeKey(KEYMAP, Bytes(s) + rest) == Key(Meaning(s), |Bytes(s)|)
  {
    match s
    case Ctrl(letter) => CtrlDecodes(letter, rest);
    case Typed(_) =>
    case BackspaceKey =>
    case ReturnKey =>
    case NullKey =>
    case Alt(letter) => AltDecodes(letter, rest);
    case _ => EscapeDecodes(s, rest);
  }

  function AllBytes(strokes: seq<Stroke>): string
    requires forall s :: s in strokes ==> Pressable(s)
  {
    if strokes == [] then "" else Bytes(strokes[0]) + AllBytes(strokes[1..])
  }

  /** A moment of a session: the line, its place in the history, the screen, and the row its
      prompt starts on. */
  datatype Moment = Moment(line: Line, browse: Browse, screen: Screen, base: nat)

  /** What does not change during a session: the prompt, the characters the buffer holds, and the
      byte of memory in front of it. */
  datatype Fixed = Fixed(prompt: string, capacity: nat, guard: char)

  type Setup = e: Fixed | e.capacity > 0 witness Fixed("", 1, ' ')

  /** The screen has a cell for every character of the prompt and of a text of this length, and
      one for the cursor after them. */
  predicate RoomFor(e: Setup, m: Moment, length: nat) {
    |e.prompt| + length < |m.screen.grid|
  }

  ghost predicate SameHistory(before: Moment, after: Moment) {
    after.browse.entries == before.browse.entries && after.browse.index == before.browse.index
  }

  /** Leaving drops the entry that stood for the edited line. */
  ghost predicate DropsLast(before: Moment, after: Moment) {
    before.browse.entries != [] && after.browse.entries == before.browse.entries[..|before.browse.entries| - 1]
  }

  /** Word-start at the front of a non-empty line, with a space in the byte before the buffer,
      leaves the buffer. */
  predicate LeavesBuffer(action: Action, line: Line, guard: char) {
    action == Do(Command.MoveWordStart) && line.before == "" && line.after != "" && guard == ' '
  }

  /** The line the key makes has more characters than the screen can show. */
  predicate Overflows(action: Action, m: Moment, e: Setup) {
    match action
    case Do(Insert(_)) => |Whole(m.line)| < e.capacity && !RoomFor(e, m, |Whole(m.line)| + 1)
    case Recall(back) =>
      && InRange(m.browse)
      && var after := Move(m.browse, back, e.capacity);
        after.index != m.browse.index && !RoomFor(e, m, |after.text|)
    case _ => false
  }

  /** Where the model of a session stops. */
  predicate Stops(action: Action, m: Moment, e: Setup) {
    Overflows(action, m, e) || LeavesBuffer(action, m.line, e.guard)
  }

  /** What each action does to the line and the history. */
  ghost predicate Means(before: Moment, action: Action, after: Moment, capacity: nat)
    requires capacity > 0
  {
    match action
    case Do(cmd) => after.line == Edit(cmd, before.line, capacity) && SameHistory(before, after)
    case DeleteOrEnd =>
      && after.line == Edit(Command.Delete, before.line, capacity)
      && if Whole(before.line) != "" then SameHistory(before, after) else DropsLast(before, after)
    case Enter => after.line == Edit(MoveEnd, before.line, capacity) && DropsLast(before, after)
    case Recall(back) =>
      && InRange(before.browse) && after.browse == Move(before.browse, back, capacity)
      && after.line ==
        if after.browse.index == before.browse.index then before.line else LineText.Line(after.browse.text, "")
    case _ => after.line == before.line && SameHistory(before, after)
  }

  /** One key: what it means, with what is above the prompt untouched but for what scrolls away. */
  ghost predicate Follows(before: Moment, action: Action, after: Moment, e: Setup) {
    if Stops(action, before, e) then after == before
    else
      && Means(before, action, after, e.capacity)
      && (action.Clear? || ScrolledAbove(before.screen, before.base, after.screen, after.base))
  }

  ghost predicate Displays(m: Moment, prompt: string) {
    && Shown(m.screen, m.base, prompt + Whole(m.line))
    && At(m.screen, RowStart(m.base, m.screen.cols) + |prompt| + |m.line.before|) && !m.screen.wrap
  }

  ghost function SetupOf(l: LineState): Setup
    requires l.Valid()
    reads l, l.buf
  {
    Fixed(l.prompt, l.buflen, l.guard)
  }

  ghost function Now(l: LineState, h: History): Moment
    requires l.Valid() && h.Valid()
    reads l, l.buf, l.tty, h, h.lines
  {
    Moment(l.Line(), l.Browsing(h), l.tty.screen, l.base)
  }

  lemma ReadyDisplays(l: LineState, h: History)
    requires l.Ready() && h.Valid()
    ensures Displays(Now(l, h), l.prompt)
  {
    assert Whole(l.Line()) == l.Text();
  }

  method PerformEdit(l: LineState, cmd: Command)
    requires l.Ready() && !LeavesBuffer(Do(cmd), l.Line(), l.guard)
    requires cmd.Insert? ==> Printable(cmd.c) && (l.len < l.buflen ==> l.HasRoom(l.len + 1))
    modifies l, l.buf, l.tty
    ensures l.Edited(cmd)
  {
    match cmd {
      case Insert(c) => l.Insert(c);
      case MoveLeft => l.MoveLeft();
      case MoveRight => l.MoveRight();
      case MoveHome => l.MoveHome();
      case MoveEnd => l.MoveEnd();
      case MoveWordStart => var _ := l.MoveWordStart();
      case MoveWordEnd => l.MoveWordEnd();
      case Backspace => l.Backspace();
      case Delete => l.Delete();
      case DeletePrevWord => l.DeletePrevWord();
      case DeleteNextWord => l.DeleteNextWord();
      case SwapChars => l.SwapChars();
      case ClearLine => l.ClearLine();
      case DeleteToEnd => l.DeleteToEnd();
    }
  }

  /** An edit changes no stored line. */
  method EditKeepingHistory(l: LineState, h: History, cmd: Command)
    requires l.Ready() && !LeavesBuffer(Do(cmd), l.Line(), l.guard)
    requires l.Browsable(h) && (cmd.Insert? ==> Printable(cmd.c) && (l.len < l.buflen ==> l.HasRoom(l.len + 1)))
    modifies l, l.buf, l.tty
    ensures l.Ready() && l.Browsable(h) && SameHistory(old(Now(l, h)), Now(l, h))
    ensures l.Line() == Edit(cmd, old(l.Line()), l.buflen)
    ensures ScrolledAbove(old(l.tty.screen), old(l.base), l.tty.screen, l.base)
  {
    hide Edit, LeavesBuffer, ScrolledAbove;
    PerformEdit(l, cmd);
    assert h.Contents() == old(h.Contents());
  }

  method ClearKeepingHistory(l: LineState, h: History)
    requires l.Ready() && l.Browsable(h)
    modifies l, l.tty
    ensures l.Ready() && l.Browsable(h) && SameHistory(old(Now(l, h)), Now(l, h))
    ensures l.Line() == old(l.Line())
  {
    l.ClearScreen();
    assert h.Contents() == old(h.Contents());
  }

  /** The keys after which the loop goes on. */
  predicate Continues(action: Action, m: Moment, e: Setup) {
    && !Stops(action, m, e)
    && (action.Do? || action.Recall? || action.Clear? || action.Nothing?
        || (action.DeleteOrEnd? && Whole(m.line) != ""))
  }

  method KeepsGoing(l: LineState, h: History, action: Action) returns (b: bool)
    requires l.Ready() && l.Browsable(h)
    ensures b <==> Continues(action, Now(l, h), SetupOf(l))
  {
    assert |l.Line().before| == l.pos && |l.Line().after| == l.len - l.pos;
    match action {
      case Do(Insert(_)) => b := l.len == l.buflen || |l.prompt| + l.len + 1 < |l.tty.screen.grid|;
      case Do(MoveWordStart) => b := l.pos > 0 || l.len == 0 || l.guard != ' ';
      case DeleteOrEnd => b := l.len > 0;
      case Recall(back) => b := RecallFits(l, h, back);
      case _ => b := action.Do? || action.Clear? || action.Nothing?;
    }
  }

  method RecallFits(l: LineState, h: History, back: bool) returns (b: bool)
    requires l.Ready() && l.Browsable(h)
    ensures b <==> !Overflows(Recall(back), Now(l, h), SetupOf(l))
  {
    if h.len <= 1 || (if back then l.historyIndex + 1 == h.len else l.historyIndex == 0) {
      return true;
    }
    var index := if back then l.historyIndex + 1 else l.historyIndex - 1;
    b := |l.prompt| + |Fit(h.lines[h.len - 1 - index], l.buflen)| < |l.tty.screen.grid|;
  }

  /** One key that keeps the loop going. */
  method Perform(l: LineState, h: History, action: Action)
    requires l.Ready() && l.Browsable(h) && Continues(action, Now(l, h), SetupOf(l))
    requires action.Do? && action.cmd.Insert? ==> Printable(action.cmd.c)
    modifies l, l.buf, l.tty, h.lines
    ensures l.Ready() && l.Browsable(h)
    ensures Follows(old(Now(l, h)), action, Now(l, h), SetupOf(l))
  {
    match action {
      case Do(cmd) => EditKeepingHistory(l, h, cmd);
      case DeleteOrEnd => EditKeepingHistory(l, h, Command.Delete);
      case Recall(back) => l.HistoryNext(h, back);
      case Clear => ClearKeepingHistory(l, h);
      case Nothing =>
    }
  }

  method LeaveLine(l: LineState, h: History)
    requires l.Ready() && h.Valid() && h.len > 0
    modifies l, l.tty, h`len
    ensures l.Ready() && h.Valid() && DropsLast(old(Now(l, h)), Now(l, h))
    ensures l.Line() == Edit(MoveEnd, old(l.Line()), l.buflen) && l.pos == l.len
    ensures ScrolledAbove(old(l.tty.screen), old(l.base), l.tty.screen, l.base)
  {
    hide Edit, ScrolledAbove;
    h.Pop();
    ghost var kept := h.Contents();
    l.MoveEnd();
    assert h.Contents() == kept;
  }

  datatype Outcome = Entered | Cancelled | EndOfInput | LeftBuffer | NoRoom | NotModelled

  /** How the loop ends by a key. */
  function OutcomeOf(action: Action): Outcome {
    match action
    case Enter => Entered
    case Cancel => Cancelled
    case DeleteOrEnd => EndOfInput
    case Do(MoveWordStart) => LeftBuffer
    case Do(_) => NoRoom
    case Recall(_) => NoRoom
    case _ => NotModelled
  }

  /** The loop ends at Enter and Cancel, at delete-right on an empty line, at what is not modelled,
      and where the model stops: when the line the key makes cannot be shown, or when word-start
      leaves the buffer. */
  lemma LoopEndsExactly(action: Action, m: Moment, e: Setup)
    requires InRange(m.browse) && |Whole(m.line)| <= e.capacity
    requires |e.prompt| + |Whole(m.line)| < |m.screen.grid|
    ensures !Continues(action, m, e) <==>
      match action
      case Do(cmd) =>
        || |e.prompt| + |Whole(Edit(cmd, m.line, e.capacity))| >= |m.screen.grid|
        || (cmd == MoveWordStart && m.line.before == "" && m.line.after != "" && e.guard == ' ')
      case DeleteOrEnd => m.line == LineText.Line("", "")
      case Recall(back) =>
        var after := Move(m.browse, back, e.capacity);
        after.index != m.browse.index && |e.prompt| + |after.text| >= |m.screen.grid|
      case Clear => false
      case Nothing => false
      case _ => true
    ensures OutcomeOf(action) == Cancelled <==> action == Cancel
    ensures OutcomeOf(action) == EndOfInput <==> action == DeleteOrEnd
  {
    if action.Do? && !action.cmd.Insert? {
      NoLonger(action.cmd, m.line, e.capacity);
    }
  }

  lemma NoLonger(cmd: Command, l: Line, capacity: nat)
    requires !cmd.Insert?
    ensures |Whole(Edit(cmd, l, capacity))| <= |Whole(l)|
  {
    hide NextWord, DropSpacesBack, DropWordBack;
    PrefixBack(l.before);
  }

  /** The end of the loop: Enter drops the stored line that stood for the edited one and
      leaves the cursor after the text. */
  method Leave(l: LineState, h: History, action: Action) returns (outcome: Outcome)
    requires l.Ready() && l.Browsable(h) && !Continues(action, Now(l, h), SetupOf(l))
    modifies l, l.tty, h`len
    ensures l.Ready() && h.Valid()
    ensures Follows(old(Now(l, h)), action, Now(l, h), SetupOf(l))
    ensures outcome == OutcomeOf(action)
    ensures outcome == Entered ==> l.pos == l.len
  {
    hide LineEditor.LineState.Tracks, LineEditor.LineState.Showing, ScrolledAbove, Move;
    l.Unmoved();
    match action {
      case Enter =>
        LeaveLine(l, h);
        outcome := Entered;
      case DeleteOrEnd =>
        h.Pop();
        outcome := EndOfInput;
      case Cancel => outcome := Cancelled;
      case Do(MoveWordStart) => outcome := LeftBuffer;
      case Do(_) => outcome := NoRoom;
      case Recall(_) => outcome := NoRoom;
      case Outside => outcome := NotModelled;
    }
  }

  lemma DecodedPrintable(km: Keymap, input: string)
    requires input != ""
    ensures var a := DecodeKey(km, input).action; a.Do? && a.cmd.Insert? ==> Printable(a.cmd.c)
  {
    ProcessedPrintable(km, input);
  }

  lemma {:induction false} ProcessedPrintable(km: Keymap, input: string)
    requires input != ""
    ensures var a := ProcessChar(km, input).action; a.Do? && a.cmd.Insert? ==> Printable(a.cmd.c)
    decreases |input|
  {
    if |input| > 1 {
      ProcessedPrintable(km, input[1..]);
    }
  }

  /** A session: the moments before and after each key, and the keys' actions. */
  ghost predicate Session(e: Setup, moments: seq<Moment>, actions: seq<Action>)
  {
    && |moments| == |actions| + 1
    && (forall m :: m in moments ==> Displays(m, e.prompt))
    && forall i :: 0 <= i < |actions| ==> Follows(moments[i], actions[i], moments[i + 1], e)
  }

  ghost predicate SessionSoFar(l: LineState, h: History, moments: seq<Moment>, actions: seq<Action>)
    requires l.Valid() && h.Valid()
    reads l, l.buf, l.tty, h, h.lines
  {
    Session(SetupOf(l), moments, actions) && moments[|actions|] == Now(l, h)
  }

  lemma SessionSnoc(e: Setup, moments: seq<Moment>, actions: seq<Action>, a: Action, m: Moment)
    requires Session(e, moments, actions) && Displays(m, e.prompt)
    requires Follows(moments[|actions|], a, m, e)
    ensures Session(e, moments + [m], actions + [a])
  {
    forall i | 0 <= i < |actions + [a]|
      ensures Follows((moments + [m])[i], (actions + [a])[i], (moments + [m])[i + 1], e)
    {
      if i < |actions| {
        assert Follows(moments[i], actions[i], moments[i + 1], e);
      }
    }
  }

  lemma Recorded(l: LineState, h: History, moments: seq<Moment>, actions: seq<Action>, a: Action)
    requires l.Ready() && h.Valid() && Session(SetupOf(l), moments, actions)
    requires Follows(moments[|actions|], a, Now(l, h), SetupOf(l))
    ensures SessionSoFar(l, h, moments + [Now(l, h)], actions + [a])
  {
    ReadyDisplays(l, h);
    SessionSnoc(SetupOf(l), moments, actions, a, Now(l, h));
  }

  function Spaces(n: nat): string {
    seq(n, _ => ' ')
  }

  lemma TypedSpace(k: nat, capacity: nat)
    requires k <= capacity
    ensures Edit(Insert(' '), LineText.Line(Spaces(k), ""), capacity)
      == LineText.Line(Spaces(if k < capacity then k + 1 else k), "")
  {
    assert Spaces(k) + [' '] == Spaces(k + 1);
  }

  lemma AddedPrintable(entries: seq<string>, max: nat)
    requires max > 0 && forall e, c :: e in entries && c in e ==> Printable(c)
    ensures AddLine(entries, max, "") != []
    ensures forall e, c :: e in AddLine(entries, max, "") && c in e ==> Printable(c)
  {
    assert forall e :: e in AddLine(entries, max, "") ==> e in entries || e == "";
  }

  method TypeSpaces(l: LineState, spaces: nat)
    requires l.Ready() && l.Line() == LineText.Line("", "")
    requires l.HasRoom(if spaces <= l.buflen then spaces else l.buflen)
    modifies l, l.buf, l.tty
    ensures l.Ready() && l.historyIndex == old(l.historyIndex)
    ensures l.Line() == LineText.Line(Spaces(if spaces <= l.buflen then spaces else l.buflen), "")
  {
    hide LineEditor.LineState.Tracks, LineEditor.LineState.Showing;
    var i := 0;
    while i < spaces
      invariant i <= spaces && l.Ready() && l.historyIndex == old(l.historyIndex)
      invariant |l.tty.screen.grid| == old(|l.tty.screen.grid|)
      invariant l.Line() == LineText.Line(Spaces(if i <= l.buflen then i else l.buflen), "")
    {
      TypedSpace(if i <= l.buflen then i else l.buflen, l.buflen);
      l.Insert(' ');
      i := i + 1;
    }
  }

  /** What `linenoiseEdit` does before its loop: an entry for the new line, and the spaces
      asked for, as far as they fit. */
  method Start(l: LineState, h: History, spaces: nat)
    requires l.Ready() && l.Line() == LineText.Line("", "") && l.historyIndex == 0
    requires l.HasRoom(if spaces <= l.buflen then spaces else l.buflen)
    requires h.Valid() && h.maxLen > 0 && forall e, c :: e in h.Contents() && c in e ==> Printable(c)
    modifies l, l.buf, l.tty, h, h.lines
    ensures l.Ready() && l.Browsable(h) && l.historyIndex == 0
    ensures h.Contents() == AddLine(old(h.Contents()), h.maxLen, "")
    ensures l.Line() == LineText.Line(Spaces(if spaces <= l.buflen then spaces else l.buflen), "")
  {
    hide LineEditor.LineState.Tracks, LineEditor.LineState.Showing, AddLine, Edit;
    AddedPrintable(h.Contents(), h.maxLen);
    var _ := h.Add("");
    ghost var entries := h.Contents();
    TypeSpaces(l, spaces);
    l.RefreshMultiLine();
    assert h.Contents() == entries;
  }

  /** The input that is left after `n` keys. */
  function Rest(km: Keymap, input: string, n: nat): string {
    if n == 0 then input else
      var r := Rest(km, input, n - 1);
      if r == "" then "" else r[DecodeKey(km, r).bytes..]
  }

  /** The actions are those of the input's keys, one after the other, up to its end or to the
      first that ends the loop. */
  ghost predicate Reads(km: Keymap, input: string, e: Setup, moments: seq<Moment>, actions: seq<Action>)
    requires |moments| == |actions| + 1
  {
    var n := |actions|;
    && (forall i :: 0 <= i < n ==> Rest(km, input, i) != "" && actions[i] == DecodeKey(km, Rest(km, input, i)).action)
    && (forall i :: 0 <= i < n - 1 ==> Continues(actions[i], moments[i], e))
    && (Rest(km, input, n) == "" || Ended(e, moments, actions))
  }

  /** The last key ended the loop. */
  ghost predicate Ended(e: Setup, moments: seq<Moment>, actions: seq<Action>)
    requires |moments| == |actions| + 1
  {
    var n := |actions|;
    n > 0 && !Continues(actions[n - 1], moments[n - 1], e)
  }

  lemma {:induction false} StrokesLeft(strokes: seq<Stroke>, i: nat)
    requires (forall s :: s in strokes ==> Pressable(s)) && i <= |strokes|
    ensures Rest(KEYMAP, AllBytes(strokes), i) == AllBytes(strokes[i..])
  {
    hide DecodeKey, Bytes, Meaning, Pressable;
    if i == 0 {
      assert strokes[0..] == strokes;
    } else {
      StrokesLeft(strokes, i - 1);
      var left, s := strokes[i - 1..], strokes[i - 1];
      assert left[0] == s && left[1..] == strokes[i..];
      StrokeDecodes(s, AllBytes(strokes[i..]));
      assert AllBytes(left) == Bytes(s) + AllBytes(strokes[i..]);
      assert (Bytes(s) + AllBytes(strokes[i..]))[|Bytes(s)|..] == AllBytes(strokes[i..]);
    }
  }

  lemma StrokeRead(strokes: seq<Stroke>, i: nat)
    requires (forall s :: s in strokes ==> Pressable(s)) && i <= |strokes|
    ensures Rest(KEYMAP, AllBytes(strokes), i) == "" <==> i == |strokes|
    ensures i < |strokes| ==> DecodeKey(KEYMAP, Rest(KEYMAP, AllBytes(strokes), i)).action == Meaning(strokes[i])
  {
    hide DecodeKey, Meaning, Pressable;
    StrokesLeft(strokes, i);
    if i < |strokes| {
      assert strokes[i..][1..] == strokes[i + 1..] && strokes[i..][0] == strokes[i];
      StrokeDecodes(strokes[i], AllBytes(strokes[i + 1..]));
    }
  }

  /** When a user presses these keys, the actions of the session are what the keys mean. */
  lemma StrokesMean(strokes: seq<Stroke>, e: Setup, moments: seq<Moment>, actions: seq<Action>)
    requires forall s :: s in strokes ==> Pressable(s)
    requires |moments| == |actions| + 1 && Reads(KEYMAP, AllBytes(strokes), e, moments, actions)
    ensures |actions| <= |strokes| && forall i :: 0 <= i < |actions| ==> actions[i] == Meaning(strokes[i])
    ensures |actions| == |strokes| || Ended(e, moments, actions)
  {
    hide DecodeKey, Meaning, Pressable, Rest, Continues, Ended, AllBytes;
    StrokeRead(strokes, |strokes|);
    assert |actions| <= |strokes|;
    forall i | 0 <= i < |actions| ensures actions[i] == Meaning(strokes[i]) {
      StrokeRead(strokes, i);
    }
    StrokeRead(strokes, |actions|);
  }

  /** Every key read so far let the loop go on. */
  ghost predicate KeysSoFar(km: Keymap, input: string, e: Setup, moments: seq<Moment>, actions: seq<Action>)
    requires |moments| == |actions| + 1
  {
    forall i :: 0 <= i < |actions| ==>
      && Rest(km, input, i) != "" && actions[i] == DecodeKey(km, Rest(km, input, i)).action
      && Continues(actions[i], moments[i], e)
  }

  lemma NoKeys(km: Keymap, input: string, e: Setup, m: Moment)
    ensures Rest(km, input, 0) == input && KeysSoFar(km, input, e, [m], [])
  {
  }

  lemma RestStep(km: Keymap, input: string, n: nat)
    requires Rest(km, input, n) != ""
    ensures Rest(km, input, n + 1) == Rest(km, input, n)[DecodeKey(km, Rest(km, input, n)).bytes..]
  {
    hide DecodeKey;
  }

  lemma KeyRead(km: Keymap, input: string, e: Setup, moments: seq<Moment>, actions: seq<Action>, m: Moment)
    requires |moments| == |actions| + 1 && KeysSoFar(km, input, e, moments, actions)
    requires Rest(km, input, |actions|) != ""
    ensures var key := DecodeKey(km, Rest(km, input, |actions|));
      var moments', actions' := moments + [m], actions + [key.action];
      && Rest(km, input, |actions'|) == Rest(km, input, |actions|)[key.bytes..]
      && if Continues(key.action, moments[|actions|], e) then KeysSoFar(km, input, e, moments', actions')
         else Reads(km, input, e, moments', actions') && Ended(e, moments', actions')
  {
    hide DecodeKey, Continues, Rest;
    RestStep(km, input, |actions|);
    var key := DecodeKey(km, Rest(km, input, |actions|));
    var moments', actions' := moments + [m], actions + [key.action];
    forall i | 0 <= i < |actions'|
      ensures Rest(km, input, i) != "" && actions'[i] == DecodeKey(km, Rest(km, input, i)).action
      ensures i < |actions| ==> Continues(actions'[i], moments'[i], e)
    {
      if i < |actions| {
        assert actions'[i] == actions[i] && moments'[i] == moments[i];
      }
    }
  }

  lemma AllRead(km: Keymap, input: string, e: Setup, moments: seq<Moment>, actions: seq<Action>)
    requires |moments| == |actions| + 1 && KeysSoFar(km, input, e, moments, actions)
    requires Rest(km, input, |actions|) == ""
    ensures Reads(km, input, e, moments, actions) && !Ended(e, moments, actions)
    ensures actions == [] || actions[|actions| - 1] != Enter
  {
    if actions != [] {
      assert Continues(actions[|actions| - 1], moments[|actions| - 1], e);
    }
  }

  lemma EnterEnds(e: Setup, moments: seq<Moment>, actions: seq<Action>)
    requires |moments| == |actions| + 1 && Ended(e, moments, actions)
    ensures actions != [] && (OutcomeOf(actions[|actions| - 1]) == Entered <==> actions[|actions| - 1] == Enter)
  {
  }

  /** Between two keys: the screen shows the line, and so far the keys were those of the input. */
  ghost predicate InLoop(l: LineState, h: History, km: Keymap, input: string, rest: string,
                         moments: seq<Moment>, actions: seq<Action>)
    reads l, l.buf, l.tty, h, h.lines
  {
    && l.Ready() && l.Browsable(h) && |moments| == |actions| + 1
    && SessionSoFar(l, h, moments, actions)
    && rest == Rest(km, input, |actions|) && KeysSoFar(km, input, SetupOf(l), moments, actions)
  }

  lemma LoopStarts(l: LineState, h: History, km: Keymap, input: string)
    requires l.Ready() && l.Browsable(h)
    ensures InLoop(l, h, km, input, input, [Now(l, h)], [])
  {
    ReadyDisplays(l, h);
    NoKeys(km, input, SetupOf(l), Now(l, h));
  }

  lemma InputRead(l: LineState, h: History, km: Keymap, input: string, moments: seq<Moment>, actions: seq<Action>)
    requires InLoop(l, h, km, input, "", moments, actions)
    ensures l.Ready() && h.Valid() && |moments| == |actions| + 1 && SessionSoFar(l, h, moments, actions)
    ensures Reads(km, input, SetupOf(l), moments, actions) && !Ended(SetupOf(l), moments, actions)
    ensures actions == [] || actions[|actions| - 1] != Enter
  {
    AllRead(km, input, SetupOf(l), moments, actions);
  }

  /** One round of the loop; it may be the last. */
  method OneKey(l: LineState, h: History, km: Keymap, ghost input: string, rest: string,
                ghost moments: seq<Moment>, ghost actions: seq<Action>)
    returns (rest': string, ended: bool, outcome: Outcome, ghost moments': seq<Moment>, ghost actions': seq<Action>)
    requires InLoop(l, h, km, input, rest, moments, actions) && rest != ""
    modifies l, l.buf, l.tty, h.lines, h`len
    ensures l.Ready() && h.Valid() && moments' != [] && moments'[0] == moments[0] && |rest'| < |rest|
    ensures !ended ==> InLoop(l, h, km, input, rest', moments', actions')
    ensures ended ==>
      && |moments'| == |actions'| + 1 && SessionSoFar(l, h, moments', actions')
      && Reads(km, input, SetupOf(l), moments', actions') && Ended(SetupOf(l), moments', actions')
      && outcome == OutcomeOf(actions'[|actions'| - 1]) && (outcome == Entered ==> l.pos == l.len)
  {
    hide KeysSoFar, Reads, Rest, Continues, DecodeKey, Session, Follows, Displays, OutcomeOf;
    var key := DecodeKey(km, rest);
    DecodedPrintable(km, rest);
    rest' := rest[key.bytes..];
    var goesOn := KeepsGoing(l, h, key.action);
    ended, outcome := !goesOn, EndOfInput;
    if goesOn {
      Perform(l, h, key.action);
    } else {
      outcome := Leave(l, h, key.action);
    }
    Recorded(l, h, moments, actions, key.action);
    KeyRead(km, input, SetupOf(l), moments, actions, Now(l, h));
    moments', actions' := moments + [Now(l, h)], actions + [key.action];
  }

  /** The loop of `linenoiseEdit`, over any input: whatever keys are pressed, the terminal
      shows exactly the edited line before and after each of them, with the cursor on its
      cell, and the line and the history change only as the key says. */
  method EditLoop(l: LineState, h: History, km: Keymap, input: string)
    returns (outcome: Outcome, ghost moments: seq<Moment>, ghost actions: seq<Action>)
    requires l.Ready() && l.Browsable(h)
    modifies l, l.buf, l.tty, h.lines, h`len
    ensures l.Ready() && h.Valid() && SessionSoFar(l, h, moments, actions)
    ensures moments[0] == old(Now(l, h)) && Reads(km, input, SetupOf(l), moments, actions)
    ensures outcome == if Ended(SetupOf(l), moments, actions) then OutcomeOf(actions[|actions| - 1]) else EndOfInput
    ensures outcome == Entered <==> actions != [] && actions[|actions| - 1] == Enter
    ensures outcome == Entered ==> l.pos == l.len
  {
    hide InLoop, SessionSoFar, Reads, Ended, OutcomeOf;
    LoopStarts(l, h, km, input);
    moments, actions := [Now(l, h)], [];
    var rest, ended := input, false;
    while rest != ""
      invariant InLoop(l, h, km, input, rest, moments, actions) && h.lines == old(h.lines)
      invariant moments != [] && moments[0] == old(Now(l, h))
      decreases |rest|
    {
      rest, ended, outcome, moments, actions := OneKey(l, h, km, input, rest, moments, actions);
      if ended {
        EnterEnds(SetupOf(l), moments, actions);
        return;
      }
    }
    InputRead(l, h, km, input, moments, actions);
    outcome := EndOfInput;
  }
}
