/** REPL sessions: one set of dynamic vars for the whole process, switched in before each
    execution and captured after it, so that each session sees only its own. */
module Sessions {

  datatype Option<T> = None | Some(value: T)

  datatype Value = Nil | Datum(id: int)

  type SessionId = int

  /** The vars a session has for its own. */
  datatype Vars = Vars(
    printMeta: Value, printLength: Value, printLevel: Value, printNamespaceMaps: Value,
    uncheckedIf: Value, assertions: Value,
    star1: Value, star2: Value, star3: Value, starE: Value)

  datatype Ending = Returned(value: Value) | Failed(error: Value)

  /** Evaluating (and printing) a source: the vars it leaves, and how it ends. */
  datatype Outcome = Outcome(vars: Vars, ending: Ending)

  /** One source handed to a session. `evaluate` is whatever its code does with the vars;
      `plain` is false for the forms `*1`, `*2`, `*3`, `*e` and for `ns` forms. */
  datatype Execution = Execution(session: SessionId, expression: bool, plain: bool, evaluate: Vars -> Outcome)

  datatype Event =
    | Execute(x: Execution)
    | Clear(session: SessionId)
    | Stray(change: Vars -> Vars)   // timers, special forms: anything else that sets the vars

  datatype State = State(globals: Vars, sessions: map<SessionId, Vars>)

  // ---------------------------------------------------------------- one session by itself

  /** `process-1-2-3` */
  function Recorded(v: Vars, value: Value): Vars {
    v.(star3 := v.star2, star2 := v.star1, star1 := value)
  }

  /** One execution, from the session's vars to the session's vars. */
  function After(repl: bool, v: Vars, x: Execution): Vars {
    var o := x.evaluate(v);
    match o.ending
    case Returned(value) => if repl && x.expression && x.plain then Recorded(o.vars, value) else o.vars
    case Failed(error) => if repl then o.vars.(starE := error) else o.vars
  }

  /** Running just these, one after the other. */
  function Alone(repl: bool, start: Vars, xs: seq<Execution>): Vars {
    if xs == [] then start else After(repl, Alone(repl, start, xs[..|xs| - 1]), xs[|xs| - 1])
  }

  /** A session's own executions since it was last cleared. */
  function Own(events: seq<Event>, s: SessionId): seq<Execution> {
    if events == [] then [] else
      var before := Own(events[..|events| - 1], s);
      match events[|events| - 1]
      case Execute(x) => if x.session == s then before + [x] else before
      case Clear(t) => if t == s then [] else before
      case Stray(_) => before
  }

  // ---------------------------------------------------------------- the process

  function Saved(st: State, start: Vars, s: SessionId): Vars {
    if s in st.sessions then st.sessions[s] else start
  }

  function Step(repl: bool, start: Vars, st: State, e: Event): State {
    match e
    case Execute(x) =>
      var v := After(repl, Saved(st, start, x.session), x);
      State(v, st.sessions[x.session := v])
    case Clear(s) => st.(sessions := st.sessions - {s})
    case Stray(change) => st.(globals := change(st.globals))
  }

  function Run(repl: bool, start: Vars, st: State, events: seq<Event>): State {
    if events == [] then st else Step(repl, start, Run(repl, start, st, events[..|events| - 1]), events[|events| - 1])
  }

  /** After any interleaving a session's vars are those its own executions give when nothing
      else runs; in particular that is what its next execution sees. */
  lemma {:induction false} SessionsIsolated(repl: bool, start: Vars, st: State, events: seq<Event>, s: SessionId)
    requires st.sessions == map[]
    ensures Saved(Run(repl, start, st, events), start, s) == Alone(repl, start, Own(events, s))
    decreases |events|
  {
    if events != [] {
      var before, e := events[..|events| - 1], events[|events| - 1];
      SessionsIsolated(repl, start, st, before, s);
      if e.Execute? && e.x.session == s {
        var own := Own(before, s);
        assert (own + [e.x])[..|own|] == own;
      }
    }
  }

  /** What the other sessions do, and anything in between, makes no difference. */
  lemma OthersMakeNoDifference(repl: bool, start: Vars, st: State, events: seq<Event>,
                               st': State, events': seq<Event>, s: SessionId)
    requires st.sessions == map[] && st'.sessions == map[] && Own(events, s) == Own(events', s)
    ensures Saved(Run(repl, start, st, events), start, s) == Saved(Run(repl, start, st', events'), start, s)
  {
    SessionsIsolated(repl, start, st, events, s);
    SessionsIsolated(repl, start, st', events', s);
  }

  /** A session's own executions, by what each event is; what came before its last clearing does
      not count. */
  lemma {:induction false} OwnOf(a: seq<Event>, b: seq<Event>, s: SessionId)
    ensures Own(a + b, s) == if Clear(s) in b then Own(b, s) else Own(a, s) + Own(b, s)
    decreases |b|
  {
    if b == [] {
      assert a + b == a;
    } else {
      var n := |b| - 1;
      assert (a + b)[..|a + b| - 1] == a + b[..n] && b == b[..n] + [b[n]];
      OwnOf(a, b[..n], s);
    }
  }

  lemma OwnOfOne(e: Event, s: SessionId)
    ensures Own([e], s) == if e.Execute? && e.x.session == s then [e.x] else []
  {
    assert [e][..0] == [];
  }

  /** So when a session was cleared it is as new, and what it does from then on is all there is. */
  lemma ClearForgets(repl: bool, start: Vars, st: State, before: seq<Event>, after: seq<Event>, s: SessionId)
    requires st.sessions == map[]
    ensures Saved(Run(repl, start, st, before + [Clear(s)]), start, s) == start
    ensures Saved(Run(repl, start, st, before + [Clear(s)] + after), start, s)
      == Saved(Run(repl, start, st, after), start, s)
  {
    SessionsIsolated(repl, start, st, before + [Clear(s)], s);
    SessionsIsolated(repl, start, st, before + [Clear(s)] + after, s);
    SessionsIsolated(repl, start, st, after, s);
    OwnOf(before, [Clear(s)], s);
    OwnOfOne(Clear(s), s);
    OwnOf(before + [Clear(s)], after, s);
    assert [] + Own(after, s) == Own(after, s);
  }

  /** What one execution leaves: the vars as its evaluation left them, except that in the REPL a
      plain form's value moves into `*1`, pushing the others on, and an error into `*e`. */
  lemma AfterExactly(repl: bool, v: Vars, x: Execution)
    ensures var o, w := x.evaluate(v), After(repl, v, x);
      && w.printMeta == o.vars.printMeta && w.printLength == o.vars.printLength
      && w.printLevel == o.vars.printLevel && w.printNamespaceMaps == o.vars.printNamespaceMaps
      && w.uncheckedIf == o.vars.uncheckedIf && w.assertions == o.vars.assertions
      && [w.star1, w.star2, w.star3]
         == (if o.ending.Returned? && repl && x.expression && x.plain
             then [o.ending.value, o.vars.star1, o.vars.star2] else [o.vars.star1, o.vars.star2, o.vars.star3])
      && w.starE == if o.ending.Failed? && repl then o.ending.error else o.vars.starE
  {
  }

  /** So the other six are those that the evaluations, one after the other, left. */
  lemma {:induction false} OthersLeft(repl: bool, start: Vars, xs: seq<Execution>, x: Execution)
    ensures var v := Alone(repl, start, xs);
      var w, left := Alone(repl, start, xs + [x]), x.evaluate(v).vars;
      && w.printMeta == left.printMeta && w.printLength == left.printLength && w.printLevel == left.printLevel
      && w.printNamespaceMaps == left.printNamespaceMaps && w.uncheckedIf == left.uncheckedIf
      && w.assertions == left.assertions
  {
    assert (xs + [x])[..|xs|] == xs;
    AfterExactly(repl, Alone(repl, start, xs), x);
  }

  // ---------------------------------------------------------------- *1 *2 *3 *e

  /** Code that leaves the result vars alone. */
  ghost predicate LeavesResults(x: Execution) {
    forall v :: var w := x.evaluate(v).vars;
      w.star1 == v.star1 && w.star2 == v.star2 && w.star3 == v.star3 && w.starE == v.starE
  }

  /** The values these executions record, latest first. */
  function Values(repl: bool, start: Vars, xs: seq<Execution>): seq<Value> {
    if xs == [] then [] else
      var before := xs[..|xs| - 1];
      var x := xs[|xs| - 1];
      var ending := x.evaluate(Alone(repl, start, before)).ending;
      (if repl && x.expression && x.plain && ending.Returned? then [ending.value] else []) + Values(repl, start, before)
  }

  /** Their errors, latest first. */
  function Errors(repl: bool, start: Vars, xs: seq<Execution>): seq<Value> {
    if xs == [] then [] else
      var before := xs[..|xs| - 1];
      var ending := xs[|xs| - 1].evaluate(Alone(repl, start, before)).ending;
      (if repl && ending.Failed? then [ending.error] else []) + Errors(repl, start, before)
  }

  /** The result vars are the last three recorded values and the last error. */
  lemma {:induction false} LastThree(repl: bool, start: Vars, xs: seq<Execution>)
    requires forall x :: x in xs ==> LeavesResults(x)
    ensures var v := Alone(repl, start, xs);
      && [v.star1, v.star2, v.star3] == (Values(repl, start, xs) + [start.star1, start.star2, start.star3])[..3]
      && v.starE == (Errors(repl, start, xs) + [start.starE])[0]
    decreases |xs|
  {
    if xs != [] {
      var before, x := xs[..|xs| - 1], xs[|xs| - 1];
      LastThree(repl, start, before);
      var v := Alone(repl, start, before);
      assert LeavesResults(x);
      assert x.evaluate(v).vars.star1 == v.star1;
      var known := Values(repl, start, before) + [start.star1, start.star2, start.star3];
      assert [v.star1, v.star2, v.star3] == known[..3];
      assert v.star1 == known[0] && v.star2 == known[1] && v.star3 == known[2];
      if repl && x.expression && x.plain && x.evaluate(v).ending.Returned? {
        var value := x.evaluate(v).ending.value;
        assert Values(repl, start, xs) + [start.star1, start.star2, start.star3] == [value] + known;
      } else {
        assert Values(repl, start, xs) == Values(repl, start, before);
      }
    }
  }

  // ---------------------------------------------------------------- the REPL

  class Repl {
    const repl: bool
    const defaultState: Vars
    var printMeta: Value
    var printLength: Value
    var printLevel: Value
    var printNamespaceMaps: Value
    var uncheckedIf: Value
    var assertions: Value
    var star1: Value
    var star2: Value
    var star3: Value
    var starE: Value
    var sessionStates: map<SessionId, Vars>

    constructor (repl: bool, start: Vars)
      ensures this.repl == repl && defaultState == start && Now() == State(start, map[])
    {
      this.repl, defaultState, sessionStates := repl, start, map[];
      printMeta, printLength, printLevel := start.printMeta, start.printLength, start.printLevel;
      printNamespaceMaps, uncheckedIf, assertions := start.printNamespaceMaps, start.uncheckedIf, start.assertions;
      star1, star2, star3, starE := start.star1, start.star2, start.star3, start.starE;
    }

    /** `capture-session-state` */
    function Captured(): Vars
      reads this
    {
      Vars(printMeta, printLength, printLevel, printNamespaceMaps, uncheckedIf, assertions, star1, star2, star3, starE)
    }

    function Now(): State
      reads this
    {
      State(Captured(), sessionStates)
    }

    /** `set-session-state` */
    method SetSessionState(v: Vars)
      modifies this
      ensures Captured() == v && sessionStates == old(sessionStates)
      ensures printMeta == v.printMeta && printLength == v.printLength && printLevel == v.printLevel
      ensures printNamespaceMaps == v.printNamespaceMaps && uncheckedIf == v.uncheckedIf && assertions == v.assertions
      ensures star1 == v.star1 && star2 == v.star2 && star3 == v.star3 && starE == v.starE
    {
      printMeta := v.printMeta;
      printLength := v.printLength;
      printLevel := v.printLevel;
      printNamespaceMaps := v.printNamespaceMaps;
      uncheckedIf := v.uncheckedIf;
      assertions := v.assertions;
      star1 := v.star1;
      star2 := v.star2;
      star3 := v.star3;
      starE := v.starE;
    }

    method SetSessionStateForSessionId(s: SessionId)
      modifies this
      ensures Captured() == Saved(old(Now()), defaultState, s) && sessionStates == old(sessionStates)
    {
      SetSessionState(if s in sessionStates then sessionStates[s] else defaultState);
    }

    method CaptureSessionStateForSessionId(s: SessionId)
      modifies this`sessionStates
      ensures sessionStates == old(sessionStates)[s := Captured()]
    {
      sessionStates := sessionStates[s := Captured()];
    }

    method ClearStateForSession(s: SessionId)
      modifies this`sessionStates
      ensures Now() == Step(repl, defaultState, old(Now()), Clear(s))
    {
      sessionStates := sessionStates - {s};
    }

    method Process123(plain: bool, value: Value)
      modifies this
      ensures Captured() == (if repl && plain then Recorded(old(Captured()), value) else old(Captured()))
      ensures sessionStates == old(sessionStates)
      ensures repl && plain ==> star1 == value && star2 == old(star1) && star3 == old(star2)
    {
      if repl && plain {
        star3 := star2;
        star2 := star1;
        star1 := value;
      }
    }

    method HandleError(error: Value)
      modifies this
      ensures Captured() == (if repl then old(Captured()).(starE := error) else old(Captured()))
      ensures sessionStates == old(sessionStates)
    {
      if repl {
        starE := error;
      }
    }

    /** `process-execute-source` */
    method ProcessExecuteSource(x: Execution)
      modifies this
      ensures Now() == Step(repl, defaultState, old(Now()), Execute(x))
    {
      SetSessionStateForSessionId(x.session);
      var o := x.evaluate(Captured());
      SetSessionState(o.vars);
      match o.ending {
        case Returned(value) =>
          if x.expression {
            Process123(x.plain, value);
          }
        case Failed(error) => HandleError(error);
      }
      CaptureSessionStateForSessionId(x.session);
    }

    /** Any interleaving leaves each session with what its own executions give. */
    method Serve(events: seq<Event>)
      requires sessionStates == map[]
      modifies this
      ensures forall s :: Saved(Now(), defaultState, s) == Alone(repl, defaultState, Own(events, s))
    {
      ghost var start := Now();
      for i := 0 to |events|
        invariant Now() == Run(repl, defaultState, start, events[..i])
      {
        assert events[..i + 1][..i] == events[..i];
        match events[i] {
          case Execute(x) => ProcessExecuteSource(x);
          case Clear(s) => ClearStateForSession(s);
          case Stray(change) => SetSessionState(change(Captured()));
        }
      }
      assert events[..|events|] == events;
      forall s ensures Saved(Now(), defaultState, s) == Alone(repl, defaultState, Own(events, s)) {
        SessionsIsolated(repl, defaultState, start, events, s);
      }
    }
  }
}
