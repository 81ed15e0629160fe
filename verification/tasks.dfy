/** Timers, intervals, asynchronous shells and the count of tasks that decides when the
    process may exit, as a protocol of atomic steps.

    JavaScript runs under the eval lock, so setting and clearing are single steps, taken
    either by the main script or by a callback. A callback is two steps, `Wake` and
    `Finish`, because other steps happen while it runs. */
module Tasks {

  const MAX_ID: nat := 9007199254740991

  datatype Option<T> = None | Some(value: T)

  /** A native timer thread: it sleeps once, then calls back once. */
  datatype Job = TimeoutJob(id: nat) | IntervalJob(id: nat)

  datatype Op =
    | SetTimeout
    | ClearTimeout(id: nat)
    | SetInterval
    | ClearInterval(id: nat)
    | Wake(job: Job)          // a timer thread gets the eval lock and calls back
    | Finish(threw: bool)     // the running callback returns, or throws
    | ShellStart
    | ShellEnd

  datatype State = State(
    outstanding: int,         // tasks_outstanding
    timeoutId: nat,
    intervalId: nat,
    timeouts: set<nat>,       // ids in PLANCK_TIMEOUT_CALLBACK_STORE
    intervals: set<nat>,      // ids in PLANCK_INTERVAL_CALLBACK_STORE
    native: multiset<Job>,
    running: Option<Job>,     // the callback holding the eval lock
    shells: nat,
    // history, which no step looks at
    runs: multiset<nat>,      // how often each timeout's callback was called
    cleared: set<nat>,        // timeouts taken out of the store by clearTimeout
    threw: set<nat>,          // intervals whose last run ended in an exception
    doubled: nat              // times one timeout was signalled complete a second time
  )

  const Initial := State(0, 0, 0, {}, {}, multiset{}, None, 0, multiset{}, {}, {}, 0)

  function NextId(id: nat): nat {
    if id == MAX_ID then 0 else id + 1
  }

  /** Ids count up to 2^53 - 1 and begin again at 0. */
  lemma IdsWrap(id: nat)
    ensures NextId(9007199254740991) == 0 && (id < 9007199254740991 ==> NextId(id) == id + 1)
  {
  }

  predicate Enabled(s: State, op: Op) {
    match op
    case Wake(job) => job in s.native && s.running.None?
    case Finish(_) => s.running.Some?
    case ShellEnd => s.shells > 0
    case _ => true
  }

  function Step(s: State, op: Op): State
    requires Enabled(s, op)
  {
    match op
    case SetTimeout =>
      var id := NextId(s.timeoutId);
      s.(timeoutId := id, outstanding := s.outstanding + 1,
         native := s.native + multiset{TimeoutJob(id)}, timeouts := s.timeouts + {id})
    case ClearTimeout(id) =>
      if id in s.timeouts then
        s.(timeouts := s.timeouts - {id}, outstanding := s.outstanding - 1, cleared := s.cleared + {id})
      else s
    case SetInterval =>
      var id := NextId(s.intervalId);
      s.(intervalId := id, outstanding := s.outstanding + 1,
         native := s.native + multiset{IntervalJob(id)}, intervals := s.intervals + {id})
    case ClearInterval(id) =>
      if id in s.intervals then
        s.(intervals := s.intervals - {id}, outstanding := s.outstanding - 1)
      else s
    case Wake(job) =>
      var s' := s.(native := s.native - multiset{job});
      (match job
       case TimeoutJob(id) =>
         if id in s.timeouts then s'.(running := Some(job), runs := s.runs + multiset{id}) else s'
       case IntervalJob(id) =>
         if id in s.intervals then s'.(running := Some(job)) else s')
    case Finish(threw) =>
      var s' := s.(running := None);
      (match s.running.value
       case TimeoutJob(id) =>   // delete and signal, whether or not it threw
         s'.(timeouts := s.timeouts - {id}, outstanding := s.outstanding - 1,
             doubled := if id in s.timeouts then s.doubled else s.doubled + 1)
       case IntervalJob(id) =>  // rescheduled after the function, so not when it threw
         if threw then s'.(threw := s.threw + {id})
         else s'.(native := s.native + multiset{IntervalJob(id)}))
    case ShellStart => s.(outstanding := s.outstanding + 1, shells := s.shells + 1)
    case ShellEnd => s.(outstanding := s.outstanding - 1, shells := s.shells - 1)
  }

  /** Every step of a run is enabled where it is taken. */
  predicate Possible(s: State, ops: seq<Op>)
    decreases |ops|
  {
    ops == [] || (Enabled(s, ops[0]) && Possible(Step(s, ops[0]), ops[1..]))
  }

  function Run(s: State, ops: seq<Op>): State
    requires Possible(s, ops)
    decreases |ops|
  {
    if ops == [] then s else Run(Step(s, ops[0]), ops[1..])
  }

  function Live(s: State): nat {
    |s.timeouts| + |s.intervals| + s.shells
  }

  function Busy(s: State, job: Job): nat {
    s.native[job] + if s.running == Some(job) then 1 else 0
  }

  // ---------------------------------------------------------------- the invariant

  /** Each issued timeout is waiting, or being run, or has run, or was cleared. */
  ghost predicate TimeoutInv(s: State, id: nat) {
    var job := TimeoutJob(id);
    && Busy(s, job) <= 1
    && (id == 0 || s.timeoutId < id ==> id !in s.timeouts && id !in s.cleared && s.runs[id] == Busy(s, job) == 0)
    && (id in s.timeouts ==> id !in s.cleared && Busy(s, job) == 1)
    && (s.native[job] == 1 ==> s.runs[id] == 0)
    && (s.running == Some(job) ==> s.runs[id] == 1 && (id in s.timeouts || id in s.cleared))
    && s.runs[id] <= 1
    && (0 < id <= s.timeoutId && id !in s.timeouts ==> id in s.cleared || s.runs[id] == 1)
    && (id in s.cleared && s.runs[id] == 1 && s.running != Some(job) ==> s.doubled > 0)
  }

  /** Each interval id has at most one native timer or running callback, and a live one
      has exactly one unless a run of it threw. */
  ghost predicate IntervalInv(s: State, id: nat) {
    var job := IntervalJob(id);
    && Busy(s, job) <= 1
    && (id == 0 || s.intervalId < id ==> id !in s.intervals && id !in s.threw && Busy(s, job) == 0)
    && (id in s.threw ==> Busy(s, job) == 0)
    && (id in s.intervals && id !in s.threw ==> Busy(s, job) == 1)
  }

  ghost predicate Inv(s: State) {
    && s.outstanding + s.doubled == Live(s)
    && (forall id: nat :: TimeoutInv(s, id))
    && (forall id: nat :: IntervalInv(s, id))
  }

  lemma StepCounts(s: State, op: Op)
    requires Enabled(s, op) && s.outstanding + s.doubled == Live(s)
    requires op.SetTimeout? ==> NextId(s.timeoutId) !in s.timeouts
    requires op.SetInterval? ==> NextId(s.intervalId) !in s.intervals
    ensures var s' := Step(s, op); s'.outstanding + s'.doubled == Live(s')
  {
    match op
    case SetTimeout => assert |s.timeouts + {NextId(s.timeoutId)}| == |s.timeouts| + 1;
    case SetInterval => assert |s.intervals + {NextId(s.intervalId)}| == |s.intervals| + 1;
    case ClearTimeout(id) => ClearCounts(s, id);
    case ClearInterval(id) => ClearCounts(s, id);
    case Wake(job) => WakeCounts(s, job);
    case Finish(threw) => FinishCounts(s, threw);
    case _ =>
  }

  lemma ClearCounts(s: State, id: nat)
    requires s.outstanding + s.doubled == Live(s)
    ensures var s' := Step(s, ClearTimeout(id)); s'.outstanding + s'.doubled == Live(s')
    ensures var s' := Step(s, ClearInterval(id)); s'.outstanding + s'.doubled == Live(s')
  {
    assert id in s.timeouts ==> |s.timeouts - {id}| == |s.timeouts| - 1;
    assert id in s.intervals ==> |s.intervals - {id}| == |s.intervals| - 1;
  }

  lemma WakeCounts(s: State, job: Job)
    requires Enabled(s, Wake(job))
    ensures var s' := Step(s, Wake(job));
            s'.outstanding == s.outstanding && s'.doubled == s.doubled && Live(s') == Live(s)
  {
  }

  lemma FinishCounts(s: State, threw: bool)
    requires Enabled(s, Finish(threw)) && s.outstanding + s.doubled == Live(s)
    ensures var s' := Step(s, Finish(threw)); s'.outstanding + s'.doubled == Live(s')
  {
    if s.running.value.TimeoutJob? {
      var id := s.running.value.id;
      if id in s.timeouts {
        assert |s.timeouts - {id}| == |s.timeouts| - 1;
      } else {
        assert s.timeouts - {id} == s.timeouts;
      }
    }
  }

  lemma StepTimeout(s: State, op: Op, id: nat)
    requires TimeoutInv(s, id) && Enabled(s, op) && s.timeoutId < MAX_ID
    ensures TimeoutInv(Step(s, op), id)
  {
    match op
    case SetTimeout => SetKeepsTimeout(s, id);
    case ClearTimeout(c) => ClearKeepsTimeout(s, c, id);
    case SetInterval =>
    case ClearInterval(_) =>
    case Wake(job) => WakeKeepsTimeout(s, job, id);
    case Finish(threw) => FinishKeepsTimeout(s, threw, id);
    case _ =>
  }

  lemma SetKeepsTimeout(s: State, id: nat)
    requires TimeoutInv(s, id) && s.timeoutId < MAX_ID
    ensures TimeoutInv(Step(s, SetTimeout), id)
  {
  }

  lemma ClearKeepsTimeout(s: State, cleared: nat, id: nat)
    requires TimeoutInv(s, id)
    ensures TimeoutInv(Step(s, ClearTimeout(cleared)), id)
  {
  }

  lemma WakeKeepsTimeout(s: State, job: Job, id: nat)
    requires TimeoutInv(s, id) && Enabled(s, Wake(job))
    ensures TimeoutInv(Step(s, Wake(job)), id)
  {
  }

  lemma FinishKeepsTimeout(s: State, threw: bool, id: nat)
    requires TimeoutInv(s, id) && Enabled(s, Finish(threw))
    ensures TimeoutInv(Step(s, Finish(threw)), id)
  {
  }

  lemma StepInterval(s: State, op: Op, id: nat)
    requires IntervalInv(s, id) && Enabled(s, op) && s.intervalId < MAX_ID
    ensures IntervalInv(Step(s, op), id)
  {
    match op
    case SetTimeout =>
    case ClearTimeout(_) =>
    case SetInterval =>
    case ClearInterval(_) =>
    case Wake(job) => WakeKeepsInterval(s, job, id);
    case Finish(threw) => FinishKeepsInterval(s, threw, id);
    case _ =>
  }

  lemma WakeKeepsInterval(s: State, job: Job, id: nat)
    requires IntervalInv(s, id) && Enabled(s, Wake(job))
    ensures IntervalInv(Step(s, Wake(job)), id)
  {
  }

  lemma FinishKeepsInterval(s: State, threw: bool, id: nat)
    requires IntervalInv(s, id) && Enabled(s, Finish(threw))
    ensures IntervalInv(Step(s, Finish(threw)), id)
  {
  }

  lemma StepKeepsInv(s: State, op: Op)
    requires Inv(s) && Enabled(s, op) && s.timeoutId < MAX_ID && s.intervalId < MAX_ID
    ensures Inv(Step(s, op))
  {
    assert TimeoutInv(s, s.timeoutId + 1) && IntervalInv(s, s.intervalId + 1);
    StepCounts(s, op);
    forall id: nat ensures TimeoutInv(Step(s, op), id) { StepTimeout(s, op, id); }
    forall id: nat ensures IntervalInv(Step(s, op), id) { StepInterval(s, op, id); }
  }

  /** Every interleaving keeps the invariant, while the ids have not wrapped. */
  lemma {:induction false} RunKeepsInv(s: State, ops: seq<Op>)
    requires Inv(s) && Possible(s, ops)
    requires s.timeoutId + |ops| <= MAX_ID && s.intervalId + |ops| <= MAX_ID
    ensures Inv(Run(s, ops))
    decreases |ops|
  {
    if ops != [] {
      StepKeepsInv(s, ops[0]);
      RunKeepsInv(Step(s, ops[0]), ops[1..]);
    }
  }

  // ---------------------------------------------------------------- when may the process exit

  /** A timeout's callback calls clearTimeout on its own id. */
  predicate SelfClears(s: State, op: Op) {
    op.ClearTimeout? && s.running == Some(TimeoutJob(op.id)) && op.id in s.timeouts
  }

  /** In this run some callback clears its own timeout. */
  predicate SelfClearsEver(s: State, ops: seq<Op>)
    requires Possible(s, ops)
    decreases |ops|
  {
    ops != [] && (SelfClears(s, ops[0]) || SelfClearsEver(Step(s, ops[0]), ops[1..]))
  }

  predicate Finishes(ops: seq<Op>) {
    exists i :: 0 <= i < |ops| && ops[i].Finish?
  }

  /** In this run some callback clears its own timeout, and ends: as one callback runs at a
      time, the next callback to end is that one. */
  predicate ClearsItself(s: State, ops: seq<Op>)
    requires Possible(s, ops)
    decreases |ops|
  {
    ops != [] && ((SelfClears(s, ops[0]) && Finishes(ops[1..])) || ClearsItself(Step(s, ops[0]), ops[1..]))
  }

  /** The running callback is that of a timeout no longer stored. */
  predicate Orphaned(s: State) {
    s.running.Some? && s.running.value.TimeoutJob? && s.running.value.id !in s.timeouts
  }

  lemma OrphanedStep(s: State, op: Op)
    requires Inv(s) && Enabled(s, op) && s.timeoutId < MAX_ID
    ensures Orphaned(Step(s, op)) <==> SelfClears(s, op) || (Orphaned(s) && !op.Finish?)
    ensures Step(s, op).doubled == s.doubled + if Orphaned(s) && op.Finish? then 1 else 0
  {
    if s.running.Some? && s.running.value.TimeoutJob? {
      assert TimeoutInv(s, s.running.value.id);
    }
  }

  lemma FinishesTail(ops: seq<Op>)
    requires ops != []
    ensures Finishes(ops) <==> ops[0].Finish? || Finishes(ops[1..])
  {
    forall i | 0 < i < |ops| && ops[i].Finish? ensures Finishes(ops[1..]) {
      assert ops[1..][i - 1].Finish?;
    }
    forall i | 0 <= i < |ops[1..]| && ops[1..][i].Finish? ensures Finishes(ops) {
      assert ops[i + 1].Finish?;
    }
  }

  /** A timeout is signalled complete a second time in a run exactly when a callback clears
      its own and ends. */
  lemma {:induction false} DoubledExactly(s: State, ops: seq<Op>)
    requires Inv(s) && Possible(s, ops)
    requires s.timeoutId + |ops| <= MAX_ID && s.intervalId + |ops| <= MAX_ID
    ensures Run(s, ops).doubled >= s.doubled
    ensures Run(s, ops).doubled > s.doubled <==> ClearsItself(s, ops) || (Orphaned(s) && Finishes(ops))
    decreases |ops|
  {
    if ops != [] {
      hide Inv;
      OrphanedStep(s, ops[0]);
      FinishesTail(ops);
      StepKeepsInv(s, ops[0]);
      DoubledExactly(Step(s, ops[0]), ops[1..]);
    }
  }

  lemma InitialInv()
    ensures Inv(Initial)
  {
    assert forall id: nat :: TimeoutInv(Initial, id);
  }

  /** Nothing is waiting, and every timeout ever set has run once or was cleared, not both. */
  ghost predicate AllDone(s: State) {
    && s.timeouts == {} && s.intervals == {} && s.shells == 0
    && forall id: nat :: 0 < id <= s.timeoutId ==> s.runs[id] <= 1 && (s.runs[id] == 1 <==> id !in s.cleared)
  }

  /** Some timeout both ran and was cleared. */
  ghost predicate Both(s: State) {
    exists id: nat :: s.runs[id] == 1 && id in s.cleared
  }

  lemma BothOf(s: State, id: nat)
    requires s.runs[id] == 1 && id in s.cleared
    ensures Both(s)
  {
  }

  lemma StepBoth(s: State, op: Op)
    requires Inv(s) && Enabled(s, op) && s.timeoutId < MAX_ID
    ensures Both(Step(s, op)) <==> Both(s) || SelfClears(s, op)
  {
    var s' := Step(s, op);
    if Both(s) {
      var id: nat :| s.runs[id] == 1 && id in s.cleared;
      assert TimeoutInv(s, id);
      StillBoth(s, op, id);
      BothOf(s', id);
    }
    if SelfClears(s, op) {
      assert TimeoutInv(s, op.id);
      BothOf(s', op.id);
    }
    if Both(s') {
      var id: nat :| s'.runs[id] == 1 && id in s'.cleared;
      assert TimeoutInv(s, id);
      WereBoth(s, op, id);
    }
  }

  lemma StillBoth(s: State, op: Op, id: nat)
    requires TimeoutInv(s, id) && Enabled(s, op) && s.runs[id] == 1 && id in s.cleared
    ensures Step(s, op).runs[id] == 1 && id in Step(s, op).cleared
  {
    match op
    case Wake(job) => assert Step(s, op).cleared == s.cleared;
    case _ => assert Step(s, op).runs == s.runs;
  }

  lemma WereBoth(s: State, op: Op, id: nat)
    requires TimeoutInv(s, id) && Enabled(s, op) && Step(s, op).runs[id] == 1 && id in Step(s, op).cleared
    ensures (s.runs[id] == 1 && id in s.cleared) || SelfClears(s, op)
  {
    match op
    case ClearTimeout(c) => assert Step(s, op).runs == s.runs;
    case Wake(job) => assert Step(s, op).cleared == s.cleared;
    case _ => assert Step(s, op).runs == s.runs && Step(s, op).cleared == s.cleared;
  }

  /** A timeout has both run and been cleared exactly when a callback cleared its own. */
  lemma {:induction false} BothExactly(s: State, ops: seq<Op>)
    requires Inv(s) && Possible(s, ops)
    requires s.timeoutId + |ops| <= MAX_ID && s.intervalId + |ops| <= MAX_ID
    ensures Both(Run(s, ops)) <==> Both(s) || SelfClearsEver(s, ops)
    decreases |ops|
  {
    if ops != [] {
      hide Inv, Both;
      StepBoth(s, ops[0]);
      StepKeepsInv(s, ops[0]);
      BothExactly(Step(s, ops[0]), ops[1..]);
    }
  }

  lemma {:induction false} EndedClears(s: State, ops: seq<Op>)
    requires Possible(s, ops) && ClearsItself(s, ops)
    ensures SelfClearsEver(s, ops)
    decreases |ops|
  {
    if !SelfClears(s, ops[0]) {
      EndedClears(Step(s, ops[0]), ops[1..]);
    }
  }

  lemma RunningStored(s: State)
    requires Inv(s) && !Both(s) && s.running.Some? && s.running.value.TimeoutJob?
    ensures s.running.value.id in s.timeouts
  {
    var id := s.running.value.id;
    assert TimeoutInv(s, id);
    if id in s.cleared {
      BothOf(s, id);
    }
  }

  lemma ZeroMeansDone(s: State)
    requires Inv(s) && s.doubled == 0 && s.outstanding == 0 && !Both(s)
    ensures AllDone(s) && (s.running.Some? ==> s.running.value.IntervalJob?)
  {
    assert |s.timeouts| == 0 && |s.intervals| == 0;
    if s.running.Some? && s.running.value.TimeoutJob? {
      RunningStored(s);
    }
    forall id: nat | 0 < id <= s.timeoutId ensures s.runs[id] <= 1 && (s.runs[id] == 1 <==> id !in s.cleared) {
      assert TimeoutInv(s, id);
      if s.runs[id] == 1 && id in s.cleared {
        BothOf(s, id);
      }
    }
  }

  // ---------------------------------------------------------------- what exit cuts off

  /** An interval is cleared while its callback runs. */
  predicate ClearsRunning(s: State, op: Op) {
    op.ClearInterval? && s.running == Some(IntervalJob(op.id)) && op.id in s.intervals
  }

  /** That happens in this run, and the callback does not end in it. */
  predicate CutsOff(s: State, ops: seq<Op>)
    requires Possible(s, ops)
    decreases |ops|
  {
    ops != [] && ((ClearsRunning(s, ops[0]) && !Finishes(ops[1..])) || CutsOff(Step(s, ops[0]), ops[1..]))
  }

  /** The running callback is that of an interval no longer stored. */
  predicate Stray(s: State) {
    s.running.Some? && s.running.value.IntervalJob? && s.running.value.id !in s.intervals
  }

  lemma StrayStep(s: State, op: Op)
    requires Inv(s) && Enabled(s, op) && s.intervalId < MAX_ID
    ensures Stray(Step(s, op)) <==> ClearsRunning(s, op) || (Stray(s) && !op.Finish?)
  {
    if s.running.Some? && s.running.value.IntervalJob? {
      assert IntervalInv(s, s.running.value.id);
    }
  }

  lemma {:induction false} StrayExactly(s: State, ops: seq<Op>)
    requires Inv(s) && Possible(s, ops)
    requires s.timeoutId + |ops| <= MAX_ID && s.intervalId + |ops| <= MAX_ID
    ensures Stray(Run(s, ops)) <==> CutsOff(s, ops) || (Stray(s) && !Finishes(ops))
    decreases |ops|
  {
    if ops != [] {
      hide Inv;
      StrayStep(s, ops[0]);
      FinishesTail(ops);
      StepKeepsInv(s, ops[0]);
      StrayExactly(Step(s, ops[0]), ops[1..]);
    }
  }

  /** The states a run can reach from a fresh process before the ids wrap. */
  ghost predicate Reached(s: State, ops: seq<Op>) {
    |ops| <= MAX_ID && Possible(Initial, ops) && s == Run(Initial, ops)
  }

  lemma ReachedInv(s: State, ops: seq<Op>)
    requires Reached(s, ops)
    ensures Inv(s) && (s.doubled == 0 <==> !ClearsItself(Initial, ops))
  {
    InitialInv();
    RunKeepsInv(Initial, ops);
    DoubledExactly(Initial, ops);
  }

  /** The count is what is live if and only if no callback that cleared its own timeout ended. */
  lemma CountExact(s: State, ops: seq<Op>)
    requires Reached(s, ops)
    ensures s.outstanding == Live(s) <==> !ClearsItself(Initial, ops)
  {
    ReachedInv(s, ops);
  }

  /** Exit is safe, that is, when the count is zero nothing is waiting and every timeout ever set
      has run exactly once or was cleared, not both, if and only if no callback cleared its own
      timeout. Then a callback is still running, and is cut off, exactly if it is that of an
      interval which was cleared while it ran. */
  lemma ExitIsSafe(s: State, ops: seq<Op>)
    requires Reached(s, ops) && s.outstanding == 0
    ensures AllDone(s) <==> !SelfClearsEver(Initial, ops)
    ensures AllDone(s) ==> (s.running.Some? <==> CutsOff(Initial, ops))
  {
    ReachedInv(s, ops);
    InitialInv();
    BothExactly(Initial, ops);
    StrayExactly(Initial, ops);
    if Both(s) {
      var id: nat :| s.runs[id] == 1 && id in s.cleared;
      assert TimeoutInv(s, id);
    } else {
      if ClearsItself(Initial, ops) {
        EndedClears(Initial, ops);
      }
      ZeroMeansDone(s);
    }
  }

  // ---------------------------------------------------------------- the same by the steps alone

  /** How often the callback of a timeout starts in a run. */
  function Starts(s: State, ops: seq<Op>, id: nat): nat
    requires Possible(s, ops)
    decreases |ops|
  {
    if ops == [] then 0 else
      var s' := Step(s, ops[0]);
      (if ops[0] == Wake(TimeoutJob(id)) && s'.running == Some(TimeoutJob(id)) then 1 else 0) + Starts(s', ops[1..], id)
  }

  /** In the run an interval is cleared while it is stored. */
  predicate ClearsInterval(s: State, ops: seq<Op>, id: nat)
    requires Possible(s, ops)
    decreases |ops|
  {
    && ops != []
    && ((ops[0] == ClearInterval(id) && id in s.intervals) || ClearsInterval(Step(s, ops[0]), ops[1..], id))
  }

  /** Or a timeout is. */
  predicate ClearsTimeout(s: State, ops: seq<Op>, id: nat)
    requires Possible(s, ops)
    decreases |ops|
  {
    && ops != []
    && ((ops[0] == ClearTimeout(id) && id in s.timeouts) || ClearsTimeout(Step(s, ops[0]), ops[1..], id))
  }

  /** A callback of an interval throws. */
  predicate Throws(s: State, ops: seq<Op>, id: nat)
    requires Possible(s, ops)
    decreases |ops|
  {
    && ops != []
    && ((ops[0] == Finish(true) && s.running == Some(IntervalJob(id))) || Throws(Step(s, ops[0]), ops[1..], id))
  }

  lemma CountedFirst(ops: seq<Op>, op: Op)
    requires ops != []
    ensures multiset(ops)[op] == (if ops[0] == op then 1 else 0) + multiset(ops[1..])[op]
  {
    assert ops == [ops[0]] + ops[1..];
  }

  /** What is issued and what is running outside are the steps that said so. */
  lemma {:induction false} RunCounts(s: State, ops: seq<Op>)
    requires Possible(s, ops) && s.timeoutId + |ops| <= MAX_ID && s.intervalId + |ops| <= MAX_ID
    ensures Run(s, ops).shells == s.shells + multiset(ops)[ShellStart] - multiset(ops)[ShellEnd]
    ensures Run(s, ops).timeoutId == s.timeoutId + multiset(ops)[SetTimeout]
    ensures Run(s, ops).intervalId == s.intervalId + multiset(ops)[SetInterval]
    decreases |ops|
  {
    if ops != [] {
      CountedFirst(ops, ShellStart);
      CountedFirst(ops, ShellEnd);
      CountedFirst(ops, SetTimeout);
      CountedFirst(ops, SetInterval);
      RunCounts(Step(s, ops[0]), ops[1..]);
    }
  }

  /** So is the history kept beside the state. */
  lemma {:induction false} RunHistory(s: State, ops: seq<Op>, id: nat)
    requires Possible(s, ops)
    ensures Run(s, ops).runs[id] == s.runs[id] + Starts(s, ops, id)
    ensures id in Run(s, ops).cleared <==> id in s.cleared || ClearsTimeout(s, ops, id)
    ensures id in Run(s, ops).threw <==> id in s.threw || Throws(s, ops, id)
    decreases |ops|
  {
    if ops != [] {
      StepHistory(s, ops[0], id);
      hide Step;
      RunHistory(Step(s, ops[0]), ops[1..], id);
    }
  }

  lemma StepHistory(s: State, op: Op, id: nat)
    requires Enabled(s, op)
    ensures var s' := Step(s, op);
      && s'.runs[id] == s.runs[id] + (if op == Wake(TimeoutJob(id)) && s'.running == Some(TimeoutJob(id)) then 1 else 0)
      && (id in s'.cleared <==> id in s.cleared || (op == ClearTimeout(id) && id in s.timeouts))
      && (id in s'.threw <==> id in s.threw || (op == Finish(true) && s.running == Some(IntervalJob(id))))
  {
    match op
    case Wake(job) => assert Step(s, op).cleared == s.cleared;
    case Finish(_) => assert Step(s, op).runs == s.runs;
    case _ => assert Step(s, op).runs == s.runs;
  }

  /** An interval that was issued stays stored until it is cleared. */
  lemma {:induction false} IntervalsStay(s: State, ops: seq<Op>, id: nat)
    requires Inv(s) && Possible(s, ops)
    requires s.timeoutId + |ops| <= MAX_ID && s.intervalId + |ops| <= MAX_ID
    ensures id in Run(s, ops).intervals
      <==> (id in s.intervals || s.intervalId < id <= Run(s, ops).intervalId) && !ClearsInterval(s, ops, id)
    ensures s.intervalId <= Run(s, ops).intervalId
    decreases |ops|
  {
    if ops != [] {
      assert IntervalInv(s, id);
      IntervalStep(s, ops[0], id);
      StepKeepsInv(s, ops[0]);
      hide Inv, Step;
      IntervalsStay(Step(s, ops[0]), ops[1..], id);
    }
  }

  lemma IntervalStep(s: State, op: Op, id: nat)
    requires IntervalInv(s, id) && Enabled(s, op) && s.timeoutId < MAX_ID && s.intervalId < MAX_ID
    ensures var s' := Step(s, op);
      && (id in s'.intervals <==> (id in s.intervals || s.intervalId < id <= s'.intervalId)
                                  && !(op == ClearInterval(id) && id in s.intervals))
      && s.intervalId <= s'.intervalId && (id in s.intervals ==> id <= s.intervalId)
      && s'.timeoutId <= s.timeoutId + 1 && s'.intervalId <= s.intervalId + 1
  {
    match op
    case SetInterval => assert Step(s, op).intervals == s.intervals + {s.intervalId + 1};
    case ClearInterval(_) =>
    case _ => assert Step(s, op).intervals == s.intervals;
  }

  /** What a zero count means, by the steps of the run alone, when no callback cleared its own
      timeout: every shell started has ended, every interval set was cleared, and the callback of
      every timeout set has started once, or the timeout was cleared, not both. */
  lemma NothingLeftBehind(s: State, ops: seq<Op>)
    requires Reached(s, ops) && s.outstanding == 0 && !SelfClearsEver(Initial, ops)
    ensures multiset(ops)[ShellStart] == multiset(ops)[ShellEnd]
    ensures forall id: nat :: 0 < id <= multiset(ops)[SetInterval] ==> ClearsInterval(Initial, ops, id)
    ensures forall id: nat :: 0 < id <= multiset(ops)[SetTimeout] ==>
      Starts(Initial, ops, id) <= 1 && (Starts(Initial, ops, id) == 1 <==> !ClearsTimeout(Initial, ops, id))
  {
    ExitIsSafe(s, ops);
    RunCounts(Initial, ops);
    InitialInv();
    forall id: nat | 0 < id <= multiset(ops)[SetInterval] ensures ClearsInterval(Initial, ops, id) {
      IntervalsStay(Initial, ops, id);
    }
    forall id: nat | 0 < id <= multiset(ops)[SetTimeout]
      ensures Starts(Initial, ops, id) <= 1 && (Starts(Initial, ops, id) == 1 <==> !ClearsTimeout(Initial, ops, id))
    {
      RunHistory(Initial, ops, id);
    }
  }

  /** The count is zero while the callback that cleared its own timeout still runs. */
  lemma SelfClearCutOff()
    ensures var ops := [SetTimeout, Wake(TimeoutJob(1)), ClearTimeout(1)];
            Possible(Initial, ops) && Run(Initial, ops).outstanding == 0
            && Run(Initial, ops).running == Some(TimeoutJob(1)) && !AllDone(Run(Initial, ops))
  {
    var s1 := Step(Initial, SetTimeout);
    assert TimeoutJob(1) in s1.native;
    var s2 := Step(s1, Wake(TimeoutJob(1)));
    var s3 := Step(s2, ClearTimeout(1));
    assert s3.runs[1] == 1 && 1 in s3.cleared && s3.timeoutId == 1;
    var ops := [SetTimeout, Wake(TimeoutJob(1)), ClearTimeout(1)];
    assert ops[1..] == [Wake(TimeoutJob(1)), ClearTimeout(1)] && ops[1..][1..] == [ClearTimeout(1)];
    assert Run(s2, [ClearTimeout(1)]) == s3 && Possible(s2, [ClearTimeout(1)]);
  }

  /** Everything is done, and the callback of the cleared interval still runs. */
  lemma IntervalCutOff()
    ensures var ops := [SetInterval, Wake(IntervalJob(1)), ClearInterval(1)];
            Possible(Initial, ops) && Run(Initial, ops).outstanding == 0
            && Run(Initial, ops).running == Some(IntervalJob(1)) && AllDone(Run(Initial, ops))
  {
    var s1 := Step(Initial, SetInterval);
    assert IntervalJob(1) in s1.native;
    var s2 := Step(s1, Wake(IntervalJob(1)));
    var s3 := Step(s2, ClearInterval(1));
    assert s3.intervals == {} && s3.timeoutId == 0;
    var ops := [SetInterval, Wake(IntervalJob(1)), ClearInterval(1)];
    assert ops[1..] == [Wake(IntervalJob(1)), ClearInterval(1)] && ops[1..][1..] == [ClearInterval(1)];
    assert Run(s2, [ClearInterval(1)]) == s3 && Possible(s2, [ClearInterval(1)]);
  }

  /** Without that condition exit is not safe: the first of two timeouts clears itself, and
      the count reaches zero while the second is still waiting. */
  lemma SelfClearExitsEarly()
    ensures var ops := [SetTimeout, SetTimeout, Wake(TimeoutJob(1)), ClearTimeout(1), Finish(false)];
            Possible(Initial, ops) && Run(Initial, ops).outstanding == 0
            && Run(Initial, ops).timeouts == {2} && Run(Initial, ops).runs[2] == 0 && ClearsItself(Initial, ops)
  {
    var s1 := Step(Initial, SetTimeout);
    var s2 := Step(s1, SetTimeout);
    assert TimeoutJob(1) in s2.native;
    var s3 := Step(s2, Wake(TimeoutJob(1)));
    var s4 := Step(s3, ClearTimeout(1));
    var s5 := Step(s4, Finish(false));
    assert s5.timeouts == {2} && s5.outstanding == 0;
    var ops := [SetTimeout, SetTimeout, Wake(TimeoutJob(1)), ClearTimeout(1), Finish(false)];
    assert ops[1..] == [SetTimeout, Wake(TimeoutJob(1)), ClearTimeout(1), Finish(false)];
    assert ops[1..][1..] == [Wake(TimeoutJob(1)), ClearTimeout(1), Finish(false)];
    assert ops[1..][1..][1..] == [ClearTimeout(1), Finish(false)];
    assert ops[1..][1..][1..][1..] == [Finish(false)];
    assert Run(s4, [Finish(false)]) == s5 && Possible(s4, [Finish(false)]);
    assert Run(s2, ops[1..][1..]) == s5 && Possible(s2, ops[1..][1..]);
  }

  /** A live interval has its native timer or runs, if and only if no run of it threw. */
  lemma LiveIntervalTicks(s: State, ops: seq<Op>, id: nat)
    requires Reached(s, ops) && id in s.intervals
    ensures Busy(s, IntervalJob(id)) == 1 <==> id !in s.threw
  {
    ReachedInv(s, ops);
    assert IntervalInv(s, id);
  }

  /** A run that comes to this. */
  lemma ThrownIntervalStays()
    ensures var ops := [SetInterval, Wake(IntervalJob(1)), Finish(true)];
            Possible(Initial, ops) && 1 in Run(Initial, ops).intervals && 1 in Run(Initial, ops).threw
            && Run(Initial, ops).native == multiset{} && Run(Initial, ops).outstanding == 1
  {
    var s1 := Step(Initial, SetInterval);
    assert IntervalJob(1) in s1.native;
    var s2 := Step(s1, Wake(IntervalJob(1)));
    var s3 := Step(s2, Finish(true));
    var ops := [SetInterval, Wake(IntervalJob(1)), Finish(true)];
    assert ops[1..] == [Wake(IntervalJob(1)), Finish(true)] && ops[1..][1..] == [Finish(true)];
    assert Run(s2, [Finish(true)]) == s3 && Possible(s2, [Finish(true)]);
  }

  lemma {:induction false} ThrownStays(s: State, ops: seq<Op>, id: nat)
    requires Inv(s) && id in s.intervals && id in s.threw && Possible(s, ops)
    requires s.timeoutId + |ops| <= MAX_ID && s.intervalId + |ops| <= MAX_ID
    requires ClearInterval(id) !in ops
    ensures Inv(Run(s, ops)) && id in Run(s, ops).intervals && id in Run(s, ops).threw
    decreases |ops|
  {
    if ops != [] {
      hide Inv;
      StepKeepsInv(s, ops[0]);
      ThrownStays(Step(s, ops[0]), ops[1..], id);
    }
  }

  /** An interval whose callback throws is never called again, yet stays counted until it
      is cleared: the process waits on it in every continuation that does not. */
  lemma ThrownIntervalBlocksExit(s: State, ops: seq<Op>, id: nat)
    requires Inv(s) && id in s.intervals && id in s.threw && s.doubled == 0 && Possible(s, ops)
    requires !ClearsItself(s, ops) && !(Orphaned(s) && Finishes(ops))
    requires s.timeoutId + |ops| <= MAX_ID && s.intervalId + |ops| <= MAX_ID
    requires ClearInterval(id) !in ops
    ensures Run(s, ops).outstanding > 0 && Busy(Run(s, ops), IntervalJob(id)) == 0
  {
    ThrownStays(s, ops, id);
    DoubledExactly(s, ops);
    assert IntervalInv(Run(s, ops), id);
    assert |Run(s, ops).intervals| > 0;
  }

  // ---------------------------------------------------------------- the engine

  /** The engine's global variables and callback stores. Each method is the code of one
      step; `View` is the protocol state it moves. */
  class Engine {
    var outstanding: int
    var timeoutId: nat
    var intervalId: nat
    var timeoutStore: set<nat>
    var intervalStore: set<nat>
    var native: multiset<Job>
    var running: Option<Job>
    var shells: nat
    ghost var runs: multiset<nat>
    ghost var cleared: set<nat>
    ghost var threw: set<nat>
    ghost var doubled: nat

    constructor ()
      ensures View() == Initial
    {
      outstanding, timeoutId, intervalId := 0, 0, 0;
      timeoutStore, intervalStore, native, running, shells := {}, {}, multiset{}, None, 0;
      runs, cleared, threw, doubled := multiset{}, {}, {}, 0;
    }

    ghost function View(): State reads this {
      State(outstanding, timeoutId, intervalId, timeoutStore, intervalStore, native, running,
            shells, runs, cleared, threw, doubled)
    }

    method SignalTaskStarted()
      modifies this`outstanding
      ensures outstanding == old(outstanding) + 1
    {
      outstanding := outstanding + 1;
    }

    method SignalTaskComplete()
      modifies this`outstanding
      ensures outstanding == old(outstanding) - 1
    {
      outstanding := outstanding - 1;
    }

    method StartTimer(job: Job)
      modifies this`native
      ensures native == old(native) + multiset{job}
    {
      native := native + multiset{job};
    }

    method SetTimeout() returns (id: nat)
      modifies this
      ensures View() == Step(old(View()), Op.SetTimeout) && id == timeoutId
    {
      timeoutId := if timeoutId == MAX_ID then 0 else timeoutId + 1;
      SignalTaskStarted();
      StartTimer(TimeoutJob(timeoutId));
      timeoutStore := timeoutStore + {timeoutId};
      id := timeoutId;
    }

    method ClearTimeout(id: nat)
      modifies this
      ensures View() == Step(old(View()), Op.ClearTimeout(id))
    {
      if id in timeoutStore {
        timeoutStore := timeoutStore - {id};
        SignalTaskComplete();
        cleared := cleared + {id};
      }
    }

    /** PLANCK_SET_INTERVAL: a null id makes a new interval, another id reschedules it. */
    method PlanckSetInterval(current: Option<nat>) returns (id: nat)
      modifies this
      ensures timeoutId == old(timeoutId) && timeoutStore == old(timeoutStore)
      ensures intervalStore == old(intervalStore) && running == old(running) && shells == old(shells)
      ensures runs == old(runs) && cleared == old(cleared) && threw == old(threw) && doubled == old(doubled)
      ensures id == (match current case None => NextId(old(intervalId)) case Some(i) => i)
      ensures intervalId == if current.None? then id else old(intervalId)
      ensures outstanding == old(outstanding) + if current.None? then 1 else 0
      ensures native == old(native) + multiset{IntervalJob(id)}
    {
      match current {
        case None =>
          intervalId := if intervalId == MAX_ID then 0 else intervalId + 1;
          id := intervalId;
          SignalTaskStarted();
        case Some(i) =>
          id := i;
      }
      StartTimer(IntervalJob(id));
    }

    method SetInterval() returns (id: nat)
      modifies this
      ensures View() == Step(old(View()), Op.SetInterval) && id == intervalId
    {
      id := PlanckSetInterval(None);
      intervalStore := intervalStore + {id};
    }

    method ClearInterval(id: nat)
      modifies this
      ensures View() == Step(old(View()), Op.ClearInterval(id))
    {
      if id in intervalStore {
        intervalStore := intervalStore - {id};
        SignalTaskComplete();
      }
    }

    /** `do_run_timeout` and `do_run_interval` up to the callback's first instruction. */
    method Wake(job: Job)
      requires job in native && running == None
      modifies this
      ensures View() == Step(old(View()), Op.Wake(job))
    {
      ghost var s := View();
      native := native - multiset{job};
      match job {
        case TimeoutJob(id) =>
          if id in timeoutStore {
            running := Some(job);
            runs := runs + multiset{id};
          }
          assert View() == Step(s, Op.Wake(job));
        case IntervalJob(id) =>
          if id in intervalStore {
            running := Some(job);
          }
          assert View() == Step(s, Op.Wake(job));
      }
    }

    /** The rest of PLANCK_RUN_TIMEOUT or of the stored interval function. */
    method Finish(threwNow: bool)
      requires running.Some?
      modifies this
      ensures View() == Step(old(View()), Op.Finish(threwNow))
    {
      match running.value {
        case TimeoutJob(id) =>
          doubled := if id in timeoutStore then doubled else doubled + 1;
          timeoutStore := timeoutStore - {id};
          SignalTaskComplete();
        case IntervalJob(id) =>
          if threwNow {
            threw := threw + {id};
          } else {
            var _ := PlanckSetInterval(Some(id));
          }
      }
      running := None;
    }

    method ShellStart()
      modifies this
      ensures View() == Step(old(View()), Op.ShellStart)
    {
      SignalTaskStarted();
      shells := shells + 1;
    }

    method ShellEnd()
      requires shells > 0
      modifies this
      ensures View() == Step(old(View()), Op.ShellEnd)
    {
      SignalTaskComplete();
      shells := shells - 1;
    }

    method Perform(op: Op)
      requires Enabled(View(), op)
      modifies this
      ensures View() == Step(old(View()), op)
    {
      match op {
        case SetTimeout => var _ := SetTimeout();
        case ClearTimeout(id) => ClearTimeout(id);
        case SetInterval => var _ := SetInterval();
        case ClearInterval(id) => ClearInterval(id);
        case Wake(job) => Wake(job);
        case Finish(t) => Finish(t);
        case ShellStart => ShellStart();
        case ShellEnd => ShellEnd();
      }
    }

    method PerformAll(ghost done: seq<Op>, ops: seq<Op>, ghost rest: seq<Op>)
      requires Possible(Initial, done) && View() == Run(Initial, done)
      requires Possible(Initial, done + ops + rest)
      modifies this
      ensures Possible(Initial, done + ops) && View() == Run(Initial, done + ops)
    {
      hide Run, Possible, Step, Enabled;
      assert done + ops[..0] == done;
      for i := 0 to |ops|
        invariant Possible(Initial, done + ops[..i]) && View() == Run(Initial, done + ops[..i])
      {
        ghost var sofar := done + ops[..i];
        assert done + ops[..i + 1] == sofar + [ops[i]];
        assert done + ops + rest == (sofar + [ops[i]]) + (ops[i + 1..] + rest);
        RunPrefix(Initial, sofar + [ops[i]], ops[i + 1..] + rest);
        RunSnoc(Initial, sofar, ops[i]);
        Perform(ops[i]);
      }
      assert ops[..|ops|] == ops;
    }

    /** `block_until_tasks_complete`: each wait releases the lock, and by the time it is
        taken again any number of steps may have happened (`waits`). It returns only on a
        count of zero, and then everything is done exactly if no callback cleared its own
        timeout; what exit may still cut off is the callback of an interval cleared while it
        ran. */
    method BlockUntilTasksComplete(ghost before: seq<Op>, waits: seq<seq<Op>>)
      returns (returned: bool, ghost done: seq<Op>)
      requires Possible(Initial, before) && View() == Run(Initial, before)
      requires Possible(Initial, before + Flat(waits)) && |before + Flat(waits)| <= MAX_ID
      modifies this
      ensures before <= done <= before + Flat(waits) && Reached(View(), done)
      ensures returned ==> outstanding == 0 && (AllDone(View()) <==> !SelfClearsEver(Initial, done))
      ensures returned && AllDone(View()) ==> (running.Some? <==> CutsOff(Initial, done))
      ensures returned && AllDone(View()) ==> multiset(done)[Op.ShellStart] == multiset(done)[Op.ShellEnd]
      ensures !returned ==> outstanding != 0 && done == before + Flat(waits)
    {
      hide Step, Run, Possible, SelfClearsEver, CutsOff, Enabled, AllDone;
      done := before;
      var k := 0;
      ghost var all := before + Flat(waits);
      while outstanding != 0 && k < |waits|
        invariant 0 <= k <= |waits|
        invariant before <= done && done + Flat(waits[k..]) == all
        invariant Possible(Initial, done) && View() == Run(Initial, done)
        decreases |waits| - k
      {
        ghost var rest := Flat(waits[k + 1..]);
        assert Flat(waits[k..]) == waits[k] + rest;
        assert all == done + waits[k] + rest;
        PerformAll(done, waits[k], rest);
        done := done + waits[k];
        k := k + 1;
      }
      returned := outstanding == 0;
      ghost var rest := Flat(waits[k..]);
      RunPrefix(Initial, done, rest);
      assert |done| <= |all|;
      if returned {
        ExitIsSafe(View(), done);
        if AllDone(View()) {
          NothingLeftBehind(View(), done);
        }
      } else {
        assert waits[k..] == [];
        assert done + rest == done;
      }
    }
  }

  ghost function Flat(waits: seq<seq<Op>>): seq<Op> {
    if waits == [] then [] else waits[0] + Flat(waits[1..])
  }

  lemma {:induction false} RunPrefix(s: State, a: seq<Op>, b: seq<Op>)
    requires Possible(s, a + b)
    ensures Possible(s, a)
    decreases |a|
  {
    if a != [] {
      assert (a + b)[1..] == a[1..] + b && (a + b)[0] == a[0];
      RunPrefix(Step(s, a[0]), a[1..], b);
    }
  }

  lemma {:induction false} RunSnoc(s: State, a: seq<Op>, op: Op)
    requires Possible(s, a + [op])
    ensures Possible(s, a) && Enabled(Run(s, a), op)
    ensures Run(s, a + [op]) == Step(Run(s, a), op)
    decreases |a|
  {
    if a == [] {
      assert a + [op] == [op];
    } else {
      assert (a + [op])[1..] == a[1..] + [op] && (a + [op])[0] == a[0];
      RunSnoc(Step(s, a[0]), a[1..], op);
    }
  }
}
