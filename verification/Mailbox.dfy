/**
 Version 4 of the word counter: two workers report through a mailbox to main, all under one mutex,
 with one condition variable for both directions, and with `if` instead of `while` around the
 workers' wait.  It works because there are only two workers and no spurious wakeups: then the
 condition never has two waiters, so a signal cannot reach the wrong one, and nothing can happen
 between a wakeup and the mailbox being used that would make the tested condition false again.
 */
module Mailbox {
  import opened Wrappers
  import opened WordCount

  /** A thread: main, or worker 0 or 1. */
  datatype Tid = Main | Worker(i: nat)

  datatype MainPc =
    | Create(i: nat)  // pthread_create of worker i, the lock already held
    | Test            // while (reports_in < 2)
    | MainWaits       // in pthread_cond_wait, lock released
    | MainWoken       // signalled, wants the lock back
    | Read            // total_words += mailbox->count
    | Join            // pthread_join of the worker whose report it is
    | Clear           // mailbox = NULL
    | MainSignals
    | Count           // reports_in++
    | Exit
    | Crashed         // mailbox->count through a null mailbox

  datatype WorkerPc =
    | NotCreated
    | Counting(pos: nat)
    | WantLock
    | TestBox         // if (mailbox != NULL)
    | Waits
    | Woken
    | Store           // mailbox = args
    | Raise           // pthread_cond_signal
    | Unlock
    | Returning
    | Ended

  datatype ArgSet = ArgSet(pc: WorkerPc, count: nat)

  /** `taken` is the history of the reports main has read. */
  datatype State = State(main: MainPc, workers: seq<ArgSet>, lock: Option<Tid>, mailbox: Option<nat>,
                         total: nat, reports: nat, taken: seq<nat>)

  const START := State(Create(0), [ArgSet(NotCreated, 0), ArgSet(NotCreated, 0)], Some(Main), None, 0, 0, [])

  /** `wake` is the waiter a signal picks. */
  datatype Action = Go(tid: Tid, wake: Tid) | Spurious(tid: Tid)

  predicate IsTid(t: Tid) { t.Worker? ==> t.i < 2 }

  predicate IsWaiting(s: State, t: Tid)
    requires |s.workers| == 2 && IsTid(t)
  {
    match t case Main => s.main.MainWaits? case Worker(i) => s.workers[i].pc.Waits?
  }

  predicate NobodyWaits(s: State)
    requires |s.workers| == 2
  {
    !IsWaiting(s, Main) && !IsWaiting(s, Worker(0)) && !IsWaiting(s, Worker(1))
  }

  /** pthread_cond_signal wakes one waiter if there is one. */
  predicate CanWake(s: State, wake: Tid)
    requires |s.workers| == 2
  {
    IsTid(wake) && (NobodyWaits(s) || IsWaiting(s, wake))
  }

  predicate Enabled(texts: seq<string>, s: State, a: Action)
    requires |texts| == 2 == |s.workers|
  {
    match a
    case Spurious(t) => IsTid(t) && IsWaiting(s, t)
    case Go(Main, wake) =>
      (match s.main
       case MainWaits => false
       case MainWoken => s.lock.None?
       case Join => s.mailbox.Some? && s.mailbox.value < 2 && s.workers[s.mailbox.value].pc.Ended?
       case MainSignals => CanWake(s, wake)
       case Exit => false
       case Crashed => false
       case Create(i) => i < 2
       case _ => true)
    case Go(Worker(i), wake) =>
      i < 2 &&
      match s.workers[i].pc
      case NotCreated => false
      case WantLock => s.lock.None?
      case Waits => false
      case Woken => s.lock.None?
      case Raise => CanWake(s, wake)
      case Ended => false
      case _ => true
  }

  function SetPc(s: State, i: nat, pc: WorkerPc): State
    requires i < |s.workers|
  {
    s.(workers := s.workers[i := s.workers[i].(pc := pc)])
  }

  function Wake(s: State, t: Tid): (s': State)
    requires |s.workers| == 2 && IsTid(t)
    ensures |s'.workers| == 2
  {
    if !IsWaiting(s, t) then s
    else match t case Main => s.(main := MainWoken) case Worker(i) => SetPc(s, i, Woken)
  }

  function MainStep(s: State, wake: Tid): (s': State)
    requires |s.workers| == 2 && IsTid(wake) && (s.main.Create? ==> s.main.i < 2)
    ensures |s'.workers| == 2
  {
    match s.main
    case Create(i) => SetPc(s, i, Counting(0)).(main := if i == 0 then Create(1) else Test)
    case Test => if s.reports < 2 then s.(main := MainWaits, lock := None) else s.(main := Exit)
    case MainWoken => s.(main := Read, lock := Some(Main))
    case Read =>
      if s.mailbox.None? || s.mailbox.value >= 2 then s.(main := Crashed)
      else s.(main := Join, total := s.total + s.workers[s.mailbox.value].count, taken := s.taken + [s.mailbox.value])
    case Join => s.(main := Clear)
    case Clear => s.(main := MainSignals, mailbox := None)
    case MainSignals => Wake(s, wake).(main := Count)
    case Count => s.(main := Test, reports := s.reports + 1)
    case _ => s
  }

  function WorkerStep(text: string, s: State, i: nat, wake: Tid): (s': State)
    requires |s.workers| == 2 && i < 2 && IsTid(wake)
    ensures |s'.workers| == 2
  {
    var w := s.workers[i];
    match w.pc
    case Counting(pos) =>
      if pos < |text| then
        var count := w.count + if WordEnds(text, pos) then 1 else 0;
        s.(workers := s.workers[i := ArgSet(Counting(pos + 1), count)])
      else SetPc(s, i, WantLock)
    case WantLock => SetPc(s, i, TestBox).(lock := Some(Worker(i)))
    case TestBox => if s.mailbox.Some? then SetPc(s, i, Waits).(lock := None) else SetPc(s, i, Store)
    case Woken => SetPc(s, i, Store).(lock := Some(Worker(i)))
    case Store => SetPc(s, i, Raise).(mailbox := Some(i))
    case Raise => SetPc(Wake(s, wake), i, Unlock)
    case Unlock => SetPc(s, i, Returning).(lock := None)
    case Returning => SetPc(s, i, Ended)
    case _ => s
  }

  function Step(texts: seq<string>, s: State, a: Action): (s': State)
    requires |texts| == 2 == |s.workers| && Enabled(texts, s, a)
    ensures |s'.workers| == 2
  {
    match a
    case Spurious(t) => Wake(s, t)
    case Go(t, wake) =>
      var to := if IsTid(wake) then wake else Main;
      match t case Main => MainStep(s, to) case Worker(i) => WorkerStep(texts[i], s, i, to)
  }

  function Run(texts: seq<string>, acts: seq<Action>): (s: State)
    requires |texts| == 2
    ensures |s.workers| == 2
  {
    if acts == [] then START
    else
      var s, a := Run(texts, acts[..|acts| - 1]), acts[|acts| - 1];
      if Enabled(texts, s, a) then Step(texts, s, a) else s
  }

  predicate NoSpuriousWakeup(acts: seq<Action>) { forall k :: 0 <= k < |acts| ==> acts[k].Go? }

  // ---- the invariant ------------------------------------------------------------------

  predicate MainHoldsLock(pc: MainPc) { !pc.MainWaits? && !pc.MainWoken? }

  predicate WorkerHoldsLock(pc: WorkerPc) { pc.TestBox? || pc.Store? || pc.Raise? || pc.Unlock? }

  /** The worker's report is out. */
  predicate Reported(pc: WorkerPc) { pc.Raise? || pc.Unlock? || pc.Returning? || pc.Ended? }

  /** Main has been woken and has yet to signal that the box is empty again. */
  predicate MainIsOnItsWay(pc: MainPc) { pc.MainWoken? || pc.Read? || pc.Join? || pc.Clear? || pc.MainSignals? }

  predicate GoodWorker(text: string, s: State, i: nat)
    requires i < 2 == |s.workers|
  {
    var w, other := s.workers[i], s.workers[1 - i].pc;
    && (s.lock == Some(Worker(i)) <==> WorkerHoldsLock(w.pc))
    && (Reported(w.pc) <==> s.mailbox == Some(i) || i in s.taken)
    && (i in s.taken ==> w.pc.Returning? || w.pc.Ended?)
    && (w.pc.NotCreated? <==> s.main.Create? && s.main.i <= i)
    && (match w.pc
        case NotCreated => w.count == 0
        case Counting(pos) => pos <= |text| && w.count == Words(text, pos)
        case _ => w.count == AllWords(text))
    // A waiting worker has found the other's report in the box, and main is already on its way.
    && (w.pc.Waits? ==> Reported(other) && !other.Raise? && MainIsOnItsWay(s.main))
    // From its wakeup to its store the box stays empty: the other worker is through.
    && (w.pc.Woken? ==> s.mailbox.None? && 1 - i in s.taken)
    && (w.pc.Store? ==> s.mailbox.None? && s.main.MainWaits?)
    && (w.pc.TestBox? || w.pc.Raise? || w.pc.Unlock? ==> s.main.MainWaits? || s.main.MainWoken?)
  }

  predicate GoodMain(s: State)
    requires |s.workers| == 2
  {
    && !s.main.Crashed?
    && (s.lock == Some(Main) <==> MainHoldsLock(s.main))
    && (s.lock.Some? ==> IsTid(s.lock.value))
    && (s.mailbox.Some? ==> s.mailbox.value < 2)
    && (s.main.Create? ==> s.main.i < 2)
    && (match s.main
        case MainWaits => s.mailbox.Some? ==> s.workers[s.mailbox.value].pc.Raise?
        case MainWoken => s.mailbox.Some? && !s.workers[s.mailbox.value].pc.Raise?
        case Read => s.mailbox.Some?
        case Join => s.mailbox.Some?
        case Clear => s.mailbox.Some? && s.workers[s.mailbox.value].pc.Ended?
        case _ => s.mailbox.None?)
  }

  /** Reports are taken one by one, each once, and the total is what they said. */
  predicate GoodTally(s: State)
    requires |s.workers| == 2
  {
    var reading := s.main.Join? || s.main.Clear?;
    && (s.taken == [] || s.taken == [0] || s.taken == [1] || s.taken == [0, 1] || s.taken == [1, 0])
    && |s.taken| == s.reports + (if reading || s.main.MainSignals? || s.main.Count? then 1 else 0)
    && s.total == (if 0 in s.taken then s.workers[0].count else 0) + (if 1 in s.taken then s.workers[1].count else 0)
    && (s.mailbox.Some? ==> (s.mailbox.value in s.taken <==> reading)
                            && (reading ==> s.taken[|s.taken| - 1] == s.mailbox.value))
    && (s.main.MainWaits? || s.main.MainWoken? || s.main.Read? ==> s.reports < 2)
    && (s.main.Exit? ==> s.reports == 2)
    && (s.main.Create? ==> s.reports == 0)
  }

  predicate Inv(texts: seq<string>, s: State) {
    && |texts| == 2 == |s.workers|
    && GoodMain(s) && GoodTally(s)
    && GoodWorker(texts[0], s, 0) && GoodWorker(texts[1], s, 1)
  }

  lemma MainGetsReadyInv(texts: seq<string>, s: State, wake: Tid)
    requires Inv(texts, s) && (s.main.Create? || s.main.Test? || s.main.Count?)
    requires Enabled(texts, s, Go(Main, wake)) && IsTid(wake)
    ensures Inv(texts, MainStep(s, wake))
  {
  }

  lemma MainReadsInv(texts: seq<string>, s: State, wake: Tid)
    requires Inv(texts, s) && (s.main.MainWoken? || s.main.Read?)
    requires Enabled(texts, s, Go(Main, wake)) && IsTid(wake)
    ensures Inv(texts, MainStep(s, wake))
  {
  }

  lemma MainFinishesReportInv(texts: seq<string>, s: State, wake: Tid)
    requires Inv(texts, s) && (s.main.Join? || s.main.Clear?)
    requires Enabled(texts, s, Go(Main, wake)) && IsTid(wake)
    ensures Inv(texts, MainStep(s, wake))
  {
  }

  lemma MainSignalsInv(texts: seq<string>, s: State, wake: Tid)
    requires Inv(texts, s) && s.main.MainSignals? && CanWake(s, wake)
    ensures Inv(texts, MainStep(s, wake))
  {
  }

  /** Counting is nobody else's business. */
  lemma CountsForItselfInv(texts: seq<string>, s: State, i: nat, pc: WorkerPc, count: nat)
    requires Inv(texts, s) && i < 2 && s.workers[i].pc.Counting?
    requires if pc.Counting? then pc.pos <= |texts[i]| && count == Words(texts[i], pc.pos)
             else pc == WantLock && count == AllWords(texts[i])
    ensures Inv(texts, s.(workers := s.workers[i := ArgSet(pc, count)]))
  {
    var s' := s.(workers := s.workers[i := ArgSet(pc, count)]);
    assert GoodWorker(texts[i], s', i);
    assert GoodWorker(texts[1 - i], s', 1 - i);
  }

  lemma WorkerCountsInv(texts: seq<string>, s: State, i: nat, wake: Tid)
    requires Inv(texts, s) && i < 2 && s.workers[i].pc.Counting? && IsTid(wake)
    ensures Inv(texts, WorkerStep(texts[i], s, i, wake))
  {
    var w := WorkerStep(texts[i], s, i, wake).workers[i];
    CountsForItselfInv(texts, s, i, w.pc, w.count);
  }

  lemma WorkerEntersInv(texts: seq<string>, s: State, i: nat, wake: Tid)
    requires Inv(texts, s) && i < 2 && (s.workers[i].pc.WantLock? || s.workers[i].pc.TestBox? || s.workers[i].pc.Woken?)
    requires Enabled(texts, s, Go(Worker(i), wake)) && IsTid(wake)
    ensures Inv(texts, WorkerStep(texts[i], s, i, wake))
  {
  }

  lemma WorkerReportsInv(texts: seq<string>, s: State, i: nat, wake: Tid)
    requires Inv(texts, s) && i < 2 && s.workers[i].pc.Store?
    requires Enabled(texts, s, Go(Worker(i), wake)) && IsTid(wake)
    ensures Inv(texts, WorkerStep(texts[i], s, i, wake))
  {
  }

  lemma WorkerSignalsInv(texts: seq<string>, s: State, i: nat, wake: Tid)
    requires Inv(texts, s) && i < 2 && s.workers[i].pc.Raise? && CanWake(s, wake)
    ensures Inv(texts, WorkerStep(texts[i], s, i, wake))
  {
  }

  lemma WorkerLeavesInv(texts: seq<string>, s: State, i: nat, wake: Tid)
    requires Inv(texts, s) && i < 2 && (s.workers[i].pc.Unlock? || s.workers[i].pc.Returning?)
    requires Enabled(texts, s, Go(Worker(i), wake)) && IsTid(wake)
    ensures Inv(texts, WorkerStep(texts[i], s, i, wake))
  {
  }

  lemma StepInv(texts: seq<string>, s: State, a: Action)
    requires Inv(texts, s) && Enabled(texts, s, a) && a.Go?
    ensures Inv(texts, Step(texts, s, a))
  {
    var wake := if IsTid(a.wake) then a.wake else Main;
    match a.tid
    case Main =>
      match s.main {
        case MainWoken => MainReadsInv(texts, s, wake);
        case Read => MainReadsInv(texts, s, wake);
        case Join => MainFinishesReportInv(texts, s, wake);
        case Clear => MainFinishesReportInv(texts, s, wake);
        case MainSignals => MainSignalsInv(texts, s, wake);
        case _ => MainGetsReadyInv(texts, s, wake);
      }
    case Worker(i) =>
      match s.workers[i].pc
      case Counting(_) => WorkerCountsInv(texts, s, i, wake);
      case Store => WorkerReportsInv(texts, s, i, wake);
      case Raise => WorkerSignalsInv(texts, s, i, wake);
      case Unlock => WorkerLeavesInv(texts, s, i, wake);
      case Returning => WorkerLeavesInv(texts, s, i, wake);
      case _ => WorkerEntersInv(texts, s, i, wake);
  }

  // ---- progress -----------------------------------------------------------------------

  function MainRank(s: State): int {
    if s.main.Exit? || s.main.Crashed? then 0 else 10 * (2 - s.reports) + MainPcRank(s.main)
  }

  function MainPcRank(pc: MainPc): int {
    match pc
    case Create(i) => 11 - i
    case Test => 9
    case MainWaits => 8
    case MainWoken => 7
    case Read => 6
    case Join => 5
    case Clear => 4
    case MainSignals => 3
    case Count => 2
    case _ => 0
  }

  function WorkerRank(text: string, pc: WorkerPc): int {
    match pc
    case NotCreated => 12 + |text|
    case Counting(pos) => 11 + |text| - pos
    case WantLock => 10
    case TestBox => 9
    case Waits => 8
    case Woken => 7
    case Store => 6
    case Raise => 5
    case Unlock => 4
    case Returning => 3
    case Ended => 0
  }

  /** Steps that remain at most. */
  function Measure(texts: seq<string>, s: State): int
    requires |texts| == 2 == |s.workers|
  {
    MainRank(s) + WorkerRank(texts[0], s.workers[0].pc) + WorkerRank(texts[1], s.workers[1].pc)
  }

  lemma WakeLowersMeasure(texts: seq<string>, s: State, t: Tid)
    requires |texts| == 2 == |s.workers| && IsTid(t)
    ensures Measure(texts, Wake(s, t)) <= Measure(texts, s)
    ensures Wake(s, t).reports == s.reports && (t.Worker? ==> Wake(s, t).main == s.main)
    ensures forall i :: 0 <= i < 2 && t != Worker(i) ==> Wake(s, t).workers[i] == s.workers[i]
  {
  }

  lemma MainStepLowersMeasure(texts: seq<string>, s: State, wake: Tid)
    requires Inv(texts, s) && Enabled(texts, s, Go(Main, wake)) && IsTid(wake)
    ensures Measure(texts, MainStep(s, wake)) < Measure(texts, s)
  {
    WakeLowersMeasure(texts, s, wake);
    if s.main.MainSignals? {
      assert wake.Worker? || Wake(s, wake) == s;
    }
  }

  lemma WorkerSignalLowersMeasure(texts: seq<string>, s: State, i: nat, wake: Tid)
    requires Inv(texts, s) && i < 2 && s.workers[i].pc.Raise? && CanWake(s, wake)
    ensures Measure(texts, WorkerStep(texts[i], s, i, wake)) < Measure(texts, s)
  {
    WakeLowersMeasure(texts, s, wake);
    assert wake == Main;
  }

  lemma OwnStepLowersMeasure(texts: seq<string>, s: State, i: nat, wake: Tid)
    requires |texts| == 2 == |s.workers| && i < 2 && !s.workers[i].pc.Raise?
    requires s.workers[i].pc.Counting? ==> s.workers[i].pc.pos <= |texts[i]|
    requires Enabled(texts, s, Go(Worker(i), wake)) && IsTid(wake)
    ensures Measure(texts, WorkerStep(texts[i], s, i, wake)) < Measure(texts, s)
  {
    var s' := WorkerStep(texts[i], s, i, wake);
    assert MainRank(s') == MainRank(s) && s'.workers[1 - i] == s.workers[1 - i];
    assert WorkerRank(texts[i], s'.workers[i].pc) < WorkerRank(texts[i], s.workers[i].pc);
  }

  lemma WorkerStepLowersMeasure(texts: seq<string>, s: State, i: nat, wake: Tid)
    requires Inv(texts, s) && Enabled(texts, s, Go(Worker(i), wake)) && IsTid(wake)
    ensures Measure(texts, WorkerStep(texts[i], s, i, wake)) < Measure(texts, s)
  {
    if s.workers[i].pc.Raise? {
      WorkerSignalLowersMeasure(texts, s, i, wake);
    } else {
      OwnStepLowersMeasure(texts, s, i, wake);
    }
  }

  lemma MeasureIsNatural(texts: seq<string>, s: State)
    requires Inv(texts, s)
    ensures Measure(texts, s) >= 0
  {
  }

  /** Some thread can go on, unless main has exited. */
  lemma NeverStuck(texts: seq<string>, s: State) returns (a: Action)
    requires Inv(texts, s) && !s.main.Exit?
    ensures a.Go? && Enabled(texts, s, a)
  {
    var wake := if s.main.MainWaits? then Main else if s.workers[0].pc.Waits? then Worker(0) else Worker(1);
    if s.lock.Some? && s.lock.value.Worker? {
      a := Go(s.lock.value, wake);
    } else if s.main.Join? && !s.workers[s.mailbox.value].pc.Ended? {
      a := Go(Worker(s.mailbox.value), wake);
    } else if !s.main.MainWaits? {
      a := Go(Main, wake);
    } else {
      // Main waits and the lock is free, so some report is not in yet, and its worker does not wait.
      var i := if 0 in s.taken then 1 else 0;
      assert i !in s.taken && !Reported(s.workers[i].pc);
      a := Go(Worker(i), wake);
    }
  }

  // ---- what holds in every run --------------------------------------------------------

  /** At most one of the three threads waits on the condition. */
  ghost predicate AtMostOneWaits(s: State)
    requires |s.workers| == 2
  {
    forall t, u :: IsTid(t) && IsTid(u) && IsWaiting(s, t) && IsWaiting(s, u) ==> t == u
  }

  lemma {:induction false} RunInv(texts: seq<string>, acts: seq<Action>)
    requires |texts| == 2 && NoSpuriousWakeup(acts)
    ensures Inv(texts, Run(texts, acts))
  {
    if acts != [] {
      RunInv(texts, acts[..|acts| - 1]);
      var s, a := Run(texts, acts[..|acts| - 1]), acts[|acts| - 1];
      if Enabled(texts, s, a) {
        StepInv(texts, s, a);
      }
    }
  }

  /** What the invariant says at the moments that matter. */
  ghost predicate Safe(s: State)
    requires |s.workers| == 2
  {
    // Main never reads a null mailbox, and no report is overwritten.
    && !s.main.Crashed? && (s.main.Read? ==> s.mailbox.Some?)
    && (forall i :: 0 <= i < 2 && s.workers[i].pc.Store? ==> s.mailbox.None?)
    // Each report is taken at most once.
    && (forall j, k :: 0 <= j < k < |s.taken| ==> s.taken[j] != s.taken[k])
    // Signals cannot go astray, and a worker's finds main waiting.
    && AtMostOneWaits(s)
    && (forall i :: 0 <= i < 2 && s.workers[i].pc.Raise? ==> s.main.MainWaits?)
    // A worker being joined under the lock no longer needs the lock.
    && (s.main.Join? ==> s.mailbox.Some? && s.mailbox.value < 2 && JustReturns(s.workers[s.mailbox.value].pc))
  }

  predicate JustReturns(pc: WorkerPc) { pc.Returning? || pc.Ended? }

  lemma InvMeansOneWaiter(texts: seq<string>, s: State)
    requires Inv(texts, s)
    ensures AtMostOneWaits(s)
  {
    assert s.workers[0].pc.Waits? ==> !s.main.MainWaits? && !s.workers[1].pc.Waits?;
    assert s.workers[1].pc.Waits? ==> !s.main.MainWaits? && !s.workers[0].pc.Waits?;
  }

  lemma InvMeansSafe(texts: seq<string>, s: State)
    requires Inv(texts, s)
    ensures Safe(s)
  {
    InvMeansOneWaiter(texts, s);
  }

  /** At exit each worker's report has been taken and the total is the two sequential counts. */
  lemma ExitTotal(texts: seq<string>, s: State)
    requires Inv(texts, s) && s.main.Exit?
    ensures s.taken == [0, 1] || s.taken == [1, 0]
    ensures JustReturns(s.workers[0].pc) && JustReturns(s.workers[1].pc)
    ensures s.total == |WordEndSet(texts[0])| + |WordEndSet(texts[1])|
  {
    assert 0 in s.taken && 1 in s.taken;
    WordsAreWordEnds(texts[0]);
    WordsAreWordEnds(texts[1]);
  }

  /** Safety, under every schedule; and at exit the total is the number of words in both files. */
  lemma MailboxIsSafe(texts: seq<string>, acts: seq<Action>)
    requires |texts| == 2 && NoSpuriousWakeup(acts)
    ensures var s := Run(texts, acts);
            && Safe(s)
            && (s.main.Exit? ==> (s.taken == [0, 1] || s.taken == [1, 0])
                                 && s.total == |WordEndSet(texts[0])| + |WordEndSet(texts[1])|)
  {
    RunInv(texts, acts);
    InvMeansSafe(texts, Run(texts, acts));
    if Run(texts, acts).main.Exit? {
      ExitTotal(texts, Run(texts, acts));
    }
  }

  /** Progress, under every schedule: as long as main has not exited some thread can go on, and every
      step that is made lowers a measure that cannot fall below zero; so main exits. */
  lemma MailboxProgresses(texts: seq<string>, acts: seq<Action>)
    requires |texts| == 2 && NoSpuriousWakeup(acts)
    ensures var s := Run(texts, acts);
            && (s.main.Exit? || exists a: Action :: a.Go? && Enabled(texts, s, a))
            && forall a: Action ::
                 a.Go? && Enabled(texts, s, a) ==> 0 <= Measure(texts, Step(texts, s, a)) < Measure(texts, s)
  {
    RunInv(texts, acts);
    var s := Run(texts, acts);
    if !s.main.Exit? {
      var a := NeverStuck(texts, s);
    }
    forall a: Action | a.Go? && Enabled(texts, s, a)
      ensures 0 <= Measure(texts, Step(texts, s, a)) < Measure(texts, s)
    {
      StepInv(texts, s, a);
      MeasureIsNatural(texts, Step(texts, s, a));
      var wake := if IsTid(a.wake) then a.wake else Main;
      match a.tid
      case Main => MainStepLowersMeasure(texts, s, wake);
      case Worker(i) => WorkerStepLowersMeasure(texts, s, i, wake);
    }
  }

  /** How many of the actions were steps and not without effect. */
  function StepsMade(texts: seq<string>, acts: seq<Action>): nat
    requires |texts| == 2
  {
    if acts == [] then 0
    else
      var before := acts[..|acts| - 1];
      StepsMade(texts, before) + if Enabled(texts, Run(texts, before), acts[|acts| - 1]) then 1 else 0
  }

  /** Every run is finite: whatever the schedule, at most this many steps are made. */
  lemma {:induction false} RunsAreShort(texts: seq<string>, acts: seq<Action>)
    requires |texts| == 2 && NoSpuriousWakeup(acts)
    ensures StepsMade(texts, acts) + Measure(texts, Run(texts, acts)) <= 55 + |texts[0]| + |texts[1]|
    ensures StepsMade(texts, acts) <= 55 + |texts[0]| + |texts[1]|
  {
    if acts != [] {
      var before := acts[..|acts| - 1];
      RunsAreShort(texts, before);
      MailboxProgresses(texts, before);
    }
    RunInv(texts, acts);
    MeasureIsNatural(texts, Run(texts, acts));
  }

  /** And from wherever a run has got to, it can be completed with the right total. */
  lemma {:induction false} EveryRunCanBeCompleted(texts: seq<string>, acts: seq<Action>) returns (all: seq<Action>)
    requires |texts| == 2 && NoSpuriousWakeup(acts)
    ensures acts <= all && NoSpuriousWakeup(all) && Run(texts, all).main.Exit?
    ensures Run(texts, all).total == |WordEndSet(texts[0])| + |WordEndSet(texts[1])|
    decreases Measure(texts, Run(texts, acts)) + 1
  {
    MailboxProgresses(texts, acts);
    RunInv(texts, acts);
    MeasureIsNatural(texts, Run(texts, acts));
    if Run(texts, acts).main.Exit? {
      all := acts;
      MailboxIsSafe(texts, acts);
    } else {
      var a: Action :| a.Go? && Enabled(texts, Run(texts, acts), a);
      RunExtend(texts, acts, a);
      all := EveryRunCanBeCompleted(texts, acts + [a]);
    }
  }

  lemma RunExtend(texts: seq<string>, acts: seq<Action>, a: Action)
    requires |texts| == 2
    ensures Run(texts, acts + [a]) ==
            if Enabled(texts, Run(texts, acts), a) then Step(texts, Run(texts, acts), a) else Run(texts, acts)
  {
    assert (acts + [a])[..|acts|] == acts;
  }

  /** Main alone: it creates both workers and waits. */
  lemma MainComesToWait(texts: seq<string>) returns (acts: seq<Action>)
    requires |texts| == 2
    ensures NoSpuriousWakeup(acts)
    ensures var s := Run(texts, acts); s.main == MainWaits && s.lock == None && s.mailbox == None
  {
    var go := Go(Main, Main);
    RunExtend(texts, [], go);
    RunExtend(texts, [] + [go], go);
    RunExtend(texts, [] + [go] + [go], go);
    acts := [] + [go] + [go] + [go];
  }

  /** Action k of the run is a spurious wakeup, and no other is. */
  predicate OnlySpurious(acts: seq<Action>, k: nat) {
    k < |acts| && acts[k].Spurious? && forall j :: 0 <= j < |acts| && j != k ==> acts[j].Go?
  }

  /** Why spurious wakeups must be excluded: whatever the files, a single one can make main read through
      the null mailbox, because main does not test the mailbox after waiting. */
  lemma OneSpuriousWakeupCrashes(texts: seq<string>) returns (acts: seq<Action>, k: nat)
    requires |texts| == 2
    ensures Run(texts, acts).main.Crashed? && OnlySpurious(acts, k)
  {
    acts := MainComesToWait(texts);
    k := |acts|;
    var go := Go(Main, Main);
    RunExtend(texts, acts, Spurious(Main));
    RunExtend(texts, acts + [Spurious(Main)], go);
    RunExtend(texts, acts + [Spurious(Main)] + [go], go);
    acts := acts + [Spurious(Main)] + [go] + [go];
  }
}
