/**
 The license server one statement at a time, with SIGALRM delivered the moment the alarm runs out.
 The event loop switches the alarm off around handle_request, so the reclaimer, which runs in the
 signal handler and updates the same table, is never entered in the middle of a request.  That
 makes the interleaved server a refinement of one that handles requests and visits slots
 atomically.
 */
module SignalServer {
  import opened Wrappers
  import opened CText
  import opened LicenseServer

  const RECLAIM_INTERVAL := 60

  /** Where main is.  From Dispatch to Rearm the alarm is off. */
  datatype Pc =
    | AtRecv                                 // waiting in recvfrom
    | Got(req: string)                       // alarm(0) is next
    | Dispatch(req: string)                  // handle_request entered
    | Scan(req: string, x: nat)              // do_hello's search
    | StorePid(req: string, x: nat)
    | PrintTicket(req: string, x: nat)
    | CountUp(req: string, reply: string)
    | ClearSlot(req: string, slot: nat)      // do_goodbye, ticket found valid
    | CountDown(req: string)
    | Respond(req: string, reply: string)    // sendto
    | Rearm                                  // alarm(time_left)

  /** Where the signal handler is: about to look at a slot, or to count down after freeing one. */
  datatype HandlerPc = Visit(i: nat) | Uncount(i: nat)

  /** `timer` is the seconds the pending alarm has left, 0 when none is pending. */
  datatype Fine = Fine(tickets: seq<int>, num: int, pc: Pc, timer: nat, timeLeft: nat,
                       handler: Option<HandlerPc>, gone: set<int>, sent: seq<(string, string)>)

  datatype Action =
    | Arrive(req: string)  // recvfrom returns
    | Next                 // main's next statement
    | Tick                 // a second passes; the alarm may go off
    | HandlerNext          // the handler's next statement
    | Die(pid: int)        // a process disappears

  function Table(f: Fine): State { State(f.tickets, f.num) }

  predicate Enabled(f: Fine, a: Action) {
    match a
    case Arrive(req) => f.pc.AtRecv? && f.handler.None? && Acceptable(Table(f), req)
    case Next => !f.pc.AtRecv? && f.handler.None? && PcInRange(f)
    case Tick => f.timer > 0
    case HandlerNext => f.handler.Some? && f.handler.value.i <= |f.tickets|
    case Die(_) => true
  }

  /** The request in hand suits the handlers, and slot indices are in the table. */
  predicate PcInRange(f: Fine) {
    match f.pc
    case Dispatch(req) => Acceptable(Table(f), req)
    case Scan(req, x) => |req| >= 5 && x <= |f.tickets|
    case StorePid(req, x) => |req| >= 5 && x < |f.tickets|
    case PrintTicket(_, x) => x < |f.tickets|
    case ClearSlot(_, slot) => slot < |f.tickets|
    case _ => true
  }

  function DispatchTo(f: Fine, req: string): Pc
    requires Acceptable(Table(f), req)
  {
    if HasPrefix(req, "HELO") then
      if f.num >= |f.tickets| then Respond(req, NO_TICKETS) else Scan(req, 0)
    else if HasPrefix(req, "GBYE") then
      match OwnedSlot(Table(f), req[5..])
      case Some(slot) => ClearSlot(req, slot)
      case None => Respond(req, INVALID_TICKET)
    else if HasPrefix(req, "VALD") then
      Respond(req, if OwnedSlot(Table(f), req[5..]).Some? then GOOD else INVALID_TICKET)
    else Respond(req, INVALID_REQUEST)
  }

  function MainStep(f: Fine): Fine
    requires Enabled(f, Next)
  {
    match f.pc
    case Got(req) => f.(pc := Dispatch(req), timeLeft := f.timer, timer := 0)
    case Dispatch(req) => f.(pc := DispatchTo(f, req))
    case Scan(req, x) =>
      if x == |f.tickets| then f.(pc := Respond(req, CORRUPT))
      else if f.tickets[x] != AVAILABLE then f.(pc := Scan(req, x + 1))
      else f.(pc := StorePid(req, x))
    case StorePid(req, x) => f.(tickets := f.tickets[x := Atoi(req[5..])], pc := PrintTicket(req, x))
    case PrintTicket(req, x) => f.(pc := CountUp(req, "TICK " + TicketText(f.tickets[x], x)))
    case CountUp(req, reply) => f.(num := f.num + 1, pc := Respond(req, reply))
    case ClearSlot(req, slot) => f.(tickets := f.tickets[slot := AVAILABLE], pc := CountDown(req))
    case CountDown(req) => f.(num := f.num - 1, pc := Respond(req, THANKS))
    case Respond(req, reply) => f.(sent := f.sent + [(req, reply)], pc := Rearm)
    case Rearm => f.(timer := f.timeLeft, pc := AtRecv)
  }

  function HandlerStep(f: Fine): Fine
    requires Enabled(f, HandlerNext)
  {
    match f.handler.value
    case Visit(i) =>
      if i == |f.tickets| then f.(handler := None, timer := RECLAIM_INTERVAL)
      else if f.tickets[i] != AVAILABLE && f.tickets[i] in f.gone then
        f.(tickets := f.tickets[i := AVAILABLE], handler := Some(Uncount(i)))
      else f.(handler := Some(Visit(i + 1)))
    case Uncount(i) => f.(num := f.num - 1, handler := Some(Visit(i + 1)))
  }

  function Step(f: Fine, a: Action): Fine
    requires Enabled(f, a)
  {
    match a
    case Arrive(req) => f.(pc := Got(req))
    case Next => MainStep(f)
    case Tick => if f.timer == 1 then f.(timer := 0, handler := Some(Visit(0))) else f.(timer := f.timer - 1)
    case HandlerNext => HandlerStep(f)
    case Die(pid) => f.(gone := f.gone + {pid})
  }

  function Run(n: nat, acts: seq<Action>): Fine {
    if acts == [] then Fine(seq(n, _ => AVAILABLE), 0, AtRecv, RECLAIM_INTERVAL, 0, None, {}, [])
    else
      var f, a := Run(n, acts[..|acts| - 1]), acts[|acts| - 1];
      if Enabled(f, a) then Step(f, a) else f
  }

  // ---- the atomic server --------------------------------------------------------------

  datatype Atomic = Atomic(st: State, sent: seq<(string, string)>, gone: set<int>)

  datatype AtomicAction = Serve(req: string) | ReclaimOne(i: nat) | Vanish(pid: int) | Stutter

  /** One look at a slot, by the atomic server. */
  function LookAt(s: Atomic, i: nat): Outcome
    requires i < |s.st.tickets|
  {
    ReclaimSlot(s.st, p => p in s.gone, i)
  }

  function AtomicStep(s: Atomic, a: AtomicAction): Atomic {
    match a
    case Serve(req) =>
      if Acceptable(s.st, req) then
        var out := Handle(s.st, req);
        s.(st := out.st, sent := s.sent + [(req, out.response)])
      else s
    case ReclaimOne(i) => if i < |s.st.tickets| then s.(st := LookAt(s, i).st) else s
    case Vanish(pid) => s.(gone := s.gone + {pid})
    case Stutter => s
  }

  function AtomicRun(n: nat, acts: seq<AtomicAction>): Atomic {
    if acts == [] then Atomic(State(seq(n, _ => AVAILABLE), 0), [], {})
    else AtomicStep(AtomicRun(n, acts[..|acts| - 1]), acts[|acts| - 1])
  }

  // ---- the abstraction ----------------------------------------------------------------

  /** A request takes effect when its handler changes the table or decides not to; from then on its
      response is on its way. */
  function PendingReply(f: Fine): seq<(string, string)> {
    match f.pc
    case PrintTicket(req, x) => if x < |f.tickets| then [(req, "TICK " + TicketText(f.tickets[x], x))] else []
    case CountUp(req, reply) => [(req, reply)]
    case CountDown(req) => [(req, THANKS)]
    case Respond(req, reply) => [(req, reply)]
    case _ => []
  }

  function PendingCount(f: Fine): int {
    (match f.pc case PrintTicket(_, _) => 1 case CountUp(_, _) => 1 case CountDown(_) => -1 case _ => 0)
    - (match f.handler case Some(Uncount(_)) => 1 case _ => 0)
  }

  function Abs(f: Fine): Atomic {
    Atomic(State(f.tickets, f.num + PendingCount(f)), f.sent + PendingReply(f), f.gone)
  }

  // ---- the invariant ------------------------------------------------------------------

  predicate InRequest(pc: Pc) { !pc.AtRecv? && !pc.Got? }

  predicate GoodPc(f: Fine) {
    match f.pc
    case Got(req) => Acceptable(Table(f), req)
    case Dispatch(req) => Acceptable(Table(f), req)
    case Scan(req, x) =>
      && Acceptable(Table(f), req) && HasPrefix(req, "HELO") && f.num < |f.tickets| && x <= |f.tickets|
      && forall j :: 0 <= j < x ==> f.tickets[j] != AVAILABLE
    case StorePid(req, x) =>
      && Acceptable(Table(f), req) && HasPrefix(req, "HELO") && f.num < |f.tickets|
      && x < |f.tickets| && x == FirstFree(f.tickets)
    case PrintTicket(_, x) => x < |f.tickets|
    case ClearSlot(req, slot) =>
      Acceptable(Table(f), req) && HasPrefix(req, "GBYE") && OwnedSlot(Table(f), req[5..]) == Some(slot)
    case _ => true
  }

  predicate Inv(f: Fine) {
    && GoodPc(f)
    && (InRequest(f.pc) ==> f.handler.None? && f.timer == 0 && f.timeLeft > 0)
    && (!InRequest(f.pc) ==> (f.handler.None? <==> f.timer > 0))
    && (f.handler.Some? ==>
          match f.handler.value case Visit(i) => i <= |f.tickets| case Uncount(i) => i < |f.tickets|)
  }

  /** The atomic action that a statement performs. */
  function Effect(f: Fine, a: Action): AtomicAction
    requires Enabled(f, a)
  {
    match a
    case Next =>
      (match f.pc
       case Dispatch(req) => if DispatchTo(f, req).Respond? then Serve(req) else Stutter
       case Scan(req, x) => if x == |f.tickets| then Serve(req) else Stutter
       case StorePid(req, _) => Serve(req)
       case ClearSlot(req, _) => Serve(req)
       case _ => Stutter)
    case HandlerNext =>
      (match f.handler.value case Visit(i) => ReclaimOne(i) case Uncount(_) => Stutter)
    case Die(pid) => Vanish(pid)
    case _ => Stutter
  }

  lemma KeywordsDiffer(req: string)
    ensures HasPrefix(req, "HELO") ==> !HasPrefix(req, "GBYE") && !HasPrefix(req, "VALD")
    ensures HasPrefix(req, "GBYE") ==> !HasPrefix(req, "VALD")
  {
    assert HasPrefix(req, "HELO") ==> req[0] == 'H';
    assert HasPrefix(req, "GBYE") ==> req[0] == 'G';
    assert HasPrefix(req, "VALD") ==> req[0] == 'V';
  }

  lemma FirstFreeIs(t: seq<int>, x: nat)
    requires x <= |t| && (forall j :: 0 <= j < x ==> t[j] != AVAILABLE)
    requires x < |t| ==> t[x] == AVAILABLE
    ensures FirstFree(t) == x
  {
  }

  lemma DispatchRefines(f: Fine, req: string)
    requires Inv(f) && f.pc == Dispatch(req)
    ensures Inv(MainStep(f)) && Abs(MainStep(f)) == AtomicStep(Abs(f), Effect(f, Next))
  {
    KeywordsDiffer(req);
  }

  lemma ScanRefines(f: Fine, req: string, x: nat)
    requires Inv(f) && f.pc == Scan(req, x)
    ensures Inv(MainStep(f)) && Abs(MainStep(f)) == AtomicStep(Abs(f), Effect(f, Next))
  {
    if x == |f.tickets| || f.tickets[x] == AVAILABLE {
      FirstFreeIs(f.tickets, x);
    }
  }

  lemma StorePidRefines(f: Fine, req: string, x: nat)
    requires Inv(f) && f.pc == StorePid(req, x)
    ensures Inv(MainStep(f)) && Abs(MainStep(f)) == AtomicStep(Abs(f), Effect(f, Next))
  {
    assert Handle(Table(f), req) == Hello(Table(f), req[5..]);
  }

  lemma ClearSlotRefines(f: Fine, req: string, slot: nat)
    requires Inv(f) && f.pc == ClearSlot(req, slot)
    ensures Inv(MainStep(f)) && Abs(MainStep(f)) == AtomicStep(Abs(f), Effect(f, Next))
  {
    KeywordsDiffer(req);
    assert Handle(Table(f), req) == Goodbye(Table(f), req[5..]);
  }

  lemma MainStepRefines(f: Fine)
    requires Inv(f) && Enabled(f, Next)
    ensures Inv(MainStep(f)) && Abs(MainStep(f)) == AtomicStep(Abs(f), Effect(f, Next))
  {
    match f.pc
    case Dispatch(req) => DispatchRefines(f, req);
    case Scan(req, x) => ScanRefines(f, req, x);
    case StorePid(req, x) => StorePidRefines(f, req, x);
    case ClearSlot(req, slot) => ClearSlotRefines(f, req, slot);
    case Got(_) =>
    case PrintTicket(_, _) =>
    case CountUp(_, _) =>
    case CountDown(_) =>
    case Respond(_, _) =>
    case Rearm =>
  }

  lemma HandlerStepRefines(f: Fine)
    requires Inv(f) && Enabled(f, HandlerNext)
    ensures Inv(HandlerStep(f)) && Abs(HandlerStep(f)) == AtomicStep(Abs(f), Effect(f, HandlerNext))
  {
  }

  lemma StepRefines(f: Fine, a: Action)
    requires Inv(f) && Enabled(f, a)
    ensures Inv(Step(f, a)) && Abs(Step(f, a)) == AtomicStep(Abs(f), Effect(f, a))
  {
    match a
    case Next => MainStepRefines(f);
    case HandlerNext => HandlerStepRefines(f);
    case _ =>
  }

  lemma {:induction false} RunRefines(n: nat, acts: seq<Action>) returns (atomic: seq<AtomicAction>)
    ensures Inv(Run(n, acts)) && |Run(n, acts).tickets| == n
    ensures Abs(Run(n, acts)) == AtomicRun(n, atomic)
  {
    if acts == [] {
      return [];
    }
    var f, a := Run(n, acts[..|acts| - 1]), acts[|acts| - 1];
    atomic := RunRefines(n, acts[..|acts| - 1]);
    if Enabled(f, a) {
      assert Inv(Step(f, a)) && Abs(Step(f, a)) == AtomicStep(Abs(f), Effect(f, a)) by { StepRefines(f, a); }
      assert |Step(f, a).tickets| == |f.tickets|;
      assert Run(n, acts) == Step(f, a);
      AtomicRunExtend(n, atomic, Effect(f, a));
      atomic := atomic + [Effect(f, a)];
    }
  }

  lemma AtomicRunExtend(n: nat, acts: seq<AtomicAction>, a: AtomicAction)
    ensures AtomicRun(n, acts + [a]) == AtomicStep(AtomicRun(n, acts), a)
  {
    assert (acts + [a])[..|acts|] == acts;
  }

  /** Main waits for a datagram and no signal handler runs. */
  predicate Quiet(f: Fine) { f.pc.AtRecv? && f.handler.None? }

  lemma InvMeans(f: Fine)
    requires Inv(f)
    ensures f.handler.Some? || f.pc.AtRecv? || Enabled(f, Next)
    ensures f.handler.Some? ==> Enabled(f, HandlerNext) && (f.pc.AtRecv? || f.pc.Got?)
    ensures Quiet(f) ==> f.timer > 0 && Abs(f) == Atomic(Table(f), f.sent, f.gone)
  {
  }

  /** Every interleaved run has an atomic run with the same table, the same count, the same responses
      and the same dead processes, in which only slots of processes dead by then are reclaimed; main
      and the handler are never stuck between two datagrams; the reclaimer never runs inside a request;
      and whenever main waits for a datagram and no handler runs, a reclaim is scheduled. */
  lemma InterleavingIsAtomic(n: nat, acts: seq<Action>) returns (atomic: seq<AtomicAction>)
    ensures var f, s := Run(n, acts), AtomicRun(n, atomic);
            && Abs(f) == s && s.gone == f.gone && s.st.tickets == f.tickets && |f.tickets| == n
            && (f.handler.Some? || f.pc.AtRecv? || Enabled(f, Next))
            && (f.handler.Some? ==> Enabled(f, HandlerNext) && (f.pc.AtRecv? || f.pc.Got?))
            && (Quiet(f) ==> f.timer > 0 && s == Atomic(Table(f), f.sent, f.gone))
  {
    atomic := RunRefines(n, acts);
    InvMeans(Run(n, acts));
  }

  // ---- when the reclaimer runs, and what it gets done ---------------------------------

  lemma RunExtend(n: nat, acts: seq<Action>, a: Action)
    ensures Run(n, acts + [a]) == if Enabled(Run(n, acts), a) then Step(Run(n, acts), a) else Run(n, acts)
  {
    assert (acts + [a])[..|acts|] == acts;
  }

  /** The seconds that have passed on the alarm clock since the start or since the handler last ended; it
      stands still while a request is handled. */
  function TicksSince(n: nat, acts: seq<Action>): nat {
    if acts == [] then 0
    else
      var before, a := acts[..|acts| - 1], acts[|acts| - 1];
      var f, ticks := Run(n, before), TicksSince(n, before);
      if !Enabled(f, a) then ticks
      else if a.Tick? then ticks + 1
      else if a.HandlerNext? && Step(f, a).handler.None? then 0
      else ticks
  }

  /** The seconds left on the alarm, or saved while a request is handled. */
  function SecondsLeft(f: Fine): nat { if InRequest(f.pc) then f.timeLeft else f.timer }

  /** Requests do not move the reclaim: however many come between, seconds passed and seconds left make
      60, and the handler runs exactly when 60 have passed. */
  lemma {:induction false} RequestsDoNotMoveTheReclaim(n: nat, acts: seq<Action>)
    ensures TicksSince(n, acts) + SecondsLeft(Run(n, acts)) == 60
    ensures Run(n, acts).handler.Some? <==> TicksSince(n, acts) == 60
  {
    var _ := RunRefines(n, acts);
    if acts != [] {
      var before, a := acts[..|acts| - 1], acts[|acts| - 1];
      RequestsDoNotMoveTheReclaim(n, before);
      var _ := RunRefines(n, before);
      assert Run(n, acts) == if Enabled(Run(n, before), a) then Step(Run(n, before), a) else Run(n, before);
    }
  }

  /** The processes that were dead when the alarm last went off. */
  function DeadAtAlarm(n: nat, acts: seq<Action>): set<int> {
    if acts == [] then {}
    else
      var before, a := acts[..|acts| - 1], acts[|acts| - 1];
      var f := Run(n, before);
      if Enabled(f, a) && a.Tick? && Step(f, a).handler.Some? then f.gone else DeadAtAlarm(n, before)
  }

  /** The slots before this one have been dealt with. */
  function Reached(h: HandlerPc): nat { match h case Visit(i) => i case Uncount(i) => i + 1 }

  predicate FreeOfDead(t: seq<int>, k: nat, dead: set<int>)
    requires k <= |t|
  {
    forall j :: 0 <= j < k ==> t[j] == AVAILABLE || t[j] !in dead
  }

  /** While the handler runs, no slot it has dealt with belongs to a process dead at the alarm. */
  lemma {:induction false} HandlerLeavesNoDead(n: nat, acts: seq<Action>)
    ensures var f := Run(n, acts);
            f.handler.Some? ==>
              && DeadAtAlarm(n, acts) <= f.gone && Reached(f.handler.value) <= |f.tickets|
              && FreeOfDead(f.tickets, Reached(f.handler.value), DeadAtAlarm(n, acts))
  {
    var _ := RunRefines(n, acts);
    if acts != [] {
      var before, a := acts[..|acts| - 1], acts[|acts| - 1];
      HandlerLeavesNoDead(n, before);
      var _ := RunRefines(n, before);
      assert Run(n, acts) == if Enabled(Run(n, before), a) then Step(Run(n, before), a) else Run(n, before);
    }
  }

  /** A step of the handler either ends it, and then no slot at all belongs to a process that was dead at
      the alarm, and the alarm is set to 60 seconds; or it deals with the next of the n slots, counting down
      a freed one with a step of its own. */
  lemma ReclaimIsComplete(n: nat, acts: seq<Action>)
    requires Enabled(Run(n, acts), HandlerNext)
    ensures var f, f' := Run(n, acts), Run(n, acts + [HandlerNext]);
            |f'.tickets| == n &&
            if f'.handler.None? then f'.timer == 60 && FreeOfDead(f'.tickets, n, DeadAtAlarm(n, acts))
            else Reached(f'.handler.value) == Reached(f.handler.value) + if f.handler.value.Visit? then 1 else 0
  {
    RunExtend(n, acts, HandlerNext);
    HandlerLeavesNoDead(n, acts);
    var _ := RunRefines(n, acts);
  }

  /** Nothing is held up: the clock runs whenever an alarm is pending, main takes any acceptable request
      when it waits, and processes may vanish at any time. */
  lemma NothingIsHeldUp(f: Fine, req: string, pid: int)
    ensures f.timer > 0 ==> Enabled(f, Tick)
    ensures Quiet(f) && Acceptable(Table(f), req) ==> Enabled(f, Arrive(req))
    ensures Enabled(f, Die(pid)) && Step(f, Die(pid)).gone == f.gone + {pid}
  {
  }

  /** When nobody asks anything, the alarm goes off as soon as the seconds left have passed. */
  lemma {:induction false} AlarmGoesOff(n: nat, acts: seq<Action>) returns (more: seq<Action>)
    requires Quiet(Run(n, acts))
    ensures |more| == SecondsLeft(Run(n, acts)) && forall k :: 0 <= k < |more| ==> more[k] == Tick
    ensures var f, f' := Run(n, acts), Run(n, acts + more);
            f'.handler == Some(Visit(0)) && f'.gone == f.gone && DeadAtAlarm(n, acts + more) == f.gone
    decreases SecondsLeft(Run(n, acts))
  {
    var f := Run(n, acts);
    var _ := RunRefines(n, acts);
    InvMeans(f);
    RunExtend(n, acts, Tick);
    DeadExtend(n, acts, Tick);
    if f.timer == 1 {
      more := [Tick];
    } else {
      var rest := AlarmGoesOff(n, acts + [Tick]);
      more := [Tick] + rest;
      assert acts + more == acts + [Tick] + rest;
    }
  }

  lemma DeadExtend(n: nat, acts: seq<Action>, a: Action)
    ensures DeadAtAlarm(n, acts + [a]) ==
            if Enabled(Run(n, acts), a) && a.Tick? && Step(Run(n, acts), a).handler.Some? then Run(n, acts).gone
            else DeadAtAlarm(n, acts)
  {
    assert (acts + [a])[..|acts|] == acts;
  }

  /** And the handler gets to its end. */
  lemma {:induction false} HandlerEnds(n: nat, acts: seq<Action>) returns (more: seq<Action>)
    requires Run(n, acts).handler.Some?
    ensures forall k :: 0 <= k < |more| ==> more[k] == HandlerNext
    ensures var f' := Run(n, acts + more);
            && f'.handler.None? && f'.timer == 60 && f'.pc == Run(n, acts).pc && f'.sent == Run(n, acts).sent
            && |f'.tickets| == n && FreeOfDead(f'.tickets, n, DeadAtAlarm(n, acts))
    decreases 2 * (n + 1 - Reached(Run(n, acts).handler.value)) + if Run(n, acts).handler.value.Visit? then 0 else 1
  {
    var f := Run(n, acts);
    var _ := RunRefines(n, acts);
    InvMeans(f);
    ReclaimIsComplete(n, acts);
    RunExtend(n, acts, HandlerNext);
    DeadExtend(n, acts, HandlerNext);
    HandlerLeavesNoDead(n, acts + [HandlerNext]);
    var _ := RunRefines(n, acts + [HandlerNext]);
    if Run(n, acts + [HandlerNext]).handler.None? {
      more := [HandlerNext];
    } else {
      var rest := HandlerEnds(n, acts + [HandlerNext]);
      more := [HandlerNext] + rest;
      assert acts + more == acts + [HandlerNext] + rest;
    }
  }

  /** Tickets of the dead come back: when main waits and nobody asks anything, then as soon as the seconds
      left have passed and the handler has run, no slot belongs to a process that is dead now. */
  lemma TicketsOfTheDeadComeBack(n: nat, acts: seq<Action>) returns (ticks: seq<Action>, steps: seq<Action>)
    requires Quiet(Run(n, acts))
    ensures |ticks| == SecondsLeft(Run(n, acts)) <= 60 && forall k :: 0 <= k < |ticks| ==> ticks[k] == Tick
    ensures forall k :: 0 <= k < |steps| ==> steps[k] == HandlerNext
    ensures var f, f' := Run(n, acts), Run(n, acts + ticks + steps);
            Quiet(f') && |f'.tickets| == n && FreeOfDead(f'.tickets, n, f.gone)
  {
    ticks := AlarmGoesOff(n, acts);
    RequestsDoNotMoveTheReclaim(n, acts);
    steps := HandlerEnds(n, acts + ticks);
    TicksKeepPc(n, acts, ticks);
  }

  lemma {:induction false} TicksKeepPc(n: nat, acts: seq<Action>, ticks: seq<Action>)
    requires forall k :: 0 <= k < |ticks| ==> ticks[k] == Tick
    ensures Run(n, acts + ticks).pc == Run(n, acts).pc
  {
    if ticks == [] {
      assert acts + ticks == acts;
    } else {
      var init := ticks[..|ticks| - 1];
      TicksKeepPc(n, acts, init);
      RunExtend(n, acts + init, Tick);
      assert acts + ticks == acts + init + [Tick];
    }
  }

  // ---- any requests whatever ----------------------------------------------------------

  /** What an action of the atomic server adds to the log. */
  function EventsOf(s: Atomic, a: AtomicAction): seq<Event> {
    match a
    case Serve(req) => if Acceptable(s.st, req) then Handle(s.st, req).events else []
    case ReclaimOne(i) => if i < |s.st.tickets| then LookAt(s, i).events else []
    case _ => []
  }

  function AtomicLog(n: nat, acts: seq<AtomicAction>): seq<Event> {
    if acts == [] then []
    else AtomicLog(n, acts[..|acts| - 1]) + EventsOf(AtomicRun(n, acts[..|acts| - 1]), acts[|acts| - 1])
  }

  /** No request that was answered names pid 0. */
  predicate NoZeroPids(sent: seq<(string, string)>) { forall k :: 0 <= k < |sent| ==> !NamesPidZero(sent[k].0) }

  predicate NoCorruption(sent: seq<(string, string)>) { forall k :: 0 <= k < |sent| ==> sent[k].1 != CORRUPT }

  lemma AtomicStepKeepsAccount(s: Atomic, log: seq<Event>, a: AtomicAction)
    requires Accounted(s.st, log) && NoCorruption(s.sent) && NoZeroPids(AtomicStep(s, a).sent)
    ensures Accounted(AtomicStep(s, a).st, log + EventsOf(s, a)) && NoCorruption(AtomicStep(s, a).sent)
  {
    assert log + [] == log;
    match a
    case Serve(req) =>
      if Acceptable(s.st, req) {
        var sent := AtomicStep(s, a).sent;
        assert sent[|s.sent|].0 == req;
        NonzeroPidsDoNotTouchZero(s.st, req);
        HandleKeepsAccountIff(s.st, log, req);
        NeverCorrupt(s.st, log, req);
      }
    case ReclaimOne(i) =>
      if i < |s.st.tickets| {
        ReclaimSlotKeepsAccount(s.st, log, p => p in s.gone, i);
      }
    case _ =>
  }

  lemma SentGrows(s: Atomic, a: AtomicAction)
    ensures NoZeroPids(AtomicStep(s, a).sent) ==> NoZeroPids(s.sent)
  {
    var sent := AtomicStep(s, a).sent;
    assert |s.sent| <= |sent| && forall k :: 0 <= k < |s.sent| ==> s.sent[k] == sent[k];
  }

  lemma {:induction false} AtomicAccount(n: nat, acts: seq<AtomicAction>)
    requires NoZeroPids(AtomicRun(n, acts).sent)
    ensures Accounted(AtomicRun(n, acts).st, AtomicLog(n, acts)) && NoCorruption(AtomicRun(n, acts).sent)
  {
    if acts != [] {
      var before, a := acts[..|acts| - 1], acts[|acts| - 1];
      SentGrows(AtomicRun(n, before), a);
      AtomicAccount(n, before);
      AtomicStepKeepsAccount(AtomicRun(n, before), AtomicLog(n, before), a);
    } else {
      AccountStarts(n);
    }
  }

  /** Conservation for the server alone, whoever sends what: forged tickets, repeated requests,
      nonsense.  As long as no answered request names pid 0, whenever main waits and no handler runs
      the counter is the number of occupied slots, a log of grants, releases and reclaims explains
      table and counter, and nobody was ever told that the database is corrupt. */
  lemma AnyRequestsAreAccounted(n: nat, acts: seq<Action>) returns (log: seq<Event>)
    requires Quiet(Run(n, acts)) && NoZeroPids(Run(n, acts).sent)
    ensures var f := Run(n, acts);
            && Accounted(Table(f), log) && NoCorruption(f.sent)
            && f.num == Occupied(f.tickets) == Grants(log) - Releases(log) - Reclaims(log)
  {
    var atomic := InterleavingIsAtomic(n, acts);
    AtomicAccount(n, atomic);
    log := AtomicLog(n, atomic);
    AccountBalances(n, log);
  }
}
