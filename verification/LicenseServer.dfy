/**
 The license server's ticket table: the request handlers and the reclaimer of dead processes'
 tickets.  The table's size (MAXUSERS in the source) is a parameter.  Every change of the table
 is also an event in a log, which gives the conservation laws something independent to refer to.
 */
module LicenseServer {
  import opened Wrappers
  import opened CText

  const AVAILABLE: int := 0

  const NO_TICKETS := "FAIL no tickets available"
  const CORRUPT := "FAIL database corrupt"
  const INVALID_TICKET := "FAIL invalid ticket"
  const INVALID_REQUEST := "FAIL invalid request"
  const THANKS := "THNX See ya!"
  const GOOD := "GOOD Valid ticket"

  datatype State = State(tickets: seq<int>, numOut: int)

  datatype Event = Granted(pid: int, slot: nat) | Released(pid: int, slot: nat) | Reclaimed(pid: int, slot: nat)

  /** What one request does: the new table, the response, the events. */
  datatype Outcome = Outcome(st: State, response: string, events: seq<Event>)

  predicate InRange(st: State, slot: int) { 0 <= slot < |st.tickets| }

  /** What the server takes for granted about a request: a keyword is followed by at least one more
      character (the handlers read from offset 5), and a parsed slot is an index of the table. */
  predicate Acceptable(st: State, req: string) {
    && (HasPrefix(req, "HELO") || HasPrefix(req, "GBYE") || HasPrefix(req, "VALD") ==> |req| >= 5)
    && (HasPrefix(req, "GBYE") || HasPrefix(req, "VALD") ==>
          match ScanTicket(req[5..]) case Some((_, slot)) => InRange(st, slot) case None => true)
  }

  // ---- the handlers as functions ------------------------------------------------------

  function FirstFree(t: seq<int>): (x: nat)
    ensures x <= |t| && (forall j :: 0 <= j < x ==> t[j] != AVAILABLE)
    ensures x < |t| ==> t[x] == AVAILABLE
  {
    if t == [] || t[0] == AVAILABLE then 0 else 1 + FirstFree(t[1..])
  }

  function Hello(st: State, arg: string): Outcome {
    var x := FirstFree(st.tickets);
    if st.numOut >= |st.tickets| then Outcome(st, NO_TICKETS, [])
    else if x == |st.tickets| then Outcome(st, CORRUPT, [])
    else
      var pid := Atoi(arg);
      Outcome(State(st.tickets[x := pid], st.numOut + 1), "TICK " + TicketText(pid, x), [Granted(pid, x)])
  }

  /** The slot a ticket text legitimately names, if it does. */
  function OwnedSlot(st: State, arg: string): (r: Option<nat>)
    ensures r.Some? ==> InRange(st, r.value) && ScanTicket(arg) == Some((st.tickets[r.value], r.value))
  {
    match ScanTicket(arg)
    case Some((pid, slot)) => if InRange(st, slot) && st.tickets[slot] == pid then Some(slot) else None
    case None => None
  }

  function Goodbye(st: State, arg: string): Outcome {
    match OwnedSlot(st, arg)
    case Some(slot) =>
      Outcome(State(st.tickets[slot := AVAILABLE], st.numOut - 1), THANKS, [Released(st.tickets[slot], slot)])
    case None => Outcome(st, INVALID_TICKET, [])
  }

  function Validate(st: State, arg: string): Outcome {
    Outcome(st, if OwnedSlot(st, arg).Some? then GOOD else INVALID_TICKET, [])
  }

  function Handle(st: State, req: string): (out: Outcome)
    requires Acceptable(st, req)
    ensures |out.st.tickets| == |st.tickets|
  {
    if HasPrefix(req, "HELO") then Hello(st, req[5..])
    else if HasPrefix(req, "GBYE") then Goodbye(st, req[5..])
    else if HasPrefix(req, "VALD") then Validate(st, req[5..])
    else Outcome(st, INVALID_REQUEST, [])
  }

  /** One iteration of the reclaim loop; `gone(pid)` is kill(pid, 0) failing with ESRCH. */
  function ReclaimSlot(st: State, gone: int -> bool, i: nat): (out: Outcome)
    requires i < |st.tickets|
    ensures |out.st.tickets| == |st.tickets|
  {
    var pid := st.tickets[i];
    if pid != AVAILABLE && gone(pid) then
      Outcome(State(st.tickets[i := AVAILABLE], st.numOut - 1), "", [Reclaimed(pid, i)])
    else Outcome(st, "", [])
  }

  /** The first k iterations of the reclaim loop. */
  function ReclaimUpTo(st: State, gone: int -> bool, k: nat): (out: Outcome)
    requires k <= |st.tickets|
    ensures |out.st.tickets| == |st.tickets|
  {
    if k == 0 then Outcome(st, "", [])
    else
      var before := ReclaimUpTo(st, gone, k - 1);
      var step := ReclaimSlot(before.st, gone, k - 1);
      Outcome(step.st, "", before.events + step.events)
  }

  // ---- the account kept by the log ----------------------------------------------------

  function Occupied(t: seq<int>): nat {
    if t == [] then 0 else Occupied(t[..|t| - 1]) + if t[|t| - 1] != AVAILABLE then 1 else 0
  }

  /** The table a log describes; None when an event is impossible: a grant of an occupied slot or to
      pid 0, or a release or reclaim of a slot by anyone but its present owner. */
  function Replay(n: nat, log: seq<Event>): (r: Option<seq<int>>)
    ensures r.Some? ==> |r.value| == n
  {
    if log == [] then Some(seq(n, _ => AVAILABLE))
    else match Replay(n, log[..|log| - 1])
      case None => None
      case Some(t) => Apply(t, log[|log| - 1])
  }

  function Apply(t: seq<int>, e: Event): (r: Option<seq<int>>)
    ensures r.Some? ==> |r.value| == |t|
  {
    if e.slot >= |t| then None
    else if e.Granted? then
      if e.pid != AVAILABLE && t[e.slot] == AVAILABLE then Some(t[e.slot := e.pid]) else None
    else
      if e.pid != AVAILABLE && t[e.slot] == e.pid then Some(t[e.slot := AVAILABLE]) else None
  }

  function Grants(log: seq<Event>): nat {
    if log == [] then 0 else Grants(log[..|log| - 1]) + if log[|log| - 1].Granted? then 1 else 0
  }

  function Releases(log: seq<Event>): nat {
    if log == [] then 0 else Releases(log[..|log| - 1]) + if log[|log| - 1].Released? then 1 else 0
  }

  function Reclaims(log: seq<Event>): nat {
    if log == [] then 0 else Reclaims(log[..|log| - 1]) + if log[|log| - 1].Reclaimed? then 1 else 0
  }

  /** The log explains the table, and the counter is grants minus releases minus reclaims. */
  predicate Accounted(st: State, log: seq<Event>) {
    && Replay(|st.tickets|, log) == Some(st.tickets)
    && st.numOut == Grants(log) - Releases(log) - Reclaims(log)
  }

  lemma {:induction false} OccupiedUpdate(t: seq<int>, i: nat, v: int)
    requires i < |t|
    ensures Occupied(t[i := v]) - (if v != AVAILABLE then 1 else 0)
         == Occupied(t) - (if t[i] != AVAILABLE then 1 else 0)
  {
    var u, m := t[i := v], |t| - 1;
    if i == m {
      assert u[..m] == t[..m];
    } else {
      assert u[..m] == t[..m][i := v];
      OccupiedUpdate(t[..m], i, v);
    }
  }

  lemma {:induction false} OccupiedBounds(t: seq<int>)
    ensures Occupied(t) <= |t|
    ensures Occupied(t) == |t| <==> forall i :: 0 <= i < |t| ==> t[i] != AVAILABLE
    ensures Occupied(t) == 0 <==> forall i :: 0 <= i < |t| ==> t[i] == AVAILABLE
  {
    if t != [] {
      OccupiedBounds(t[..|t| - 1]);
      assert forall i :: 0 <= i < |t| ==> t[i] == if i < |t| - 1 then t[..|t| - 1][i] else t[|t| - 1];
    }
  }

  /** Conservation: in an accounted state the counter is the number of occupied slots. */
  lemma {:induction false} AccountBalances(n: nat, log: seq<Event>)
    requires Replay(n, log).Some?
    ensures Occupied(Replay(n, log).value) == Grants(log) - Releases(log) - Reclaims(log)
  {
    if log == [] {
      OccupiedBounds(seq(n, _ => AVAILABLE));
    } else {
      var before, e := log[..|log| - 1], log[|log| - 1];
      AccountBalances(n, before);
      OccupiedUpdate(Replay(n, before).value, e.slot, if e.Granted? then e.pid else AVAILABLE);
    }
  }

  lemma ReplayExtend(n: nat, log: seq<Event>, e: Event)
    ensures Replay(n, log + [e]) == match Replay(n, log) case None => None case Some(t) => Apply(t, e)
    ensures Grants(log + [e]) == Grants(log) + if e.Granted? then 1 else 0
    ensures Releases(log + [e]) == Releases(log) + if e.Released? then 1 else 0
    ensures Reclaims(log + [e]) == Reclaims(log) + if e.Reclaimed? then 1 else 0
  {
    assert (log + [e])[..|log|] == log;
  }

  /** The one way a request can spoil the account: a ticket for pid 0, which cannot be told from a
      free slot, is granted or handed back. */
  predicate TouchesPidZero(st: State, req: string)
    requires Acceptable(st, req)
  {
    || (HasPrefix(req, "HELO") && st.numOut < |st.tickets| && Atoi(req[5..]) == AVAILABLE)
    || (HasPrefix(req, "GBYE") && match OwnedSlot(st, req[5..])
          case Some(slot) => st.tickets[slot] == AVAILABLE
          case None => false)
  }

  lemma FreeSlotExists(st: State, log: seq<Event>)
    requires Accounted(st, log) && st.numOut < |st.tickets|
    ensures FirstFree(st.tickets) < |st.tickets|
  {
    AccountBalances(|st.tickets|, log);
    OccupiedBounds(st.tickets);
  }

  /** The request is for a ticket of pid 0, or gives one back. */
  predicate NamesPidZero(req: string) {
    |req| >= 5 &&
    ((HasPrefix(req, "HELO") && Atoi(req[5..]) == AVAILABLE)
     || (HasPrefix(req, "GBYE") && ScanTicket(req[5..]).Some? && ScanTicket(req[5..]).value.0 == AVAILABLE))
  }

  lemma NonzeroPidsDoNotTouchZero(st: State, req: string)
    requires Acceptable(st, req) && !NamesPidZero(req)
    ensures !TouchesPidZero(st, req)
  {
  }

  lemma AccountStarts(n: nat)
    ensures Accounted(State(seq(n, _ => AVAILABLE), 0), [])
  {
  }

  /** What a request of the server does to the number of occupied slots. */
  lemma HandleCountsIff(st: State, log: seq<Event>, req: string)
    requires Accounted(st, log) && Acceptable(st, req)
    ensures var out := Handle(st, req); out.st.numOut == Occupied(out.st.tickets) <==> !TouchesPidZero(st, req)
  {
    var out := Handle(st, req);
    AccountBalances(|st.tickets|, log);
    assert HasPrefix(req, "HELO") ==> req[0] == 'H';
    assert HasPrefix(req, "GBYE") ==> req[0] == 'G';
    if HasPrefix(req, "HELO") && st.numOut < |st.tickets| {
      FreeSlotExists(st, log);
      OccupiedUpdate(st.tickets, FirstFree(st.tickets), Atoi(req[5..]));
    } else if HasPrefix(req, "GBYE") && OwnedSlot(st, req[5..]).Some? {
      OccupiedUpdate(st.tickets, OwnedSlot(st, req[5..]).value, AVAILABLE);
    }
  }

  /** For example: a HELO for pid 0, while there is room, is counted but occupies no slot. */
  lemma HelloZeroMiscounts(st: State, log: seq<Event>)
    requires Accounted(st, log) && st.numOut < |st.tickets|
    ensures Acceptable(st, "HELO 0")
    ensures var out := Handle(st, "HELO 0");
            out.st.numOut == Occupied(out.st.tickets) + 1 && out.st.tickets == st.tickets
  {
    var req := "HELO 0";
    assert req[..4] == "HELO" && req[0] == 'H' && !HasPrefix(req, "GBYE") && !HasPrefix(req, "VALD");
    assert DigitChar(0) == '0' && Digits(0) == ['0'] && req[5..] == Decimal(0);
    AtoiDecimal(0);
    FreeSlotExists(st, log);
    AccountBalances(|st.tickets|, log);
    assert Handle(st, req) == Hello(st, "0");
    assert st.tickets[FirstFree(st.tickets) := AVAILABLE] == st.tickets;
  }

  /** Every request keeps the account, except exactly those that touch pid 0: the counter goes wrong,
      and the log no longer explains the table. */
  lemma HandleKeepsAccountIff(st: State, log: seq<Event>, req: string)
    requires Accounted(st, log) && Acceptable(st, req)
    ensures var out := Handle(st, req);
            && (Accounted(out.st, log + out.events) <==> !TouchesPidZero(st, req))
            && (out.st.numOut == Occupied(out.st.tickets) <==> !TouchesPidZero(st, req))
  {
    HandleCountsIff(st, log, req);
    var out := Handle(st, req);
    assert HasPrefix(req, "HELO") ==> req[0] == 'H';
    assert HasPrefix(req, "GBYE") ==> req[0] == 'G';
    if HasPrefix(req, "HELO") && st.numOut < |st.tickets| {
      FreeSlotExists(st, log);
    }
    if out.events == [] {
      assert log + out.events == log;
    } else {
      assert out.events == [out.events[0]];
      ReplayExtend(|st.tickets|, log, out.events[0]);
    }
  }

  lemma ReclaimSlotKeepsAccount(st: State, log: seq<Event>, gone: int -> bool, i: nat)
    requires Accounted(st, log) && i < |st.tickets|
    ensures var out := ReclaimSlot(st, gone, i); Accounted(out.st, log + out.events)
  {
    var out := ReclaimSlot(st, gone, i);
    if out.events == [] {
      assert log + out.events == log;
    } else {
      ReplayExtend(|st.tickets|, log, Reclaimed(st.tickets[i], i));
    }
  }

  /** In an accounted state no request is ever told that the database is corrupt. */
  lemma NeverCorrupt(st: State, log: seq<Event>, req: string)
    requires Accounted(st, log) && Acceptable(st, req)
    ensures Handle(st, req).response != CORRUPT
  {
    if HasPrefix(req, "HELO") && st.numOut < |st.tickets| {
      FreeSlotExists(st, log);
      assert Handle(st, req).response[0] == 'T';
    } else {
      assert NO_TICKETS[5] == 'n' && INVALID_TICKET[5] == 'i' && INVALID_REQUEST[5] == 'i' && CORRUPT[5] == 'd';
      assert GOOD[0] == 'G' && THANKS[0] == 'T';
    }
  }

  /** The text is a ticket for a slot that is recorded for the very process it names. */
  ghost predicate IsValidTicket(st: State, text: string) {
    exists pid, slot :: ScanTicket(text) == Some((pid, slot)) && InRange(st, slot) && st.tickets[slot] == pid
  }

  /** Only valid tickets are accepted, by VALD and GBYE alike; a VALD, like every refusal, leaves table
      and count alone. */
  lemma OnlyValidTicketsPass(st: State, req: string)
    requires Acceptable(st, req) && (HasPrefix(req, "VALD") || HasPrefix(req, "GBYE"))
    ensures var out := Handle(st, req);
            && (out.response in {GOOD, THANKS} <==> IsValidTicket(st, req[5..]))
            && (out.response == GOOD ==> HasPrefix(req, "VALD")) && (out.response == THANKS ==> HasPrefix(req, "GBYE"))
            && (out.response != THANKS ==> out.st == st && out.events == [])
  {
    assert HasPrefix(req, "VALD") ==> req[0] == 'V';
    assert HasPrefix(req, "GBYE") ==> req[0] == 'G';
    assert INVALID_TICKET[0] == 'F' && GOOD[0] == 'G' && THANKS[0] == 'T';
    if pid, slot :| ScanTicket(req[5..]) == Some((pid, slot)) && InRange(st, slot) && st.tickets[slot] == pid {
      assert OwnedSlot(st, req[5..]) == Some(slot);
    }
  }

  lemma AnswerTexts()
    ensures HasPrefix(NO_TICKETS, "FAIL") && HasPrefix(CORRUPT, "FAIL")
    ensures HasPrefix(INVALID_TICKET, "FAIL") && HasPrefix(INVALID_REQUEST, "FAIL")
    ensures HasPrefix(THANKS, "THNX") && HasPrefix(GOOD, "GOOD")
    ensures forall pid, slot :: HasPrefix("TICK " + TicketText(pid, slot), "TICK")
  {
    forall pid, slot ensures HasPrefix("TICK " + TicketText(pid, slot), "TICK") {
      assert ("TICK " + TicketText(pid, slot))[..4] == "TICK";
    }
  }

  lemma OneKeyword(text: string)
    ensures HasPrefix(text, "TICK") ==> !HasPrefix(text, "THNX") && !HasPrefix(text, "GOOD") && !HasPrefix(text, "FAIL")
    ensures HasPrefix(text, "THNX") ==> !HasPrefix(text, "GOOD") && !HasPrefix(text, "FAIL")
    ensures HasPrefix(text, "GOOD") ==> !HasPrefix(text, "FAIL")
    ensures HasPrefix(text, "HELO") ==> !HasPrefix(text, "GBYE") && !HasPrefix(text, "VALD")
    ensures HasPrefix(text, "GBYE") ==> !HasPrefix(text, "VALD")
  {
    assert HasPrefix(text, "TICK") ==> text[0] == 'T' && text[1] == 'I';
    assert HasPrefix(text, "THNX") ==> text[0] == 'T' && text[1] == 'H';
    assert HasPrefix(text, "GOOD") ==> text[0] == 'G';
    assert HasPrefix(text, "FAIL") ==> text[0] == 'F';
    assert HasPrefix(text, "HELO") ==> text[0] == 'H';
    assert HasPrefix(text, "GBYE") ==> text[0] == 'G';
    assert HasPrefix(text, "VALD") ==> text[0] == 'V';
  }

  /** The first four characters of the answer say what happened: TICK and the ticket for a HELO that was
      granted a slot, THNX for a GBYE that gave one back, GOOD for a VALD with a valid ticket, and FAIL
      for everything else, unknown requests included; and then nothing has changed. */
  lemma AnswersSayWhatHappened(st: State, req: string)
    requires Acceptable(st, req)
    ensures var out := Handle(st, req);
            var answer := out.response;
            var known := HasPrefix(req, "HELO") || HasPrefix(req, "GBYE") || HasPrefix(req, "VALD");
            && (HasPrefix(answer, "TICK") <==> exists pid, slot :: out.events == [Granted(pid, slot)])
            && (HasPrefix(answer, "TICK") ==> HasPrefix(req, "HELO") && out.events[0].Granted?
                                              && answer == "TICK " + TicketText(out.events[0].pid, out.events[0].slot))
            && (HasPrefix(answer, "THNX") <==> exists pid, slot :: out.events == [Released(pid, slot)])
            && (HasPrefix(answer, "THNX") <==> HasPrefix(req, "GBYE") && IsValidTicket(st, req[5..]))
            && (HasPrefix(answer, "GOOD") <==> HasPrefix(req, "VALD") && IsValidTicket(st, req[5..]))
            && (HasPrefix(answer, "GOOD") || HasPrefix(answer, "FAIL") <==> out.events == [])
            && (out.events == [] ==> out.st == st)
            && (!known ==> HasPrefix(answer, "FAIL") && out.events == [])
  {
    AnswerTexts();
    OneKeyword(req);
    OneKeyword(Handle(st, req).response);
    if HasPrefix(req, "VALD") || HasPrefix(req, "GBYE") {
      OnlyValidTicketsPass(st, req);
      assert OwnedSlot(st, req[5..]).Some? <==> IsValidTicket(st, req[5..]);
    }
  }

  /** GBYE undoes HELO: the ticket in the answer is valid, giving it back restores table and count, and
      then it is valid no longer. */
  lemma TicketLifeCycle(st: State, log: seq<Event>, pid: int)
    requires Accounted(st, log) && st.numOut < |st.tickets| && pid != AVAILABLE
    ensures var granted := Hello(st, Decimal(pid));
            && HasPrefix(granted.response, "TICK") && |granted.response| >= 5
            && var ticket := granted.response[5..];
               && Validate(granted.st, ticket).response == GOOD
               && Goodbye(granted.st, ticket).response == THANKS
               && Goodbye(granted.st, ticket).st == st
               && !IsValidTicket(st, ticket)
  {
    FreeSlotExists(st, log);
    AtoiDecimal(pid);
    var granted, x := Hello(st, Decimal(pid)), FirstFree(st.tickets);
    var ticket := TicketText(pid, x);
    assert granted.response[5..] == ticket;
    ScanTicketText(pid, x, "");
    assert ticket + "" == ticket;
    assert OwnedSlot(granted.st, ticket) == Some(x);
    assert granted.st.tickets[x := AVAILABLE] == st.tickets;
  }

  /** The events of k iterations: one reclaim for each dead owner among the first k slots. */
  predicate ReclaimsExactly(t: seq<int>, gone: int -> bool, k: nat, events: seq<Event>)
    requires k <= |t|
  {
    && (forall e :: e in events ==> e.Reclaimed? && e.slot < k && e.pid == t[e.slot] != AVAILABLE && gone(e.pid))
    && (forall i :: 0 <= i < k && t[i] != AVAILABLE && gone(t[i]) ==> Reclaimed(t[i], i) in events)
  }

  lemma {:induction false} ReclaimTable(st: State, gone: int -> bool, k: nat, i: nat)
    requires k <= |st.tickets| && i < |st.tickets|
    ensures ReclaimUpTo(st, gone, k).st.tickets[i] ==
            if i < k && gone(st.tickets[i]) then AVAILABLE else st.tickets[i]
  {
    if k > 0 {
      ReclaimTable(st, gone, k - 1, i);
      ReclaimTable(st, gone, k - 1, k - 1);
    }
  }

  /** One more slot. */
  lemma ReclaimsExtend(t: seq<int>, gone: int -> bool, k: nat, events: seq<Event>, more: seq<Event>)
    requires k < |t| && ReclaimsExactly(t, gone, k, events)
    requires more == if t[k] != AVAILABLE && gone(t[k]) then [Reclaimed(t[k], k)] else []
    ensures ReclaimsExactly(t, gone, k + 1, events + more)
  {
    assert forall e :: e in events + more <==> e in events || e in more;
  }

  lemma {:induction false} ReclaimEvents(st: State, gone: int -> bool, k: nat)
    requires k <= |st.tickets|
    ensures ReclaimsExactly(st.tickets, gone, k, ReclaimUpTo(st, gone, k).events)
  {
    if k > 0 {
      var before := ReclaimUpTo(st, gone, k - 1);
      var step := ReclaimSlot(before.st, gone, k - 1);
      assert before.st.tickets[k - 1] == st.tickets[k - 1] by { ReclaimTable(st, gone, k - 1, k - 1); }
      ReclaimEvents(st, gone, k - 1);
      ReclaimsExtend(st.tickets, gone, k - 1, before.events, step.events);
      assert ReclaimUpTo(st, gone, k).events == before.events + step.events;
    }
  }

  lemma {:induction false} ReclaimKeepsAccount(st: State, log: seq<Event>, gone: int -> bool, k: nat)
    requires Accounted(st, log) && k <= |st.tickets|
    ensures Accounted(ReclaimUpTo(st, gone, k).st, log + ReclaimUpTo(st, gone, k).events)
  {
    if k == 0 {
      assert log + [] == log;
    } else {
      var before := ReclaimUpTo(st, gone, k - 1);
      var step := ReclaimSlot(before.st, gone, k - 1);
      ReclaimKeepsAccount(st, log, gone, k - 1);
      ReclaimSlotKeepsAccount(before.st, log + before.events, gone, k - 1);
      LaterEvents(log, before.events, step.events);
    }
  }

  lemma LaterEvents(log: seq<Event>, a: seq<Event>, b: seq<Event>)
    ensures log + (a + b) == (log + a) + b
  {
  }

  /** A full reclaim frees exactly the slots of dead owners, logs exactly those, and keeps the
      account. */
  lemma ReclaimFreesExactlyTheDead(st: State, log: seq<Event>, gone: int -> bool)
    requires Accounted(st, log)
    ensures var out := ReclaimUpTo(st, gone, |st.tickets|);
            && Accounted(out.st, log + out.events)
            && ReclaimsExactly(st.tickets, gone, |st.tickets|, out.events)
            && out.st.tickets == seq(|st.tickets|, i requires 0 <= i < |st.tickets| =>
                 if gone(st.tickets[i]) then AVAILABLE else st.tickets[i])
  {
    var n := |st.tickets|;
    ReclaimKeepsAccount(st, log, gone, n);
    ReclaimEvents(st, gone, n);
    forall i | 0 <= i < n
      ensures ReclaimUpTo(st, gone, n).st.tickets[i] == if gone(st.tickets[i]) then AVAILABLE else st.tickets[i]
    {
      ReclaimTable(st, gone, n, i);
    }
  }

  // ---- what an accounted log says about grants ----------------------------------------

  /** Event j ends the grant made by event k: same pid and slot, and nothing happened to the slot in
      between. */
  predicate EndsGrant(log: seq<Event>, j: nat, k: nat) {
    && k < j < |log| && !log[j].Granted?
    && log[k] == Granted(log[j].pid, log[j].slot)
    && forall m :: k < m < j ==> log[m].slot != log[j].slot
  }

  /** Event k is the latest about its slot, and a grant. */
  predicate OpenGrant(log: seq<Event>, k: nat, pid: int, slot: nat) {
    && k < |log| && log[k] == Granted(pid, slot)
    && forall m :: k < m < |log| ==> log[m].slot != slot
  }

  /** An occupied slot's owner is the one to whom it was granted last. */
  lemma {:induction false} OccupiedSlotHasOpenGrant(n: nat, log: seq<Event>, slot: nat) returns (k: nat)
    requires Replay(n, log).Some? && slot < n && Replay(n, log).value[slot] != AVAILABLE
    ensures OpenGrant(log, k, Replay(n, log).value[slot], slot)
  {
    var last := |log| - 1;
    if log[last].slot == slot {
      k := last;
    } else {
      k := OccupiedSlotHasOpenGrant(n, log[..last], slot);
      assert log[..last][k] == log[k];
      assert forall m :: k < m < last ==> log[..last][m] == log[m];
    }
  }

  /** Every release and every reclaim in a replayable log ends exactly one grant, of that very slot
      to that very process. */
  lemma {:induction false} EveryEndHasItsGrant(n: nat, log: seq<Event>, j: nat) returns (k: nat)
    requires Replay(n, log).Some? && j < |log| && !log[j].Granted?
    ensures EndsGrant(log, j, k)
  {
    var last := |log| - 1;
    if j < last {
      k := EveryEndHasItsGrant(n, log[..last], j);
      assert EndsGrant(log[..last], j, k);
      assert forall m :: k <= m <= j ==> log[..last][m] == log[m];
    } else {
      k := OccupiedSlotHasOpenGrant(n, log[..last], log[j].slot);
      assert forall m :: k <= m < last ==> log[..last][m] == log[m];
    }
  }

  /** No grant is ended twice: what ends it is the next event of its slot. */
  lemma GrantEndsOnce(log: seq<Event>, i: nat, j: nat, k: nat)
    requires EndsGrant(log, i, k) && EndsGrant(log, j, k)
    ensures i == j
  {
    if i < j {
      assert false;
    }
    if j < i {
      assert false;
    }
  }

  /** Releases and reclaims match grants one to one. */
  ghost predicate MatchesEnds(log: seq<Event>, grant: map<nat, nat>) {
    && (forall j: nat :: j in grant <==> j < |log| && !log[j].Granted?)
    && (forall j :: j in grant ==> EndsGrant(log, j, grant[j]))
    && (forall i, j :: i in grant && j in grant && grant[i] == grant[j] ==> i == j)
  }

  lemma EndsGrantStill(init: seq<Event>, log: seq<Event>, j: nat, k: nat)
    requires init <= log && EndsGrant(init, j, k)
    ensures EndsGrant(log, j, k)
  {
    assert forall m :: 0 <= m < |init| ==> init[m] == log[m];
  }

  lemma {:induction false} EndsMatchGrants(n: nat, log: seq<Event>) returns (grant: map<nat, nat>)
    requires Replay(n, log).Some?
    ensures MatchesEnds(log, grant)
  {
    if log == [] {
      return map[];
    }
    var last := |log| - 1;
    var init := log[..last];
    grant := EndsMatchGrants(n, init);
    forall j | j in grant ensures EndsGrant(log, j, grant[j]) {
      EndsGrantStill(init, log, j, grant[j]);
    }
    if !log[last].Granted? {
      var k := EveryEndHasItsGrant(n, log, last);
      forall j | j in grant ensures grant[j] != k {
        if grant[j] == k {
          GrantEndsOnce(log, j, last, k);
        }
      }
      grant := grant[last := k];
    }
  }

  // ---- the server as it runs ----------------------------------------------------------

  class Server {
    const ticketArray: array<int>
    var numTicketsOut: int
    ghost var log: seq<Event>

    ghost function Model(): (st: State)
      reads this, ticketArray
    {
      State(ticketArray[..], numTicketsOut)
    }

    /** setup: all tickets are free. */
    constructor (maxUsers: nat)
      ensures fresh(ticketArray)
      ensures Model() == State(seq(maxUsers, _ => AVAILABLE), 0) && log == [] && Accounted(Model(), log)
    {
      ticketArray := new int[maxUsers];
      numTicketsOut := 0;
      log := [];
      new;
      FreeAllTickets();
    }

    method FreeAllTickets()
      modifies ticketArray
      ensures ticketArray[..] == seq(ticketArray.Length, _ => AVAILABLE)
    {
      for i := 0 to ticketArray.Length
        invariant forall j :: 0 <= j < i ==> ticketArray[j] == AVAILABLE
      {
        ticketArray[i] := AVAILABLE;
      }
    }

    method DoHello(msg: string) returns (response: string)
      requires |msg| >= 5
      modifies this, ticketArray
      ensures Outcome(Model(), response, log) ==
              var out := Hello(old(Model()), msg[5..]); Outcome(out.st, out.response, old(log) + out.events)
    {
      if numTicketsOut >= ticketArray.Length {
        return NO_TICKETS;
      }
      var x := 0;
      while x < ticketArray.Length && ticketArray[x] != AVAILABLE
        invariant x <= ticketArray.Length
        invariant forall j :: 0 <= j < x ==> ticketArray[j] != AVAILABLE
      {
        x := x + 1;
      }
      if x == ticketArray.Length {
        return CORRUPT;
      }
      ticketArray[x] := Atoi(msg[5..]);
      response := "TICK " + TicketText(ticketArray[x], x);
      numTicketsOut := numTicketsOut + 1;
      log := log + [Granted(ticketArray[x], x)];
    }

    method DoGoodbye(msg: string) returns (response: string)
      requires |msg| >= 5
      requires match ScanTicket(msg[5..]) case Some((_, slot)) => InRange(Model(), slot) case None => true
      modifies this, ticketArray
      ensures Outcome(Model(), response, log) ==
              var out := Goodbye(old(Model()), msg[5..]); Outcome(out.st, out.response, old(log) + out.events)
    {
      var ticket := ScanTicket(msg[5..]);
      if ticket.None? || ticketArray[ticket.value.1] != ticket.value.0 {
        return INVALID_TICKET;
      }
      var slot := ticket.value.1;
      log := log + [Released(ticketArray[slot], slot)];
      ticketArray[slot] := AVAILABLE;
      numTicketsOut := numTicketsOut - 1;
      return THANKS;
    }

    method DoValidate(msg: string) returns (response: string)
      requires |msg| >= 5
      requires match ScanTicket(msg[5..]) case Some((_, slot)) => InRange(Model(), slot) case None => true
      ensures response == Validate(Model(), msg[5..]).response
    {
      var ticket := ScanTicket(msg[5..]);
      if ticket.Some? && ticketArray[ticket.value.1] == ticket.value.0 {
        return GOOD;
      }
      return INVALID_TICKET;
    }

    method HandleRequest(req: string) returns (response: string)
      requires Acceptable(Model(), req)
      modifies this, ticketArray
      ensures Outcome(Model(), response, log) ==
              var out := Handle(old(Model()), req); Outcome(out.st, out.response, old(log) + out.events)
    {
      if HasPrefix(req, "HELO") {
        response := DoHello(req);
      } else if HasPrefix(req, "GBYE") {
        response := DoGoodbye(req);
      } else if HasPrefix(req, "VALD") {
        response := DoValidate(req);
      } else {
        response := INVALID_REQUEST;
      }
    }

    method TicketReclaim(gone: int -> bool)
      modifies this, ticketArray
      ensures Model() == ReclaimUpTo(old(Model()), gone, ticketArray.Length).st
      ensures log == old(log) + ReclaimUpTo(old(Model()), gone, ticketArray.Length).events
    {
      ghost var st0, log0 := Model(), log;
      for i := 0 to ticketArray.Length
        invariant Model() == ReclaimUpTo(st0, gone, i).st
        invariant log == log0 + ReclaimUpTo(st0, gone, i).events
      {
        if ticketArray[i] != AVAILABLE && gone(ticketArray[i]) {
          log := log + [Reclaimed(ticketArray[i], i)];
          ticketArray[i] := AVAILABLE;
          numTicketsOut := numTicketsOut - 1;
        }
      }
    }
  }
}
