/**
 The license server together with any number of clients and the datagrams between them.  Every
 message is the text that is really sent; a client keeps its ticket as the characters it copied
 out of its reused reply buffer.  Datagrams may be lost or delayed, clients may crash at any
 moment, and the reclaimer may visit any slot at any moment.
 */
module LicenseSystem {
  import opened Wrappers
  import opened Characters
  import opened CText
  import opened LicenseServer

  const MSGLEN := 128

  /** WaitTick, WaitGood and WaitThnx are inside do_transaction. */
  datatype Phase = Idle | WaitTick | Holding | WaitGood | WaitThnx | Done | Dead

  datatype Client = Client(phase: Phase, reply: string, ticket: string)

  datatype Datagram = Request(party: int, text: string) | Reply(party: int, text: string)

  datatype Sys = Sys(server: State, clients: map<int, Client>, net: multiset<Datagram>, log: seq<Event>)

  datatype Action =
    | Spawn(pid: int)        // a client starts
    | SendHello(pid: int)    // get_ticket
    | SendVald(pid: int)     // the holder has its ticket checked
    | SendGbye(pid: int)     // release_ticket
    | Quit(pid: int)         // main exits after a refusal
    | Crash(pid: int)
    | Serve(d: Datagram)     // the server handles one request and answers
    | Deliver(d: Datagram)   // a waiting client receives
    | Lose(d: Datagram)
    | ReclaimOne(slot: nat)  // one iteration of the reclaim loop

  // ---- messages -----------------------------------------------------------------------

  function HelloText(pid: int): string { "HELO " + Decimal(pid) }

  function ValdText(ticket: string): string { "VALD " + ticket }

  function GbyeText(ticket: string): string { "GBYE " + ticket }

  function TickText(pid: int, slot: int): string { "TICK " + TicketText(pid, slot) }

  /** What the server finds in its receive buffer. */
  function AsReceived(text: string): string {
    CString(if |text| <= MSGLEN then text else text[..MSGLEN])
  }

  // ---- the system's steps -------------------------------------------------------------

  function InPhase(s: Sys, p: int, phase: Phase): bool { p in s.clients && s.clients[p].phase == phase }

  /** kill(p, 0) fails with ESRCH. */
  function Gone(s: Sys): int -> bool { p => p !in s.clients || s.clients[p].phase in {Done, Dead} }

  predicate Enabled(s: Sys, a: Action) {
    match a
    case Spawn(p) => 0 < p && IsInt32(p) && p !in s.clients
    case SendHello(p) => InPhase(s, p, Idle)
    case SendVald(p) => InPhase(s, p, Holding)
    case SendGbye(p) => InPhase(s, p, Holding)
    case Quit(p) => InPhase(s, p, Idle)
    case Crash(p) => p in s.clients && s.clients[p].phase != Done
    case Serve(d) => d in s.net && d.Request? && Acceptable(s.server, AsReceived(d.text))
    case Deliver(d) => d in s.net && d.Reply? && d.party in s.clients
                       && s.clients[d.party].phase in {WaitTick, WaitGood, WaitThnx}
    case Lose(d) => d in s.net
    case ReclaimOne(i) => i < |s.server.tickets|
  }

  function SetPhase(s: Sys, p: int, phase: Phase): Sys
    requires p in s.clients
  {
    s.(clients := s.clients[p := s.clients[p].(phase := phase)])
  }

  function Send(s: Sys, p: int, phase: Phase, text: string): Sys
    requires p in s.clients
  {
    SetPhase(s, p, phase).(net := s.net + multiset{Request(p, text)})
  }

  /** A client back from do_transaction: the reply lies over the old content of its buffer. */
  function Received(c: Client, text: string): Client {
    var buf := Receive(c.reply, text);
    match c.phase
    case WaitTick =>
      if HasPrefix(buf, "TICK") && |buf| >= 5 then Client(Holding, buf, CString(buf[5..]))
      else c.(phase := Idle, reply := buf)
    case WaitGood => c.(phase := if HasPrefix(buf, "GOOD") then Holding else Done, reply := buf)
    case _ => c.(phase := Done, reply := buf)
  }

  function Step(s: Sys, a: Action): Sys
    requires Enabled(s, a)
  {
    match a
    case Spawn(p) => s.(clients := s.clients[p := Client(Idle, seq(MSGLEN, _ => NUL), "")])
    case SendHello(p) => Send(s, p, WaitTick, HelloText(p))
    case SendVald(p) => Send(s, p, WaitGood, ValdText(s.clients[p].ticket))
    case SendGbye(p) => Send(s, p, WaitThnx, GbyeText(s.clients[p].ticket))
    case Quit(p) => SetPhase(s, p, Done)
    case Crash(p) => SetPhase(s, p, Dead)
    case Serve(d) =>
      var out := Handle(s.server, AsReceived(d.text));
      Sys(out.st, s.clients, s.net - multiset{d} + multiset{Reply(d.party, out.response)}, s.log + out.events)
    case Deliver(d) =>
      s.(clients := s.clients[d.party := Received(s.clients[d.party], d.text)], net := s.net - multiset{d})
    case Lose(d) => s.(net := s.net - multiset{d})
    case ReclaimOne(i) =>
      var out := ReclaimSlot(s.server, Gone(s), i);
      s.(server := out.st, log := s.log + out.events)
  }

  function Init(n: nat): Sys { Sys(State(seq(n, _ => AVAILABLE), 0), map[], multiset{}, []) }

  /** Every run: any sequence of actions, those not enabled having no effect. */
  function Run(n: nat, acts: seq<Action>): Sys {
    if acts == [] then Init(n)
    else
      var s := Run(n, acts[..|acts| - 1]);
      var a := acts[|acts| - 1];
      if Enabled(s, a) then Step(s, a) else s
  }

  // ---- the invariant ------------------------------------------------------------------

  predicate Owns(t: seq<int>, p: int) { exists i :: 0 <= i < |t| && t[i] == p }

  predicate OwnsAtMostOne(t: seq<int>, p: int) {
    forall i, j :: 0 <= i < |t| && 0 <= j < |t| && t[i] == p == t[j] ==> i == j
  }

  /** The client's ticket text is a ticket for `p`. */
  predicate Ticketed(t: seq<int>, p: int, c: Client) {
    && Terminated(c.ticket) && |c.ticket| <= 64
    && match ScanTicket(c.ticket) case Some((pid, slot)) => pid == p && 0 <= slot < |t| case None => false
  }

  function SlotOf(t: seq<int>, p: int, c: Client): nat
    requires Ticketed(t, p, c)
  {
    ScanTicket(c.ticket).value.1
  }

  predicate Holds(t: seq<int>, p: int, c: Client) { Ticketed(t, p, c) && t[SlotOf(t, p, c)] == p }

  /** A reply buffer that so far took only refusals: no digit anywhere, and NULs at its end. */
  predicate FreshBuffer(buf: string) {
    |buf| == MSGLEN && NoDigits(buf) && forall i :: 64 <= i < MSGLEN ==> buf[i] == NUL
  }

  predicate GoodClient(t: seq<int>, p: int, c: Client) {
    && 0 < p && IsInt32(p)
    && (c.phase != Dead ==> OwnsAtMostOne(t, p))
    && match c.phase
       case Idle => FreshBuffer(c.reply) && !Owns(t, p)
       case WaitTick => FreshBuffer(c.reply)
       case Holding => Holds(t, p, c) && |c.reply| == MSGLEN
       case WaitGood => Holds(t, p, c) && |c.reply| == MSGLEN
       case WaitThnx => Ticketed(t, p, c) && |c.reply| == MSGLEN
       case Done => !Owns(t, p)
       case Dead => true
  }

  predicate GoodRequest(t: seq<int>, p: int, c: Client, text: string) {
    || text == HelloText(p)
    || (Ticketed(t, p, c) && (text == ValdText(c.ticket) || text == GbyeText(c.ticket)))
  }

  predicate GoodDatagram(t: seq<int>, c: Client, d: Datagram) {
    var p := d.party;
    match d
    case Request(_, text) =>
      (match c.phase
       case WaitTick => text == HelloText(p) && !Owns(t, p)
       case WaitGood => text == ValdText(c.ticket)
       case WaitThnx => text == GbyeText(c.ticket) && Holds(t, p, c)
       case Dead => GoodRequest(t, p, c, text)
       case _ => false)
    case Reply(_, text) =>
      (match c.phase
       case WaitTick => (text == NO_TICKETS && !Owns(t, p))
                        || exists slot :: 0 <= slot < |t| && t[slot] == p && text == TickText(p, slot)
       case WaitGood => text == GOOD
       case WaitThnx => text == THANKS && !Owns(t, p)
       case Dead => true
       case _ => false)
  }

  predicate GoodClients(t: seq<int>, clients: map<int, Client>) {
    forall p :: p in clients ==> GoodClient(t, p, clients[p])
  }

  predicate GoodNet(t: seq<int>, clients: map<int, Client>, net: multiset<Datagram>) {
    && (forall d :: d in net ==> d.party in clients && GoodDatagram(t, clients[d.party], d) && net[d] == 1)
    && (forall d, e :: d in net && e in net && d.party == e.party ==> d == e)
  }

  predicate OwnersKnown(t: seq<int>, clients: map<int, Client>) {
    forall i :: 0 <= i < |t| && t[i] != AVAILABLE ==> t[i] in clients
  }

  predicate Inv(s: Sys) {
    && IsInt32(|s.server.tickets|)
    && Accounted(s.server, s.log)
    && OwnersKnown(s.server.tickets, s.clients)
    && GoodClients(s.server.tickets, s.clients)
    && GoodNet(s.server.tickets, s.clients, s.net)
  }

  // ---- text ---------------------------------------------------------------------------

  lemma CStringOfTerminated(s: string)
    requires Terminated(s)
    ensures CString(s) == s
  {
    CStringAppend(s, "");
    assert s + "" == s;
  }

  /** Text received on top of refusals is followed by stale characters that are not digits. */
  lemma CopiedOut(buf: string, text: string) returns (stale: string)
    requires FreshBuffer(buf) && Terminated(text) && |text| <= 40
    ensures CString(Receive(buf, "TICK " + text)[5..]) == text + stale
    ensures |text + stale| <= 64 && StartsWithout(stale, IsDigit)
  {
    var tail := buf[5 + |text|..];
    assert Receive(buf, "TICK " + text)[5..] == text + tail;
    CStringAppend(text, tail);
    stale := CString(tail);
    assert tail[59 - |text|] == buf[64] == NUL;
    CStringStops(tail, 59 - |text|);
    assert stale != [] ==> stale[0] == tail[0] == buf[5 + |text|];
  }

  lemma TicketTextIsShort(pid: int, slot: int)
    requires IsInt32(pid) && IsInt32(slot)
    ensures |TicketText(pid, slot)| <= 25 && Terminated(TicketText(pid, slot))
  {
    DecimalLength(pid);
    DecimalLength(slot);
  }

  /** The ticket a client copies out of its buffer is the one the server printed, up to a tail of
      stale characters that are not digits; so it scans back to the same pid and slot. */
  lemma TicketSurvivesStaleBuffer(buf: string, pid: int, slot: int)
    requires FreshBuffer(buf) && IsInt32(pid) && IsInt32(slot)
    ensures var ticket := CString(Receive(buf, TickText(pid, slot))[5..]);
            |ticket| <= 64 && ScanTicket(ticket) == Some((pid, slot))
  {
    TicketTextIsShort(pid, slot);
    var stale := CopiedOut(buf, TicketText(pid, slot));
    ScanTicketText(pid, slot, stale);
  }

  lemma RequestArrivesWhole(t: seq<int>, p: int, c: Client, text: string)
    requires IsInt32(p) && GoodRequest(t, p, c, text)
    ensures AsReceived(text) == text && 5 <= |text| < MSGLEN
    ensures text == HelloText(p) ==> text[5..] == Decimal(p) && HasPrefix(text, "HELO")
    ensures text == ValdText(c.ticket) ==> text[5..] == c.ticket && HasPrefix(text, "VALD")
    ensures text == GbyeText(c.ticket) ==> text[5..] == c.ticket && HasPrefix(text, "GBYE")
  {
    DecimalLength(p);
    assert Terminated(text);
    CStringOfTerminated(text);
  }

  /** Every request in flight is one the server's code can take. */
  lemma GoodRequestAcceptable(st: State, p: int, c: Client, text: string)
    requires IsInt32(p) && GoodRequest(st.tickets, p, c, text)
    ensures Acceptable(st, AsReceived(text))
  {
    RequestArrivesWhole(st.tickets, p, c, text);
    assert HasPrefix(text, "GBYE") ==> text[0] == 'G';
    assert HasPrefix(text, "VALD") ==> text[0] == 'V';
    assert text == HelloText(p) ==> text[0] == 'H';
  }

  // ---- every step keeps the invariant -------------------------------------------------

  /** The tables differ only in slots that are not `q`'s. */
  predicate SameFor(t: seq<int>, u: seq<int>, q: int) {
    |t| == |u| && forall i :: 0 <= i < |t| ==> (t[i] == q <==> u[i] == q)
  }

  lemma Frame(t: seq<int>, u: seq<int>, p: int, c: Client)
    requires SameFor(t, u, p)
    ensures Owns(t, p) == Owns(u, p) && OwnsAtMostOne(t, p) == OwnsAtMostOne(u, p)
    ensures GoodClient(t, p, c) == GoodClient(u, p, c)
    ensures forall d :: GoodDatagram(t, c, d) && d.party == p ==> GoodDatagram(u, c, d)
  {
    assert Owns(t, p) ==> exists i :: 0 <= i < |u| && u[i] == p;
    assert Owns(u, p) ==> exists i :: 0 <= i < |t| && t[i] == p;
    assert Ticketed(t, p, c) == Ticketed(u, p, c);
    assert Holds(t, p, c) == Holds(u, p, c);
    forall d | GoodDatagram(t, c, d) && d.party == p ensures GoodDatagram(u, c, d) {
      assert forall slot :: 0 <= slot < |t| && t[slot] == p ==> u[slot] == p;
    }
  }

  lemma InitInv(n: nat)
    requires IsInt32(n)
    ensures Inv(Init(n))
  {
  }

  /** A step of client `p` alone that puts no datagram on the net. */
  lemma ClientChangeInv(s: Sys, p: int, c: Client)
    requires Inv(s)
    requires GoodClient(s.server.tickets, p, c)
    requires forall d :: d in s.net && d.party == p ==> GoodDatagram(s.server.tickets, c, d)
    ensures Inv(s.(clients := s.clients[p := c]))
  {
  }

  lemma SendInv(s: Sys, p: int, phase: Phase, text: string)
    requires Inv(s) && p in s.clients && s.clients[p].phase in {Idle, Holding}
    requires var c := s.clients[p].(phase := phase);
             GoodClient(s.server.tickets, p, c) && GoodDatagram(s.server.tickets, c, Request(p, text))
    ensures Inv(Send(s, p, phase, text))
  {
    var s', d := Send(s, p, phase, text), Request(p, text);
    assert forall e :: e in s'.net <==> e in s.net || e == d;
    assert forall e :: e in s.net ==> e.party != p;
  }

  lemma LoseInv(s: Sys, d: Datagram)
    requires Inv(s) && d in s.net
    ensures Inv(s.(net := s.net - multiset{d}))
    ensures forall e :: e in s.net && e != d ==> e.party != d.party
    ensures forall e :: e in s.net - multiset{d} <==> e in s.net && e != d
  {
    assert forall e :: e in s.net - multiset{d} ==> e in s.net;
  }

  lemma TickReceived(t: seq<int>, p: int, c: Client, slot: int)
    requires IsInt32(|t|) && GoodClient(t, p, c) && c.phase == WaitTick
    requires 0 <= slot < |t| && t[slot] == p
    ensures GoodClient(t, p, Received(c, TickText(p, slot))) && Received(c, TickText(p, slot)).phase == Holding
  {
    var buf := Receive(c.reply, TickText(p, slot));
    TicketSurvivesStaleBuffer(c.reply, p, slot);
    assert buf[..4] == "TICK";
  }

  lemma RefusalReceived(t: seq<int>, p: int, c: Client)
    requires GoodClient(t, p, c) && c.phase == WaitTick && !Owns(t, p)
    ensures GoodClient(t, p, Received(c, NO_TICKETS))
  {
    var buf := Receive(c.reply, NO_TICKETS);
    assert buf[0] == 'F' && |NO_TICKETS| == 25;
    assert NoDigits(NO_TICKETS);
  }

  lemma ReceivedGood(t: seq<int>, c: Client, d: Datagram)
    requires IsInt32(|t|) && GoodClient(t, d.party, c) && GoodDatagram(t, c, d)
    requires d.Reply? && c.phase in {WaitTick, WaitGood, WaitThnx}
    ensures GoodClient(t, d.party, Received(c, d.text))
  {
    if c.phase == WaitTick {
      if d.text == NO_TICKETS && !Owns(t, d.party) {
        RefusalReceived(t, d.party, c);
      } else {
        var slot :| 0 <= slot < |t| && t[slot] == d.party && d.text == TickText(d.party, slot);
        TickReceived(t, d.party, c, slot);
      }
    } else if c.phase == WaitGood {
      assert Receive(c.reply, GOOD)[..4] == "GOOD";
      assert Holds(t, d.party, Received(c, d.text));
    }
  }

  lemma DeliverInv(s: Sys, d: Datagram)
    requires Inv(s) && Enabled(s, Deliver(d))
    ensures Inv(Step(s, Deliver(d)))
  {
    ReceivedGood(s.server.tickets, s.clients[d.party], d);
    LoseInv(s, d);
    ClientChangeInv(s.(net := s.net - multiset{d}), d.party, Received(s.clients[d.party], d.text));
  }

  /** A new table that differs only in slots of `p`, and a net without `p`'s datagrams. */
  lemma TableChangeInv(s: Sys, p: int, st: State, events: seq<Event>, answer: multiset<Datagram>)
    requires Inv(s) && p in s.clients
    requires |st.tickets| == |s.server.tickets| && Accounted(st, s.log + events)
    requires OwnersKnown(st.tickets, s.clients)
    requires forall q :: q in s.clients && q != p ==> SameFor(s.server.tickets, st.tickets, q)
    requires GoodClient(st.tickets, p, s.clients[p])
    requires (forall d :: d in s.net ==> d.party != p) || answer == multiset{}
    requires forall d :: d in answer ==> d.party == p && answer == multiset{d}
    requires forall d :: d in s.net + answer && d.party == p ==> GoodDatagram(st.tickets, s.clients[p], d)
    ensures Inv(s.(server := st, log := s.log + events, net := s.net + answer))
  {
    forall q | q in s.clients && q != p
      ensures GoodClient(st.tickets, q, s.clients[q])
      ensures forall d :: d in s.net && d.party == q ==> GoodDatagram(st.tickets, s.clients[q], d)
    {
      Frame(s.server.tickets, st.tickets, q, s.clients[q]);
    }
    assert forall d :: d in s.net + answer <==> d in s.net || d in answer;
  }

  lemma ReclaimOneInv(s: Sys, i: nat)
    requires Inv(s) && i < |s.server.tickets|
    ensures Inv(Step(s, ReclaimOne(i)))
  {
    var t, p := s.server.tickets, s.server.tickets[i];
    var out := ReclaimSlot(s.server, Gone(s), i);
    ReclaimSlotKeepsAccount(s.server, s.log, Gone(s), i);
    if out.events == [] {
      assert s.log + [] == s.log;
    } else {
      assert Owns(t, p) && p in s.clients && GoodClient(t, p, s.clients[p]);
      assert s.clients[p].phase == Dead;
      assert s.net + multiset{} == s.net;
      TableChangeInv(s, p, out.st, out.events, multiset{});
    }
  }

  /** What the server may do when it handles a request of `p`: nothing changes for other clients,
      and the answer is one `p` may get in its phase. */
  predicate ServedWell(s: Sys, p: int, out: Outcome)
    requires p in s.clients
  {
    && |out.st.tickets| == |s.server.tickets|
    && OwnersKnown(out.st.tickets, s.clients)
    && (forall q :: q in s.clients && q != p ==> SameFor(s.server.tickets, out.st.tickets, q))
    && GoodClient(out.st.tickets, p, s.clients[p])
    && GoodDatagram(out.st.tickets, s.clients[p], Reply(p, out.response))
  }

  lemma HelloServed(s: Sys, p: int)
    requires Inv(s) && p in s.clients && Request(p, HelloText(p)) in s.net
    ensures ServedWell(s, p, Hello(s.server, Decimal(p)))
  {
    var t, c := s.server.tickets, s.clients[p];
    assert GoodDatagram(t, c, Request(p, HelloText(p))) && GoodClient(t, p, c);
    assert c.phase in {WaitTick, Dead} by {
      assert HelloText(p)[0] == 'H' && ValdText(c.ticket)[0] == 'V' && GbyeText(c.ticket)[0] == 'G';
    }
    AtoiDecimal(p);
    if s.server.numOut < |t| {
      FreeSlotExists(s.server, s.log);
      var u := Hello(s.server, Decimal(p)).st.tickets;
      assert u == t[FirstFree(t) := p] && u[FirstFree(t)] == p;
      assert Hello(s.server, Decimal(p)).response == TickText(p, FirstFree(t));
      assert c.phase == WaitTick ==> OwnsAtMostOne(u, p);
    }
  }

  lemma GoodbyeServed(s: Sys, p: int)
    requires Inv(s) && p in s.clients && Request(p, GbyeText(s.clients[p].ticket)) in s.net
    requires Ticketed(s.server.tickets, p, s.clients[p])
    ensures ServedWell(s, p, Goodbye(s.server, s.clients[p].ticket))
  {
    var t, c := s.server.tickets, s.clients[p];
    assert GoodDatagram(t, c, Request(p, GbyeText(c.ticket))) && GoodClient(t, p, c);
    assert c.phase in {WaitThnx, Dead} by {
      assert HelloText(p)[0] == 'H' && ValdText(c.ticket)[0] == 'V' && GbyeText(c.ticket)[0] == 'G';
    }
    var u := Goodbye(s.server, c.ticket).st.tickets;
    if Holds(t, p, c) {
      assert u == t[SlotOf(t, p, c) := AVAILABLE];
      assert c.phase == WaitThnx ==> !Owns(u, p);
    }
  }

  /** Every request in flight reaches the handlers whole, and satisfies what they assume. */
  lemma InFlightAcceptable(s: Sys, d: Datagram)
    requires Inv(s) && d in s.net && d.Request?
    ensures d.party in s.clients && AsReceived(d.text) == d.text && Acceptable(s.server, d.text)
    ensures GoodRequest(s.server.tickets, d.party, s.clients[d.party], d.text)
  {
    var p, c, t := d.party, s.clients[d.party], s.server.tickets;
    assert GoodDatagram(t, c, d) && GoodClient(t, p, c);
    assert GoodRequest(t, p, c, d.text);
    GoodRequestAcceptable(s.server, p, c, d.text);
    RequestArrivesWhole(t, p, c, d.text);
  }

  lemma AnswerInv(s: Sys, d: Datagram, out: Outcome)
    requires Inv(s) && d in s.net && d.party in s.clients
    requires ServedWell(s, d.party, out) && Accounted(out.st, s.log + out.events)
    ensures Inv(Sys(out.st, s.clients, s.net - multiset{d} + multiset{Reply(d.party, out.response)},
                    s.log + out.events))
  {
    LoseInv(s, d);
    var s1 := s.(net := s.net - multiset{d});
    TableChangeInv(s1, d.party, out.st, out.events, multiset{Reply(d.party, out.response)});
  }

  lemma ServeInv(s: Sys, d: Datagram)
    requires Inv(s) && Enabled(s, Serve(d))
    ensures Inv(Step(s, Serve(d)))
  {
    InFlightAcceptable(s, d);
    RequestOutcome(s, d);
    AnswerInv(s, d, Handle(s.server, d.text));
  }

  lemma RequestOutcome(s: Sys, d: Datagram)
    requires Inv(s) && d in s.net && d.Request? && d.party in s.clients
    requires GoodRequest(s.server.tickets, d.party, s.clients[d.party], d.text)
    requires Acceptable(s.server, d.text)
    ensures var out := Handle(s.server, d.text);
            ServedWell(s, d.party, out) && Accounted(out.st, s.log + out.events)
  {
    var p, c, t := d.party, s.clients[d.party], s.server.tickets;
    RequestArrivesWhole(t, p, c, d.text);
    AtoiDecimal(p);
    HandleKeepsAccountIff(s.server, s.log, d.text);
    if d.text == HelloText(p) {
      assert d.text[0] == 'H';
      HelloServed(s, p);
    } else if d.text == GbyeText(c.ticket) {
      assert d.text[0] == 'G';
      GoodbyeServed(s, p);
    } else {
      assert d.text[0] == 'V';
      ValidateServed(s, p);
    }
  }

  lemma ValidateServed(s: Sys, p: int)
    requires Inv(s) && p in s.clients && Request(p, ValdText(s.clients[p].ticket)) in s.net
    requires Ticketed(s.server.tickets, p, s.clients[p])
    ensures ServedWell(s, p, Validate(s.server, s.clients[p].ticket))
  {
    var t, c := s.server.tickets, s.clients[p];
    assert GoodDatagram(t, c, Request(p, ValdText(c.ticket))) && GoodClient(t, p, c);
    assert c.phase in {WaitGood, Dead} by {
      assert HelloText(p)[0] == 'H' && ValdText(c.ticket)[0] == 'V' && GbyeText(c.ticket)[0] == 'G';
    }
  }

  lemma AskInv(s: Sys, p: int)
    requires Inv(s) && p in s.clients
    ensures s.clients[p].phase == Idle ==> Inv(Send(s, p, WaitTick, HelloText(p)))
    ensures s.clients[p].phase == Holding ==> Inv(Send(s, p, WaitGood, ValdText(s.clients[p].ticket)))
    ensures s.clients[p].phase == Holding ==> Inv(Send(s, p, WaitThnx, GbyeText(s.clients[p].ticket)))
  {
    var c := s.clients[p];
    assert GoodClient(s.server.tickets, p, c);
    if c.phase == Idle {
      SendInv(s, p, WaitTick, HelloText(p));
    } else if c.phase == Holding {
      SendInv(s, p, WaitGood, ValdText(c.ticket));
      SendInv(s, p, WaitThnx, GbyeText(c.ticket));
    }
  }

  lemma StepInv(s: Sys, a: Action)
    requires Inv(s) && Enabled(s, a)
    ensures Inv(Step(s, a))
  {
    match a
    case Spawn(p) => SpawnInv(s, p);
    case SendHello(p) => AskInv(s, p);
    case SendVald(p) => AskInv(s, p);
    case SendGbye(p) => AskInv(s, p);
    case Quit(p) => ClientChangeInv(s, p, s.clients[p].(phase := Done));
    case Crash(p) => CrashInv(s, p);
    case Serve(d) => ServeInv(s, d);
    case Deliver(d) => DeliverInv(s, d);
    case Lose(d) => LoseInv(s, d);
    case ReclaimOne(i) => ReclaimOneInv(s, i);
  }

  lemma SpawnInv(s: Sys, p: int)
    requires Inv(s) && Enabled(s, Spawn(p))
    ensures Inv(Step(s, Spawn(p)))
  {
    assert !Owns(s.server.tickets, p);
    ClientChangeInv(s, p, Client(Idle, seq(MSGLEN, _ => NUL), ""));
  }

  lemma CrashInv(s: Sys, p: int)
    requires Inv(s) && Enabled(s, Crash(p))
    ensures Inv(Step(s, Crash(p)))
  {
    var t, c := s.server.tickets, s.clients[p];
    forall d | d in s.net && d.party == p ensures GoodDatagram(t, c.(phase := Dead), d) {
      assert GoodDatagram(t, c, d) && GoodClient(t, p, c);
    }
    ClientChangeInv(s, p, c.(phase := Dead));
  }

  /** Every state of every run satisfies the invariant. */
  lemma {:induction false} RunInv(n: nat, acts: seq<Action>)
    requires IsInt32(n)
    ensures Inv(Run(n, acts)) && |Run(n, acts).server.tickets| == n
  {
    if acts == [] {
      InitInv(n);
    } else {
      RunInv(n, acts[..|acts| - 1]);
      var s, a := Run(n, acts[..|acts| - 1]), acts[|acts| - 1];
      if Enabled(s, a) {
        StepInv(s, a);
      }
    }
  }

  // ---- what holds in every run --------------------------------------------------------

  /** The clients that run licensed. */
  function Licensed(s: Sys): set<int> { set p | p in s.clients && s.clients[p].phase in {Holding, WaitGood} }

  predicate HasTicket(s: Sys, p: int, slot: int) {
    p in s.clients && ScanTicket(s.clients[p].ticket) == Some((p, slot)) &&
    0 <= slot < |s.server.tickets| && s.server.tickets[slot] == p
  }

  lemma {:induction false} Pigeonhole(ps: set<int>, t: seq<int>)
    requires forall p :: p in ps ==> p in t
    ensures |ps| <= |t|
  {
    if t != [] {
      var m, last := |t| - 1, t[|t| - 1];
      assert t == t[..m] + [last];
      Pigeonhole(ps - {last}, t[..m]);
      assert ps <= (ps - {last}) + {last};
    } else {
      assert forall p :: p !in ps;
    }
  }

  /** Safety: in every state of every run at most n clients run licensed; each of them holds a ticket
      that parses to its own pid and a slot the server has recorded for it, and no two hold the same
      slot. */
  lemma AtMostNLicensed(n: nat, acts: seq<Action>)
    requires n < 0x8000_0000
    ensures var s := Run(n, acts);
            && |Licensed(s)| <= n
            && (forall p :: p in Licensed(s) ==> exists slot :: HasTicket(s, p, slot))
            && (forall p, q, slot :: HasTicket(s, p, slot) && HasTicket(s, q, slot) ==> p == q)
  {
    RunInv(n, acts);
    var s := Run(n, acts);
    var t := s.server.tickets;
    forall p | p in Licensed(s) ensures p in t && exists slot :: HasTicket(s, p, slot) {
      assert GoodClient(t, p, s.clients[p]);
      assert HasTicket(s, p, SlotOf(t, p, s.clients[p]));
    }
    Pigeonhole(Licensed(s), t);
  }

  /** A ticket for a free slot if there is one, a refusal otherwise. */
  predicate HelloAnswered(t: seq<int>, p: int, answer: string) {
    if exists i :: 0 <= i < |t| && t[i] == AVAILABLE
    then exists i :: 0 <= i < |t| && t[i] == AVAILABLE && answer == TickText(p, i)
    else answer == NO_TICKETS
  }

  /** Requests reach the server only in a form its handlers can take, and a live client is always
      answered as it should be: a holder's VALD is GOOD and its GBYE is THNX, and a HELO gets a ticket
      exactly when a slot is free. */
  lemma LiveClientsAreServed(n: nat, acts: seq<Action>, d: Datagram)
    requires IsInt32(n)
    requires d in Run(n, acts).net && d.Request?
    ensures var s := Run(n, acts);
            && d.party in s.clients && Acceptable(s.server, AsReceived(d.text))
            && AsReceived(d.text) == d.text && |d.text| < MSGLEN
            && var answer := Handle(s.server, AsReceived(d.text)).response;
               match s.clients[d.party].phase
               case WaitTick => HelloAnswered(s.server.tickets, d.party, answer)
               case WaitGood => answer == GOOD
               case WaitThnx => answer == THANKS
               case Dead => answer != CORRUPT
               case _ => false
  {
    RunInv(n, acts);
    var s := Run(n, acts);
    var p, c, t := d.party, s.clients[d.party], s.server.tickets;
    InFlightAcceptable(s, d);
    RequestArrivesWhole(t, p, c, d.text);
    NeverCorrupt(s.server, s.log, d.text);
    assert GoodDatagram(t, c, d) && GoodClient(t, p, c);
    if c.phase == WaitTick {
      HelloAnswer(s.server, s.log, p);
    } else if c.phase == WaitGood {
      assert d.text[0] == 'V';
    } else if c.phase == WaitThnx {
      assert d.text[0] == 'G';
    }
  }

  lemma HelloAnswer(st: State, log: seq<Event>, p: int)
    requires Accounted(st, log)
    ensures HelloAnswered(st.tickets, p, Hello(st, Decimal(p)).response)
  {
    AtoiDecimal(p);
    AccountBalances(|st.tickets|, log);
    OccupiedBounds(st.tickets);
    var x := FirstFree(st.tickets);
    if x < |st.tickets| {
      assert Hello(st, Decimal(p)).response == TickText(p, x);
    }
  }

  predicate TicketInReply(t: seq<int>, d: Datagram) {
    exists slot :: 0 <= slot < |t| && t[slot] == d.party && d.text == TickText(d.party, slot)
  }

  /** Replies in flight to a live client are the ones its transaction waits for. */
  lemma LiveClientsHear(n: nat, acts: seq<Action>, d: Datagram)
    requires IsInt32(n)
    requires d in Run(n, acts).net && d.Reply?
    ensures var s := Run(n, acts);
            && d.party in s.clients
            && match s.clients[d.party].phase
               case WaitTick => d.text == NO_TICKETS || TicketInReply(s.server.tickets, d)
               case WaitGood => d.text == GOOD
               case WaitThnx => d.text == THANKS
               case Dead => true
               case _ => false
  {
    RunInv(n, acts);
    var s := Run(n, acts);
    assert GoodDatagram(s.server.tickets, s.clients[d.party], d);
  }

  /** Conservation over every run: the counter is the number of occupied slots and equals grants minus
      releases minus reclaims, and releases and reclaims match grants one to one, each ending the last
      grant of its slot to its process. */
  lemma TicketsAreConserved(n: nat, acts: seq<Action>) returns (grant: map<nat, nat>)
    requires IsInt32(n)
    ensures var s := Run(n, acts);
            && s.server.numOut == Occupied(s.server.tickets) == Grants(s.log) - Releases(s.log) - Reclaims(s.log)
            && MatchesEnds(s.log, grant)
            && (forall i, j, k :: EndsGrant(s.log, i, k) && EndsGrant(s.log, j, k) ==> i == j)
  {
    RunInv(n, acts);
    var s := Run(n, acts);
    AccountBalances(n, s.log);
    grant := EndsMatchGrants(n, s.log);
    forall i, j, k | EndsGrant(s.log, i, k) && EndsGrant(s.log, j, k) ensures i == j {
      GrantEndsOnce(s.log, i, j, k);
    }
  }

  /** Nothing is held up: in every run each request in flight can be served, each reply to a live client
      delivered, any datagram lost, and its client may crash; and a loss takes away just that datagram, a
      crash nothing but the life of that client. */
  lemma NothingIsHeldUp(n: nat, acts: seq<Action>, d: Datagram)
    requires IsInt32(n) && d in Run(n, acts).net
    ensures var s := Run(n, acts);
            && d.party in s.clients && Enabled(s, Lose(d)) && Enabled(s, Crash(d.party))
            && (d.Request? ==> Enabled(s, Serve(d)))
            && (d.Reply? && s.clients[d.party].phase != Dead ==> Enabled(s, Deliver(d)))
            && d !in Step(s, Lose(d)).net && Step(s, Lose(d)) == s.(net := s.net - multiset{d})
            && InPhase(Step(s, Crash(d.party)), d.party, Dead)
            && Step(s, Crash(d.party)) == s.(clients := s.clients[d.party := s.clients[d.party].(phase := Dead)])
  {
    RunInv(n, acts);
    var s := Run(n, acts);
    assert GoodDatagram(s.server.tickets, s.clients[d.party], d);
    if d.Request? {
      InFlightAcceptable(s, d);
    }
  }

  /** Between s and s' the reclaimer has looked at slot i: it was freed if its owner, a known client, had
      crashed, and nothing else has changed. */
  predicate LookedAt(s: Sys, s': Sys, i: nat)
    requires i < |s.server.tickets|
  {
    var t := s.server.tickets;
    && s'.clients == s.clients && s'.net == s.net
    && (t[i] != 0 ==> t[i] in s.clients && s.clients[t[i]].phase != Done)
    && s'.server.tickets == if t[i] != 0 && s.clients[t[i]].phase == Dead then t[i := 0] else t
  }

  lemma ReclaimOneLooks(s: Sys, i: nat)
    requires Inv(s) && i < |s.server.tickets|
    ensures LookedAt(s, Step(s, ReclaimOne(i)), i)
  {
    var t := s.server.tickets;
    if t[i] != AVAILABLE {
      assert t[i] in s.clients && Owns(t, t[i]);
      assert GoodClient(t, t[i], s.clients[t[i]]);
    }
  }

  /** What the reclaimer does to a slot in any run: it may look at any time, frees the slot if its owner has
      crashed, leaves it if the owner lives, and touches no other. */
  lemma ReclaimFreesTheCrashed(n: nat, acts: seq<Action>, i: nat)
    requires IsInt32(n) && i < n
    ensures |Run(n, acts).server.tickets| == n && Enabled(Run(n, acts), ReclaimOne(i))
    ensures LookedAt(Run(n, acts), Step(Run(n, acts), ReclaimOne(i)), i)
  {
    RunInv(n, acts);
    ReclaimOneLooks(Run(n, acts), i);
  }

  /** A client that was refused leaves without a slot. */
  lemma RefusedClientsQuit(n: nat, acts: seq<Action>, p: int)
    requires IsInt32(n) && InPhase(Run(n, acts), p, Idle)
    ensures Enabled(Run(n, acts), Quit(p))
    ensures var s, s' := Run(n, acts), Step(Run(n, acts), Quit(p));
            InPhase(s', p, Done) && !Owns(s.server.tickets, p) && s'.server == s.server && s'.net == s.net
  {
    RunInv(n, acts);
    assert GoodClient(Run(n, acts).server.tickets, p, Run(n, acts).clients[p]);
  }

  // ---- the bound is reached -----------------------------------------------------------

  lemma RunExtend(n: nat, acts: seq<Action>, a: Action)
    ensures Run(n, acts + [a]) == if Enabled(Run(n, acts), a) then Step(Run(n, acts), a) else Run(n, acts)
  {
    assert (acts + [a])[..|acts|] == acts;
  }

  lemma AskForTicket(n: nat, acts: seq<Action>, p: int) returns (more: seq<Action>)
    requires 0 < p && IsInt32(p) && p !in Run(n, acts).clients
    ensures var s := Run(n, acts);
            var waiting := Client(WaitTick, seq(MSGLEN, _ => NUL), "");
            Run(n, more) == s.(clients := s.clients[p := waiting], net := s.net + multiset{Request(p, HelloText(p))})
  {
    var s := Run(n, acts);
    RunExtend(n, acts, Spawn(p));
    more := acts + [Spawn(p)];
    RunExtend(n, more, SendHello(p));
    more := more + [SendHello(p)];
    var waiting := Client(WaitTick, seq(MSGLEN, _ => NUL), "");
    assert s.clients[p := waiting.(phase := Idle)][p := waiting] == s.clients[p := waiting];
  }

  lemma HelloHandled(st: State, p: int)
    requires IsInt32(p)
    ensures Acceptable(st, AsReceived(HelloText(p)))
    ensures Handle(st, AsReceived(HelloText(p))) == Hello(st, Decimal(p))
  {
    var c := Client(Idle, "", "");
    GoodRequestAcceptable(st, p, c, HelloText(p));
    RequestArrivesWhole(st.tickets, p, c, HelloText(p));
  }

  lemma GrantStep(s: Sys, p: int) returns (slot: nat)
    requires Accounted(s.server, s.log) && s.server.numOut < |s.server.tickets|
    requires IsInt32(p) && Request(p, HelloText(p)) in s.net
    ensures Enabled(s, Serve(Request(p, HelloText(p)))) && slot < |s.server.tickets|
    ensures Step(s, Serve(Request(p, HelloText(p)))) ==
            Sys(State(s.server.tickets[slot := p], s.server.numOut + 1), s.clients,
                s.net - multiset{Request(p, HelloText(p))} + multiset{Reply(p, TickText(p, slot))},
                s.log + [Granted(p, slot)])
  {
    FreeSlotExists(s.server, s.log);
    AtoiDecimal(p);
    slot := FirstFree(s.server.tickets);
    HelloHandled(s.server, p);
  }

  lemma GrantTicket(n: nat, acts: seq<Action>, p: int) returns (more: seq<Action>, slot: nat)
    requires IsInt32(n) && IsInt32(p) && Run(n, acts).server.numOut < n
    requires Request(p, HelloText(p)) in Run(n, acts).net
    ensures var s, s' := Run(n, acts), Run(n, more);
            && s'.clients == s.clients && s'.server.numOut == s.server.numOut + 1
            && Reply(p, TickText(p, slot)) in s'.net
            && slot < n && |s'.server.tickets| == n && s'.server.tickets[slot] == p
  {
    var s, a := Run(n, acts), Serve(Request(p, HelloText(p)));
    assert Accounted(s.server, s.log) && |s.server.tickets| == n by { RunInv(n, acts); }
    slot := GrantStep(s, p);
    RunExtend(n, acts, a);
    more := acts + [a];
  }

  lemma TickDelivered(s: Sys, p: int, slot: nat)
    requires Inv(s) && InPhase(s, p, WaitTick) && Reply(p, TickText(p, slot)) in s.net
    requires slot < |s.server.tickets| && s.server.tickets[slot] == p
    ensures Enabled(s, Deliver(Reply(p, TickText(p, slot))))
    ensures var s' := Step(s, Deliver(Reply(p, TickText(p, slot))));
            s'.server == s.server && InPhase(s', p, Holding) && s'.clients == s.clients[p := s'.clients[p]]
  {
    TickReceived(s.server.tickets, p, s.clients[p], slot);
  }

  lemma TakeTicket(n: nat, acts: seq<Action>, p: int, slot: nat) returns (more: seq<Action>)
    requires IsInt32(n) && InPhase(Run(n, acts), p, WaitTick)
    requires Reply(p, TickText(p, slot)) in Run(n, acts).net
    requires slot < |Run(n, acts).server.tickets| && Run(n, acts).server.tickets[slot] == p
    ensures var s, s' := Run(n, acts), Run(n, more);
            s'.server == s.server && InPhase(s', p, Holding) && s'.clients == s.clients[p := s'.clients[p]]
  {
    var tick := Deliver(Reply(p, TickText(p, slot)));
    RunInv(n, acts);
    TickDelivered(Run(n, acts), p, slot);
    RunExtend(n, acts, tick);
    more := acts + [tick];
  }

  /** From any run with a free slot and an unused pid, four steps later that pid holds a ticket and
      everybody else is as before. */
  lemma TicketCanBeHad(n: nat, acts: seq<Action>, p: int) returns (more: seq<Action>)
    requires IsInt32(n) && 0 < p < 0x8000_0000
    requires p !in Run(n, acts).clients && Run(n, acts).server.numOut < n
    ensures var s, s' := Run(n, acts), Run(n, more);
            && s'.server.numOut == s.server.numOut + 1
            && InPhase(s', p, Holding) && s'.clients == s.clients[p := s'.clients[p]]
  {
    more := AskForTicket(n, acts, p);
    var slot;
    more, slot := GrantTicket(n, more, p);
    more := TakeTicket(n, more, p, slot);
  }

  /** The server answers a request that a holder has put on the net. */
  lemma AskedIsServed(s: Sys, p: int, phase: Phase, text: string)
    requires p in s.clients && Inv(Send(s, p, phase, text))
    ensures Acceptable(s.server, text) && Enabled(Send(s, p, phase, text), Serve(Request(p, text)))
    ensures var out := Handle(s.server, text);
            Step(Send(s, p, phase, text), Serve(Request(p, text))) ==
            Sys(out.st, s.clients[p := s.clients[p].(phase := phase)], s.net + multiset{Reply(p, out.response)},
                s.log + out.events)
  {
    var asked, d := Send(s, p, phase, text), Request(p, text);
    assert d in asked.net && asked.server == s.server;
    assert Acceptable(s.server, text) && AsReceived(text) == text by { InFlightAcceptable(asked, d); }
    assert asked.net - multiset{d} == s.net;
  }

  /** The holder hears the answer. */
  lemma AnswerIsHeard(s: Sys, p: int, text: string, net: multiset<Datagram>)
    requires p in s.clients && s.clients[p].phase in {WaitGood, WaitThnx} && s.net == net + multiset{Reply(p, text)}
    ensures Enabled(s, Deliver(Reply(p, text)))
    ensures Step(s, Deliver(Reply(p, text))) == Sys(s.server, s.clients[p := Received(s.clients[p], text)], net, s.log)
  {
    assert Reply(p, text) in s.net && s.net - multiset{Reply(p, text)} == net;
  }

  lemma AskInRun(n: nat, acts: seq<Action>, p: int, a: Action, phase: Phase, text: string) returns (more: seq<Action>)
    requires var s := Run(n, acts);
             p in s.clients && Enabled(s, a) && Step(s, a) == Send(s, p, phase, text) && Inv(Send(s, p, phase, text))
    ensures Acceptable(Run(n, acts).server, text)
    ensures var s := Run(n, acts);
            var out := Handle(s.server, text);
            Run(n, more) == Sys(out.st, s.clients[p := s.clients[p].(phase := phase)],
                                s.net + multiset{Reply(p, out.response)}, s.log + out.events)
  {
    AskedIsServed(Run(n, acts), p, phase, text);
    RunExtend(n, acts, a);
    RunExtend(n, acts + [a], Serve(Request(p, text)));
    more := acts + [a] + [Serve(Request(p, text))];
  }

  lemma HearInRun(n: nat, acts: seq<Action>, p: int, text: string, net: multiset<Datagram>) returns (more: seq<Action>)
    requires var s := Run(n, acts);
             p in s.clients && s.clients[p].phase in {WaitGood, WaitThnx} && s.net == net + multiset{Reply(p, text)}
    ensures var s := Run(n, acts);
            Run(n, more) == Sys(s.server, s.clients[p := Received(s.clients[p], text)], net, s.log)
  {
    AnswerIsHeard(Run(n, acts), p, text, net);
    RunExtend(n, acts, Deliver(Reply(p, text)));
    more := acts + [Deliver(Reply(p, text))];
  }

  /** A holder asks, the server answers, the holder hears it. */
  lemma AskAndHear(n: nat, acts: seq<Action>, p: int, a: Action, phase: Phase, text: string) returns (more: seq<Action>)
    requires var s := Run(n, acts);
             p in s.clients && Enabled(s, a) && Step(s, a) == Send(s, p, phase, text) && Inv(Send(s, p, phase, text))
    requires phase == WaitGood || phase == WaitThnx
    ensures Acceptable(Run(n, acts).server, text)
    ensures var s := Run(n, acts);
            var out := Handle(s.server, text);
            Run(n, more) ==
            Sys(out.st, s.clients[p := Received(s.clients[p].(phase := phase), out.response)], s.net,
                s.log + out.events)
  {
    var s := Run(n, acts);
    more := AskInRun(n, acts, p, a, phase, text);
    more := HearInRun(n, more, p, Handle(s.server, text).response, s.net);
    UpdateTwice(s.clients, p, s.clients[p].(phase := phase),
                Received(s.clients[p].(phase := phase), Handle(s.server, text).response));
  }

  lemma UpdateTwice(clients: map<int, Client>, p: int, c: Client, d: Client)
    ensures clients[p := c][p := d] == clients[p := d]
  {
  }

  lemma GoodHeard(c: Client)
    requires |c.reply| == MSGLEN
    ensures Received(c.(phase := WaitGood), GOOD) == c.(phase := Holding, reply := Receive(c.reply, GOOD))
  {
    assert Receive(c.reply, GOOD)[..4] == "GOOD";
  }

  lemma HolderIsGood(s: Sys, p: int)
    requires Inv(s) && InPhase(s, p, Holding)
    ensures var c := s.clients[p]; Holds(s.server.tickets, p, c) && |c.reply| == MSGLEN && 0 < p && IsInt32(p)
  {
    assert GoodClient(s.server.tickets, p, s.clients[p]);
  }

  /** What the server does for a holder's VALD. */
  lemma ValdAnswered(st: State, p: int, c: Client)
    requires Holds(st.tickets, p, c) && IsInt32(p)
    ensures Acceptable(st, ValdText(c.ticket)) && Handle(st, ValdText(c.ticket)) == Outcome(st, GOOD, [])
  {
    var text := ValdText(c.ticket);
    assert Acceptable(st, text) && HasPrefix(text, "VALD") && text[5..] == c.ticket by {
      RequestArrivesWhole(st.tickets, p, c, text);
      GoodRequestAcceptable(st, p, c, text);
    }
    OneKeyword(text);
    assert Handle(st, text) == Validate(st, c.ticket);
  }

  /** And for its GBYE. */
  lemma GbyeAnswered(st: State, p: int, c: Client) returns (slot: nat)
    requires Holds(st.tickets, p, c) && IsInt32(p)
    ensures slot < |st.tickets| && st.tickets[slot] == p && ScanTicket(c.ticket) == Some((p, slot))
    ensures Acceptable(st, GbyeText(c.ticket))
    ensures Handle(st, GbyeText(c.ticket)) ==
            Outcome(State(st.tickets[slot := AVAILABLE], st.numOut - 1), THANKS, [Released(p, slot)])
  {
    var text := GbyeText(c.ticket);
    slot := SlotOf(st.tickets, p, c);
    assert Acceptable(st, text) && HasPrefix(text, "GBYE") && text[5..] == c.ticket by {
      RequestArrivesWhole(st.tickets, p, c, text);
      GoodRequestAcceptable(st, p, c, text);
    }
    OneKeyword(text);
    assert Handle(st, text) == Goodbye(st, c.ticket);
    assert OwnedSlot(st, c.ticket) == Some(slot);
  }

  /** p holds on, and all that is different in s' is its reply buffer. */
  predicate Checked(s: Sys, s': Sys, p: int) {
    && InPhase(s, p, Holding) && InPhase(s', p, Holding)
    && s'.clients == s.clients[p := s.clients[p].(reply := s'.clients[p].reply)]
    && s'.server == s.server && s'.net == s.net && s'.log == s.log
  }

  lemma HolderIsChecked(s: Sys, p: int) returns (s': Sys)
    requires InPhase(s, p, Holding) && |s.clients[p].reply| == MSGLEN
    ensures s' == Sys(s.server, s.clients[p := Received(s.clients[p].(phase := WaitGood), GOOD)], s.net, s.log + [])
    ensures Checked(s, s', p)
  {
    GoodHeard(s.clients[p]);
    s' := Sys(s.server, s.clients[p := Received(s.clients[p].(phase := WaitGood), GOOD)], s.net, s.log + []);
  }

  /** A holder's VALD goes through: it holds on, and nothing else is different afterwards. */
  lemma TicketCanBeChecked(n: nat, acts: seq<Action>, p: int) returns (more: seq<Action>)
    requires IsInt32(n) && InPhase(Run(n, acts), p, Holding)
    ensures Checked(Run(n, acts), Run(n, more), p)
  {
    var s := Run(n, acts);
    assert Inv(s) by { RunInv(n, acts); }
    HolderIsGood(s, p);
    ValdAnswered(s.server, p, s.clients[p]);
    AskInv(s, p);
    more := AskAndHear(n, acts, p, SendVald(p), WaitGood, ValdText(s.clients[p].ticket));
    var s' := HolderIsChecked(s, p);
  }

  /** p is done, and exactly its slot is free again. */
  predicate GivenBack(s: Sys, s': Sys, p: int, slot: nat) {
    && HasTicket(s, p, slot) && s'.server == State(s.server.tickets[slot := 0], s.server.numOut - 1)
    && InPhase(s', p, Done) && s'.clients == s.clients[p := s'.clients[p]] && s'.net == s.net
    && s'.log == s.log + [Released(p, slot)]
  }

  lemma HolderIsDone(s: Sys, p: int, slot: nat) returns (s': Sys)
    requires HasTicket(s, p, slot)
    ensures s' == Sys(State(s.server.tickets[slot := AVAILABLE], s.server.numOut - 1),
                      s.clients[p := Received(s.clients[p].(phase := WaitThnx), THANKS)], s.net,
                      s.log + [Released(p, slot)])
    ensures GivenBack(s, s', p, slot)
  {
    s' := Sys(State(s.server.tickets[slot := AVAILABLE], s.server.numOut - 1),
              s.clients[p := Received(s.clients[p].(phase := WaitThnx), THANKS)], s.net,
              s.log + [Released(p, slot)]);
  }

  /** A ticket can be given back: the holder is done, and exactly its slot is free again. */
  lemma TicketCanBeGivenBack(n: nat, acts: seq<Action>, p: int) returns (more: seq<Action>, slot: nat)
    requires IsInt32(n) && InPhase(Run(n, acts), p, Holding)
    ensures GivenBack(Run(n, acts), Run(n, more), p, slot)
  {
    var s := Run(n, acts);
    assert Inv(s) by { RunInv(n, acts); }
    HolderIsGood(s, p);
    slot := GbyeAnswered(s.server, p, s.clients[p]);
    AskInv(s, p);
    more := AskAndHear(n, acts, p, SendGbye(p), WaitThnx, GbyeText(s.clients[p].ticket));
    var s' := HolderIsDone(s, p, slot);
  }

  /** Clients 1 to k exist, and all of them hold tickets. */
  ghost predicate FirstHold(s: Sys, k: nat) {
    |Licensed(s)| == k == s.server.numOut && forall p :: p in s.clients <==> 0 < p <= k
  }

  lemma OneMoreHolds(s: Sys, s': Sys, k: nat)
    requires FirstHold(s, k) && s'.server.numOut == s.server.numOut + 1
    requires InPhase(s', k + 1, Holding) && s'.clients == s.clients[k + 1 := s'.clients[k + 1]]
    ensures FirstHold(s', k + 1)
  {
    assert Licensed(s') == Licensed(s) + {k + 1};
  }

  /** The limit is exact: for every n some run has all n tickets in use. */
  lemma {:induction false} AllTicketsCanBeOut(n: nat, k: nat) returns (acts: seq<Action>)
    requires IsInt32(n) && k <= n
    ensures FirstHold(Run(n, acts), k)
  {
    if k == 0 {
      acts := [];
    } else {
      var before := AllTicketsCanBeOut(n, k - 1);
      acts := TicketCanBeHad(n, before, k);
      OneMoreHolds(Run(n, before), Run(n, acts), k - 1);
    }
  }
}
