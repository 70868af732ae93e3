/**
 The clients and the network of LicenseSystem around the statement-level server of SignalServer: any
 client action, loss or delivery may come between two statements of main or of the signal handler, and
 the handler sees who is dead at the moment it looks.  The whole refines LicenseSystem, so what holds of
 the system with an atomic server holds of the system as it runs.
 */
module SignalSystem {
  import opened Wrappers
  import opened CText
  import opened LicenseServer
  import Sys = LicenseSystem
  import Fine = SignalServer

  /** `party` is the client whose request main has in hand. */
  datatype Whole = Whole(server: Fine.Fine, clients: map<int, Sys.Client>, net: multiset<Sys.Datagram>, party: int)

  datatype Action =
    | Outside(c: Sys.Action)   // a client or the network
    | Arrive(d: Sys.Datagram)  // recvfrom returns in the server
    | Inside(b: Fine.Action)   // a statement of main or of the handler, or a second passing

  predicate IsOutside(a: Sys.Action) { !a.Serve? && !a.ReclaimOne? }

  predicate IsInside(a: Fine.Action) { a.Next? || a.HandlerNext? || a.Tick? }

  /** All but the server. */
  function Around(w: Whole): Sys.Sys { Sys.Sys(State([], 0), w.clients, w.net, []) }

  function Departed(clients: map<int, Sys.Client>): set<int> {
    set p | p in clients && clients[p].phase in {Sys.Done, Sys.Dead}
  }

  predicate Enabled(w: Whole, a: Action) {
    match a
    case Outside(c) => IsOutside(c) && Sys.Enabled(Around(w), c)
    case Arrive(d) => d in w.net && d.Request? && Fine.Enabled(w.server, Fine.Arrive(Sys.AsReceived(d.text)))
    case Inside(b) => IsInside(b) && Fine.Enabled(w.server, b)
  }

  /** What sendto puts on the net. */
  function Sent(w: Whole, a: Fine.Action): multiset<Sys.Datagram> {
    if a.Next? && w.server.pc.Respond? then multiset{Sys.Reply(w.party, w.server.pc.reply)} else multiset{}
  }

  function Step(w: Whole, a: Action): Whole
    requires Enabled(w, a)
  {
    match a
    case Outside(c) =>
      var s := Sys.Step(Around(w), c);
      Whole(w.server.(gone := Departed(s.clients)), s.clients, s.net, w.party)
    case Arrive(d) =>
      Whole(Fine.Step(w.server, Fine.Arrive(Sys.AsReceived(d.text))), w.clients, w.net - multiset{d}, d.party)
    case Inside(b) => w.(server := Fine.Step(w.server, b), net := w.net + Sent(w, b))
  }

  function Run(n: nat, acts: seq<Action>): Whole {
    if acts == [] then Whole(Fine.Run(n, []), map[], multiset{}, 0)
    else
      var w, a := Run(n, acts[..|acts| - 1]), acts[|acts| - 1];
      if Enabled(w, a) then Step(w, a) else w
  }

  // ---- the refinement -----------------------------------------------------------------

  /** The request in hand as long as it has not taken effect, then the answer to it until it is sent. */
  function InHand(f: Fine.Fine, party: int): multiset<Sys.Datagram> {
    match f.pc
    case Got(req) => multiset{Sys.Request(party, req)}
    case Dispatch(req) => multiset{Sys.Request(party, req)}
    case Scan(req, _) => multiset{Sys.Request(party, req)}
    case StorePid(req, _) => multiset{Sys.Request(party, req)}
    case ClearSlot(req, _) => multiset{Sys.Request(party, req)}
    case _ => if Fine.PendingReply(f) == [] then multiset{} else multiset{Sys.Reply(party, Fine.PendingReply(f)[0].1)}
  }

  predicate Refines(w: Whole, s: Sys.Sys) {
    && Fine.Inv(w.server) && w.server.gone == Departed(w.clients)
    && s.clients == w.clients
    && s.server == Fine.Abs(w.server).st
    && s.net == w.net + InHand(w.server, w.party)
  }

  /** A client or the network takes no notice of the server or of datagrams it does not touch. */
  lemma WithMoreInHand(a: Sys.Sys, s: Sys.Sys, c: Sys.Action, hand: multiset<Sys.Datagram>)
    requires IsOutside(c) && Sys.Enabled(a, c) && s.clients == a.clients && s.net == a.net + hand
    ensures Sys.Enabled(s, c) && Sys.Step(s, c).server == s.server
    ensures Sys.Step(s, c).clients == Sys.Step(a, c).clients
    ensures Sys.Step(s, c).net == Sys.Step(a, c).net + hand
  {
    match c
    case Deliver(d) => MovesOut(a.net, d, hand);
    case Lose(d) => MovesOut(a.net, d, hand);
    case SendHello(p) => MovesIn(a.net, Sys.Request(p, Sys.HelloText(p)), hand);
    case SendVald(p) => MovesIn(a.net, Sys.Request(p, Sys.ValdText(a.clients[p].ticket)), hand);
    case SendGbye(p) => MovesIn(a.net, Sys.Request(p, Sys.GbyeText(a.clients[p].ticket)), hand);
    case _ =>
  }

  lemma MovesIn(net: multiset<Sys.Datagram>, d: Sys.Datagram, hand: multiset<Sys.Datagram>)
    ensures net + hand + multiset{d} == net + multiset{d} + hand
  {
  }

  lemma MovesOut(net: multiset<Sys.Datagram>, d: Sys.Datagram, hand: multiset<Sys.Datagram>)
    requires d in net
    ensures net + hand - multiset{d} == net - multiset{d} + hand
  {
  }

  lemma GoneIsApart(f: Fine.Fine, gone: set<int>, party: int)
    ensures var f' := f.(gone := gone);
            (Fine.Inv(f) ==> Fine.Inv(f')) && Fine.Abs(f').st == Fine.Abs(f).st && InHand(f', party) == InHand(f, party)
  {
  }

  lemma OutsideRefines(w: Whole, s: Sys.Sys, c: Sys.Action)
    requires Refines(w, s) && Enabled(w, Outside(c))
    ensures Sys.Enabled(s, c) && Refines(Step(w, Outside(c)), Sys.Step(s, c))
  {
    WithMoreInHand(Around(w), s, c, InHand(w.server, w.party));
    GoneIsApart(w.server, Departed(Sys.Step(Around(w), c).clients), w.party);
  }

  lemma ArriveEffect(f: Fine.Fine, req: string, before: int, party: int)
    requires Fine.Inv(f) && Fine.Enabled(f, Fine.Arrive(req))
    ensures var f' := Fine.Step(f, Fine.Arrive(req));
            && Fine.Inv(f') && f'.gone == f.gone && Fine.Abs(f').st == Fine.Abs(f).st
            && InHand(f, before) == multiset{} && InHand(f', party) == multiset{Sys.Request(party, req)}
  {
    Fine.StepRefines(f, Fine.Arrive(req));
  }

  lemma ArriveRefines(w: Whole, s: Sys.Sys, d: Sys.Datagram)
    requires Sys.Inv(s) && Refines(w, s) && Enabled(w, Arrive(d))
    ensures Refines(Step(w, Arrive(d)), s)
  {
    assert d in s.net && Sys.AsReceived(d.text) == d.text by { Sys.InFlightAcceptable(s, d); }
    ArriveEffect(w.server, d.text, w.party, d.party);
    assert w.net + multiset{} == w.net == w.net - multiset{d} + multiset{d};
  }

  lemma ServeIs(s: Sys.Sys, d: Sys.Datagram)
    requires Sys.Inv(s) && d in s.net && d.Request?
    ensures Acceptable(s.server, d.text) && Sys.AsReceived(d.text) == d.text && Sys.Enabled(s, Sys.Serve(d))
    ensures var out, s' := Handle(s.server, d.text), Sys.Step(s, Sys.Serve(d));
            && s'.server == out.st && s'.clients == s.clients
            && s'.net == s.net - multiset{d} + multiset{Sys.Reply(d.party, out.response)}
  {
    Sys.InFlightAcceptable(s, d);
  }

  lemma NextServes(w: Whole, s: Sys.Sys, req: string)
    requires Sys.Inv(s) && Refines(w, s) && Enabled(w, Inside(Fine.Next))
    requires Fine.Effect(w.server, Fine.Next) == Fine.Serve(req)
    ensures var c := Sys.Serve(Sys.Request(w.party, req));
            Sys.Enabled(s, c) && Refines(Step(w, Inside(Fine.Next)), Sys.Step(s, c))
  {
    var d := Sys.Request(w.party, req);
    TakesEffect(w.server, req, w.party);
    assert d in s.net;
    ServeIs(s, d);
    assert s.net - multiset{d} == w.net && w.net + multiset{} == w.net;
  }

  /** Main's next statement either lets the request in hand take effect, or changes nothing that the
      system can see. */
  lemma NextRefines(w: Whole, s: Sys.Sys) returns (b: Option<Sys.Action>)
    requires Sys.Inv(s) && Refines(w, s) && Enabled(w, Inside(Fine.Next))
    ensures match b
            case None => Refines(Step(w, Inside(Fine.Next)), s)
            case Some(c) => Sys.Enabled(s, c) && Refines(Step(w, Inside(Fine.Next)), Sys.Step(s, c))
  {
    match Fine.Effect(w.server, Fine.Next)
    case Serve(req) =>
      NextServes(w, s, req);
      b := Some(Sys.Serve(Sys.Request(w.party, req)));
    case _ =>
      Unseen(w.server, w.party);
      b := None;
  }

  lemma TakesEffect(f: Fine.Fine, req: string, party: int)
    requires Fine.Inv(f) && Fine.Enabled(f, Fine.Next) && Fine.Effect(f, Fine.Next) == Fine.Serve(req)
    ensures InHand(f, party) == multiset{Sys.Request(party, req)} && !f.pc.Respond?
    ensures Fine.Abs(f).st == Fine.Table(f) && Acceptable(Fine.Table(f), req)
    ensures var f', out := Fine.Step(f, Fine.Next), Handle(Fine.Table(f), req);
            && Fine.Inv(f') && f'.gone == f.gone
            && Fine.Abs(f').st == out.st && InHand(f', party) == multiset{Sys.Reply(party, out.response)}
  {
    Fine.StepRefines(f, Fine.Next);
    var f', out := Fine.Step(f, Fine.Next), Handle(Fine.Table(f), req);
    assert f.sent + Fine.PendingReply(f') == f.sent + [(req, out.response)];
    assert Fine.PendingReply(f') == (f.sent + Fine.PendingReply(f'))[|f.sent|..];
  }

  lemma Unseen(f: Fine.Fine, party: int)
    requires Fine.Inv(f) && Fine.Enabled(f, Fine.Next) && Fine.Effect(f, Fine.Next) == Fine.Stutter
    ensures var f' := Fine.Step(f, Fine.Next);
            && Fine.Inv(f') && f'.gone == f.gone && Fine.Abs(f').st == Fine.Abs(f).st
            && InHand(f, party) == InHand(f', party)
                                   + if f.pc.Respond? then multiset{Sys.Reply(party, f.pc.reply)} else multiset{}
  {
    Fine.StepRefines(f, Fine.Next);
  }

  /** The handler looks at a slot: whoever it finds dead is dead in the system too. */
  lemma LookRefines(w: Whole, s: Sys.Sys, i: nat)
    requires Sys.Inv(s) && Refines(w, s) && i < |s.server.tickets|
    ensures Fine.LookAt(Fine.Abs(w.server), i).st == ReclaimSlot(s.server, Sys.Gone(s), i).st
  {
    var pid := s.server.tickets[i];
    assert pid != AVAILABLE ==> pid in s.clients;
    assert pid != AVAILABLE ==> (pid in w.server.gone <==> Sys.Gone(s)(pid));
  }

  lemma HandlerEffect(f: Fine.Fine, party: int)
    requires Fine.Inv(f) && Fine.Enabled(f, Fine.HandlerNext)
    ensures var f', h := Fine.Step(f, Fine.HandlerNext), f.handler.value;
            && Fine.Inv(f') && f'.gone == f.gone && InHand(f', party) == InHand(f, party)
            && Fine.Abs(f').st == if h.Visit? && h.i < |f.tickets| then Fine.LookAt(Fine.Abs(f), h.i).st
                                  else Fine.Abs(f).st
  {
    Fine.StepRefines(f, Fine.HandlerNext);
  }

  lemma HandlerRefines(w: Whole, s: Sys.Sys) returns (b: Option<Sys.Action>)
    requires Sys.Inv(s) && Refines(w, s) && Enabled(w, Inside(Fine.HandlerNext))
    ensures match b
            case None => Refines(Step(w, Inside(Fine.HandlerNext)), s)
            case Some(c) => Sys.Enabled(s, c) && Refines(Step(w, Inside(Fine.HandlerNext)), Sys.Step(s, c))
  {
    var h := w.server.handler.value;
    HandlerEffect(w.server, w.party);
    assert w.net + multiset{} == w.net;
    if h.Visit? && h.i < |w.server.tickets| {
      LookRefines(w, s, h.i);
      b := Some(Sys.ReclaimOne(h.i));
    } else {
      b := None;
    }
  }

  lemma TickEffect(f: Fine.Fine, party: int)
    requires Fine.Inv(f) && Fine.Enabled(f, Fine.Tick)
    ensures var f' := Fine.Step(f, Fine.Tick);
            && Fine.Inv(f') && f'.gone == f.gone
            && Fine.Abs(f').st == Fine.Abs(f).st && InHand(f', party) == InHand(f, party)
  {
    Fine.StepRefines(f, Fine.Tick);
  }

  lemma TickRefines(w: Whole, s: Sys.Sys)
    requires Refines(w, s) && Enabled(w, Inside(Fine.Tick))
    ensures Refines(Step(w, Inside(Fine.Tick)), s)
  {
    TickEffect(w.server, w.party);
    assert w.net + multiset{} == w.net;
  }

  /** Every step of the whole is one step of the system, or none. */
  lemma StepRefines(w: Whole, s: Sys.Sys, a: Action) returns (b: Option<Sys.Action>)
    requires Sys.Inv(s) && Refines(w, s) && Enabled(w, a)
    ensures match b
            case None => Refines(Step(w, a), s)
            case Some(c) => Sys.Enabled(s, c) && Refines(Step(w, a), Sys.Step(s, c))
  {
    match a
    case Outside(c) =>
      OutsideRefines(w, s, c);
      b := Some(c);
    case Arrive(d) =>
      ArriveRefines(w, s, d);
      b := None;
    case Inside(Next) => b := NextRefines(w, s);
    case Inside(HandlerNext) => b := HandlerRefines(w, s);
    case Inside(Tick) =>
      TickRefines(w, s);
      b := None;
  }

  /** Every run of the whole has a run of LicenseSystem with the same clients, the same table, and the
      same datagrams, the one in the server's hands included. */
  lemma {:induction false} RunRefines(n: nat, acts: seq<Action>) returns (atomic: seq<Sys.Action>)
    requires IsInt32(n)
    ensures Refines(Run(n, acts), Sys.Run(n, atomic))
  {
    if acts == [] {
      atomic := [];
    } else {
      var w, a := Run(n, acts[..|acts| - 1]), acts[|acts| - 1];
      atomic := RunRefines(n, acts[..|acts| - 1]);
      if Enabled(w, a) {
        Sys.RunInv(n, atomic);
        var b := StepRefines(w, Sys.Run(n, atomic), a);
        if b.Some? {
          Sys.RunExtend(n, atomic, b.value);
          atomic := atomic + [b.value];
        }
      }
    }
  }

  // ---- what holds in every run --------------------------------------------------------

  /** The clients that run licensed. */
  function Licensed(w: Whole): set<int> {
    set p | p in w.clients && w.clients[p].phase in {Sys.Holding, Sys.WaitGood}
  }

  /** The client's text parses to its pid and a slot that the server's array has recorded for it. */
  predicate HasTicket(w: Whole, p: int, slot: int) {
    p in w.clients && ScanTicket(w.clients[p].ticket) == Some((p, slot)) &&
    0 <= slot < |w.server.tickets| && w.server.tickets[slot] == p
  }

  /** At every instant, between any two statements of main or of the handler, at most n clients run
      licensed, and the array has a slot recorded for each. */
  lemma AtMostNLicensedEver(n: nat, acts: seq<Action>)
    requires n < 0x8000_0000
    ensures var w := Run(n, acts);
            |Licensed(w)| <= n && forall p :: p in Licensed(w) ==> exists slot :: HasTicket(w, p, slot)
  {
    var w := Run(n, acts);
    var atomic := RunRefines(n, acts);
    var s := Sys.Run(n, atomic);
    Sys.AtMostNLicensed(n, atomic);
    assert Licensed(w) == Sys.Licensed(s);
    forall p | p in Licensed(w) ensures exists slot :: HasTicket(w, p, slot) {
      var slot :| Sys.HasTicket(s, p, slot);
      assert HasTicket(w, p, slot);
    }
  }

  /** Requests reach main whole and in a form its handlers can take, and the replies on their way to
      live holders are the right ones. */
  lemma RepliesAreRight(n: nat, acts: seq<Action>, d: Sys.Datagram)
    requires IsInt32(n) && d in Run(n, acts).net
    ensures var w := Run(n, acts);
            && d.party in w.clients
            && (d.Request? && Fine.Quiet(w.server) ==> Enabled(w, Arrive(d)) && |d.text| < Sys.MSGLEN)
            && (d.Reply? ==> match w.clients[d.party].phase
                             case WaitGood => d.text == GOOD
                             case WaitThnx => d.text == THANKS
                             case WaitTick => d.text == NO_TICKETS || HasPrefix(d.text, "TICK ")
                             case phase => phase == Sys.Dead)
  {
    var w := Run(n, acts);
    var atomic := RunRefines(n, acts);
    assert d in Sys.Run(n, atomic).net;
    if d.Request? {
      Sys.LiveClientsAreServed(n, atomic, d);
    } else {
      Sys.LiveClientsHear(n, atomic, d);
    }
  }

  /** Nothing is held up: unless main waits with no handler running, the server has a statement to execute;
      the clock runs while an alarm is pending; any datagram may be lost, a reply to a live client delivered,
      and its client may crash. */
  lemma NothingIsHeldUp(n: nat, acts: seq<Action>, d: Sys.Datagram)
    requires IsInt32(n)
    ensures var w := Run(n, acts);
            && (Fine.Quiet(w.server) || Enabled(w, Inside(Fine.Next)) || Enabled(w, Inside(Fine.HandlerNext)))
            && (w.server.timer > 0 ==> Enabled(w, Inside(Fine.Tick)))
            && (d in w.net ==> d.party in w.clients && Enabled(w, Outside(Sys.Lose(d)))
                               && Enabled(w, Outside(Sys.Crash(d.party)))
                               && (d.Reply? && w.clients[d.party].phase != Sys.Dead ==>
                                     Enabled(w, Outside(Sys.Deliver(d)))))
  {
    var w := Run(n, acts);
    var atomic := RunRefines(n, acts);
    Fine.InvMeans(w.server);
    if d in w.net {
      assert d in Sys.Run(n, atomic).net;
      Sys.NothingIsHeldUp(n, atomic, d);
    }
  }

  /** Whenever main waits and no handler runs, the counter is the number of occupied slots. */
  lemma CountIsRightWhenQuiet(n: nat, acts: seq<Action>)
    requires IsInt32(n) && Fine.Quiet(Run(n, acts).server)
    ensures var f := Run(n, acts).server; f.num == Occupied(f.tickets) <= n == |f.tickets|
  {
    var atomic := RunRefines(n, acts);
    var _ := Sys.TicketsAreConserved(n, atomic);
    Sys.RunInv(n, atomic);
    OccupiedBounds(Run(n, acts).server.tickets);
  }
}
