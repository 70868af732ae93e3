/**
 The client half of the license protocol as it runs: the static reply buffer that every
 transaction reuses, the ticket text copied out of it, and the have_ticket flag.  The network is a
 parameter: `answer` is the datagram recvfrom will deliver, None when sendto or recvfrom fails.
 */
module LicenseClient {
  import opened Wrappers
  import opened CText
  import opened LicenseServer
  import Sys = LicenseSystem

  class Client {
    const pid: int
    const buf: array<char>
    var ticketBuf: string
    var haveTicket: bool

    ghost predicate Valid() { buf.Length == Sys.MSGLEN }

    constructor (pid: int)
      ensures Valid() && fresh(buf) && this.pid == pid
      ensures buf[..] == seq(Sys.MSGLEN, _ => NUL) && ticketBuf == "" && !haveTicket
    {
      this.pid := pid;
      buf := new char[Sys.MSGLEN](_ => NUL);
      ticketBuf, haveTicket := "", false;
    }

    /** The client as the protocol's model sees it while it waits in `phase`. */
    ghost function Waiting(phase: Sys.Phase): Sys.Client
      reads this, buf
    {
      Sys.Client(phase, buf[..], ticketBuf)
    }

    /** recvfrom: the datagram, cut at MSGLEN, lands on top of the previous reply. */
    method DoTransaction(answer: Option<string>) returns (got: bool)
      requires Valid()
      modifies buf
      ensures got == answer.Some?
      ensures buf[..] == if got then Receive(old(buf[..]), answer.value) else old(buf[..])
    {
      if answer.None? {
        return false;
      }
      var i := 0;
      while i < |answer.value| && i < Sys.MSGLEN
        invariant i <= |answer.value| && i <= Sys.MSGLEN
        invariant forall j :: 0 <= j < Sys.MSGLEN ==> buf[j] == if j < i then answer.value[j] else old(buf[j])
      {
        buf[i] := answer.value[i];
        i := i + 1;
      }
      return true;
    }

    /** get_ticket: 0 for success, -1 for failure; `sent` is the request put on the net, if any.
        The buffers end up as the protocol's model has them. */
    method GetTicket(answer: Option<string>) returns (sent: Option<string>, rc: int)
      requires Valid()
      modifies this`ticketBuf, this`haveTicket, buf
      ensures old(haveTicket) ==> sent == None && rc == 0 && unchanged(this) && unchanged(buf)
      ensures !old(haveTicket) ==> sent == Some(Sys.HelloText(pid)) && haveTicket == (rc == 0)
      ensures !old(haveTicket) && answer.None? ==> rc == -1 && unchanged(this) && buf[..] == old(buf[..])
      ensures !old(haveTicket) && answer.Some? ==>
                var after := Sys.Received(old(Waiting(Sys.WaitTick)), answer.value);
                Waiting(if rc == 0 then Sys.Holding else Sys.Idle) == after
    {
      if haveTicket {
        return None, 0;
      }
      sent := Some("HELO " + Decimal(pid));
      var got := DoTransaction(answer);
      if !got {
        return sent, -1;
      }
      if HasPrefix(buf[..], "TICK") {
        ticketBuf := CString(buf[5..]);
        haveTicket := true;
        return sent, 0;
      }
      return sent, -1;
    }

    /** release_ticket: 0 exactly when there was nothing to release or the server said THNX.  The
        have_ticket flag stays up. */
    method ReleaseTicket(answer: Option<string>) returns (sent: Option<string>, rc: int)
      requires Valid()
      modifies buf
      ensures !haveTicket ==> sent == None && rc == 0 && unchanged(buf)
      ensures haveTicket ==> sent == Some(Sys.GbyeText(ticketBuf))
      ensures haveTicket ==>
                buf[..] == match answer case Some(text) => Receive(old(buf[..]), text) case None => old(buf[..])
      ensures haveTicket ==> rc == if answer.Some? then ReleaseResult(buf[..]) else -1
    {
      if !haveTicket {
        return None, 0;
      }
      sent := Some("GBYE " + ticketBuf);
      var got := DoTransaction(answer);
      if !got {
        return sent, -1;
      }
      if HasPrefix(buf[..], "THNX") {
        return sent, 0;
      }
      return sent, -1;
    }
  }

  /** release_ticket's result for the buffer it examines. */
  function ReleaseResult(buf: string): int { if HasPrefix(buf, "THNX") then 0 else -1 }

  // ---- the answers as the client hears them -------------------------------------------

  lemma HeardOnTop(buf: string, text: string, keyword: string)
    requires |keyword| == 4 && |buf| == 128 && 4 <= |text| <= 128
    ensures HasPrefix(Receive(buf, text), keyword) <==> HasPrefix(text, keyword)
  {
    var got := Receive(buf, text);
    assert got[..4] == text[..4];
    assert HasPrefix(got, keyword) ==> got[..4] == keyword;
    assert HasPrefix(text, keyword) ==> text[..4] == keyword;
  }

  /** Whatever earlier replies left in the buffer, the answer to a GBYE with a valid ticket makes
      release_ticket return 0, and the answer to any other makes it return -1. */
  lemma ReleaseSucceedsIff(st: State, req: string, buf: string)
    requires Acceptable(st, req) && HasPrefix(req, "GBYE") && |buf| == 128
    ensures ReleaseResult(Receive(buf, Handle(st, req).response)) == 0 <==> IsValidTicket(st, req[5..])
    ensures ReleaseResult(Receive(buf, Handle(st, req).response)) in {0, -1}
  {
    OneKeyword(req);
    AnswersSayWhatHappened(st, req);
    HeardOnTop(buf, Handle(st, req).response, "THNX");
  }

  /** In every run a live client that hears a reply takes it for what it is: a release succeeds and the
      client is done, a validation succeeds and the client holds on, and a request for a ticket brings the
      client one exactly when the server has recorded a slot for it, a refusal otherwise. */
  lemma RepliesAreUnderstood(n: nat, acts: seq<Sys.Action>, d: Sys.Datagram)
    requires IsInt32(n) && d in Sys.Run(n, acts).net && d.Reply?
    requires d.party in Sys.Run(n, acts).clients && Sys.Run(n, acts).clients[d.party].phase != Sys.Dead
    ensures var s := Sys.Run(n, acts);
            var c := s.clients[d.party];
            var buf, after := Receive(c.reply, d.text), Sys.Received(c, d.text);
            match c.phase
            case WaitThnx => ReleaseResult(buf) == 0 && after.phase == Sys.Done
            case WaitGood => HasPrefix(buf, "GOOD") && after.phase == Sys.Holding
            case WaitTick => if Sys.Owns(s.server.tickets, d.party)
                             then HasPrefix(buf, "TICK") && after.phase == Sys.Holding
                             else HasPrefix(buf, "FAIL") && after.phase == Sys.Idle
            case _ => false
  {
    Sys.RunInv(n, acts);
    var s := Sys.Run(n, acts);
    var c, t := s.clients[d.party], s.server.tickets;
    assert Sys.GoodClient(t, d.party, c) && Sys.GoodDatagram(t, c, d);
    AnswerTexts();
    if c.phase == Sys.WaitTick {
      TickUnderstood(t, d.party, c, d.text);
    } else {
      HeardOnTop(c.reply, d.text, if c.phase == Sys.WaitThnx then "THNX" else "GOOD");
    }
  }

  lemma TickUnderstood(t: seq<int>, p: int, c: Sys.Client, text: string)
    requires IsInt32(|t|) && Sys.GoodClient(t, p, c) && c.phase == Sys.WaitTick
    requires (text == NO_TICKETS && !Sys.Owns(t, p))
             || exists slot :: 0 <= slot < |t| && t[slot] == p && text == Sys.TickText(p, slot)
    ensures var buf, after := Receive(c.reply, text), Sys.Received(c, text);
            if Sys.Owns(t, p) then HasPrefix(buf, "TICK") && after.phase == Sys.Holding
            else HasPrefix(buf, "FAIL") && after.phase == Sys.Idle
  {
    AnswerTexts();
    var buf := Receive(c.reply, text);
    if Sys.Owns(t, p) {
      var slot :| 0 <= slot < |t| && t[slot] == p && text == Sys.TickText(p, slot);
      Sys.TickReceived(t, p, c, slot);
      Sys.TicketTextIsShort(p, slot);
      HeardOnTop(c.reply, text, "TICK");
    } else {
      HeardOnTop(c.reply, text, "FAIL");
      OneKeyword(buf);
    }
  }

  // ---- the ticket's way there and back ------------------------------------------------

  predicate IsRefusal(text: string) { text in {NO_TICKETS, CORRUPT, INVALID_TICKET, INVALID_REQUEST} }

  /** The static reply buffer after a series of replies. */
  function BufferAfter(replies: seq<string>): (buf: string)
    ensures |buf| == 128
  {
    if replies == [] then seq(Sys.MSGLEN, _ => NUL)
    else Receive(BufferAfter(replies[..|replies| - 1]), replies[|replies| - 1])
  }

  lemma RefusalIsShort(text: string)
    requires IsRefusal(text)
    ensures |text| <= 64 && NoDigits(text)
  {
    assert NoDigits(NO_TICKETS);
    assert NoDigits(CORRUPT);
    assert NoDigits(INVALID_TICKET);
    assert NoDigits(INVALID_REQUEST);
  }

  lemma {:induction false} RefusalsLeaveNoDigits(replies: seq<string>)
    requires forall i :: 0 <= i < |replies| ==> IsRefusal(replies[i])
    ensures Sys.FreshBuffer(BufferAfter(replies))
  {
    if replies != [] {
      RefusalsLeaveNoDigits(replies[..|replies| - 1]);
      RefusalIsShort(replies[|replies| - 1]);
    }
  }

  lemma GbyeArrivesWhole(ticket: string)
    requires Terminated(ticket) && |ticket| <= 64
    ensures Sys.AsReceived(Sys.GbyeText(ticket)) == Sys.GbyeText(ticket)
    ensures Sys.GbyeText(ticket)[5..] == ticket
  {
    assert Terminated(Sys.GbyeText(ticket));
    Sys.CStringOfTerminated(Sys.GbyeText(ticket));
  }

  /** The ticket a client copies out when `reply` arrives after `earlier` ones. */
  function TicketCopied(earlier: seq<string>, reply: string): string {
    CString(Receive(BufferAfter(earlier), reply)[5..])
  }

  /** After any series of refusals, the ticket granted next is printed by the server, copied out of
      the stale buffer, put into GBYE, and read by the server as the very pid and slot it granted. */
  lemma TicketRoundTrip(refusals: seq<string>, pid: int, slot: int)
    requires forall i :: 0 <= i < |refusals| ==> IsRefusal(refusals[i])
    requires IsInt32(pid) && IsInt32(slot)
    ensures var gbye := Sys.GbyeText(TicketCopied(refusals, Sys.TickText(pid, slot)));
            && Sys.AsReceived(gbye) == gbye
            && ScanTicket(gbye[5..]) == Some((pid, slot))
  {
    RefusalsLeaveNoDigits(refusals);
    Sys.TicketSurvivesStaleBuffer(BufferAfter(refusals), pid, slot);
    GbyeArrivesWhole(TicketCopied(refusals, Sys.TickText(pid, slot)));
  }
}
