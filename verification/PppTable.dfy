/**
  The automaton against its specification: the state transition table of section 4.1 of RFC 1661, what
  has been agreed as the one thing that decides between the negotiating states, and the account of the
  restart counter.
 */
module PppTable {
  import opened Base
  import opened PppFsm

  // ----- The table of RFC 1661 -----------------------------------------------------------------

  /** A Down followed by an Up, as the restart option has it. */
  function DownUp(st: State): (State, seq<Action>)
    decreases 1
  {
    var (down, a) := Table(st, LowerDown, true);
    var (up, b) := Table(down, LowerUp(true), true);
    (up, a + b)
  }

  /** New state and actions; `-` in the table is no change and no action.  `retry` is whether the restart
      counter is above zero; a Nak and a Reject are the same event. */
  function Table(st: State, e: Event, retry: bool): (State, seq<Action>)
    decreases if e.Open? then 2 else 0
  {
    match e
    case LowerUp(_) =>
      if st == Initial then (Closed, []) else if st == Starting then (ReqSent, [ConfReq]) else (st, [])
    case LowerDown =>
      (match st
       case Initial | Starting => (st, [])
       case Closed | Closing => (Initial, [])
       case Stopped => (Starting, [LayerStarted])
       case Stopping | ReqSent | AckRcvd | AckSent => (Starting, [])
       case Opened => (Starting, [LayerDown]))
    case Open(_) =>
      (match st
       case Initial => (Starting, [LayerStarted])
       case Closed => (ReqSent, [ConfReq])
       case Stopped | Closing | Stopping | Opened => DownUp(st)
       case Starting | ReqSent | AckRcvd | AckSent => (st, []))
    case Close =>
      (match st
       case Initial | Closed | Closing => (st, [])
       case Starting => (Initial, [LayerFinished])
       case Stopped => (Closed, [])
       case Stopping => (Closing, [])
       case ReqSent | AckRcvd | AckSent => (Closing, [TermReq])
       case Opened => (Closing, [LayerDown, TermReq]))
    case Timeout =>
      (match st
       case Closing => if retry then (Closing, [TermReq]) else (Closed, [LayerFinished])
       case Stopping => if retry then (Stopping, [TermReq]) else (Stopped, [LayerFinished])
       case ReqSent | AckRcvd => if retry then (ReqSent, [ConfReq]) else (Stopped, [LayerFinished])
       case AckSent => if retry then (AckSent, [ConfReq]) else (Stopped, [LayerFinished])
       case Initial | Starting | Closed | Stopped | Opened => (st, []))
    case ReqAck =>
      (match st
       case Closed => (Closed, [TermAck])
       case Stopped => (AckSent, [ConfReq, ConfAck])
       case ReqSent | AckSent => (AckSent, [ConfAck])
       case AckRcvd => (Opened, [ConfAck, LayerUp])
       case Opened => (AckSent, [LayerDown, ConfReq, ConfAck])
       case Initial | Starting | Closing | Stopping => (st, []))
    case ReqNak => Refuse(st, ConfNak)
    case ReqRej => Refuse(st, ConfRej)
    case RcvAck =>
      (match st
       case Closed | Stopped => (st, [TermAck])
       case ReqSent => (AckRcvd, [])
       case AckRcvd => (ReqSent, [ConfReq])
       case AckSent => (Opened, [LayerUp])
       case Opened => (ReqSent, [LayerDown, ConfReq])
       case Initial | Starting | Closing | Stopping => (st, []))
    case RcvRej =>
      (match st
       case Closed | Stopped => (st, [TermAck])
       case ReqSent | AckRcvd => (ReqSent, [ConfReq])
       case AckSent => (AckSent, [ConfReq])
       case Opened => (ReqSent, [LayerDown, ConfReq])
       case Initial | Starting | Closing | Stopping => (st, []))
    case RcvTermReq =>
      (match st
       case Closed | Stopped | Closing | Stopping => (st, [TermAck])
       case ReqSent | AckRcvd | AckSent => (ReqSent, [TermAck])
       case Opened => (Stopping, [LayerDown, TermAck])
       case Initial | Starting => (st, []))
    case RcvTermAck =>
      (match st
       case Closing => (Closed, [LayerFinished])
       case Stopping => (Stopped, [LayerFinished])
       case AckRcvd => (ReqSent, [])
       case Opened => (ReqSent, [LayerDown, ConfReq])
       case Initial | Starting | Closed | Stopped | ReqSent | AckSent => (st, []))
    case RcvUnknown => (st, if st == Initial || st == Starting then [] else [CodeRej])
    case CodeRejPerm => (if st == AckRcvd then ReqSent else st, [])
    case CodeRejBad =>
      (match st
       case Closed | Stopped => (st, [LayerFinished])
       case Closing => (Closed, [LayerFinished])
       case Stopping | ReqSent | AckRcvd | AckSent => (Stopped, [LayerFinished])
       case Opened => (Stopping, [LayerDown, TermReq])
       case Initial | Starting => (st, []))
    case Close2 => (Closed, [])  // the program's own: a close without ceremony
  }

  /** A Configure-Request that is not acceptable. */
  function Refuse(st: State, answer: Action): (State, seq<Action>) {
    match st
    case Closed => (Closed, [TermAck])
    case Stopped => (ReqSent, [ConfReq, answer])
    case ReqSent | AckSent => (ReqSent, [answer])
    case AckRcvd => (AckRcvd, [answer])
    case Opened => (ReqSent, [LayerDown, ConfReq, answer])
    case Initial | Starting | Closing | Stopping => (st, [])
  }

  /** A Configure-Request is due and cannot be sent. */
  predicate SendFails(s: Machine, e: Event) {
    match e
    case LowerUp(ok) => !ok && s.state == Starting
    case Open(ok) => !ok && (s.state == Closed || s.state == Stopped || s.state == Stopping || s.state == Opened)
    case _ => false
  }

  /** Where the program departs from the table. */
  predicate Departs(c: Limits, s: Machine, e: Event) {
    || GivesUp(c, s, e) || SendFails(s, e)
    || (e == Timeout && !s.armed && Timed(s.state))
    || (e.Open? && s.state == Initial)
    || (e == CodeRejBad && (s.state == Closed || s.state == Stopped))
    || ((e == RcvTermReq || e == RcvUnknown) && (s.state == Initial || s.state == Starting))
  }

  /** New state and actions are those of the table exactly where the program does not depart from it: at the
      failure limit, when a request cannot be sent, without a running timer, by reporting no layer-started when
      opened in Initial and no layer-finished on a bad Code-Reject in Closed and Stopped, and by answering a
      Terminate-Request or an unknown code before the layer is up. */
  lemma {:induction false} TableExactly(c: Limits, s: Machine, e: Event)
    ensures var (s', acts) := Step(c, s, e); (s'.state, acts) == Table(s.state, e, s.counter > 0) <==> !Departs(c, s, e)
  {
    if e.LowerUp? || e.LowerDown? || e.Open? || e.Close? || e.Close2? || e.Timeout? {
      TableLocal(c, s, e);
    } else if IsRequest(e) {
      TableRequest(c, s, e);
    } else {
      TableReceived(c, s, e);
    }
  }

  lemma {:induction false} TableLocal(c: Limits, s: Machine, e: Event)
    requires e.LowerUp? || e.LowerDown? || e.Open? || e.Close? || e.Close2? || e.Timeout?
    ensures var (s', acts) := Step(c, s, e); (s'.state, acts) == Table(s.state, e, s.counter > 0) <==> !Departs(c, s, e)
  {
  }

  lemma {:induction false} TableRequest(c: Limits, s: Machine, e: Event)
    requires IsRequest(e)
    ensures var (s', acts) := Step(c, s, e); (s'.state, acts) == Table(s.state, e, s.counter > 0) <==> !Departs(c, s, e)
  {
  }

  lemma {:induction false} TableReceived(c: Limits, s: Machine, e: Event)
    requires !(e.LowerUp? || e.LowerDown? || e.Open? || e.Close? || e.Close2? || e.Timeout? || IsRequest(e))
    ensures var (s', acts) := Step(c, s, e); (s'.state, acts) == Table(s.state, e, s.counter > 0) <==> !Departs(c, s, e)
  {
  }

  /** What the program does instead. */
  lemma {:induction false} DepartsTo(c: Limits, s: Machine, e: Event)
    requires Departs(c, s, e)
    ensures var (s', acts) := Step(c, s, e);
      if GivesUp(c, s, e) then
        && s'.state == s.state
        && acts == (if s.state == Stopped then [ConfReq, LayerDown]
                    else if e == RcvRej || s.state == AckSent then [LayerDown] else [LayerFinished])
      else if SendFails(s, e) then
        && s'.state == (if s.state == Closed then ReqSent else Starting)
        && acts == (if s.state == Stopped then [LayerStarted] else if s.state == Opened then [LayerDown] else [])
      else if e.Open? then s'.state == Starting && acts == []
      else s'.state == s.state && acts == (if e == RcvTermReq then [TermAck] else if e == RcvUnknown then [CodeRej] else [])
  {
  }

  // ----- What is agreed decides the state ------------------------------------------------------

  /** Whether we acked what the peer asked for last, and the peer what we asked for last. */
  datatype Pact = Pact(we: bool, peer: bool)

  const NO_PACT := Pact(false, false)

  /** The layer negotiates or is open. */
  predicate Talking(st: State) {
    Negotiating(st) || st == Opened
  }

  /** The pact after an event and the actions it caused.  A new Configure-Request of ours is not acked yet, and
      together with layer-down it starts all over; a refusal takes back our Ack, a Terminate-Request both, a
      Terminate-Ack the peer's, and so does a Code-Reject as long as we have not acked. */
  function Tell(p: Pact, e: Event, acts: seq<Action>): Pact {
    var answer := LastAnswer(acts, None);
    Pact(
      if answer.Some? then answer.value == ConfAck
      else p.we && e != RcvTermReq && !(ConfReq in acts && LayerDown in acts),
      if ConfReq in acts then false
      else if e == RcvAck then true
      else p.peer && e != RcvTermReq && e != RcvTermAck && (e == CodeRejPerm ==> p.we))
  }

  /** The state that goes with a pact. */
  function StateOf(p: Pact): State {
    if p.we then (if p.peer then Opened else AckSent) else (if p.peer then AckRcvd else ReqSent)
  }

  /** The machine and the pact after a run of events; outside of a negotiation there is no pact. */
  function RunPact(c: Limits, s: Machine, p: Pact, es: seq<Event>): (Machine, Pact)
    decreases |es|
  {
    if es == [] then (s, p)
    else
      var (s', acts) := Step(c, s, es[0]);
      RunPact(c, s', Tell(if Talking(s.state) then p else NO_PACT, es[0], acts), es[1..])
  }

  ghost predicate ByPact(s: Machine, p: Pact) {
    Talking(s.state) ==> s.state == StateOf(p)
  }

  lemma {:induction false} PactRequest(c: Limits, s: Machine, p: Pact, e: Event)
    requires ByPact(s, p) && IsRequest(e)
    ensures var (s', acts) := Step(c, s, e); ByPact(s', Tell(if Talking(s.state) then p else NO_PACT, e, acts))
  {
    LastOf(Step(c, s, e).1);
    hide LastAnswer;
  }

  lemma {:induction false} PactLocal(c: Limits, s: Machine, p: Pact, e: Event)
    requires ByPact(s, p) && (e.LowerUp? || e.LowerDown? || e.Open? || e.Close? || e.Close2? || e.Timeout?)
    ensures var (s', acts) := Step(c, s, e); ByPact(s', Tell(if Talking(s.state) then p else NO_PACT, e, acts))
  {
    LastOf(Step(c, s, e).1);
    hide LastAnswer;
  }

  lemma {:induction false} PactReceived(c: Limits, s: Machine, p: Pact, e: Event)
    requires ByPact(s, p)
    requires !(IsRequest(e) || e.LowerUp? || e.LowerDown? || e.Open? || e.Close? || e.Close2? || e.Timeout?)
    ensures var (s', acts) := Step(c, s, e); ByPact(s', Tell(if Talking(s.state) then p else NO_PACT, e, acts))
  {
    LastOf(Step(c, s, e).1);
    hide LastAnswer;
  }

  lemma {:induction false} PactStep(c: Limits, s: Machine, p: Pact, e: Event)
    requires ByPact(s, p)
    ensures var (s', acts) := Step(c, s, e); ByPact(s', Tell(if Talking(s.state) then p else NO_PACT, e, acts))
  {
    hide Step, Tell, ByPact;
    if IsRequest(e) {
      PactRequest(c, s, p, e);
    } else if e.LowerUp? || e.LowerDown? || e.Open? || e.Close? || e.Close2? || e.Timeout? {
      PactLocal(c, s, p, e);
    } else {
      PactReceived(c, s, p, e);
    }
  }

  lemma {:induction false} RunByPact(c: Limits, s: Machine, p: Pact, es: seq<Event>)
    requires ByPact(s, p)
    ensures var (s', p') := RunPact(c, s, p, es); ByPact(s', p')
    decreases |es|
  {
    hide Step, Tell, ByPact;
    if es != [] {
      PactStep(c, s, p, es[0]);
      var (s', acts) := Step(c, s, es[0]);
      RunByPact(c, s', Tell(if Talking(s.state) then p else NO_PACT, es[0], acts), es[1..]);
    }
  }

  /** In every event sequence, as long as the layer negotiates or is open: it is Opened exactly when each side has
      acked the other's latest request, Ack-Sent when only we have, Ack-Rcvd when only the peer has, and Req-Sent
      when neither has. */
  lemma {:induction false} AgreementDecides(c: Limits, id: Byte, es: seq<Event>)
    ensures var (s, p) := RunPact(c, Initially(id), NO_PACT, es); Talking(s.state) ==> s.state == StateOf(p)
  {
    hide RunPact, StateOf;
    RunByPact(c, Initially(id), NO_PACT, es);
  }

  /** From every Req-Sent state the peer's Ack and ours, in either order, open the layer and report it up once. */
  lemma {:induction false} BothAcksOpen(c: Limits, s: Machine, first: Event)
    requires s.state == ReqSent && (first == RcvAck || first == ReqAck)
    ensures var second := if first == RcvAck then ReqAck else RcvAck;
      var (s1, a1) := Step(c, s, first);
      var (s2, a2) := Step(c, s1, second);
      s2.state == Opened && !s2.armed && a1 + a2 == [ConfAck, LayerUp]
  {
  }

  // ----- The restart counter, the failures and the identifier ----------------------------------

  /** What the counter is loaded with, where it is. */
  function Loaded(c: Limits, s: Machine, e: Event): Option<int> {
    match e
    case LowerUp(_) => if s.state == Starting then Some(c.maxConfigure - 1) else None
    case Open(_) =>
      if s.state == Closed || s.state == Stopped || s.state == Stopping || s.state == Opened
      then Some(c.maxConfigure - 1) else None
    case Close => if Talking(s.state) then Some(c.maxTerminate) else None
    case ReqAck => if s.state == Stopped then Some(c.maxConfigure - 1) else None
    case ReqNak => if s.state == Stopped then Some(c.maxConfigure - 1) else None
    case ReqRej => if s.state == Stopped then Some(c.maxConfigure - 1) else None
    case RcvRej =>
      if GivesUp(c, s, e) then None
      else if s.state == ReqSent then Some(c.maxFailure - 1)
      else if s.state == AckSent then Some(c.maxConfigure - 1) else None
    case RcvTermReq => if s.state == Opened then Some(0) else None
    case _ => None
  }

  /** The peer or we refused something in negotiation. */
  predicate Failure(s: Machine, e: Event) {
    match e
    case ReqNak => s.state == ReqSent || s.state == AckRcvd
    case ReqRej => Negotiating(s.state) || s.state == Stopped
    case RcvRej => s.state == ReqSent || s.state == AckSent
    case _ => false
  }

  /** Unless it is loaded, the counter goes down by one with every request sent, and otherwise stays. */
  lemma {:induction false} CounterExactly(c: Limits, s: Machine, e: Event)
    ensures var (s', acts) := Step(c, s, e);
      s'.counter ==
        if Loaded(c, s, e).Some? then Loaded(c, s, e).value
        else s.counter - if ConfReq in acts || TermReq in acts then 1 else 0
  {
    if IsRequest(e) {
      CounterRequest(c, s, e);
    }
  }

  lemma {:induction false} CounterRequest(c: Limits, s: Machine, e: Event)
    requires IsRequest(e)
    ensures var (s', acts) := Step(c, s, e);
      s'.counter ==
        if Loaded(c, s, e).Some? then Loaded(c, s, e).value
        else s.counter - if ConfReq in acts || TermReq in acts then 1 else 0
  {
  }

  /** Failures and the packets that answer ours are counted, the latter modulo 256. */
  lemma {:induction false} CountsExactly(c: Limits, s: Machine, e: Event)
    ensures var s' := Step(c, s, e).0;
      && s'.failures == s.failures + (if Failure(s, e) then 1 else 0)
      && s'.id == (if e == RcvAck || e == RcvRej then (s.id + 1) % 256 else s.id)
  {
  }

  /** In a state that needs no timer one runs exactly when a request that was due could not be sent, or a stopped
      layer gave up, or when it ran before and was not stopped: by an expiry without a retry, a Terminate-Ack, a
      close of a starting or stopped layer, a close without ceremony, or by opening. */
  lemma {:induction false} UntimedExactly(c: Limits, s: Machine, e: Event)
    requires !Timed(Step(c, s, e).0.state)
    ensures Step(c, s, e).0.armed <==>
      || SendFails(s, e) || (GivesUp(c, s, e) && s.state == Stopped)
      || (s.armed
          && !(e == Timeout && Timed(s.state)) && e != RcvTermAck && e != Close2
          && !(e == Close && (s.state == Starting || s.state == Stopped))
          && !(e == ReqAck && s.state == AckRcvd) && !(e == RcvAck && s.state == AckSent))
  {
  }
}
