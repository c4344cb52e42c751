/**
  The PPP option negotiation automaton (section 4.1 of RFC 1661) with its restart counter and timer
  (section 4.6), as each event function updates it.  Callbacks are emitted actions.
 */
module PppFsm {
  import opened Base

  datatype State = Initial | Starting | Closed | Stopped | Closing | Stopping | ReqSent | AckRcvd | AckSent | Opened

  datatype Action =
    | ConfReq | ConfAck | ConfNak | ConfRej | TermReq | TermAck | CodeRej
    | LayerUp | LayerDown | LayerStarted | LayerFinished

  /** The limits are positive (the configuration loader ignores other values). */
  datatype Limits = Limits(maxTerminate: nat, maxConfigure: nat, maxFailure: nat)

  datatype Machine = Machine(state: State, armed: bool, counter: int, failures: int, id: Byte)

  /** `ok` is whether sending the Configure-Request succeeded, where the code looks. */
  datatype Event =
    | LowerUp(ok: bool) | LowerDown | Open(ok: bool) | Close | Close2 | Timeout
    | ReqAck | ReqNak | ReqRej            // a Configure-Request to be acked, naked or rejected
    | RcvAck | RcvRej                     // a Configure-Ack; a Configure-Nak or Configure-Reject
    | RcvTermReq | RcvTermAck | RcvUnknown | CodeRejPerm | CodeRejBad

  function Initially(id: Byte): Machine {
    Machine(Initial, false, 0, 0, id)
  }

  // ----- The transitions -----------------------------------------------------------------------

  function Bump(id: Byte): Byte {
    (id + 1) % 256
  }

  /** Sets the restart counter and starts the timer unless it runs. */
  function Load(s: Machine, n: int): Machine {
    s.(counter := n, armed := true)
  }

  function StepLowerUp(c: Limits, s: Machine, ok: bool): (Machine, seq<Action>) {
    match s.state
    case Initial => (s.(state := Closed), [])
    case Starting =>
      var s' := Load(s, c.maxConfigure - 1);
      if ok then (s'.(state := ReqSent), [ConfReq]) else (s', [])
    case _ => (s, [])
  }

  function StepLowerDown(s: Machine): (Machine, seq<Action>) {
    match s.state
    case Closed | Closing => (s.(state := Initial), [])
    case Stopped => (s.(state := Starting), [LayerStarted])
    case Stopping | ReqSent | AckRcvd | AckSent => (s.(state := Starting), [])
    case Opened => (s.(state := Starting), [LayerDown])
    case _ => (s, [])
  }

  function StepOpen(c: Limits, s: Machine, ok: bool): (Machine, seq<Action>) {
    match s.state
    case Initial => (s.(state := Starting), [])
    case Closed => (Load(s, c.maxConfigure - 1).(state := ReqSent), if ok then [ConfReq] else [])
    case Closing | Stopping | Stopped | Opened =>
      var (s1, a1) := StepLowerDown(s);
      var (s2, a2) := StepLowerUp(c, s1, ok);
      (s2, a1 + a2)
    case _ => (s, [])
  }

  function StepClose(c: Limits, s: Machine): (Machine, seq<Action>) {
    match s.state
    case Starting => (s.(state := Initial, armed := false), [LayerFinished])
    case Stopped => (s.(state := Closed, armed := false), [])
    case Stopping => (s.(state := Closing), [])
    case Opened => (Load(s, c.maxTerminate).(state := Closing), [LayerDown, TermReq])
    case ReqSent | AckRcvd | AckSent => (Load(s, c.maxTerminate).(state := Closing), [TermReq])
    case _ => (s, [])
  }

  /** An expiry that sends another request. */
  function StepTimeout0(s: Machine): (Machine, seq<Action>) {
    match s.state
    case Closing | Stopping => (s.(counter := s.counter - 1), [TermReq])
    case AckRcvd | ReqSent => (s.(counter := s.counter - 1, state := ReqSent), [ConfReq])
    case AckSent => (s.(counter := s.counter - 1), [ConfReq])
    case _ => (s, [])
  }

  /** An expiry that gives up. */
  function StepTimeout1(s: Machine): (Machine, seq<Action>) {
    match s.state
    case Closing => (s.(armed := false, state := Closed), [LayerFinished])
    case Stopping | AckRcvd | ReqSent | AckSent => (s.(armed := false, state := Stopped), [LayerFinished])
    case _ => (s, [])
  }

  function StepTimeout(s: Machine): (Machine, seq<Action>) {
    if s.counter > 0 then StepTimeout0(s) else StepTimeout1(s)
  }

  function StepReqAck(c: Limits, s: Machine): (Machine, seq<Action>) {
    match s.state
    case Closed => (s, [TermAck])
    case Stopped => (Load(s, c.maxConfigure - 1).(state := AckSent), [ConfReq, ConfAck])
    case ReqSent | AckSent => (s.(state := AckSent), [ConfAck])
    case AckRcvd => (s.(state := Opened, armed := false), [ConfAck, LayerUp])
    case Opened => (s.(state := AckSent, counter := s.counter - 1), [LayerDown, ConfReq, ConfAck])
    case _ => (s, [])
  }

  function StepReqNak(c: Limits, s: Machine): (Machine, seq<Action>) {
    match s.state
    case Closed => (s, [TermAck])
    case Stopped => (Load(s, c.maxConfigure - 1).(state := ReqSent), [ConfReq, ConfNak])
    case AckSent => (s.(state := ReqSent), [ConfNak])
    case ReqSent | AckRcvd =>
      (s.(failures := s.failures + 1), if s.failures + 1 == c.maxFailure then [LayerFinished] else [ConfNak])
    case Opened => (s.(state := ReqSent, counter := s.counter - 1), [LayerDown, ConfReq, ConfNak])
    case _ => (s, [])
  }

  /** Reaching the failure limit leaves the state as it is and the request unanswered. */
  function StepReqRej(c: Limits, s: Machine): (Machine, seq<Action>) {
    var s1 := s.(failures := s.failures + 1);
    var full := s.failures + 1 == c.maxFailure;
    match s.state
    case Closed => (s, [TermAck])
    case Stopped =>
      var s2 := Load(s1, c.maxConfigure - 1);
      if full then (s2, [ConfReq, LayerDown]) else (s2.(state := ReqSent), [ConfReq, ConfRej])
    case AckSent => if full then (s1, [LayerDown]) else (s1.(state := ReqSent), [ConfRej])
    case ReqSent | AckRcvd => (s1, if full then [LayerFinished] else [ConfRej])
    case Opened => (s.(state := ReqSent, counter := s.counter - 1), [LayerDown, ConfReq, ConfRej])
    case _ => (s, [])
  }

  function StepRcvAck(s: Machine): (Machine, seq<Action>) {
    var s1 := s.(id := Bump(s.id));
    match s.state
    case Closed | Stopped => (s1, [TermAck])
    case ReqSent => (s1.(state := AckRcvd), [])
    case AckRcvd => (s1.(state := ReqSent, counter := s.counter - 1), [ConfReq])
    case AckSent => (s1.(state := Opened, armed := false), [LayerUp])
    case Opened => (s1.(state := ReqSent, counter := s.counter - 1), [LayerDown, ConfReq])
    case _ => (s1, [])
  }

  function StepRcvRej(c: Limits, s: Machine): (Machine, seq<Action>) {
    var s1 := s.(id := Bump(s.id));
    var s2 := s1.(failures := s.failures + 1);
    var full := s.failures + 1 == c.maxFailure;
    match s.state
    case Closed | Stopped => (s1, [TermAck])
    case ReqSent => if full then (s2, [LayerDown]) else (Load(s2, c.maxFailure - 1), [ConfReq])
    case AckRcvd => (s1.(state := ReqSent, counter := s.counter - 1), [ConfReq])
    case AckSent => if full then (s2, [LayerDown]) else (Load(s2, c.maxConfigure - 1), [ConfReq])
    case Opened => (s1.(state := ReqSent, counter := s.counter - 1), [LayerDown, ConfReq])
    case _ => (s1, [])
  }

  function StepRcvTermReq(s: Machine): (Machine, seq<Action>) {
    match s.state
    case Opened => (Load(s, 0).(state := Stopping), [LayerDown, TermAck])
    case ReqSent | AckRcvd | AckSent => (s.(state := ReqSent), [TermAck])
    case _ => (s, [TermAck])
  }

  function StepRcvTermAck(s: Machine): (Machine, seq<Action>) {
    var s1 := s.(armed := false);
    match s.state
    case Closing => (s1.(state := Closed), [LayerFinished])
    case Stopping => (s1.(state := Stopped), [LayerFinished])
    case AckRcvd => (s1.(state := ReqSent), [])
    case Opened => (s1.(state := ReqSent, counter := s.counter - 1), [LayerDown, ConfReq])
    case _ => (s1, [])
  }

  function StepCodeRejBad(s: Machine): (Machine, seq<Action>) {
    match s.state
    case Opened => (s.(state := Stopping, counter := s.counter - 1), [LayerDown, TermReq])
    case Closing => (s.(state := Closed), [LayerFinished])
    case Stopping | ReqSent | AckRcvd | AckSent => (s.(state := Stopped), [LayerFinished])
    case _ => (s, [])
  }

  /** The new machine and what it emits. */
  function Step(c: Limits, s: Machine, e: Event): (Machine, seq<Action>) {
    match e
    case LowerUp(ok) => StepLowerUp(c, s, ok)
    case LowerDown => StepLowerDown(s)
    case Open(ok) => StepOpen(c, s, ok)
    case Close => StepClose(c, s)
    case Close2 => (s.(state := Closed, armed := false), [])
    case Timeout => if s.armed then StepTimeout(s) else (s, [])
    case ReqAck => StepReqAck(c, s)
    case ReqNak => StepReqNak(c, s)
    case ReqRej => StepReqRej(c, s)
    case RcvAck => StepRcvAck(s)
    case RcvRej => StepRcvRej(c, s)
    case RcvTermReq => StepRcvTermReq(s)
    case RcvTermAck => StepRcvTermAck(s)
    case RcvUnknown => (s, [CodeRej])
    case CodeRejPerm => (if s.state == AckRcvd then s.(state := ReqSent) else s, [])
    case CodeRejBad => StepCodeRejBad(s)
  }

  // ----- Opened means agreed -------------------------------------------------------------------

  predicate Negotiating(st: State) {
    st == ReqSent || st == AckRcvd || st == AckSent
  }

  predicate IsAnswer(a: Action) {
    a == ConfAck || a == ConfNak || a == ConfRej
  }

  /** The last answer to a Configure-Request among the actions, or else `before`. */
  function LastAnswer(acts: seq<Action>, before: Option<Action>): Option<Action> {
    if acts == [] then before
    else if IsAnswer(acts[|acts| - 1]) then Some(acts[|acts| - 1])
    else LastAnswer(acts[..|acts| - 1], before)
  }

  /** The event uses up the failure limit. */
  predicate GivesUp(c: Limits, s: Machine, e: Event) {
    && s.failures + 1 == c.maxFailure
    && match e
       case ReqNak => s.state == ReqSent || s.state == AckRcvd
       case ReqRej => Negotiating(s.state) || s.state == Stopped
       case RcvRej => s.state == ReqSent || s.state == AckSent
       case _ => false
  }

  /** What became of the peer's latest Configure-Request: none arrived yet, answered, or left without an
      answer, because negotiation was given up or for another reason. */
  datatype Request = NoRequest | Answered(answer: Action) | Unanswered(gaveUp: bool)

  /** What the outside saw since negotiation was last entered: the latest answer sent, whether a
      Configure-Ack arrived after the latest Configure-Request sent, and the peer's latest request. */
  datatype Seen = Seen(answer: Option<Action>, acked: bool, request: Request)

  const UNSEEN := Seen(None, false, NoRequest)

  predicate IsRequest(e: Event) {
    e == ReqAck || e == ReqNak || e == ReqRej
  }

  function See(c: Limits, h: Seen, s: Machine, e: Event, s': Machine, acts: seq<Action>): Seen {
    var h' := if !Negotiating(s.state) && Negotiating(s'.state) then UNSEEN else h;
    var answer := LastAnswer(acts, None);
    Seen(if answer.Some? then answer else h'.answer,
         if ConfReq in acts then false else if e == RcvAck then true else h'.acked,
         if !IsRequest(e) then h'.request
         else if answer.Some? then Answered(answer.value) else Unanswered(GivesUp(c, s, e)))
  }

  function RunFrom(c: Limits, s: Machine, h: Seen, es: seq<Event>): (Machine, Seen)
    decreases |es|
  {
    if es == [] then (s, h)
    else
      var (s', acts) := Step(c, s, es[0]);
      RunFrom(c, s', See(c, h, s, es[0], s', acts), es[1..])
  }

  ghost predicate Agreed(s: Machine, h: Seen) {
    && (s.state == AckSent || s.state == Opened ==> h.answer == Some(ConfAck))
    && (s.state == AckSent || s.state == Opened ==> h.request == Answered(ConfAck) || h.request == Unanswered(true))
    && (s.state == AckRcvd || s.state == Opened ==> h.acked)
  }

  lemma {:induction false} LastOf(acts: seq<Action>)
    ensures acts == [] ==> LastAnswer(acts, None) == None
    ensures |acts| == 1 ==> LastAnswer(acts, None) == if IsAnswer(acts[0]) then Some(acts[0]) else None
    ensures |acts| == 2 && IsAnswer(acts[1]) ==> LastAnswer(acts, None) == Some(acts[1])
    ensures |acts| == 2 && !IsAnswer(acts[1]) ==> LastAnswer(acts, None) == if IsAnswer(acts[0]) then Some(acts[0]) else None
    ensures |acts| == 3 && IsAnswer(acts[2]) ==> LastAnswer(acts, None) == Some(acts[2])
  {
    if |acts| == 2 {
      assert acts[..1][..0] == [];
      assert LastAnswer(acts[..1], None) == if IsAnswer(acts[0]) then Some(acts[0]) else None;
    }
  }

  lemma {:induction false} AgreedRequest(c: Limits, s: Machine, h: Seen, e: Event)
    requires Agreed(s, h) && IsRequest(e)
    ensures var (s', acts) := Step(c, s, e); Agreed(s', See(c, h, s, e, s', acts))
  {
    LastOf(Step(c, s, e).1);
    hide LastAnswer;
  }

  lemma {:induction false} AgreedOther(c: Limits, s: Machine, h: Seen, e: Event)
    requires Agreed(s, h) && !IsRequest(e)
    ensures var (s', acts) := Step(c, s, e); Agreed(s', See(c, h, s, e, s', acts))
  {
    LastOf(Step(c, s, e).1);
    hide LastAnswer, GivesUp;
  }

  lemma {:induction false} AgreedStep(c: Limits, s: Machine, h: Seen, e: Event)
    requires Agreed(s, h)
    ensures var (s', acts) := Step(c, s, e); Agreed(s', See(c, h, s, e, s', acts))
  {
    hide Agreed, Step, See;
    if IsRequest(e) {
      AgreedRequest(c, s, h, e);
    } else {
      AgreedOther(c, s, h, e);
    }
  }

  /** A Configure-Request is answered exactly when the layer is negotiating, stopped or open and the event
      does not use up the failure limit, and then with the answer decided on. */
  lemma {:induction false} AnsweredExactly(c: Limits, s: Machine, e: Event)
    requires IsRequest(e)
    ensures var acts := Step(c, s, e).1;
      LastAnswer(acts, None) ==
        if (Negotiating(s.state) || s.state == Stopped || s.state == Opened) && !GivesUp(c, s, e)
        then Some(if e == ReqAck then ConfAck else if e == ReqNak then ConfNak else ConfRej) else None
  {
    LastOf(Step(c, s, e).1);
    hide LastAnswer;
  }

  /** In every event sequence from the start, Opened means, all since negotiation was last entered: the
      latest answer to the peer was a Configure-Ack; the peer's latest Configure-Request was the one
      acknowledged, or was left unanswered because it used up the failure limit; and the peer's
      Configure-Ack came after the latest Configure-Request sent. */
  lemma {:induction false} OpenedMeansAgreed(c: Limits, id: Byte, es: seq<Event>)
    ensures var (s, h) := RunFrom(c, Initially(id), UNSEEN, es);
      s.state == Opened ==>
        h.answer == Some(ConfAck) && (h.request == Answered(ConfAck) || h.request == Unanswered(true)) && h.acked
  {
    AgreedRun(c, Initially(id), UNSEEN, es);
  }

  lemma {:induction false} AgreedRun(c: Limits, s: Machine, h: Seen, es: seq<Event>)
    requires Agreed(s, h)
    ensures var (s', h') := RunFrom(c, s, h, es); Agreed(s', h')
    decreases |es|
  {
    hide Step, Agreed, See;
    if es != [] {
      var (s', acts) := Step(c, s, es[0]);
      AgreedStep(c, s, h, es[0]);
      AgreedRun(c, s', See(c, h, s, es[0], s', acts), es[1..]);
    }
  }

  /** The run step by step. */
  function Through(c: Limits, s: Machine, h: Seen, e: Event): (Machine, Seen) {
    var (s', acts) := Step(c, s, e);
    (s', See(c, h, s, e, s', acts))
  }

  lemma {:induction false} RunStep(c: Limits, s: Machine, h: Seen, e: Event, es: seq<Event>)
    ensures var (s', h') := Through(c, s, h, e); RunFrom(c, s, h, [e] + es) == RunFrom(c, s', h', es)
  {
    hide Step, See;
    assert ([e] + es)[1..] == es;
  }

  /** The exception happens: with a failure limit of one, a run that ends Opened although the peer's latest
      Configure-Request was never answered. */
  lemma {:induction false} OpenedUnanswered(c: Limits, id: Byte)
    requires c.maxConfigure > 0 && c.maxFailure == 1
    ensures var (s, h) := RunFrom(c, Initially(id), UNSEEN, [LowerUp(true), Open(true), ReqAck, ReqRej, RcvAck]);
      s.state == Opened && h.request == Unanswered(true)
  {
    var s0 := Initially(id);
    var (s1, h1) := Through(c, s0, UNSEEN, LowerUp(true));
    var (s2, h2) := Through(c, s1, h1, Open(true));
    var (s3, h3) := Through(c, s2, h2, ReqAck);
    var (s4, h4) := Through(c, s3, h3, ReqRej);
    var (s5, h5) := Through(c, s4, h4, RcvAck);
    LastOf(Step(c, s3, ReqRej).1);
    assert s5.state == Opened && h5.request == Unanswered(true);
    hide Through;
    RunStep(c, s4, h4, RcvAck, []);
    RunStep(c, s3, h3, ReqRej, [RcvAck]);
    RunStep(c, s2, h2, ReqAck, [ReqRej, RcvAck]);
    RunStep(c, s1, h1, Open(true), [ReqAck, ReqRej, RcvAck]);
    RunStep(c, s0, UNSEEN, LowerUp(true), [Open(true), ReqAck, ReqRej, RcvAck]);
  }

  // ----- The restart timer ---------------------------------------------------------------------

  predicate Timed(st: State) {
    Negotiating(st) || st == Closing || st == Stopping
  }

  /** `n` expiries of the restart timer and nothing else. */
  function Expire(c: Limits, s: Machine, n: nat): (Machine, seq<Action>)
    decreases n
  {
    if n == 0 then (s, [])
    else
      var (s1, a1) := Step(c, s, Timeout);
      var (s2, a2) := Expire(c, s1, n - 1);
      (s2, a1 + a2)
  }

  function Repeat(a: Action, n: nat): seq<Action> {
    if n == 0 then [] else [a] + Repeat(a, n - 1)
  }

  function RequestOf(st: State): Action {
    if Negotiating(st) then ConfReq else TermReq
  }

  /** From any timed state with the timer running and the counter at `c >= 0`: exactly `c` more requests,
      then Closed or Stopped with the timer off and layer-finished reported once. */
  lemma {:induction false} ExpiresExactly(c: Limits, s: Machine)
    requires s.armed && s.counter >= 0 && Timed(s.state)
    ensures var (s', acts) := Expire(c, s, s.counter + 1);
      && s' == s.(state := if s.state == Closing then Closed else Stopped, counter := 0, armed := false)
      && acts == Repeat(RequestOf(s.state), s.counter) + [LayerFinished]
    decreases s.counter
  {
    var (s1, a1) := Step(c, s, Timeout);
    if s.counter > 0 {
      ExpiresExactly(c, s1);
      assert a1 == [RequestOf(s.state)] && RequestOf(s1.state) == RequestOf(s.state);
      var r := Repeat(RequestOf(s.state), s.counter - 1);
      assert a1 + (r + [LayerFinished]) == a1 + r + [LayerFinished];
    } else {
      assert Expire(c, s1, 0) == (s1, []);
      assert a1 + [] == [] + [LayerFinished];
    }
  }

  /** While the counter lasts the timer keeps running and nothing but requests is emitted. */
  lemma {:induction false} ExpiresSoFar(c: Limits, s: Machine, n: nat)
    requires s.armed && n <= s.counter && Timed(s.state)
    ensures var (s', acts) := Expire(c, s, n);
      && s'.armed && s'.counter == s.counter - n && Timed(s'.state) && RequestOf(s'.state) == RequestOf(s.state)
      && acts == Repeat(RequestOf(s.state), n)
    decreases n
  {
    if n > 0 {
      var (s1, a1) := Step(c, s, Timeout);
      ExpiresSoFar(c, s1, n - 1);
    }
  }

  /** The states from which an open, or the link coming up, starts a negotiation. */
  predicate Startable(s: Machine, e: Event) {
    || (e.Open? && (s.state == Closed || s.state == Stopped || s.state == Stopping || s.state == Opened))
    || (e.LowerUp? && s.state == Starting)
  }

  /** What is reported before the first Configure-Request. */
  function Before(s: Machine): seq<Action> {
    if s.state == Stopped then [LayerStarted] else if s.state == Opened then [LayerDown] else []
  }

  /** Where an open, or the link coming up, leads when it starts no negotiation. */
  function Elsewhere(s: Machine, e: Event): State {
    if s.state == Initial then (if e.Open? then Starting else Closed)
    else if s.state == Closing && e.Open? then Closed
    else s.state
  }

  /** What an unanswered open comes to, from every state and whether its first request could be sent or not. */
  lemma {:induction false} OneOpen(c: Limits, s: Machine, e: Event)
    requires c.maxConfigure > 0 && (e.Open? || e.LowerUp?)
    ensures var (s1, a1) := Step(c, s, e);
      var (s2, a2) := Expire(c, s1, c.maxConfigure);
      if !Startable(s, e) then a1 == [] && s1 == s.(state := Elsewhere(s, e))
      else if e.ok then
        s2.state == Stopped && !s2.armed && a1 + a2 == Before(s) + Repeat(ConfReq, c.maxConfigure) + [LayerFinished]
      else if s.state == Closed then
        s2.state == Stopped && !s2.armed && a1 + a2 == Repeat(ConfReq, c.maxConfigure - 1) + [LayerFinished]
      else s1.state == Starting && s1.armed && s2 == s1 && a1 + a2 == Before(s)
  {
    hide Expire, StepTimeout;
    var (s1, a1) := Step(c, s, e);
    if Startable(s, e) {
      if e.ok || s.state == Closed {
        ExpiresExactly(c, s1);
        OpenCount(c, s, e);
      } else {
        StartingStays(c, s1, c.maxConfigure);
        assert a1 == Before(s);
        assert a1 + [] == a1;
      }
    }
  }

  lemma {:induction false} OpenCount(c: Limits, s: Machine, e: Event)
    requires c.maxConfigure > 0 && Startable(s, e) && (e.ok || s.state == Closed)
    ensures var (s1, a1) := Step(c, s, e);
      && s1.state == ReqSent && s1.armed && s1.counter == c.maxConfigure - 1
      && a1 + (Repeat(ConfReq, c.maxConfigure - 1) + [LayerFinished]) ==
           Before(s) + Repeat(ConfReq, c.maxConfigure - if e.ok then 0 else 1) + [LayerFinished]
  {
    var a1 := Step(c, s, e).1;
    var r, f := Repeat(ConfReq, c.maxConfigure - 1), [LayerFinished];
    if e.ok {
      assert a1 == Before(s) + [ConfReq];
      hide Step;
      assert Before(s) + [ConfReq] + (r + f) == Before(s) + ([ConfReq] + r) + f;
    } else {
      assert a1 == [] && Before(s) == [];
      assert [] + (r + f) == [] + r + f;
    }
  }

  /** Before the link is up expiries do nothing. */
  lemma {:induction false} StartingStays(c: Limits, s: Machine, n: nat)
    requires s.state == Starting
    ensures Expire(c, s, n) == (s, [])
    decreases n
  {
    if n > 0 {
      StartingStays(c, s, n - 1);
      var none: seq<Action> := [];
      assert none + none == none;
    }
  }

  /** An unanswered close sends max-terminate + 1 Terminate-Requests in all, and ends Closed. */
  lemma {:induction false} OneClose(c: Limits, s: Machine)
    requires Negotiating(s.state) || s.state == Opened
    ensures var (s1, a1) := Step(c, s, Close);
      var (s2, a2) := Expire(c, s1, c.maxTerminate + 1);
      && s2.state == Closed && !s2.armed
      && a1 + a2 == (if s.state == Opened then [LayerDown] else []) + Repeat(TermReq, c.maxTerminate + 1) + [LayerFinished]
  {
    hide Expire;
    var (s1, a1) := Step(c, s, Close);
    ExpiresExactly(c, s1);
    var d, r := if s.state == Opened then [LayerDown] else [], Repeat(TermReq, c.maxTerminate);
    assert a1 == d + [TermReq];
    assert d + [TermReq] + (r + [LayerFinished]) == d + ([TermReq] + r) + [LayerFinished];
  }

  /** The timer never runs while the layer is Opened. */
  lemma {:induction false} OpenedUntimed(c: Limits, s: Machine, e: Event)
    requires s.state == Opened ==> !s.armed
    ensures var s' := Step(c, s, e).0; s'.state == Opened ==> !s'.armed
  {
  }

  /** A negotiating or closing state is entered with the timer running, except from Opened by anything but
      an open, a close or the peer's Terminate-Request. */
  lemma {:induction false} EnteringArms(c: Limits, s: Machine, e: Event)
    requires (s.state == Opened ==> !s.armed) && !Timed(s.state) && Timed(Step(c, s, e).0.state)
    ensures Step(c, s, e).0.armed <==> s.state != Opened || e.Open? || e == Close || e == RcvTermReq
  {
  }

  /** Between such states the timer stops exactly on a Terminate-Ack, and starts exactly when a
      Configure-Reject or Configure-Nak is followed up, a negotiating layer is closed, or a stopping one
      opened. */
  lemma {:induction false} StayingArmed(c: Limits, s: Machine, e: Event)
    requires Timed(s.state) && Timed(Step(c, s, e).0.state)
    ensures Step(c, s, e).0.armed <==>
      || (s.armed && e != RcvTermAck)
      || (e == RcvRej && (s.state == ReqSent || s.state == AckSent) && s.failures + 1 != c.maxFailure)
      || (e == Close && Negotiating(s.state))
      || (e.Open? && s.state == Stopping)
  {
  }

  /** Without its timer a state is not ended by time. */
  lemma {:induction false} UntimedStays(c: Limits, s: Machine, n: nat)
    requires !s.armed
    ensures Expire(c, s, n) == (s, [])
    decreases n
  {
    if n > 0 {
      UntimedStays(c, s, n - 1);
      var none: seq<Action> := [];
      assert none + none == none;
    }
  }

  /** The four events that open a layer. */
  const OPENING := [LowerUp(true), Open(true), ReqAck, RcvAck]

  lemma {:induction false} AfterOpening(c: Limits, id: Byte, e: Event) returns (s: Machine, h: Seen)
    requires c.maxConfigure > 0
    ensures s.state == Opened && !s.armed
    ensures RunFrom(c, Initially(id), UNSEEN, OPENING + [e]) == Through(c, s, h, e)
  {
    var s0 := Initially(id);
    var (s1, h1) := Through(c, s0, UNSEEN, LowerUp(true));
    var (s2, h2) := Through(c, s1, h1, Open(true));
    var (s3, h3) := Through(c, s2, h2, ReqAck);
    var (s4, h4) := Through(c, s3, h3, RcvAck);
    assert s4.state == Opened && !s4.armed;
    hide Through;
    RunStep(c, s4, h4, e, []);
    RunStep(c, s3, h3, RcvAck, [e]);
    RunStep(c, s2, h2, ReqAck, [RcvAck, e]);
    RunStep(c, s1, h1, Open(true), [ReqAck, RcvAck, e]);
    RunStep(c, s0, UNSEEN, LowerUp(true), [Open(true), ReqAck, RcvAck, e]);
    assert OPENING + [e] == [LowerUp(true)] + [Open(true), ReqAck, RcvAck, e];
    s, h := s4, h4;
  }

  /** A run that renegotiates an open layer and then waits without a timer. */
  lemma {:induction false} RenegotiationUntimed(c: Limits, id: Byte)
    requires c.maxConfigure > 0
    ensures var (s, _) := RunFrom(c, Initially(id), UNSEEN, OPENING + [ReqAck]);
      s.state == AckSent && !s.armed
  {
    hide RunFrom, See;
    var s, h := AfterOpening(c, id, ReqAck);
  }

  /** A run that a bad Code-Reject leaves in Stopping without a timer. */
  lemma {:induction false} StoppingUntimed(c: Limits, id: Byte)
    requires c.maxConfigure > 0
    ensures var (s, _) := RunFrom(c, Initially(id), UNSEEN, OPENING + [CodeRejBad]);
      s.state == Stopping && !s.armed
  {
    hide RunFrom, See;
    var s, h := AfterOpening(c, id, CodeRejBad);
  }

  // ----- What is reported to the layer ---------------------------------------------------------

  /** Layer-up is reported exactly on entering Opened.  Layer-down is reported exactly on leaving it other
      than by close2, and when negotiation is given up with an Ack outstanding or on the peer's Reject. */
  lemma {:induction false} UpDownExactly(c: Limits, s: Machine, e: Event)
    ensures var (s', acts) := Step(c, s, e);
      && (LayerUp in acts <==> s.state != Opened && s'.state == Opened)
      && (LayerDown in acts <==>
            || (s.state == Opened && s'.state != Opened && e != Close2)
            || (GivesUp(c, s, e) && (e == RcvRej || s.state == AckSent || s.state == Stopped)))
  {
    if e.Open? {
      OpenReports(c, s, e.ok);
    }
  }

  lemma {:induction false} OpenReports(c: Limits, s: Machine, ok: bool)
    ensures var acts := StepOpen(c, s, ok).1;
      && LayerUp !in acts && LayerFinished !in acts && (LayerDown in acts <==> s.state == Opened)
  {
  }

  /** Layer-finished is reported exactly when a timed state ends in Closed or Stopped other than by close2,
      when a layer still starting is closed, and when negotiation is given up with no Ack outstanding. */
  lemma {:induction false} FinishedExactly(c: Limits, s: Machine, e: Event)
    ensures var (s', acts) := Step(c, s, e);
      LayerFinished in acts <==>
        || (Timed(s.state) && (s'.state == Closed || s'.state == Stopped) && e != Close2 && !e.Open?)
        || (s.state == Starting && e == Close)
        || (GivesUp(c, s, e) && e != RcvRej && s.state != AckSent && s.state != Stopped)
  {
    if e.Open? {
      OpenReports(c, s, e.ok);
    }
  }

  // ----- The event functions as the program has them -------------------------------------------

  class Layer {
    const limits: Limits
    var state: State
    var armed: bool
    var restartCounter: int
    var confFailure: int
    var id: Byte
    /** Every action emitted so far. */
    var out: seq<Action>
    ghost var seen: Seen

    ghost function View(): Machine
      reads this
    {
      Machine(state, armed, restartCounter, confFailure, id)
    }

    /** The layer is open, or has acked or been acked, only as agreed with the peer. */
    ghost predicate Valid()
      reads this
    {
      Agreed(View(), seen)
    }

    /** The new state, the new actions and what the outside saw are those of the automaton. */
    twostate predicate Did(e: Event)
      reads this
    {
      var (m, acts) := Step(limits, old(View()), e);
      View() == m && out == old(out) + acts && seen == See(limits, old(seen), old(View()), e, m, acts)
    }

    constructor (limits: Limits, id: Byte)
      ensures this.limits == limits && View() == Initially(id) && out == [] && seen == UNSEEN && Valid()
    {
      this.limits, state, armed, restartCounter, confFailure := limits, Initial, false, 0, 0;
      this.id, out, seen := id, [], UNSEEN;
    }

    /** Records an event that is about to be handled. */
    ghost method Note(e: Event)
      requires Valid()
      modifies this`seen
      ensures var (m, acts) := Step(limits, View(), e);
        seen == See(limits, old(seen), View(), e, m, acts) && Agreed(m, seen)
    {
      hide Step, See, Agreed;
      AgreedStep(limits, View(), seen, e);
      var (m, acts) := Step(limits, View(), e);
      seen := See(limits, seen, View(), e, m, acts);
    }

    method InitReqCounter(n: int)
      modifies this`restartCounter, this`armed
      ensures restartCounter == n && armed
    {
      restartCounter := n;
      if !armed {
        armed := true;
      }
    }

    /** Loads the counter, counts the first request and sends it. */
    method FirstRequest(n: int)
      modifies this`restartCounter, this`armed, this`out
      ensures restartCounter == n - 1 && armed && out == old(out) + [ConfReq]
    {
      InitReqCounter(n);
      restartCounter := restartCounter - 1;
      out := out + [ConfReq];
    }

    /** An open layer goes down and sends a request, without loading the counter. */
    method Renegotiate()
      modifies this`restartCounter, this`out
      ensures restartCounter == old(restartCounter) - 1 && out == old(out) + [LayerDown, ConfReq]
    {
      out := out + [LayerDown];
      restartCounter := restartCounter - 1;
      out := out + [ConfReq];
    }

    method LowerUp(sendOk: bool) returns (ok: bool)
      requires Valid()
      modifies this
      ensures Valid() && Did(Event.LowerUp(sendOk)) && (!ok <==> old(state) == Starting && !sendOk)
    {
      hide See, Agreed;
      Note(Event.LowerUp(sendOk));
      ok := GoUp(sendOk);
    }

    method GoUp(sendOk: bool) returns (ok: bool)
      modifies this
      ensures seen == old(seen) && (!ok <==> old(state) == Starting && !sendOk)
      ensures View() == StepLowerUp(limits, old(View()), sendOk).0
      ensures out == old(out) + StepLowerUp(limits, old(View()), sendOk).1
    {
      ok := true;
      if state == Initial {
        state := Closed;
      } else if state == Starting {
        InitReqCounter(limits.maxConfigure);
        restartCounter := restartCounter - 1;
        if !sendOk {
          return false;
        }
        out := out + [ConfReq];
        state := ReqSent;
      }
    }

    method LowerDown()
      requires Valid()
      modifies this
      ensures Valid() && Did(Event.LowerDown)
    {
      hide See, Agreed;
      Note(Event.LowerDown);
      GoDown();
    }

    method GoDown()
      modifies this
      ensures seen == old(seen)
      ensures View() == StepLowerDown(old(View())).0 && out == old(out) + StepLowerDown(old(View())).1
    {
      if state == Closed || state == Closing {
        state := Initial;
      } else if state == Stopped {
        out := out + [LayerStarted];
        state := Starting;
      } else if state == Opened {
        out := out + [LayerDown];
        state := Starting;
      } else if state != Initial && state != Starting {
        state := Starting;
      }
    }

    method Open(sendOk: bool) returns (ok: bool)
      requires Valid()
      modifies this
      ensures Valid() && Did(Event.Open(sendOk)) && (!ok <==> old(state) == Closed && !sendOk)
    {
      hide See, Agreed;
      Note(Event.Open(sendOk));
      ok := true;
      if state == Initial {
        state := Starting;
      } else if state == Closed {
        InitReqCounter(limits.maxConfigure);
        restartCounter := restartCounter - 1;
        state := ReqSent;
        if !sendOk {
          return false;
        }
        out := out + [ConfReq];
      } else if state == Closing || state == Stopping || state == Stopped || state == Opened {
        GoDown();
        var _ := GoUp(sendOk);
      }
    }

    method Close()
      requires Valid()
      modifies this
      ensures Valid() && Did(Event.Close)
    {
      hide See, Agreed;
      Note(Event.Close);
      if state == Starting {
        armed := false;
        state := Initial;
        out := out + [LayerFinished];
      } else if state == Stopped {
        state := Closed;
        armed := false;
      } else if state == Stopping {
        state := Closing;
      } else if state != Initial && state != Closed && state != Closing {
        if state == Opened {
          state := Closing;
          out := out + [LayerDown];
        }
        InitReqCounter(limits.maxTerminate);
        out := out + [TermReq];
        state := Closing;
      }
    }

    method Close2()
      requires Valid()
      modifies this
      ensures Valid() && Did(Event.Close2)
    {
      hide See, Agreed;
      Note(Event.Close2);
      armed := false;
      state := Closed;
    }

    method Timeout0()
      modifies this
      ensures seen == old(seen)
      ensures View() == StepTimeout0(old(View())).0 && out == old(out) + StepTimeout0(old(View())).1
    {
      if state == Closing || state == Stopping {
        restartCounter := restartCounter - 1;
        out := out + [TermReq];
      } else if Negotiating(state) {
        if state == AckRcvd {
          state := ReqSent;
        }
        restartCounter := restartCounter - 1;
        out := out + [ConfReq];
      }
    }

    method Timeout1()
      modifies this
      ensures seen == old(seen)
      ensures View() == StepTimeout1(old(View())).0 && out == old(out) + StepTimeout1(old(View())).1
    {
      if state == Closing {
        armed := false;
        state := Closed;
        out := out + [LayerFinished];
      } else if state == Stopping || Negotiating(state) {
        armed := false;
        state := Stopped;
        out := out + [LayerFinished];
      }
    }

    /** The timer calls this only while it is armed. */
    method RestartTimer()
      requires Valid() && armed
      modifies this
      ensures Valid() && Did(Event.Timeout)
    {
      hide See, Agreed;
      Note(Event.Timeout);
      if restartCounter > 0 {
        Timeout0();
      } else {
        Timeout1();
      }
    }

    method RecvConfReqAck()
      requires Valid()
      modifies this
      ensures Valid() && Did(Event.ReqAck)
    {
      hide See, Agreed;
      Note(Event.ReqAck);
      if state == Closed {
        out := out + [TermAck];
      } else if state == AckRcvd {
        out := out + [ConfAck];
        armed := false;
        out := out + [LayerUp];
        state := Opened;
      } else if state == Opened {
        Renegotiate();
        out := out + [ConfAck];
        state := AckSent;
      } else {
        if state == Stopped {
          FirstRequest(limits.maxConfigure);
        }
        if state == Stopped || state == ReqSent || state == AckSent {
          out := out + [ConfAck];
          state := AckSent;
        }
      }
    }

    method RecvConfReqNak()
      requires Valid()
      modifies this
      ensures Valid() && Did(Event.ReqNak)
    {
      hide See, Agreed;
      Note(Event.ReqNak);
      if state == Closed {
        out := out + [TermAck];
      } else if state == Opened {
        Renegotiate();
        out := out + [ConfNak];
        state := ReqSent;
      } else {
        if state == Stopped {
          FirstRequest(limits.maxConfigure);
        }
        if state == Stopped || state == AckSent {
          out := out + [ConfNak];
          state := ReqSent;
        } else if state == ReqSent || state == AckRcvd {
          confFailure := confFailure + 1;
          if confFailure == limits.maxFailure {
            out := out + [LayerFinished];
            return;
          }
          out := out + [ConfNak];
        }
      }
    }

    method RecvConfReqRej()
      requires Valid()
      modifies this
      ensures Valid() && Did(Event.ReqRej)
    {
      hide See, Agreed;
      Note(Event.ReqRej);
      if state == Closed {
        out := out + [TermAck];
      } else if state == Opened {
        Renegotiate();
        out := out + [ConfRej];
        state := ReqSent;
      } else {
        if state == Stopped {
          FirstRequest(limits.maxConfigure);
        }
        if state == Stopped || state == AckSent {
          confFailure := confFailure + 1;
          if confFailure == limits.maxFailure {
            out := out + [LayerDown];
            return;
          }
          out := out + [ConfRej];
          state := ReqSent;
        } else if state == ReqSent || state == AckRcvd {
          confFailure := confFailure + 1;
          if confFailure == limits.maxFailure {
            out := out + [LayerFinished];
            return;
          }
          out := out + [ConfRej];
        }
      }
    }

    method RecvConfAck()
      requires Valid()
      modifies this
      ensures Valid() && Did(Event.RcvAck)
    {
      hide See, Agreed;
      Note(Event.RcvAck);
      id := Bump(id);
      if state == Closed || state == Stopped {
        out := out + [TermAck];
      } else if state == ReqSent {
        state := AckRcvd;
      } else if state == AckSent {
        armed := false;
        out := out + [LayerUp];
        state := Opened;
      } else if state == Opened {
        Renegotiate();
        state := ReqSent;
      } else if state == AckRcvd {
        restartCounter := restartCounter - 1;
        out := out + [ConfReq];
        state := ReqSent;
      }
    }

    /** Counts the peer's refusal of a request; unless that uses up the limit, sends another. */
    method FollowUp(n: int)
      modifies this`confFailure, this`restartCounter, this`armed, this`out
      ensures confFailure == old(confFailure) + 1
      ensures confFailure == limits.maxFailure ==>
        restartCounter == old(restartCounter) && armed == old(armed) && out == old(out) + [LayerDown]
      ensures confFailure != limits.maxFailure ==> restartCounter == n - 1 && armed && out == old(out) + [ConfReq]
    {
      confFailure := confFailure + 1;
      if confFailure == limits.maxFailure {
        out := out + [LayerDown];
        return;
      }
      FirstRequest(n);
    }

    method RecvConfRej()
      requires Valid()
      modifies this
      ensures Valid() && Did(Event.RcvRej)
    {
      hide See, Agreed;
      Note(Event.RcvRej);
      id := Bump(id);
      if state == Closed || state == Stopped {
        out := out + [TermAck];
      } else if state == ReqSent {
        FollowUp(limits.maxFailure);
      } else if state == AckSent {
        FollowUp(limits.maxConfigure);
      } else if state == AckRcvd {
        restartCounter := restartCounter - 1;
        out := out + [ConfReq];
        state := ReqSent;
      } else if state == Opened {
        Renegotiate();
        state := ReqSent;
      }
    }

    method RecvTermReq()
      requires Valid()
      modifies this
      ensures Valid() && Did(Event.RcvTermReq)
    {
      hide See, Agreed;
      Note(Event.RcvTermReq);
      if state == Opened {
        out := out + [LayerDown];
        out := out + [TermAck];
        InitReqCounter(0);
        state := Stopping;
      } else {
        out := out + [TermAck];
        if Negotiating(state) {
          state := ReqSent;
        }
      }
    }

    method RecvTermAck()
      requires Valid()
      modifies this
      ensures Valid() && Did(Event.RcvTermAck)
    {
      hide See, Agreed;
      Note(Event.RcvTermAck);
      armed := false;
      if state == Closing {
        state := Closed;
        out := out + [LayerFinished];
      } else if state == Stopping {
        state := Stopped;
        out := out + [LayerFinished];
      } else if state == AckRcvd {
        state := ReqSent;
      } else if state == Opened {
        Renegotiate();
        state := ReqSent;
      }
    }

    method RecvUnknown()
      requires Valid()
      modifies this
      ensures Valid() && Did(Event.RcvUnknown)
    {
      hide See, Agreed;
      Note(Event.RcvUnknown);
      out := out + [CodeRej];
    }

    method RecvCodeRejPerm()
      requires Valid()
      modifies this
      ensures Valid() && Did(Event.CodeRejPerm)
    {
      hide See, Agreed;
      Note(Event.CodeRejPerm);
      if state == AckRcvd {
        state := ReqSent;
      }
    }

    method RecvCodeRejBad()
      requires Valid()
      modifies this
      ensures Valid() && Did(Event.CodeRejBad)
    {
      hide See, Agreed;
      Note(Event.CodeRejBad);
      if state == Opened {
        out := out + [LayerDown];
        restartCounter := restartCounter - 1;
        out := out + [TermReq];
        state := Stopping;
      } else if state == Closing {
        state := Closed;
        out := out + [LayerFinished];
      } else {
        if state == Stopping || Negotiating(state) {
          state := Stopped;
          out := out + [LayerFinished];
        }
      }
    }
  }
}
