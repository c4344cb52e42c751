/**
  What every script of a session goes through: a slot, a fork, and the exit of its child, in every
  interleaving of the sessions and the reaper.
 */
module ForkScripts {
  import opened Base
  import opened ForkLimit

  /** After its start a script owns the next slot if one is free, and otherwise waits at the end of its queue. */
  lemma {:induction false} BeginExactly(st: State, i: nat, k: Script)
    requires Enabled(st, Begin(i, k))
    ensures var g, st' := st.gate, Next(st, Begin(i, k));
      && i < |st.ss| && st'.ss == st.ss[i := st.ss[i].(pc := if g.cnt < g.limit then Granted(k, st.next) else Queued(k))]
      && st'.gate.cnt == g.cnt + (if g.cnt < g.limit then 1 else 0)
      && st'.gate.queue0 == g.queue0 + (if g.cnt >= g.limit && k == PreUp then [i] else [])
      && st'.gate.queue1 == g.queue1 + (if g.cnt >= g.limit && k != PreUp then [i] else [])
  {
  }

  /** A slot given back makes at most one waiter its owner, and changes nothing else of any session. */
  lemma {:induction false} ReleaseMoves(st: State, i: nat)
    requires i < |st.ss|
    ensures |Release(st).ss| == |st.ss| && Release(st).reaper == st.reaper
    ensures var s, s' := st.ss[i], Release(st).ss[i];
      s' == s || (s.pc.Queued? && s' == s.(pc := Granted(s.pc.k, st.next)))
  {
  }

  lemma {:induction false} StageReleasing(st: State, e: Event, i: nat)
    requires Enabled(st, e) && i < |st.ss| && (e.DropFailed? || e.DropUp? || e.HandlerRelease?)
    ensures i < |Next(st, e).ss| && (e != DropFailed(i) ==> Next(st, e).ss[i].stage == st.ss[i].stage)
  {
    hide Release;
    ReleaseMoves(if e.HandlerRelease? then Vacated(st) else Dropped(st, e), i);
  }

  /** A session goes on to its next stage only when a script is skipped, is over or could not be forked. */
  lemma {:induction false} StageExactly(st: State, e: Event, i: nat)
    requires Enabled(st, e) && i < |st.ss|
    ensures i < |Next(st, e).ss|
    ensures Next(st, e).ss[i].stage != st.ss[i].stage ==>
      || e == Skip(i) || e == Terminate(i) || e == Sync(i) || e == DropFailed(i)
      || (e == Unlock(i) && st.ss[i].pc == Listed(Up))
  {
    if e.DropFailed? || e.DropUp? || e.HandlerRelease? {
      StageReleasing(st, e, i);
    }
  }

  ghost predicate Run(sts: seq<State>, es: seq<Event>) {
    && |sts| == |es| + 1 && Inv(sts[0])
    && forall b | 0 <= b < |es| :: Enabled(sts[b], es[b]) && sts[b + 1] == Next(sts[b], es[b])
  }

  lemma {:induction false} RunInv(sts: seq<State>, es: seq<Event>, b: nat)
    requires Run(sts, es) && b <= |es|
    ensures Inv(sts[b])
  {
    hide Inv, Enabled, Next;
    if b > 0 {
      RunInv(sts, es, b - 1);
      StepSafe(sts[b - 1], es[b - 1]);
      assert sts[b - 1 + 1] == Next(sts[b - 1], es[b - 1]);
    }
  }

  // What happened between events `a` and `b`, both excluded.

  ghost predicate ForkedIn(es: seq<Event>, a: nat, b: nat, i: nat, pid: nat) {
    exists f :: a < f < b <= |es| && es[f] == ForkOk(i, pid)
  }

  ghost predicate FailedIn(es: seq<Event>, a: nat, b: nat, i: nat) {
    exists f :: a < f < b <= |es| && es[f] == ForkFail(i)
  }

  ghost predicate EndedIn(es: seq<Event>, a: nat, b: nat, i: nat, pid: nat) {
    exists f, r :: a < f < r < b <= |es| && es[f] == ForkOk(i, pid) && es[r] == Reap(pid)
  }

  ghost predicate Over(es: seq<Event>, a: nat, b: nat, i: nat) {
    exists pid :: EndedIn(es, a, b, i, pid)
  }

  lemma {:induction false} Later(es: seq<Event>, a: nat, b: nat, i: nat, pid: nat)
    requires b < |es|
    ensures ForkedIn(es, a, b, i, pid) ==> ForkedIn(es, a, b + 1, i, pid)
    ensures FailedIn(es, a, b, i) ==> FailedIn(es, a, b + 1, i)
    ensures EndedIn(es, a, b, i, pid) ==> EndedIn(es, a, b + 1, i, pid)
    ensures Over(es, a, b, i) ==> Over(es, a, b + 1, i)
    ensures a < b && es[b] == ForkOk(i, pid) ==> ForkedIn(es, a, b + 1, i, pid)
    ensures a < b && es[b] == ForkFail(i) ==> FailedIn(es, a, b + 1, i)
    ensures ForkedIn(es, a, b, i, pid) && es[b] == Reap(pid) ==> EndedIn(es, a, b + 1, i, pid)
  {
    if p :| EndedIn(es, a, b, i, p) {
      assert EndedIn(es, a, b + 1, i, p);
    }
  }

  /** How far script `k` of session `i`, begun at event `a`, has come before event `b`. */
  ghost predicate Underway(es: seq<Event>, a: nat, b: nat, i: nat, k: Script, s: Sess, r: Reaper) {
    var h := HndOf(s, WhichOf(k));
    match s.pc
    case Queued(j) => j == k
    case Granted(j, _) => j == k
    case Locked(j, _) => j == k
    case Forked(j, _) => j == k && Child(es, a, b, i, h, r)
    case Listed(j) => j == k && Child(es, a, b, i, h, r)
    case Waiting(j) => j == k && Child(es, a, b, i, h, r)
    case Failed(j, _) => j == k && FailedIn(es, a, b, i)
    case Dropping(j, _) => j == k && FailedIn(es, a, b, i)
    case Syncing(j) => j == k && Over(es, a, b, i)
    case _ => false
  }

  /** The handler's child was forked, and has ended if the reaper knows of it. */
  ghost predicate Child(es: seq<Event>, a: nat, b: nat, i: nat, h: Hnd, r: Reaper) {
    && HasPid(h) && ForkedIn(es, a, b, i, h.pid)
    && (LockedByReaper(h) || r == Reaped(h.pid) ==> EndedIn(es, a, b, i, h.pid))
  }

  /** Steps of the session itself that do not end the script. */
  lemma {:induction false} OwnStep(es: seq<Event>, a: nat, b: nat, i: nat, k: Script, st: State)
    requires Inv(st) && a < b < |es| && i < |st.ss| && Underway(es, a, b, i, k, st.ss[i], st.reaper)
    requires Enabled(st, es[b]) && es[b] in {Lock(i), ForkFail(i), Register(i), Unlock(i)}
    ensures var st' := Next(st, es[b]);
      i < |st'.ss| && (st'.ss[i].stage == st.ss[i].stage ==> Underway(es, a, b + 1, i, k, st'.ss[i], st'.reaper))
  {
    hide Inv, ForkedIn, FailedIn, EndedIn, Over;
    var h := HndOf(st.ss[i], WhichOf(k));
    Later(es, a, b, i, if HasPid(h) then h.pid else 0);
  }

  /** The fork: a pid not in use before. */
  lemma {:induction false} ForkStepOk(es: seq<Event>, a: nat, b: nat, i: nat, k: Script, st: State, pid: nat)
    requires Inv(st) && a < b < |es| && i < |st.ss| && Underway(es, a, b, i, k, st.ss[i], st.reaper)
    requires Enabled(st, es[b]) && es[b] == ForkOk(i, pid)
    ensures var st' := Next(st, es[b]); i < |st'.ss| && Underway(es, a, b + 1, i, k, st'.ss[i], st'.reaper)
  {
    hide SlotInv, QueueInv, ShapeInv, HolderInv, ForkedIn, FailedIn, EndedIn, Over, HomeOk;
    Later(es, a, b, i, pid);
    assert PidSets(st);
  }

  /** The handler keeps its pid, and gets into the reaper's hands only with that pid. */
  predicate Kept(h: Hnd, h': Hnd, r: Reaper) {
    && (HasPid(h) ==> HasPid(h') && h'.pid == h.pid)
    && (HasPid(h) && LockedByReaper(h') ==> LockedByReaper(h) || r == Reaped(h.pid))
  }

  /** The reaper has a pid only from an exit. */
  predicate FromExit(r: Reaper, r': Reaper, e: Event) {
    r'.Reaped? ==> r' == r || e == Reap(r'.pid)
  }

  /** The thread counts on the handler of script `k`. */
  predicate Relies(pc: Pc, k: Script) {
    (pc.Forked? || pc.Listed? || pc.Waiting?) && pc.k == k
  }

  /** A step that leaves the session's thread where it is. */
  lemma {:induction false} Unmoved(es: seq<Event>, a: nat, b: nat, i: nat, k: Script, s: Sess, r: Reaper, s': Sess, r': Reaper)
    requires a < b < |es| && Underway(es, a, b, i, k, s, r) && s'.pc == s.pc && FromExit(r, r', es[b])
    requires Relies(s.pc, k) ==> Kept(HndOf(s, WhichOf(k)), HndOf(s', WhichOf(k)), r)
    ensures Underway(es, a, b + 1, i, k, s', r')
  {
    hide ForkedIn, FailedIn, EndedIn, Over;
    var h := HndOf(s, WhichOf(k));
    Later(es, a, b, i, if HasPid(h) then h.pid else 0);
  }

  /** The session is woken by the exit handler of its child. */
  lemma {:induction false} Woken(es: seq<Event>, a: nat, b: nat, i: nat, k: Script, s: Sess, r: Reaper, s': Sess, r': Reaper)
    requires a < b < |es| && Underway(es, a, b, i, k, s, r) && s.pc.Waiting? && s'.pc == Syncing(s.pc.k)
    requires LockedByReaper(HndOf(s, WhichOf(k)))
    ensures Underway(es, a, b + 1, i, k, s', r')
  {
    var h := HndOf(s, WhichOf(k));
    hide ForkedIn, FailedIn;
    Later(es, a, b, i, h.pid);
    assert EndedIn(es, a, b + 1, i, h.pid);
  }

  /** What a released slot or the handler's release does to session `i`. */
  lemma {:induction false} ReleaseEffect(st: State, e: Event, i: nat, k: Script)
    requires Enabled(st, e) && i < |st.ss| && (e.DropUp? || e.DropFailed? || e.HandlerRelease?)
    ensures var st' := Next(st, e);
      && i < |st'.ss| && FromExit(st.reaper, st'.reaper, e)
      && (e != DropFailed(i) && e != DropUp(i) ==>
            || (st'.ss[i].pc == st.ss[i].pc && Kept(HndOf(st.ss[i], WhichOf(k)), HndOf(st'.ss[i], WhichOf(k)), st.reaper))
            || (st.ss[i].pc.Queued? && st'.ss[i].pc.Granted? && st'.ss[i].pc.k == st.ss[i].pc.k))
  {
    hide Release;
    ReleaseMoves(if e.HandlerRelease? then Vacated(st) else Dropped(st, e), i);
  }

  /** What the reaper's other steps do to session `i`. */
  lemma {:induction false} ReaperEffect(st: State, e: Event, i: nat, k: Script)
    requires ShapeInv(st) && Enabled(st, e) && i < |st.ss|
    requires e.Reap? || e.Find? || e.Miss? || e.HandlerClear?
    ensures var st' := Next(st, e);
      && i < |st'.ss| && FromExit(st.reaper, st'.reaper, e) && st'.ss[i].pc == st.ss[i].pc
      && (Relies(st.ss[i].pc, k) ==> Kept(HndOf(st.ss[i], WhichOf(k)), HndOf(st'.ss[i], WhichOf(k)), st.reaper))
  {
    assert SessOk(st.ss[i], i, st.reaper);
  }

  lemma {:induction false} OthersEffect(st: State, e: Event, i: nat)
    requires Enabled(st, e) && i < |st.ss|
    requires !(e.Arrive? || e.DropFailed? || e.DropUp? || e.Reap? || e.Find? || e.Miss?
      || e.HandlerRelease? || e.HandlerWake? || e.HandlerClear?)
    requires e.i != i
    ensures i < |Next(st, e).ss| && Next(st, e).ss[i] == st.ss[i] && Next(st, e).reaper == st.reaper
  {
  }

  lemma {:induction false} WakeEffect(st: State, i: nat, k: Script)
    requires ShapeInv(st) && Enabled(st, HandlerWake) && i < |st.ss|
    ensures var st' := Next(st, HandlerWake);
      && i < |st'.ss| && FromExit(st.reaper, st'.reaper, HandlerWake)
      && (st'.ss[i] == st.ss[i] ||
          (st.ss[i].pc.Waiting? && st.ss[i].pc.k != Up && st'.ss[i].pc == Syncing(st.ss[i].pc.k) && LockedByReaper(st.ss[i].hnd)))
  {
    assert SessOk(st.ss[i], i, st.reaper);
  }

  lemma {:induction false} ShapeOf(st: State)
    requires Inv(st)
    ensures ShapeInv(st)
  {
  }

  lemma {:induction false} StepRelease(es: seq<Event>, a: nat, b: nat, i: nat, k: Script, st: State)
    requires a < b < |es| && i < |st.ss| && Underway(es, a, b, i, k, st.ss[i], st.reaper) && Enabled(st, es[b])
    requires es[b].DropFailed? || es[b].DropUp? || es[b].HandlerRelease?
    ensures var st' := Next(st, es[b]);
      i < |st'.ss| && (st'.ss[i].stage == st.ss[i].stage ==> Underway(es, a, b + 1, i, k, st'.ss[i], st'.reaper))
  {
    var e := es[b];
    ReleaseEffect(st, e, i, k);
    if e == DropFailed(i) {
      DroppedOn(st, i);
    } else {
      assert e != DropUp(i);
      hide Next, Enabled, Kept, HasPid, Child, FailedIn, Over;
      if Next(st, e).ss[i].pc == st.ss[i].pc {
        Unmoved(es, a, b, i, k, st.ss[i], st.reaper, Next(st, e).ss[i], Next(st, e).reaper);
      }
    }
  }

  lemma {:induction false} DroppedOn(st: State, i: nat)
    requires Enabled(st, DropFailed(i))
    ensures i < |Next(st, DropFailed(i)).ss| && Next(st, DropFailed(i)).ss[i].stage == st.ss[i].stage + 1
  {
    hide Release;
    ReleaseMoves(Dropped(st, DropFailed(i)), i);
  }

  lemma {:induction false} StepReaper(es: seq<Event>, a: nat, b: nat, i: nat, k: Script, st: State)
    requires ShapeInv(st) && a < b < |es| && i < |st.ss| && Underway(es, a, b, i, k, st.ss[i], st.reaper) && Enabled(st, es[b])
    requires es[b].Reap? || es[b].Find? || es[b].Miss? || es[b].HandlerClear? || es[b].HandlerWake?
    ensures var st' := Next(st, es[b]); i < |st'.ss| && Underway(es, a, b + 1, i, k, st'.ss[i], st'.reaper)
  {
    hide Next, Enabled, Kept, Child, FailedIn, Over, ShapeInv;
    var e := es[b];
    if e.HandlerWake? {
      WakeEffect(st, i, k);
      if Next(st, e).ss[i] == st.ss[i] {
        KeptSame(HndOf(st.ss[i], WhichOf(k)), st.reaper);
        Unmoved(es, a, b, i, k, st.ss[i], st.reaper, Next(st, e).ss[i], Next(st, e).reaper);
      } else {
        Woken(es, a, b, i, k, st.ss[i], st.reaper, Next(st, e).ss[i], Next(st, e).reaper);
      }
    } else {
      ReaperEffect(st, e, i, k);
      Unmoved(es, a, b, i, k, st.ss[i], st.reaper, Next(st, e).ss[i], Next(st, e).reaper);
    }
  }

  lemma {:induction false} KeptSame(h: Hnd, r: Reaper)
    ensures Kept(h, h, r)
  {
  }

  lemma {:induction false} StepOthers(es: seq<Event>, a: nat, b: nat, i: nat, k: Script, st: State)
    requires a < b < |es| && i < |st.ss| && Underway(es, a, b, i, k, st.ss[i], st.reaper) && Enabled(st, es[b])
    requires var e := es[b];
      !(e.Arrive? || e.DropFailed? || e.DropUp? || e.Reap? || e.Find? || e.Miss?
        || e.HandlerRelease? || e.HandlerWake? || e.HandlerClear?) && e.i != i
    ensures var st' := Next(st, es[b]); i < |st'.ss| && Underway(es, a, b + 1, i, k, st'.ss[i], st'.reaper)
  {
    hide Next, Enabled, Kept, Child, FailedIn, Over;
    OthersEffect(st, es[b], i);
    KeptSame(HndOf(st.ss[i], WhichOf(k)), st.reaper);
    Unmoved(es, a, b, i, k, st.ss[i], st.reaper, st.ss[i], st.reaper);
  }

  /** The session's own steps while a script is under way. */
  lemma {:induction false} OwnEvents(st: State, e: Event, i: nat, k: Script, es: seq<Event>, a: nat, b: nat)
    requires Enabled(st, e) && i < |st.ss| && Underway(es, a, b, i, k, st.ss[i], st.reaper)
    requires !(e.Arrive? || e.DropFailed? || e.DropUp? || e.Reap? || e.Find? || e.Miss?
      || e.HandlerRelease? || e.HandlerWake? || e.HandlerClear?)
    requires e.i == i
    ensures e in {Lock(i), ForkFail(i), Register(i), Unlock(i), Sync(i)} || e.ForkOk?
  {
    hide Child, FailedIn, Over;
  }

  /** Every step takes a script on or ends it. */
  lemma {:induction false} StepUnderway(es: seq<Event>, a: nat, b: nat, i: nat, k: Script, st: State)
    requires Inv(st) && a < b < |es| && i < |st.ss| && Underway(es, a, b, i, k, st.ss[i], st.reaper) && Enabled(st, es[b])
    ensures var st' := Next(st, es[b]);
      i < |st'.ss| && (st'.ss[i].stage == st.ss[i].stage ==> Underway(es, a, b + 1, i, k, st'.ss[i], st'.reaper))
  {
    var e := es[b];
    ShapeOf(st);
    hide Inv, Next, Enabled, Underway, ShapeInv;
    if e.Arrive? {
      ArriveEffect(st, i);
      KeptSame(HndOf(st.ss[i], WhichOf(k)), st.reaper);
      Unmoved(es, a, b, i, k, st.ss[i], st.reaper, st.ss[i], st.reaper);
    } else if e.DropFailed? || e.DropUp? || e.HandlerRelease? {
      StepRelease(es, a, b, i, k, st);
    } else if e.Reap? || e.Find? || e.Miss? || e.HandlerClear? || e.HandlerWake? {
      StepReaper(es, a, b, i, k, st);
    } else if e.i != i {
      StepOthers(es, a, b, i, k, st);
    } else {
      OwnEvents(st, e, i, k, es, a, b);
      if e.ForkOk? {
        ForkStepOk(es, a, b, i, k, st, e.pid);
      } else if e == Sync(i) {
        SyncOn(st, i);
      } else {
        OwnStep(es, a, b, i, k, st);
      }
    }
  }

  lemma {:induction false} ArriveEffect(st: State, i: nat)
    requires i < |st.ss|
    ensures Enabled(st, Arrive) && i < |Next(st, Arrive).ss| && Next(st, Arrive).ss[i] == st.ss[i]
    ensures Next(st, Arrive).reaper == st.reaper
  {
  }

  lemma {:induction false} SyncOn(st: State, i: nat)
    requires Enabled(st, Sync(i))
    ensures i < |Next(st, Sync(i)).ss| && Next(st, Sync(i)).ss[i].stage == st.ss[i].stage + 1
  {
  }

  // ----- Whole runs ----------------------------------------------------------------------------

  /** Script `k` of session `i` begins at event `a`, and the session stays in its stage up to event `c`. */
  ghost predicate Spell(sts: seq<State>, es: seq<Event>, i: nat, k: Script, a: nat, c: nat) {
    && Run(sts, es) && a < c <= |es| && es[a] == Begin(i, k)
    && forall b | a < b < c :: SameStage(sts[b], sts[b + 1], i)
  }

  ghost predicate SameStage(st: State, st': State, i: nat) {
    i < |st.ss| && i < |st'.ss| && st'.ss[i].stage == st.ss[i].stage
  }

  lemma {:induction false} BeginUnderway(st: State, es: seq<Event>, i: nat, k: Script, a: nat)
    requires Enabled(st, Begin(i, k)) && a < |es|
    ensures var st' := Next(st, Begin(i, k)); i < |st'.ss| && Underway(es, a, a + 1, i, k, st'.ss[i], st'.reaper)
  {
    BeginExactly(st, i, k);
    hide Next, Enabled;
  }

  lemma {:induction false} SpellUnderway(sts: seq<State>, es: seq<Event>, i: nat, k: Script, a: nat, b: nat, c: nat)
    requires Spell(sts, es, i, k, a, c) && a < b <= c
    ensures i < |sts[b].ss| && Underway(es, a, b, i, k, sts[b].ss[i], sts[b].reaper)
  {
    hide Inv, Enabled, Next, Underway;
    assert sts[b - 1 + 1] == Next(sts[b - 1], es[b - 1]);
    if b == a + 1 {
      BeginUnderway(sts[a], es, i, k, a);
    } else {
      SpellUnderway(sts, es, i, k, a, b - 1, c);
      assert SameStage(sts[b - 1], sts[b - 1 + 1], i);
      RunInv(sts, es, b - 1);
      StepUnderway(es, a, b - 1, i, k, sts[b - 1]);
    }
  }

  ghost predicate OwnsSlot(st: State, i: nat, k: Script) {
    i < |st.ss| && st.ss[i].pc.Granted? && st.ss[i].pc.k == k
  }

  /** Until it owns a slot the session waits for one. */
  lemma {:induction false} WaitsOrOwns(sts: seq<State>, es: seq<Event>, i: nat, k: Script, a: nat, b: nat, c: nat)
    requires Spell(sts, es, i, k, a, c) && a < b <= c && forall d | a < d <= b :: !OwnsSlot(sts[d], i, k)
    ensures i < |sts[b].ss| && sts[b].ss[i].pc == Queued(k)
  {
    hide Inv, Enabled, Next;
    assert sts[b - 1 + 1] == Next(sts[b - 1], es[b - 1]);
    assert !OwnsSlot(sts[b], i, k);
    if b == a + 1 {
      BeginExactly(sts[a], i, k);
    } else {
      WaitsOrOwns(sts, es, i, k, a, b - 1, c);
      StillQueued(sts[b - 1], es[b - 1], i);
    }
  }

  lemma {:induction false} StillQueued(st: State, e: Event, i: nat)
    requires Enabled(st, e) && i < |st.ss| && st.ss[i].pc.Queued?
    ensures var st' := Next(st, e);
      && i < |st'.ss|
      && (st'.ss[i].pc == st.ss[i].pc || (st'.ss[i].pc.Granted? && st'.ss[i].pc.k == st.ss[i].pc.k))
  {
    if e.DropFailed? || e.DropUp? || e.HandlerRelease? {
      ReleaseEffect(st, e, i, PreUp);
      hide Next;
    }
  }

  /** The ways in which a script begun at event `a` is over at event `c`. */
  ghost predicate Outcome(es: seq<Event>, a: nat, c: nat, i: nat, k: Script)
    requires c < |es|
  {
    || (es[c] == DropFailed(i) && FailedIn(es, a, c, i))
    || (es[c] == Unlock(i) && k == Up && exists pid :: ForkedIn(es, a, c, i, pid))
    || (es[c] == Sync(i) && k != Up && Over(es, a, c, i))
  }

  lemma {:induction false} OutcomeOf(es: seq<Event>, a: nat, c: nat, i: nat, k: Script, st: State)
    requires Inv(st) && c < |es| && i < |st.ss| && Enabled(st, es[c]) && Underway(es, a, c, i, k, st.ss[i], st.reaper)
    requires es[c] in {Skip(i), Terminate(i), Sync(i), DropFailed(i)} || (es[c] == Unlock(i) && st.ss[i].pc == Listed(Up))
    ensures Outcome(es, a, c, i, k) && !st.ss[i].pc.Queued?
  {
    if es[c] == Sync(i) {
      SyncsMain(st, i);
    }
    hide Inv, FailedIn, ForkedIn, EndedIn, Over;
  }

  /** In every run a script that began ends in one of three ways, and always after its session owned a slot: the
      fork failed; ip-up was forked; ip-pre-up or ip-down was forked and its child has exited. */
  lemma {:induction false} ScriptOutcome(sts: seq<State>, es: seq<Event>, i: nat, k: Script, a: nat, c: nat)
    requires Spell(sts, es, i, k, a, c) && c < |es| && !SameStage(sts[c], sts[c + 1], i)
    ensures Outcome(es, a, c, i, k) && exists b :: a < b <= c && OwnsSlot(sts[b], i, k)
  {
    hide Inv, Next, Enabled, Outcome, Underway, OwnsSlot;
    SpellUnderway(sts, es, i, k, a, c, c);
    assert Enabled(sts[c], es[c]) && sts[c + 1] == Next(sts[c], es[c]);
    StageExactly(sts[c], es[c], i);
    RunInv(sts, es, c);
    OutcomeOf(es, a, c, i, k, sts[c]);
    if forall b | a < b <= c :: !OwnsSlot(sts[b], i, k) {
      WaitsOrOwns(sts, es, i, k, a, c, c);
      assert false;
    }
  }

  lemma {:induction false} SyncsMain(st: State, i: nat)
    requires Inv(st) && i < |st.ss| && st.ss[i].pc.Syncing?
    ensures st.ss[i].pc.k != Up
  {
    assert SessOk(st.ss[i], i, st.reaper);
  }
}
