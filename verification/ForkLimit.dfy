/**
  The fork limiter and the child reaper: session threads, the reaper thread and handler
  unregistration interleave over a counting semaphore that hands slots directly to waiters.
  Each step below is one critical section of the program (or one unlocked access).
 */
module ForkLimit {
  import opened Base

  // ----- The semaphore -------------------------------------------------------------------------

  datatype Script = PreUp | Up | Down

  datatype Gate = Gate(limit: nat, cnt: nat, queue0: seq<nat>, queue1: seq<nat>)

  /** Takes a slot, or joins the queue of the script; tells whether a slot was taken. */
  function Take(g: Gate, i: nat, k: Script): (Gate, bool) {
    if g.cnt < g.limit then (g.(cnt := g.cnt + 1), true)
    else if k == PreUp then (g.(queue0 := g.queue0 + [i]), false)
    else (g.(queue1 := g.queue1 + [i]), false)
  }

  /** Gives a slot back: to the first of the pre-up queue, else of the other queue, else to the count. */
  function Give(g: Gate): (Gate, Option<nat>) {
    if g.queue0 != [] then (g.(queue0 := g.queue0[1..]), Some(g.queue0[0]))
    else if g.queue1 != [] then (g.(queue1 := g.queue1[1..]), Some(g.queue1[0]))
    else (g.(cnt := if g.cnt > 0 then g.cnt - 1 else 0), None)
  }

  /** The program's variables; a limit of zero switches the limiter off. */
  class ForkQueue {
    const limit: nat
    var forkCnt: nat
    var queue0: seq<nat>
    var queue1: seq<nat>

    ghost function View(): Gate
      reads this
    {
      Gate(limit, forkCnt, queue0, queue1)
    }

    constructor (limit: nat)
      ensures View() == Gate(limit, 0, [], [])
    {
      this.limit, forkCnt, queue0, queue1 := limit, 0, [], [];
    }

    /** `sleep` tells whether the caller has to wait for a slot. */
    method CheckForkLimit(i: nat, k: Script) returns (sleep: bool)
      modifies this
      ensures limit == 0 ==> !sleep && View() == old(View())
      ensures limit > 0 ==> (View(), !sleep) == Take(old(View()), i, k)
    {
      if limit == 0 {
        return false;
      }
      if forkCnt >= limit {
        if k == PreUp {
          queue0 := queue0 + [i];
        } else {
          queue1 := queue1 + [i];
        }
        return true;
      }
      forkCnt := forkCnt + 1;
      return false;
    }

    /** Releases a slot; `woken` is the waiter that now owns it. */
    method ForkQueueWakeup() returns (woken: Option<nat>)
      requires limit > 0 && queue0 == [] && queue1 == [] ==> forkCnt > 0
      modifies this
      ensures limit == 0 ==> woken.None? && View() == old(View())
      ensures limit > 0 ==> (View(), woken) == Give(old(View()))
    {
      if limit == 0 {
        return None;
      }
      if queue0 != [] {
        woken := Some(queue0[0]);
        queue0 := queue0[1..];
        return;
      }
      if queue1 != [] {
        woken := Some(queue1[0]);
        queue1 := queue1[1..];
        return;
      }
      forkCnt := forkCnt - 1;
      woken := None;
    }
  }

  // ----- States --------------------------------------------------------------------------------

  /** A handler record: its pid field, whether it is listed, whether the reaper holds its lock, and
      the slot its child occupies.  `Prep` is filled in but not yet listed; the reaper has delisted
      `Taken` and `Spent`, and given the slot of `Spent` back. */
  datatype Hnd = Free | Prep(pid: nat) | Live(pid: nat, t: nat) | Taken(pid: nat, t: nat) | Spent(pid: nat)

  /** Which of a session's two handler records. */
  datatype Which = Main | IpUp

  /** Where a session thread is. */
  datatype Pc =
    | Idle                          // between scripts, see `stage`
    | Queued(k: Script)             // asleep, waiting for a slot
    | Granted(k: Script, t: nat)    // owns slot t, about to fork
    | Locked(k: Script, t: nat)     // holds a reaper lock reference
    | Forked(k: Script, t: nat)     // the child runs; handler not yet listed
    | Listed(k: Script)             // handler listed; reference still held
    | Failed(k: Script, t: nat)     // fork failed; reference still held
    | Dropping(k: Script, t: nat)   // about to release after the failed fork
    | Waiting(k: Script)            // asleep until the exit handler runs
    | Syncing(k: Script)            // woken; passes through the handler lock
    | UpLock                        // saw a pid in the ip-up handler
    | UpUnreg                       // killed the child, about to unregister
    | UpHold                        // unregistering: holds the list lock, waits for the handler lock
    | UpDrop(t: nat)                // unregistered, about to release
    | Gone

  datatype Sess = Sess(pc: Pc, stage: nat, hnd: Hnd, up: Hnd)

  datatype Reaper =
    | Sleeping
    | Reaped(pid: nat)                             // has a pid, waits for no references
    | Calling(i: nat, w: Which)                    // holds the handler's lock, calls it
    | Finishing(i: nat, w: Which, woken: bool)     // slot given back; wakes the session, clears the pid

  /** `next` numbers the slots handed out, `returned` are the numbers given back.  `home` tells whose
      handler a pid is in; `orphaned` are pids whose handler was unregistered.  `holder` is
      the session that keeps the list lock while it waits for a handler lock. */
  datatype State = State(
    gate: Gate, ss: seq<Sess>, lockRefs: nat, reaper: Reaper,
    unreaped: set<nat>, used: set<nat>,
    next: nat, returned: multiset<nat>,
    home: map<nat, (nat, Which)>, orphaned: set<nat>, holder: Option<nat>)

  function Init(limit: nat): State {
    State(Gate(limit, 0, [], []), [], 0, Sleeping, {}, {}, 0, multiset{}, map[], {}, None)
  }

  function WhichOf(k: Script): Which {
    if k == Up then IpUp else Main
  }

  /** The stage at which a script runs: pre-up 0, ip-up 1, ip-down 3. */
  function StageOf(k: Script): nat {
    match k case PreUp => 0 case Up => 1 case Down => 3
  }

  function HndOf(s: Sess, w: Which): Hnd {
    if w == Main then s.hnd else s.up
  }

  function SetHnd(s: Sess, w: Which, h: Hnd): Sess {
    if w == Main then s.(hnd := h) else s.(up := h)
  }

  predicate HasPid(h: Hnd) { h != Free }

  predicate LockedByReaper(h: Hnd) { h.Taken? || h.Spent? }

  function Put(st: State, i: nat, s: Sess): State
    requires i < |st.ss|
  {
    st.(ss := st.ss[i := s])
  }

  function Go(st: State, i: nat, pc: Pc): State
    requires i < |st.ss|
  {
    Put(st, i, st.ss[i].(pc := pc))
  }

  /** The script finished or was skipped. */
  function Advance(st: State, i: nat): State
    requires i < |st.ss|
  {
    Put(st, i, st.ss[i].(pc := Idle, stage := st.ss[i].stage + 1))
  }

  // ----- Steps ---------------------------------------------------------------------------------

  datatype Event =
    | Arrive
    | Skip(i: nat) | Terminate(i: nat) | Begin(i: nat, k: Script)
    | Lock(i: nat) | ForkOk(i: nat, pid: nat) | ForkFail(i: nat) | Register(i: nat) | Unlock(i: nat)
    | DropFailed(i: nat) | Sync(i: nat)
    | TestUp(i: nat) | TakeUpLock(i: nat) | TakeList(i: nat) | Unregister(i: nat) | DropUp(i: nat)
    | Reap(pid: nat) | Find(i: nat, w: Which) | Miss | HandlerRelease | HandlerWake | HandlerClear


  predicate Enabled(st: State, e: Event) {
    match e
    case Arrive => true
    case Skip(i) => i < |st.ss| && st.ss[i].pc.Idle? && st.ss[i].stage in {0, 1, 3}
    case Terminate(i) => i < |st.ss| && st.ss[i].pc.Idle? && st.ss[i].stage < 3
    case Begin(i, k) => i < |st.ss| && st.ss[i].pc.Idle? && st.ss[i].stage == StageOf(k)
    case Lock(i) => i < |st.ss| && st.ss[i].pc.Granted? && st.holder.None?
    case ForkOk(i, pid) => i < |st.ss| && st.ss[i].pc.Locked? && pid > 0 && pid !in st.used
    case ForkFail(i) => i < |st.ss| && st.ss[i].pc.Locked?
    case Register(i) =>
      i < |st.ss| && st.ss[i].pc.Forked? && HndOf(st.ss[i], WhichOf(st.ss[i].pc.k)).Prep? && st.holder.None?
    case Unlock(i) =>
      i < |st.ss| && (st.ss[i].pc.Listed? || st.ss[i].pc.Failed?) && st.lockRefs > 0 && st.holder.None?
    case DropFailed(i) => i < |st.ss| && st.ss[i].pc.Dropping?
    case Sync(i) => i < |st.ss| && st.ss[i].pc.Syncing? && !LockedByReaper(st.ss[i].hnd)
    case TestUp(i) => i < |st.ss| && st.ss[i].pc.Idle? && st.ss[i].stage == 4
    case TakeUpLock(i) => i < |st.ss| && st.ss[i].pc.UpLock? && !LockedByReaper(st.ss[i].up)
    case TakeList(i) => i < |st.ss| && st.ss[i].pc.UpUnreg? && st.holder.None?
    case Unregister(i) => i < |st.ss| && st.ss[i].pc.UpHold? && !LockedByReaper(st.ss[i].up)
    case DropUp(i) => i < |st.ss| && st.ss[i].pc.UpDrop?
    case Reap(pid) => st.reaper.Sleeping? && pid in st.unreaped
    case Find(i, w) =>
      && st.reaper.Reaped? && st.lockRefs == 0 && st.holder.None? && i < |st.ss|
      && HndOf(st.ss[i], w).Live? && HndOf(st.ss[i], w).pid == st.reaper.pid
    case Miss => st.reaper.Reaped? && st.lockRefs == 0 && st.holder.None? && NoneListed(st, st.reaper.pid)
    case HandlerRelease =>
      st.reaper.Calling? && st.reaper.i < |st.ss| && HndOf(st.ss[st.reaper.i], st.reaper.w).Taken?
    case HandlerWake =>
      && st.reaper.Finishing? && !st.reaper.woken
      && (st.reaper.w == Main ==> st.reaper.i < |st.ss| && st.ss[st.reaper.i].pc.Waiting?)
    case HandlerClear =>
      && st.reaper.Finishing? && st.reaper.woken && st.reaper.i < |st.ss|
      && HndOf(st.ss[st.reaper.i], st.reaper.w).Spent?
  }

  predicate NoneListed(st: State, pid: nat) {
    forall i | 0 <= i < |st.ss| ::
      && !(st.ss[i].hnd.Live? && st.ss[i].hnd.pid == pid)
      && !(st.ss[i].up.Live? && st.ss[i].up.pid == pid)
  }

  /** Gives a slot back; a waiter that gets it is granted the next slot number. */
  function Release(st: State): State {
    var (g, w) := Give(st.gate);
    var st' := st.(gate := g);
    if w.Some? && w.value < |st.ss| && st.ss[w.value].pc.Queued? then
      Go(st'.(next := st.next + 1), w.value, Granted(st.ss[w.value].pc.k, st.next))
    else st'
  }

  function BeginStep(st: State, i: nat, k: Script): State
    requires i < |st.ss|
  {
    var (g, got) := Take(st.gate, i, k);
    var st' := st.(gate := g);
    if got then Go(st'.(next := st.next + 1), i, Granted(k, st.next)) else Go(st', i, Queued(k))
  }

  function ForkStep(st: State, i: nat, pid: nat): State
    requires i < |st.ss| && st.ss[i].pc.Locked?
  {
    var Locked(k, t) := st.ss[i].pc;
    Put(st.(used := st.used + {pid}, unreaped := st.unreaped + {pid}, home := st.home[pid := (i, WhichOf(k))]),
        i, SetHnd(st.ss[i].(pc := Forked(k, t)), WhichOf(k), Prep(pid)))
  }

  function RegisterStep(st: State, i: nat): State
    requires Enabled(st, Register(i))
  {
    var Forked(k, t) := st.ss[i].pc;
    Put(st, i, SetHnd(st.ss[i].(pc := Listed(k)), WhichOf(k), Live(HndOf(st.ss[i], WhichOf(k)).pid, t)))
  }

  function UnlockStep(st: State, i: nat): State
    requires Enabled(st, Unlock(i))
  {
    var st' := st.(lockRefs := st.lockRefs - 1);
    if st.ss[i].pc.Failed? then Go(st', i, Dropping(st.ss[i].pc.k, st.ss[i].pc.t))
    else if st.ss[i].pc.k == Up then Advance(st', i)
    else Go(st', i, Waiting(st.ss[i].pc.k))
  }

  function UnregisterStep(st: State, i: nat): State
    requires i < |st.ss|
  {
    match st.ss[i].up
    case Live(pid, t) =>
      Put(st.(home := st.home - {pid}, orphaned := st.orphaned + {pid}, holder := None),
          i, st.ss[i].(pc := UpDrop(t), up := Free))
    case _ => Go(st.(holder := None), i, Gone)
  }

  /** The reaper's call into the exit handler, up to and including the release of the slot. */
  function HandlerReleaseStep(st: State): State
    requires Enabled(st, HandlerRelease)
  {
    Release(Vacated(st))
  }

  /** The handler with its slot given back. */
  function Vacated(st: State): State
    requires Enabled(st, HandlerRelease)
  {
    var Calling(i, w) := st.reaper;
    Put(st.(reaper := Finishing(i, w, false), returned := st.returned + multiset{HndOf(st.ss[i], w).t}),
        i, SetHnd(st.ss[i], w, Spent(HndOf(st.ss[i], w).pid)))
  }

  /** The exit handlers of pre-up and ip-down wake their session. */
  function HandlerWakeStep(st: State): State
    requires Enabled(st, HandlerWake)
  {
    var i, w := st.reaper.i, st.reaper.w;
    var st' := st.(reaper := Finishing(i, w, true));
    if w == Main then Go(st', i, Syncing(st.ss[i].pc.k)) else st'
  }

  function HandlerClearStep(st: State): State
    requires Enabled(st, HandlerClear)
  {
    var i, w := st.reaper.i, st.reaper.w;
    Put(st.(reaper := Sleeping, home := st.home - {HndOf(st.ss[i], w).pid}), i, SetHnd(st.ss[i], w, Free))
  }

  function FindStep(st: State, i: nat, w: Which): State
    requires i < |st.ss| && HndOf(st.ss[i], w).Live?
  {
    var Live(pid, t) := HndOf(st.ss[i], w);
    Put(st.(reaper := Calling(i, w)), i, SetHnd(st.ss[i], w, Taken(pid, t)))
  }

  /** The thread gives up its slot after a failed fork or a successful unregistration. */
  function Dropped(st: State, e: Event): State
    requires Enabled(st, e) && (e.DropFailed? || e.DropUp?)
  {
    var st' := st.(returned := st.returned + multiset{st.ss[e.i].pc.t});
    if e.DropUp? then Go(st', e.i, Gone) else Advance(st', e.i)
  }

  function Next(st: State, e: Event): State
    requires Enabled(st, e)
  {
    match e
    case Arrive => st.(ss := st.ss + [Sess(Idle, 0, Free, Free)])
    case Skip(i) => Advance(st, i)
    case Terminate(i) => Put(st, i, st.ss[i].(stage := 3))
    case Begin(i, k) => BeginStep(st, i, k)
    case Lock(i) => Go(st.(lockRefs := st.lockRefs + 1), i, Locked(st.ss[i].pc.k, st.ss[i].pc.t))
    case ForkOk(i, pid) => ForkStep(st, i, pid)
    case ForkFail(i) => Go(st, i, Failed(st.ss[i].pc.k, st.ss[i].pc.t))
    case Register(i) => RegisterStep(st, i)
    case Unlock(i) => UnlockStep(st, i)
    case DropFailed(i) => Release(Dropped(st, e))
    case Sync(i) => Advance(st, i)
    case TestUp(i) => Go(st, i, if HasPid(st.ss[i].up) then UpLock else Gone)
    case TakeUpLock(i) => Go(st, i, if HasPid(st.ss[i].up) then UpUnreg else Gone)
    case TakeList(i) => Go(st.(holder := Some(i)), i, UpHold)
    case Unregister(i) => UnregisterStep(st, i)
    case DropUp(i) => Release(Dropped(st, e))
    case Reap(pid) => st.(reaper := Reaped(pid), unreaped := st.unreaped - {pid})
    case Find(i, w) => FindStep(st, i, w)
    case Miss => st.(reaper := Sleeping)
    case HandlerRelease => HandlerReleaseStep(st)
    case HandlerWake => HandlerWakeStep(st)
    case HandlerClear => HandlerClearStep(st)
  }

  // ----- Conservation of slots -----------------------------------------------------------------

  function PcSlot(pc: Pc): Option<nat> {
    match pc
    case Granted(_, t) => Some(t)
    case Locked(_, t) => Some(t)
    case Forked(_, t) => Some(t)
    case Failed(_, t) => Some(t)
    case Dropping(_, t) => Some(t)
    case UpDrop(t) => Some(t)
    case _ => None
  }

  function HndSlot(h: Hnd): Option<nat> {
    match h
    case Live(_, t) => Some(t)
    case Taken(_, t) => Some(t)
    case _ => None
  }

  function Single(o: Option<nat>): multiset<nat> {
    if o.Some? then multiset{o.value} else multiset{}
  }

  /** The slots a session and its children occupy. */
  function Slots(s: Sess): multiset<nat> {
    Single(PcSlot(s.pc)) + Single(HndSlot(s.hnd)) + Single(HndSlot(s.up))
  }

  function Held(ss: seq<Sess>): multiset<nat> {
    if ss == [] then multiset{} else Held(ss[..|ss| - 1]) + Slots(ss[|ss| - 1])
  }

  /** The slot numbers handed out so far, each once. */
  function Tickets(n: nat): (r: multiset<nat>)
    ensures forall t :: r[t] == if 0 <= t < n then 1 else 0
  {
    if n == 0 then multiset{} else Tickets(n - 1) + multiset{n - 1}
  }

  function Ref(pc: Pc): nat {
    if pc.Locked? || pc.Forked? || pc.Listed? || pc.Failed? then 1 else 0
  }

  function RefCount(ss: seq<Sess>): nat {
    if ss == [] then 0 else RefCount(ss[..|ss| - 1]) + Ref(ss[|ss| - 1].pc)
  }

  lemma {:induction false} Widen(a: multiset<nat>, b: multiset<nat>, c: multiset<nat>, d: multiset<nat>, e: multiset<nat>)
    requires a + d == b + e
    ensures (a + c) + d == (b + c) + e
  {
    forall t: nat ensures ((a + c) + d)[t] == ((b + c) + e)[t] {
      assert (a + d)[t] == (b + e)[t];
    }
  }

  lemma {:induction false} Cancel(a: multiset<nat>, b: multiset<nat>, c: multiset<nat>)
    requires a + c == b + c
    ensures a == b
  {
    forall t: nat ensures a[t] == b[t] {
      assert (a + c)[t] == (b + c)[t];
    }
  }

  lemma {:induction false} HeldUpdate(ss: seq<Sess>, i: nat, x: Sess)
    requires i < |ss|
    ensures Held(ss[i := x]) + Slots(ss[i]) == Held(ss) + Slots(x)
    decreases |ss|
  {
    hide Slots;
    var n := |ss| - 1;
    var ss' := ss[i := x];
    if i == n {
      assert ss'[..n] == ss[..n];
    } else {
      assert ss'[..n] == ss[..n][i := x];
      HeldUpdate(ss[..n], i, x);
      Widen(Held(ss'[..n]), Held(ss[..n]), Slots(ss[n]), Slots(ss[i]), Slots(x));
    }
  }

  lemma {:induction false} RefUpdate(ss: seq<Sess>, i: nat, x: Sess)
    requires i < |ss|
    ensures RefCount(ss[i := x]) + Ref(ss[i].pc) == RefCount(ss) + Ref(x.pc)
    decreases |ss|
  {
    hide Ref;
    var n := |ss| - 1;
    var ss' := ss[i := x];
    if i == n {
      assert ss'[..n] == ss[..n];
    } else {
      assert ss'[..n] == ss[..n][i := x];
      RefUpdate(ss[..n], i, x);
    }
  }

  ghost predicate GateOk(g: Gate) {
    && 0 < g.limit && g.cnt <= g.limit
    && (g.queue0 != [] || g.queue1 != [] ==> g.cnt == g.limit)
  }

  /** Every slot ever handed out is held in exactly one place or was given back exactly once; the
      count is the number of slots held, plus `debt` slots just vacated. */
  ghost predicate SlotInv(st: State, debt: nat) {
    && GateOk(st.gate)
    && Held(st.ss) + st.returned == Tickets(st.next)
    && st.gate.cnt == |Held(st.ss)| + debt
    && st.lockRefs == RefCount(st.ss)
  }

  /** The queues hold exactly the sleeping sessions, each once, in the queue of its script. */
  ghost predicate QueueInv(g: Gate, ss: seq<Sess>) {
    && (forall a | 0 <= a < |g.queue0| :: g.queue0[a] < |ss| && ss[g.queue0[a]].pc == Queued(PreUp))
    && (forall a | 0 <= a < |g.queue1| ::
          g.queue1[a] < |ss| && ss[g.queue1[a]].pc.Queued? && ss[g.queue1[a]].pc.k != PreUp)
    && (forall a, b | 0 <= a < b < |g.queue0| :: g.queue0[a] != g.queue0[b])
    && (forall a, b | 0 <= a < b < |g.queue1| :: g.queue1[a] != g.queue1[b])
    && (forall i | 0 <= i < |ss| && ss[i].pc.Queued? :: i in (if ss[i].pc.k == PreUp then g.queue0 else g.queue1))
  }

  /** A step of session `i` that moves no slot. */
  lemma {:induction false} MoveNone(st: State, st': State, i: nat, x: Sess, debt: nat)
    requires SlotInv(st, debt) && i < |st.ss| && st'.ss == st.ss[i := x] && Slots(x) == Slots(st.ss[i])
    requires st'.gate == st.gate && st'.next == st.next && st'.returned == st.returned
    requires st'.lockRefs + Ref(st.ss[i].pc) == st.lockRefs + Ref(x.pc)
    ensures SlotInv(st', debt)
  {
    hide Held, RefCount, Slots, Ref, Tickets;
    HeldUpdate(st.ss, i, x);
    RefUpdate(st.ss, i, x);
    Cancel(Held(st'.ss), Held(st.ss), Slots(x));
  }

  /** Session `i` gets the next slot. */
  lemma {:induction false} Granting(st: State, st': State, i: nat, x: Sess, debt: nat)
    requires SlotInv(st, debt) && i < |st.ss| && st'.ss == st.ss[i := x]
    requires Slots(x) == Slots(st.ss[i]) + multiset{st.next} && Ref(x.pc) == Ref(st.ss[i].pc)
    requires st'.next == st.next + 1 && st'.returned == st.returned && st'.lockRefs == st.lockRefs
    requires GateOk(st'.gate) && st'.gate.cnt == st.gate.cnt + 1 - debt
    ensures SlotInv(st', 0)
  {
    hide Held, RefCount, Slots, Ref;
    HeldUpdate(st.ss, i, x);
    RefUpdate(st.ss, i, x);
    var one := multiset{st.next};
    assert Held(st.ss) + Slots(x) == (Held(st.ss) + one) + Slots(st.ss[i]);
    Cancel(Held(st'.ss), Held(st.ss) + one, Slots(st.ss[i]));
    assert Held(st'.ss) + st'.returned == Tickets(st.next) + multiset{st.next};
  }

  /** Session `i` gives up slot `t`, which is recorded as returned. */
  lemma {:induction false} Vacating(st: State, st': State, i: nat, x: Sess, t: nat)
    requires SlotInv(st, 0) && i < |st.ss| && st'.ss == st.ss[i := x]
    requires Slots(st.ss[i]) == Slots(x) + multiset{t} && Ref(x.pc) == Ref(st.ss[i].pc)
    requires st'.next == st.next && st'.returned == st.returned + multiset{t} && st'.lockRefs == st.lockRefs
    requires st'.gate == st.gate
    ensures SlotInv(st', 1)
  {
    hide Held, RefCount, Slots, Ref, Tickets;
    HeldUpdate(st.ss, i, x);
    RefUpdate(st.ss, i, x);
    assert Held(st'.ss) + Slots(st.ss[i]) == (Held(st'.ss) + multiset{t}) + Slots(x);
    Cancel(Held(st'.ss) + multiset{t}, Held(st.ss), Slots(x));
    assert Held(st'.ss) + st'.returned == Held(st.ss) + st.returned;
  }

  /** A vacated slot goes to the head of the queues, or lowers the count. */
  lemma {:induction false} ReleaseSlots(st: State)
    requires SlotInv(st, 1) && QueueInv(st.gate, st.ss)
    ensures SlotInv(Release(st), 0)
  {
    hide Held, RefCount, Tickets, Slots;
    var w := Give(st.gate).1;
    if w.Some? {
      assert st.gate.queue0 != [] ==> w.value == st.gate.queue0[0];
      var x := st.ss[w.value].(pc := Granted(st.ss[w.value].pc.k, st.next));
      GainSlot(st.ss[w.value], x, st.next);
      Granting(st, Release(st), w.value, x, 1);
    }
  }

  // ----- Threads, handlers and the reaper ------------------------------------------------------

  predicate Before(pc: Pc) {
    pc.Queued? || pc.Granted? || pc.Locked? || pc.Failed? || pc.Dropping?
  }

  predicate UpQuiet(s: Sess) {
    !s.up.Prep? && (s.stage <= 1 ==> s.up == Free)
  }

  /** What a session's handlers may be, by where its thread is. */
  predicate Shape(s: Sess) {
    && (s.pc.Idle? ==> s.hnd == Free && s.stage <= 4 && UpQuiet(s))
    && (Before(s.pc) ==> s.hnd == Free && s.stage == StageOf(s.pc.k) && UpQuiet(s))
    && (s.pc.Forked? ==> s.stage == StageOf(s.pc.k) && HndOf(s, WhichOf(s.pc.k)).Prep?)
    && (s.pc.Listed? ==> s.stage == StageOf(s.pc.k) && HndOf(s, WhichOf(s.pc.k)).Live?)
    && (s.pc.Forked? || s.pc.Listed? ==> if s.pc.k == Up then s.hnd == Free else UpQuiet(s))
    && (s.pc.Waiting? || s.pc.Syncing? ==> s.pc.k != Up && s.stage == StageOf(s.pc.k) && UpQuiet(s))
    && (s.pc.Waiting? ==> s.hnd.Live? || LockedByReaper(s.hnd))
    && (s.pc.Syncing? ==> s.hnd == Free || s.hnd.Spent?)
    && (s.pc.UpLock? || s.pc.UpUnreg? || s.pc.UpHold? ==> s.hnd == Free && !s.up.Prep? && s.stage == 4)
    && (s.pc.UpDrop? || s.pc.Gone? ==> s.hnd == Free && s.up == Free)
  }

  /** The reaper is inside a handler exactly when the handler says so. */
  predicate Link(h: Hnd, i: nat, w: Which, r: Reaper) {
    && (h.Taken? <==> r == Calling(i, w))
    && (h.Spent? <==> r.Finishing? && r.i == i && r.w == w)
  }

  predicate SessOk(s: Sess, i: nat, r: Reaper) {
    && Shape(s) && Link(s.hnd, i, Main, r) && Link(s.up, i, IpUp, r)
    && (r.Finishing? && r.i == i && r.w == Main ==> if r.woken then s.pc.Syncing? else s.pc.Waiting?)
  }

  ghost predicate ShapeInv(st: State) {
    && (forall i | 0 <= i < |st.ss| :: SessOk(st.ss[i], i, st.reaper))
    && (st.reaper.Calling? || st.reaper.Finishing? ==> st.reaper.i < |st.ss|)
  }

  /** A step of one session, the reaper staying where it is. */
  lemma {:induction false} ShapeOne(st: State, st': State, i: nat, x: Sess)
    requires ShapeInv(st) && i < |st.ss| && st'.ss == st.ss[i := x] && st'.reaper == st.reaper
    requires SessOk(x, i, st.reaper)
    ensures ShapeInv(st')
  {
    hide SessOk;
  }

  /** A step of the reaper from or into a handler of session `i`. */
  lemma {:induction false} ShapeReaper(st: State, st': State, i: nat, x: Sess)
    requires ShapeInv(st) && i < |st.ss| && st'.ss == st.ss[i := x]
    requires st.reaper.Sleeping? || st.reaper.Reaped? || st.reaper.i == i
    requires st'.reaper.Sleeping? || st'.reaper.Reaped? || st'.reaper.i == i
    requires SessOk(x, i, st'.reaper)
    ensures ShapeInv(st')
  {
    hide Shape;
    forall j | 0 <= j < |st'.ss| ensures SessOk(st'.ss[j], j, st'.reaper) {
      assert SessOk(st.ss[j], j, st.reaper);
    }
  }

  lemma {:induction false} ReleaseShape(st: State)
    requires ShapeInv(st)
    ensures ShapeInv(Release(st))
  {
    var w := Give(st.gate).1;
    if w.Some? && w.value < |st.ss| && st.ss[w.value].pc.Queued? {
      var x := st.ss[w.value].(pc := Granted(st.ss[w.value].pc.k, st.next));
      assert SessOk(st.ss[w.value], w.value, st.reaper);
      ShapeOne(st, Release(st), w.value, x);
    }
  }

  lemma {:induction false} ShapeBegin(st: State, e: Event)
    requires ShapeInv(st) && Enabled(st, e) && (e.Skip? || e.Terminate? || e.Begin? || e.Lock?)
    ensures ShapeInv(Next(st, e))
  {
    var st' := Next(st, e);
    assert SessOk(st.ss[e.i], e.i, st.reaper);
    ShapeOne(st, st', e.i, st'.ss[e.i]);
  }

  lemma {:induction false} ShapeFork(st: State, e: Event)
    requires ShapeInv(st) && Enabled(st, e) && (e.ForkOk? || e.ForkFail?)
    ensures ShapeInv(Next(st, e))
  {
    var st' := Next(st, e);
    assert SessOk(st.ss[e.i], e.i, st.reaper);
    ShapeOne(st, st', e.i, st'.ss[e.i]);
  }

  lemma {:induction false} ShapeListed(st: State, e: Event)
    requires ShapeInv(st) && Enabled(st, e) && (e.Register? || e.Unlock?)
    ensures ShapeInv(Next(st, e))
  {
    var st' := Next(st, e);
    assert SessOk(st.ss[e.i], e.i, st.reaper);
    ShapeOne(st, st', e.i, st'.ss[e.i]);
  }

  lemma {:induction false} ShapeEnd(st: State, e: Event)
    requires ShapeInv(st) && Enabled(st, e) && (e.Sync? || e.TestUp? || e.TakeUpLock?)
    ensures ShapeInv(Next(st, e))
  {
    var st' := Next(st, e);
    assert SessOk(st.ss[e.i], e.i, st.reaper);
    ShapeOne(st, st', e.i, st'.ss[e.i]);
  }

  lemma {:induction false} ShapeUnregister(st: State, e: Event)
    requires ShapeInv(st) && Enabled(st, e) && (e.TakeList? || e.Unregister?)
    ensures ShapeInv(Next(st, e))
  {
    var st' := Next(st, e);
    assert SessOk(st.ss[e.i], e.i, st.reaper);
    ShapeOne(st, st', e.i, st'.ss[e.i]);
  }

  lemma {:induction false} ShapeDrop(st: State, e: Event)
    requires ShapeInv(st) && Enabled(st, e) && (e.DropFailed? || e.DropUp?)
    ensures ShapeInv(Next(st, e))
  {
    assert SessOk(st.ss[e.i], e.i, st.reaper);
    var st1 := Dropped(st, e);
    ShapeOne(st, st1, e.i, st1.ss[e.i]);
    ReleaseShape(st1);
  }

  /** With no references no thread is between its fork and the listing of the handler. */
  lemma {:induction false} NoRefs(ss: seq<Sess>, i: nat)
    requires RefCount(ss) == 0 && i < |ss|
    ensures Ref(ss[i].pc) == 0
    decreases |ss|
  {
    hide Ref;
    if i < |ss| - 1 {
      NoRefs(ss[..|ss| - 1], i);
    }
  }

  lemma {:induction false} ShapeFind(st: State, i: nat, w: Which)
    requires ShapeInv(st) && Enabled(st, Find(i, w)) && st.lockRefs == RefCount(st.ss)
    ensures ShapeInv(Next(st, Find(i, w)))
  {
    hide RefCount;
    var st' := Next(st, Find(i, w));
    NoRefs(st.ss, i);
    assert SessOk(st.ss[i], i, st.reaper);
    ShapeReaper(st, st', i, st'.ss[i]);
  }

  lemma {:induction false} ShapeHandler(st: State, e: Event)
    requires ShapeInv(st) && Enabled(st, e) && (e.HandlerWake? || e.HandlerClear?)
    ensures ShapeInv(Next(st, e))
  {
    var st', i := Next(st, e), st.reaper.i;
    assert SessOk(st.ss[i], i, st.reaper);
    ShapeReaper(st, st', i, st'.ss[i]);
  }

  lemma {:induction false} ShapeRelease(st: State)
    requires ShapeInv(st) && Enabled(st, HandlerRelease)
    ensures ShapeInv(Vacated(st)) && ShapeInv(Next(st, HandlerRelease))
  {
    var st', i := Vacated(st), st.reaper.i;
    assert SessOk(st.ss[i], i, st.reaper);
    ShapeReaper(st, st', i, st'.ss[i]);
    ReleaseShape(st');
  }

  lemma {:induction false} ShapeOther(st: State, e: Event)
    requires ShapeInv(st) && Enabled(st, e) && (e.Arrive? || e.Reap? || e.Miss?)
    ensures ShapeInv(Next(st, e))
  {
    hide Shape;
    var st' := Next(st, e);
    assert Shape(Sess(Idle, 0, Free, Free)) by { NewShape(); }
    forall j | 0 <= j < |st'.ss| ensures SessOk(st'.ss[j], j, st'.reaper) {
      if j < |st.ss| {
        assert SessOk(st.ss[j], j, st.reaper);
      }
    }
  }

  lemma NewShape()
    ensures Shape(Sess(Idle, 0, Free, Free))
  {
  }

  // ----- Every step conserves slots ------------------------------------------------------------

  lemma {:induction false} SameSlots(s: Sess, x: Sess)
    requires PcSlot(x.pc) == PcSlot(s.pc) && HndSlot(x.hnd) == HndSlot(s.hnd) && HndSlot(x.up) == HndSlot(s.up)
    ensures Slots(x) == Slots(s)
  {
  }

  /** The slot of the thread passes to one of its handlers, or back. */
  lemma {:induction false} PassSlot(s: Sess, x: Sess, w: Which)
    requires HndSlot(HndOf(x, w)) == PcSlot(s.pc) && PcSlot(x.pc) == HndSlot(HndOf(s, w))
    requires if w == Main then x.up == s.up else x.hnd == s.hnd
    ensures Slots(x) == Slots(s)
  {
    hide PcSlot, HndSlot;
  }

  /** Steps of one session that neither take nor release a slot. */
  lemma {:induction false} SlotsQuiet(st: State, e: Event)
    requires SlotInv(st, 0) && Enabled(st, e) && (e.Skip? || e.Terminate? || e.Lock? || e.ForkFail?)
    ensures SlotInv(Next(st, e), 0)
  {
    hide SlotInv, Slots, HndSlot, LockedByReaper;
    var st' := Next(st, e);
    SameSlots(st.ss[e.i], st'.ss[e.i]);
    MoveNone(st, st', e.i, st'.ss[e.i], 0);
  }

  lemma {:induction false} SlotsUnlock(st: State, e: Event)
    requires SlotInv(st, 0) && Enabled(st, e) && (e.Unlock?)
    ensures SlotInv(Next(st, e), 0)
  {
    hide SlotInv, Slots, HndSlot, LockedByReaper;
    var st' := Next(st, e);
    SameSlots(st.ss[e.i], st'.ss[e.i]);
    MoveNone(st, st', e.i, st'.ss[e.i], 0);
  }

  lemma {:induction false} SlotsEnd(st: State, e: Event)
    requires SlotInv(st, 0) && Enabled(st, e) && (e.Sync? || e.TestUp? || e.TakeUpLock? || e.TakeList?)
    ensures SlotInv(Next(st, e), 0)
  {
    hide SlotInv, Slots, HndSlot, LockedByReaper;
    var st' := Next(st, e);
    SameSlots(st.ss[e.i], st'.ss[e.i]);
    MoveNone(st, st', e.i, st'.ss[e.i], 0);
  }

  lemma {:induction false} SlotsFork(st: State, i: nat, pid: nat)
    requires SlotInv(st, 0) && ShapeInv(st) && Enabled(st, ForkOk(i, pid))
    ensures SlotInv(Next(st, ForkOk(i, pid)), 0)
  {
    hide SlotInv, Slots;
    var st' := Next(st, ForkOk(i, pid));
    assert SessOk(st.ss[i], i, st.reaper);
    SameSlots(st.ss[i], st'.ss[i]);
    MoveNone(st, st', i, st'.ss[i], 0);
  }

  lemma {:induction false} SlotsRegister(st: State, i: nat)
    requires SlotInv(st, 0) && Enabled(st, Register(i))
    ensures SlotInv(Next(st, Register(i)), 0)
  {
    hide SlotInv, Slots;
    var st' := Next(st, Register(i));
    PassSlot(st.ss[i], st'.ss[i], WhichOf(st.ss[i].pc.k));
    MoveNone(st, st', i, st'.ss[i], 0);
  }

  lemma {:induction false} SlotsUnregister(st: State, i: nat)
    requires SlotInv(st, 0) && ShapeInv(st) && Enabled(st, Unregister(i))
    ensures SlotInv(Next(st, Unregister(i)), 0)
  {
    hide SlotInv, Slots;
    var st' := Next(st, Unregister(i));
    assert SessOk(st.ss[i], i, st.reaper);
    if st.ss[i].up.Live? {
      PassSlot(st.ss[i], st'.ss[i], IpUp);
    } else {
      SameSlots(st.ss[i], st'.ss[i]);
    }
    MoveNone(st, st', i, st'.ss[i], 0);
  }

  lemma {:induction false} SlotsBegin(st: State, i: nat, k: Script)
    requires SlotInv(st, 0) && Enabled(st, Begin(i, k))
    ensures SlotInv(Next(st, Begin(i, k)), 0)
  {
    hide Held, RefCount, Tickets, Slots;
    var st' := Next(st, Begin(i, k));
    if Take(st.gate, i, k).1 {
      GainSlot(st.ss[i], st'.ss[i], st.next);
      Granting(st, st', i, st'.ss[i], 0);
    } else {
      SameSlots(st.ss[i], st'.ss[i]);
      MoveNone(st, st.(ss := st'.ss), i, st'.ss[i], 0);
    }
  }

  lemma {:induction false} SlotsFind(st: State, i: nat, w: Which)
    requires SlotInv(st, 0) && Enabled(st, Find(i, w))
    ensures SlotInv(Next(st, Find(i, w)), 0)
  {
    hide SlotInv, Slots;
    var st' := Next(st, Find(i, w));
    SameSlots(st.ss[i], st'.ss[i]);
    MoveNone(st, st', i, st'.ss[i], 0);
  }

  lemma {:induction false} SlotsHandler(st: State, e: Event)
    requires SlotInv(st, 0) && Enabled(st, e)
    requires e.HandlerClear? || (e.HandlerWake? && st.reaper.w == Main)
    ensures SlotInv(Next(st, e), 0)
  {
    hide SlotInv, Slots;
    var st', i := Next(st, e), st.reaper.i;
    SameSlots(st.ss[i], st'.ss[i]);
    MoveNone(st, st', i, st'.ss[i], 0);
  }

  lemma {:induction false} SlotsOther(st: State, e: Event)
    requires SlotInv(st, 0) && Enabled(st, e)
    requires e.Arrive? || e.Reap? || e.Miss? || (e.HandlerWake? && st.reaper.w == IpUp)
    ensures SlotInv(Next(st, e), 0)
  {
    hide Tickets, Held, RefCount;
    if e.Arrive? {
      HeldArrive(st.ss);
    }
  }

  lemma {:induction false} HeldArrive(ss: seq<Sess>)
    ensures var x := Sess(Idle, 0, Free, Free);
      Held(ss + [x]) == Held(ss) && RefCount(ss + [x]) == RefCount(ss)
  {
    var x := Sess(Idle, 0, Free, Free);
    assert (ss + [x])[..|ss|] == ss;
  }

  lemma {:induction false} GainSlot(s: Sess, x: Sess, t: nat)
    requires PcSlot(s.pc).None? && PcSlot(x.pc) == Some(t) && x.hnd == s.hnd && x.up == s.up
    ensures Slots(x) == Slots(s) + multiset{t}
  {
    hide HndSlot;
  }

  lemma {:induction false} LoseSlot(s: Sess, x: Sess, t: nat)
    requires PcSlot(s.pc) == Some(t) && PcSlot(x.pc).None? && x.hnd == s.hnd && x.up == s.up
    ensures Slots(s) == Slots(x) + multiset{t}
  {
    hide HndSlot;
  }

  lemma {:induction false} LoseHndSlot(s: Sess, x: Sess, w: Which, t: nat)
    requires HndSlot(HndOf(s, w)) == Some(t) && HndSlot(HndOf(x, w)).None?
    requires x == SetHnd(s, w, HndOf(x, w))
    ensures Slots(s) == Slots(x) + multiset{t}
  {
    hide PcSlot;
  }

  lemma {:induction false} SlotsDrop(st: State, e: Event)
    requires SlotInv(st, 0) && QueueInv(st.gate, st.ss) && Enabled(st, e) && (e.DropFailed? || e.DropUp?)
    ensures SlotInv(Next(st, e), 0)
  {
    hide SlotInv, QueueInv, Slots, Release;
    var st1, t := Dropped(st, e), st.ss[e.i].pc.t;
    LoseSlot(st.ss[e.i], st1.ss[e.i], t);
    Vacating(st, st1, e.i, st1.ss[e.i], t);
    QueueKept(st.gate, st.ss, e.i, st1.ss[e.i]);
    ReleaseSlots(st1);
  }

  lemma {:induction false} SlotsRelease(st: State)
    requires SlotInv(st, 0) && QueueInv(st.gate, st.ss) && Enabled(st, HandlerRelease)
    ensures SlotInv(Next(st, HandlerRelease), 0)
  {
    hide SlotInv, QueueInv, Slots, Release;
    var st1, i := Vacated(st), st.reaper.i;
    var t := HndOf(st.ss[i], st.reaper.w).t;
    LoseHndSlot(st.ss[i], st1.ss[i], st.reaper.w, t);
    Vacating(st, st1, i, st1.ss[i], t);
    QueueKept(st.gate, st.ss, i, st1.ss[i]);
    ReleaseSlots(st1);
  }

  // ----- The queues ----------------------------------------------------------------------------

  /** A session that is not queued before and after, or whose place is unchanged, leaves the queues alone. */
  lemma {:induction false} QueueKept(g: Gate, ss: seq<Sess>, i: nat, x: Sess)
    requires QueueInv(g, ss) && i < |ss|
    requires x.pc == ss[i].pc || (!x.pc.Queued? && !ss[i].pc.Queued?)
    ensures QueueInv(g, ss[i := x])
  {
  }

  lemma {:induction false} QueueJoin(g: Gate, ss: seq<Sess>, i: nat, x: Sess, k: Script)
    requires QueueInv(g, ss) && i < |ss| && !ss[i].pc.Queued? && x.pc == Queued(k) && g.cnt >= g.limit
    ensures QueueInv(Take(g, i, k).0, ss[i := x])
  {
  }

  /** The head of the queues leaves; everybody else keeps their place. */
  lemma {:induction false} QueueLeave(g: Gate, ss: seq<Sess>, x: Sess)
    requires QueueInv(g, ss) && Give(g).1.Some? && !x.pc.Queued?
    ensures Give(g).1.value < |ss| && QueueInv(Give(g).0, ss[Give(g).1.value := x])
  {
  }

  lemma {:induction false} QueueRelease(st: State)
    requires QueueInv(st.gate, st.ss)
    ensures var st' := Release(st); QueueInv(st'.gate, st'.ss)
  {
    hide QueueInv;
    var w := Give(st.gate).1;
    if w.Some? {
      HeadQueued(st.gate, st.ss);
      QueueLeave(st.gate, st.ss, st.ss[w.value].(pc := Granted(st.ss[w.value].pc.k, st.next)));
    } else {
      QueueCount(st.gate, st.ss, Give(st.gate).0.cnt);
    }
  }

  lemma {:induction false} QueueCount(g: Gate, ss: seq<Sess>, cnt: nat)
    requires QueueInv(g, ss)
    ensures QueueInv(g.(cnt := cnt), ss)
  {
  }

  /** Whoever is handed a slot is asleep in a queue. */
  lemma {:induction false} HeadQueued(g: Gate, ss: seq<Sess>)
    requires QueueInv(g, ss) && Give(g).1.Some?
    ensures Give(g).1.value < |ss| && ss[Give(g).1.value].pc.Queued?
  {
    assert g.queue0 != [] ==> Give(g).1.value == g.queue0[0];
  }

  lemma {:induction false} QueueThread(st: State, e: Event)
    requires QueueInv(st.gate, st.ss) && Enabled(st, e)
    requires e.Skip? || e.Terminate? || e.Lock? || e.ForkOk? || e.ForkFail? || e.Register? || e.Unlock?
    ensures var st' := Next(st, e); QueueInv(st'.gate, st'.ss)
  {
    hide QueueInv;
    QueueKept(st.gate, st.ss, e.i, Next(st, e).ss[e.i]);
  }

  lemma {:induction false} QueueEnd(st: State, e: Event)
    requires QueueInv(st.gate, st.ss) && Enabled(st, e)
    requires e.Sync? || e.TestUp? || e.TakeUpLock? || e.TakeList? || e.Unregister? || e.Find?
    ensures var st' := Next(st, e); QueueInv(st'.gate, st'.ss)
  {
    hide QueueInv;
    QueueKept(st.gate, st.ss, e.i, Next(st, e).ss[e.i]);
  }

  lemma {:induction false} QueueBegin(st: State, i: nat, k: Script)
    requires QueueInv(st.gate, st.ss) && Enabled(st, Begin(i, k))
    ensures var st' := Next(st, Begin(i, k)); QueueInv(st'.gate, st'.ss)
  {
    hide QueueInv;
    var x := Next(st, Begin(i, k)).ss[i];
    if st.gate.cnt < st.gate.limit {
      QueueKept(st.gate, st.ss, i, x);
      QueueCount(st.gate, st.ss[i := x], st.gate.cnt + 1);
    } else {
      QueueJoin(st.gate, st.ss, i, x, k);
    }
  }

  lemma {:induction false} QueueDrop(st: State, e: Event)
    requires QueueInv(st.gate, st.ss) && Enabled(st, e) && (e.DropFailed? || e.DropUp? || e.HandlerRelease?)
    ensures var st' := Next(st, e); QueueInv(st'.gate, st'.ss)
  {
    hide QueueInv, Release;
    var st1 := if e.HandlerRelease? then Vacated(st) else Dropped(st, e);
    var i := if e.HandlerRelease? then st.reaper.i else e.i;
    QueueKept(st.gate, st.ss, i, st1.ss[i]);
    QueueRelease(st1);
  }

  lemma {:induction false} QueueReaper(st: State, e: Event)
    requires QueueInv(st.gate, st.ss) && Enabled(st, e)
    requires e.HandlerClear? || (e.HandlerWake? && st.reaper.w == Main)
    ensures var st' := Next(st, e); QueueInv(st'.gate, st'.ss)
  {
    hide QueueInv;
    QueueKept(st.gate, st.ss, st.reaper.i, Next(st, e).ss[st.reaper.i]);
  }

  lemma {:induction false} QueueArrive(g: Gate, ss: seq<Sess>)
    requires QueueInv(g, ss)
    ensures QueueInv(g, ss + [Sess(Idle, 0, Free, Free)])
  {
  }

  // ----- Pids ----------------------------------------------------------------------------------

  predicate PidLink(h: Hnd, i: nat, w: Which, st: State) {
    && (h != Free ==> h.pid in st.home && st.home[h.pid] == (i, w))
    && (h.Prep? || h.Live? ==> h.pid in st.unreaped || st.reaper == Reaped(h.pid))
    && (LockedByReaper(h) ==> h.pid !in st.unreaped)
  }

  predicate HomeOk(st: State, p: nat)
    requires p in st.home
  {
    var (i, w) := st.home[p];
    i < |st.ss| && HndOf(st.ss[i], w) != Free && HndOf(st.ss[i], w).pid == p
  }

  ghost predicate PidSets(st: State) {
    && st.home.Keys <= st.used && st.unreaped <= st.used && st.unreaped <= st.home.Keys + st.orphaned
    && (st.reaper.Reaped? ==>
          st.reaper.pid in st.used && st.reaper.pid !in st.unreaped && st.reaper.pid in st.home.Keys + st.orphaned)
  }

  /** Every child not yet dealt with is in exactly one handler, unless that was unregistered. */
  ghost predicate PidInv(st: State) {
    && (forall i | 0 <= i < |st.ss| :: PidLink(st.ss[i].hnd, i, Main, st) && PidLink(st.ss[i].up, i, IpUp, st))
    && (forall p | p in st.home :: HomeOk(st, p))
    && PidSets(st)
  }

  lemma {:induction false} HomeMoved(st: State, st': State, p: nat)
    requires p in st.home && p in st'.home && st'.home[p] == st.home[p] && HomeOk(st, p)
    requires var (i, w) := st.home[p];
      i < |st'.ss| && HndOf(st'.ss[i], w) != Free && HndOf(st'.ss[i], w).pid == p
    ensures HomeOk(st', p)
  {
  }

  predicate SamePid(h: Hnd, h': Hnd) {
    if h == Free then h' == Free else h' != Free && h'.pid == h.pid
  }

  /** A step of session `i` or of the reaper on it that leaves every pid where it is. */
  lemma {:induction false} PidKept(st: State, st': State, i: nat, x: Sess)
    requires PidInv(st) && i < |st.ss| && st'.ss == st.ss[i := x]
    requires SamePid(st.ss[i].hnd, x.hnd) && SamePid(st.ss[i].up, x.up)
    requires st'.unreaped == st.unreaped && st'.used == st.used && st'.home == st.home && st'.orphaned == st.orphaned
    requires PidLink(x.hnd, i, Main, st') && PidLink(x.up, i, IpUp, st') && PidSets(st')
    requires st'.reaper == st.reaper || !st.reaper.Reaped? || (st.reaper.pid in st.home && st.home[st.reaper.pid].0 == i)
    ensures PidInv(st')
  {
    forall p | p in st'.home ensures HomeOk(st', p) {
      assert HomeOk(st, p);
      HomeMoved(st, st', p);
    }
    forall j | 0 <= j < |st'.ss| ensures PidLink(st'.ss[j].hnd, j, Main, st') && PidLink(st'.ss[j].up, j, IpUp, st') {
      assert PidLink(st.ss[j].hnd, j, Main, st) && PidLink(st.ss[j].up, j, IpUp, st);
    }
  }

  lemma {:induction false} PidThread(st: State, e: Event)
    requires PidInv(st) && Enabled(st, e)
    requires e.Skip? || e.Terminate? || e.Begin? || e.Lock? || e.ForkFail? || e.Register? || e.Unlock?
    ensures PidInv(Next(st, e))
  {
    hide PidInv, PidSets;
    var st' := Next(st, e);
    PidHere(st, e.i);
    SameSets(st, st');
    PidKept(st, st', e.i, st'.ss[e.i]);
  }

  lemma {:induction false} PidEnd(st: State, e: Event)
    requires PidInv(st) && Enabled(st, e) && (e.Sync? || e.TestUp? || e.TakeUpLock? || e.TakeList?)
    ensures PidInv(Next(st, e))
  {
    hide PidInv, PidSets;
    var st' := Next(st, e);
    PidHere(st, e.i);
    SameSets(st, st');
    PidKept(st, st', e.i, st'.ss[e.i]);
  }

  lemma {:induction false} PidHere(st: State, i: nat)
    requires PidInv(st) && i < |st.ss|
    ensures PidLink(st.ss[i].hnd, i, Main, st) && PidLink(st.ss[i].up, i, IpUp, st) && PidSets(st)
  {
  }

  lemma {:induction false} SameSets(st: State, st': State)
    requires PidSets(st) && st'.unreaped == st.unreaped && st'.used == st.used && st'.home == st.home
    requires st'.orphaned == st.orphaned && (st'.reaper == st.reaper || !st'.reaper.Reaped?)
    ensures PidSets(st')
  {
  }

  lemma {:induction false} PidRelease(st: State)
    requires PidInv(st)
    ensures PidInv(Release(st))
  {
    hide PidInv, PidSets;
    var st' := Release(st);
    var w := Give(st.gate).1;
    if w.Some? && w.value < |st.ss| && st.ss[w.value].pc.Queued? {
      PidHere(st, w.value);
      SameSets(st, st');
      PidKept(st, st', w.value, st'.ss[w.value]);
    } else {
      PidGate(st, st'.gate);
    }
  }

  lemma {:induction false} PidGate(st: State, g: Gate)
    requires PidInv(st)
    ensures PidInv(st.(gate := g))
  {
    forall p | p in st.home ensures HomeOk(st.(gate := g), p) {
      assert HomeOk(st, p);
    }
  }

  lemma {:induction false} PidDrop(st: State, e: Event)
    requires PidInv(st) && Enabled(st, e) && (e.DropFailed? || e.DropUp?)
    ensures PidInv(Next(st, e))
  {
    hide PidInv, PidSets, Release;
    var st1 := Dropped(st, e);
    PidHere(st, e.i);
    SameSets(st, st1);
    PidKept(st, st1, e.i, st1.ss[e.i]);
    PidRelease(st1);
  }

  lemma {:induction false} PidFind(st: State, i: nat, w: Which)
    requires PidInv(st) && Enabled(st, Find(i, w))
    ensures PidInv(Next(st, Find(i, w)))
  {
    hide PidInv;
    var st' := Next(st, Find(i, w));
    PidHere(st, i);
    PidKept(st, st', i, st'.ss[i]);
  }

  lemma {:induction false} PidHandler(st: State, e: Event)
    requires PidInv(st) && Enabled(st, e) && (e.HandlerRelease? || e.HandlerWake?) && st.reaper.i < |st.ss|
    ensures PidInv(Next(st, e))
  {
    hide PidInv, PidSets, Release;
    var i := st.reaper.i;
    var st1 := if e.HandlerRelease? then Vacated(st) else Next(st, e);
    PidHere(st, i);
    SameSets(st, st1);
    PidKept(st, st1, i, st1.ss[i]);
    if e.HandlerRelease? {
      PidRelease(st1);
    }
  }

  lemma {:induction false} PidFork(st: State, i: nat, pid: nat)
    requires PidInv(st) && ShapeInv(st) && Enabled(st, ForkOk(i, pid))
    ensures PidInv(Next(st, ForkOk(i, pid)))
  {
    var st' := Next(st, ForkOk(i, pid));
    assert SessOk(st.ss[i], i, st.reaper);
    hide SessOk, Shape, ShapeInv;
    assert HndOf(st.ss[i], WhichOf(st.ss[i].pc.k)) == Free;
    forall p | p in st'.home ensures HomeOk(st', p) {
      if p != pid {
        assert HomeOk(st, p);
        HomeMoved(st, st', p);
      }
    }
    forall j | 0 <= j < |st'.ss| ensures PidLink(st'.ss[j].hnd, j, Main, st') && PidLink(st'.ss[j].up, j, IpUp, st') {
      assert PidLink(st.ss[j].hnd, j, Main, st) && PidLink(st.ss[j].up, j, IpUp, st);
    }
  }

  /** Handler `w` of session `i` is cleared and its pid forgotten. */
  lemma {:induction false} PidForget(st: State, st': State, i: nat, x: Sess, w: Which, pid: nat)
    requires PidInv(st) && i < |st.ss| && st'.ss == st.ss[i := x]
    requires HndOf(st.ss[i], w) != Free && HndOf(st.ss[i], w).pid == pid && HndOf(x, w) == Free
    requires if w == Main then x.up == st.ss[i].up else x.hnd == st.ss[i].hnd
    requires st'.home == st.home - {pid} && st'.unreaped == st.unreaped && PidSets(st')
    requires st'.reaper == st.reaper || !st.reaper.Reaped?
    ensures PidInv(st')
  {
    PidHere(st, i);
    forall p | p in st'.home ensures HomeOk(st', p) {
      assert HomeOk(st, p);
      assert st.home[pid] == (i, w);
      HomeMoved(st, st', p);
    }
    forall j | 0 <= j < |st'.ss| ensures PidLink(st'.ss[j].hnd, j, Main, st') && PidLink(st'.ss[j].up, j, IpUp, st') {
      assert PidLink(st.ss[j].hnd, j, Main, st) && PidLink(st.ss[j].up, j, IpUp, st);
    }
  }

  lemma {:induction false} PidClear(st: State)
    requires PidInv(st) && Enabled(st, HandlerClear)
    ensures PidInv(Next(st, HandlerClear))
  {
    hide PidInv;
    var i, w := st.reaper.i, st.reaper.w;
    var st', pid := Next(st, HandlerClear), HndOf(st.ss[i], w).pid;
    PidHere(st, i);
    PidForget(st, st', i, st'.ss[i], w, pid);
  }

  lemma {:induction false} PidUnregister(st: State, i: nat)
    requires PidInv(st) && Enabled(st, Unregister(i))
    ensures PidInv(Next(st, Unregister(i)))
  {
    hide PidInv;
    var st' := Next(st, Unregister(i));
    PidHere(st, i);
    if st.ss[i].up.Live? {
      PidForget(st, st', i, st'.ss[i], IpUp, st.ss[i].up.pid);
    } else {
      PidKept(st, st', i, st'.ss[i]);
    }
  }

  lemma {:induction false} PidReap(st: State, pid: nat)
    requires PidInv(st) && ShapeInv(st) && Enabled(st, Reap(pid))
    ensures PidInv(Next(st, Reap(pid)))
  {
    hide Shape;
    var st' := Next(st, Reap(pid));
    forall p | p in st'.home ensures HomeOk(st', p) {
      assert HomeOk(st, p);
      HomeMoved(st, st', p);
    }
    forall j | 0 <= j < |st'.ss| ensures PidLink(st'.ss[j].hnd, j, Main, st') && PidLink(st'.ss[j].up, j, IpUp, st') {
      assert PidLink(st.ss[j].hnd, j, Main, st) && PidLink(st.ss[j].up, j, IpUp, st);
      assert SessOk(st.ss[j], j, st.reaper);
    }
  }

  /** A reaped pid that no listed handler has belongs to an unregistered handler: no exit is ever lost. */
  lemma {:induction false} NoExitLost(st: State)
    requires PidInv(st) && ShapeInv(st) && st.lockRefs == RefCount(st.ss) && Enabled(st, Miss)
    ensures st.reaper.pid !in st.home && st.reaper.pid in st.orphaned
  {
    hide RefCount;
    var pid := st.reaper.pid;
    if pid in st.home {
      assert HomeOk(st, pid);
      var i := st.home[pid].0;
      NoRefs(st.ss, i);
      assert false;
    }
  }

  lemma {:induction false} PidMiss(st: State)
    requires PidInv(st) && Enabled(st, Miss) && st.reaper.pid !in st.home
    ensures PidInv(Next(st, Miss))
  {
    var st' := Next(st, Miss);
    forall p | p in st'.home ensures HomeOk(st', p) {
      assert HomeOk(st, p);
      HomeMoved(st, st', p);
    }
    forall j | 0 <= j < |st'.ss| ensures PidLink(st'.ss[j].hnd, j, Main, st') && PidLink(st'.ss[j].up, j, IpUp, st') {
      assert PidLink(st.ss[j].hnd, j, Main, st) && PidLink(st.ss[j].up, j, IpUp, st);
    }
  }

  lemma {:induction false} PidArrive(st: State)
    requires PidInv(st)
    ensures PidInv(Next(st, Arrive))
  {
    var st' := Next(st, Arrive);
    forall p | p in st'.home ensures HomeOk(st', p) {
      assert HomeOk(st, p);
      HomeMoved(st, st', p);
    }
  }

  // ----- Whole runs ----------------------------------------------------------------------------

  /** The list lock is kept across a wait exactly by the session that is unregistering. */
  ghost predicate HolderInv(ss: seq<Sess>, holder: Option<nat>) {
    && (holder.Some? ==> holder.value < |ss| && ss[holder.value].pc.UpHold?)
    && (forall i | 0 <= i < |ss| && ss[i].pc.UpHold? :: holder == Some(i))
  }

  lemma {:induction false} HolderOne(ss: seq<Sess>, holder: Option<nat>, i: nat, x: Sess)
    requires HolderInv(ss, holder) && i < |ss| && x.pc.UpHold? == ss[i].pc.UpHold?
    ensures HolderInv(ss[i := x], holder)
  {
  }

  lemma {:induction false} HolderRelease(st: State)
    requires HolderInv(st.ss, st.holder)
    ensures HolderInv(Release(st).ss, Release(st).holder)
  {
    hide HolderInv;
    var w := Give(st.gate).1;
    if w.Some? && w.value < |st.ss| && st.ss[w.value].pc.Queued? {
      HolderOne(st.ss, st.holder, w.value, Release(st).ss[w.value]);
    }
  }

  lemma {:induction false} HolderThread(st: State, e: Event)
    requires HolderInv(st.ss, st.holder) && Enabled(st, e)
    requires e.Skip? || e.Terminate? || e.Begin? || e.Lock? || e.ForkOk? || e.ForkFail? || e.Register? || e.Unlock?
    ensures HolderInv(Next(st, e).ss, Next(st, e).holder)
  {
    hide HolderInv;
    HolderOne(st.ss, st.holder, e.i, Next(st, e).ss[e.i]);
  }

  lemma {:induction false} HolderEnd(st: State, e: Event)
    requires HolderInv(st.ss, st.holder) && Enabled(st, e) && (e.Sync? || e.TestUp? || e.TakeUpLock? || e.Find?)
    ensures HolderInv(Next(st, e).ss, Next(st, e).holder)
  {
    hide HolderInv;
    HolderOne(st.ss, st.holder, e.i, Next(st, e).ss[e.i]);
  }

  lemma {:induction false} HolderMoves(st: State, e: Event)
    requires HolderInv(st.ss, st.holder) && Enabled(st, e)
    requires e.TakeList? || e.Unregister? || e.Arrive? || e.Reap? || e.Miss?
    ensures HolderInv(Next(st, e).ss, Next(st, e).holder)
  {
  }

  lemma {:induction false} HolderDrop(st: State, e: Event)
    requires HolderInv(st.ss, st.holder) && Enabled(st, e) && (e.DropFailed? || e.DropUp? || e.HandlerRelease?)
    ensures HolderInv(Next(st, e).ss, Next(st, e).holder)
  {
    hide HolderInv, Release;
    var st1 := if e.HandlerRelease? then Vacated(st) else Dropped(st, e);
    var i := if e.HandlerRelease? then st.reaper.i else e.i;
    HolderOne(st.ss, st.holder, i, st1.ss[i]);
    HolderRelease(st1);
  }

  lemma {:induction false} HolderHandler(st: State, e: Event)
    requires HolderInv(st.ss, st.holder) && Enabled(st, e) && (e.HandlerClear? || e.HandlerWake?) && st.reaper.i < |st.ss|
    ensures HolderInv(Next(st, e).ss, Next(st, e).holder)
  {
    hide HolderInv;
    var i := st.reaper.i;
    assert Next(st, e).ss == st.ss[i := Next(st, e).ss[i]];
    HolderOne(st.ss, st.holder, i, Next(st, e).ss[i]);
  }

  ghost predicate Inv(st: State) {
    SlotInv(st, 0) && QueueInv(st.gate, st.ss) && ShapeInv(st) && PidInv(st) && HolderInv(st.ss, st.holder)
  }

  lemma {:induction false} ThreadSafe(st: State, e: Event)
    requires Inv(st) && Enabled(st, e)
    requires e.Skip? || e.Terminate? || e.Begin? || e.Lock? || e.ForkOk? || e.ForkFail? || e.Register? || e.Unlock?
    ensures Inv(Next(st, e))
  {
    hide SlotInv, QueueInv, ShapeInv, PidInv, HolderInv, Enabled, Next;
    HolderThread(st, e);
    match e {
      case Begin(i, k) =>
        SlotsBegin(st, i, k);
        QueueBegin(st, i, k);
        ShapeBegin(st, e);
        PidThread(st, e);
      case ForkOk(i, pid) =>
        SlotsFork(st, i, pid);
        QueueThread(st, e);
        ShapeFork(st, e);
        PidFork(st, i, pid);
      case Register(i) =>
        SlotsRegister(st, i);
        QueueThread(st, e);
        ShapeListed(st, e);
        PidThread(st, e);
      case Unlock(i) =>
        SlotsUnlock(st, e);
        QueueThread(st, e);
        ShapeListed(st, e);
        PidThread(st, e);
      case _ =>
        SlotsQuiet(st, e);
        QueueThread(st, e);
        if e.ForkFail? {
          ShapeFork(st, e);
        } else {
          ShapeBegin(st, e);
        }
        PidThread(st, e);
    }
  }

  lemma {:induction false} EndSafe(st: State, e: Event)
    requires Inv(st) && Enabled(st, e)
    requires e.Sync? || e.TestUp? || e.TakeUpLock? || e.TakeList? || e.Unregister? || e.DropFailed? || e.DropUp?
    ensures Inv(Next(st, e))
  {
    hide SlotInv, QueueInv, ShapeInv, PidInv, HolderInv, Enabled, Next;
    if e.DropFailed? || e.DropUp? {
      HolderDrop(st, e);
      SlotsDrop(st, e);
      QueueDrop(st, e);
      ShapeDrop(st, e);
      PidDrop(st, e);
    } else {
      QueueEnd(st, e);
      if e.TakeList? || e.Unregister? {
        HolderMoves(st, e);
        ShapeUnregister(st, e);
      } else {
        HolderEnd(st, e);
        ShapeEnd(st, e);
      }
      if e.Unregister? {
        SlotsUnregister(st, e.i);
        PidUnregister(st, e.i);
      } else {
        SlotsEnd(st, e);
        PidEnd(st, e);
      }
    }
  }

  lemma {:induction false} RefsExact(st: State)
    requires SlotInv(st, 0)
    ensures st.lockRefs == RefCount(st.ss)
  {
    hide RefCount, Held, Tickets;
  }

  lemma {:induction false} ReaperSafe(st: State, e: Event)
    requires Inv(st) && Enabled(st, e) && (e.Find? || e.HandlerRelease? || e.HandlerClear?)
    ensures Inv(Next(st, e))
  {
    hide SlotInv, QueueInv, ShapeInv, PidInv, HolderInv, Next, RefCount;
    RefsExact(st);
    if e.Find? {
      HolderEnd(st, e);
      SlotsFind(st, e.i, e.w);
      QueueEnd(st, e);
      ShapeFind(st, e.i, e.w);
      PidFind(st, e.i, e.w);
    } else if e.HandlerRelease? {
      HolderDrop(st, e);
      SlotsRelease(st);
      QueueDrop(st, e);
      ShapeRelease(st);
      PidHandler(st, e);
    } else {
      HolderHandler(st, e);
      SlotsHandler(st, e);
      QueueReaper(st, e);
      ShapeHandler(st, e);
      PidClear(st);
    }
  }

  lemma {:induction false} ReaperAt(st: State)
    requires ShapeInv(st) && (st.reaper.Calling? || st.reaper.Finishing?)
    ensures st.reaper.i < |st.ss|
  {
  }

  lemma {:induction false} WakeSafe(st: State)
    requires Inv(st) && Enabled(st, HandlerWake)
    ensures Inv(Next(st, HandlerWake))
  {
    hide SlotInv, QueueInv, ShapeInv, PidInv, HolderInv;
    ReaperAt(st);
    HolderHandler(st, HandlerWake);
    ShapeHandler(st, HandlerWake);
    PidHandler(st, HandlerWake);
    if st.reaper.w == Main {
      SlotsHandler(st, HandlerWake);
      QueueReaper(st, HandlerWake);
    } else {
      SlotsOther(st, HandlerWake);
    }
  }

  lemma {:induction false} OtherSafe(st: State, e: Event)
    requires Inv(st) && Enabled(st, e) && (e.Arrive? || e.Reap? || e.Miss?)
    ensures Inv(Next(st, e))
  {
    hide SlotInv, QueueInv, ShapeInv, PidInv, HolderInv, RefCount, NoneListed;
    HolderMoves(st, e);
    SlotsOther(st, e);
    ShapeOther(st, e);
    if e.Arrive? {
      QueueArrive(st.gate, st.ss);
      PidArrive(st);
    } else if e.Reap? {
      PidReap(st, e.pid);
    } else {
      RefsExact(st);
      NoExitLost(st);
      PidMiss(st);
    }
  }

  /** Every step keeps the invariant. */
  lemma {:induction false} StepSafe(st: State, e: Event)
    requires Inv(st) && Enabled(st, e)
    ensures Inv(Next(st, e))
  {
    hide Inv, Enabled, Next;
    if e.Arrive? || e.Reap? || e.Miss? {
      OtherSafe(st, e);
    } else if e.HandlerWake? {
      WakeSafe(st);
    } else if e.Find? || e.HandlerRelease? || e.HandlerClear? {
      ReaperSafe(st, e);
    } else if e.Sync? || e.TestUp? || e.TakeUpLock? || e.TakeList? || e.Unregister? || e.DropFailed? || e.DropUp? {
      EndSafe(st, e);
    } else {
      ThreadSafe(st, e);
    }
  }

  /** The events can happen one after the other. */
  predicate Feasible(st: State, es: seq<Event>)
    decreases |es|
  {
    es == [] || (Enabled(st, es[0]) && Feasible(Next(st, es[0]), es[1..]))
  }

  function After(st: State, es: seq<Event>): State
    requires Feasible(st, es)
    decreases |es|
  {
    if es == [] then st else After(Next(st, es[0]), es[1..])
  }

  lemma {:induction false} RunSafe(st: State, es: seq<Event>)
    requires Inv(st) && Feasible(st, es)
    ensures Inv(After(st, es))
    decreases |es|
  {
    hide Inv, Enabled, Next;
    if es != [] {
      StepSafe(st, es[0]);
      RunSafe(Next(st, es[0]), es[1..]);
    }
  }

  lemma {:induction false} InitSafe(limit: nat)
    requires limit > 0
    ensures Inv(Init(limit))
  {
  }

  /** In every interleaving: the count is the number of slots held and at most the limit; each slot
      handed out is held in exactly one place or was given back exactly once; somebody waits only
      when all slots are taken. */
  lemma {:induction false} SlotsAccounted(limit: nat, es: seq<Event>, t: nat)
    requires limit > 0 && Feasible(Init(limit), es)
    ensures var st := After(Init(limit), es);
      && st.gate.cnt == |Held(st.ss)| <= st.gate.limit
      && Held(st.ss)[t] + st.returned[t] == (if t < st.next then 1 else 0)
      && (st.gate.queue0 != [] || st.gate.queue1 != [] ==> st.gate.cnt == st.gate.limit)
      && (forall i | 0 <= i < |st.ss| && st.ss[i].pc.Queued? :: st.gate.cnt == st.gate.limit)
  {
    hide ShapeInv, PidInv, Held, RefCount, After, Feasible;
    InitSafe(limit);
    RunSafe(Init(limit), es);
    var st := After(Init(limit), es);
    assert (Held(st.ss) + st.returned)[t] == Tickets(st.next)[t];
  }

  /** A child holds its slot only until it has been reaped: with all children reaped and the reaper
      idle, no handler holds one. */
  lemma {:induction false} NothingLeaks(st: State, i: nat)
    requires Inv(st) && i < |st.ss| && st.reaper.Sleeping? && st.unreaped == {}
    ensures st.ss[i].hnd == Free && st.ss[i].up == Free && Slots(st.ss[i]) == Single(PcSlot(st.ss[i].pc))
  {
    hide SlotInv, QueueInv, Shape;
    PidHere(st, i);
    assert SessOk(st.ss[i], i, st.reaper);
  }

  /** A session waits for nothing but a slot, its child, the reaper's handler or the list lock; the reaper
      inside a handler waits for nothing. */
  lemma {:induction false} ThreadProgress(st: State, i: nat)
    requires Inv(st) && i < |st.ss|
    ensures st.ss[i].pc.Granted? ==> Enabled(st, Lock(i)) || st.holder.Some?
    ensures st.ss[i].pc.Forked? ==> Enabled(st, Register(i)) || st.holder.Some?
    ensures st.ss[i].pc.Listed? || st.ss[i].pc.Failed? ==> Enabled(st, Unlock(i)) || st.holder.Some?
    ensures st.ss[i].pc.UpUnreg? ==> Enabled(st, TakeList(i)) || st.holder.Some?
  {
    hide SlotInv, QueueInv, PidInv, RefCount, HolderInv;
    RefsExact(st);
    assert SessOk(st.ss[i], i, st.reaper);
    if st.lockRefs == 0 {
      NoRefs(st.ss, i);
    }
  }

  lemma {:induction false} HandlerProgress(st: State)
    requires Inv(st)
    ensures st.reaper.Calling? ==> Enabled(st, HandlerRelease)
    ensures st.reaper.Finishing? ==> Enabled(st, if st.reaper.woken then HandlerClear else HandlerWake)
  {
    hide SlotInv, QueueInv, PidInv, HolderInv;
    if st.reaper.Calling? || st.reaper.Finishing? {
      assert SessOk(st.ss[st.reaper.i], st.reaper.i, st.reaper);
    }
  }

  /** Steps the reaper still makes inside a handler. */
  function ToGo(r: Reaper): nat {
    match r
    case Calling(_, _) => 3
    case Finishing(_, _, woken) => if woken then 1 else 2
    case _ => 0
  }

  /** A session woken by its exit handler, or waiting for the handler lock, waits for at most three steps of
      the reaper, all of which are possible. */
  lemma {:induction false} HandlerEnds(st: State) returns (es: seq<Event>)
    requires Inv(st)
    ensures Feasible(st, es) && |es| == ToGo(st.reaper) && ToGo(After(st, es).reaper) == 0
    ensures Inv(After(st, es)) && After(st, es).holder == st.holder
    decreases ToGo(st.reaper)
  {
    hide Inv;
    if ToGo(st.reaper) == 0 {
      es := [];
    } else {
      HandlerProgress(st);
      var e := if st.reaper.Calling? then HandlerRelease else if st.reaper.woken then HandlerClear else HandlerWake;
      StepSafe(st, e);
      var rest := HandlerEnds(Next(st, e));
      es := [e] + rest;
      assert es[1..] == rest;
    }
  }

  /** The list lock never deadlocks with the handler locks: whoever keeps it gives it up after at most the
      three steps of the reaper and its own, all of which are possible. */
  lemma {:induction false} ListLockFreed(st: State, j: nat) returns (es: seq<Event>)
    requires Inv(st) && st.holder == Some(j)
    ensures Feasible(st, es) && |es| <= 4 && After(st, es).holder.None?
  {
    hide Inv;
    var first := HandlerEnds(st);
    var st1 := After(st, first);
    Unlocked(st1, j);
    es := first + [Unregister(j)];
    RunThen(st, first, Unregister(j));
  }

  lemma {:induction false} Unlocked(st: State, j: nat)
    requires Inv(st) && st.holder == Some(j) && ToGo(st.reaper) == 0
    ensures Enabled(st, Unregister(j)) && Next(st, Unregister(j)).holder.None?
  {
    hide SlotInv, QueueInv, PidInv;
    assert SessOk(st.ss[j], j, st.reaper);
  }

  lemma {:induction false} RunThen(st: State, es: seq<Event>, e: Event)
    requires Feasible(st, es) && Enabled(After(st, es), e)
    ensures Feasible(st, es + [e]) && After(st, es + [e]) == Next(After(st, es), e)
    decreases |es|
  {
    hide Enabled, Next;
    if es == [] {
      assert es + [e] == [e] && [e][1..] == [];
    } else {
      assert (es + [e])[1..] == es[1..] + [e];
      RunThen(Next(st, es[0]), es[1..], e);
    }
  }

  // ----- Order of service ----------------------------------------------------------------------

  /** One step serves at most the head of one queue; the second queue is served only when the first is
      empty, and newcomers join at the end. */
  ghost predicate Served(g: Gate, g': Gate) {
    || (g'.queue0 == g.queue0 && g'.queue1 == g.queue1)
    || (g'.queue1 == g.queue1 && exists i :: g'.queue0 == g.queue0 + [i])
    || (g'.queue0 == g.queue0 && exists i :: g'.queue1 == g.queue1 + [i])
    || (g.queue0 != [] && g'.queue0 == g.queue0[1..] && g'.queue1 == g.queue1)
    || (g.queue0 == [] && g'.queue0 == [] && g.queue1 != [] && g'.queue1 == g.queue1[1..])
  }

  lemma {:induction false} StepServes(st: State, e: Event)
    requires Enabled(st, e)
    ensures Served(st.gate, Next(st, e).gate)
  {
    match e
    case Begin(i, k) =>
      assert BeginStep(st, i, k).gate == Take(st.gate, i, k).0;
    case DropFailed(_) =>
      assert Release(Dropped(st, e)).gate == Give(st.gate).0;
    case DropUp(_) =>
      assert Release(Dropped(st, e)).gate == Give(st.gate).0;
    case HandlerRelease =>
      assert Release(Vacated(st)).gate == Give(st.gate).0;
    case _ =>
  }

  function Queue(g: Gate, first: bool): seq<nat> {
    if first then g.queue0 else g.queue1
  }

  /** Session `i` stops or starts waiting in a queue. */
  predicate Leaves(st: State, e: Event, i: nat, first: bool)
    requires Enabled(st, e)
  {
    && i < |st.ss| && i < |Next(st, e).ss|
    && st.ss[i].pc.Queued? && (st.ss[i].pc.k == PreUp) == first && !Next(st, e).ss[i].pc.Queued?
  }

  /** Whoever stops waiting was at the head of the queue, owns the next slot, and waited for ip-up or
      ip-down only if nobody waited for ip-pre-up. */
  lemma {:induction false} ServedInOrder(st: State, e: Event, i: nat, first: bool)
    requires QueueInv(st.gate, st.ss) && Enabled(st, e) && Leaves(st, e, i, first)
    ensures Queue(st.gate, first) != [] && Queue(st.gate, first)[0] == i && (first || st.gate.queue0 == [])
    ensures Queue(Next(st, e).gate, first) == Queue(st.gate, first)[1..]
    ensures Next(st, e).ss[i].pc == Granted(st.ss[i].pc.k, st.next)
  {
    hide QueueInv;
    if e.DropFailed? || e.DropUp? || e.HandlerRelease? {
      var st1 := if e.HandlerRelease? then Vacated(st) else Dropped(st, e);
      var j := if e.HandlerRelease? then st.reaper.i else e.i;
      QueueKept(st.gate, st.ss, j, st1.ss[j]);
      assert st1.ss[i].pc == st.ss[i].pc;
      ReleaseServes(st1, i, first);
    } else {
      OthersWait(st, e, i);
      assert false;
    }
  }

  lemma {:induction false} ReleaseServes(st: State, i: nat, first: bool)
    requires QueueInv(st.gate, st.ss) && i < |st.ss| && st.ss[i].pc.Queued? && (st.ss[i].pc.k == PreUp) == first
    requires !Release(st).ss[i].pc.Queued?
    ensures Queue(st.gate, first) != [] && Queue(st.gate, first)[0] == i && (first || st.gate.queue0 == [])
    ensures Queue(Release(st).gate, first) == Queue(st.gate, first)[1..]
    ensures Release(st).ss[i].pc == Granted(st.ss[i].pc.k, st.next)
  {
    HeadKind(st.gate, st.ss);
    hide QueueInv;
    assert Give(st.gate).1 == Some(i);
  }

  lemma {:induction false} HeadKind(g: Gate, ss: seq<Sess>)
    requires QueueInv(g, ss)
    ensures g.queue0 != [] ==> g.queue0[0] < |ss| && ss[g.queue0[0]].pc == Queued(PreUp)
    ensures g.queue1 != [] ==> g.queue1[0] < |ss| && ss[g.queue1[0]].pc.Queued? && ss[g.queue1[0]].pc.k != PreUp
  {
  }

  /** Steps that release nothing wake nobody who waits for a slot. */
  lemma {:induction false} OthersWait(st: State, e: Event, i: nat)
    requires Enabled(st, e) && !(e.DropFailed? || e.DropUp? || e.HandlerRelease?)
    requires i < |st.ss| && st.ss[i].pc.Queued?
    ensures i < |Next(st, e).ss| && Next(st, e).ss[i].pc.Queued?
  {
  }

  /** Those served and those joining during a run, in order. */
  ghost function ServedDuring(st: State, es: seq<Event>, first: bool): seq<nat>
    requires Feasible(st, es)
    decreases |es|
  {
    if es == [] then []
    else
      var st' := Next(st, es[0]);
      var q, q' := Queue(st.gate, first), Queue(st'.gate, first);
      (if |q'| < |q| then [q[0]] else []) + ServedDuring(st', es[1..], first)
  }

  ghost function JoinedDuring(st: State, es: seq<Event>, first: bool): seq<nat>
    requires Feasible(st, es)
    decreases |es|
  {
    if es == [] then []
    else
      var st' := Next(st, es[0]);
      var q, q' := Queue(st.gate, first), Queue(st'.gate, first);
      (if |q'| > |q| then [q'[|q'| - 1]] else []) + JoinedDuring(st', es[1..], first)
  }

  lemma {:induction false} FifoStep(q: seq<nat>, q': seq<nat>, q'': seq<nat>, joined: seq<nat>, served: seq<nat>)
    requires q' == q || (q != [] && q' == q[1..]) || (q' != [] && q'[..|q'| - 1] == q)
    requires q' + joined == served + q''
    ensures q + ((if |q'| > |q| then [q'[|q'| - 1]] else []) + joined) == ((if |q'| < |q| then [q[0]] else []) + served) + q''
  {
    if |q'| > |q| {
      assert q' == q + [q'[|q'| - 1]];
      assert q + ([q'[|q'| - 1]] + joined) == q' + joined;
    } else if |q'| < |q| {
      assert q + ([] + joined) == [q[0]] + (q' + joined);
      assert [q[0]] + (served + q'') == [q[0]] + served + q'';
    } else {
      assert [] + joined == joined && [] + served == served;
    }
  }

  /** Over any run each queue is first in, first out: those waiting at the start followed by those who
      joined are those served followed by those still waiting. */
  lemma {:induction false} RunFifo(st: State, es: seq<Event>, first: bool)
    requires Feasible(st, es)
    ensures Queue(st.gate, first) + JoinedDuring(st, es, first) ==
      ServedDuring(st, es, first) + Queue(After(st, es).gate, first)
    decreases |es|
  {
    hide Enabled, Next;
    if es == [] {
      assert Queue(st.gate, first) + [] == [] + Queue(st.gate, first);
    } else {
      var st' := Next(st, es[0]);
      StepServes(st, es[0]);
      RunFifo(st', es[1..], first);
      FifoStep(Queue(st.gate, first), Queue(st'.gate, first), Queue(After(st', es[1..]).gate, first),
               JoinedDuring(st', es[1..], first), ServedDuring(st', es[1..], first));
    }
  }
}
