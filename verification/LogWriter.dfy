/**
  The log writer: producers and session teardown share a queued flag and a message list with one
  writer thread, which batches message headers and chunks into an iovec.  Each step below is one
  critical section, or one piece of work on the writer's own lists.
 */
module LogWriter {
  import opened Base

  /** A message: its identity and how many chunks follow the header. */
  datatype Msg = Msg(id: nat, chunks: nat)

  /** Header (0) or chunk (1..) of a message, as an iovec entry refers to it. */
  datatype Piece = Piece(id: nat, j: nat)

  function MsgPieces(m: Msg): (ps: seq<Piece>)
    ensures |ps| == m.chunks + 1
  {
    seq(m.chunks + 1, j requires 0 <= j < m.chunks + 1 => Piece(m.id, j))
  }

  function Pieces(ms: seq<Msg>): seq<Piece> {
    if ms == [] then [] else MsgPieces(ms[0]) + Pieces(ms[1..])
  }

  lemma {:induction false} PiecesAppend(a: seq<Msg>, b: seq<Msg>)
    ensures Pieces(a + b) == Pieces(a) + Pieces(b)
    decreases |a|
  {
    hide MsgPieces;
    if a == [] {
      assert a + b == b;
    } else {
      assert (a + b)[1..] == a[1..] + b;
      PiecesAppend(a[1..], b);
    }
  }

  lemma {:induction false} PiecesOne(m: Msg)
    ensures Pieces([m]) == MsgPieces(m)
  {
    assert [m][1..] == [];
    assert Pieces([]) == [];
  }

  // ----- The writer's inner loop, as it runs on the iovec array --------------------------------

  /** What the writer has written, freed and kept for freeing. */
  datatype Done = Done(out: seq<Piece>, freed: seq<Msg>, free: seq<Msg>)

  /** Adds one entry to the iovec; a full iovec is written and the finished messages are freed. */
  method AddEntry(iov: array<Piece>, cnt: nat, p: Piece, d: Done) returns (cnt': nat, d': Done)
    requires cnt < iov.Length
    modifies iov
    ensures cnt' < iov.Length
    ensures d'.out + iov[..cnt'] == d.out + old(iov[..cnt]) + [p]
    ensures d'.freed + d'.free == d.freed + d.free
    ensures cnt' == cnt + 1 ==> d' == d && iov[..cnt'] == old(iov[..cnt]) + [p]
    ensures cnt' == cnt + 1 || (cnt' == 0 && d'.free == [])
  {
    iov[cnt] := p;
    assert iov[..cnt + 1] == old(iov[..cnt]) + [p];
    if cnt + 1 == iov.Length {
      d' := Done(d.out + iov[..cnt + 1], d.freed + d.free, []);
      cnt' := 0;
    } else {
      cnt', d' := cnt + 1, d;
    }
  }

  /** Unwritten entries belong to messages kept for freeing or to the first `j` pieces of `m`. */
  ghost predicate Covered(iov: seq<Piece>, free: seq<Msg>, m: Msg, j: nat) {
    forall a | 0 <= a < |iov| :: (exists x :: x in free && x.id == iov[a].id) || (iov[a].id == m.id && iov[a].j < j)
  }

  /** Enters header and chunks of one message. */
  method AddMessage(iov: array<Piece>, cnt: nat, m: Msg, d: Done) returns (cnt': nat, d': Done)
    requires cnt < iov.Length && Covered(iov[..cnt], d.free, m, 0)
    modifies iov
    ensures cnt' < iov.Length && Covered(iov[..cnt'], d'.free, m, m.chunks + 1)
    ensures d'.out + iov[..cnt'] == d.out + old(iov[..cnt]) + MsgPieces(m)
    ensures d'.freed + d'.free == d.freed + d.free
  {
    var j := 0;
    cnt', d' := cnt, d;
    ghost var before := d.out + iov[..cnt];
    assert before == before + MsgPieces(m)[..0];
    while j <= m.chunks
      invariant j <= m.chunks + 1 && cnt' < iov.Length && Covered(iov[..cnt'], d'.free, m, j)
      invariant d'.out + iov[..cnt'] == before + MsgPieces(m)[..j]
      invariant d'.freed + d'.free == d.freed + d.free
    {
      ghost var was := iov[..cnt'];
      cnt', d' := AddEntry(iov, cnt', Piece(m.id, j), d');
      assert MsgPieces(m)[..j + 1] == MsgPieces(m)[..j] + [Piece(m.id, j)];
      assert before + MsgPieces(m)[..j] + [Piece(m.id, j)] == before + MsgPieces(m)[..j + 1];
      j := j + 1;
    }
    assert MsgPieces(m)[..j] == MsgPieces(m);
  }

  /** Enters a whole list of messages; each is kept for freeing once all of it has been entered. */
  method Drain(iov: array<Piece>, cnt: nat, ms: seq<Msg>, d: Done) returns (cnt': nat, d': Done)
    requires cnt < iov.Length && AllKept(iov[..cnt], d.free)
    modifies iov
    ensures cnt' < iov.Length && AllKept(iov[..cnt'], d'.free)
    ensures d'.out + iov[..cnt'] == d.out + old(iov[..cnt]) + Pieces(ms)
    ensures d'.freed + d'.free == d.freed + d.free + ms
  {
    hide MsgPieces, Pieces;
    var k := 0;
    cnt', d' := cnt, d;
    ghost var before, kept := d.out + iov[..cnt], d.freed + d.free;
    PiecesNone();
    assert ms[..0] == [] && before == before + [] && kept == kept + [];
    while k < |ms|
      invariant 0 <= k <= |ms| && cnt' < iov.Length && AllKept(iov[..cnt'], d'.free)
      invariant d'.out + iov[..cnt'] == before + Pieces(ms[..k])
      invariant d'.freed + d'.free == kept + ms[..k]
    {
      cnt', d' := AddMessage(iov, cnt', ms[k], d');
      ghost var free := d'.free;
      assert d'.freed + (free + [ms[k]]) == kept + ms[..k] + [ms[k]];
      d' := d'.(free := d'.free + [ms[k]]);
      KeptMore(iov[..cnt'], free, ms[k]);
      assert ms[..k + 1] == ms[..k] + [ms[k]];
      assert kept + ms[..k] + [ms[k]] == kept + ms[..k + 1];
      PiecesSnoc(ms[..k], ms[k]);
      assert before + Pieces(ms[..k]) + MsgPieces(ms[k]) == before + (Pieces(ms[..k]) + MsgPieces(ms[k]));
      k := k + 1;
    }
    assert ms[..k] == ms;
  }

  /** Every unwritten entry belongs to a message that is kept. */
  ghost predicate AllKept(iov: seq<Piece>, free: seq<Msg>) {
    forall a | 0 <= a < |iov| :: exists x :: x in free && x.id == iov[a].id
  }

  lemma {:induction false} KeptMore(iov: seq<Piece>, free: seq<Msg>, m: Msg)
    requires Covered(iov, free, m, m.chunks + 1)
    ensures AllKept(iov, free + [m])
  {
    var free' := free + [m];
    assert m in free';
    forall a | 0 <= a < |iov| ensures exists x :: x in free' && x.id == iov[a].id {
      if x :| x in free && x.id == iov[a].id {
        assert x in free';
      }
    }
  }

  lemma {:induction false} PiecesNone()
    ensures Pieces([]) == []
  {
  }

  lemma {:induction false} PiecesSnoc(ms: seq<Msg>, m: Msg)
    ensures Pieces(ms + [m]) == Pieces(ms) + MsgPieces(m)
  {
    hide MsgPieces, Pieces;
    PiecesAppend(ms, [m]);
    PiecesOne(m);
  }

  // ----- States --------------------------------------------------------------------------------

  /** Where the one entry of a file into the writer's work is: nowhere, about to be queued by a
      producer, in the queue, or in the writer's hands. */
  datatype Token = NoToken | Promised | InQueue | InHand

  /** `out` is what was written to the file, `sent` every message produced for it. */
  datatype File = File(
    msgs: seq<Msg>, open: bool, queued: bool, needFree: bool, freed: bool,
    out: seq<Piece>, sent: seq<Msg>, token: Token)

  datatype Writer =
    | Idle
    | Picked(f: nat)             // at the head of the loop for file f
    | Filling(f: nat, j: nat)    // `j` pieces of the first listed message are entered

  /** `promised` are files whose producer has set the queued flag and is about to queue them. */
  datatype State = State(
    iovMax: nat, files: seq<File>, queue: seq<nat>, promised: seq<nat>,
    w: Writer, list: seq<Msg>, iov: seq<Piece>, free: seq<Msg>, freed: seq<Msg>, next: nat)

  function Init(iovMax: nat): State {
    State(iovMax, [], [], [], Idle, [], [], [], [], 0)
  }

  function Put(st: State, f: nat, x: File): State
    requires f < |st.files|
  {
    st.(files := st.files[f := x])
  }

  datatype Event =
    | NewFile(open: bool) | Open(f: nat) | Produce(f: nat, chunks: nat) | Enqueue(a: nat) | Teardown(f: nat)
    | Pick | Check | Enter | Move

  predicate Enabled(st: State, e: Event) {
    match e
    case NewFile(_) => true
    case Open(f) => f < |st.files| && !st.files[f].needFree && !st.files[f].open
    case Produce(f, _) => f < |st.files| && !st.files[f].needFree
    case Enqueue(a) => a < |st.promised| && st.promised[a] < |st.files|
    case Teardown(f) => f < |st.files| && !st.files[f].needFree
    case Pick => st.w.Idle? && st.queue != [] && st.queue[0] < |st.files|
    case Check => st.w.Picked? && st.w.f < |st.files|
    case Enter => st.w.Filling? && st.w.f < |st.files| && st.list != [] && st.w.j <= st.list[0].chunks
    case Move => st.w.Filling? && (st.list == [] || st.w.j > st.list[0].chunks)
  }

  /** Sets the queued flag; whoever finds it clear has to queue the file. */
  function Flag(st: State, f: nat, x: File): State
    requires f < |st.files|
  {
    if x.queued then Put(st, f, x)
    else Put(st.(promised := st.promised + [f]), f, x.(queued := true, token := Promised))
  }

  function OpenStep(st: State, f: nat): State
    requires f < |st.files|
  {
    var x := st.files[f].(open := true);
    if x.msgs != [] then Flag(st, f, x) else Put(st, f, x)
  }

  function ProduceStep(st: State, f: nat, chunks: nat): State
    requires f < |st.files|
  {
    var m := Msg(st.next, chunks);
    var x := st.files[f].(msgs := st.files[f].msgs + [m], sent := st.files[f].sent + [m]);
    var st' := st.(next := st.next + 1);
    if x.open then Flag(st', f, x) else Put(st', f, x)
  }

  function EnqueueStep(st: State, a: nat): State
    requires Enabled(st, Enqueue(a))
  {
    var f := st.promised[a];
    Put(st.(promised := st.promised[..a] + st.promised[a + 1..], queue := st.queue + [f]),
        f, st.files[f].(token := InQueue))
  }

  /** A queued file is left to the writer; otherwise its messages and the record are freed at once. */
  function TeardownStep(st: State, f: nat): State
    requires f < |st.files|
  {
    var x := st.files[f].(needFree := true);
    if x.queued then Put(st, f, x)
    else Put(st.(freed := st.freed + x.msgs), f, x.(msgs := [], freed := true))
  }

  function PickStep(st: State): State
    requires Enabled(st, Pick)
  {
    var f := st.queue[0];
    Put(st.(queue := st.queue[1..], w := Picked(f), iov := []), f, st.files[f].(token := InHand))
  }

  /** Writes the entries to the file and frees the finished messages. */
  function Flush(st: State, f: nat): State
    requires f < |st.files|
  {
    Put(st.(iov := [], freed := st.freed + st.free, free := []), f, st.files[f].(out := st.files[f].out + st.iov))
  }

  /** Under the file's lock: takes over its messages, or finishes with it. */
  function CheckStep(st: State): State
    requires Enabled(st, Check)
  {
    var f := st.w.f;
    var x := st.files[f];
    if x.msgs != [] then Put(st.(w := Filling(f, 0), list := x.msgs), f, x.(msgs := []))
    else
      var st1 := if st.iov != [] then Flush(st, f) else st;
      Put(st1.(w := Idle), f, st1.files[f].(queued := false, token := NoToken, freed := x.needFree))
  }

  function EnterStep(st: State): State
    requires Enabled(st, Enter)
  {
    var st' := st.(iov := st.iov + [Piece(st.list[0].id, st.w.j)], w := Filling(st.w.f, st.w.j + 1));
    if |st'.iov| == st.iovMax then Flush(st', st.w.f) else st'
  }

  function MoveStep(st: State): State
    requires Enabled(st, Move)
  {
    if st.list == [] then st.(w := Picked(st.w.f))
    else st.(list := st.list[1..], free := st.free + [st.list[0]], w := Filling(st.w.f, 0))
  }

  function Next(st: State, e: Event): State
    requires Enabled(st, e)
  {
    match e
    case NewFile(open) => st.(files := st.files + [File([], open, false, false, false, [], [], NoToken)])
    case Open(f) => OpenStep(st, f)
    case Produce(f, chunks) => ProduceStep(st, f, chunks)
    case Enqueue(a) => EnqueueStep(st, a)
    case Teardown(f) => TeardownStep(st, f)
    case Pick => PickStep(st)
    case Check => CheckStep(st)
    case Enter => EnterStep(st)
    case Move => MoveStep(st)
  }

  // ----- The queued flag -----------------------------------------------------------------------

  ghost predicate Working(w: Writer, f: nat) {
    !w.Idle? && w.f == f
  }

  /** The flag says whether the file has its token; the record is freed exactly when it is torn down
      and the flag is clear; an open file with messages has the flag set. */
  ghost predicate FileOk(x: File, f: nat, w: Writer) {
    && (x.queued <==> x.token != NoToken)
    && (x.token == InHand <==> Working(w, f))
    && (x.freed <==> x.needFree && !x.queued)
    && (x.open && x.msgs != [] ==> x.queued)
    && (!x.open ==> !x.queued)
    && (x.freed ==> x.msgs == [])
  }

  ghost predicate Distinct(q: seq<nat>) {
    forall a, b | 0 <= a < b < |q| :: q[a] != q[b]
  }

  /** A list holds exactly the files whose token is there, each once. */
  ghost predicate ListOk(q: seq<nat>, files: seq<File>, t: Token) {
    && Distinct(q)
    && (forall a | 0 <= a < |q| :: q[a] < |files| && files[q[a]].token == t)
    && (forall f | 0 <= f < |files| && files[f].token == t :: f in q)
  }

  ghost predicate TokenInv(st: State) {
    && (forall f | 0 <= f < |st.files| :: FileOk(st.files[f], f, st.w))
    && (!st.w.Idle? ==> st.w.f < |st.files|)
    && ListOk(st.queue, st.files, InQueue) && ListOk(st.promised, st.files, Promised)
  }

  lemma {:induction false} ListSame(q: seq<nat>, files: seq<File>, t: Token, f: nat, x: File)
    requires ListOk(q, files, t) && f < |files|
    requires x.token == files[f].token || (x.token != t && files[f].token != t)
    ensures ListOk(q, files[f := x], t)
  {
  }

  lemma {:induction false} ListJoin(q: seq<nat>, files: seq<File>, t: Token, f: nat, x: File)
    requires ListOk(q, files, t) && f < |files| && files[f].token != t && x.token == t
    ensures ListOk(q + [f], files[f := x], t)
  {
  }

  lemma {:induction false} Removed(q: seq<nat>, a: nat)
    requires Distinct(q) && a < |q|
    ensures var q' := q[..a] + q[a + 1..];
      Distinct(q') && forall f :: f in q' <==> f in q && f != q[a]
  {
    var q' := q[..a] + q[a + 1..];
    forall f ensures f in q' <==> f in q && f != q[a] {
      if f in q && f != q[a] {
        var b: nat :| b < |q| && q[b] == f;
        assert q'[if b < a then b else b - 1] == f;
      }
    }
  }

  lemma {:induction false} ListLeave(q: seq<nat>, files: seq<File>, t: Token, a: nat, x: File)
    requires ListOk(q, files, t) && a < |q| && x.token != t
    ensures q[a] < |files| && ListOk(q[..a] + q[a + 1..], files[q[a] := x], t)
  {
    var q' := q[..a] + q[a + 1..];
    Removed(q, a);
    hide Distinct;
    forall b | 0 <= b < |q'| ensures q'[b] < |files| && q'[b] != q[a] && files[q'[b]].token == t {
      assert q'[b] in q';
      var c :| 0 <= c < |q| && q[c] == q'[b];
    }
  }

  /** A step on file `f` that leaves its token where it is, or a writer step on it. */
  lemma {:induction false} TokenOne(st: State, st': State, f: nat, x: File)
    requires TokenInv(st) && f < |st.files| && st'.files == st.files[f := x]
    requires st'.w == st.w || ((st.w.Idle? || st.w.f == f) && (st'.w.Idle? || st'.w.f == f))
    requires FileOk(x, f, st'.w)
    requires ListOk(st'.queue, st'.files, InQueue) && ListOk(st'.promised, st'.files, Promised)
    ensures TokenInv(st')
  {
    hide ListOk;
    forall g | 0 <= g < |st'.files| ensures FileOk(st'.files[g], g, st'.w) {
      assert FileOk(st.files[g], g, st.w);
    }
  }

  lemma {:induction false} TokenFlag(st: State, f: nat, x: File)
    requires TokenInv(st) && f < |st.files| && x.token == st.files[f].token && x.open && !x.needFree
    requires x.queued == st.files[f].queued && !x.freed
    ensures TokenInv(Flag(st, f, x))
  {
    hide ListOk;
    var st' := Flag(st, f, x);
    assert FileOk(st.files[f], f, st.w);
    ListSame(st.queue, st.files, InQueue, f, st'.files[f]);
    if x.queued {
      ListSame(st.promised, st.files, Promised, f, x);
    } else {
      ListJoin(st.promised, st.files, Promised, f, st'.files[f]);
    }
    TokenOne(st, st', f, st'.files[f]);
  }

  lemma {:induction false} TokenProducer(st: State, e: Event)
    requires TokenInv(st) && Enabled(st, e) && (e.Open? || e.Produce? || e.Teardown?)
    ensures TokenInv(Next(st, e))
  {
    hide ListOk;
    var st', f := Next(st, e), e.f;
    var x := st.files[f];
    assert FileOk(x, f, st.w);
    if e.Open? && x.msgs != [] {
      TokenFlag(st, f, x.(open := true));
    } else if e.Produce? && x.open {
      var m := Msg(st.next, e.chunks);
      TokenFlag(st.(next := st.next + 1), f, x.(msgs := x.msgs + [m], sent := x.sent + [m]));
    } else {
      ListSame(st.queue, st.files, InQueue, f, st'.files[f]);
      ListSame(st.promised, st.files, Promised, f, st'.files[f]);
      TokenOne(st, st', f, st'.files[f]);
    }
  }

  lemma {:induction false} TokenEnqueue(st: State, a: nat)
    requires TokenInv(st) && Enabled(st, Enqueue(a))
    ensures TokenInv(Next(st, Enqueue(a)))
  {
    var st', f := Next(st, Enqueue(a)), st.promised[a];
    assert st.files[f].token == Promised;
    hide ListOk;
    assert FileOk(st.files[f], f, st.w);
    ListLeave(st.promised, st.files, Promised, a, st'.files[f]);
    ListJoin(st.queue, st.files, InQueue, f, st'.files[f]);
    TokenOne(st, st', f, st'.files[f]);
  }

  lemma {:induction false} TokenPick(st: State)
    requires TokenInv(st) && Enabled(st, Pick)
    ensures TokenInv(Next(st, Pick))
  {
    var st', f := Next(st, Pick), st.queue[0];
    assert st.files[f].token == InQueue;
    hide ListOk;
    assert FileOk(st.files[f], f, st.w);
    ListLeave(st.queue, st.files, InQueue, 0, st'.files[f]);
    assert st.queue[..0] + st.queue[1..] == st.queue[1..];
    ListSame(st.promised, st.files, Promised, f, st'.files[f]);
    TokenOne(st, st', f, st'.files[f]);
  }

  lemma {:induction false} TokenWriter(st: State, e: Event)
    requires TokenInv(st) && Enabled(st, e) && (e.Check? || e.Enter?)
    ensures TokenInv(Next(st, e))
  {
    hide ListOk;
    var st', f := Next(st, e), st.w.f;
    assert FileOk(st.files[f], f, st.w);
    assert st'.files == st.files[f := st'.files[f]];
    ListSame(st.queue, st.files, InQueue, f, st'.files[f]);
    ListSame(st.promised, st.files, Promised, f, st'.files[f]);
    TokenOne(st, st', f, st'.files[f]);
  }

  lemma {:induction false} TokenOther(st: State, e: Event)
    requires TokenInv(st) && Enabled(st, e) && (e.Move? || e.NewFile?)
    ensures TokenInv(Next(st, e))
  {
    var st' := Next(st, e);
    forall g | 0 <= g < |st'.files| ensures FileOk(st'.files[g], g, st'.w) {
      if g < |st.files| {
        assert FileOk(st.files[g], g, st.w);
      }
    }
  }

  /** Every step keeps the flag, the lists and the records consistent. */
  lemma {:induction false} TokenStep(st: State, e: Event)
    requires TokenInv(st) && Enabled(st, e)
    ensures TokenInv(Next(st, e))
  {
    hide TokenInv, Next;
    match e
    case NewFile(_) => TokenOther(st, e);
    case Open(_) => TokenProducer(st, e);
    case Produce(_, _) => TokenProducer(st, e);
    case Enqueue(a) => TokenEnqueue(st, a);
    case Teardown(_) => TokenProducer(st, e);
    case Pick => TokenPick(st);
    case Check => TokenWriter(st, e);
    case Enter => TokenWriter(st, e);
    case Move => TokenOther(st, e);
  }

  // ----- What reaches the file -----------------------------------------------------------------

  ghost predicate WriterOk(st: State) {
    && |st.iov| < st.iovMax
    && (st.w.Idle? ==> st.iov == [])
    && (!st.w.Filling? ==> st.list == [])
    && (st.w.Filling? ==> if st.list == [] then st.w.j == 0 else st.w.j <= st.list[0].chunks + 1)
  }

  ghost function From(ps: seq<Piece>, j: nat): seq<Piece> {
    if j <= |ps| then ps[j..] else []
  }

  /** What the writer still has in hand for its file: unwritten entries, then the pieces not yet entered. */
  ghost function InWork(st: State): seq<Piece> {
    st.iov + if st.w.Filling? then From(Pieces(st.list), st.w.j) else []
  }

  /** Written, in work and waiting, in this order, is exactly what was produced; only a file that was
      never opened loses its messages, when it is torn down. */
  ghost predicate OutOk(x: File, work: seq<Piece>) {
    (x.freed && !x.open) || x.out + work + Pieces(x.msgs) == Pieces(x.sent)
  }

  ghost predicate OutInv(st: State) {
    && WriterOk(st)
    && (forall f | 0 <= f < |st.files| :: OutOk(st.files[f], if Working(st.w, f) then InWork(st) else []))
  }

  lemma {:induction false} OutProduced(x: File, work: seq<Piece>, m: Msg)
    requires OutOk(x, work) && !x.freed
    ensures OutOk(x.(msgs := x.msgs + [m], sent := x.sent + [m]), work)
  {
    hide Pieces, MsgPieces;
    PiecesSnoc(x.msgs, m);
    PiecesSnoc(x.sent, m);
    var a, b, c := x.out + work, Pieces(x.msgs), MsgPieces(m);
    assert a + (b + c) == a + b + c;
  }

  /** A producer's step: the writer's work is untouched. */
  lemma {:induction false} OutOne(st: State, st': State, f: nat, x: File)
    requires OutInv(st) && f < |st.files| && st'.files == st.files[f := x]
    requires st'.w == st.w && st'.list == st.list && st'.iov == st.iov && st'.iovMax == st.iovMax
    requires OutOk(x, if Working(st.w, f) then InWork(st) else [])
    ensures OutInv(st')
  {
    hide OutOk, Pieces, From;
    forall g | 0 <= g < |st'.files| ensures OutOk(st'.files[g], if Working(st'.w, g) then InWork(st') else []) {
      assert OutOk(st.files[g], if Working(st.w, g) then InWork(st) else []);
    }
  }

  /** A writer's step on its file `f`; other files are not in work. */
  lemma {:induction false} OutWriter(st: State, st': State, f: nat, x: File)
    requires OutInv(st) && f < |st.files| && st'.files == st.files[f := x] && WriterOk(st')
    requires (st.w.Idle? || st.w.f == f) && (st'.w.Idle? || st'.w.f == f)
    requires OutOk(x, if st'.w.Idle? then [] else InWork(st'))
    ensures OutInv(st')
  {
    hide OutOk, Pieces, From, WriterOk, InWork;
    forall g | 0 <= g < |st'.files| ensures OutOk(st'.files[g], if Working(st'.w, g) then InWork(st') else []) {
      assert OutOk(st.files[g], if Working(st.w, g) then InWork(st) else []);
    }
  }

  lemma {:induction false} OutProducer(st: State, e: Event)
    requires TokenInv(st) && OutInv(st) && Enabled(st, e) && (e.Open? || e.Produce? || e.Teardown? || e.Enqueue?)
    ensures OutInv(Next(st, e))
  {
    hide Pieces, ListOk, From, InWork, WriterOk;
    var st', f := Next(st, e), if e.Enqueue? then st.promised[e.a] else e.f;
    var x, work := st.files[f], if Working(st.w, f) then InWork(st) else [];
    assert FileOk(x, f, st.w) && OutOk(x, work);
    if e.Produce? {
      OutProduced(x, work, Msg(st.next, e.chunks));
    }
    OutOne(st, st', f, st'.files[f]);
  }

  lemma {:induction false} OutPick(st: State)
    requires TokenInv(st) && OutInv(st) && Enabled(st, Pick)
    ensures OutInv(Next(st, Pick))
  {
    hide Pieces, ListOk, From;
    var st', f := Next(st, Pick), st.queue[0];
    assert OutOk(st.files[f], []);
    assert InWork(st') == [];
    OutWriter(st, st', f, st'.files[f]);
  }

  lemma {:induction false} OutCheck(st: State)
    requires TokenInv(st) && OutInv(st) && Enabled(st, Check)
    ensures OutInv(Next(st, Check))
  {
    hide ListOk;
    var st', f := Next(st, Check), st.w.f;
    var x := st.files[f];
    assert FileOk(x, f, st.w) && OutOk(x, InWork(st));
    PiecesNone();
    hide Pieces, TokenInv;
    assert InWork(st) == st.iov;
    if x.msgs != [] {
      assert From(Pieces(x.msgs), 0) == Pieces(x.msgs);
      assert x.out + st.iov + Pieces(x.msgs) == x.out + (st.iov + Pieces(x.msgs)) + [];
    } else {
      assert x.out + st.iov + [] == (x.out + st.iov) + [] + [];
    }
    assert st'.files == st.files[f := st'.files[f]];
    OutWriter(st, st', f, st'.files[f]);
  }

  lemma {:induction false} NextPiece(ms: seq<Msg>, j: nat)
    requires ms != [] && j <= ms[0].chunks
    ensures From(Pieces(ms), j) == [Piece(ms[0].id, j)] + From(Pieces(ms), j + 1)
  {
    var ps := Pieces(ms);
    assert ps[j] == MsgPieces(ms[0])[j];
    assert ps[j..] == [ps[j]] + ps[j + 1..];
  }

  lemma {:induction false} NextMessage(ms: seq<Msg>)
    requires ms != []
    ensures From(Pieces(ms), ms[0].chunks + 1) == From(Pieces(ms[1..]), 0)
  {
    hide MsgPieces;
    assert Pieces(ms)[ms[0].chunks + 1..] == Pieces(ms[1..]);
  }

  lemma {:induction false} OutEnter(st: State)
    requires OutInv(st) && Enabled(st, Enter)
    ensures OutInv(Next(st, Enter))
  {
    hide Pieces, From;
    var st', f, p := Next(st, Enter), st.w.f, Piece(st.list[0].id, st.w.j);
    var x := st.files[f];
    assert OutOk(x, InWork(st));
    NextPiece(st.list, st.w.j);
    var rest := From(Pieces(st.list), st.w.j + 1);
    assert st.iov + ([p] + rest) == (st.iov + [p]) + rest;
    assert x.out + ((st.iov + [p]) + rest) == (x.out + (st.iov + [p])) + ([] + rest);
    assert st'.files == st.files[f := st'.files[f]];
    OutWriter(st, st', f, st'.files[f]);
  }

  lemma {:induction false} OutMove(st: State)
    requires TokenInv(st) && OutInv(st) && Enabled(st, Move)
    ensures OutInv(Next(st, Move))
  {
    hide ListOk;
    var st', f := Next(st, Move), st.w.f;
    assert OutOk(st.files[f], InWork(st));
    PiecesNone();
    if st.list != [] {
      NextMessage(st.list);
    }
    hide Pieces, TokenInv;
    assert InWork(st') == InWork(st);
    assert st'.files == st.files[f := st.files[f]];
    OutWriter(st, st', f, st.files[f]);
  }

  lemma {:induction false} OutNew(st: State, open: bool)
    requires TokenInv(st) && OutInv(st)
    ensures OutInv(Next(st, NewFile(open)))
  {
    hide ListOk, From, FileOk;
    var st' := Next(st, NewFile(open));
    PiecesNone();
    hide Pieces;
    forall g | 0 <= g < |st'.files| ensures OutOk(st'.files[g], if Working(st'.w, g) then InWork(st') else []) {
      if g < |st.files| {
        assert OutOk(st.files[g], if Working(st.w, g) then InWork(st) else []);
      }
    }
  }

  /** Every step writes exactly what is due next. */
  lemma {:induction false} OutStep(st: State, e: Event)
    requires TokenInv(st) && OutInv(st) && Enabled(st, e)
    ensures OutInv(Next(st, e))
  {
    hide TokenInv, OutInv, Next;
    match e
    case NewFile(open) => OutNew(st, open);
    case Open(_) => OutProducer(st, e);
    case Produce(_, _) => OutProducer(st, e);
    case Enqueue(_) => OutProducer(st, e);
    case Teardown(_) => OutProducer(st, e);
    case Pick => OutPick(st);
    case Check => OutCheck(st);
    case Enter => OutEnter(st);
    case Move => OutMove(st);
  }

  // ----- Freeing messages ----------------------------------------------------------------------

  function Occ(ms: seq<Msg>, id: nat): nat {
    if ms == [] then 0 else (if ms[0].id == id then 1 else 0) + Occ(ms[1..], id)
  }

  function OccFiles(files: seq<File>, id: nat): nat {
    if files == [] then 0 else OccFiles(files[..|files| - 1], id) + Occ(files[|files| - 1].msgs, id)
  }

  lemma {:induction false} OccAppend(a: seq<Msg>, b: seq<Msg>, id: nat)
    ensures Occ(a + b, id) == Occ(a, id) + Occ(b, id)
    decreases |a|
  {
    if a == [] {
      assert a + b == b;
    } else {
      assert (a + b)[1..] == a[1..] + b;
      OccAppend(a[1..], b, id);
    }
  }

  lemma {:induction false} OccUpdate(files: seq<File>, f: nat, x: File, id: nat)
    requires f < |files|
    ensures OccFiles(files[f := x], id) + Occ(files[f].msgs, id) == OccFiles(files, id) + Occ(x.msgs, id)
    decreases |files|
  {
    hide Occ;
    var n := |files| - 1;
    var files' := files[f := x];
    if f == n {
      assert files'[..n] == files[..n];
    } else {
      assert files'[..n] == files[..n][f := x];
      OccUpdate(files[..n], f, x, id);
    }
  }

  lemma {:induction false} OccMember(ms: seq<Msg>, m: Msg)
    requires m in ms
    ensures Occ(ms, m.id) > 0
    decreases |ms|
  {
    if ms[0] != m {
      OccMember(ms[1..], m);
    }
  }

  /** Message `id` is freed, kept for freeing, with the writer, or with its file: in one of these, once. */
  ghost predicate OnceInv(st: State, id: nat) {
    Occ(st.freed, id) + Occ(st.free, id) + Occ(st.list, id) + OccFiles(st.files, id) == if id < st.next then 1 else 0
  }

  lemma {:induction false} OnceProduce(st: State, f: nat, chunks: nat, id: nat)
    requires OnceInv(st, id) && Enabled(st, Produce(f, chunks))
    ensures OnceInv(Next(st, Produce(f, chunks)), id)
  {
    hide OccFiles, Occ;
    var st', m := Next(st, Produce(f, chunks)), Msg(st.next, chunks);
    OccUpdate(st.files, f, st'.files[f], id);
    OccAppend(st.files[f].msgs, [m], id);
    OccOne(m, id);
  }

  lemma {:induction false} OccOne(m: Msg, id: nat)
    ensures Occ([m], id) == if m.id == id then 1 else 0
  {
    assert Occ([m], id) == (if m.id == id then 1 else 0) + Occ([], id);
  }

  lemma {:induction false} OnceProducer(st: State, e: Event, id: nat)
    requires OnceInv(st, id) && Enabled(st, e) && (e.Open? || e.Teardown? || e.Enqueue?)
    ensures OnceInv(Next(st, e), id)
  {
    hide OccFiles, Occ;
    var st', f := Next(st, e), if e.Enqueue? then st.promised[e.a] else e.f;
    OccUpdate(st.files, f, st'.files[f], id);
    if e.Teardown? {
      OccNone(id);
      OccAppend(st.freed, st.files[f].msgs, id);
    }
  }

  lemma {:induction false} OccNone(id: nat)
    ensures Occ([], id) == 0
  {
  }

  lemma {:induction false} OnceFlush(st: State, f: nat, id: nat)
    requires OnceInv(st, id) && f < |st.files|
    ensures OnceInv(Flush(st, f), id)
  {
    hide OccFiles, Occ;
    OccNone(id);
    OccAppend(st.freed, st.free, id);
    OccUpdate(st.files, f, Flush(st, f).files[f], id);
  }

  lemma {:induction false} OnceCheck(st: State, id: nat)
    requires OnceInv(st, id) && WriterOk(st) && Enabled(st, Check)
    ensures OnceInv(Next(st, Check), id)
  {
    hide OccFiles, Occ;
    var st', f := Next(st, Check), st.w.f;
    OccNone(id);
    if st.files[f].msgs != [] {
      OccUpdate(st.files, f, st'.files[f], id);
    } else {
      var st1 := if st.iov != [] then Flush(st, f) else st;
      OnceFlush(st, f, id);
      OccUpdate(st1.files, f, st'.files[f], id);
    }
  }

  lemma {:induction false} OnceWriter(st: State, e: Event, id: nat)
    requires OnceInv(st, id) && Enabled(st, e) && (e.Pick? || e.Enter? || e.Move?)
    ensures OnceInv(Next(st, e), id)
  {
    hide OccFiles;
    if e.Pick? {
      hide Occ;
      OccUpdate(st.files, st.queue[0], Next(st, e).files[st.queue[0]], id);
    } else if e.Enter? {
      hide Occ;
      var st1 := st.(iov := st.iov + [Piece(st.list[0].id, st.w.j)], w := Filling(st.w.f, st.w.j + 1));
      OnceFlush(st1, st.w.f, id);
    } else if st.list != [] {
      OccAppend(st.free, [st.list[0]], id);
      assert Occ([st.list[0]], id) == (if st.list[0].id == id then 1 else 0) + Occ([], id);
    }
  }

  lemma {:induction false} OnceNew(st: State, open: bool, id: nat)
    requires OnceInv(st, id)
    ensures OnceInv(Next(st, NewFile(open)), id)
  {
    var st' := Next(st, NewFile(open));
    assert st'.files[..|st.files|] == st.files;
  }

  lemma {:induction false} OnceStep(st: State, e: Event, id: nat)
    requires OnceInv(st, id) && WriterOk(st) && Enabled(st, e)
    ensures OnceInv(Next(st, e), id)
  {
    hide OnceInv, Next, WriterOk;
    match e
    case NewFile(open) => OnceNew(st, open, id);
    case Open(_) => OnceProducer(st, e, id);
    case Produce(f, chunks) => OnceProduce(st, f, chunks, id);
    case Enqueue(_) => OnceProducer(st, e, id);
    case Teardown(_) => OnceProducer(st, e, id);
    case Pick => OnceWriter(st, e, id);
    case Check => OnceCheck(st, id);
    case Enter => OnceWriter(st, e, id);
    case Move => OnceWriter(st, e, id);
  }

  /** An unwritten entry belongs to a message kept for freeing, or to the one being entered. */
  ghost predicate EntryOk(p: Piece, st: State) {
    (exists x :: x in st.free && x.id == p.id) || (st.list != [] && p.id == st.list[0].id)
  }

  ghost predicate EntryInv(st: State) {
    forall a | 0 <= a < |st.iov| :: EntryOk(st.iov[a], st)
  }

  lemma {:induction false} EntryMoved(p: Piece, st: State, st': State)
    requires EntryOk(p, st) && st.list != [] && st'.free == st.free + [st.list[0]]
    ensures EntryOk(p, st')
  {
    if x :| x in st.free && x.id == p.id {
      assert x in st'.free;
    } else {
      assert st.list[0] in st'.free;
    }
  }

  lemma {:induction false} EntryStep(st: State, e: Event)
    requires EntryInv(st) && WriterOk(st) && Enabled(st, e)
    ensures EntryInv(Next(st, e))
  {
    var st' := Next(st, e);
    forall a | 0 <= a < |st'.iov| ensures EntryOk(st'.iov[a], st') {
      if a < |st.iov| {
        assert EntryOk(st.iov[a], st);
        if e.Move? && st.list != [] {
          EntryMoved(st.iov[a], st, st');
        }
      }
    }
  }

  // ----- Whole runs ----------------------------------------------------------------------------

  ghost predicate Inv(st: State) {
    TokenInv(st) && OutInv(st) && EntryInv(st) && forall id: nat :: OnceInv(st, id)
  }

  lemma {:induction false} StepSafe(st: State, e: Event)
    requires Inv(st) && Enabled(st, e)
    ensures Inv(Next(st, e))
  {
    hide TokenInv, EntryInv, OnceInv, Enabled, Next;
    TokenStep(st, e);
    OutStep(st, e);
    EntryStep(st, e);
    forall id: nat ensures OnceInv(Next(st, e), id) {
      OnceStep(st, e, id);
    }
  }

  predicate Feasible(st: State, es: seq<Event>)
    decreases |es|
  {
    es == [] || (Enabled(st, es[0]) && Feasible(Next(st, es[0]), es[1..]))
  }

  function After(st: State, es: seq<Event>): State
    requires Feasible(st, es)
    decreases |es|
  {
    if es == [] then st else After(Next(st, es[0]), es[1..])
  }

  lemma {:induction false} RunSafe(st: State, es: seq<Event>)
    requires Inv(st) && Feasible(st, es)
    ensures Inv(After(st, es))
    decreases |es|
  {
    hide Inv, Enabled, Next;
    if es != [] {
      StepSafe(st, es[0]);
      RunSafe(Next(st, es[0]), es[1..]);
    }
  }

  lemma {:induction false} InitSafe(iovMax: nat)
    requires iovMax > 0
    ensures Inv(Init(iovMax))
  {
  }

  /** The messages a run of events produces for file `f`, numbered from `n` over all files. */
  function Produced(es: seq<Event>, f: nat, n: nat := 0): seq<Msg>
    decreases |es|
  {
    if es == [] then []
    else if es[0].Produce? then
      (if es[0].f == f then [Msg(n, es[0].chunks)] else []) + Produced(es[1..], f, n + 1)
    else Produced(es[1..], f, n)
  }

  /** What a file was sent so far; nothing before it exists. */
  function Sent(st: State, f: nat): seq<Msg> {
    if f < |st.files| then st.files[f].sent else []
  }

  lemma {:induction false} SentStep(st: State, e: Event, f: nat)
    requires Enabled(st, e)
    ensures Sent(Next(st, e), f) == Sent(st, f) + if e.Produce? && e.f == f then [Msg(st.next, e.chunks)] else []
    ensures Next(st, e).next == st.next + if e.Produce? then 1 else 0
  {
    if !e.Produce? {
      SentSame(st, e, f);
    }
  }

  lemma {:induction false} SentSame(st: State, e: Event, f: nat)
    requires Enabled(st, e) && !e.Produce?
    ensures Sent(Next(st, e), f) == Sent(st, f) && Next(st, e).next == st.next
  {
  }

  /** A file is sent exactly the messages that are produced for it, in that order. */
  lemma {:induction false} SentIsProduced(st: State, es: seq<Event>, f: nat)
    requires Feasible(st, es)
    ensures Sent(After(st, es), f) == Sent(st, f) + Produced(es, f, st.next)
    decreases |es|
  {
    hide Enabled, Next, Sent;
    if es == [] {
      assert Sent(st, f) + [] == Sent(st, f);
    } else {
      SentStep(st, es[0], f);
      SentIsProduced(Next(st, es[0]), es[1..], f);
      var one := if es[0].Produce? && es[0].f == f then [Msg(st.next, es[0].chunks)] else [];
      var rest := Produced(es[1..], f, Next(st, es[0]).next);
      assert Sent(st, f) + one + rest == Sent(st, f) + (one + rest);
      assert [] + rest == rest;
    }
  }

  /** In every interleaving, whatever was written to an open file is a prefix of the headers and chunks
      of the messages produced for it, each once and in order; all of it once the file is not queued. */
  lemma {:induction false} WrittenInOrder(iovMax: nat, es: seq<Event>, f: nat)
    requires iovMax > 0 && Feasible(Init(iovMax), es) && f < |After(Init(iovMax), es).files|
    ensures var x := After(Init(iovMax), es).files[f];
      x.open ==> x.out <= Pieces(Produced(es, f)) && (!x.queued ==> x.out == Pieces(Produced(es, f)))
  {
    hide Enabled, Next, Feasible, After, ListOk, InWork, WriterOk, Produced;
    InitSafe(iovMax);
    RunSafe(Init(iovMax), es);
    SentIsProduced(Init(iovMax), es, f);
    var st := After(Init(iovMax), es);
    var x, work := st.files[f], if Working(st.w, f) then InWork(st) else [];
    assert [] + Produced(es, f) == Produced(es, f);
    assert FileOk(x, f, st.w) && OutOk(x, work);
    assert x.out + work + Pieces(x.msgs) == x.out + (work + Pieces(x.msgs));
  }

  /** In every interleaving no message is freed twice, and none that an unwritten entry refers to. */
  lemma {:induction false} NoUseAfterFree(iovMax: nat, es: seq<Event>, id: nat)
    requires iovMax > 0 && Feasible(Init(iovMax), es)
    ensures var st := After(Init(iovMax), es);
      && Occ(st.freed, id) <= 1
      && forall a | 0 <= a < |st.iov| :: Occ(st.freed, st.iov[a].id) == 0
  {
    hide Enabled, Next, Feasible, After, TokenInv, OutInv, OccFiles, Occ;
    InitSafe(iovMax);
    RunSafe(Init(iovMax), es);
    var st := After(Init(iovMax), es);
    assert OnceInv(st, id);
    forall a | 0 <= a < |st.iov| ensures Occ(st.freed, st.iov[a].id) == 0 {
      EntryNotFreed(st, st.iov[a]);
    }
  }

  lemma {:induction false} EntryNotFreed(st: State, p: Piece)
    requires EntryOk(p, st) && OnceInv(st, p.id)
    ensures Occ(st.freed, p.id) == 0
  {
    hide OccFiles, Occ;
    if x :| x in st.free && x.id == p.id {
      OccMember(st.free, x);
    } else {
      OccMember(st.list, st.list[0]);
    }
  }

  /** The file's record is used by no step after it is freed, and is freed by at most one step. */
  lemma {:induction false} RecordFreedOnce(st: State, e: Event, f: nat)
    requires TokenInv(st) && Enabled(st, e) && f < |st.files| && st.files[f].freed
    ensures Next(st, e).files[f] == st.files[f] && !Working(st.w, f) && f !in st.queue && f !in st.promised
  {
    assert FileOk(st.files[f], f, st.w);
    if e.Enqueue? || e.Pick? {
      assert st.files[if e.Pick? then st.queue[0] else st.promised[e.a]].token != NoToken;
    }
  }

  /** In every interleaving a file is in the queue or in the writer's hands at most once, and is there
      (or promised to be) exactly when its flag is set; an open file with messages has it set; the
      record is freed exactly when the file is torn down and the flag is clear. */
  lemma {:induction false} QueuedOnce(iovMax: nat, es: seq<Event>, f: nat)
    requires iovMax > 0 && Feasible(Init(iovMax), es) && f < |After(Init(iovMax), es).files|
    ensures var st := After(Init(iovMax), es);
      var x := st.files[f];
      && Distinct(st.queue) && Distinct(st.promised)
      && (x.queued <==> f in st.promised || f in st.queue || Working(st.w, f))
      && !(f in st.queue && f in st.promised) && !(Working(st.w, f) && (f in st.queue || f in st.promised))
      && (x.open && x.msgs != [] ==> x.queued)
      && (x.freed <==> x.needFree && !x.queued)
  {
    hide Enabled, Next, Feasible, After, OutInv, EntryInv;
    InitSafe(iovMax);
    RunSafe(Init(iovMax), es);
    var st := After(Init(iovMax), es);
    assert FileOk(st.files[f], f, st.w);
  }

  lemma {:induction false} PieceOwner(ms: seq<Msg>, p: Piece)
    requires p in Pieces(ms)
    ensures Occ(ms, p.id) > 0
    decreases |ms|
  {
    if p !in MsgPieces(ms[0]) {
      PieceOwner(ms[1..], p);
    }
  }

  lemma {:induction false} PieceOf(ms: seq<Msg>, m: Msg, j: nat)
    requires m in ms && j <= m.chunks
    ensures Piece(m.id, j) in Pieces(ms)
    decreases |ms|
  {
    if ms[0] == m {
      assert MsgPieces(m)[j] == Piece(m.id, j);
      assert Pieces(ms)[j] == Piece(m.id, j);
    } else {
      hide MsgPieces;
      PieceOf(ms[1..], m, j);
      var k: nat :| k < |Pieces(ms[1..])| && Pieces(ms[1..])[k] == Piece(m.id, j);
      assert Pieces(ms)[|MsgPieces(ms[0])| + k] == Piece(m.id, j);
    }
  }

  lemma {:induction false} WorkOwner(st: State, p: Piece)
    requires EntryInv(st) && p in InWork(st)
    ensures Occ(st.free, p.id) + Occ(st.list, p.id) > 0
  {
    hide Pieces, Occ;
    if p in st.iov {
      var a: nat :| a < |st.iov| && st.iov[a] == p;
      assert EntryOk(st.iov[a], st);
      if x :| x in st.free && x.id == p.id {
        OccMember(st.free, x);
      } else {
        OccMember(st.list, st.list[0]);
      }
    } else {
      assert p in From(Pieces(st.list), st.w.j);
      PieceOwner(st.list, p);
    }
  }

  lemma {:induction false} FileOwner(files: seq<File>, f: nat, id: nat)
    requires f < |files|
    ensures OccFiles(files, id) >= Occ(files[f].msgs, id)
    decreases |files|
  {
    hide Occ;
    if f < |files| - 1 {
      FileOwner(files[..|files| - 1], f, id);
    }
  }

  lemma {:induction false} FreedWasWritten(st: State, f: nat, m: Msg, j: nat)
    requires Inv(st) && f < |st.files| && m in st.files[f].sent && j <= m.chunks
    requires Occ(st.freed, m.id) > 0 && (st.files[f].open || !st.files[f].freed)
    ensures Piece(m.id, j) in st.files[f].out
  {
    hide TokenInv, EntryInv, WriterOk, Pieces, Occ, OccFiles, InWork;
    var x, p := st.files[f], Piece(m.id, j);
    var work := if Working(st.w, f) then InWork(st) else [];
    assert OutOk(x, work) && OnceInv(st, m.id);
    PieceOf(x.sent, m, j);
    if p in work {
      WorkOwner(st, p);
      assert false;
    }
    if p in Pieces(x.msgs) {
      PieceOwner(x.msgs, p);
      FileOwner(st.files, f, m.id);
      assert false;
    }
  }

  /** In every interleaving a message that is freed has been written completely, header and all the chunks it was
      produced with, unless its file was never opened. */
  lemma {:induction false} FreedIsWritten(iovMax: nat, es: seq<Event>, f: nat, m: Msg, j: nat)
    requires iovMax > 0 && Feasible(Init(iovMax), es) && f < |After(Init(iovMax), es).files|
    requires m in Produced(es, f) && j <= m.chunks && Occ(After(Init(iovMax), es).freed, m.id) > 0
    ensures var x := After(Init(iovMax), es).files[f]; x.open || !x.freed ==> Piece(m.id, j) in x.out
  {
    hide Enabled, Next, Feasible, After, Inv, Occ, Produced;
    InitSafe(iovMax);
    RunSafe(Init(iovMax), es);
    SentIsProduced(Init(iovMax), es, f);
    var st := After(Init(iovMax), es);
    assert [] + Produced(es, f) == Produced(es, f);
    if st.files[f].open || !st.files[f].freed {
      FreedWasWritten(st, f, m, j);
    }
  }

  /** Messages are not kept longer than needed: at most one more than there are unwritten entries. */
  ghost predicate FewKept(st: State) {
    |st.free| + (if st.w.Filling? && st.w.j > 0 then 1 else 0) <= |st.iov| + 1 && (st.w.Idle? ==> st.iov == [])
  }

  lemma {:induction false} FewKeptStep(st: State, e: Event)
    requires Enabled(st, e) && FewKept(st)
    ensures FewKept(Next(st, e))
  {
  }

  /** In every interleaving an idle writer keeps at most one message from being freed. */
  lemma {:induction false} IdleKeepsOne(st: State, es: seq<Event>)
    requires FewKept(st) && Feasible(st, es)
    ensures FewKept(After(st, es)) && (After(st, es).w.Idle? ==> |After(st, es).free| <= 1)
    decreases |es|
  {
    hide Enabled, Next;
    if es != [] {
      FewKeptStep(st, es[0]);
      IdleKeepsOne(Next(st, es[0]), es[1..]);
    }
  }

  // ----- The writer gets through ---------------------------------------------------------------

  /** Steps of the writer, and of producers that have set the flag of a file. */
  predicate OfWriter(e: Event) {
    e.Enqueue? || e.Pick? || e.Check? || e.Enter? || e.Move?
  }

  /** Nothing is queued, in hand or about to be queued. */
  predicate Drained(st: State) {
    st.w.Idle? && st.queue == [] && st.promised == []
  }

  function Cost(ms: seq<Msg>, each: nat): nat {
    if ms == [] then 0 else ms[0].chunks + each + Cost(ms[1..], each)
  }

  function FilesCost(files: seq<File>): nat {
    if files == [] then 0 else FilesCost(files[..|files| - 1]) + Cost(files[|files| - 1].msgs, 5)
  }

  /** An upper bound on the steps until everything is drained. */
  function ToDo(st: State): int {
    4 * |st.promised| + 3 * |st.queue| + FilesCost(st.files)
    + match st.w
      case Idle => 0
      case Picked(_) => 2
      case Filling(_, j) => 3 + Cost(st.list, 2) - j
  }

  lemma {:induction false} CostUpdate(files: seq<File>, f: nat, x: File)
    requires f < |files|
    ensures FilesCost(files[f := x]) + Cost(files[f].msgs, 5) == FilesCost(files) + Cost(x.msgs, 5)
    decreases |files|
  {
    hide Cost;
    var n := |files| - 1;
    var files' := files[f := x];
    if f == n {
      assert files'[..n] == files[..n];
    } else {
      assert files'[..n] == files[..n][f := x];
      CostUpdate(files[..n], f, x);
    }
  }

  /** Messages taken over from the file cost less than they did there. */
  lemma {:induction false} CostLess(ms: seq<Msg>)
    ensures Cost(ms, 2) + 3 * |ms| == Cost(ms, 5)
    decreases |ms|
  {
    if ms != [] {
      CostLess(ms[1..]);
    }
  }

  lemma {:induction false} ToDoSome(st: State)
    requires WriterOk(st)
    ensures ToDo(st) >= 0
  {
  }

  lemma {:induction false} ToDoCheck(st: State)
    requires WriterOk(st) && Enabled(st, Check)
    ensures ToDo(Next(st, Check)) < ToDo(st)
  {
    hide Cost, FilesCost;
    var st', f := Next(st, Check), st.w.f;
    assert st'.files == st.files[f := st'.files[f]];
    CostUpdate(st.files, f, st'.files[f]);
    CostLess(st.files[f].msgs);
    CostNone(5);
  }

  lemma {:induction false} CostNone(each: nat)
    ensures Cost([], each) == 0
  {
  }

  /** Each such step brings the end nearer. */
  lemma {:induction false} ToDoLess(st: State, e: Event)
    requires WriterOk(st) && Enabled(st, e) && OfWriter(e)
    ensures ToDo(Next(st, e)) < ToDo(st)
  {
    match e
    case Check => ToDoCheck(st);
    case Enqueue(a) =>
      hide Cost, FilesCost;
      CostUpdate(st.files, st.promised[a], Next(st, e).files[st.promised[a]]);
    case Pick =>
      hide Cost, FilesCost;
      CostUpdate(st.files, st.queue[0], Next(st, e).files[st.queue[0]]);
    case Enter =>
      hide Cost, FilesCost;
      var st' := Next(st, e);
      assert st'.files == st.files[st.w.f := st'.files[st.w.f]];
      CostUpdate(st.files, st.w.f, st'.files[st.w.f]);
    case _ =>
  }

  lemma {:induction false} Places(st: State)
    requires Inv(st)
    ensures st.queue != [] ==> st.queue[0] < |st.files|
    ensures st.promised != [] ==> st.promised[0] < |st.files|
    ensures !st.w.Idle? ==> st.w.f < |st.files|
  {
    hide OutInv, EntryInv, OnceInv, FileOk, Distinct;
  }

  /** The step the writer makes next. */
  function Due(st: State): Event {
    match st.w
    case Picked(_) => Check
    case Filling(_, j) => if st.list == [] || j > st.list[0].chunks then Move else Enter
    case Idle => if st.queue != [] then Pick else Enqueue(0)
  }

  /** As long as something is queued or in hand one of these steps is possible. */
  lemma {:induction false} WriterReady(st: State)
    requires Inv(st) && !Drained(st)
    ensures OfWriter(Due(st)) && Enabled(st, Due(st))
  {
    hide Inv;
    Places(st);
  }

  /** However the writer's steps are scheduled, there are at most `ToDo` of them without new messages, and when
      none is left every open file has received all that was produced for it. */
  lemma {:induction false} WriterDrains(st: State, es: seq<Event>)
    requires Inv(st) && Feasible(st, es) && forall e | e in es :: OfWriter(e)
    ensures Inv(After(st, es)) && |es| + ToDo(After(st, es)) <= ToDo(st) && ToDo(After(st, es)) >= 0
    ensures Drained(After(st, es)) <==> forall e | OfWriter(e) :: !Enabled(After(st, es), e)
    ensures Drained(After(st, es)) ==> forall x | x in After(st, es).files && x.open :: x.out == Pieces(x.sent)
    decreases |es|
  {
    hide Inv, Next, Pieces, FilesCost, Cost;
    if es == [] {
      WriterOf(st);
      ToDoSome(st);
      AllWritten(st);
    } else {
      assert es[0] in es;
      WriterOf(st);
      ToDoLess(st, es[0]);
      StepSafe(st, es[0]);
      WriterDrains(Next(st, es[0]), es[1..]);
    }
  }

  lemma {:induction false} WriterOf(st: State)
    requires Inv(st)
    ensures WriterOk(st)
  {
  }

  lemma {:induction false} AllWritten(st: State)
    requires Inv(st)
    ensures Drained(st) <==> forall e | OfWriter(e) :: !Enabled(st, e)
    ensures Drained(st) ==> forall x | x in st.files && x.open :: x.out == Pieces(x.sent)
  {
    hide EntryInv, OnceInv, Pieces;
    if !Drained(st) {
      WriterReady(st);
    } else {
      forall x | x in st.files && x.open ensures x.out == Pieces(x.sent) {
        var f: nat :| f < |st.files| && st.files[f] == x;
        assert FileOk(x, f, st.w) && OutOk(x, []);
        PiecesNone();
        assert x.out + [] + [] == x.out;
      }
    }
  }
}
