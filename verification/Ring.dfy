// The producer and the consumer of apps/threadtest.c over the mutex and the
// condition variables of libc/pthread.c, one atomic instruction at a time, for
// any ring capacity and any number of messages.
//
// Nothing is assumed of the primitives but the futex: the lock is its
// three-state word, a condition variable is its sequence number, which is a
// 32-bit word that wraps, and its count of waiters. A futex wait compares and
// parks in one step; a park also ends by itself after a bounded time.
module Ring {

  const WORD: nat := 0x1_0000_0000

  // RING and MESSAGES.
  datatype Config = Config(cap: nat, messages: nat)

  predicate ValidConfig(cfg: Config) {
    1 <= cfg.cap < WORD
  }

  datatype Side = Producer | Consumer

  function Other(d: Side): Side {
    if d == Producer then Consumer else Producer
  }

  datatype Pc =
    | Loop      // the for test
    // pthread_mutex_lock
    | Cas       // compare-and-exchange 0 -> 1
    | Xchg      // exchange with 2
    | MWait     // futex wait on the lock word, expecting 2
    | MPark     // asleep on the lock word
    | Test      // while (ring_count == ...), lock held
    // pthread_cond_wait
    | ReadSeq   // seen = seq
    | IncW      // waiters += 1
    | CwUnlock  // exchange the lock word with 0
    | CwWake    // wake a sleeper on the lock
    | CwTest    // while (seq == seen)
    | CwFutex   // futex wait on seq, expecting seen
    | CwPark    // asleep on seq
    | DecW      // waiters -= 1, then lock again
    // the body
    | Move      // ring[ring_tail] = i, or v = ring[ring_head]
    | Advance   // ring_tail or ring_head steps on
    | Bump      // ring_count moves by one
    | Add       // consumer: consumed_sum += v
    // pthread_cond_signal
    | SigInc    // seq += 1
    | SigLoad   // if (waiters)
    | SigWake   // futex wake, everybody
    // pthread_mutex_unlock
    | Unlock    // exchange the lock word with 0
    | UWake     // wake a sleeper on the lock
    | Done

  // i is the number of iterations completed; the producer's C variable is one
  // more. seen is the snapshot of seq inside pthread_cond_wait, v the
  // consumer's local.
  datatype Thread = Thread(pc: Pc, i: nat, seen: nat, v: int)

  datatype Cond = Cond(seqno: nat, waiters: int)

  // taken records the values consumed, in order; the program keeps their sum.
  datatype State = State(
    word: nat, ring: seq<int>, count: int, head: nat, tail: nat, sum: int, taken: seq<int>,
    ready: Cond, space: Cond, prod: Thread, cons: Thread)

  datatype Label = Run(side: Side) | Expire(side: Side)

  function Th(s: State, d: Side): Thread {
    if d == Producer then s.prod else s.cons
  }

  // The condition variable a side waits on.
  function CondOf(s: State, d: Side): Cond {
    if d == Producer then s.space else s.ready
  }

  // What a side can still do without the other: free slots for the producer,
  // messages for the consumer. It waits while this is zero.
  function Room(cfg: Config, s: State, d: Side): int {
    if d == Producer then cfg.cap - s.count else s.count
  }

  function Init(cfg: Config): State {
    var th := Thread(Loop, 0, 0, 0);
    State(0, seq(cfg.cap, _ => 0), 0, 0, 0, 0, [], Cond(0, 0), Cond(0, 0), th, th)
  }

  predicate Enabled(s: State, l: Label) {
    var pc := Th(s, l.side).pc;
    if l.Run? then pc != MPark && pc != CwPark && pc != Done else pc == MPark || pc == CwPark
  }

  // The indices the code uses are inside the array.
  predicate Shape(cfg: Config, s: State) {
    ValidConfig(cfg) && |s.ring| == cfg.cap && s.head < cfg.cap && s.tail < cfg.cap
  }

  // The index arithmetic of the ring.
  function Slot(x: nat, n: nat): (r: nat)
    requires n > 0
    ensures r < n
  {
    x % n
  }

  function NextRound(th: Thread): Thread {
    th.(pc := Loop, i := th.i + 1)
  }

  // What one step makes of the thread that takes it.
  function Mine(cfg: Config, s: State, d: Side): Thread
    requires Shape(cfg, s)
  {
    var th := Th(s, d);
    match th.pc
    case Loop => th.(pc := if th.i < cfg.messages then Cas else Done)
    case Cas => th.(pc := if s.word == 0 then Test else Xchg)
    case Xchg => th.(pc := if s.word == 0 then Test else MWait)
    case MWait => th.(pc := if s.word == 2 then MPark else Xchg)
    case MPark => th.(pc := Xchg)
    case Test => th.(pc := if Room(cfg, s, d) == 0 then ReadSeq else Move)
    case ReadSeq => th.(pc := IncW, seen := CondOf(s, d).seqno)
    case IncW => th.(pc := CwUnlock)
    case CwUnlock => th.(pc := if s.word == 2 then CwWake else CwTest)
    case CwWake => th.(pc := CwTest)
    case CwTest => th.(pc := if CondOf(s, d).seqno == th.seen then CwFutex else DecW)
    case CwFutex => th.(pc := if CondOf(s, d).seqno == th.seen then CwPark else CwTest)
    case CwPark => th.(pc := CwTest)
    case DecW => th.(pc := Cas)
    case Move => if d == Producer then th.(pc := Advance) else th.(pc := Advance, v := s.ring[s.head])
    case Advance => th.(pc := Bump)
    case Bump => th.(pc := if d == Producer then SigInc else Add)
    case Add => th.(pc := SigInc)
    case SigInc => th.(pc := SigLoad)
    case SigLoad => th.(pc := if CondOf(s, Other(d)).waiters != 0 then SigWake else Unlock)
    case SigWake => th.(pc := Unlock)
    case Unlock => if s.word == 2 then th.(pc := UWake) else NextRound(th)
    case UWake => NextRound(th)
    case Done => th
  }

  // What a step of one side makes of the other: a wake releases it from the
  // channel it sleeps on.
  function Theirs(pc: Pc, other: Thread): Thread {
    if (pc == CwWake || pc == UWake) && other.pc == MPark then other.(pc := Xchg)
    else if pc == SigWake && other.pc == CwPark then other.(pc := CwTest)
    else other
  }

  function NewWord(pc: Pc, word: nat): nat {
    match pc
    case Cas => if word == 0 then 1 else word
    case Xchg => 2
    case CwUnlock => 0
    case Unlock => 0
    case _ => word
  }

  // The condition variable of side e after a step of side d at pc.
  function NewCond(c: Cond, pc: Pc, d: Side, e: Side): Cond {
    if d == e && pc == IncW then c.(waiters := c.waiters + 1)
    else if d == e && pc == DecW then c.(waiters := c.waiters - 1)
    else if d != e && pc == SigInc then c.(seqno := (c.seqno + 1) % WORD)
    else c
  }

  function Step(cfg: Config, s: State, l: Label): (s': State)
    requires Shape(cfg, s) && Enabled(s, l)
    ensures Shape(cfg, s')
  {
    var d := l.side;
    var th := Th(s, d);
    var put := d == Producer;
    var pc := th.pc;
    State(
      NewWord(pc, s.word),
      if pc == Move && put then s.ring[s.tail := th.i + 1] else s.ring,
      if pc == Bump then (if put then s.count + 1 else s.count - 1) else s.count,
      if pc == Advance && !put then Slot(s.head + 1, cfg.cap) else s.head,
      if pc == Advance && put then Slot(s.tail + 1, cfg.cap) else s.tail,
      if pc == Add then s.sum + th.v else s.sum,
      if pc == Add then s.taken + [th.v] else s.taken,
      NewCond(s.ready, pc, d, Consumer),
      NewCond(s.space, pc, d, Producer),
      if put then Mine(cfg, s, d) else Theirs(pc, s.prod),
      if put then Theirs(pc, s.cons) else Mine(cfg, s, d))
  }

  predicate IsRun(cfg: Config, s: State, run: seq<Label>)
    requires Shape(cfg, s)
    decreases run
  {
    run == [] || (Enabled(s, run[0]) && IsRun(cfg, Step(cfg, s, run[0]), run[1..]))
  }

  function After(cfg: Config, s: State, run: seq<Label>): State
    requires Shape(cfg, s) && IsRun(cfg, s, run)
    decreases run
  {
    if run == [] then s else After(cfg, Step(cfg, s, run[0]), run[1..])
  }

  predicate BothDone(s: State) {
    s.prod.pc == Done && s.cons.pc == Done
  }

  // ---- the lock ----

  // Between taking the lock and giving it back.
  predicate Owns(th: Thread) {
    match th.pc
    case Test => true
    case ReadSeq => true
    case IncW => true
    case CwUnlock => true
    case Move => true
    case Advance => true
    case Bump => true
    case Add => true
    case SigInc => true
    case SigLoad => true
    case SigWake => true
    case Unlock => true
    case _ => false
  }

  predicate WillWakeLock(th: Thread) {
    th.pc == CwWake || th.pc == UWake
  }

  // Mutual exclusion, and no wakeup on the lock is lost: a sleeper is
  // announced in the word or about to be woken.
  predicate LockOk(s: State) {
    && s.word <= 2
    && !(Owns(s.prod) && Owns(s.cons))
    && (s.word != 0 <==> Owns(s.prod) || Owns(s.cons))
    && (s.prod.pc == MPark ==> s.word == 2 || WillWakeLock(s.cons))
    && (s.cons.pc == MPark ==> s.word == 2 || WillWakeLock(s.prod))
  }

  // ---- the condition variables ----

  // Counted in `waiters`.
  predicate Counted(th: Thread) {
    match th.pc
    case CwUnlock => true
    case CwWake => true
    case CwTest => true
    case CwFutex => true
    case CwPark => true
    case DecW => true
    case _ => false
  }

  // Holding a snapshot of seq that the wait depends on.
  predicate Snapshotted(th: Thread) {
    th.pc == IncW || (Counted(th) && th.pc != DecW)
  }

  // Past ring_count, not yet past the signal that announces it.
  function Unannounced(th: Thread): int {
    if th.pc == Add || th.pc == SigInc then 1 else 0
  }

  // Signals between a snapshot and now, as far as 32 bits can tell.
  function Signals(seqno: nat, seen: nat): int {
    (seqno - seen) % WORD
  }

  // The words of a condition variable, and who is counted in it.
  predicate CondOk(s: State, d: Side) {
    var th, c := Th(s, d), CondOf(s, d);
    c.seqno < WORD && th.seen < WORD && c.waiters == (if Counted(th) then 1 else 0)
  }

  // One side's waiting, given the other: the room it has is the signals it has
  // been sent since its snapshot, plus one if the next is on its way; and it
  // never sleeps on a signal unless the wake is on its way too.
  predicate RoomOk(room: int, c: Cond, th: Thread, other: Thread) {
    && room >= 0
    && (th.pc == ReadSeq ==> room == 0)
    && (Snapshotted(th) ==> room == Signals(c.seqno, th.seen) + Unannounced(other))
    && (th.pc == DecW || th.pc == Move || th.pc == Advance || th.pc == Bump ==> room > 0)
    && (th.pc == CwPark && c.seqno != th.seen ==> other.pc == SigLoad || other.pc == SigWake)
  }

  predicate WaitOk(cfg: Config, s: State, d: Side) {
    CondOk(s, d) && RoomOk(Room(cfg, s, d), CondOf(s, d), Th(s, d), Th(s, Other(d)))
  }

  lemma SignalsZero(seqno: nat, seen: nat)
    requires seqno < WORD && seen < WORD
    ensures 0 <= Signals(seqno, seen) < WORD
    ensures Signals(seqno, seen) == 0 <==> seqno == seen
  {
  }

  // A signal is seen as one more, as long as there were fewer than 2^32.
  lemma SignalsNext(seqno: nat, seen: nat)
    requires seqno < WORD && seen < WORD && Signals(seqno, seen) + 1 < WORD
    ensures Signals((seqno + 1) % WORD, seen) == Signals(seqno, seen) + 1
  {
    var n := seqno - seen;
    assert ((seqno + 1) % WORD - seen) % WORD == (n + 1) % WORD;
  }

  // A step in terms of the side that takes it and the other one.
  lemma StepSides(cfg: Config, s: State, l: Label)
    requires Shape(cfg, s) && Enabled(s, l)
    ensures var s' := Step(cfg, s, l);
            var d, e := l.side, Other(l.side);
            var pc := Th(s, d).pc;
            && Th(s', d) == Mine(cfg, s, d)
            && Th(s', e) == Theirs(pc, Th(s, e))
            && CondOf(s', d) == NewCond(CondOf(s, d), pc, d, d)
            && CondOf(s', e) == NewCond(CondOf(s, e), pc, d, e)
            && s'.word == NewWord(pc, s.word)
            && Room(cfg, s', d) == Room(cfg, s, d) - (if pc == Bump then 1 else 0)
            && Room(cfg, s', e) == Room(cfg, s, e) + (if pc == Bump then 1 else 0)
  {
    hide Mine, Theirs, NewCond, NewWord;
  }

  // The lock, seen from one side.
  predicate LockSide(s: State, d: Side) {
    var me, other := Th(s, d), Th(s, Other(d));
    && s.word <= 2
    && !(Owns(me) && Owns(other))
    && (s.word != 0 <==> Owns(me) || Owns(other))
    && (me.pc == MPark ==> s.word == 2 || WillWakeLock(other))
    && (other.pc == MPark ==> s.word == 2 || WillWakeLock(me))
  }

  // How a step moves its own side through the lock.
  lemma MineLocks(cfg: Config, s: State, d: Side)
    requires Shape(cfg, s)
    ensures var th, th' := Th(s, d), Mine(cfg, s, d);
            && (Owns(th') <==> if th.pc == Cas || th.pc == Xchg then s.word == 0
                               else Owns(th) && th.pc != CwUnlock && th.pc != Unlock)
            && (th'.pc == MPark ==> th.pc == MWait && s.word == 2)
            && ((th.pc == CwUnlock || th.pc == Unlock) && s.word == 2 ==> WillWakeLock(th'))
  {
    hide Room, CondOf;
  }

  lemma TheirsLocks(pc: Pc, other: Thread)
    ensures var th := Theirs(pc, other);
            && Owns(th) == Owns(other) && WillWakeLock(th) == WillWakeLock(other)
            && (th.pc == MPark <==> other.pc == MPark && pc != CwWake && pc != UWake)
  {
  }

  lemma StepLockOk(cfg: Config, s: State, l: Label)
    requires Shape(cfg, s) && LockOk(s) && Enabled(s, l)
    ensures LockOk(Step(cfg, s, l))
  {
    hide Step, Room, CondOf, NewCond, Mine, Theirs, Owns;
    var th := Th(s, l.side);
    assert LockSide(s, l.side);
    StepSides(cfg, s, l);
    MineLocks(cfg, s, l.side);
    TheirsLocks(th.pc, Th(s, Other(l.side)));
    OwnersAt(th);
    assert LockSide(Step(cfg, s, l), l.side);
  }

  lemma OwnersAt(th: Thread)
    ensures th.pc == CwUnlock || th.pc == Unlock ==> Owns(th)
    ensures th.pc == Cas || th.pc == Xchg || th.pc == MWait || th.pc == MPark || WillWakeLock(th) ==> !Owns(th)
  {
  }

  // What a step does to the announcements a waiting partner depends on.
  lemma MineAnnounces(cfg: Config, s: State, d: Side)
    requires Shape(cfg, s)
    ensures var pc, th := Th(s, d).pc, Mine(cfg, s, d);
            && Unannounced(th) == (if pc == Bump || pc == Add then 1 else 0)
            && (pc == SigInc ==> th.pc == SigLoad)
            && (pc == SigLoad && CondOf(s, Other(d)).waiters != 0 ==> th.pc == SigWake)
  {
    hide Room, CondOf;
  }

  lemma TheirsAnnounces(pc: Pc, other: Thread)
    ensures var th := Theirs(pc, other);
            && Unannounced(th) == Unannounced(other)
            && (th.pc == SigLoad <==> other.pc == SigLoad)
            && (th.pc == SigWake <==> other.pc == SigWake)
  {
  }

  // A wake moves a thread only inside one of its two sleep loops.
  lemma TheirsWaits(pc: Pc, other: Thread)
    ensures var th := Theirs(pc, other);
            && th.seen == other.seen && th.i == other.i && th.v == other.v
            && Counted(th) == Counted(other) && Snapshotted(th) == Snapshotted(other) && Owns(th) == Owns(other)
            && (th.pc == other.pc || (other.pc == MPark && th.pc == Xchg) || (other.pc == CwPark && th.pc == CwTest))
            && (pc == SigWake ==> th.pc != CwPark)
  {
  }

  // How a step moves its own side through pthread_cond_wait.
  predicate WaitStep(room: int, c: Cond, th: Thread, th': Thread) {
    && (Counted(th') <==> (Counted(th) && th.pc != DecW) || th.pc == IncW)
    && th'.seen == (if th.pc == ReadSeq then c.seqno else th.seen)
    && (Snapshotted(th') ==> Snapshotted(th) || th.pc == ReadSeq)
    && (th'.pc == ReadSeq ==> th.pc == Test && room == 0)
    && (th'.pc == CwPark ==> th.pc == CwFutex && c.seqno == th.seen)
    && (th'.pc == DecW ==> th.pc == CwTest && c.seqno != th.seen)
    && (th'.pc == Move ==> th.pc == Test && room != 0)
    && (th'.pc == Advance ==> th.pc == Move) && (th'.pc == Bump ==> th.pc == Advance)
  }

  lemma MineWaits(cfg: Config, s: State, d: Side)
    requires Shape(cfg, s)
    ensures WaitStep(Room(cfg, s, d), CondOf(s, d), Th(s, d), Mine(cfg, s, d))
  {
    hide Room, CondOf;
  }

  lemma CountedAt(th: Thread)
    ensures th.pc == IncW || th.pc == ReadSeq ==> !Counted(th)
    ensures th.pc == ReadSeq || th.pc == DecW ==> !Snapshotted(th)
    ensures th.pc == DecW ==> Counted(th)
    ensures th.pc == CwTest ==> Snapshotted(th)
    ensures th.pc == Bump || th.pc == SigInc ==> !Snapshotted(th) && !Counted(th)
  {
  }

  lemma StepCondOk(cfg: Config, s: State, l: Label, e: Side)
    requires Shape(cfg, s) && CondOk(s, l.side) && CondOk(s, Other(l.side)) && Enabled(s, l)
    ensures CondOk(Step(cfg, s, l), e)
  {
    hide Step, Mine, Theirs, Room, CondOf, Counted, Snapshotted;
    StepSides(cfg, s, l);
    MineWaits(cfg, s, l.side);
    CountedAt(Th(s, l.side));
    TheirsWaits(Th(s, l.side).pc, Th(s, Other(l.side)));
  }

  // A side's own room under its own step.
  lemma RoomMine(room: int, c: Cond, th: Thread, other: Thread, c': Cond, th': Thread, other': Thread)
    requires RoomOk(room, c, th, other) && c.seqno < WORD && th.seen < WORD
    requires WaitStep(room, c, th, th') && c'.seqno == c.seqno
    requires Owns(th) ==> !Owns(other)
    requires Unannounced(other') == Unannounced(other)
    ensures RoomOk(room - (if th.pc == Bump then 1 else 0), c', th', other')
  {
    hide Signals, Counted, Snapshotted;
    CountedAt(th);
    CountedAt(th');
    SignalsZero(c.seqno, th.seen);
    SignalsZero(c.seqno, c.seqno);
  }

  lemma StepWaitMine(cfg: Config, s: State, l: Label)
    requires Shape(cfg, s) && LockOk(s) && WaitOk(cfg, s, l.side) && CondOk(s, Other(l.side)) && Enabled(s, l)
    ensures WaitOk(cfg, Step(cfg, s, l), l.side)
  {
    hide Step, Room, Mine, Theirs, CondOf, NewWord, Counted, Snapshotted, RoomOk, WaitStep, Owns, Unannounced;
    var d, e := l.side, Other(l.side);
    var th, other := Th(s, d), Th(s, e);
    var s' := Step(cfg, s, l);
    assert LockSide(s, d);
    StepCondOk(cfg, s, l, d);
    StepSides(cfg, s, l);
    MineWaits(cfg, s, d);
    TheirsAnnounces(th.pc, other);
    RoomMine(Room(cfg, s, d), CondOf(s, d), th, other, CondOf(s', d), Th(s', d), Th(s', e));
  }

  // The partner's room under a step: it grows with the count, and the signal
  // that announces it follows before the lock is released.
  lemma RoomTheirs(room: int, c: Cond, th: Thread, other: Thread, th': Thread)
    requires RoomOk(room, c, other, th) && c.seqno < WORD && other.seen < WORD && room < WORD
    requires Unannounced(th') == (if th.pc == Bump || th.pc == Add then 1 else 0)
    requires th.pc == SigInc ==> th'.pc == SigLoad
    requires th.pc == SigLoad && Counted(other) ==> th'.pc == SigWake
    requires Owns(other) ==> !Owns(th)
    ensures RoomOk(room + (if th.pc == Bump then 1 else 0),
                   if th.pc == SigInc then c.(seqno := (c.seqno + 1) % WORD) else c,
                   Theirs(th.pc, other), th')
  {
    hide Signals, Theirs;
    TheirsWaits(th.pc, other);
    SignalsZero(c.seqno, other.seen);
    if th.pc == SigInc && Snapshotted(other) {
      SignalsNext(c.seqno, other.seen);
    }
  }

  lemma StepWaitTheirs(cfg: Config, s: State, l: Label)
    requires Shape(cfg, s) && LockOk(s) && WaitOk(cfg, s, l.side) && WaitOk(cfg, s, Other(l.side)) && Enabled(s, l)
    ensures WaitOk(cfg, Step(cfg, s, l), Other(l.side))
  {
    hide Step, Mine, Theirs, CondOf, Room, NewWord, NewCond, Counted, RoomOk, Owns, Unannounced, LockOk, CondOk;
    var d, e := l.side, Other(l.side);
    var th, other, c := Th(s, d), Th(s, e), CondOf(s, e);
    var s' := Step(cfg, s, l);
    StepCondOk(cfg, s, l, e);
    StepSides(cfg, s, l);
    MineAnnounces(cfg, s, d);
    TheirsFacts(cfg, s, d);
    RoomTheirs(Room(cfg, s, e), c, th, other, Mine(cfg, s, d));
    SignalledCond(c, th.pc, d, e);
    assert RoomOk(Room(cfg, s', e), CondOf(s', e), Th(s', e), Th(s', d));
  }

  // What a side may rely on about its partner at any time.
  lemma TheirsFacts(cfg: Config, s: State, d: Side)
    requires Shape(cfg, s) && LockOk(s) && WaitOk(cfg, s, d) && WaitOk(cfg, s, Other(d))
    ensures var e := Other(d);
            && CondOf(s, e).seqno < WORD && Th(s, e).seen < WORD && Room(cfg, s, e) < WORD
            && (Counted(Th(s, e)) ==> CondOf(s, e).waiters != 0)
            && (Owns(Th(s, e)) ==> !Owns(Th(s, d)))
  {
    hide Counted, Owns;
  }

  lemma SignalledCond(c: Cond, pc: Pc, d: Side, e: Side)
    requires e == Other(d)
    ensures NewCond(c, pc, d, e) == if pc == SigInc then c.(seqno := (c.seqno + 1) % WORD) else c
  {
  }
}
