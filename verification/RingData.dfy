// What crosses the ring: counts, indices, slots and the values consumed, as
// invariants of every step of module Ring.
module RingData {
  import opened Ring

  // Messages a side has moved: produced by the producer, consumed by the
  // consumer.
  function Moved(th: Thread): nat {
    th.i +
    (match th.pc
     case Add => 1
     case SigInc => 1
     case SigLoad => 1
     case SigWake => 1
     case Unlock => 1
     case UWake => 1
     case _ => 0)
  }

  // The index has stepped on, the count has not moved yet.
  function Early(th: Thread): nat {
    if th.pc == Bump then 1 else 0
  }

  // The values 1..n in order.
  function Upto(n: nat): seq<int> {
    seq(n, k => k + 1)
  }

  // Twice the sum of 1..n.
  function Oblong(n: int): int {
    n * (n + 1)
  }

  // Values added to the sum so far.
  function Added(th: Thread): int {
    Moved(th) - (if th.pc == Add then 1 else 0)
  }

  predicate LoopOk(cfg: Config, th: Thread) {
    && th.i <= cfg.messages
    && (th.pc == Done ==> th.i == cfg.messages)
    && (th.pc != Loop && th.pc != Done ==> th.i < cfg.messages)
  }

  predicate CountsOk(cfg: Config, s: State)
    requires Shape(cfg, s)
  {
    && LoopOk(cfg, s.prod) && LoopOk(cfg, s.cons) && s.prod.pc != Add
    && s.count == Moved(s.prod) - Moved(s.cons)
    && s.tail == Slot(Moved(s.prod) + Early(s.prod), cfg.cap)
    && s.head == Slot(Moved(s.cons) + Early(s.cons), cfg.cap)
  }

  // Messages k+1..p sit in their slots.
  predicate Holds(ring: seq<int>, cap: nat, k: nat, p: nat)
    requires cap > 0 && |ring| == cap
  {
    forall j: nat :: k <= j < p ==> ring[Slot(j, cap)] == j + 1
  }

  // The slots, as far as the two counts and the producer's place tell.
  predicate SlotsAt(ring: seq<int>, cap: nat, k: nat, p: nat, pc: Pc)
    requires cap > 0 && |ring| == cap
  {
    Holds(ring, cap, k, p) && (pc == Advance || pc == Bump ==> ring[Slot(p, cap)] == p + 1)
  }

  // Every message between the two counts sits in its slot.
  predicate SlotsOk(cfg: Config, s: State)
    requires Shape(cfg, s)
  {
    SlotsAt(s.ring, cfg.cap, Moved(s.cons), Moved(s.prod), s.prod.pc)
  }

  predicate TakenOk(s: State) {
    && (s.cons.pc == Advance || s.cons.pc == Bump ==> s.cons.v == Moved(s.cons) + 1)
    && (s.cons.pc == Add ==> s.cons.v == Moved(s.cons))
    && Added(s.cons) >= 0
    && s.taken == Upto(Added(s.cons))
    && 2 * s.sum == Oblong(Added(s.cons))
  }

  predicate Inv(cfg: Config, s: State) {
    && Shape(cfg, s) && LockOk(s) && WaitOk(cfg, s, Producer) && WaitOk(cfg, s, Consumer)
    && CountsOk(cfg, s) && SlotsOk(cfg, s) && TakenOk(s)
  }

  lemma InitSync(cfg: Config, d: Side)
    requires ValidConfig(cfg)
    ensures LockOk(Init(cfg)) && WaitOk(cfg, Init(cfg), d)
  {
    hide Signals;
  }

  lemma InitInv(cfg: Config)
    requires ValidConfig(cfg)
    ensures Inv(cfg, Init(cfg))
  {
    hide LockOk, WaitOk;
    InitSync(cfg, Producer);
    InitSync(cfg, Consumer);
    assert Slot(0, cfg.cap) == 0;
  }

  // ---- arithmetic of a circular index ----

  lemma ModUnique(x: int, q: int, r: int, n: nat)
    requires n > 0 && x == n * q + r && 0 <= r < n
    ensures x % n == r
  {
    var d := x / n - q;
    assert n * d == r - x % n;
    assert d == 0;
  }

  lemma ModNext(x: nat, n: nat)
    requires n > 0
    ensures Slot(Slot(x, n) + 1, n) == Slot(x + 1, n)
  {
    var q, r := x / n, x % n;
    if r + 1 < n {
      ModUnique(x + 1, q, r + 1, n);
    } else {
      assert n * (q + 1) == n * q + n;
      ModUnique(x + 1, q + 1, 0, n);
      ModUnique(n, 1, 0, n);
    }
  }

  lemma ModDistinct(a: nat, b: nat, n: nat)
    requires a < b < a + n
    ensures Slot(a, n) != Slot(b, n)
  {
    var q, r := a / n, a % n;
    var k := b - a;
    if r + k < n {
      ModUnique(b, q, r + k, n);
    } else {
      assert n * (q + 1) == n * q + n;
      ModUnique(b, q + 1, r + k - n, n);
    }
  }

  // ---- every step keeps it ----

  // How a step moves the data-carrying parts of the side that takes it.
  lemma MineMoves(cfg: Config, s: State, d: Side)
    requires Shape(cfg, s) && LoopOk(cfg, Th(s, d)) && (d == Producer ==> Th(s, d).pc != Add)
    requires Th(s, d).pc != Done
    ensures var th, th' := Th(s, d), Mine(cfg, s, d);
            && LoopOk(cfg, th') && (d == Producer ==> th'.pc != Add)
            && Moved(th') == Moved(th) + (if th.pc == Bump then 1 else 0)
            && Early(th') == (if th.pc == Advance then 1 else 0)
            && Added(th') == Added(th) + (if th.pc == Add || (th.pc == Bump && d == Producer) then 1 else 0)
            && (th.pc == Move ==> th'.pc == Advance && (d == Consumer ==> th'.v == s.ring[s.head]))
            && (th.pc != Move ==> th'.v == th.v)
            && (th'.pc == Advance ==> th.pc == Move)
            && (th'.pc == Bump ==> th.pc == Advance)
            && (th'.pc == Add ==> th.pc == Bump)
  {
    hide Room, CondOf;
  }

  lemma TheirsKeeps(pc: Pc, other: Thread)
    ensures var th := Theirs(pc, other);
            && th.i == other.i && th.v == other.v
            && Moved(th) == Moved(other) && Early(th) == Early(other) && Added(th) == Added(other)
            && (th.pc == other.pc || (other.pc == MPark && th.pc == Xchg) || (other.pc == CwPark && th.pc == CwTest))
  {
  }

  lemma EarlyAt(th: Thread)
    ensures Early(th) == if th.pc == Bump then 1 else 0
    ensures th.pc == Move ==> Moved(th) == th.i
    ensures th.pc == Add ==> Added(th) == Moved(th) - 1
  {
  }

  // A step, part by part.
  lemma StepParts(cfg: Config, s: State, l: Label)
    requires Shape(cfg, s) && Enabled(s, l)
    ensures var s', th := Step(cfg, s, l), Th(s, l.side);
            && s'.ring == (if l.side == Producer && th.pc == Move then s.ring[s.tail := th.i + 1] else s.ring)
            && s'.count == (if th.pc != Bump then s.count else if l.side == Producer then s.count + 1 else s.count - 1)
            && s'.head == (if l.side == Consumer && th.pc == Advance then Slot(s.head + 1, cfg.cap) else s.head)
            && s'.tail == (if l.side == Producer && th.pc == Advance then Slot(s.tail + 1, cfg.cap) else s.tail)
            && s'.sum == (if th.pc == Add then s.sum + th.v else s.sum)
            && s'.taken == (if th.pc == Add then s.taken + [th.v] else s.taken)
            && s'.prod == (if l.side == Producer then Mine(cfg, s, Producer) else Theirs(th.pc, s.prod))
            && s'.cons == (if l.side == Producer then Theirs(th.pc, s.cons) else Mine(cfg, s, Consumer))
  {
    hide Slot, Mine, Theirs, NewCond, NewWord;
  }

  lemma StepCountsOk(cfg: Config, s: State, l: Label)
    requires Shape(cfg, s) && CountsOk(cfg, s) && Enabled(s, l)
    ensures CountsOk(cfg, Step(cfg, s, l))
  {
    hide Step, Slot, Mine, Theirs, Moved, Early, Added, LoopOk;
    StepParts(cfg, s, l);
    if l.side == Producer {
      MineMoves(cfg, s, Producer);
      TheirsKeeps(s.prod.pc, s.cons);
      TheirsLoops(cfg, s.prod.pc, s.cons);
      ModNext(Moved(s.prod), cfg.cap);
      EarlyAt(s.prod);
    } else {
      MineMoves(cfg, s, Consumer);
      TheirsKeeps(s.cons.pc, s.prod);
      TheirsLoops(cfg, s.cons.pc, s.prod);
      ModNext(Moved(s.cons), cfg.cap);
      EarlyAt(s.cons);
    }
  }

  lemma TheirsLoops(cfg: Config, pc: Pc, other: Thread)
    requires LoopOk(cfg, other)
    ensures LoopOk(cfg, Theirs(pc, other))
  {
  }

  // Putting a message into a slot the consumer is done with.
  lemma PutHolds(ring: seq<int>, cap: nat, k: nat, p: nat)
    requires cap > 0 && |ring| == cap && Holds(ring, cap, k, p) && p < k + cap
    ensures Holds(ring[Slot(p, cap) := p + 1], cap, k, p)
  {
    hide Slot;
    forall j: nat | k <= j < p
      ensures ring[Slot(p, cap) := p + 1][Slot(j, cap)] == j + 1
    {
      ModDistinct(j, p, cap);
    }
  }

  lemma StepSlotsOk(cfg: Config, s: State, l: Label)
    requires Shape(cfg, s) && CountsOk(cfg, s) && SlotsOk(cfg, s) && Enabled(s, l)
    requires Th(s, l.side).pc == Move ==> Room(cfg, s, l.side) > 0
    ensures SlotsOk(cfg, Step(cfg, s, l))
  {
    hide Step, Slot, Mine, Theirs, Moved, Early, Added, LoopOk, Holds;
    var s' := Step(cfg, s, l);
    var k, p := Moved(s.cons), Moved(s.prod);
    StepParts(cfg, s, l);
    if l.side == Producer {
      MineMoves(cfg, s, Producer);
      TheirsKeeps(s.prod.pc, s.cons);
      EarlyAt(s.prod);
      if s.prod.pc == Move {
        PutHolds(s.ring, cfg.cap, k, p);
      } else if s.prod.pc == Bump {
        HoldsMoves(s.ring, cfg.cap, k, p);
      }
      assert SlotsAt(s'.ring, cfg.cap, Moved(s'.cons), Moved(s'.prod), s'.prod.pc);
    } else {
      MineMoves(cfg, s, Consumer);
      TheirsKeeps(s.cons.pc, s.prod);
      HoldsMoves(s.ring, cfg.cap, k, p);
      assert SlotsAt(s'.ring, cfg.cap, Moved(s'.cons), Moved(s'.prod), s'.prod.pc);
    }
  }

  lemma HoldsMoves(ring: seq<int>, cap: nat, k: nat, p: nat)
    requires cap > 0 && |ring| == cap && Holds(ring, cap, k, p)
    ensures Holds(ring, cap, k + 1, p)
    ensures ring[Slot(p, cap)] == p + 1 ==> Holds(ring, cap, k, p + 1)
  {
    hide Slot;
  }

  lemma OblongNext(n: int)
    ensures Oblong(n + 1) == Oblong(n) + 2 * (n + 1)
  {
  }

  lemma UptoNext(n: nat)
    ensures Upto(n) + [n + 1] == Upto(n + 1)
  {
  }

  // Taking the next message, in order.
  lemma StepTakenOk(cfg: Config, s: State, l: Label)
    requires Shape(cfg, s) && CountsOk(cfg, s) && SlotsOk(cfg, s) && TakenOk(s) && Enabled(s, l)
    requires Th(s, l.side).pc == Move ==> Room(cfg, s, l.side) > 0
    ensures TakenOk(Step(cfg, s, l))
  {
    hide Step, Slot, Mine, Theirs, Moved, Early, LoopOk, Added, Upto, Oblong;
    var th := s.cons;
    StepParts(cfg, s, l);
    MineMoves(cfg, s, l.side);
    TheirsKeeps(Th(s, l.side).pc, Th(s, Other(l.side)));
    EarlyAt(th);
    if l.side == Consumer {
      if th.pc == Move {
        assert s.ring[Slot(Moved(th), cfg.cap)] == Moved(th) + 1;
      } else if th.pc == Add {
        OblongNext(Added(th));
        UptoNext(Added(th));
      }
    }
  }

  lemma WaitFacts(cfg: Config, s: State, d: Side)
    requires WaitOk(cfg, s, d)
    ensures CondOk(s, d) && (Th(s, d).pc == Move ==> Room(cfg, s, d) > 0)
  {
  }

  // Every instruction of either thread, and every expiry, keeps the invariant.
  lemma StepInv(cfg: Config, s: State, l: Label)
    requires Inv(cfg, s) && Enabled(s, l)
    ensures Inv(cfg, Step(cfg, s, l))
  {
    hide Step, LockOk, WaitOk, CountsOk, SlotsOk, TakenOk;
    assert WaitOk(cfg, s, l.side) && WaitOk(cfg, s, Other(l.side));
    WaitFacts(cfg, s, l.side);
    WaitFacts(cfg, s, Other(l.side));
    StepLockOk(cfg, s, l);
    StepWaitMine(cfg, s, l);
    StepWaitTheirs(cfg, s, l);
    StepCountsOk(cfg, s, l);
    StepSlotsOk(cfg, s, l);
    StepTakenOk(cfg, s, l);
  }
}
