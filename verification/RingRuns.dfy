// Whole runs of the producer and the consumer: safety in every reachable
// state, no lost wakeup, no deadlock, and a bound on every run.
module RingRuns {
  import opened Sums
  import opened Ring
  import opened RingData

  // ---- safety ----

  lemma {:induction false} RunInv(cfg: Config, s: State, run: seq<Label>)
    requires Inv(cfg, s) && IsRun(cfg, s, run)
    ensures Inv(cfg, After(cfg, s, run))
    decreases run
  {
    hide Step;
    if run != [] {
      StepInv(cfg, s, run[0]);
      RunInv(cfg, Step(cfg, s, run[0]), run[1..]);
    }
  }

  // The count is what was produced less what was consumed and stays within the
  // ring, the indices are those counts modulo the capacity, and what has been
  // added up is exactly a prefix of 1, 2, 3, ... in order.
  predicate Consistent(cfg: Config, s: State)
    requires ValidConfig(cfg)
  {
    && 0 <= s.count <= cfg.cap
    && s.count == Moved(s.prod) - Moved(s.cons)
    && s.tail == (Moved(s.prod) + Early(s.prod)) % cfg.cap
    && s.head == (Moved(s.cons) + Early(s.cons)) % cfg.cap
    && Added(s.cons) >= 0 && s.taken == Upto(Added(s.cons))
    && !(Owns(s.prod) && Owns(s.cons))
  }

  lemma InvConsistent(cfg: Config, s: State)
    requires Inv(cfg, s)
    ensures Consistent(cfg, s)
  {
    hide Owns, Moved, Early, Added, Upto, SlotsOk, LoopOk;
    RoomNatural(cfg, s, Producer);
    RoomNatural(cfg, s, Consumer);
  }

  // This holds in every reachable state of every interleaving.
  lemma RingAlwaysConsistent(cfg: Config, run: seq<Label>)
    requires ValidConfig(cfg) && IsRun(cfg, Init(cfg), run)
    ensures Consistent(cfg, After(cfg, Init(cfg), run))
  {
    hide Inv, Step, Consistent;
    InitInv(cfg);
    RunInv(cfg, Init(cfg), run);
    InvConsistent(cfg, After(cfg, Init(cfg), run));
  }

  lemma RoomNatural(cfg: Config, s: State, d: Side)
    requires WaitOk(cfg, s, d)
    ensures Room(cfg, s, d) >= 0
  {
  }

  lemma DoneTotals(cfg: Config, s: State)
    requires Inv(cfg, s) && BothDone(s)
    ensures s.taken == Upto(cfg.messages) && s.count == 0
    ensures s.sum == cfg.messages * (cfg.messages + 1) / 2
  {
    hide LockOk, WaitOk, SlotsOk, Upto;
  }

  // When both threads have been joined, every message crossed exactly once, in
  // order, and the sum is the one _start asks for.
  lemma EveryMessageCrossesOnce(cfg: Config, run: seq<Label>)
    requires ValidConfig(cfg) && IsRun(cfg, Init(cfg), run) && BothDone(After(cfg, Init(cfg), run))
    ensures var s := After(cfg, Init(cfg), run);
            && s.taken == Upto(cfg.messages)
            && s.sum == cfg.messages * (cfg.messages + 1) / 2
            && s.count == 0
  {
    hide Inv, Step;
    InitInv(cfg);
    RunInv(cfg, Init(cfg), run);
    DoneTotals(cfg, After(cfg, Init(cfg), run));
  }

  // ---- no lost wakeup ----

  // Whenever the lock is free, a producer asleep on its condition variable
  // faces a full ring and a consumer asleep on its own an empty one.
  lemma SleepersHaveReason(cfg: Config, run: seq<Label>)
    requires ValidConfig(cfg) && IsRun(cfg, Init(cfg), run)
    ensures var s := After(cfg, Init(cfg), run);
            s.word == 0 ==> (s.prod.pc == CwPark ==> s.count == cfg.cap) && (s.cons.pc == CwPark ==> s.count == 0)
  {
    hide IsRun, After, Step;
    InitInv(cfg);
    RunInv(cfg, Init(cfg), run);
    var s := After(cfg, Init(cfg), run);
    if s.word == 0 {
      AsleepMeansNoRoom(cfg, s, Producer);
      AsleepMeansNoRoom(cfg, s, Consumer);
    }
  }

  lemma AsleepMeansNoRoom(cfg: Config, s: State, d: Side)
    requires Inv(cfg, s) && !Owns(Th(s, Other(d)))
    ensures Th(s, d).pc == CwPark ==> Room(cfg, s, d) == 0
  {
    hide Signals, CountsOk, SlotsOk, TakenOk;
    if Th(s, d).pc == CwPark {
      assert WaitOk(cfg, s, d);
      SignalsZero(CondOf(s, d).seqno, Th(s, d).seen);
    }
  }

  // ---- no deadlock ----

  predicate Asleep(th: Thread) {
    th.pc == MPark || th.pc == CwPark
  }

  // Two threads that have each stopped have both returned.
  lemma BothStoppedMeansBothDone(cfg: Config, s: State)
    requires Inv(cfg, s)
    requires Asleep(s.prod) || s.prod.pc == Done
    requires Asleep(s.cons) || s.cons.pc == Done
    ensures BothDone(s)
  {
    hide Signals, SlotsOk, TakenOk;
    AsleepMeansNoRoom(cfg, s, Producer);
    AsleepMeansNoRoom(cfg, s, Consumer);
  }

  // Unless both have returned, one of them can take a step of its own: no
  // state depends on a park timing out.
  lemma NoDeadlock(cfg: Config, s: State) returns (l: Label)
    requires Inv(cfg, s) && !BothDone(s)
    ensures l.Run? && Enabled(s, l)
  {
    hide Inv;
    if Enabled(s, Run(Producer)) {
      l := Run(Producer);
    } else {
      l := Run(Consumer);
      if !Enabled(s, l) {
        BothStoppedMeansBothDone(cfg, s);
      }
    }
  }

  // ---- termination ----

  // Instructions a thread still has to get through, counting each sleep loop
  // as one place. A side that finds no room has the wait ahead of it as well.
  function Ahead(cfg: Config, room: int, th: Thread): int {
    var detour := if room == 0 then 10 else 0;
    30 * (cfg.messages - th.i) +
    (match th.pc
     case Loop => 19 + detour
     case Cas => 18 + detour
     case Xchg => 17 + detour
     case MWait => 17 + detour
     case MPark => 17 + detour
     case Test => 16 + detour
     case ReadSeq => 25
     case IncW => 24
     case CwUnlock => 23
     case CwWake => 22
     case CwTest => 21
     case CwFutex => 21
     case CwPark => 21
     case DecW => 20
     case Move => 15
     case Advance => 14
     case Bump => 13
     case Add => 12
     case SigInc => 11
     case SigLoad => 10
     case SigWake => 9
     case Unlock => 8
     case UWake => 7
     case Done => 0)
  }

  // How far a thread is from sleeping in, or leaving, the loop it is in.
  function Unrest(word: nat, seqno: nat, th: Thread): int {
    match th.pc
    case Xchg => 2
    case MWait => if word == 2 then 1 else 3
    case CwTest => if seqno == th.seen then 2 else 3
    case CwFutex => if seqno == th.seen then 1 else 4
    case _ => 0
  }

  function AheadOf(cfg: Config, s: State, d: Side): int {
    Ahead(cfg, Room(cfg, s, d), Th(s, d))
  }

  function UnrestOf(s: State, d: Side): int {
    Unrest(s.word, CondOf(s, d).seqno, Th(s, d))
  }

  function Measure(cfg: Config, s: State): int {
    Weigh(8, AheadOf(cfg, s, Producer) + AheadOf(cfg, s, Consumer), UnrestOf(s, Producer) + UnrestOf(s, Consumer))
  }

  lemma AheadNatural(cfg: Config, s: State, d: Side)
    requires LoopOk(cfg, Th(s, d))
    ensures AheadOf(cfg, s, d) >= 0
    ensures 0 <= UnrestOf(s, d) <= 4
  {
    hide Room, CondOf;
  }

  lemma MeasureNatural(cfg: Config, s: State)
    requires Inv(cfg, s)
    ensures Measure(cfg, s) >= 0
  {
    hide AheadOf, UnrestOf, Weigh, LockOk, WaitOk, CountsOk, SlotsOk, TakenOk, LoopOk;
    LoopsOk(cfg, s);
    AheadNatural(cfg, s, Producer);
    AheadNatural(cfg, s, Consumer);
    var a := AheadOf(cfg, s, Producer) + AheadOf(cfg, s, Consumer);
    var u := UnrestOf(s, Producer) + UnrestOf(s, Consumer);
    WeighOrders(8, a, u, a, u);
  }

  // Going round one of the two sleep loops.
  predicate InSleepLoop(s: State, d: Side) {
    var th := Th(s, d);
    || th.pc == MWait || (th.pc == Xchg && s.word != 0)
    || th.pc == CwFutex || (th.pc == CwTest && CondOf(s, d).seqno == th.seen)
  }

  lemma MineAhead(cfg: Config, s: State, l: Label)
    requires Shape(cfg, s) && LoopOk(cfg, Th(s, l.side)) && WaitOk(cfg, s, l.side) && Enabled(s, l) && l.Run?
    ensures var s' := Step(cfg, s, l);
            if InSleepLoop(s, l.side) then
              AheadOf(cfg, s', l.side) == AheadOf(cfg, s, l.side) && UnrestOf(s', l.side) < UnrestOf(s, l.side)
            else
              AheadOf(cfg, s', l.side) < AheadOf(cfg, s, l.side)
  {
    hide Step, Room, CondOf, Theirs, Signals;
    StepSides(cfg, s, l);
  }

  lemma TheirsAhead(cfg: Config, s: State, l: Label)
    requires Shape(cfg, s) && Room(cfg, s, Other(l.side)) >= 0 && Enabled(s, l) && l.Run?
    ensures var s', e := Step(cfg, s, l), Other(l.side);
            && AheadOf(cfg, s', e) <= AheadOf(cfg, s, e)
            && (InSleepLoop(s, l.side) ==> UnrestOf(s', e) <= UnrestOf(s, e))
  {
    hide Step, Room, CondOf, Mine;
    StepSides(cfg, s, l);
  }

  lemma LoopsOk(cfg: Config, s: State)
    requires Shape(cfg, s) && CountsOk(cfg, s)
    ensures LoopOk(cfg, Th(s, Producer)) && LoopOk(cfg, Th(s, Consumer))
  {
  }

  // Every instruction brings the run nearer to its end...
  lemma StepMeasure(cfg: Config, s: State, l: Label)
    requires Inv(cfg, s) && Enabled(s, l) && l.Run?
    ensures Measure(cfg, Step(cfg, s, l)) < Measure(cfg, s)
  {
    hide Step, AheadOf, UnrestOf, Weigh, CountsOk, SlotsOk, TakenOk, LockOk, WaitOk, Shape, Enabled, LoopOk, InSleepLoop;
    var s' := Step(cfg, s, l);
    var d, e := l.side, Other(l.side);
    StepCountsOk(cfg, s, l);
    LoopsOk(cfg, s);
    LoopsOk(cfg, s');
    RoomNatural(cfg, s, e);
    MineAhead(cfg, s, l);
    TheirsAhead(cfg, s, l);
    AheadNatural(cfg, s, d);
    AheadNatural(cfg, s, e);
    AheadNatural(cfg, s', d);
    AheadNatural(cfg, s', e);
    WeighOrders(8, AheadOf(cfg, s, d) + AheadOf(cfg, s, e), UnrestOf(s, d) + UnrestOf(s, e),
                AheadOf(cfg, s', d) + AheadOf(cfg, s', e), UnrestOf(s', d) + UnrestOf(s', e));
  }

  // ... and an expired park puts it back by three at most.
  lemma ExpireMeasure(cfg: Config, s: State, l: Label)
    requires Shape(cfg, s) && Enabled(s, l) && l.Expire?
    ensures Measure(cfg, Step(cfg, s, l)) <= Measure(cfg, s) + 3
  {
    hide Step, Room, CondOf;
    StepSides(cfg, s, l);
  }

  function Instructions(run: seq<Label>): nat {
    if run == [] then 0 else (if run[0].Run? then 1 else 0) + Instructions(run[1..])
  }

  function Expiries(run: seq<Label>): nat {
    if run == [] then 0 else (if run[0].Expire? then 1 else 0) + Expiries(run[1..])
  }

  // Whatever the scheduler does, a run executes a bounded number of
  // instructions for each park that times out; without timeouts every run ends.
  lemma {:induction false} RunsAreBounded(cfg: Config, s: State, run: seq<Label>)
    requires Inv(cfg, s) && IsRun(cfg, s, run)
    ensures Instructions(run) <= Measure(cfg, s) + 3 * Expiries(run)
    decreases run
  {
    hide Measure, Step;
    if run == [] {
      MeasureNatural(cfg, s);
    } else {
      var l := run[0];
      StepInv(cfg, s, l);
      if l.Run? { StepMeasure(cfg, s, l); } else { ExpireMeasure(cfg, s, l); }
      RunsAreBounded(cfg, Step(cfg, s, l), run[1..]);
    }
  }

  // The bound in numbers: from the start, at most 540 instructions a message,
  // 540 more, and three a timeout.
  lemma RunsFromStartAreBounded(cfg: Config, run: seq<Label>)
    requires ValidConfig(cfg) && IsRun(cfg, Init(cfg), run)
    ensures Instructions(run) <= 540 * cfg.messages + 540 + 3 * Expiries(run)
  {
    hide IsRun, Step;
    InitInv(cfg);
    RunsAreBounded(cfg, Init(cfg), run);
  }

  // A run that cannot go on by itself is finished, and finished correctly.
  lemma EveryMaximalRunFinishes(cfg: Config, run: seq<Label>)
    requires ValidConfig(cfg) && IsRun(cfg, Init(cfg), run)
    requires forall d: Side :: !Enabled(After(cfg, Init(cfg), run), Run(d))
    ensures var s := After(cfg, Init(cfg), run);
            BothDone(s) && s.taken == Upto(cfg.messages) && s.sum == cfg.messages * (cfg.messages + 1) / 2
  {
    hide Inv, Step;
    InitInv(cfg);
    RunInv(cfg, Init(cfg), run);
    var s := After(cfg, Init(cfg), run);
    assert !Enabled(s, Run(Producer)) && !Enabled(s, Run(Consumer));
    BothStoppedMeansBothDone(cfg, s);
    DoneTotals(cfg, s);
  }

  function MeasureNat(cfg: Config, s: State): nat {
    if Measure(cfg, s) < 0 then 0 else Measure(cfg, s)
  }

  // From any reachable state there is a way to the end without a timeout.
  lemma {:induction false} CanFinish(cfg: Config, s: State) returns (run: seq<Label>)
    requires Inv(cfg, s)
    ensures IsRun(cfg, s, run) && BothDone(After(cfg, s, run)) && Expiries(run) == 0
    decreases MeasureNat(cfg, s)
  {
    hide Step, Measure, Enabled;
    if BothDone(s) {
      run := [];
    } else {
      var l := NoDeadlock(cfg, s);
      var s' := Step(cfg, s, l);
      StepInv(cfg, s, l);
      StepMeasure(cfg, s, l);
      MeasureNatural(cfg, s);
      MeasureNatural(cfg, s');
      var rest := CanFinish(cfg, s');
      run := [l] + rest;
      assert run[0] == l && run[1..] == rest;
    }
  }

  // ---- an uncontended lock never enters the kernel ----

  // The label is a thread executing the instruction at pc.
  predicate Executes(s: State, l: Label, pc: Pc) {
    l.Run? && Th(s, l.side).pc == pc
  }

  // Neither side ever finds the lock taken.
  predicate Uncontended(cfg: Config, s: State, run: seq<Label>)
    requires Shape(cfg, s) && IsRun(cfg, s, run)
    decreases run
  {
    run == [] || (!Executes(s, run[0], Xchg) && Uncontended(cfg, Step(cfg, s, run[0]), run[1..]))
  }

  // Wakes issued on the lock along a run.
  function LockWakes(cfg: Config, s: State, run: seq<Label>): nat
    requires Shape(cfg, s) && IsRun(cfg, s, run)
    decreases run
  {
    if run == [] then 0
    else (if Executes(s, run[0], CwWake) || Executes(s, run[0], UWake) then 1 else 0)
         + LockWakes(cfg, Step(cfg, s, run[0]), run[1..])
  }

  predicate Quiet(s: State) {
    s.word != 2 && !WillWakeLock(s.prod) && !WillWakeLock(s.cons)
  }

  lemma StepQuiet(cfg: Config, s: State, l: Label)
    requires Shape(cfg, s) && Quiet(s) && Enabled(s, l) && !Executes(s, l, Xchg)
    ensures Quiet(Step(cfg, s, l))
  {
    hide Step, Room, CondOf, NewCond;
    StepSides(cfg, s, l);
    assert Quiet(s) == (s.word != 2 && !WillWakeLock(Th(s, l.side)) && !WillWakeLock(Th(s, Other(l.side))));
  }

  // As long as neither side had to queue for the lock, its word is never 2 and
  // no unlock issues a wake.
  lemma {:induction false} UncontendedNeverWakes(cfg: Config, s: State, run: seq<Label>)
    requires Shape(cfg, s) && Quiet(s) && IsRun(cfg, s, run) && Uncontended(cfg, s, run)
    ensures Quiet(After(cfg, s, run)) && LockWakes(cfg, s, run) == 0
    decreases run
  {
    hide Step;
    if run != [] {
      StepQuiet(cfg, s, run[0]);
      UncontendedNeverWakes(cfg, Step(cfg, s, run[0]), run[1..]);
    }
  }

  // A signal goes on to a wake exactly when the other side is counted as
  // waiting.
  lemma SignalWakesOnlyWaiters(cfg: Config, s: State, l: Label)
    requires Inv(cfg, s) && Enabled(s, l) && Th(s, l.side).pc == SigLoad
    ensures Th(Step(cfg, s, l), l.side).pc == SigWake <==> Counted(Th(s, Other(l.side)))
  {
    hide Step, Signals, CountsOk, SlotsOk, TakenOk, LockOk, RoomOk;
    StepSides(cfg, s, l);
    assert WaitOk(cfg, s, Other(l.side));
  }
}
