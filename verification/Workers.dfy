// N threads and one three-state futex mutex, one atomic instruction at a time.
//
// The lock is the one of libc/pthread.c (pthread_mutex_lock and
// pthread_mutex_unlock on a NORMAL mutex) and libc/include/vxmutex.h: 0 free,
// 1 held, 2 held with somebody asleep. What runs under it is either
// counter_worker of apps/threadtest.c, which also bumps a second counter
// outside the lock, or hammer of apps/mutextest.c, which does not.
//
// A futex wait compares and parks in one step, because the kernel masks
// interrupts around both; a futex wake releases one thread of the channel; a
// park also ends by itself after a bounded time. Every interleaving is a
// sequence of labels.
module Workers {
  import opened Sums

  datatype Program = CounterWorker | Hammer

  // How many threads run the program, and how often each goes round its loop.
  datatype Config = Config(program: Program, workers: nat, rounds: nat)

  datatype Pc =
    | Loop      // the for test
    | Cas       // lock: compare-and-exchange 0 -> 1
    | Xchg      // lock: exchange with 2
    | MWait     // lock: enter the futex wait, expecting 2
    | MPark     // asleep on the lock word
    | MLate     // the park timed out; still on the channel, not yet running
    | Load      // read the counter
    | Store     // write it back, plus one
    | Unlock    // exchange with 0
    | Wake      // futex wake, after an exchange that found 2
    | RLoad     // read the unlocked counter
    | RStore    // write it back, plus one
    | Done

  datatype Thread = Thread(pc: Pc, i: nat, reg: int, racyReg: int)

  datatype State = State(word: nat, counter: int, racy: int, threads: seq<Thread>)

  // Run(t, w): thread t executes its next instruction; w is the thread a wake
  // picks, if this is a wake and there is one to pick. Expire(t): a park of t
  // reaches its time limit.
  datatype Label = Run(t: nat, w: nat) | Expire(t: nat)

  function Init(cfg: Config): State {
    State(0, 0, 0, seq(cfg.workers, _ => Thread(Loop, 0, 0, 0)))
  }

  // counter is a long in threadtest and a uint32_t in mutextest.
  function Norm(p: Program, n: int): int {
    if p == Hammer then n % 0x1_0000_0000 else n
  }

  predicate OnChannel(th: Thread) {
    th.pc == MPark || th.pc == MLate
  }

  predicate Enabled(s: State, l: Label) {
    match l
    case Run(t, w) =>
      && t < |s.threads| && s.threads[t].pc != MPark && s.threads[t].pc != Done
      && (s.threads[t].pc == Wake && (exists k :: 0 <= k < |s.threads| && OnChannel(s.threads[k]))
          ==> w < |s.threads| && OnChannel(s.threads[w]))
    case Expire(t) => t < |s.threads| && s.threads[t].pc == MPark
  }

  // Where a thread goes once the lock is released.
  function Released(p: Program, th: Thread): Thread {
    if p == CounterWorker then th.(pc := RLoad) else th.(pc := Loop, i := th.i + 1)
  }

  function Step(cfg: Config, s: State, l: Label): State
    requires Enabled(s, l)
  {
    var th := s.threads[l.t];
    if l.Expire? then s.(threads := s.threads[l.t := th.(pc := MLate)]) else
    match th.pc
    case Loop => s.(threads := s.threads[l.t := th.(pc := if th.i < cfg.rounds then Cas else Done)])
    case Cas =>
      if s.word == 0 then s.(word := 1, threads := s.threads[l.t := th.(pc := Load)])
      else s.(threads := s.threads[l.t := th.(pc := Xchg)])
    case Xchg => s.(word := 2, threads := s.threads[l.t := th.(pc := if s.word == 0 then Load else MWait)])
    case MWait => s.(threads := s.threads[l.t := th.(pc := if s.word == 2 then MPark else Xchg)])
    case MLate => s.(threads := s.threads[l.t := th.(pc := Xchg)])
    case Load => s.(threads := s.threads[l.t := th.(pc := Store, reg := s.counter)])
    case Store =>
      s.(counter := Norm(cfg.program, th.reg + 1), threads := s.threads[l.t := th.(pc := Unlock)])
    case Unlock =>
      s.(word := 0, threads := s.threads[l.t := if s.word == 2 then th.(pc := Wake) else Released(cfg.program, th)])
    case Wake =>
      var ts := s.threads[l.t := Released(cfg.program, th)];
      if l.w < |s.threads| && OnChannel(s.threads[l.w])
      then s.(threads := ts[l.w := s.threads[l.w].(pc := Xchg)])
      else s.(threads := ts)
    case RLoad => s.(threads := s.threads[l.t := th.(pc := RStore, racyReg := s.racy)])
    case RStore =>
      s.(racy := th.racyReg + 1, threads := s.threads[l.t := th.(pc := Loop, i := th.i + 1)])
    case MPark => s
    case Done => s
  }

  // A sequence of labels that can be taken one after the other, and where it
  // leads.
  predicate IsRun(cfg: Config, s: State, run: seq<Label>)
    decreases run
  {
    run == [] || (Enabled(s, run[0]) && IsRun(cfg, Step(cfg, s, run[0]), run[1..]))
  }

  function After(cfg: Config, s: State, run: seq<Label>): State
    requires IsRun(cfg, s, run)
    decreases run
  {
    if run == [] then s else After(cfg, Step(cfg, s, run[0]), run[1..])
  }

  predicate AllDone(s: State) {
    forall t :: 0 <= t < |s.threads| ==> s.threads[t].pc == Done
  }

  // ---- the invariant ----

  // Between taking the lock and giving it back.
  predicate Owns(th: Thread) {
    th.pc == Load || th.pc == Store || th.pc == Unlock
  }

  // Awake and certain either to take the lock or to mark it contested, or to
  // wake somebody who will.
  predicate Responsible(th: Thread) {
    th.pc == Wake || th.pc == Xchg || th.pc == MLate
  }

  // Locked increments a thread has completed.
  function Incs(th: Thread): int {
    th.i + (if th.pc == Unlock || th.pc == Wake || th.pc == RLoad || th.pc == RStore then 1 else 0)
  }

  // Stores to the unlocked counter a thread has completed.
  function Stores(th: Thread): int {
    th.i
  }

  predicate ThreadOk(cfg: Config, th: Thread) {
    && th.i <= cfg.rounds
    && (th.pc == Done ==> th.i == cfg.rounds)
    && (th.pc != Loop && th.pc != Done ==> th.i < cfg.rounds)
    && (cfg.program == Hammer ==> th.pc != RLoad && th.pc != RStore)
  }

  predicate ThreadsOk(cfg: Config, s: State) {
    |s.threads| == cfg.workers && forall t :: 0 <= t < |s.threads| ==> ThreadOk(cfg, s.threads[t])
  }

  // Mutual exclusion: the word is 0 exactly when nobody is between lock and
  // unlock, and never two threads are.
  predicate Exclusion(s: State) {
    && s.word <= 2
    && (forall a, b :: 0 <= a < |s.threads| && 0 <= b < |s.threads| && Owns(s.threads[a]) && Owns(s.threads[b])
                       ==> a == b)
    && (s.word != 0 <==> exists a :: 0 <= a < |s.threads| && Owns(s.threads[a]))
  }

  // No lost wakeup: while anybody sleeps on the lock, the word says so or
  // somebody awake is going to act on it.
  predicate NoLostWakeup(s: State) {
    (exists t :: 0 <= t < |s.threads| && s.threads[t].pc == MPark)
    ==> s.word == 2 || exists u :: 0 <= u < |s.threads| && Responsible(s.threads[u])
  }

  predicate CounterOk(cfg: Config, s: State) {
    && s.counter == Norm(cfg.program, Sum(Incs, s.threads))
    && forall t :: 0 <= t < |s.threads| && s.threads[t].pc == Store ==> s.threads[t].reg == s.counter
  }

  // The unlocked counter has lost at least d of the stores made to it, and no
  // pending store will bring them back.
  predicate RacyLost(s: State, d: nat) {
    && s.racy + d <= Sum(Stores, s.threads)
    && forall t :: 0 <= t < |s.threads| && s.threads[t].pc == RStore
                   ==> s.threads[t].racyReg + d <= Sum(Stores, s.threads)
  }

  predicate Inv(cfg: Config, s: State) {
    ThreadsOk(cfg, s) && Exclusion(s) && NoLostWakeup(s) && CounterOk(cfg, s) && RacyLost(s, 0)
  }

  lemma InitInv(cfg: Config)
    ensures Inv(cfg, Init(cfg))
  {
    var s := Init(cfg);
    SumBounds(Incs, s.threads, 0, 0);
    SumBounds(Stores, s.threads, 0, 0);
  }

  lemma StepThreadsOk(cfg: Config, s: State, l: Label)
    requires ThreadsOk(cfg, s) && Enabled(s, l)
    ensures ThreadsOk(cfg, Step(cfg, s, l))
  {
  }

  // A step touches the thread that takes it, and otherwise at most moves a
  // thread from the lock's channel back to its exchange.
  lemma StepFrame(cfg: Config, s: State, l: Label)
    requires Enabled(s, l)
    ensures var ts := Step(cfg, s, l).threads;
            && |ts| == |s.threads|
            && forall k :: 0 <= k < |s.threads| && k != l.t
                           ==> ts[k] == s.threads[k] || (OnChannel(s.threads[k]) && ts[k] == s.threads[k].(pc := Xchg))
  {
  }

  lemma StepOwner(cfg: Config, s: State, l: Label)
    requires Enabled(s, l)
    ensures var s' := Step(cfg, s, l);
            var th, th' := s.threads[l.t], s'.threads[l.t];
            && (l.Run? && (th.pc == Cas || th.pc == Xchg) ==> (Owns(th') <==> s.word == 0) && s'.word != 0 && !Owns(th))
            && (l.Run? && th.pc == Unlock ==> Owns(th) && !Owns(th') && s'.word == 0)
            && (l.Expire? || (th.pc != Cas && th.pc != Xchg && th.pc != Unlock)
                ==> Owns(th') == Owns(th) && s'.word == s.word)
            && (s.word <= 2 ==> s'.word <= 2)
  {
    hide Norm;
  }

  lemma StepExclusion(cfg: Config, s: State, l: Label)
    requires Exclusion(s) && Enabled(s, l)
    ensures Exclusion(Step(cfg, s, l))
  {
    hide Step;
    var s' := Step(cfg, s, l);
    StepFrame(cfg, s, l);
    StepOwner(cfg, s, l);
    assert forall k :: 0 <= k < |s.threads| && k != l.t ==> Owns(s'.threads[k]) == Owns(s.threads[k]);
    if s'.word != 0 && !Owns(s'.threads[l.t]) {
      var a :| 0 <= a < |s.threads| && Owns(s.threads[a]);
      assert Owns(s'.threads[a]);
    }
  }

  lemma StepNoLostWakeup(cfg: Config, s: State, l: Label)
    requires NoLostWakeup(s) && Enabled(s, l)
    ensures NoLostWakeup(Step(cfg, s, l))
  {
    var s' := Step(cfg, s, l);
    var th := s.threads[l.t];
    if exists t :: 0 <= t < |s'.threads| && s'.threads[t].pc == MPark {
      if l.Expire? {
        assert Responsible(s'.threads[l.t]);
      } else if th.pc == Wake {
        var t :| 0 <= t < |s'.threads| && s'.threads[t].pc == MPark;
        assert OnChannel(s.threads[t]);
        assert Responsible(s'.threads[l.w]);
      } else if th.pc == Xchg || (th.pc == MWait && s.word == 2) {
        assert s'.word == 2;
      } else if Responsible(s'.threads[l.t]) {
      } else {
        var t :| 0 <= t < |s'.threads| && s'.threads[t].pc == MPark;
        assert s.threads[t].pc == MPark;
        assert s.word == 2 ==> s'.word == 2;
        if s.word != 2 {
          var u :| 0 <= u < |s.threads| && Responsible(s.threads[u]);
          assert u != l.t && Responsible(s'.threads[u]);
        }
      }
    }
  }

  // How one step moves a sum over the threads: through the thread that moved,
  // if the weight does not tell a woken thread from a sleeping one.
  lemma StepSum(cfg: Config, s: State, l: Label, f: Thread -> int)
    requires Enabled(s, l)
    requires forall th: Thread :: OnChannel(th) ==> f(th.(pc := Xchg)) == f(th)
    ensures var ts := Step(cfg, s, l).threads;
            |ts| == |s.threads| && Sum(f, ts) == Sum(f, s.threads) - f(s.threads[l.t]) + f(ts[l.t])
  {
    var s' := Step(cfg, s, l);
    var me' := s'.threads[l.t];
    SumUpdate(f, s.threads, l.t, me');
    if l.Run? && s.threads[l.t].pc == Wake && l.w < |s.threads| && OnChannel(s.threads[l.w]) {
      SumUpdate(f, s.threads[l.t := me'], l.w, s'.threads[l.w]);
    } else {
      assert s'.threads == s.threads[l.t := me'];
    }
  }

  lemma NormNext(p: Program, n: int)
    ensures Norm(p, Norm(p, n) + 1) == Norm(p, n + 1)
  {
  }

  lemma StepCounter(cfg: Config, s: State, l: Label)
    requires Enabled(s, l)
    ensures var s' := Step(cfg, s, l);
            var th, th' := s.threads[l.t], s'.threads[l.t];
            if l.Run? && th.pc == Store then
              Incs(th') == Incs(th) + 1 && s'.counter == Norm(cfg.program, th.reg + 1) && th'.pc == Unlock
            else
              Incs(th') == Incs(th) && s'.counter == s.counter && (th'.pc == Store ==> th'.reg == s.counter)
  {
    hide Norm;
  }

  lemma StepCounterOk(cfg: Config, s: State, l: Label)
    requires Exclusion(s) && CounterOk(cfg, s) && Enabled(s, l)
    ensures CounterOk(cfg, Step(cfg, s, l))
  {
    hide Norm, Step, Sum;
    var s' := Step(cfg, s, l);
    StepFrame(cfg, s, l);
    StepCounter(cfg, s, l);
    StepSum(cfg, s, l, Incs) by {
      assert forall th: Thread :: OnChannel(th) ==> Incs(th.(pc := Xchg)) == Incs(th);
    }
    if l.Run? && s.threads[l.t].pc == Store {
      NormNext(cfg.program, Sum(Incs, s.threads));
      assert Owns(s.threads[l.t]);
      assert forall k :: 0 <= k < |s.threads| && k != l.t ==> !Owns(s.threads[k]);
    }
  }

  lemma StepRacy(cfg: Config, s: State, l: Label)
    requires Enabled(s, l)
    ensures var s' := Step(cfg, s, l);
            var th, th' := s.threads[l.t], s'.threads[l.t];
            if l.Run? && th.pc == RStore then
              Stores(th') == Stores(th) + 1 && s'.racy == th.racyReg + 1 && th'.pc == Loop
            else
              Stores(th') >= Stores(th) && s'.racy == s.racy && (th'.pc == RStore ==> th'.racyReg == s.racy)
  {
  }

  // What the unlocked counter has lost stays lost.
  lemma StepRacyLost(cfg: Config, s: State, l: Label, d: nat)
    requires RacyLost(s, d) && Enabled(s, l)
    ensures RacyLost(Step(cfg, s, l), d)
  {
    hide Step, Sum;
    StepFrame(cfg, s, l);
    StepRacy(cfg, s, l);
    StepSum(cfg, s, l, Stores);
  }

  // Every instruction of every thread, and every expiry, keeps the invariant.
  lemma StepInv(cfg: Config, s: State, l: Label)
    requires Inv(cfg, s) && Enabled(s, l)
    ensures Inv(cfg, Step(cfg, s, l))
  {
    hide Step;
    StepThreadsOk(cfg, s, l);
    StepExclusion(cfg, s, l);
    StepNoLostWakeup(cfg, s, l);
    StepCounterOk(cfg, s, l);
    StepRacyLost(cfg, s, l, 0);
  }

  // ---- safety over whole runs ----

  lemma {:induction false} RunInv(cfg: Config, s: State, run: seq<Label>)
    requires Inv(cfg, s) && IsRun(cfg, s, run)
    ensures Inv(cfg, After(cfg, s, run))
    decreases run
  {
    if run != [] {
      StepInv(cfg, s, run[0]);
      RunInv(cfg, Step(cfg, s, run[0]), run[1..]);
    }
  }

  // In every reachable state of every interleaving: mutual exclusion, and a
  // locked counter that equals the increments completed so far.
  lemma LockedCounterAlwaysExact(cfg: Config, run: seq<Label>)
    requires IsRun(cfg, Init(cfg), run)
    ensures var s := After(cfg, Init(cfg), run);
            && Exclusion(s)
            && s.counter == Norm(cfg.program, Sum(Incs, s.threads))
            && s.racy <= Sum(Stores, s.threads)
  {
    InitInv(cfg);
    RunInv(cfg, Init(cfg), run);
  }

  // When every worker has returned, the locked counter is exactly the total of
  // their counts, and the unlocked one is at most that.
  lemma LockedCounterExactAtJoin(cfg: Config, run: seq<Label>)
    requires IsRun(cfg, Init(cfg), run) && AllDone(After(cfg, Init(cfg), run))
    ensures var s := After(cfg, Init(cfg), run);
            && s.counter == Norm(cfg.program, cfg.workers * cfg.rounds)
            && s.racy <= cfg.workers * cfg.rounds
  {
    InitInv(cfg);
    RunInv(cfg, Init(cfg), run);
    var s := After(cfg, Init(cfg), run);
    DoneTotals(cfg, s);
  }

  lemma DoneTotals(cfg: Config, s: State)
    requires ThreadsOk(cfg, s) && AllDone(s)
    ensures Sum(Incs, s.threads) == Sum(Stores, s.threads) == cfg.workers * cfg.rounds
  {
    SumBounds(Incs, s.threads, cfg.rounds, cfg.rounds);
    SumBounds(Stores, s.threads, cfg.rounds, cfg.rounds);
  }

  // ---- no deadlock ----

  // Unless everybody has returned, some thread can take a step of its own:
  // no state depends on a park timing out.
  lemma NoDeadlock(cfg: Config, s: State) returns (l: Label)
    requires Inv(cfg, s) && !AllDone(s)
    ensures l.Run? && Enabled(s, l)
  {
    var t :| 0 <= t < |s.threads| && s.threads[t].pc != Done;
    if s.threads[t].pc == MPark {
      if s.word == 2 {
        t :| 0 <= t < |s.threads| && Owns(s.threads[t]);
      } else {
        t :| 0 <= t < |s.threads| && Responsible(s.threads[t]);
      }
    }
    if w :| 0 <= w < |s.threads| && OnChannel(s.threads[w]) {
      l := Run(t, w);
    } else {
      l := Run(t, 0);
    }
  }

  // ---- termination ----

  // Instructions a thread still has to get through, counting the sleep loop of
  // the lock as one place.
  function Ahead(cfg: Config, th: Thread): int {
    10 * (cfg.rounds - th.i) +
    (match th.pc
     case Loop => 9
     case Cas => 8
     case Xchg => 7
     case MWait => 7
     case MPark => 7
     case MLate => 7
     case Load => 6
     case Store => 5
     case Unlock => 4
     case Wake => 3
     case RLoad => 2
     case RStore => 1
     case Done => 0)
  }

  // How far a thread is from being asleep inside that loop.
  function Unrest(word: nat, th: Thread): int {
    match th.pc
    case MWait => if word == 2 then 1 else 3
    case Xchg => 2
    case MLate => 3
    case _ => 0
  }

  function AheadOf(cfg: Config): Thread -> int {
    (th: Thread) => Ahead(cfg, th)
  }

  function UnrestAt(word: nat): Thread -> int {
    (th: Thread) => Unrest(word, th)
  }

  function Measure(cfg: Config, s: State): int {
    Weigh(3 * |s.threads|, Sum(AheadOf(cfg), s.threads), Sum(UnrestAt(s.word), s.threads))
  }

  lemma MeasureNonNegative(cfg: Config, s: State)
    requires ThreadsOk(cfg, s)
    ensures Measure(cfg, s) >= 0
    ensures 0 <= Sum(UnrestAt(s.word), s.threads) <= 3 * |s.threads|
  {
    hide Sum, Weigh;
    SumBounds(AheadOf(cfg), s.threads, 0, 10 * cfg.rounds + 9);
    SumBounds(UnrestAt(s.word), s.threads, 0, 3);
    var u := Sum(UnrestAt(s.word), s.threads);
    WeighOrders(3 * |s.threads|, Sum(AheadOf(cfg), s.threads), u, 0, u);
  }

  // Inside the lock's sleep loop: nothing ahead is done, but one thread gets
  // closer to sleep and no other thread further from it.
  predicate InSleepLoop(s: State, l: Label)
    requires Enabled(s, l)
  {
    var pc := s.threads[l.t].pc;
    l.Run? && (pc == MWait || pc == MLate || (pc == Xchg && s.word != 0))
  }

  lemma StepAhead(cfg: Config, s: State, l: Label)
    requires ThreadsOk(cfg, s) && Enabled(s, l) && l.Run?
    ensures var th' := Step(cfg, s, l).threads[l.t];
            if InSleepLoop(s, l) then Ahead(cfg, th') == Ahead(cfg, s.threads[l.t])
            else Ahead(cfg, th') < Ahead(cfg, s.threads[l.t])
  {
  }

  lemma SleepLoopCalms(cfg: Config, s: State, l: Label)
    requires Exclusion(s) && Enabled(s, l) && InSleepLoop(s, l)
    ensures var s' := Step(cfg, s, l);
            Sum(UnrestAt(s'.word), s'.threads) < Sum(UnrestAt(s.word), s.threads)
  {
    var s' := Step(cfg, s, l);
    var th' := s'.threads[l.t];
    assert s'.threads == s.threads[l.t := th'];
    SumUpdate(UnrestAt(s'.word), s.threads, l.t, th');
    SumLe(UnrestAt(s'.word), UnrestAt(s.word), s.threads);
    if s'.word == s.word {
      assert Unrest(s.word, th') < Unrest(s.word, s.threads[l.t]);
    } else {
      assert Unrest(s'.word, th') < Unrest(s'.word, s.threads[l.t]);
    }
  }

  // Every instruction brings the run nearer to its end...
  lemma StepMeasure(cfg: Config, s: State, l: Label)
    requires Inv(cfg, s) && Enabled(s, l) && l.Run?
    ensures Measure(cfg, Step(cfg, s, l)) < Measure(cfg, s)
  {
    hide Step, Sum, Ahead, Unrest, Weigh;
    var s' := Step(cfg, s, l);
    StepThreadsOk(cfg, s, l);
    StepSum(cfg, s, l, AheadOf(cfg)) by {
      SleepersAhead(cfg);
    }
    StepAhead(cfg, s, l);
    if InSleepLoop(s, l) {
      SleepLoopCalms(cfg, s, l);
    }
    MeasureNonNegative(cfg, s);
    MeasureNonNegative(cfg, s');
    WeighOrders(3 * |s.threads|, Sum(AheadOf(cfg), s.threads), Sum(UnrestAt(s.word), s.threads),
                Sum(AheadOf(cfg), s'.threads), Sum(UnrestAt(s'.word), s'.threads));
  }

  lemma SleepersAhead(cfg: Config)
    ensures forall th: Thread :: OnChannel(th) ==> AheadOf(cfg)(th.(pc := Xchg)) == AheadOf(cfg)(th)
  {
  }

  // ... and an expired park puts it back by three at most.
  lemma ExpireMeasure(cfg: Config, s: State, l: Label)
    requires Enabled(s, l) && l.Expire?
    ensures Measure(cfg, Step(cfg, s, l)) == Measure(cfg, s) + 3
  {
    var th' := s.threads[l.t].(pc := MLate);
    SumUpdate(AheadOf(cfg), s.threads, l.t, th');
    SumUpdate(UnrestAt(s.word), s.threads, l.t, th');
  }

  function Instructions(run: seq<Label>): nat {
    if run == [] then 0 else (if run[0].Run? then 1 else 0) + Instructions(run[1..])
  }

  function Expiries(run: seq<Label>): nat {
    if run == [] then 0 else (if run[0].Expire? then 1 else 0) + Expiries(run[1..])
  }

  // Whatever the scheduler does, a run executes a bounded number of
  // instructions for each park that times out; without timeouts every run ends.
  lemma {:induction false} RunsAreBounded(cfg: Config, s: State, run: seq<Label>)
    requires Inv(cfg, s) && IsRun(cfg, s, run)
    ensures Instructions(run) <= Measure(cfg, s) + 3 * Expiries(run)
    ensures Instructions(run) + Measure(cfg, After(cfg, s, run)) <= Measure(cfg, s) + 3 * Expiries(run)
    decreases run
  {
    hide Measure;
    if run == [] {
      MeasureNonNegative(cfg, s);
    } else {
      var l := run[0];
      StepInv(cfg, s, l);
      if l.Run? { StepMeasure(cfg, s, l); } else { ExpireMeasure(cfg, s, l); }
      RunsAreBounded(cfg, Step(cfg, s, l), run[1..]);
    }
  }

  // From any reachable state the program can run to completion.
  lemma {:induction false} CanFinish(cfg: Config, s: State) returns (run: seq<Label>)
    requires Inv(cfg, s)
    ensures IsRun(cfg, s, run) && AllDone(After(cfg, s, run)) && Expiries(run) == 0
    decreases MeasureNat(cfg, s)
  {
    if AllDone(s) {
      run := [];
    } else {
      var l := NoDeadlock(cfg, s);
      var s' := Step(cfg, s, l);
      StepInv(cfg, s, l);
      StepMeasure(cfg, s, l);
      MeasureNonNegative(cfg, s);
      MeasureNonNegative(cfg, s');
      var rest := CanFinish(cfg, s');
      run := [l] + rest;
      assert run[1..] == rest;
    }
  }

  function MeasureNat(cfg: Config, s: State): nat {
    if Measure(cfg, s) < 0 then 0 else Measure(cfg, s)
  }

  // A run that cannot go on by itself is finished, and finished correctly.
  lemma EveryMaximalRunFinishes(cfg: Config, run: seq<Label>)
    requires IsRun(cfg, Init(cfg), run)
    requires forall l: Label :: l.Run? ==> !Enabled(After(cfg, Init(cfg), run), l)
    ensures var s := After(cfg, Init(cfg), run);
            AllDone(s) && s.counter == Norm(cfg.program, cfg.workers * cfg.rounds)
  {
    hide Inv, Step, Enabled;
    InitInv(cfg);
    RunInv(cfg, Init(cfg), run);
    var s := After(cfg, Init(cfg), run);
    if !AllDone(s) {
      var l := NoDeadlock(cfg, s);
    }
    LockedCounterExactAtJoin(cfg, run);
  }

  // ---- the unlocked counter can lose updates ----

  lemma {:induction false} RunConcat(cfg: Config, s: State, a: seq<Label>, b: seq<Label>)
    requires IsRun(cfg, s, a) && IsRun(cfg, After(cfg, s, a), b)
    ensures IsRun(cfg, s, a + b) && After(cfg, s, a + b) == After(cfg, After(cfg, s, a), b)
    decreases a
  {
    if a == [] {
      assert a + b == b;
    } else {
      assert (a + b)[0] == a[0] && (a + b)[1..] == a[1..] + b;
      RunConcat(cfg, Step(cfg, s, a[0]), a[1..], b);
    }
  }

  lemma {:induction false} RunRacyLost(cfg: Config, s: State, run: seq<Label>, d: nat)
    requires RacyLost(s, d) && IsRun(cfg, s, run)
    ensures RacyLost(After(cfg, s, run), d)
    decreases run
  {
    if run != [] {
      StepRacyLost(cfg, s, run[0], d);
      RunRacyLost(cfg, Step(cfg, s, run[0]), run[1..], d);
    }
  }

  // One more instruction at the end of a run.
  lemma RunSnoc(cfg: Config, s: State, run: seq<Label>, l: Label)
    requires IsRun(cfg, s, run) && Enabled(After(cfg, s, run), l)
    ensures IsRun(cfg, s, run + [l]) && After(cfg, s, run + [l]) == Step(cfg, After(cfg, s, run), l)
  {
    hide Step;
    var m := After(cfg, s, run);
    assert [l][1..] == [];
    RunConcat(cfg, s, run, [l]);
  }

  lemma EmptyRun(cfg: Config, s: State)
    ensures IsRun(cfg, s, []) && After(cfg, s, []) == s
  {
  }

  // A worker alone, from the top of its loop to just before it stores into the
  // unlocked counter.
  lemma SoloUpToStore(cfg: Config, s: State, t: nat) returns (run: seq<Label>)
    requires cfg.program == CounterWorker && s.word == 0 && t < |s.threads|
    requires s.threads[t].pc == Loop && s.threads[t].i < cfg.rounds
    ensures IsRun(cfg, s, run)
    ensures After(cfg, s, run)
            == s.(counter := s.counter + 1, threads := s.threads[t := Thread(RStore, s.threads[t].i, s.counter, s.racy)])
  {
    hide IsRun, After;
    var th := s.threads[t];
    var l := Run(t, 0);
    run := [];
    EmptyRun(cfg, s);
    run := Then(cfg, s, run, l, s.(threads := s.threads[t := th.(pc := Cas)]));
    run := Then(cfg, s, run, l, s.(word := 1, threads := s.threads[t := th.(pc := Load)]));
    var th' := th.(reg := s.counter);
    run := Then(cfg, s, run, l, s.(word := 1, threads := s.threads[t := th'.(pc := Store)]));
    var c := s.(counter := s.counter + 1);
    run := Then(cfg, s, run, l, c.(word := 1, threads := s.threads[t := th'.(pc := Unlock)]));
    run := Then(cfg, s, run, l, c.(threads := s.threads[t := th'.(pc := RLoad)]));
    run := Then(cfg, s, run, l, c.(threads := s.threads[t := th'.(pc := RStore, racyReg := s.racy)]));
  }

  lemma Then(cfg: Config, s: State, run: seq<Label>, l: Label, s': State) returns (longer: seq<Label>)
    requires IsRun(cfg, s, run) && Enabled(After(cfg, s, run), l)
    requires Step(cfg, After(cfg, s, run), l) == s'
    ensures IsRun(cfg, s, longer) && After(cfg, s, longer) == s'
  {
    hide Step;
    longer := run + [l];
    RunSnoc(cfg, s, run, l);
  }

  // Both pending stores of the same old value land.
  lemma BothStore(cfg: Config, s: State) returns (run: seq<Label>)
    requires |s.threads| >= 2
    requires s.threads[0].pc == RStore && s.threads[1].pc == RStore
    requires s.threads[0].racyReg == s.threads[1].racyReg
    ensures IsRun(cfg, s, run)
    ensures var a, b := s.threads[0], s.threads[1];
            After(cfg, s, run)
            == s.(racy := a.racyReg + 1,
                  threads := s.threads[0 := a.(pc := Loop, i := a.i + 1)][1 := b.(pc := Loop, i := b.i + 1)])
  {
    var a, b := s.threads[0], s.threads[1];
    var m := s.(racy := a.racyReg + 1, threads := s.threads[0 := a.(pc := Loop, i := a.i + 1)]);
    run := Then(cfg, s, [], Run(0, 0), m);
    run := Then(cfg, s, run, Run(1, 0), m.(threads := m.threads[1 := b.(pc := Loop, i := b.i + 1)]));
  }

  // Two workers that both read the unlocked counter before either stores.
  lemma LoseOneUpdate(cfg: Config) returns (run: seq<Label>)
    requires cfg.program == CounterWorker && cfg.workers >= 2 && cfg.rounds >= 1
    ensures IsRun(cfg, Init(cfg), run) && RacyLost(After(cfg, Init(cfg), run), 1)
  {
    hide Step, IsRun, After;
    var s0 := Init(cfg);
    var a := SoloUpToStore(cfg, s0, 0);
    var s1 := After(cfg, s0, a);
    var b := SoloUpToStore(cfg, s1, 1);
    RunConcat(cfg, s0, a, b);
    var s2 := After(cfg, s0, a + b);
    var c := BothStore(cfg, s2);
    RunConcat(cfg, s0, a + b, c);
    run := a + b + c;
    var s := After(cfg, s0, run);
    var first, second := Thread(Loop, 1, 0, 0), Thread(Loop, 1, 1, 0);
    assert s.threads == s0.threads[0 := first][1 := second];
    SumBounds(Stores, s0.threads, 0, 0);
    SumUpdate(Stores, s0.threads, 0, first);
    SumUpdate(Stores, s0.threads[0 := first], 1, second);
  }

  // Some complete run leaves the unlocked counter strictly short while the
  // locked one is exact.
  lemma UnlockedCounterCanFallShort(cfg: Config) returns (run: seq<Label>)
    requires cfg.program == CounterWorker && cfg.workers >= 2 && cfg.rounds >= 1
    ensures IsRun(cfg, Init(cfg), run)
    ensures var s := After(cfg, Init(cfg), run);
            && AllDone(s)
            && s.counter == cfg.workers * cfg.rounds
            && s.racy < cfg.workers * cfg.rounds
  {
    hide Step, Sum;
    var s0 := Init(cfg);
    var a := LoseOneUpdate(cfg);
    var s1 := After(cfg, s0, a);
    InitInv(cfg);
    RunInv(cfg, s0, a);
    var b := CanFinish(cfg, s1);
    RunConcat(cfg, s0, a, b);
    run := a + b;
    var s := After(cfg, s0, run);
    RunRacyLost(cfg, s1, b, 1);
    LockedCounterExactAtJoin(cfg, run);
    RunInv(cfg, s0, run);
    DoneTotals(cfg, s);
  }

  // ---- what each worker does, counted along the run ----

  // The label is thread t executing the instruction at pc.
  predicate Executes(s: State, l: Label, t: nat, pc: Pc) {
    l.Run? && l.t == t && t < |s.threads| && s.threads[t].pc == pc
  }

  // How often along a run thread t executes the instruction at pc.
  function Times(cfg: Config, s: State, run: seq<Label>, t: nat, pc: Pc): nat
    requires IsRun(cfg, s, run)
    decreases run
  {
    if run == [] then 0
    else (if Executes(s, run[0], t, pc) then 1 else 0) + Times(cfg, Step(cfg, s, run[0]), run[1..], t, pc)
  }

  lemma StepProgress(cfg: Config, s: State, l: Label, t: nat)
    requires Enabled(s, l) && t < |s.threads|
    ensures var s' := Step(cfg, s, l);
            && |s'.threads| == |s.threads|
            && Incs(s'.threads[t]) == Incs(s.threads[t]) + (if Executes(s, l, t, Store) then 1 else 0)
            && (cfg.program == CounterWorker
                ==> s'.threads[t].i == s.threads[t].i + (if Executes(s, l, t, RStore) then 1 else 0))
  {
    hide Norm;
    StepFrame(cfg, s, l);
  }

  lemma {:induction false} RunProgress(cfg: Config, s: State, run: seq<Label>, t: nat)
    requires IsRun(cfg, s, run) && t < |s.threads|
    ensures var s' := After(cfg, s, run);
            && |s'.threads| == |s.threads|
            && Incs(s'.threads[t]) == Incs(s.threads[t]) + Times(cfg, s, run, t, Store)
            && (cfg.program == CounterWorker ==> s'.threads[t].i == s.threads[t].i + Times(cfg, s, run, t, RStore))
    decreases run
  {
    hide Step, Incs, Enabled, Executes;
    if run != [] {
      StepProgress(cfg, s, run[0], t);
      RunProgress(cfg, Step(cfg, s, run[0]), run[1..], t);
    }
  }

  // Rounds are made of instructions: in every run a worker has completed as
  // many rounds as it has stored into the unlocked counter, and is credited
  // with as many locked increments as it has stored under the lock. Neither
  // increment is ever skipped, contended or not.
  lemma RoundsAreStores(cfg: Config, run: seq<Label>, t: nat)
    requires IsRun(cfg, Init(cfg), run) && t < cfg.workers
    ensures var s := After(cfg, Init(cfg), run);
            && |s.threads| == cfg.workers
            && Times(cfg, Init(cfg), run, t, Store) == Incs(s.threads[t])
            && (cfg.program == CounterWorker ==> Times(cfg, Init(cfg), run, t, RStore) == s.threads[t].i)
  {
    hide Step, IsRun, After, Times;
    RunProgress(cfg, Init(cfg), run, t);
  }

  // A worker that has returned has made each of its increments exactly
  // `rounds` times.
  lemma ReturnedWorkersDidEveryRound(cfg: Config, run: seq<Label>, t: nat)
    requires IsRun(cfg, Init(cfg), run) && t < cfg.workers
    requires t < |After(cfg, Init(cfg), run).threads| && After(cfg, Init(cfg), run).threads[t].pc == Done
    ensures Times(cfg, Init(cfg), run, t, Store) == cfg.rounds
    ensures cfg.program == CounterWorker ==> Times(cfg, Init(cfg), run, t, RStore) == cfg.rounds
  {
    hide Step, IsRun, After, Times, Exclusion, NoLostWakeup, CounterOk, RacyLost;
    InitInv(cfg);
    RunInv(cfg, Init(cfg), run);
    RoundsAreStores(cfg, run, t);
  }

  // ---- exactly when the unlocked counter is exact ----

  // Nobody else is between reading the unlocked counter and storing it.
  predicate Alone(s: State, t: nat) {
    forall k :: 0 <= k < |s.threads| && k != t ==> s.threads[k].pc != RStore
  }

  // No thread stores into the unlocked counter while another is between its
  // load and its store.
  predicate Undisturbed(cfg: Config, s: State, run: seq<Label>)
    requires IsRun(cfg, s, run)
    decreases run
  {
    run == [] ||
    (&& (Executes(s, run[0], run[0].t, RStore) ==> Alone(s, run[0].t))
     && Undisturbed(cfg, Step(cfg, s, run[0]), run[1..]))
  }

  // The unlocked counter and every pending copy of it are up to date.
  predicate RacyExact(s: State) {
    && s.racy == Sum(Stores, s.threads)
    && forall t :: 0 <= t < |s.threads| && s.threads[t].pc == RStore ==> s.threads[t].racyReg == s.racy
  }

  lemma StepRacyExact(cfg: Config, s: State, l: Label)
    requires cfg.program == CounterWorker && RacyExact(s) && Enabled(s, l)
    requires Executes(s, l, l.t, RStore) ==> Alone(s, l.t)
    ensures RacyExact(Step(cfg, s, l))
  {
    hide Step, Sum;
    StepFrame(cfg, s, l);
    StepRacy(cfg, s, l);
    StepSum(cfg, s, l, Stores);
    StepProgress(cfg, s, l, l.t);
  }

  lemma {:induction false} UndisturbedIsExact(cfg: Config, s: State, run: seq<Label>)
    requires cfg.program == CounterWorker && RacyExact(s) && IsRun(cfg, s, run) && Undisturbed(cfg, s, run)
    ensures RacyExact(After(cfg, s, run))
    decreases run
  {
    hide Step, RacyExact;
    if run != [] {
      StepRacyExact(cfg, s, run[0]);
      UndisturbedIsExact(cfg, Step(cfg, s, run[0]), run[1..]);
    }
  }

  // An update is lost, or somebody holds a stale copy and is going to lose one.
  predicate Doomed(s: State) {
    && RacyLost(s, 0)
    && (RacyLost(s, 1) || exists t :: 0 <= t < |s.threads| && s.threads[t].pc == RStore
                                      && s.threads[t].racyReg + 1 <= Sum(Stores, s.threads))
  }

  lemma StepDoomed(cfg: Config, s: State, l: Label)
    requires Doomed(s) && Enabled(s, l)
    ensures Doomed(Step(cfg, s, l))
  {
    hide Step, Sum;
    var s' := Step(cfg, s, l);
    StepRacyLost(cfg, s, l, 0);
    if RacyLost(s, 1) {
      StepRacyLost(cfg, s, l, 1);
    } else {
      var t :| 0 <= t < |s.threads| && s.threads[t].pc == RStore && s.threads[t].racyReg + 1 <= Sum(Stores, s.threads);
      StepFrame(cfg, s, l);
      StepRacy(cfg, s, l);
      StepSum(cfg, s, l, Stores);
      if t == l.t {
        assert RacyLost(s', 1);
      } else {
        assert s'.threads[t] == s.threads[t];
      }
    }
  }

  // A store past somebody's pending copy makes that copy stale.
  lemma DisturbingDooms(cfg: Config, s: State, l: Label)
    requires RacyLost(s, 0) && Enabled(s, l) && Executes(s, l, l.t, RStore) && !Alone(s, l.t)
    ensures Doomed(Step(cfg, s, l))
  {
    hide Step, Sum;
    var s' := Step(cfg, s, l);
    var t :| 0 <= t < |s.threads| && t != l.t && s.threads[t].pc == RStore;
    StepRacyLost(cfg, s, l, 0);
    StepFrame(cfg, s, l);
    StepRacy(cfg, s, l);
    StepSum(cfg, s, l, Stores);
    assert s'.threads[t] == s.threads[t];
  }

  lemma {:induction false} RunDoomed(cfg: Config, s: State, run: seq<Label>)
    requires Doomed(s) && IsRun(cfg, s, run)
    ensures Doomed(After(cfg, s, run))
    decreases run
  {
    hide Step, Doomed;
    if run != [] {
      StepDoomed(cfg, s, run[0]);
      RunDoomed(cfg, Step(cfg, s, run[0]), run[1..]);
    }
  }

  lemma {:induction false} DisturbedIsDoomed(cfg: Config, s: State, run: seq<Label>)
    requires RacyLost(s, 0) && IsRun(cfg, s, run) && !Undisturbed(cfg, s, run)
    ensures Doomed(After(cfg, s, run))
    decreases run
  {
    hide Step, Doomed, RacyLost, Alone, Executes;
    var l := run[0];
    if Executes(s, l, l.t, RStore) && !Alone(s, l.t) {
      DisturbingDooms(cfg, s, l);
      RunDoomed(cfg, Step(cfg, s, l), run[1..]);
    } else {
      StepRacyLost(cfg, s, l, 0);
      DisturbedIsDoomed(cfg, Step(cfg, s, l), run[1..]);
    }
  }

  // For every complete run, the unlocked counter reaches the full total if and
  // only if no store ever fell between another worker's load and store.
  lemma UnlockedCounterExactIffUndisturbed(cfg: Config, run: seq<Label>)
    requires cfg.program == CounterWorker && IsRun(cfg, Init(cfg), run) && AllDone(After(cfg, Init(cfg), run))
    ensures After(cfg, Init(cfg), run).racy == cfg.workers * cfg.rounds <==> Undisturbed(cfg, Init(cfg), run)
  {
    hide Step, Sum, IsRun, After, Undisturbed, Exclusion, NoLostWakeup, CounterOk;
    var s0 := Init(cfg);
    var s := After(cfg, s0, run);
    InitInv(cfg);
    RunInv(cfg, s0, run);
    DoneTotals(cfg, s);
    if Undisturbed(cfg, s0, run) {
      SumBounds(Stores, s0.threads, 0, 0);
      UndisturbedIsExact(cfg, s0, run);
    } else {
      DisturbedIsDoomed(cfg, s0, run);
    }
  }

  // ---- an uncontended lock never enters the kernel ----

  // No thread ever finds the lock taken.
  predicate Uncontended(cfg: Config, s: State, run: seq<Label>)
    requires IsRun(cfg, s, run)
    decreases run
  {
    run == [] ||
    (!Executes(s, run[0], run[0].t, Xchg) && Uncontended(cfg, Step(cfg, s, run[0]), run[1..]))
  }

  predicate Quiet(s: State) {
    s.word != 2 && forall t :: 0 <= t < |s.threads| ==> s.threads[t].pc != Wake
  }

  lemma StepQuiet(cfg: Config, s: State, l: Label)
    requires Quiet(s) && Enabled(s, l) && !Executes(s, l, l.t, Xchg)
    ensures Quiet(Step(cfg, s, l))
  {
    hide Norm;
    StepFrame(cfg, s, l);
  }

  // As long as nobody had to queue, the word is never 2 and no wake is ever
  // issued: the third state costs nothing where it is not needed.
  lemma {:induction false} UncontendedNeverWakes(cfg: Config, s: State, run: seq<Label>, t: nat)
    requires Quiet(s) && IsRun(cfg, s, run) && Uncontended(cfg, s, run)
    ensures Quiet(After(cfg, s, run)) && Times(cfg, s, run, t, Wake) == 0
    decreases run
  {
    hide Step;
    if run != [] {
      StepQuiet(cfg, s, run[0]);
      UncontendedNeverWakes(cfg, Step(cfg, s, run[0]), run[1..], t);
    }
  }
}
