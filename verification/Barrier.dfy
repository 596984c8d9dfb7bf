// barrier_worker of apps/threadtest.c over the barrier of libc/pthread.c, one
// atomic instruction at a time, for any number of threads and any number of
// rounds through the same barrier. The barrier is an arrival count and a
// generation number, and the generation is a 32-bit word that wraps.
module Barrier {
  import opened Sums

  const WORD: nat := 0x1_0000_0000

  // What a 32-bit word keeps of a number.
  function Wrap(n: nat): (w: nat)
    ensures n < WORD ==> w == n
  {
    n % WORD
  }

  // One release moves the generation word, and moves it to the next one.
  lemma WrapNext(n: nat)
    ensures Wrap(n + 1) == Wrap(Wrap(n) + 1)
    ensures Wrap(n + 1) != Wrap(n)
  {
  }

  datatype Config = Config(workers: nat, rounds: nat)

  predicate ValidConfig(cfg: Config) {
    1 <= cfg.workers < WORD
  }

  datatype Pc =
    | Enter       // top of the round
    | AddBefore   // barrier_before += 1
    | LoadGen     // gen = seq
    | AddCount    // n = ++count; the last to arrive goes on to Reset
    | Reset       // count = 0
    | Bump        // seq += 1
    | WakeAll     // futex wake, everybody
    | Test        // while (seq == gen)
    | Futex       // futex wait, expecting gen
    | Park        // asleep on seq
    | LoadBefore  // seen = barrier_before
    | AddAfter    // barrier_after += 1
    | Done

  datatype Thread = Thread(pc: Pc, round: nat, gen: nat)

  // releases counts the generations ever completed; seq is what the machine
  // keeps of it.
  datatype State = State(count: nat, seqno: nat, before: int, after: int, releases: nat, threads: seq<Thread>)

  datatype Label = Run(t: nat) | Expire(t: nat)

  function Init(cfg: Config): State {
    State(0, 0, 0, 0, 0, seq(cfg.workers, _ => Thread(Enter, 0, 0)))
  }

  predicate Enabled(s: State, l: Label) {
    && l.t < |s.threads|
    && (l.Run? ==> s.threads[l.t].pc != Park && s.threads[l.t].pc != Done)
    && (l.Expire? ==> s.threads[l.t].pc == Park)
  }

  function Woken(th: Thread): Thread {
    if th.pc == Park then th.(pc := Test) else th
  }

  function WokenAll(ts: seq<Thread>): seq<Thread> {
    seq(|ts|, k requires 0 <= k < |ts| => Woken(ts[k]))
  }

  function NextRound(th: Thread): Thread {
    th.(pc := Enter, round := th.round + 1)
  }

  // What one step makes of the thread that takes it.
  function Mine(cfg: Config, s: State, l: Label): Thread
    requires Enabled(s, l)
  {
    var th := s.threads[l.t];
    match th.pc
    case Enter => th.(pc := if th.round < cfg.rounds then AddBefore else Done)
    case AddBefore => th.(pc := LoadGen)
    case LoadGen => th.(pc := AddCount, gen := s.seqno)
    case AddCount => th.(pc := if Wrap(s.count + 1) >= cfg.workers then Reset else Test)
    case Reset => th.(pc := Bump)
    case Bump => th.(pc := WakeAll)
    case WakeAll => th.(pc := LoadBefore)
    case Test => th.(pc := if s.seqno == th.gen then Futex else LoadBefore)
    case Futex => th.(pc := if s.seqno == th.gen then Park else Test)
    case Park => th.(pc := Test)
    case LoadBefore => if s.before == cfg.workers then th.(pc := AddAfter) else NextRound(th)
    case AddAfter => NextRound(th)
    case Done => th
  }

  function Step(cfg: Config, s: State, l: Label): State
    requires Enabled(s, l)
  {
    var pc := s.threads[l.t].pc;
    var ts := if pc == WakeAll then WokenAll(s.threads) else s.threads;
    State(
      if pc == AddCount then Wrap(s.count + 1) else if pc == Reset then 0 else s.count,
      if pc == Bump then Wrap(s.seqno + 1) else s.seqno,
      if pc == AddBefore then s.before + 1 else s.before,
      if pc == AddAfter then s.after + 1 else s.after,
      if pc == Bump then s.releases + 1 else s.releases,
      ts[l.t := Mine(cfg, s, l)])
  }

  predicate IsRun(cfg: Config, s: State, run: seq<Label>)
    decreases run
  {
    run == [] || (Enabled(s, run[0]) && IsRun(cfg, Step(cfg, s, run[0]), run[1..]))
  }

  function After(cfg: Config, s: State, run: seq<Label>): State
    requires IsRun(cfg, s, run)
    decreases run
  {
    if run == [] then s else After(cfg, Step(cfg, s, run[0]), run[1..])
  }

  predicate AllDone(s: State) {
    forall t :: 0 <= t < |s.threads| ==> s.threads[t].pc == Done
  }

  // ---- the invariant ----

  predicate InWait(th: Thread) {
    th.pc == Test || th.pc == Futex || th.pc == Park
  }

  // Arrived in the generation that is still open.
  predicate Waiting(g: nat, th: Thread) {
    InWait(th) && th.round == g
  }

  // The thread that completed the count and has not yet opened the barrier.
  predicate Last(th: Thread) {
    th.pc == Reset || th.pc == Bump
  }

  // Which round a thread may be in, given how many generations were released.
  predicate ThreadOk(cfg: Config, g: nat, th: Thread) {
    && th.round <= cfg.rounds
    && (th.pc == Done ==> th.round == cfg.rounds)
    && (th.pc != Enter && th.pc != Done ==> th.round < cfg.rounds)
    && (th.pc == AddCount || InWait(th) ==> th.gen == Wrap(th.round))
    && (match th.pc
        case Test => th.round == g || th.round + 1 == g
        case Futex => th.round == g || th.round + 1 == g
        case Park => th.round == g || th.round + 1 == g
        case WakeAll => th.round + 1 == g
        case LoadBefore => th.round + 1 == g
        case AddAfter => th.round + 1 == g
        case _ => th.round == g)
  }

  predicate ThreadsOk(cfg: Config, s: State) {
    && ValidConfig(cfg) && |s.threads| == cfg.workers
    && s.seqno == Wrap(s.releases)
    && forall k :: 0 <= k < |s.threads| ==> ThreadOk(cfg, s.releases, s.threads[k])
  }

  function Arrived(g: nat): Thread -> int {
    (th: Thread) => if Waiting(g, th) || Last(th) then 1 else 0
  }

  predicate NoLast(s: State) {
    forall k :: 0 <= k < |s.threads| ==> !Last(s.threads[k])
  }

  // The count is the number of arrivals in the open generation, short of the
  // total until somebody completes it; then everybody else is waiting.
  predicate CountOk(s: State) {
    && (NoLast(s) ==> s.count == Sum(Arrived(s.releases), s.threads) < |s.threads|)
    && (forall k :: 0 <= k < |s.threads| && s.threads[k].pc == Bump ==> s.count == 0)
    && (forall k, j :: 0 <= k < |s.threads| && 0 <= j < |s.threads| && k != j && Last(s.threads[k])
                       ==> Waiting(s.releases, s.threads[j]))
  }

  // No lost wakeup: a thread asleep in a released generation is about to be
  // woken.
  predicate NoLostWakeup(s: State) {
    (exists t :: 0 <= t < |s.threads| && s.threads[t].pc == Park && s.threads[t].round != s.releases)
    ==> exists u :: 0 <= u < |s.threads| && s.threads[u].pc == WakeAll
  }

  // Increments of barrier_before a thread has made.
  function Befores(th: Thread): int {
    th.round + (if th.pc == Enter || th.pc == AddBefore || th.pc == Done then 0 else 1)
  }

  function Rounds(th: Thread): int {
    th.round
  }

  predicate TotalsOk(cfg: Config, s: State) {
    && s.before == Sum(Befores, s.threads)
    && (cfg.rounds == 1 ==> s.after == Sum(Rounds, s.threads))
  }

  predicate Inv(cfg: Config, s: State) {
    ThreadsOk(cfg, s) && CountOk(s) && NoLostWakeup(s) && TotalsOk(cfg, s)
  }

  lemma InitInv(cfg: Config)
    requires ValidConfig(cfg)
    ensures Inv(cfg, Init(cfg))
  {
    var s := Init(cfg);
    SumBounds(Arrived(0), s.threads, 0, 0);
    SumBounds(Befores, s.threads, 0, 0);
    SumBounds(Rounds, s.threads, 0, 0);
  }

  // A step touches the thread that takes it; a wake may also move the others
  // from Park to Test.
  lemma StepFrame(cfg: Config, s: State, l: Label)
    requires Enabled(s, l)
    ensures var ts := Step(cfg, s, l).threads;
            && |ts| == |s.threads|
            && ts[l.t] == Mine(cfg, s, l)
            && (forall k :: 0 <= k < |ts| && k != l.t
                            ==> ts[k] == if s.threads[l.t].pc == WakeAll then Woken(s.threads[k]) else s.threads[k])
  {
  }

  lemma StepSum(cfg: Config, s: State, l: Label, f: Thread -> int)
    requires Enabled(s, l)
    requires forall th: Thread :: f(Woken(th)) == f(th)
    ensures Sum(f, Step(cfg, s, l).threads) == Sum(f, s.threads) - f(s.threads[l.t]) + f(Mine(cfg, s, l))
  {
    if s.threads[l.t].pc == WakeAll {
      var ts := WokenAll(s.threads);
      SumSame(f, s.threads, ts);
      SumUpdate(f, ts, l.t, Mine(cfg, s, l));
    } else {
      SumUpdate(f, s.threads, l.t, Mine(cfg, s, l));
    }
  }

  // A waiting thread finds the word changed exactly when its generation was
  // released: the wrap-around cannot confuse the two.
  lemma SeesRelease(cfg: Config, s: State, k: nat)
    requires ThreadsOk(cfg, s) && k < |s.threads| && InWait(s.threads[k])
    ensures s.seqno == s.threads[k].gen <==> s.threads[k].round == s.releases
  {
    hide Wrap;
    assert ThreadOk(cfg, s.releases, s.threads[k]);
    WrapNext(s.threads[k].round);
  }

  lemma StepMineOk(cfg: Config, s: State, l: Label)
    requires ThreadsOk(cfg, s) && Enabled(s, l)
    ensures ThreadOk(cfg, Step(cfg, s, l).releases, Mine(cfg, s, l))
  {
    hide Wrap;
    assert ThreadOk(cfg, s.releases, s.threads[l.t]);
    if InWait(s.threads[l.t]) {
      SeesRelease(cfg, s, l.t);
    }
  }

  lemma StepThreadsOk(cfg: Config, s: State, l: Label)
    requires ThreadsOk(cfg, s) && CountOk(s) && Enabled(s, l)
    ensures ThreadsOk(cfg, Step(cfg, s, l))
  {
    hide Wrap, Mine;
    var s' := Step(cfg, s, l);
    StepFrame(cfg, s, l);
    StepMineOk(cfg, s, l);
    WrapNext(s.releases);
    forall k | 0 <= k < |s'.threads| && k != l.t
      ensures ThreadOk(cfg, s'.releases, s'.threads[k])
    {
      assert ThreadOk(cfg, s.releases, s.threads[k]);
      if s.threads[l.t].pc == Bump {
        assert Waiting(s.releases, s.threads[k]);
      }
    }
  }

  lemma StepNoLostWakeup(cfg: Config, s: State, l: Label)
    requires ThreadsOk(cfg, s) && NoLostWakeup(s) && Enabled(s, l)
    ensures NoLostWakeup(Step(cfg, s, l))
  {
    hide Wrap;
    var s' := Step(cfg, s, l);
    var th := s.threads[l.t];
    StepFrame(cfg, s, l);
    if th.pc == Bump {
      assert s'.threads[l.t].pc == WakeAll;
    } else if th.pc != WakeAll {
      if t :| 0 <= t < |s'.threads| && s'.threads[t].pc == Park && s'.threads[t].round != s'.releases {
        if t == l.t {
          SeesRelease(cfg, s, t);
        } else {
          assert s.threads[t] == s'.threads[t];
          var u :| 0 <= u < |s.threads| && s.threads[u].pc == WakeAll;
          assert s'.threads[u].pc == WakeAll;
        }
      }
    }
  }

  lemma StepTotalsOk(cfg: Config, s: State, l: Label)
    requires ThreadsOk(cfg, s) && TotalsOk(cfg, s) && Enabled(s, l)
    ensures TotalsOk(cfg, Step(cfg, s, l))
  {
    hide Wrap, Sum;
    StepSum(cfg, s, l, Befores);
    StepSum(cfg, s, l, Rounds);
    assert ThreadOk(cfg, s.releases, s.threads[l.t]);
    if cfg.rounds == 1 && s.threads[l.t].pc == LoadBefore {
      BeforeBounds(cfg, s);
      AllArrivedOnce(cfg, s);
    }
  }

  // Every thread has entered each released generation, and at most one more.
  lemma BeforeBounds(cfg: Config, s: State)
    requires ThreadsOk(cfg, s)
    ensures s.releases * cfg.workers <= Sum(Befores, s.threads) <= (s.releases + 1) * cfg.workers
  {
    hide Wrap, Sum;
    forall k | 0 <= k < |s.threads|
      ensures s.releases <= Befores(s.threads[k]) <= s.releases + 1
    {
      assert ThreadOk(cfg, s.releases, s.threads[k]);
    }
    SumBounds(Befores, s.threads, s.releases, s.releases + 1);
  }

  // With a single round, once it is released everybody has been counted.
  lemma AllArrivedOnce(cfg: Config, s: State)
    requires ThreadsOk(cfg, s) && cfg.rounds == 1 && s.releases == 1
    ensures Sum(Befores, s.threads) == cfg.workers
  {
    hide Wrap, Sum;
    forall k | 0 <= k < |s.threads|
      ensures Befores(s.threads[k]) == 1
    {
      assert ThreadOk(cfg, s.releases, s.threads[k]);
    }
    SumBounds(Befores, s.threads, 1, 1);
  }

  // The one who completes the count: everybody else must be waiting.
  lemma StepCountOkArrive(cfg: Config, s: State, l: Label)
    requires ThreadsOk(cfg, s) && CountOk(s) && Enabled(s, l) && s.threads[l.t].pc == AddCount
    ensures CountOk(Step(cfg, s, l))
  {
    hide Wrap, Sum;
    var s' := Step(cfg, s, l);
    var g := s.releases;
    StepFrame(cfg, s, l);
    assert NoLast(s);
    assert ThreadOk(cfg, g, s.threads[l.t]);
    StepSum(cfg, s, l, Arrived(g));
    assert Sum(Arrived(g), s'.threads) == s'.count == s.count + 1;
    if s'.count >= cfg.workers {
      forall j | 0 <= j < |s'.threads| && j != l.t
        ensures Waiting(g, s'.threads[j])
      {
        SumMaximal(Arrived(g), s'.threads, 1, j);
      }
    }
  }

  // Opening the barrier empties the new generation.
  lemma StepCountOkOpen(cfg: Config, s: State, l: Label)
    requires CountOk(s) && Enabled(s, l) && s.threads[l.t].pc == Bump
    ensures CountOk(Step(cfg, s, l))
  {
    hide Wrap, Sum;
    var s' := Step(cfg, s, l);
    StepFrame(cfg, s, l);
    forall k | 0 <= k < |s'.threads|
      ensures Arrived(s'.releases)(s'.threads[k]) == 0
    {
      if k != l.t {
        assert Waiting(s.releases, s.threads[k]);
      }
    }
    SumBounds(Arrived(s'.releases), s'.threads, 0, 0);
  }

  // Any other step leaves arrivals where they are.
  lemma StepCountOkOther(cfg: Config, s: State, l: Label)
    requires ThreadsOk(cfg, s) && CountOk(s) && Enabled(s, l)
    requires s.threads[l.t].pc != AddCount && s.threads[l.t].pc != Bump
    ensures CountOk(Step(cfg, s, l))
  {
    hide Wrap, Sum;
    var s' := Step(cfg, s, l);
    var g := s.releases;
    StepFrame(cfg, s, l);
    assert ThreadOk(cfg, g, s.threads[l.t]);
    if InWait(s.threads[l.t]) {
      SeesRelease(cfg, s, l.t);
    }
    assert forall k :: 0 <= k < |s.threads| ==> Waiting(g, s'.threads[k]) == Waiting(g, s.threads[k]);
    assert forall k :: 0 <= k < |s.threads| ==> Last(s'.threads[k]) == Last(s.threads[k]);
    StepSum(cfg, s, l, Arrived(g));
  }

  // Every instruction of every thread, and every expiry, keeps the invariant.
  lemma StepInv(cfg: Config, s: State, l: Label)
    requires Inv(cfg, s) && Enabled(s, l)
    ensures Inv(cfg, Step(cfg, s, l))
  {
    hide Step, ThreadsOk, CountOk, NoLostWakeup, TotalsOk;
    StepThreadsOk(cfg, s, l);
    StepNoLostWakeup(cfg, s, l);
    StepTotalsOk(cfg, s, l);
    if s.threads[l.t].pc == AddCount {
      StepCountOkArrive(cfg, s, l);
    } else if s.threads[l.t].pc == Bump {
      StepCountOkOpen(cfg, s, l);
    } else {
      StepCountOkOther(cfg, s, l);
    }
  }

  // ---- safety over whole runs ----

  lemma {:induction false} RunInv(cfg: Config, s: State, run: seq<Label>)
    requires Inv(cfg, s) && IsRun(cfg, s, run)
    ensures Inv(cfg, After(cfg, s, run))
    decreases run
  {
    if run != [] {
      StepInv(cfg, s, run[0]);
      RunInv(cfg, Step(cfg, s, run[0]), run[1..]);
    }
  }

  // A thread has arrived at the barrier in round r.
  predicate HasArrived(th: Thread, r: nat) {
    || th.round > r
    || (th.round == r && th.pc != Enter && th.pc != AddBefore && th.pc != LoadGen && th.pc != AddCount && th.pc != Done)
  }

  // A thread is past the barrier in round r.
  predicate HasLeft(th: Thread, r: nat) {
    th.round > r || (th.round == r && (th.pc == LoadBefore || th.pc == AddAfter))
  }

  lemma LeftImpliesArrived(cfg: Config, s: State, a: nat, b: nat, r: nat)
    requires ThreadsOk(cfg, s) && a < cfg.workers && b < cfg.workers
    requires HasLeft(s.threads[a], r)
    ensures s.releases > r && HasArrived(s.threads[b], r)
  {
    hide Wrap;
    assert ThreadOk(cfg, s.releases, s.threads[a]);
    assert ThreadOk(cfg, s.releases, s.threads[b]);
  }

  lemma MoreRounds(a: nat, b: nat, n: nat)
    requires a <= b
    ensures a * n <= b * n
  {
  }

  // In any interleaving, through any number of rounds, nobody leaves the
  // barrier before everybody has arrived at it, and nobody past it can read a
  // `before` count below the total of that round.
  lemma NobodyLeavesEarly(cfg: Config, run: seq<Label>, a: nat, b: nat, r: nat)
    requires ValidConfig(cfg) && IsRun(cfg, Init(cfg), run)
    requires a < cfg.workers && b < cfg.workers
    ensures var s := After(cfg, Init(cfg), run);
            && |s.threads| == cfg.workers
            && (HasLeft(s.threads[a], r) ==> HasArrived(s.threads[b], r) && s.before >= (r + 1) * cfg.workers)
  {
    hide Step, Sum, IsRun, After, ThreadOk, HasLeft, HasArrived;
    InitInv(cfg);
    RunInv(cfg, Init(cfg), run);
    var s := After(cfg, Init(cfg), run);
    if HasLeft(s.threads[a], r) {
      LeftImpliesArrived(cfg, s, a, b, r);
      BeforeBounds(cfg, s);
      MoreRounds(r + 1, s.releases, cfg.workers);
    }
  }

  // barrier_worker: with one round, once all have returned, every one of them
  // saw the full count.
  lemma EverybodySawEverybody(cfg: Config, run: seq<Label>)
    requires ValidConfig(cfg) && cfg.rounds == 1
    requires IsRun(cfg, Init(cfg), run) && AllDone(After(cfg, Init(cfg), run))
    ensures After(cfg, Init(cfg), run).after == cfg.workers
  {
    InitInv(cfg);
    RunInv(cfg, Init(cfg), run);
    var s := After(cfg, Init(cfg), run);
    forall k | 0 <= k < |s.threads|
      ensures Rounds(s.threads[k]) == 1
    {
      assert ThreadOk(cfg, s.releases, s.threads[k]);
    }
    SumBounds(Rounds, s.threads, 1, 1);
  }

  // ---- no deadlock ----

  lemma AllAsleepMeansAllDone(cfg: Config, s: State)
    requires Inv(cfg, s)
    requires forall k :: 0 <= k < |s.threads| ==> s.threads[k].pc == Done || s.threads[k].pc == Park
    ensures AllDone(s)
  {
    hide Wrap, Sum;
    if t :| 0 <= t < |s.threads| && s.threads[t].pc == Park {
      assert forall k :: 0 <= k < |s.threads| && s.threads[k].pc == Park ==> s.threads[k].round == s.releases;
      assert ThreadOk(cfg, s.releases, s.threads[t]);
      forall k | 0 <= k < |s.threads|
        ensures Arrived(s.releases)(s.threads[k]) == 1
      {
        assert ThreadOk(cfg, s.releases, s.threads[k]);
      }
      SumBounds(Arrived(s.releases), s.threads, 1, 1);
    }
  }

  // Unless everybody has returned, some thread can take a step of its own: no
  // state depends on a park timing out.
  lemma NoDeadlock(cfg: Config, s: State) returns (l: Label)
    requires Inv(cfg, s) && !AllDone(s)
    ensures l.Run? && Enabled(s, l)
  {
    hide Inv;
    assert exists t :: 0 <= t < |s.threads| && s.threads[t].pc != Done && s.threads[t].pc != Park by {
      if forall k :: 0 <= k < |s.threads| ==> s.threads[k].pc == Done || s.threads[k].pc == Park {
        AllAsleepMeansAllDone(cfg, s);
      }
    }
    var t :| 0 <= t < |s.threads| && s.threads[t].pc != Done && s.threads[t].pc != Park;
    l := Run(t);
  }

  // ---- termination ----

  // Instructions a thread still has to get through, counting the wait loop as
  // one place.
  function Ahead(cfg: Config, th: Thread): int {
    12 * (cfg.rounds - th.round) +
    (match th.pc
     case Enter => 11
     case AddBefore => 10
     case LoadGen => 9
     case AddCount => 8
     case Reset => 7
     case Bump => 6
     case WakeAll => 5
     case Test => 4
     case Futex => 4
     case Park => 4
     case LoadBefore => 2
     case AddAfter => 1
     case Done => 0)
  }

  // How far a thread is from leaving the wait loop, or from sleeping in it.
  function Unrest(seqno: nat, th: Thread): int {
    match th.pc
    case Test => if th.gen == seqno then 2 else 3
    case Futex => if th.gen == seqno then 1 else 4
    case _ => 0
  }

  function AheadOf(cfg: Config): Thread -> int {
    (th: Thread) => Ahead(cfg, th)
  }

  function UnrestAt(seqno: nat): Thread -> int {
    (th: Thread) => Unrest(seqno, th)
  }

  function Measure(cfg: Config, s: State): int {
    Weigh(4 * |s.threads|, Sum(AheadOf(cfg), s.threads), Sum(UnrestAt(s.seqno), s.threads))
  }

  lemma MeasureNonNegative(cfg: Config, s: State)
    requires ThreadsOk(cfg, s)
    ensures Measure(cfg, s) >= 0
    ensures 0 <= Sum(UnrestAt(s.seqno), s.threads) <= 4 * |s.threads|
  {
    hide Sum, Weigh, Wrap;
    forall k | 0 <= k < |s.threads|
      ensures 0 <= AheadOf(cfg)(s.threads[k]) <= 12 * cfg.rounds + 11
    {
      assert ThreadOk(cfg, s.releases, s.threads[k]);
    }
    SumBounds(AheadOf(cfg), s.threads, 0, 12 * cfg.rounds + 11);
    SumBounds(UnrestAt(s.seqno), s.threads, 0, 4);
    var u := Sum(UnrestAt(s.seqno), s.threads);
    WeighOrders(4 * |s.threads|, Sum(AheadOf(cfg), s.threads), u, 0, u);
  }

  // Inside the wait loop without leaving it.
  predicate InWaitLoop(s: State, l: Label)
    requires Enabled(s, l)
  {
    var th := s.threads[l.t];
    l.Run? && (th.pc == Futex || (th.pc == Test && th.gen == s.seqno))
  }

  lemma StepAhead(cfg: Config, s: State, l: Label)
    requires ThreadsOk(cfg, s) && Enabled(s, l) && l.Run?
    ensures var th := s.threads[l.t];
            if InWaitLoop(s, l) then Ahead(cfg, Mine(cfg, s, l)) == Ahead(cfg, th)
            else Ahead(cfg, Mine(cfg, s, l)) < Ahead(cfg, th)
  {
    hide Wrap;
    assert ThreadOk(cfg, s.releases, s.threads[l.t]);
  }

  lemma WaitLoopCalms(cfg: Config, s: State, l: Label)
    requires Enabled(s, l) && InWaitLoop(s, l)
    ensures var s' := Step(cfg, s, l);
            Sum(UnrestAt(s'.seqno), s'.threads) < Sum(UnrestAt(s.seqno), s.threads)
  {
    SumUpdate(UnrestAt(s.seqno), s.threads, l.t, Mine(cfg, s, l));
  }

  // Every instruction brings the run nearer to its end...
  lemma StepMeasure(cfg: Config, s: State, l: Label)
    requires Inv(cfg, s) && Enabled(s, l) && l.Run?
    ensures Measure(cfg, Step(cfg, s, l)) < Measure(cfg, s)
  {
    hide Step, Mine, Sum, Ahead, Unrest, Weigh, Wrap;
    var s' := Step(cfg, s, l);
    StepFrame(cfg, s, l);
    StepThreadsOk(cfg, s, l);
    StepSum(cfg, s, l, AheadOf(cfg)) by {
      WokenAhead(cfg);
    }
    StepAhead(cfg, s, l);
    if InWaitLoop(s, l) {
      WaitLoopCalms(cfg, s, l);
    }
    MeasureNonNegative(cfg, s);
    MeasureNonNegative(cfg, s');
    WeighOrders(4 * |s.threads|, Sum(AheadOf(cfg), s.threads), Sum(UnrestAt(s.seqno), s.threads),
                Sum(AheadOf(cfg), s'.threads), Sum(UnrestAt(s'.seqno), s'.threads));
  }

  lemma WokenAhead(cfg: Config)
    ensures forall th: Thread :: AheadOf(cfg)(Woken(th)) == AheadOf(cfg)(th)
  {
  }

  // ... and an expired park puts it back by three at most.
  lemma ExpireMeasure(cfg: Config, s: State, l: Label)
    requires Enabled(s, l) && l.Expire?
    ensures Measure(cfg, Step(cfg, s, l)) <= Measure(cfg, s) + 3
  {
    hide Sum;
    var th' := s.threads[l.t].(pc := Test);
    SumUpdate(AheadOf(cfg), s.threads, l.t, th');
    SumUpdate(UnrestAt(s.seqno), s.threads, l.t, th');
    assert Ahead(cfg, th') == Ahead(cfg, s.threads[l.t]);
  }

  function Instructions(run: seq<Label>): nat {
    if run == [] then 0 else (if run[0].Run? then 1 else 0) + Instructions(run[1..])
  }

  function Expiries(run: seq<Label>): nat {
    if run == [] then 0 else (if run[0].Expire? then 1 else 0) + Expiries(run[1..])
  }

  // Whatever the scheduler does, a run executes a bounded number of
  // instructions for each park that times out; without timeouts every run ends.
  lemma {:induction false} RunsAreBounded(cfg: Config, s: State, run: seq<Label>)
    requires Inv(cfg, s) && IsRun(cfg, s, run)
    ensures Instructions(run) <= Measure(cfg, s) + 3 * Expiries(run)
    decreases run
  {
    hide Measure, Step;
    if run == [] {
      MeasureNonNegative(cfg, s);
    } else {
      var l := run[0];
      StepInv(cfg, s, l);
      if l.Run? { StepMeasure(cfg, s, l); } else { ExpireMeasure(cfg, s, l); }
      RunsAreBounded(cfg, Step(cfg, s, l), run[1..]);
    }
  }

  // A run that cannot go on by itself is finished.
  lemma EveryMaximalRunFinishes(cfg: Config, run: seq<Label>)
    requires ValidConfig(cfg) && IsRun(cfg, Init(cfg), run)
    requires forall l: Label :: l.Run? ==> !Enabled(After(cfg, Init(cfg), run), l)
    ensures AllDone(After(cfg, Init(cfg), run))
  {
    hide Inv, Step, Enabled;
    InitInv(cfg);
    RunInv(cfg, Init(cfg), run);
    var s := After(cfg, Init(cfg), run);
    if !AllDone(s) {
      var l := NoDeadlock(cfg, s);
    }
  }

  function MeasureNat(cfg: Config, s: State): nat {
    if Measure(cfg, s) < 0 then 0 else Measure(cfg, s)
  }

  // From any reachable state there is a way to the end without a timeout.
  lemma {:induction false} CanFinish(cfg: Config, s: State) returns (run: seq<Label>)
    requires Inv(cfg, s)
    ensures IsRun(cfg, s, run) && AllDone(After(cfg, s, run)) && Expiries(run) == 0
    decreases MeasureNat(cfg, s)
  {
    hide Step, Measure, Enabled;
    if AllDone(s) {
      run := [];
    } else {
      var l := NoDeadlock(cfg, s);
      var s' := Step(cfg, s, l);
      StepInv(cfg, s, l);
      StepMeasure(cfg, s, l);
      MeasureNonNegative(cfg, s);
      MeasureNonNegative(cfg, s');
      var rest := CanFinish(cfg, s');
      run := [l] + rest;
      assert run[0] == l && run[1..] == rest;
    }
  }

  // ---- barrier_after, for any number of rounds ----

  // A thread that has read the full count and has not yet said so.
  function Pending(th: Thread): int {
    if th.pc == AddAfter then 1 else 0
  }

  // The label is a thread reading barrier_before and finding every worker, and
  // nobody twice.
  predicate SeesAll(cfg: Config, s: State, l: Label)
    requires Enabled(s, l)
  {
    l.Run? && s.threads[l.t].pc == LoadBefore && s.before == cfg.workers
  }

  function Sightings(cfg: Config, s: State, run: seq<Label>): nat
    requires IsRun(cfg, s, run)
    decreases run
  {
    if run == [] then 0
    else (if SeesAll(cfg, s, run[0]) then 1 else 0) + Sightings(cfg, Step(cfg, s, run[0]), run[1..])
  }

  lemma StepAfter(cfg: Config, s: State, l: Label)
    requires Enabled(s, l)
    ensures var s' := Step(cfg, s, l);
            s'.after + Sum(Pending, s'.threads)
            == s.after + Sum(Pending, s.threads) + (if SeesAll(cfg, s, l) then 1 else 0)
  {
    hide Wrap, Sum;
    StepSum(cfg, s, l, Pending);
  }

  lemma {:induction false} RunAfter(cfg: Config, s: State, run: seq<Label>)
    requires IsRun(cfg, s, run)
    ensures var s' := After(cfg, s, run);
            s'.after + Sum(Pending, s'.threads) == s.after + Sum(Pending, s.threads) + Sightings(cfg, s, run)
    decreases run
  {
    hide Step, Sum, SeesAll;
    if run != [] {
      StepAfter(cfg, s, run[0]);
      RunAfter(cfg, Step(cfg, s, run[0]), run[1..]);
    }
  }

  // A thread past its first round is not counted any more: by then everybody
  // has entered at least twice.
  lemma SightingIsFirstRound(cfg: Config, s: State, l: Label)
    requires Inv(cfg, s) && Enabled(s, l) && SeesAll(cfg, s, l)
    ensures s.threads[l.t].round == 0 && s.releases == 1
  {
    hide Wrap, Sum;
    assert ThreadOk(cfg, s.releases, s.threads[l.t]);
    BeforeBounds(cfg, s);
    if s.releases >= 2 {
      MoreRounds(2, s.releases, cfg.workers);
    }
  }

  // Sightings never outnumber the threads that have finished a round.
  function Passed(th: Thread): int {
    if th.round >= 1 || th.pc == AddAfter then 1 else 0
  }

  lemma {:induction false} SightingsArePasses(cfg: Config, s: State, run: seq<Label>)
    requires Inv(cfg, s) && IsRun(cfg, s, run)
    ensures Sum(Passed, s.threads) + Sightings(cfg, s, run) <= Sum(Passed, After(cfg, s, run).threads)
    decreases run
  {
    hide Sum, Inv;
    if run != [] {
      var l := run[0];
      StepInv(cfg, s, l);
      StepSum(cfg, s, l, Passed);
      if SeesAll(cfg, s, l) {
        SightingIsFirstRound(cfg, s, l);
      }
      SightingsArePasses(cfg, Step(cfg, s, l), run[1..]);
    }
  }

  // In every run, through any number of rounds, barrier_after is the number of
  // reads that found exactly the worker count, less those not yet recorded;
  // only first-round reads can, so it never exceeds the number of workers.
  lemma AfterCountsFullSightings(cfg: Config, run: seq<Label>)
    requires ValidConfig(cfg) && IsRun(cfg, Init(cfg), run)
    ensures var s := After(cfg, Init(cfg), run);
            && s.after + Sum(Pending, s.threads) == Sightings(cfg, Init(cfg), run)
            && s.after <= Sightings(cfg, Init(cfg), run) <= cfg.workers
            && (AllDone(s) ==> s.after == Sightings(cfg, Init(cfg), run))
  {
    hide Step, Sum, IsRun, After, Sightings, CountOk, NoLostWakeup, TotalsOk;
    var s0 := Init(cfg);
    var s := After(cfg, s0, run);
    InitInv(cfg);
    RunInv(cfg, s0, run);
    RunAfter(cfg, s0, run);
    SightingsArePasses(cfg, s0, run);
    SumBounds(Pending, s0.threads, 0, 0);
    SumBounds(Passed, s0.threads, 0, 0);
    SumBounds(Pending, s.threads, 0, 1);
    SumBounds(Passed, s.threads, 0, 1);
    if AllDone(s) {
      SumBounds(Pending, s.threads, 0, 0);
    }
  }
}
