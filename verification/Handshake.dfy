// apps/mutextest.c, "two processes, one counter": parent and child hammer the
// shared counter under the lock, then the child publishes its completion
// through a flag the parent polls before it judges the counter.
module Handshake {
  import Workers

  const PARENT: nat := 0
  const CHILD: nat := 1

  datatype ParentPc =
    | Hammering
    | Polling     // the guarded loop around the load of child_done
    | Checking    // the load after the loop
    | Judging     // compare the counter with twice the rounds
    | NeverFinished
    | MutualExclusionHeld
    | UpdatesLost

  datatype State = State(base: Workers.State, childDone: bool, parentDone: bool, parent: ParentPc, guard: nat)

  datatype Label = HammerStep(l: Workers.Label) | ChildPublishes | ParentPublishes | ParentPolls | ParentChecks | ParentJudges

  datatype Config = Config(rounds: nat, polls: nat)

  function Program(cfg: Config): Workers.Config {
    Workers.Config(Workers.Hammer, 2, cfg.rounds)
  }

  function Init(cfg: Config): State {
    State(Workers.Init(Program(cfg)), false, false, Hammering, 0)
  }

  predicate Finished(s: State, who: nat) {
    who < |s.base.threads| && s.base.threads[who].pc == Workers.Done
  }

  predicate Enabled(s: State, l: Label) {
    match l
    case HammerStep(b) => Workers.Enabled(s.base, b)
    case ChildPublishes => Finished(s, CHILD) && !s.childDone
    case ParentPublishes => Finished(s, PARENT) && s.parent == Hammering
    case ParentPolls => s.parent == Polling
    case ParentChecks => s.parent == Checking
    case ParentJudges => s.parent == Judging
  }

  function Step(cfg: Config, s: State, l: Label): State
    requires Enabled(s, l)
  {
    match l
    case HammerStep(b) => s.(base := Workers.Step(Program(cfg), s.base, b))
    case ChildPublishes => s.(childDone := true)
    case ParentPublishes => s.(parentDone := true, parent := Polling)
    case ParentPolls =>
      if s.guard < cfg.polls && !s.childDone then s.(guard := s.guard + 1) else s.(parent := Checking)
    case ParentChecks => s.(parent := if s.childDone then Judging else NeverFinished)
    case ParentJudges =>
      s.(parent := if s.base.counter == 2 * cfg.rounds % 0x1_0000_0000 then MutualExclusionHeld else UpdatesLost)
  }

  predicate IsRun(cfg: Config, s: State, run: seq<Label>)
    decreases run
  {
    run == [] || (Enabled(s, run[0]) && IsRun(cfg, Step(cfg, s, run[0]), run[1..]))
  }

  function After(cfg: Config, s: State, run: seq<Label>): State
    requires IsRun(cfg, s, run)
    decreases run
  {
    if run == [] then s else After(cfg, Step(cfg, s, run[0]), run[1..])
  }

  predicate PastPolling(pc: ParentPc) {
    pc != Hammering && pc != Polling
  }

  // The parent has given its verdict.
  predicate Verdict(pc: ParentPc) {
    pc == NeverFinished || pc == MutualExclusionHeld || pc == UpdatesLost
  }

  // The flag means what it says, and nobody judges before both are through.
  predicate Inv(cfg: Config, s: State) {
    && Workers.Inv(Program(cfg), s.base)
    && (s.childDone ==> Finished(s, CHILD))
    && (s.parent != Hammering ==> Finished(s, PARENT))
    && (s.parent == Judging || s.parent == MutualExclusionHeld ==> s.childDone)
    && s.parent != UpdatesLost
    && s.guard <= cfg.polls
    && (s.parent == Hammering ==> s.guard == 0)
    && (PastPolling(s.parent) ==> s.childDone || s.guard == cfg.polls)
  }

  lemma FinishedStays(cfg: Config, s: State, b: Workers.Label, who: nat)
    requires Workers.Enabled(s.base, b) && Finished(s, who)
    ensures Finished(Step(cfg, s, HammerStep(b)), who)
  {
    hide Workers.Step;
    Workers.StepFrame(Program(cfg), s.base, b);
  }

  // With both processes through, the counter is exactly the sum.
  lemma CounterWhenBothFinished(cfg: Config, s: State)
    requires Workers.Inv(Program(cfg), s.base) && Finished(s, PARENT) && Finished(s, CHILD)
    ensures s.base.counter == 2 * cfg.rounds % 0x1_0000_0000
  {
    assert Workers.AllDone(s.base);
    Workers.DoneTotals(Program(cfg), s.base);
  }

  lemma StepInv(cfg: Config, s: State, l: Label)
    requires Inv(cfg, s) && Enabled(s, l)
    ensures Inv(cfg, Step(cfg, s, l))
  {
    hide Workers.Step, Workers.Inv;
    match l {
      case HammerStep(b) =>
        Workers.StepInv(Program(cfg), s.base, b);
        if s.childDone { FinishedStays(cfg, s, b, CHILD); }
        if s.parent != Hammering { FinishedStays(cfg, s, b, PARENT); }
      case ParentJudges =>
        CounterWhenBothFinished(cfg, s);
      case _ =>
    }
  }

  lemma {:induction false} RunInv(cfg: Config, s: State, run: seq<Label>)
    requires Inv(cfg, s) && IsRun(cfg, s, run)
    ensures Inv(cfg, After(cfg, s, run))
    decreases run
  {
    if run != [] {
      StepInv(cfg, s, run[0]);
      RunInv(cfg, Step(cfg, s, run[0]), run[1..]);
    }
  }

  // Whenever the parent has finished its own rounds and sees child_done, in
  // any interleaving, the counter reads exactly twice the rounds; so the
  // verdict "updates were lost" is unreachable.
  lemma CounterExactOnceChildSeen(cfg: Config, run: seq<Label>)
    requires IsRun(cfg, Init(cfg), run)
    ensures var s := After(cfg, Init(cfg), run);
            && (s.parent != Hammering && s.childDone ==> s.base.counter == 2 * cfg.rounds % 0x1_0000_0000)
            && s.parent != UpdatesLost
  {
    Workers.InitInv(Program(cfg));
    RunInv(cfg, Init(cfg), run);
    var s := After(cfg, Init(cfg), run);
    if s.parent != Hammering && s.childDone {
      CounterWhenBothFinished(cfg, s);
    }
  }

  // ---- the verdict ----

  lemma {:induction false} RunConcat(cfg: Config, s: State, a: seq<Label>, b: seq<Label>)
    ensures IsRun(cfg, s, a + b) <==> IsRun(cfg, s, a) && IsRun(cfg, After(cfg, s, a), b)
    ensures IsRun(cfg, s, a + b) ==> After(cfg, s, a + b) == After(cfg, After(cfg, s, a), b)
    decreases a
  {
    hide Step, Enabled;
    if a == [] {
      assert a + b == b;
    } else {
      assert (a + b)[0] == a[0] && (a + b)[1..] == a[1..] + b;
      if Enabled(s, a[0]) {
        RunConcat(cfg, Step(cfg, s, a[0]), a[1..], b);
      }
    }
  }

  // Both flags are set by their own stores and by nothing else, and a verdict
  // is final.
  lemma {:induction false} RunFlags(cfg: Config, s: State, run: seq<Label>)
    requires IsRun(cfg, s, run)
    ensures var s' := After(cfg, s, run);
            && (s'.childDone <==> s.childDone || ChildPublishes in run)
            && (s'.parentDone <==> s.parentDone || ParentPublishes in run)
            && (Verdict(s.parent) ==> s'.parent == s.parent)
    decreases run
  {
    hide Workers.Step;
    if run != [] {
      RunFlags(cfg, Step(cfg, s, run[0]), run[1..]);
      assert run == [run[0]] + run[1..];
    }
  }

  function Polls(run: seq<Label>): nat {
    if run == [] then 0 else (if run[0] == ParentPolls then 1 else 0) + Polls(run[1..])
  }

  // Every poll is counted: all but the last find the flag clear.
  lemma {:induction false} RunPolls(cfg: Config, s: State, run: seq<Label>)
    requires IsRun(cfg, s, run)
    ensures var s' := After(cfg, s, run);
            s'.guard + (if PastPolling(s'.parent) then 1 else 0)
            == s.guard + (if PastPolling(s.parent) then 1 else 0) + Polls(run)
    decreases run
  {
    hide Workers.Step;
    if run != [] {
      RunPolls(cfg, Step(cfg, s, run[0]), run[1..]);
    }
  }

  // A run with an event in it, taken apart at the event.
  lemma RunAround(cfg: Config, a: seq<Label>, l: Label, b: seq<Label>)
    requires IsRun(cfg, Init(cfg), a + [l] + b)
    ensures IsRun(cfg, Init(cfg), a)
    ensures var m := After(cfg, Init(cfg), a);
            && Inv(cfg, m) && Enabled(m, l)
            && IsRun(cfg, Step(cfg, m, l), b)
            && After(cfg, Init(cfg), a + [l] + b) == After(cfg, Step(cfg, m, l), b)
  {
    hide Step, Enabled, Inv, Workers.Inv;
    assert a + [l] + b == a + ([l] + b);
    RunConcat(cfg, Init(cfg), a, [l] + b);
    assert ([l] + b)[0] == l && ([l] + b)[1..] == b;
    assert Inv(cfg, Init(cfg)) by { InitIsInv(cfg); }
    RunInv(cfg, Init(cfg), a);
  }

  lemma InitIsInv(cfg: Config)
    ensures Inv(cfg, Init(cfg))
  {
    Workers.InitInv(Program(cfg));
  }

  // The parent reports that the child never finished if and only if the child
  // had not published when the parent checked, whatever came before or after;
  // and then it had polled up to its limit.
  lemma NeverFinishedIffNotPublished(cfg: Config, a: seq<Label>, b: seq<Label>)
    requires IsRun(cfg, Init(cfg), a + [ParentChecks] + b)
    ensures var s := After(cfg, Init(cfg), a + [ParentChecks] + b);
            && (s.parent == NeverFinished <==> ChildPublishes !in a)
            && (s.parent == NeverFinished ==> Polls(a) == cfg.polls + 1)
  {
    hide IsRun, After, Workers.Step, Workers.Inv, Polls;
    RunAround(cfg, a, ParentChecks, b);
    var m := After(cfg, Init(cfg), a);
    var c := Step(cfg, m, ParentChecks);
    RunFlags(cfg, Init(cfg), a);
    RunPolls(cfg, Init(cfg), a);
    RunFlags(cfg, c, b);
    assert Inv(cfg, c) by { StepInv(cfg, m, ParentChecks); }
    if c.parent == Judging {
      RunInv(cfg, c, b);
      JudgingStays(cfg, c, b);
    }
  }

  lemma {:induction false} JudgingStays(cfg: Config, s: State, run: seq<Label>)
    requires IsRun(cfg, s, run) && (s.parent == Judging || Verdict(s.parent)) && s.parent != NeverFinished
    ensures After(cfg, s, run).parent != NeverFinished
    decreases run
  {
    hide Workers.Step;
    if run != [] {
      JudgingStays(cfg, Step(cfg, s, run[0]), run[1..]);
    }
  }

  // Once the parent has judged, in any run, it has found that mutual exclusion
  // held.
  lemma JudgedMeansHeld(cfg: Config, a: seq<Label>, b: seq<Label>)
    requires IsRun(cfg, Init(cfg), a + [ParentJudges] + b)
    ensures After(cfg, Init(cfg), a + [ParentJudges] + b).parent == MutualExclusionHeld
  {
    hide IsRun, After, Workers.Step, Workers.Inv;
    RunAround(cfg, a, ParentJudges, b);
    var m := After(cfg, Init(cfg), a);
    CounterWhenBothFinished(cfg, m);
    RunFlags(cfg, Step(cfg, m, ParentJudges), b);
  }

  // ---- a successful run ----

  function Lift(run: seq<Workers.Label>): seq<Label> {
    if run == [] then [] else [HammerStep(run[0])] + Lift(run[1..])
  }

  lemma {:induction false} LiftRuns(cfg: Config, s: State, run: seq<Workers.Label>)
    requires Workers.IsRun(Program(cfg), s.base, run)
    ensures IsRun(cfg, s, Lift(run))
    ensures After(cfg, s, Lift(run)) == s.(base := Workers.After(Program(cfg), s.base, run))
    decreases run
  {
    hide Workers.Step, Workers.Enabled;
    if run != [] {
      var l := HammerStep(run[0]);
      assert Lift(run)[0] == l && Lift(run)[1..] == Lift(run[1..]);
      LiftRuns(cfg, Step(cfg, s, l), run[1..]);
    }
  }

  lemma Then(cfg: Config, s: State, run: seq<Label>, l: Label, s': State) returns (longer: seq<Label>)
    requires IsRun(cfg, s, run) && Enabled(After(cfg, s, run), l) && Step(cfg, After(cfg, s, run), l) == s'
    ensures IsRun(cfg, s, longer) && After(cfg, s, longer) == s'
  {
    hide Step, Enabled;
    longer := run + [l];
    assert [l][1..] == [];
    RunConcat(cfg, s, run, [l]);
  }

  // For every number of rounds and every poll limit, even none, some run ends
  // with the parent reporting that mutual exclusion held.
  lemma SomeRunHolds(cfg: Config) returns (run: seq<Label>)
    ensures IsRun(cfg, Init(cfg), run) && After(cfg, Init(cfg), run).parent == MutualExclusionHeld
  {
    hide IsRun, After, Workers.Step, Workers.Inv, Workers.IsRun, Workers.After;
    var p := Program(cfg);
    var s0 := Init(cfg);
    Workers.InitInv(p);
    var base := Workers.CanFinish(p, s0.base);
    Workers.RunInv(p, s0.base, base);
    LiftRuns(cfg, s0, base);
    run := Lift(base);
    var s := After(cfg, s0, run);
    assert Finished(s, PARENT) && Finished(s, CHILD) by { TwoThreads(p, s.base); }
    CounterWhenBothFinished(cfg, s);
    var s1 := s.(childDone := true);
    run := Then(cfg, s0, run, ChildPublishes, s1);
    var s2 := s1.(parentDone := true);
    run := Then(cfg, s0, run, ParentPublishes, s2.(parent := Polling));
    run := Then(cfg, s0, run, ParentPolls, s2.(parent := Checking));
    run := Then(cfg, s0, run, ParentChecks, s2.(parent := Judging));
    run := Then(cfg, s0, run, ParentJudges, s2.(parent := MutualExclusionHeld));
  }

  lemma TwoThreads(p: Workers.Config, s: Workers.State)
    requires Workers.Inv(p, s)
    ensures |s.threads| == p.workers
  {
  }
}
