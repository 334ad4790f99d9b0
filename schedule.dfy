/** What `Plan.submit` does to a tree, as a value: the submissions it makes
    in order, each with the Step, the jobs it waits for, the parameter map
    and the job it gets, and the list of jobs the walk returns or the error
    that stops it. */
module Schedule {

  import opened Wrappers
  import opened Resources
  import opened Workflow
  import opened Dependencies

  /** The `TypeError` raised when a Step with predecessors has a nested
      "slurm_additional_parameters" entry that is not a map. */
  datatype SubmitError = NotAMap(step: string)

  /** One call of `executor.submit`. */
  datatype Call = Call(step: Step, deps: seq<Job>, params: map<string, Value>, job: Job)

  /** The calls a walk makes and what it returns: its jobs, or the error
      that ends it (the calls before the error have happened). */
  datatype Outcome = Outcome(calls: seq<Call>, result: Result<seq<Job>, SubmitError>)

  /** `_walk(node, parents)` for a plan named `planName` on an executor whose
      next id is `start`. */
  function Run(planName: string, n: Node, parents: seq<Job>, start: nat): Outcome
    decreases n
  {
    match n
    case StepNode(s) =>
      (match StepParams(planName, s.request, parents)
       case None => Outcome([], Failure(NotAMap(s.name)))
       case Some(p) => Outcome([Call(s, parents, p, Job(start))], Success([Job(start)])))
    case Chain(ns) => ChainRun(planName, ns, |ns|, parents, start)
    case Parallel(ns) => ParallelRun(planName, ns, |ns|, parents, start)
  }

  /** The first `i` children of a Chain: each child waits for what the
      previous child returned, and the Chain returns what its last child
      returned (its parents when it is empty). */
  function ChainRun(planName: string, ns: seq<Node>, i: nat, parents: seq<Job>, start: nat): Outcome
    requires i <= |ns|
    decreases ns, i
  {
    if i == 0 then Outcome([], Success(parents))
    else
      var a := ChainRun(planName, ns, i - 1, parents, start);
      match a.result
      case Failure(_) => a
      case Success(deps) =>
        var b := Run(planName, ns[i - 1], deps, start + |a.calls|);
        Outcome(a.calls + b.calls, b.result)
  }

  /** The first `i` children of a Parallel: every child waits for the
      Parallel's parents, and the Parallel returns its children's jobs one
      after another. */
  function ParallelRun(planName: string, ns: seq<Node>, i: nat, parents: seq<Job>, start: nat): Outcome
    requires i <= |ns|
    decreases ns, i
  {
    if i == 0 then Outcome([], Success([]))
    else
      var a := ParallelRun(planName, ns, i - 1, parents, start);
      match a.result
      case Failure(_) => a
      case Success(done) =>
        var b := Run(planName, ns[i - 1], parents, start + |a.calls|);
        Outcome(a.calls + b.calls, if b.result.Failure? then b.result else Success(done + b.result.value))
  }

  /** The executor's log after the calls: their parameter maps in order. */
  function ParamLog(calls: seq<Call>): seq<map<string, Value>> {
    if calls == [] then [] else ParamLog(calls[..|calls| - 1]) + [calls[|calls| - 1].params]
  }

  /** `all_jobs` after the calls: their jobs in order. */
  function JobsOf(calls: seq<Call>): seq<Job> {
    if calls == [] then [] else JobsOf(calls[..|calls| - 1]) + [calls[|calls| - 1].job]
  }

  /** A Step's job slot after the calls: the job of the last call that
      submitted it, or what it held before when none did. */
  function SlotAfter(calls: seq<Call>, s: Step, before: Option<Job>): Option<Job> {
    if calls == [] then before
    else if calls[|calls| - 1].step == s then Some(calls[|calls| - 1].job)
    else SlotAfter(calls[..|calls| - 1], s, before)
  }

  /** The unsubmitted-Step check of `_wait_node`: the name of the leftmost
      Step with an empty job slot, if any. */
  function WaitCheck(n: Node): Option<string>
    reads StepSet(n)
    decreases n
  {
    match n
    case StepNode(s) =>
      assert Steps(n) == [s];
      if s.job.None? then Some(s.name) else None
    case Chain(ns) => WaitCheckOf(ns)
    case Parallel(ns) => WaitCheckOf(ns)
  }

  function WaitCheckOf(ns: seq<Node>): Option<string>
    reads set s | s in StepsOf(ns)
    decreases ns
  {
    if ns == [] then None
    else
      match WaitCheckOf(ns[..|ns| - 1])
      case Some(x) => Some(x)
      case None =>
        assert StepsOf(ns) == StepsOf(ns[..|ns| - 1]) + Steps(ns[|ns| - 1]);
        WaitCheck(ns[|ns| - 1])
  }

  // ---------------------------------------------------------------------
  // Composing the logs and slots of consecutive calls.

  lemma {:induction false} ParamLogAppend(a: seq<Call>, b: seq<Call>)
    ensures ParamLog(a + b) == ParamLog(a) + ParamLog(b)
    decreases |b|
  {
    if b == [] {
      assert a + b == a;
    } else {
      var ab := a + b;
      assert ab[..|ab| - 1] == a + b[..|b| - 1];
      assert ab[|ab| - 1] == b[|b| - 1];
      ParamLogAppend(a, b[..|b| - 1]);
    }
  }

  lemma {:induction false} JobsOfAppend(a: seq<Call>, b: seq<Call>)
    ensures JobsOf(a + b) == JobsOf(a) + JobsOf(b)
    decreases |b|
  {
    if b == [] {
      assert a + b == a;
    } else {
      var ab := a + b;
      assert ab[..|ab| - 1] == a + b[..|b| - 1];
      assert ab[|ab| - 1] == b[|b| - 1];
      JobsOfAppend(a, b[..|b| - 1]);
    }
  }

  /** The log and the job list hold one entry per call, in call order. */
  lemma {:induction false} LogsMatchCalls(calls: seq<Call>)
    ensures |ParamLog(calls)| == |calls| && |JobsOf(calls)| == |calls|
    ensures forall i :: 0 <= i < |calls| ==> ParamLog(calls)[i] == calls[i].params
    ensures forall i :: 0 <= i < |calls| ==> JobsOf(calls)[i] == calls[i].job
    decreases |calls|
  {
    if calls != [] {
      var init, last := calls[..|calls| - 1], calls[|calls| - 1];
      LogsMatchCalls(init);
      assert ParamLog(calls) == ParamLog(init) + [last.params];
      assert JobsOf(calls) == JobsOf(init) + [last.job];
      forall i | 0 <= i < |calls|
        ensures ParamLog(calls)[i] == calls[i].params && JobsOf(calls)[i] == calls[i].job
      {
        if i < |calls| - 1 {
          assert calls[i] == init[i];
        }
      }
    }
  }

  /** Later calls override earlier ones. */
  lemma {:induction false} SlotAfterAppend(a: seq<Call>, b: seq<Call>, s: Step, before: Option<Job>)
    ensures SlotAfter(a + b, s, before) == SlotAfter(b, s, SlotAfter(a, s, before))
    decreases |b|
  {
    if b == [] {
      assert a + b == a;
    } else {
      var ab := a + b;
      assert ab[..|ab| - 1] == a + b[..|b| - 1];
      assert ab[|ab| - 1] == b[|b| - 1];
      SlotAfterAppend(a, b[..|b| - 1], s, before);
    }
  }

  /** A Step no call submits keeps its slot. */
  lemma {:induction false} SlotAfterUntouched(calls: seq<Call>, s: Step, before: Option<Job>)
    requires forall i :: 0 <= i < |calls| ==> calls[i].step != s
    ensures SlotAfter(calls, s, before) == before
    decreases |calls|
  {
    if calls != [] {
      SlotAfterUntouched(calls[..|calls| - 1], s, before);
    }
  }

  /** A Step some call submits ends up with a job. */
  lemma {:induction false} SlotAfterFilled(calls: seq<Call>, i: nat, before: Option<Job>)
    requires i < |calls|
    ensures SlotAfter(calls, calls[i].step, before).Some?
    decreases |calls|
  {
    if i < |calls| - 1 && calls[|calls| - 1].step != calls[i].step {
      SlotAfterFilled(calls[..|calls| - 1], i, before);
    }
  }

  /** When no Step is submitted twice, each ends up with the job of its own
      call. */
  lemma {:induction false} SlotAfterDistinct(calls: seq<Call>, i: nat, before: Option<Job>)
    requires i < |calls|
    requires forall j, k :: 0 <= j < k < |calls| ==> calls[j].step != calls[k].step
    ensures SlotAfter(calls, calls[i].step, before) == Some(calls[i].job)
    decreases |calls|
  {
    if i < |calls| - 1 {
      SlotAfterDistinct(calls[..|calls| - 1], i, before);
    }
  }

  // ---------------------------------------------------------------------
  // One more child, and failure is final.

  /** One more child of a Chain, walked after the calls so far: the walk so
      far grows by the child's calls and ends with its result; on failure
      the whole Chain ends there. */
  lemma ChainRunStep(planName: string, ns: seq<Node>, i: nat, parents: seq<Job>, start: nat,
                     calls: seq<Call>, deps: seq<Job>, b: Outcome)
    requires i < |ns|
    requires ChainRun(planName, ns, i, parents, start) == Outcome(calls, Success(deps))
    requires b == Run(planName, ns[i], deps, start + |calls|)
    ensures ChainRun(planName, ns, i + 1, parents, start) == Outcome(calls + b.calls, b.result)
    ensures b.result.Failure? ==>
      ChainRun(planName, ns, |ns|, parents, start) == Outcome(calls + b.calls, b.result)
  {
    if b.result.Failure? {
      ChainRunSticky(planName, ns, i + 1, |ns|, parents, start);
    }
  }

  /** One more child of a Parallel, walked after the calls so far: on
      success its jobs follow the ones so far; on failure the whole Parallel
      ends there. */
  lemma ParallelRunStep(planName: string, ns: seq<Node>, i: nat, parents: seq<Job>, start: nat,
                        calls: seq<Call>, done: seq<Job>, b: Outcome)
    requires i < |ns|
    requires ParallelRun(planName, ns, i, parents, start) == Outcome(calls, Success(done))
    requires b == Run(planName, ns[i], parents, start + |calls|)
    ensures b.result.Success? ==>
      ParallelRun(planName, ns, i + 1, parents, start) == Outcome(calls + b.calls, Success(done + b.result.value))
    ensures b.result.Failure? ==>
      ParallelRun(planName, ns, |ns|, parents, start) == Outcome(calls + b.calls, b.result)
  {
    if b.result.Failure? {
      ParallelRunSticky(planName, ns, i + 1, |ns|, parents, start);
    }
  }

  /** Once a Chain's walk fails, later children add nothing. */
  lemma {:induction false} ChainRunSticky(planName: string, ns: seq<Node>, i: nat, j: nat, parents: seq<Job>, start: nat)
    requires i <= j <= |ns|
    requires ChainRun(planName, ns, i, parents, start).result.Failure?
    ensures ChainRun(planName, ns, j, parents, start) == ChainRun(planName, ns, i, parents, start)
    decreases j
  {
    if i < j {
      ChainRunSticky(planName, ns, i, j - 1, parents, start);
    }
  }

  /** Once a Parallel's walk fails, later children add nothing. */
  lemma {:induction false} ParallelRunSticky(planName: string, ns: seq<Node>, i: nat, j: nat, parents: seq<Job>, start: nat)
    requires i <= j <= |ns|
    requires ParallelRun(planName, ns, i, parents, start).result.Failure?
    ensures ParallelRun(planName, ns, j, parents, start) == ParallelRun(planName, ns, i, parents, start)
    decreases j
  {
    if i < j {
      ParallelRunSticky(planName, ns, i, j - 1, parents, start);
    }
  }

  // ---------------------------------------------------------------------
  // Every Step is submitted once, in tree order, with fresh ids.

  /** The calls submit the leading Steps of `steps`, in order, with the
      consecutive ids from `start`, each with the parameter map its request
      and predecessors give. */
  ghost predicate Covers(planName: string, calls: seq<Call>, steps: seq<Step>, start: nat) {
    && |calls| <= |steps|
    && (forall i :: 0 <= i < |calls| ==> calls[i].step == steps[i] && calls[i].job == Job(start + i))
    && (forall i :: 0 <= i < |calls| ==>
          StepParams(planName, calls[i].step.request, calls[i].deps) == Some(calls[i].params))
  }

  lemma CoversAppend(planName: string, a: seq<Call>, sa: seq<Step>, b: seq<Call>, sb: seq<Step>, start: nat)
    requires Covers(planName, a, sa, start) && |a| == |sa|
    requires Covers(planName, b, sb, start + |a|)
    ensures Covers(planName, a + b, sa + sb, start)
  {
    forall i | 0 <= i < |a + b|
      ensures (a + b)[i].step == (sa + sb)[i] && (a + b)[i].job == Job(start + i)
    {
      if i >= |a| {
        assert (a + b)[i] == b[i - |a|];
      }
    }
  }

  /** The walk submits the tree's Steps left to right with consecutive ids
      from `start`; it returns a result exactly when it reaches every Step,
      and otherwise fails naming the first Step whose map is refused. */
  lemma {:induction false} RunCovers(planName: string, n: Node, parents: seq<Job>, start: nat)
    ensures var o := Run(planName, n, parents, start);
      && Covers(planName, o.calls, Steps(n), start)
      && (o.result.Success? <==> |o.calls| == |Steps(n)|)
      && (o.result.Failure? ==> o.result.error == NotAMap(Steps(n)[|o.calls|].name))
      && (o.result.Failure? ==> !Accepted(Steps(n)[|o.calls|].request))
    decreases n
  {
    match n
    case StepNode(s) =>
      AcceptedParamsSucceed(planName, s.request, parents);
    case Chain(ns) =>
      ChainRunCovers(planName, ns, |ns|, parents, start);
      assert ns[..|ns|] == ns;
    case Parallel(ns) =>
      ParallelRunCovers(planName, ns, |ns|, parents, start);
      assert ns[..|ns|] == ns;
  }

  lemma {:induction false} ChainRunCovers(planName: string, ns: seq<Node>, i: nat, parents: seq<Job>, start: nat)
    requires i <= |ns|
    ensures var o := ChainRun(planName, ns, i, parents, start);
      && Covers(planName, o.calls, StepsOf(ns[..i]), start)
      && (o.result.Success? <==> |o.calls| == |StepsOf(ns[..i])|)
      && (o.result.Failure? ==> o.result.error == NotAMap(StepsOf(ns[..i])[|o.calls|].name))
      && (o.result.Failure? ==> !Accepted(StepsOf(ns[..i])[|o.calls|].request))
    decreases ns, i
  {
    if i > 0 {
      var a := ChainRun(planName, ns, i - 1, parents, start);
      ChainRunCovers(planName, ns, i - 1, parents, start);
      StepsOfPrefix(ns, i);
      if a.result.Success? {
        var b := Run(planName, ns[i - 1], a.result.value, start + |a.calls|);
        RunCovers(planName, ns[i - 1], a.result.value, start + |a.calls|);
        CoversAppend(planName, a.calls, StepsOf(ns[..i - 1]), b.calls, Steps(ns[i - 1]), start);
      }
    }
  }

  lemma {:induction false} ParallelRunCovers(planName: string, ns: seq<Node>, i: nat, parents: seq<Job>, start: nat)
    requires i <= |ns|
    ensures var o := ParallelRun(planName, ns, i, parents, start);
      && Covers(planName, o.calls, StepsOf(ns[..i]), start)
      && (o.result.Success? <==> |o.calls| == |StepsOf(ns[..i])|)
      && (o.result.Failure? ==> o.result.error == NotAMap(StepsOf(ns[..i])[|o.calls|].name))
      && (o.result.Failure? ==> !Accepted(StepsOf(ns[..i])[|o.calls|].request))
    decreases ns, i
  {
    if i > 0 {
      var a := ParallelRun(planName, ns, i - 1, parents, start);
      ParallelRunCovers(planName, ns, i - 1, parents, start);
      StepsOfPrefix(ns, i);
      if a.result.Success? {
        var b := Run(planName, ns[i - 1], parents, start + |a.calls|);
        RunCovers(planName, ns[i - 1], parents, start + |a.calls|);
        CoversAppend(planName, a.calls, StepsOf(ns[..i - 1]), b.calls, Steps(ns[i - 1]), start);
      }
    }
  }

  /** A walk that succeeds submitted every Step of the tree, in order, with
      consecutive ids from `start`. */
  lemma RunComplete(planName: string, n: Node, parents: seq<Job>, start: nat)
    ensures var o := Run(planName, n, parents, start);
      o.result.Success? ==>
        && |o.calls| == |Steps(n)|
        && forall i :: 0 <= i < |o.calls| ==> o.calls[i].step == Steps(n)[i] && o.calls[i].job == Job(start + i)
  {
    RunCovers(planName, n, parents, start);
  }

  /** A walk touches only the slots of its own Steps. */
  lemma RunLeavesOthers(planName: string, n: Node, parents: seq<Job>, start: nat, s: Step, before: Option<Job>)
    requires s !in StepSet(n)
    ensures SlotAfter(Run(planName, n, parents, start).calls, s, before) == before
  {
    RunCovers(planName, n, parents, start);
    SlotAfterUntouched(Run(planName, n, parents, start).calls, s, before);
  }

  /** A tree whose every request is accepted is always submitted whole,
      whatever parents it starts from. */
  lemma AcceptedTreeSucceeds(planName: string, n: Node, parents: seq<Job>, start: nat)
    requires forall s :: s in Steps(n) ==> Accepted(s.request)
    ensures Run(planName, n, parents, start).result.Success?
  {
    RunCovers(planName, n, parents, start);
  }

  // ---------------------------------------------------------------------
  // Dependencies point backwards.

  /** Every job a call waits for is one of the walk's parents or was issued
      by an earlier call. */
  ghost predicate DepsEarlier(calls: seq<Call>, parents: seq<Job>, start: nat) {
    forall i, j :: 0 <= i < |calls| && j in calls[i].deps ==> j in parents || start <= j.id < start + i
  }

  /** Every job a walk returns is one of its parents or one it issued. */
  ghost predicate OutWithin(o: Outcome, parents: seq<Job>, start: nat) {
    o.result.Success? ==> forall j :: j in o.result.value ==> j in parents || start <= j.id < start + |o.calls|
  }

  /** Submission never makes a job wait for a later one: with no parents at
      the root, every dependency names a job submitted before. */
  lemma {:induction false} RunDepsEarlier(planName: string, n: Node, parents: seq<Job>, start: nat)
    ensures var o := Run(planName, n, parents, start);
      DepsEarlier(o.calls, parents, start) && OutWithin(o, parents, start)
    decreases n
  {
    match n
    case StepNode(s) =>
    case Chain(ns) => ChainDepsEarlier(planName, ns, |ns|, parents, start);
    case Parallel(ns) => ParallelDepsEarlier(planName, ns, |ns|, parents, start);
  }

  lemma {:induction false} ChainDepsEarlier(planName: string, ns: seq<Node>, i: nat, parents: seq<Job>, start: nat)
    requires i <= |ns|
    ensures var o := ChainRun(planName, ns, i, parents, start);
      DepsEarlier(o.calls, parents, start) && OutWithin(o, parents, start)
    decreases ns, i
  {
    if i > 0 {
      var a := ChainRun(planName, ns, i - 1, parents, start);
      ChainDepsEarlier(planName, ns, i - 1, parents, start);
      if a.result.Success? {
        var mid := start + |a.calls|;
        var b := Run(planName, ns[i - 1], a.result.value, mid);
        RunDepsEarlier(planName, ns[i - 1], a.result.value, mid);
        var calls := a.calls + b.calls;
        forall k, j | 0 <= k < |calls| && j in calls[k].deps
          ensures j in parents || start <= j.id < start + k
        {
          if k >= |a.calls| {
            assert calls[k] == b.calls[k - |a.calls|];
          }
        }
      }
    }
  }

  lemma {:induction false} ParallelDepsEarlier(planName: string, ns: seq<Node>, i: nat, parents: seq<Job>, start: nat)
    requires i <= |ns|
    ensures var o := ParallelRun(planName, ns, i, parents, start);
      DepsEarlier(o.calls, parents, start) && OutWithin(o, parents, start)
    decreases ns, i
  {
    if i > 0 {
      var a := ParallelRun(planName, ns, i - 1, parents, start);
      ParallelDepsEarlier(planName, ns, i - 1, parents, start);
      if a.result.Success? {
        var mid := start + |a.calls|;
        var b := Run(planName, ns[i - 1], parents, mid);
        RunDepsEarlier(planName, ns[i - 1], parents, mid);
        var calls := a.calls + b.calls;
        forall k, j | 0 <= k < |calls| && j in calls[k].deps
          ensures j in parents || start <= j.id < start + k
        {
          if k >= |a.calls| {
            assert calls[k] == b.calls[k - |a.calls|];
          }
        }
      }
    }
  }

  // ---------------------------------------------------------------------
  // The wait check.

  /** `_wait_node` finds no unsubmitted Step exactly when every Step has a
      job, and the Step it names has none. */
  lemma {:induction false} WaitCheckMeaning(n: Node)
    ensures WaitCheck(n).None? <==> forall s :: s in Steps(n) ==> s.job.Some?
    ensures WaitCheck(n).Some? ==> exists s :: s in Steps(n) && s.job.None? && s.name == WaitCheck(n).value
    decreases n
  {
    match n
    case StepNode(s) =>
    case Chain(ns) => WaitCheckOfMeaning(ns);
    case Parallel(ns) => WaitCheckOfMeaning(ns);
  }

  lemma {:induction false} WaitCheckOfMeaning(ns: seq<Node>)
    ensures WaitCheckOf(ns).None? <==> forall s :: s in StepsOf(ns) ==> s.job.Some?
    ensures WaitCheckOf(ns).Some? ==> exists s :: s in StepsOf(ns) && s.job.None? && s.name == WaitCheckOf(ns).value
    decreases ns
  {
    if ns != [] {
      WaitCheckOfMeaning(ns[..|ns| - 1]);
      WaitCheckMeaning(ns[|ns| - 1]);
    }
  }

  // ---------------------------------------------------------------------
  // The shape of a walk: threading through Chains, fanning out in Parallels.

  /** Sibling nodes that are all Steps with accepted requests. */
  predicate AcceptedSteps(ns: seq<Node>) {
    forall k :: 0 <= k < |ns| ==> ns[k].StepNode? && Accepted(ns[k].step.request)
  }

  /** A Step is submitted once, with the map built for its parents, and
      returns its own job, unless it has parents and its request is not
      accepted: then nothing is submitted and the walk fails naming it. */
  lemma StepRun(planName: string, n: Node, deps: seq<Job>, start: nat)
    requires n.StepNode?
    ensures deps == [] || Accepted(n.step.request) ==>
      && StepParams(planName, n.step.request, deps).Some?
      && Run(planName, n, deps, start) ==
         Outcome([Call(n.step, deps, StepParams(planName, n.step.request, deps).value, Job(start))], Success([Job(start)]))
    ensures deps != [] && !Accepted(n.step.request) ==>
      Run(planName, n, deps, start) == Outcome([], Failure(NotAMap(n.step.name)))
  {
    AcceptedParamsSucceed(planName, n.step.request, deps);
  }

  /** An accepted Step is submitted once and returns its own job. */
  lemma AcceptedStepRun(planName: string, n: Node, deps: seq<Job>, start: nat)
    requires n.StepNode? && Accepted(n.step.request)
    ensures StepParams(planName, n.step.request, deps).Some?
    ensures Run(planName, n, deps, start) ==
            Outcome([Call(n.step, deps, StepParams(planName, n.step.request, deps).value, Job(start))], Success([Job(start)]))
  {
    StepRun(planName, n, deps, start);
  }

  /** The calls submit the Step nodes `ns[..i]` in order with consecutive ids
      from `start`, the first waiting for `parents` and every later one for
      exactly the job of the one before it. */
  ghost predicate Threaded(calls: seq<Call>, ns: seq<Node>, i: nat, parents: seq<Job>, start: nat) {
    && i <= |ns| && |calls| == i
    && forall k :: 0 <= k < i ==>
         ns[k] == StepNode(calls[k].step) && calls[k].job == Job(start + k)
         && calls[k].deps == (if k == 0 then parents else [Job(start + k - 1)])
  }

  /** The calls submit the Step nodes `ns[..i]` in order with consecutive ids
      from `start`, every one waiting for `parents`. */
  ghost predicate FannedOut(calls: seq<Call>, ns: seq<Node>, i: nat, parents: seq<Job>, start: nat) {
    && i <= |ns| && |calls| == i
    && forall k :: 0 <= k < i ==>
         ns[k] == StepNode(calls[k].step) && calls[k].job == Job(start + k) && calls[k].deps == parents
  }

  lemma ThreadedExtend(calls: seq<Call>, c: Call, ns: seq<Node>, i: nat, parents: seq<Job>, start: nat)
    requires Threaded(calls, ns, i, parents, start) && i < |ns|
    requires ns[i] == StepNode(c.step) && c.job == Job(start + i)
    requires c.deps == (if i == 0 then parents else [Job(start + i - 1)])
    ensures Threaded(calls + [c], ns, i + 1, parents, start)
  {
    var cs := calls + [c];
    forall k | 0 <= k < i + 1
      ensures ns[k] == StepNode(cs[k].step) && cs[k].job == Job(start + k)
      ensures cs[k].deps == (if k == 0 then parents else [Job(start + k - 1)])
    {
      if k < i {
        assert cs[k] == calls[k];
      }
    }
  }

  lemma FannedOutExtend(calls: seq<Call>, c: Call, ns: seq<Node>, i: nat, parents: seq<Job>, start: nat)
    requires FannedOut(calls, ns, i, parents, start) && i < |ns|
    requires ns[i] == StepNode(c.step) && c.job == Job(start + i) && c.deps == parents
    ensures FannedOut(calls + [c], ns, i + 1, parents, start)
  {
    var cs := calls + [c];
    forall k | 0 <= k < i + 1
      ensures ns[k] == StepNode(cs[k].step) && cs[k].job == Job(start + k) && cs[k].deps == parents
    {
      if k < i {
        assert cs[k] == calls[k];
      }
    }
  }

  /** One more accepted Step, the `i`-th, after a threaded run of Steps. */
  lemma ChainOfStepsNext(planName: string, ns: seq<Node>, i: nat, parents: seq<Job>, start: nat)
    requires 0 < i <= |ns| && AcceptedSteps(ns)
    requires var a := ChainRun(planName, ns, i - 1, parents, start);
      && a.result == Success(if i == 1 then parents else [Job(start + i - 2)])
      && Threaded(a.calls, ns, i - 1, parents, start)
    ensures var o := ChainRun(planName, ns, i, parents, start);
      && o.result == Success([Job(start + i - 1)])
      && Threaded(o.calls, ns, i, parents, start)
  {
    var j := i - 1;
    var a := ChainRun(planName, ns, j, parents, start);
    var deps := a.result.value;
    AcceptedStepRun(planName, ns[j], deps, start + |a.calls|);
    var b := Run(planName, ns[j], deps, start + |a.calls|);
    ChainRunStep(planName, ns, j, parents, start, a.calls, deps, b);
    ThreadedExtend(a.calls, b.calls[0], ns, j, parents, start);
    assert b.calls == [b.calls[0]];
    assert j + 1 == i && start + j == start + i - 1;
  }

  /** A Chain of accepted Steps: the first waits for the Chain's parents, every
      later one for exactly the job of the one before it, and the Chain
      returns the last job (its parents when it is empty). */
  lemma {:induction false} ChainOfStepsRun(planName: string, ns: seq<Node>, i: nat, parents: seq<Job>, start: nat)
    requires i <= |ns| && AcceptedSteps(ns)
    ensures var o := ChainRun(planName, ns, i, parents, start);
      && o.result == Success(if i == 0 then parents else [Job(start + i - 1)])
      && Threaded(o.calls, ns, i, parents, start)
    decreases i
  {
    if i == 0 {
      assert ChainRun(planName, ns, 0, parents, start) == Outcome([], Success(parents));
    } else {
      ChainOfStepsRun(planName, ns, i - 1, parents, start);
      ChainOfStepsNext(planName, ns, i, parents, start);
    }
  }

  /** One more accepted Step after a fanned-out run of Steps. */
  lemma ParallelOfStepsNext(planName: string, ns: seq<Node>, i: nat, parents: seq<Job>, start: nat)
    requires i < |ns| && AcceptedSteps(ns)
    requires var a := ParallelRun(planName, ns, i, parents, start);
      a.result == Success(JobsOf(a.calls)) && FannedOut(a.calls, ns, i, parents, start)
    ensures var o := ParallelRun(planName, ns, i + 1, parents, start);
      o.result == Success(JobsOf(o.calls)) && FannedOut(o.calls, ns, i + 1, parents, start)
  {
    var a := ParallelRun(planName, ns, i, parents, start);
    AcceptedStepRun(planName, ns[i], parents, start + |a.calls|);
    var b := Run(planName, ns[i], parents, start + |a.calls|);
    ParallelRunStep(planName, ns, i, parents, start, a.calls, a.result.value, b);
    FannedOutExtend(a.calls, b.calls[0], ns, i, parents, start);
    assert b.calls == [b.calls[0]];
    var cs := a.calls + b.calls;
    assert cs[..|cs| - 1] == a.calls;
  }

  /** A Parallel of accepted Steps: every Step waits for the same parents, and
      the Parallel returns all their jobs, in order. */
  lemma {:induction false} ParallelOfStepsRun(planName: string, ns: seq<Node>, i: nat, parents: seq<Job>, start: nat)
    requires i <= |ns| && AcceptedSteps(ns)
    ensures var o := ParallelRun(planName, ns, i, parents, start);
      && o.result == Success(JobsOf(o.calls))
      && FannedOut(o.calls, ns, i, parents, start)
    decreases i
  {
    if i > 0 {
      ParallelOfStepsRun(planName, ns, i - 1, parents, start);
      ParallelOfStepsNext(planName, ns, i - 1, parents, start);
    }
  }

  /** The repository's two-Step Chain: the second Step depends on exactly
      the first Step's job, and its map carries that job's "afterok:" entry. */
  lemma ChainOfTwoSteps(planName: string, a: Step, b: Step, parents: seq<Job>, start: nat)
    requires Accepted(a.request) && Accepted(b.request)
    ensures var o := Run(planName, Chain([StepNode(a), StepNode(b)]), parents, start);
      && |o.calls| == 2 && o.calls[0].deps == parents && o.calls[1].deps == [o.calls[0].job]
      && ExtraKey in o.calls[1].params
      && var extra := o.calls[1].params[ExtraKey];
         extra.Dict? && DependencyKey in extra.entries
         && extra.entries[DependencyKey] == Str(DependencyText([o.calls[0].job]))
  {
    ChainOfStepsRun(planName, [StepNode(a), StepNode(b)], 2, parents, start);
    var o := Run(planName, Chain([StepNode(a), StepNode(b)]), parents, start);
    RunCovers(planName, Chain([StepNode(a), StepNode(b)]), parents, start);
    StepParamsContents(planName, b.request, [o.calls[0].job]);
  }

  /** The repository's two-Step Parallel: both Steps carry the parents'
      dependency, neither depends on the other, and both jobs are returned. */
  lemma ParallelOfTwoSteps(planName: string, a: Step, b: Step, parents: seq<Job>, start: nat)
    requires Accepted(a.request) && Accepted(b.request)
    ensures var o := Run(planName, Parallel([StepNode(a), StepNode(b)]), parents, start);
      && |o.calls| == 2 && o.calls[0].deps == parents && o.calls[1].deps == parents
      && o.calls[0].params == StepParams(planName, a.request, parents).value
      && o.calls[1].params == StepParams(planName, b.request, parents).value
      && o.result == Success([o.calls[0].job, o.calls[1].job])
  {
    ParallelOfStepsRun(planName, [StepNode(a), StepNode(b)], 2, parents, start);
    RunCovers(planName, Parallel([StepNode(a), StepNode(b)]), parents, start);
    var o := Run(planName, Parallel([StepNode(a), StepNode(b)]), parents, start);
    LogsMatchCalls(o.calls);
    assert o.result.value == [o.calls[0].job, o.calls[1].job];
  }

  /** Submission starts from no predecessors, so the first Step it submits
      gets no dependency entry: its map is the one built without parents. */
  lemma FirstCallIndependent(planName: string, n: Node, start: nat)
    ensures var o := Run(planName, n, [], start);
      o.calls != [] ==>
        o.calls[0].deps == [] && Some(o.calls[0].params) == StepParams(planName, o.calls[0].step.request, [])
  {
    var o := Run(planName, n, [], start);
    RunDepsEarlier(planName, n, [], start);
    RunCovers(planName, n, [], start);
    if o.calls != [] {
      assert forall j :: j !in o.calls[0].deps;
    }
  }

  /** An empty Parallel returns no jobs, so in `Chain(a, Parallel(), b)` the
      Step `b` gets no dependency on `a` even though the Chain orders them.
      Neither Step can be refused: neither has predecessors. */
  lemma EmptyParallelCutsChain(planName: string, a: Step, b: Step, start: nat)
    ensures var o := Run(planName, Chain([StepNode(a), Parallel([]), StepNode(b)]), [], start);
      && |o.calls| == 2 && o.calls[0].step == a && o.calls[1].step == b
      && o.calls[1].deps == []
      && o.result == Success([o.calls[1].job])
  {
    var ns := [StepNode(a), Parallel([]), StepNode(b)];
    AcceptedParamsSucceed(planName, a.request, []);
    AcceptedParamsSucceed(planName, b.request, []);
    var pa := StepParams(planName, a.request, []).value;
    var pb := StepParams(planName, b.request, []).value;
    var ra := Run(planName, ns[0], [], start);
    assert ra == Outcome([Call(a, [], pa, Job(start))], Success([Job(start)]));
    ChainRunStep(planName, ns, 0, [], start, [], [], ra);
    var rp := Run(planName, ns[1], [Job(start)], start + 1);
    assert rp == Outcome([], Success([]));
    ChainRunStep(planName, ns, 1, [], start, ra.calls, [Job(start)], rp);
    var rb := Run(planName, ns[2], [], start + 1);
    assert rb == Outcome([Call(b, [], pb, Job(start + 1))], Success([Job(start + 1)]));
    assert ra.calls + rp.calls == ra.calls;
    ChainRunStep(planName, ns, 2, [], start, ra.calls, [], rb);
  }
}
