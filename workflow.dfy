/** The workflow tree: Steps (one job each), Chains (run in order) and
    Parallels (run side by side), and the best-case duration estimate
    `get_duration`. */
module Workflow {

  import opened Wrappers
  import opened Resources
  import opened SlurmTime

  /** A job handle issued by the executor; the model keeps only its id. */
  datatype Job = Job(id: nat)

  /** A Step. Its name, request and parsed duration are fixed when it is
      built; its job slot is empty until the plan is submitted. The callable
      and its arguments are forwarded to the executor untouched and are not
      modelled. */
  class Step {
    const name: string
    const request: Request
    const duration: nat
    var job: Option<Job>

    /** The duration is the parse of the request's time budget. */
    predicate Valid() {
      StepDuration(name, request) == Success(duration)
    }

    constructor (name: string, request: Request)
      requires StepDuration(name, request).Success?
      ensures this.name == name && this.request == request
      ensures Valid() && job == None
    {
      this.name := name;
      this.request := request;
      this.duration := StepDuration(name, request).value;
      this.job := None;
    }
  }

  /** `Step(name, func, slurm_args)`: the constructor raises, and no Step
      exists, when the request has no time budget or the budget does not
      parse. */
  method NewStep(name: string, request: Request) returns (r: Result<Step, StepError>)
    ensures r.Failure? <==> StepDuration(name, request).Failure?
    ensures r.Failure? ==> r.error == StepDuration(name, request).error
    ensures r.Success? ==> fresh(r.value) && r.value.name == name && r.value.request == request
    ensures r.Success? ==> r.value.Valid() && r.value.job == None
  {
    var d := StepDuration(name, request);
    if d.Failure? {
      return Failure(d.error);
    }
    var s := new Step(name, request);
    return Success(s);
  }

  /** A node of the workflow tree. */
  datatype Node =
    | StepNode(step: Step)
    | Chain(nodes: seq<Node>)
    | Parallel(nodes: seq<Node>)

  /** The duration estimate of `get_duration` on unbounded integers: a Step's
      parsed duration, the sum over a Chain, the maximum over a Parallel, and
      zero for an empty composite. `GetDuration` adds the `timedelta` limit. */
  function Duration(n: Node): nat
    decreases n
  {
    match n
    case StepNode(s) => s.duration
    case Chain(ns) => SumDurations(ns)
    case Parallel(ns) => MaxDuration(ns)
  }

  /** The total of the child durations: no child exceeds it. */
  function SumDurations(ns: seq<Node>): (d: nat)
    ensures forall i :: 0 <= i < |ns| ==> Duration(ns[i]) <= d
    ensures ns == [] ==> d == 0
    decreases ns
  {
    if ns == [] then 0
    else
      assert forall i :: 0 <= i < |ns| - 1 ==> ns[i] == ns[..|ns| - 1][i];
      SumDurations(ns[..|ns| - 1]) + Duration(ns[|ns| - 1])
  }

  /** The largest child duration: no child exceeds it, and a non-empty
      Parallel has a child that reaches it. */
  function MaxDuration(ns: seq<Node>): (d: nat)
    ensures forall i :: 0 <= i < |ns| ==> Duration(ns[i]) <= d
    ensures ns == [] ==> d == 0
    ensures ns != [] ==> exists i :: 0 <= i < |ns| && Duration(ns[i]) == d
    decreases ns
  {
    if ns == [] then 0
    else
      var init := MaxDuration(ns[..|ns| - 1]);
      var last := Duration(ns[|ns| - 1]);
      assert forall i :: 0 <= i < |ns| - 1 ==> ns[i] == ns[..|ns| - 1][i];
      if init < last then last else init
  }

  /** `get_duration` as Python computes it on `timedelta`s: a Chain's `sum`
      raises OverflowError (None here) once its running total passes the
      largest `timedelta`, and a composite fails when a child does. When it
      succeeds it agrees with the estimate `Duration`. */
  function GetDuration(n: Node): (r: Option<nat>)
    ensures r.Some? ==> r.value == Duration(n)
    decreases n
  {
    match n
    case StepNode(s) => Some(s.duration)
    case Chain(ns) => GetSum(ns)
    case Parallel(ns) => GetMax(ns)
  }

  /** `sum((n.get_duration() for n in ns), timedelta(0))`, left to right. */
  function GetSum(ns: seq<Node>): (r: Option<nat>)
    ensures r.Some? ==> r.value == SumDurations(ns)
    decreases ns
  {
    if ns == [] then Some(0)
    else
      match GetSum(ns[..|ns| - 1])
      case None => None
      case Some(total) =>
        match GetDuration(ns[|ns| - 1])
        case None => None
        case Some(d) => if total + d > MaxSeconds then None else Some(total + d)
  }

  /** `max((n.get_duration() for n in ns), default=timedelta(0))`. */
  function GetMax(ns: seq<Node>): (r: Option<nat>)
    ensures r.Some? ==> r.value == MaxDuration(ns)
    decreases ns
  {
    if ns == [] then Some(0)
    else
      match GetMax(ns[..|ns| - 1])
      case None => None
      case Some(m) =>
        match GetDuration(ns[|ns| - 1])
        case None => None
        case Some(d) => Some(if m < d then d else m)
  }

  /** The Steps of a tree, left to right: the order in which submission
      reaches them. */
  function Steps(n: Node): seq<Step>
    decreases n
  {
    match n
    case StepNode(s) => [s]
    case Chain(ns) => StepsOf(ns)
    case Parallel(ns) => StepsOf(ns)
  }

  function StepsOf(ns: seq<Node>): seq<Step>
    decreases ns
  {
    if ns == [] then [] else StepsOf(ns[..|ns| - 1]) + Steps(ns[|ns| - 1])
  }

  /** The Step objects of a tree, as a frame. */
  function StepSet(n: Node): set<Step> {
    set s | s in Steps(n)
  }

  /** Every Step of a tree exists in the current heap. */
  lemma {:induction false} StepsAllocated(n: Node)
    ensures forall s :: s in StepSet(n) ==> allocated(s)
    decreases n
  {
    match n
    case StepNode(_) =>
    case Chain(ns) =>
      StepsOfAllocated(ns);
      assert Steps(n) == StepsOf(ns);
    case Parallel(ns) =>
      StepsOfAllocated(ns);
      assert Steps(n) == StepsOf(ns);
  }

  lemma {:induction false} StepsOfAllocated(ns: seq<Node>)
    ensures forall s :: s in StepsOf(ns) ==> allocated(s)
    decreases ns
  {
    if ns != [] {
      var init, last := ns[..|ns| - 1], ns[|ns| - 1];
      StepsOfAllocated(init);
      StepsAllocated(last);
      assert StepsOf(ns) == StepsOf(init) + Steps(last);
      forall s | s in StepsOf(ns) ensures allocated(s) {
        if s in StepsOf(init) {
        } else {
          assert s in StepSet(last);
        }
      }
    }
  }

  /** A child's Steps are among its parent's. */
  lemma {:induction false} ChildSteps(ns: seq<Node>, i: nat)
    requires i < |ns|
    ensures forall s :: s in Steps(ns[i]) ==> s in StepsOf(ns)
    ensures StepSet(ns[i]) <= StepSet(Chain(ns)) && StepSet(ns[i]) <= StepSet(Parallel(ns))
    decreases |ns|
  {
    var init := ns[..|ns| - 1];
    if i < |ns| - 1 {
      assert init[i] == ns[i];
      ChildSteps(init, i);
    }
  }
  /** The Steps of the first `i` children are those of the first `i - 1`
      followed by those of child `i - 1`. */
  lemma StepsOfPrefix(ns: seq<Node>, i: nat)
    requires 0 < i <= |ns|
    ensures StepsOf(ns[..i]) == StepsOf(ns[..i - 1]) + Steps(ns[i - 1])
  {
    assert ns[..i][..i - 1] == ns[..i - 1];
  }

  /** `sum` over the concatenation of two runs of children is the sum of the
      two sums: a Chain's estimate is additive in its parts. */
  lemma {:induction false} SumDurationsAppend(xs: seq<Node>, ys: seq<Node>)
    ensures SumDurations(xs + ys) == SumDurations(xs) + SumDurations(ys)
    decreases |ys|
  {
    if ys != [] {
      var zs := xs + ys;
      assert zs[..|zs| - 1] == xs + ys[..|ys| - 1];
      assert zs[|zs| - 1] == ys[|ys| - 1];
      SumDurationsAppend(xs, ys[..|ys| - 1]);
    } else {
      assert xs + ys == xs;
    }
  }

  /** The maximum over a concatenation is the larger of the two maxima. */
  lemma {:induction false} MaxDurationAppend(xs: seq<Node>, ys: seq<Node>)
    ensures MaxDuration(xs + ys) ==
            if MaxDuration(xs) < MaxDuration(ys) then MaxDuration(ys) else MaxDuration(xs)
    decreases |ys|
  {
    if ys != [] {
      var zs := xs + ys;
      assert zs[..|zs| - 1] == xs + ys[..|ys| - 1];
      assert zs[|zs| - 1] == ys[|ys| - 1];
      MaxDurationAppend(xs, ys[..|ys| - 1]);
    } else {
      assert xs + ys == xs;
    }
  }

  /** The repository's duration properties for two children and for none. */
  lemma DurationOfPairs(a: Node, b: Node)
    ensures Duration(Chain([a, b])) == Duration(a) + Duration(b)
    ensures Duration(Parallel([a, b])) == if Duration(a) < Duration(b) then Duration(b) else Duration(a)
    ensures Duration(Chain([])) == 0 && Duration(Parallel([])) == 0
  {
    assert [a, b][..1] == [a];
    assert [a][..0] == [];
    assert SumDurations([a]) == Duration(a);
    assert SumDurations([a, b]) == Duration(a) + Duration(b);
  }

  /** No Step of a tree takes longer than the tree's estimate. */
  lemma {:induction false} StepWithinDuration(n: Node, s: Step)
    requires s in Steps(n)
    ensures s.duration <= Duration(n)
    decreases n
  {
    match n
    case StepNode(_) =>
    case Chain(ns) => StepWithinSum(ns, s);
    case Parallel(ns) => StepWithinMax(ns, s);
  }

  lemma {:induction false} StepWithinSum(ns: seq<Node>, s: Step)
    requires s in StepsOf(ns)
    ensures s.duration <= SumDurations(ns)
    decreases ns
  {
    var init := ns[..|ns| - 1];
    if s in StepsOf(init) {
      StepWithinSum(init, s);
    } else {
      StepWithinDuration(ns[|ns| - 1], s);
    }
  }

  lemma {:induction false} StepWithinMax(ns: seq<Node>, s: Step)
    requires s in StepsOf(ns)
    ensures s.duration <= MaxDuration(ns)
    decreases ns
  {
    var init := ns[..|ns| - 1];
    if s in StepsOf(init) {
      StepWithinMax(init, s);
      assert MaxDuration(init) <= MaxDuration(ns) by {
        MaxDurationAppend(init, [ns[|ns| - 1]]);
        assert init + [ns[|ns| - 1]] == ns;
      }
    } else {
      StepWithinDuration(ns[|ns| - 1], s);
    }
  }

  /** With every Step's duration within the `timedelta` limit, as every
      Step built from a request has (see `StepDuration`), `get_duration`
      succeeds exactly when the estimate is within the limit, and then
      returns the estimate. */
  lemma {:induction false} GetDurationWithinLimit(n: Node)
    requires forall s :: s in Steps(n) ==> s.duration <= MaxSeconds
    ensures GetDuration(n) == if Duration(n) <= MaxSeconds then Some(Duration(n)) else None
    decreases n
  {
    match n
    case StepNode(_) =>
    case Chain(ns) => GetSumWithinLimit(ns);
    case Parallel(ns) => GetMaxWithinLimit(ns);
  }

  lemma {:induction false} GetSumWithinLimit(ns: seq<Node>)
    requires forall s :: s in StepsOf(ns) ==> s.duration <= MaxSeconds
    ensures GetSum(ns) == if SumDurations(ns) <= MaxSeconds then Some(SumDurations(ns)) else None
    decreases ns
  {
    if ns != [] {
      var init, last := ns[..|ns| - 1], ns[|ns| - 1];
      assert StepsOf(ns) == StepsOf(init) + Steps(last);
      GetSumWithinLimit(init);
      GetDurationWithinLimit(last);
    }
  }

  lemma {:induction false} GetMaxWithinLimit(ns: seq<Node>)
    requires forall s :: s in StepsOf(ns) ==> s.duration <= MaxSeconds
    ensures GetMax(ns) == if MaxDuration(ns) <= MaxSeconds then Some(MaxDuration(ns)) else None
    decreases ns
  {
    if ns != [] {
      var init, last := ns[..|ns| - 1], ns[|ns| - 1];
      assert StepsOf(ns) == StepsOf(init) + Steps(last);
      GetMaxWithinLimit(init);
      GetDurationWithinLimit(last);
    }
  }

  /** A built Step's duration is within the `timedelta` limit. */
  lemma ValidWithinLimit(s: Step)
    requires s.Valid()
    ensures s.duration <= MaxSeconds
  {
  }

  /** Two Steps of 999999999 days each build, but their Chain's estimate
      overflows the `timedelta` sum. */
  lemma ChainOverflowExample(a: Step, b: Step)
    requires a.duration == MaxDays * 86400 && b.duration == MaxDays * 86400
    ensures GetDuration(Chain([StepNode(a), StepNode(b)])) == None
    ensures GetDuration(Parallel([StepNode(a), StepNode(b)])) == Some(MaxDays * 86400)
  {
    var ns := [StepNode(a), StepNode(b)];
    assert ns[..1] == [StepNode(a)] && [StepNode(a)][..0] == [];
    assert StepsOf([StepNode(a)]) == [a] by {
      assert StepsOf([StepNode(a)]) == StepsOf([]) + Steps(StepNode(a));
    }
    assert StepsOf(ns) == StepsOf([StepNode(a)]) + Steps(StepNode(b));
    GetDurationWithinLimit(Chain([StepNode(a), StepNode(b)]));
    GetDurationWithinLimit(Parallel([StepNode(a), StepNode(b)]));
    DurationOfPairs(StepNode(a), StepNode(b));
  }

  /** An estimate within the `timedelta` limit is what `get_duration`
      returns: no Step of the tree can then exceed the limit either. */
  lemma GetDurationFits(n: Node)
    requires Duration(n) <= MaxSeconds
    ensures GetDuration(n) == Some(Duration(n))
  {
    forall s | s in Steps(n) ensures s.duration <= MaxSeconds {
      StepWithinDuration(n, s);
    }
    GetDurationWithinLimit(n);
  }

  /** The repository's nested example: one hour, then three and two hours
      side by side, then half an hour, is four and a half hours. */
  lemma NestedDurationExample(a: Step, b: Step, c: Step, d: Step)
    requires a.duration == 3600 && b.duration == 3 * 3600 && c.duration == 2 * 3600
    requires d.duration == 1800
    ensures GetDuration(Chain([StepNode(a), Parallel([StepNode(b), StepNode(c)]), StepNode(d)])) == Some(16200)
  {
    var par := Parallel([StepNode(b), StepNode(c)]);
    DurationOfPairs(StepNode(b), StepNode(c));
    var ns := [StepNode(a), par, StepNode(d)];
    assert ns == [StepNode(a), par] + [StepNode(d)];
    SumDurationsAppend([StepNode(a), par], [StepNode(d)]);
    DurationOfPairs(StepNode(a), par);
    assert [StepNode(d)][..0] == [];
    assert SumDurations([StepNode(d)]) == 1800;
    GetDurationFits(Chain(ns));
  }

  /** A Step built from a request with time "01:00:00" lasts an hour, so the
      example durations are the ones the tests construct. */
  lemma ValidStepDuration(s: Step)
    requires s.Valid() && s.request == Typed(DefaultArgs("01:00:00", "batch"))
    ensures s.duration == 3600
  {
    SlurmTime.ParseExampleHour();
  }

  /** The repository's two-Step Chain, built from "01:00:00" and "00:30:00",
      lasts an hour and a half. */
  lemma ChainDurationExample(a: Step, b: Step)
    requires a.Valid() && a.request == Typed(DefaultArgs("01:00:00", "batch"))
    requires b.Valid() && b.request == Typed(DefaultArgs("00:30:00", "batch"))
    ensures GetDuration(Chain([StepNode(a), StepNode(b)])) == Some(5400)
  {
    ValidStepDuration(a);
    SlurmTime.ParseExampleHalfHour();
    DurationOfPairs(StepNode(a), StepNode(b));
    GetDurationFits(Chain([StepNode(a), StepNode(b)]));
  }

  /** The repository's two-Step Parallel, built from "01:00:00" and
      "02:00:00", lasts two hours; the empty Parallel and Chain last
      nothing. */
  lemma ParallelDurationExample(a: Step, b: Step)
    requires a.Valid() && a.request == Typed(DefaultArgs("01:00:00", "batch"))
    requires b.Valid() && b.request == Typed(DefaultArgs("02:00:00", "batch"))
    ensures GetDuration(Parallel([StepNode(a), StepNode(b)])) == Some(7200)
    ensures GetDuration(Parallel([])) == Some(0) && GetDuration(Chain([])) == Some(0)
  {
    ValidStepDuration(a);
    SlurmTime.ParseExampleTwoHours();
    assert b.duration == 7200;
    DurationOfPairs(StepNode(a), StepNode(b));
    GetDurationFits(Parallel([StepNode(a), StepNode(b)]));
  }
}
