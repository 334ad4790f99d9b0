/** `Plan.submit`: the recursive walk that hands each Step to the executor,
    threading predecessor jobs through Chains and fanning them out across
    Parallels. */
module Submission {

  import opened Wrappers
  import opened Resources
  import opened Workflow
  import opened Dependencies
  import opened Schedule

  /** An in-memory executor: it issues consecutive job ids and keeps the
      parameter map of every submission in order. */
  class Executor {
    var nextId: nat
    var log: seq<map<string, Value>>

    constructor (firstId: nat)
      ensures nextId == firstId && log == []
    {
      nextId := firstId;
      log := [];
    }

    /** `executor.update_parameters(**params)` followed by
        `executor.submit(...)`: a fresh job, submitted with `params`. */
    method Submit(params: map<string, Value>) returns (job: Job)
      modifies this
      ensures job == Job(old(nextId))
      ensures nextId == old(nextId) + 1
      ensures log == old(log) + [params]
    {
      job := Job(nextId);
      nextId := nextId + 1;
      log := log + [params];
    }
  }

  class Plan {
    const name: string
    const root: Node

    constructor (name: string, root: Node)
      ensures this.name == name && this.root == root
    {
      this.name := name;
      this.root := root;
    }

    /** `_walk(node, parent_jobs)`, with `all_jobs` passed in and handed back.
        It makes exactly the calls `Run` describes: their maps go to the
        executor's log, their jobs to `all_jobs` and to the Steps' slots. */
    method Walk(ex: Executor, node: Node, parents: seq<Job>, allJobs: seq<Job>)
      returns (r: Result<seq<Job>, SubmitError>, allJobs': seq<Job>)
      modifies ex, StepSet(node)
      ensures var o := Run(name, node, parents, old(ex.nextId));
        && r == o.result
        && ex.nextId == old(ex.nextId) + |o.calls|
        && ex.log == old(ex.log) + ParamLog(o.calls)
        && allJobs' == allJobs + JobsOf(o.calls)
      ensures forall s :: old(allocated(s)) && s in StepSet(node) ==>
        s.job == SlotAfter(Run(name, node, parents, old(ex.nextId)).calls, s, old(s.job))
      decreases node, 2
    {
      match node
      case StepNode(s) =>
        assert StepSet(node) == {s};
        r, allJobs' := WalkStep(ex, s, parents, allJobs);
      case Chain(ns) =>
        r, allJobs' := WalkChain(ex, node, ns, parents, allJobs);
      case Parallel(ns) =>
        r, allJobs' := WalkParallel(ex, node, ns, parents, allJobs);
    }

    /** The Step branch of `_walk`: build the Step's parameter map, submit
        it, and record the job in the Step's slot and in `all_jobs`. When
        the nested entry is not a map nothing is submitted. */
    method WalkStep(ex: Executor, s: Step, parents: seq<Job>, allJobs: seq<Job>)
      returns (r: Result<seq<Job>, SubmitError>, allJobs': seq<Job>)
      modifies ex, s
      ensures StepParams(name, s.request, parents).None? ==>
        r == Failure(NotAMap(s.name)) && allJobs' == allJobs && unchanged(ex, s)
      ensures StepParams(name, s.request, parents).Some? ==>
        && r == Success([Job(old(ex.nextId))])
        && ex.nextId == old(ex.nextId) + 1
        && ex.log == old(ex.log) + [StepParams(name, s.request, parents).value]
        && s.job == Some(Job(old(ex.nextId)))
        && allJobs' == allJobs + [Job(old(ex.nextId))]
    {
      var params: map<string, Value>;
      if s.request.Typed? {
        params := ToSubmititDict(s.request.args);
      } else {
        params := s.request.entries;
      }
      assert params == BaseParams(s.request);
      if JobNameKey !in params {
        params := params[JobNameKey := Str(name)];
      }
      if parents != [] {
        var dep := DependencyText(parents);
        ghost var named := params;
        if ExtraKey !in params {
          params := params[ExtraKey := Dict(map[])];
        }
        var extra := params[ExtraKey];
        if !extra.Dict? {
          return Failure(NotAMap(s.name)), allJobs;
        }
        params := params[ExtraKey := Dict(extra.entries[DependencyKey := Str(dep)])];
        assert params == named[ExtraKey := Dict(extra.entries[DependencyKey := Str(dep)])];
      }
      assert StepParams(name, s.request, parents) == Some(params);
      var job := ex.Submit(params);
      s.job := Some(job);
      allJobs' := allJobs + [job];
      r := Success([job]);
    }

    /** One child of a Chain or a Parallel, walked after the calls `calls`:
        the executor's log, `all_jobs` and the Steps' slots then reflect
        `calls` followed by the child's calls. `before` holds the slots as
        they were before `calls`. */
    method WalkChild(ex: Executor, node: Node, child: Node, deps: seq<Job>, allJobs: seq<Job>,
                     ghost calls: seq<Call>, ghost log0: seq<map<string, Value>>, ghost jobs0: seq<Job>,
                     ghost before: map<Step, Option<Job>>)
      returns (r: Result<seq<Job>, SubmitError>, allJobs': seq<Job>)
      requires StepSet(child) <= StepSet(node)
      requires forall s :: s in StepSet(node) ==> allocated(s) && s in before
      requires ex.log == log0 + ParamLog(calls) && allJobs == jobs0 + JobsOf(calls)
      requires forall s :: s in StepSet(node) ==> s.job == SlotAfter(calls, s, before[s])
      modifies ex, StepSet(child)
      ensures var b := Run(name, child, deps, old(ex.nextId));
        && r == b.result
        && ex.nextId == old(ex.nextId) + |b.calls|
        && ex.log == log0 + ParamLog(calls + b.calls)
        && allJobs' == jobs0 + JobsOf(calls + b.calls)
      ensures forall s :: s in StepSet(node) ==>
        s.job == SlotAfter(calls + Run(name, child, deps, old(ex.nextId)).calls, s, before[s])
      decreases child, 3
    {
      ghost var b := Run(name, child, deps, ex.nextId);
      r, allJobs' := Walk(ex, child, deps, allJobs);
      assert ex.log == log0 + ParamLog(calls + b.calls) by {
        ParamLogAppend(calls, b.calls);
        AppendAssociative(log0, ParamLog(calls), ParamLog(b.calls));
      }
      assert allJobs' == jobs0 + JobsOf(calls + b.calls) by {
        JobsOfAppend(calls, b.calls);
        AppendAssociative(jobs0, JobsOf(calls), JobsOf(b.calls));
      }
      forall s | s in StepSet(node)
        ensures s.job == SlotAfter(calls + b.calls, s, before[s])
      {
        SlotAfterAppend(calls, b.calls, s, before[s]);
        if s !in StepSet(child) {
          RunLeavesOthers(name, child, deps, old(ex.nextId), s, old(s.job));
        }
      }
    }

    /** The Chain branch of `_walk`: each child gets `current_deps` and
        replaces it with what it returns. */
    method WalkChain(ex: Executor, node: Node, ns: seq<Node>, parents: seq<Job>, allJobs: seq<Job>)
      returns (r: Result<seq<Job>, SubmitError>, allJobs': seq<Job>)
      requires node == Chain(ns)
      modifies ex, StepSet(node)
      ensures var o := ChainRun(name, ns, |ns|, parents, old(ex.nextId));
        && r == o.result
        && ex.nextId == old(ex.nextId) + |o.calls|
        && ex.log == old(ex.log) + ParamLog(o.calls)
        && allJobs' == allJobs + JobsOf(o.calls)
      ensures forall s :: old(allocated(s)) && s in StepSet(node) ==>
        s.job == SlotAfter(ChainRun(name, ns, |ns|, parents, old(ex.nextId)).calls, s, old(s.job))
      decreases node, 1
    {
      ghost var start := ex.nextId;
      ghost var before := map s | s in StepSet(node) :: s.job;
      StepsAllocated(node);
      ghost var calls: seq<Call> := [];
      var currentDeps := parents;
      allJobs' := allJobs;
      var i := 0;
      while i < |ns|
        invariant 0 <= i <= |ns|
        invariant ChainRun(name, ns, i, parents, start) == Outcome(calls, Success(currentDeps))
        invariant ex.nextId == start + |calls|
        invariant ex.log == old(ex.log) + ParamLog(calls)
        invariant allJobs' == allJobs + JobsOf(calls)
        invariant forall s :: s in StepSet(node) ==> allocated(s)
        invariant forall s :: s in StepSet(node) ==> s.job == SlotAfter(calls, s, before[s])
      {
        ChildSteps(ns, i);
        ghost var b := Run(name, ns[i], currentDeps, ex.nextId);
        ChainRunStep(name, ns, i, parents, start, calls, currentDeps, b);
        var res;
        res, allJobs' := WalkChild(ex, node, ns[i], currentDeps, allJobs', calls, old(ex.log), allJobs, before);
        calls := calls + b.calls;
        if res.Failure? {
          return res, allJobs';
        }
        currentDeps := res.value;
        i := i + 1;
      }
      r := Success(currentDeps);
    }

    /** The Parallel branch of `_walk`: every child gets `parent_jobs` and
        `results` collects what they return. */
    method WalkParallel(ex: Executor, node: Node, ns: seq<Node>, parents: seq<Job>, allJobs: seq<Job>)
      returns (r: Result<seq<Job>, SubmitError>, allJobs': seq<Job>)
      requires node == Parallel(ns)
      modifies ex, StepSet(node)
      ensures var o := ParallelRun(name, ns, |ns|, parents, old(ex.nextId));
        && r == o.result
        && ex.nextId == old(ex.nextId) + |o.calls|
        && ex.log == old(ex.log) + ParamLog(o.calls)
        && allJobs' == allJobs + JobsOf(o.calls)
      ensures forall s :: old(allocated(s)) && s in StepSet(node) ==>
        s.job == SlotAfter(ParallelRun(name, ns, |ns|, parents, old(ex.nextId)).calls, s, old(s.job))
      decreases node, 1
    {
      ghost var start := ex.nextId;
      ghost var before := map s | s in StepSet(node) :: s.job;
      StepsAllocated(node);
      ghost var calls: seq<Call> := [];
      var results: seq<Job> := [];
      allJobs' := allJobs;
      var i := 0;
      while i < |ns|
        invariant 0 <= i <= |ns|
        invariant ParallelRun(name, ns, i, parents, start) == Outcome(calls, Success(results))
        invariant ex.nextId == start + |calls|
        invariant ex.log == old(ex.log) + ParamLog(calls)
        invariant allJobs' == allJobs + JobsOf(calls)
        invariant forall s :: s in StepSet(node) ==> allocated(s)
        invariant forall s :: s in StepSet(node) ==> s.job == SlotAfter(calls, s, before[s])
      {
        ChildSteps(ns, i);
        ghost var b := Run(name, ns[i], parents, ex.nextId);
        ParallelRunStep(name, ns, i, parents, start, calls, results, b);
        var res;
        res, allJobs' := WalkChild(ex, node, ns[i], parents, allJobs', calls, old(ex.log), allJobs, before);
        calls := calls + b.calls;
        if res.Failure? {
          return Failure(res.error), allJobs';
        }
        results := results + res.value;
        i := i + 1;
      }
      r := Success(results);
    }

    /** `Plan.submit(executor)`: walks the tree from an empty predecessor
        list and returns every job it queued, in the order it queued them.
        A Step whose nested entry is not a map stops it with an error after
        the Steps before it were submitted. */
    method Submit(ex: Executor) returns (r: Result<seq<Job>, SubmitError>)
      modifies ex, StepSet(root)
      ensures var o := Run(name, root, [], old(ex.nextId));
        && (r.Success? <==> o.result.Success?)
        && (r.Success? ==> r.value == JobsOf(o.calls))
        && (r.Failure? ==> r.error == o.result.error)
        && ex.nextId == old(ex.nextId) + |o.calls|
        && ex.log == old(ex.log) + ParamLog(o.calls)
      ensures forall s :: old(allocated(s)) && s in StepSet(root) ==>
        s.job == SlotAfter(Run(name, root, [], old(ex.nextId)).calls, s, old(s.job))
      ensures r.Success? ==> |r.value| == |Steps(root)|
      ensures r.Success? ==> forall i :: 0 <= i < |r.value| ==> r.value[i] == Job(old(ex.nextId) + i)
      ensures r.Success? ==> WaitCheck(root) == None
    {
      ghost var start := ex.nextId;
      StepsAllocated(root);
      RunComplete(name, root, [], start);
      ghost var o := Run(name, root, [], start);
      var res, allJobs := Walk(ex, root, [], []);
      if res.Failure? {
        return Failure(res.error);
      }
      LogsMatchCalls(o.calls);
      forall s | s in StepSet(root) ensures s.job.Some? {
        var i :| 0 <= i < |Steps(root)| && Steps(root)[i] == s;
        SlotAfterFilled(o.calls, i, old(s.job));
      }
      WaitCheckMeaning(root);
      r := Success(allJobs);
    }
  }

  lemma AppendAssociative<T>(a: seq<T>, b: seq<T>, c: seq<T>)
    ensures (a + b) + c == a + (b + c)
  {
  }
}
