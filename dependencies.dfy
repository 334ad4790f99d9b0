/** The parameter map a Step is submitted with: its translated request, the
    plan's name as a default job name, and an `afterok:` dependency on the
    jobs it waits for. */
module Dependencies {

  import opened Wrappers
  import opened Text
  import opened Resources
  import opened Workflow

  const JobNameKey: string := "slurm_job_name"
  const ExtraKey: string := "slurm_additional_parameters"
  const DependencyKey: string := "dependency"
  const AfterOk: string := "afterok:"

  /** `[str(j.job_id) for j in parent_jobs]`. */
  function JobIds(jobs: seq<Job>): (ids: seq<string>)
    ensures |ids| == |jobs|
    ensures forall i :: 0 <= i < |jobs| ==> ids[i] == NatToDecimal(jobs[i].id)
  {
    seq(|jobs|, i requires 0 <= i < |jobs| => NatToDecimal(jobs[i].id))
  }

  /** `f"afterok:{':'.join(parent_ids)}"`. */
  function DependencyText(parents: seq<Job>): string {
    AfterOk + Join(JobIds(parents), ":")
  }

  /** The map handed to the executor for a Step whose predecessors are
      `parents`, or None where `setdefault(...)["dependency"] = ...` raises
      because the request's existing nested entry is not a map. */
  function StepParams(planName: string, req: Request, parents: seq<Job>): (r: Option<map<string, Value>>)
    ensures r.None? ==> parents != []
    ensures r.Some? ==> JobNameKey in r.value
    ensures r.Some? && parents != [] ==>
      && ExtraKey in r.value && r.value[ExtraKey].Dict?
      && DependencyKey in r.value[ExtraKey].entries
      && r.value[ExtraKey].entries[DependencyKey] == Str(DependencyText(parents))
  {
    var base := BaseParams(req);
    var named := if JobNameKey in base then base else base[JobNameKey := Str(planName)];
    if parents == [] then Some(named)
    else
      var extra := if ExtraKey in named then named[ExtraKey] else Dict(map[]);
      match extra
      case Dict(m) => Some(named[ExtraKey := Dict(m[DependencyKey := Str(DependencyText(parents))])])
      case _ => None
  }

  /** What a Step's parameter map holds: the request's own entries, the
      plan's name only where the request names no job, and, exactly when
      there are predecessors, a nested "dependency" entry replacing any
      earlier one while every other nested entry stays. The map is refused
      exactly when there are predecessors and the request's nested entry is
      not a map. */
  lemma StepParamsContents(planName: string, req: Request, parents: seq<Job>)
    ensures var base := BaseParams(req);
            var r := StepParams(planName, req, parents);
      && (r.None? <==> parents != [] && ExtraKey in base && !base[ExtraKey].Dict?)
      && (r.Some? ==> JobNameKey in r.value)
      && (r.Some? ==> r.value[JobNameKey] == if JobNameKey in base then base[JobNameKey] else Str(planName))
      && (r.Some? ==> forall k :: k != JobNameKey && k != ExtraKey ==>
            (k in r.value <==> k in base) && (k in base ==> r.value[k] == base[k]))
      && (r.Some? && parents == [] ==>
            (ExtraKey in r.value <==> ExtraKey in base) && (ExtraKey in base ==> r.value[ExtraKey] == base[ExtraKey]))
      && (r.Some? && parents != [] ==>
            ExtraKey in r.value && r.value[ExtraKey].Dict?
            && DependencyKey in r.value[ExtraKey].entries
            && r.value[ExtraKey].entries[DependencyKey] == Str(DependencyText(parents)))
      && (r.Some? && parents != [] ==> forall k :: k != DependencyKey ==>
            (k in r.value[ExtraKey].entries <==> ExtraKey in base && k in base[ExtraKey].entries)
            && (k in r.value[ExtraKey].entries ==> r.value[ExtraKey].entries[k] == base[ExtraKey].entries[k]))
  {
  }

  /** A request whose map can take a dependency entry: a typed one, whose
      nested entry is always a map it built, or a raw map whose nested entry
      is absent or a map. */
  predicate Accepted(req: Request) {
    req.Typed? || ExtraKey !in req.entries || req.entries[ExtraKey].Dict?
  }

  /** A Step's map is built exactly when the Step has no predecessors or its
      request is accepted; otherwise `setdefault(...)["dependency"] = ...`
      raises. */
  lemma AcceptedParamsSucceed(planName: string, req: Request, parents: seq<Job>)
    ensures StepParams(planName, req, parents).Some? <==> parents == [] || Accepted(req)
  {
    if req.Typed? {
      SubmititDictContents(req.args);
    }
  }

  /** The dependency text is "afterok:" followed by the predecessors' ids in
      order: splitting the rest on ':' and reading each piece back gives the
      ids. */
  lemma DependencyRoundTrip(parents: seq<Job>)
    requires parents != []
    ensures |DependencyText(parents)| > |AfterOk|
    ensures DependencyText(parents)[..|AfterOk|] == AfterOk
    ensures var pieces := Split(DependencyText(parents)[|AfterOk|..], ':');
      && |pieces| == |parents|
      && forall i :: 0 <= i < |parents| ==> Decimal(pieces[i]) == Some(parents[i].id)
  {
    var ids := JobIds(parents);
    var body := Join(ids, ":");
    forall i | 0 <= i < |ids| ensures ':' !in ids[i] {
      DigitsHaveNoSeparator(ids[i], ':');
    }
    SplitJoin(ids, ':');
    JoinNonEmpty(ids, ":");
    assert DependencyText(parents) == AfterOk + body;
    assert DependencyText(parents)[|AfterOk|..] == body;
  }

  lemma {:induction false} JoinNonEmpty(parts: seq<string>, sep: string)
    requires parts != [] && |parts[0]| > 0
    ensures |Join(parts, sep)| > 0
  {
  }

  /** Distinct predecessor lists give distinct dependency texts. */
  lemma DependencyTextInjective(ps: seq<Job>, qs: seq<Job>)
    requires ps != [] && qs != []
    requires DependencyText(ps) == DependencyText(qs)
    ensures ps == qs
  {
    DependencyRoundTrip(ps);
    DependencyRoundTrip(qs);
    forall i | 0 <= i < |ps| ensures ps[i] == qs[i] {
      assert Some(ps[i].id) == Some(qs[i].id);
    }
  }

  /** One predecessor with id 7: "afterok:7"; two with ids 7 and 12:
      "afterok:7:12". */
  lemma DependencyTextExample()
    ensures DependencyText([Job(7)]) == "afterok:7"
    ensures DependencyText([Job(7), Job(12)]) == "afterok:7:12"
  {
    assert NatToDecimal(7) == "7";
    assert NatToDecimal(1) == "1";
    assert NatToDecimal(12) == "12";
    assert JobIds([Job(7)]) == ["7"];
    assert JobIds([Job(7), Job(12)]) == ["7", "12"];
    assert ["7", "12"][1..] == ["12"];
  }
}
