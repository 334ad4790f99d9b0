/** Resource requests: the typed `SlurmArgs` record, its translation into the
    flat parameter map the executor takes (`to_submitit_dict`), the raw-map
    alternative, and how a Step finds its time budget in either (`_get_time`). */
module Resources {

  import opened Wrappers
  import opened Text
  import opened SlurmTime

  /** A Python value stored in a parameter map. */
  datatype Value =
    | Null
    | Int(i: int)
    | Str(s: string)
    | Dict(entries: map<string, Value>)

  /** SLURM's mail notification kinds; each stands for its own name. */
  datatype MailType = MailNone | Begin | End | Fail | Requeue | All

  function MailTypeName(t: MailType): string {
    match t
    case MailNone => "NONE"
    case Begin => "BEGIN"
    case End => "END"
    case Fail => "FAIL"
    case Requeue => "REQUEUE"
    case All => "ALL"
  }

  function MailTypeNames(ts: seq<MailType>): (names: seq<string>)
    ensures |names| == |ts|
    ensures forall i :: 0 <= i < |ts| ==> names[i] == MailTypeName(ts[i])
  {
    seq(|ts|, i requires 0 <= i < |ts| => MailTypeName(ts[i]))
  }

  /** `",".join(mail_type)`: the names in list order, separated by commas. */
  function MailTypeList(ts: seq<MailType>): string {
    Join(MailTypeNames(ts), ",")
  }

  /** The mail-type string names exactly the listed kinds, in order. */
  lemma MailTypeListRoundTrip(ts: seq<MailType>)
    requires |ts| > 0
    ensures Split(MailTypeList(ts), ',') == MailTypeNames(ts)
  {
    var names := MailTypeNames(ts);
    forall i | 0 <= i < |names| ensures ',' !in names[i] {
      match ts[i]
      case MailNone =>
      case Begin =>
      case End =>
      case Fail =>
      case Requeue =>
      case All =>
    }
    SplitJoin(names, ',');
  }

  /** The typed resource request (`SlurmArgs`). Optional fields are `None`
      when unset. */
  datatype SlurmArgs = SlurmArgs(
    time: string,
    partition: string,
    gpusPerNode: int,
    nodes: int,
    cpusPerTask: Option<int>,
    cpusPerGpu: Option<int>,
    memGb: Option<int>,
    account: Option<string>,
    cluster: Option<string>,
    mailType: seq<MailType>,
    mailUser: Option<string>,
    additionalParams: map<string, Value>)

  /** `SlurmArgs(time=..., partition=...)` with every other field at its default. */
  function DefaultArgs(time: string, partition: string): SlurmArgs {
    SlurmArgs(time, partition, 0, 1, None, None, None, None, None, [], None, map[])
  }

  function IntEntry(o: Option<int>): Option<Value> {
    if o.Some? then Some(Int(o.value)) else None
  }

  function StrEntry(o: Option<string>): Option<Value> {
    if o.Some? then Some(Str(o.value)) else None
  }

  // ---------------------------------------------------------------------
  // What `to_submitit_dict` produces, key by key.

  /** The keys of `slurm_additional_parameters` that a typed request derives. */
  const DerivedKeys: set<string> :=
    {"nodes", "cpus_per_gpu", "account", "clusters", "mail_type", "mail_user"}

  /** The value derived for key `k` of the nested map, if any: `nodes` only
      when it is not 1, the cluster under the plural key `clusters`, the mail
      types joined by commas when there is at least one. */
  function DerivedExtra(a: SlurmArgs, k: string): Option<Value> {
    if k == "nodes" then (if a.nodes != 1 then Some(Int(a.nodes)) else None)
    else if k == "cpus_per_gpu" then IntEntry(a.cpusPerGpu)
    else if k == "account" then StrEntry(a.account)
    else if k == "clusters" then StrEntry(a.cluster)
    else if k == "mail_type" then (if a.mailType != [] then Some(Str(MailTypeList(a.mailType))) else None)
    else if k == "mail_user" then StrEntry(a.mailUser)
    else None
  }

  /** The derived entries among the keys `ks`. */
  function DerivedAmong(a: SlurmArgs, ks: set<string>): map<string, Value> {
    map k | k in ks && DerivedExtra(a, k).Some? :: DerivedExtra(a, k).value
  }

  /** The nested map: the derived entries, where an explicit additional
      parameter wins over a derived value for the same key. */
  function Extras(a: SlurmArgs): map<string, Value> {
    DerivedAmong(a, DerivedKeys) + a.additionalParams
  }

  /** The top-level keys a typed request may produce. */
  const TopKeys: set<string> :=
    {"slurm_time", "slurm_partition", "gpus_per_node", "cpus_per_task", "mem_gb",
     "slurm_additional_parameters"}

  function TopEntry(a: SlurmArgs, k: string): Option<Value> {
    if k == "slurm_time" then Some(Str(a.time))
    else if k == "slurm_partition" then Some(Str(a.partition))
    else if k == "gpus_per_node" then Some(Int(a.gpusPerNode))
    else if k == "cpus_per_task" then IntEntry(a.cpusPerTask)
    else if k == "mem_gb" then IntEntry(a.memGb)
    else if k == "slurm_additional_parameters" then
      (if Extras(a) != map[] then Some(Dict(Extras(a))) else None)
    else None
  }

  /** The top-level entries among the keys `ks`. */
  function TopAmong(a: SlurmArgs, ks: set<string>): map<string, Value> {
    map k | k in ks && TopEntry(a, k).Some? :: TopEntry(a, k).value
  }

  /** The parameter map of a typed request, described key by key. */
  function SubmititDict(a: SlurmArgs): map<string, Value> {
    TopAmong(a, TopKeys)
  }

  /** Inserting one more key's derived entry, when it has one. */
  lemma DerivedStep(a: SlurmArgs, ks: set<string>, k: string, m: map<string, Value>)
    requires m == DerivedAmong(a, ks)
    ensures DerivedAmong(a, ks + {k}) ==
            if DerivedExtra(a, k).Some? then m[k := DerivedExtra(a, k).value] else m
  {
  }

  /** Inserting one more key's top-level entry, when it has one. */
  lemma TopStep(a: SlurmArgs, ks: set<string>, k: string, m: map<string, Value>)
    requires m == TopAmong(a, ks)
    ensures TopAmong(a, ks + {k}) ==
            if TopEntry(a, k).Some? then m[k := TopEntry(a, k).value] else m
  {
  }

  lemma DerivedKeysListed()
    ensures {} + {"nodes"} + {"cpus_per_gpu"} + {"account"} + {"clusters"} + {"mail_type"} + {"mail_user"}
            == DerivedKeys
  {
  }

  lemma TopKeysListed()
    ensures {"slurm_time", "slurm_partition", "gpus_per_node"} + {"cpus_per_task"} + {"mem_gb"}
            + {"slurm_additional_parameters"} == TopKeys
  {
  }

  /** `SlurmArgs.to_submitit_dict`: the three mandatory keys, then each
      optional key when it is set, then the nested map, which is attached only
      when something ended up in it. */
  method ToSubmititDict(a: SlurmArgs) returns (args: map<string, Value>)
    ensures args == SubmititDict(a)
  {
    args := map["slurm_time" := Str(a.time), "slurm_partition" := Str(a.partition),
                "gpus_per_node" := Int(a.gpusPerNode)];
    ghost var top: set<string> := {"slurm_time", "slurm_partition", "gpus_per_node"};
    assert args == TopAmong(a, top);
    TopStep(a, top, "cpus_per_task", args);
    if a.cpusPerTask.Some? {
      args := args["cpus_per_task" := Int(a.cpusPerTask.value)];
    }
    top := top + {"cpus_per_task"};
    TopStep(a, top, "mem_gb", args);
    if a.memGb.Some? {
      args := args["mem_gb" := Int(a.memGb.value)];
    }
    top := top + {"mem_gb"};

    var additional: map<string, Value> := map[];
    ghost var derived: set<string> := {};
    assert additional == DerivedAmong(a, derived);
    DerivedStep(a, derived, "nodes", additional);
    if a.nodes != 1 {
      additional := additional["nodes" := Int(a.nodes)];
    }
    derived := derived + {"nodes"};
    DerivedStep(a, derived, "cpus_per_gpu", additional);
    if a.cpusPerGpu.Some? {
      additional := additional["cpus_per_gpu" := Int(a.cpusPerGpu.value)];
    }
    derived := derived + {"cpus_per_gpu"};
    DerivedStep(a, derived, "account", additional);
    if a.account.Some? {
      additional := additional["account" := Str(a.account.value)];
    }
    derived := derived + {"account"};
    DerivedStep(a, derived, "clusters", additional);
    if a.cluster.Some? {
      // the key is plural on the cluster this was written for
      additional := additional["clusters" := Str(a.cluster.value)];
    }
    derived := derived + {"clusters"};
    DerivedStep(a, derived, "mail_type", additional);
    if a.mailType != [] {
      additional := additional["mail_type" := Str(MailTypeList(a.mailType))];
    }
    derived := derived + {"mail_type"};
    DerivedStep(a, derived, "mail_user", additional);
    if a.mailUser.Some? {
      additional := additional["mail_user" := Str(a.mailUser.value)];
    }
    derived := derived + {"mail_user"};
    DerivedKeysListed();
    assert additional == DerivedAmong(a, DerivedKeys);
    additional := additional + a.additionalParams;
    assert additional == Extras(a);

    TopStep(a, top, "slurm_additional_parameters", args);
    if additional != map[] {
      args := args["slurm_additional_parameters" := Dict(additional)];
    }
    top := top + {"slurm_additional_parameters"};
    TopKeysListed();
  }

  /** What the repository promises of the typed translation. */
  lemma SubmititDictContents(a: SlurmArgs)
    ensures var d := SubmititDict(a);
      && d["slurm_time"] == Str(a.time)
      && d["slurm_partition"] == Str(a.partition)
      && d["gpus_per_node"] == Int(a.gpusPerNode)
      && ("cpus_per_task" in d <==> a.cpusPerTask.Some?)
      && (a.cpusPerTask.Some? ==> d["cpus_per_task"] == Int(a.cpusPerTask.value))
      && ("mem_gb" in d <==> a.memGb.Some?)
      && (a.memGb.Some? ==> d["mem_gb"] == Int(a.memGb.value))
      && ("slurm_additional_parameters" in d <==> Extras(a) != map[])
      && ("slurm_additional_parameters" in d ==> d["slurm_additional_parameters"] == Dict(Extras(a)))
      && "slurm_job_name" !in d
  {
  }

  /** What the repository promises of the nested map: each derived entry is
      there exactly when its field is set and not overridden, and every
      explicit additional parameter comes through unchanged. */
  lemma ExtrasContents(a: SlurmArgs)
    ensures var e := Extras(a);
      && (forall k :: k in a.additionalParams ==> k in e && e[k] == a.additionalParams[k])
      && ("nodes" !in a.additionalParams ==> ("nodes" in e <==> a.nodes != 1))
      && ("nodes" !in a.additionalParams && a.nodes != 1 ==> e["nodes"] == Int(a.nodes))
      && ("cpus_per_gpu" !in a.additionalParams ==> ("cpus_per_gpu" in e <==> a.cpusPerGpu.Some?))
      && ("cpus_per_gpu" !in a.additionalParams && a.cpusPerGpu.Some? ==>
            e["cpus_per_gpu"] == Int(a.cpusPerGpu.value))
      && ("account" !in a.additionalParams ==> ("account" in e <==> a.account.Some?))
      && ("account" !in a.additionalParams && a.account.Some? ==> e["account"] == Str(a.account.value))
      && ("clusters" !in a.additionalParams ==> ("clusters" in e <==> a.cluster.Some?))
      && ("clusters" !in a.additionalParams && a.cluster.Some? ==> e["clusters"] == Str(a.cluster.value))
      && ("cluster" !in a.additionalParams ==> "cluster" !in e)
      && ("mail_type" !in a.additionalParams ==> ("mail_type" in e <==> a.mailType != []))
      && ("mail_type" !in a.additionalParams && a.mailType != [] ==>
            e["mail_type"] == Str(MailTypeList(a.mailType)))
      && ("mail_user" !in a.additionalParams ==> ("mail_user" in e <==> a.mailUser.Some?))
      && ("mail_user" !in a.additionalParams && a.mailUser.Some? ==> e["mail_user"] == Str(a.mailUser.value))
      && (forall k :: k in e ==> k in DerivedKeys || k in a.additionalParams)
  {
  }

  /** `SlurmArgs(time="01:00:00", partition="batch")` has no nested map; the
      mail types [BEGIN, END] are written "BEGIN,END". */
  lemma SubmititDictExamples()
    ensures "slurm_additional_parameters" !in SubmititDict(DefaultArgs("01:00:00", "batch"))
    ensures MailTypeList([Begin, End]) == "BEGIN,END"
  {
    var a := DefaultArgs("01:00:00", "batch");
    assert Extras(a) == map[];
    var names := MailTypeNames([Begin, End]);
    assert names == ["BEGIN", "END"];
    assert names[1..] == ["END"];
  }

  /** The test's request with an account, a cluster, four nodes, two mail
      types and a mail address: its nested map holds exactly those five
      entries, the cluster under `clusters`. */
  lemma SubmititDictAdditionalExample()
    ensures var d := SubmititDict(SlurmArgs("01:00:00", "batch", 0, 4, None, None, None,
                                            Some("my-account"), Some("wice"), [Begin, End],
                                            Some("user@example.com"), map[]));
      && "slurm_additional_parameters" in d
      && d["slurm_additional_parameters"] == Dict(map["nodes" := Int(4), "account" := Str("my-account"),
                                                       "clusters" := Str("wice"), "mail_type" := Str("BEGIN,END"),
                                                       "mail_user" := Str("user@example.com")])
  {
    var a := SlurmArgs("01:00:00", "batch", 0, 4, None, None, None,
                       Some("my-account"), Some("wice"), [Begin, End], Some("user@example.com"), map[]);
    SubmititDictExamples();
    var want := map["nodes" := Int(4), "account" := Str("my-account"), "clusters" := Str("wice"),
                    "mail_type" := Str("BEGIN,END"), "mail_user" := Str("user@example.com")];
    var d := DerivedAmong(a, DerivedKeys);
    forall k ensures (k in d <==> k in want) && (k in want ==> d[k] == want[k]) {
      if k in DerivedKeys {
        assert k == "nodes" || k == "cpus_per_gpu" || k == "account" || k == "clusters"
            || k == "mail_type" || k == "mail_user";
      }
    }
    assert d == want;
    assert Extras(a) == want;
    assert "nodes" in want;
    assert TopEntry(a, "slurm_additional_parameters") == Some(Dict(want));
  }

  // ---------------------------------------------------------------------
  // A Step's request, typed or raw.

  datatype Request = Typed(args: SlurmArgs) | Raw(entries: map<string, Value>)

  /** `str(v)`. A nested map is rendered by Python as a brace-delimited
      listing in insertion order, which a `map` does not keep; only its
      leading '{' matters to the time parser (see `RenderedDictRejected`). */
  function Render(v: Value): string {
    match v
    case Null => "None"
    case Int(i) => IntToDecimal(i)
    case Str(s) => s
    case Dict(_) => "{...}"
  }

  datatype StepError =
    | MissingTime(step: string)   // "Step '<step>': raw dict must include 'slurm_time'"
    | BadTime(error: TimeError)   // the parser's error, unchanged

  /** `Step._get_time`: the `time` field of a typed request, or the rendered
      `slurm_time` entry of a raw one, which must be present and not `None`. */
  function TimeText(name: string, req: Request): (r: Result<string, StepError>)
    ensures r.Failure? <==> req.Raw? && ("slurm_time" !in req.entries || req.entries["slurm_time"] == Null)
    ensures r.Failure? ==> r.error == MissingTime(name)
    ensures req.Typed? ==> r == Success(req.args.time)
    ensures r.Success? && req.Raw? ==> r.value == Render(req.entries["slurm_time"])
  {
    match req
    case Typed(a) => Success(a.time)
    case Raw(m) =>
      if "slurm_time" !in m || m["slurm_time"] == Null then Failure(MissingTime(name))
      else Success(Render(m["slurm_time"]))
  }

  /** The duration a Step computes when it is built: its time text, parsed.
      A missing time text is reported as such, a parse error is passed on
      unchanged, and every duration fits in a `timedelta`. */
  function StepDuration(name: string, req: Request): (r: Result<nat, StepError>)
    ensures TimeText(name, req).Failure? ==> r == Failure(TimeText(name, req).error)
    ensures TimeText(name, req).Success? && ParseSlurmTime(TimeText(name, req).value).Failure? ==>
            r == Failure(BadTime(ParseSlurmTime(TimeText(name, req).value).error))
    ensures TimeText(name, req).Success? && ParseSlurmTime(TimeText(name, req).value).Success? ==>
            r == Success(ParseSlurmTime(TimeText(name, req).value).value)
    ensures r.Success? ==> r.value <= MaxSeconds
  {
    match TimeText(name, req)
    case Failure(e) => Failure(e)
    case Success(t) =>
      match ParseSlurmTime(t)
      case Success(n) => ParseSlurmTimeBound(t); Success(n)
      case Failure(e) => Failure(BadTime(e))
  }

  /** A Step lasts `n` seconds exactly when its time text is one of the
      accepted layouts and stands for `n` seconds. */
  lemma StepDurationMeaning(name: string, req: Request, n: nat)
    ensures StepDuration(name, req) == Success(n) <==>
            TimeText(name, req).Success? && Denotes(TimeText(name, req).value, n)
  {
    if TimeText(name, req).Success? {
      ParseSlurmTimeMeaning(TimeText(name, req).value, n);
    }
  }

  /** `Step._to_submitit_dict`: the typed translation, or a copy of the raw
      map. A typed request's nested entry, when there is one, is a map. */
  function BaseParams(req: Request): (m: map<string, Value>)
    ensures req.Raw? ==> m == req.entries
    ensures req.Typed? ==> m == SubmititDict(req.args)
    ensures req.Typed? && "slurm_additional_parameters" in m ==> m["slurm_additional_parameters"].Dict?
  {
    match req
    case Typed(a) => SubmititDict(a)
    case Raw(m) => m
  }

  /** A raw map holding the same time string as a typed request gives the
      Step the same duration or the same parse error. */
  lemma RawAndTypedAgree(name: string, a: SlurmArgs, m: map<string, Value>)
    requires "slurm_time" in m && m["slurm_time"] == Str(a.time)
    ensures StepDuration(name, Raw(m)) == StepDuration(name, Typed(a))
  {
  }

  /** `str()` of an integer is never a valid time budget: it has no ':'. */
  lemma {:induction false} RenderedIntRejected(i: int)
    ensures ParseSlurmTime(Render(Int(i))) == Failure(CouldNotParse(Render(Int(i))))
  {
    var t := Render(Int(i));
    if i >= 0 {
      DigitsHaveNoSeparator(t, ':');
      DigitsHaveNoSeparator(t, '-');
      CountZero(t, ':');
      ParseSlurmTimeRejectsShape(t);
    } else {
      assert t[0] == '-';
      ParseSlurmTimeRejectsNonDigitStart(t);
    }
  }

  /** A nested map stored as the time budget is rejected by the parser. */
  lemma RenderedDictRejected(e: map<string, Value>)
    ensures ParseSlurmTime(Render(Dict(e))) == Failure(CouldNotParse(Render(Dict(e))))
  {
    ParseSlurmTimeRejectsNonDigitStart(Render(Dict(e)));
  }

  /** The repository's raw-map tests: "01:00:00" is one hour, the integer 60
      fails to parse, a map without `slurm_time` fails with the step's name,
      and "not-a-time" fails to parse. */
  lemma StepDurationRawExample()
    ensures StepDuration("s", Raw(map["slurm_time" := Str("01:00:00")])) == Success(3600)
  {
    ParseExampleHour();
  }

  lemma StepDurationIntExample()
    ensures StepDuration("s", Raw(map["slurm_time" := Int(60)])) == Failure(BadTime(CouldNotParse("60")))
  {
    RenderedIntRejected(60);
    assert Render(Int(60)) == "60" by {
      assert NatToDecimal(60) == NatToDecimal(6) + [DigitChar(0)];
    }
  }

  lemma StepDurationMissingExample()
    ensures StepDuration("s", Raw(map["slurm_partition" := Str("batch")])) == Failure(MissingTime("s"))
  {
  }

  lemma StepDurationInvalidExample()
    ensures StepDuration("s", Typed(DefaultArgs("not-a-time", "batch"))) ==
            Failure(BadTime(CouldNotParse("not-a-time")))
  {
    ParseExampleRejected();
  }
}
