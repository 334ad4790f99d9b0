# planit workflow core, modelled in Dafny

planit describes a batch-computing pipeline as a tree. A **Step** is one
SLURM job. A **Chain** runs its children one after another. A **Parallel**
runs its children side by side. This project models the core of
`src/planit/planit.py`, which has four parts:

- **Time-budget parser** (`_parse_slurm_time`). It reads `MM:SS`, `HH:MM:SS`
  or `D-HH:MM:SS` and returns a whole number of seconds. Any other text fails
  with "Could not parse time '<text>'".
- **Duration estimate** (`get_duration`). A Step gives its parsed budget. A
  Chain gives the sum of its children. A Parallel gives their maximum. An
  empty composite gives zero. The result is a `timedelta`, so a Chain whose
  sum passes 999999999 days and 86399 seconds raises `OverflowError`.
- **Resource-request translation** (`SlurmArgs.to_submitit_dict`,
  `Step._get_time`, `Step._to_submitit_dict`). A typed request, or a raw map,
  becomes the parameter map handed to the executor.
- **Submission** (`Plan.submit` and its inner `_walk`). The walk hands each
  Step to the executor with an `afterok:` dependency on the jobs it must wait
  for. It threads those jobs through Chains and fans them out across
  Parallels. It records each job in its Step's slot and in `all_jobs`.

Modules, one per component:

- `Wrappers`: `Option` and `Result`.
- `Text`: the Python string operations the core relies on. These are
  `str.split`, `str.count`, `str.join`, `int()` on digit strings and `str()`
  of an integer.
- `SlurmTime`: the parser. It also holds a field-by-field description of the
  accepted language (`Layout`, `Denotes`) and the proof that the parser
  accepts exactly that language.
- `Resources`: the `SlurmArgs` record, its translation, and the raw-map
  alternative.
- `Workflow`: the `Step` class and the `Node` datatype. `Step` has fixed
  fields and a mutable `job` slot. `Node` has the variants `StepNode`, `Chain`
  and `Parallel`. The module also holds `Duration`, the estimate on unbounded
  integers, and `GetDuration`, the estimate with the `timedelta` limit, which
  fails where the source raises `OverflowError`.
- `Dependencies`: the parameter map one Step is submitted with.
- `Schedule`: a value-level description of a whole walk. `Run` gives the
  executor calls in order and what the walk returns. The module holds the
  lemmas about that description.
- `Submission`: a fake in-memory `Executor` and the `Plan` class. `Plan.Walk`
  is the imperative walk. It is proved to make exactly the calls `Run`
  describes.

The executor is an in-memory fake. It issues consecutive job ids starting at
a number the caller chooses, and it keeps a log of every parameter map it was
given. Job handles keep only their id.

## Model

| member | source | states |
|---|---|---|
| Text.Split | src/planit/planit.py:273 | `s.split(c)` gives one piece more than there are separators. No piece contains the separator, and joining the pieces with it gives back `s`. |
| Text.SplitJoin | src/planit/planit.py:196-203 | Splitting undoes joining whenever no piece holds the separator. |
| Text.Decimal | src/planit/planit.py:275 | `int(days)` on a day count succeeds exactly on a non-empty string of ASCII digits, and gives its decimal value. |
| Text.IntToDecimal | src/planit/planit.py:153 | `str(i)` of an integer `slurm_time` is the digits of `i`, with a leading '-' exactly when `i` is negative. |
| Text.NatToDecimal | src/planit/planit.py:196 | `str(n)` is a non-empty digit string with no leading zero whose value is `n`. |
| Text.NatToDecimalInjective | src/planit/planit.py:196 | Distinct ids render as distinct strings. |
| SlurmTime.ClockHMS | src/planit/planit.py:274-278 | `strptime(x, "%H:%M:%S")` accepts only text with two ':' and gives a time of day, under 86400 s. |
| SlurmTime.ClockMS | src/planit/planit.py:280-281 | `strptime(x, "%M:%S")` accepts only text with one ':' and gives under 3600 s. |
| SlurmTime.ParseSlurmTime | src/planit/planit.py:269-285 | Every failure is either "Could not parse time" naming the input, or the day-count overflow. |
| SlurmTime.ParseSlurmTimeMeaning | src/planit/planit.py:269-285 | The parser returns `n` seconds exactly when the text is one of the three layouts, with H 0–23, M 0–59, S 0–59 (one or two digits each), a digit-string day count within `timedelta`'s limit, and D·86400+H·3600+M·60+S (or M·60+S) = `n`. This is stated in both directions. |
| SlurmTime.ParseAcceptsDenoted | src/planit/planit.py:272-281 | Every text of an accepted layout parses to its value. |
| SlurmTime.ParseSucceedsOnlyOnDenoted | src/planit/planit.py:272-285 | Every text the parser accepts is written in one of the layouts and has the value returned. |
| SlurmTime.ParseLayout | src/planit/planit.py:272-281 | A well-formed layout parses to its seconds. |
| SlurmTime.ParseLayoutOverflow | src/planit/planit.py:272-275 | A well-formed `D-HH:MM:SS` beyond 999999999 days gives the overflow error and no value. |
| SlurmTime.ParseSlurmTimeOverflow | src/planit/planit.py:272-275 | The overflow error arises exactly for a well-formed days layout whose day count exceeds the limit. |
| SlurmTime.ParseSlurmTimeBound | src/planit/planit.py:272-275 | Every duration the parser returns fits in a `timedelta`: at most 999999999 days and 86399 s. |
| SlurmTime.ParseSlurmTimeRejectsShape | src/planit/planit.py:272-285 | Text with no '-' and neither one nor two ':', or with two or more '-', fails naming the input. |
| SlurmTime.ParseSlurmTimeRejectsNonDigitStart | src/planit/planit.py:269-285 | Text that starts with anything other than a digit fails naming the input. |
| SlurmTime.ParseHms | src/planit/planit.py:276-278 | A well-formed `H:M:S` parses to h·3600+m·60+s. |
| SlurmTime.ParseFormatClock | src/planit/planit.py:276-278 | Round trip: a zero-padded `HH:MM:SS` parses back to h·3600+m·60+s. |
| SlurmTime.ParseFormatMinutes | src/planit/planit.py:279-281 | Round trip: a zero-padded `MM:SS` parses back to m·60+s. |
| SlurmTime.ParseFormatDays | src/planit/planit.py:272-275 | Round trip: `str(d)-HH:MM:SS` parses back to d·86400+h·3600+m·60+s, or to the overflow error when d exceeds the limit. |
| SlurmTime.ParseExampleClock | tests/test_planit.py:12-14 | "02:30:00" is 9000 s. |
| SlurmTime.ParseExampleMinutes | tests/test_planit.py:17-19 | "45:00" is 2700 s. |
| SlurmTime.ParseExampleDays | tests/test_planit.py:22-24 | "2-12:00:00" is 216000 s. |
| SlurmTime.ParseExampleRejected | tests/test_planit.py:27-29 | "not-a-time" fails naming the input. |
| SlurmTime.ParseExampleBareNumber | tests/test_planit.py:43-45 | "60", the `str()` of the integer 60, fails naming the input. |
| SlurmTime.ParseExampleHour | tests/test_planit.py:32-35 | "01:00:00" is 3600 s. |
| SlurmTime.ParseExampleHalfHour | tests/test_planit.py:79 | "00:30:00" is 1800 s. |
| SlurmTime.ParseExampleTwoHours | tests/test_planit.py:87 | "02:00:00" is 7200 s. |
| Resources.MailTypeListRoundTrip | src/planit/planit.py:80-81 | The joined mail-type string splits on ',' back into the listed names, in list order. |
| Resources.ToSubmititDict | src/planit/planit.py:59-88 | The imperative translation, made of conditional inserts and `update`, builds exactly the key-by-key map `SubmititDict`. |
| Resources.SubmititDictContents | src/planit/planit.py:59-88 | The result always has `slurm_time`, `slurm_partition` and `gpus_per_node` with the request's values. `cpus_per_task` and `mem_gb` appear exactly when they are set. The nested map appears exactly when it is non-empty. No job name is added. |
| Resources.ExtrasContents | src/planit/planit.py:70-87 | Every additional parameter comes through unchanged and wins over a derived key. Unless an additional parameter overrides it, each derived key appears exactly when its field is set: `nodes` when it is not 1; `cpus_per_gpu`, `account` and `mail_user` when they are given; `clusters` when `cluster` is given, with its value (never under `cluster`); `mail_type` when the list is non-empty, joined by ','. Each derived key holds its field's value. No other keys appear. |
| Resources.SubmititDictExamples | tests/test_planit.py:48-54 | A minimal request has no nested map. The mail types [BEGIN, END] give "BEGIN,END". |
| Resources.SubmititDictAdditionalExample | tests/test_planit.py:57-73 | The test's request with an account, cluster "wice", four nodes, mail types [BEGIN, END] and a mail address gets a nested map of exactly those five entries, the cluster under `clusters`. |
| Resources.TimeText | src/planit/planit.py:147-153 | A typed request gives its `time`. A raw map gives `str` of its `slurm_time` entry. The step fails with the step's name exactly when that entry is missing or None. |
| Resources.StepDuration | src/planit/planit.py:145-153 | A Step's duration fails with `_get_time`'s error when the budget is missing, fails with the parser's error when the budget does not parse, and otherwise is the parsed value, which fits in a `timedelta`. |
| Resources.StepDurationMeaning | src/planit/planit.py:145-153 | A Step lasts `n` seconds exactly when `_get_time` gives a text written in one of the accepted layouts that stands for `n` seconds. |
| Resources.BaseParams | src/planit/planit.py:155-158 | A raw map is handed on with exactly its own entries. A typed request gives `to_submitit_dict()`'s map, whose nested `slurm_additional_parameters` entry, when present, is always a map. |
| Resources.RawAndTypedAgree | src/planit/planit.py:145-153 | A raw map holding the same time string as a typed request gives the same duration or the same error. |
| Resources.RenderedIntRejected | src/planit/planit.py:150-153 | An integer stored as `slurm_time` never parses, because its `str()` has no ':'. |
| Resources.RenderedDictRejected | src/planit/planit.py:150-153 | A nested map stored as `slurm_time` never parses. |
| Resources.StepDurationRawExample | tests/test_planit.py:32-35 | A raw map with `slurm_time` "01:00:00" gives 3600 s. |
| Resources.StepDurationMissingExample | tests/test_planit.py:38-40 | A raw map without `slurm_time` fails with the missing-key error. |
| Resources.StepDurationIntExample | tests/test_planit.py:43-45 | The integer 60 fails with "Could not parse time '60'". |
| Resources.StepDurationInvalidExample | tests/test_planit.py:27-29 | A typed request with time "not-a-time" fails to parse. |
| Workflow.Step.constructor | src/planit/planit.py:113-145 | A new Step keeps its name and request, stores the parsed duration, and has an empty job slot. |
| Workflow.NewStep | src/planit/planit.py:113-153 | Building a Step fails, and no Step exists, exactly when the time budget is missing or does not parse, and the error is passed on unchanged. Otherwise the new Step's duration is the parse of the budget. |
| Workflow.SumDurations | src/planit/planit.py:108-109 | A Chain's estimate is at least every child's, and an empty Chain gives 0. |
| Workflow.GetDuration | src/planit/planit.py:93-109 | Whenever `get_duration` returns, it returns the unbounded estimate `Duration`. |
| Workflow.GetSum | src/planit/planit.py:108-109 | Whenever the Chain's `sum` returns, it returns the sum of the children's estimates. |
| Workflow.GetMax | src/planit/planit.py:100-101 | Whenever the Parallel's `max` returns, it returns the largest child estimate. |
| Workflow.GetDurationWithinLimit | src/planit/planit.py:93-109 | For a tree whose Steps each last at most the `timedelta` limit (as every Step that was built does), `get_duration` raises exactly when the unbounded estimate passes the `timedelta` limit, and otherwise returns it. |
| Workflow.GetDurationFits | src/planit/planit.py:93-109 | When the whole estimate fits in a `timedelta`, `get_duration` returns it. |
| Workflow.ValidWithinLimit | src/planit/planit.py:145 | A Step that was built has a duration within the `timedelta` limit. |
| Workflow.ChainOverflowExample | src/planit/planit.py:100-109 | Two Steps of 999999999 days each: their Chain raises, their Parallel returns 999999999 days. |
| Workflow.MaxDuration | src/planit/planit.py:100-101 | A Parallel's estimate is at least every child's. A non-empty Parallel has a child that reaches it. An empty one gives 0. |
| Workflow.SumDurationsAppend | src/planit/planit.py:108-109 | A Chain's estimate is additive over any split of its children. |
| Workflow.MaxDurationAppend | src/planit/planit.py:100-101 | A Parallel's estimate over a split of its children is the larger of the two parts' estimates. |
| Workflow.DurationOfPairs | src/planit/planit.py:96-109 | duration(Chain(a,b)) = duration(a)+duration(b), duration(Parallel(a,b)) = max of the two, and both empty composites give 0. |
| Workflow.StepWithinDuration | src/planit/planit.py:91-161 | No Step of a tree takes longer than the tree's estimate. |
| Workflow.NestedDurationExample | tests/test_planit.py:92-102 | `get_duration` of 1h, then max(3h, 2h), then 30m returns 16200 s. |
| Workflow.ChainDurationExample | tests/test_planit.py:76-81 | A Chain of Steps built from "01:00:00" and "00:30:00" returns 5400 s. |
| Workflow.ParallelDurationExample | tests/test_planit.py:84-107 | A Parallel of Steps built from "01:00:00" and "02:00:00" returns 7200 s. The empty Parallel and the empty Chain return 0. |
| Workflow.ValidStepDuration | tests/test_planit.py:76-81 | A Step built from time "01:00:00" lasts 3600 s. |
| Dependencies.JobIds | src/planit/planit.py:196 | One id string per predecessor, in order, each the decimal id of that job. |
| Dependencies.StepParamsContents | src/planit/planit.py:196-207 | A Step's map keeps every entry of its request. `slurm_job_name` becomes the plan name only when absent. With predecessors, the nested `dependency` entry is set to the dependency string, replacing any earlier one, and every other nested entry is kept. Without predecessors the nested map is untouched. The map is refused exactly when there are predecessors and the existing nested entry is not a map. |
| Dependencies.StepParams | src/planit/planit.py:199-204 | Only a Step with predecessors can be refused. An accepted map always names a job. With predecessors, its nested map holds `dependency` set to the dependency string. |
| Dependencies.AcceptedParamsSucceed | src/planit/planit.py:199-207 | A Step's map is refused exactly when there are predecessors and the request is a raw map whose nested entry is present and not a map. A typed request is never refused. |
| Dependencies.DependencyRoundTrip | src/planit/planit.py:203 | The dependency string is "afterok:" followed by text that splits on ':' back into exactly the predecessors' ids, in predecessor order. |
| Dependencies.DependencyTextInjective | src/planit/planit.py:203 | Distinct predecessor lists give distinct dependency strings. |
| Dependencies.DependencyTextExample | src/planit/planit.py:203 | Jobs 7 and 12 give "afterok:7:12". |
| Schedule.RunCovers | src/planit/planit.py:195-232 | The walk submits the tree's Steps left to right with consecutive fresh ids. Each is submitted with the map its request and predecessors give. It succeeds exactly when it reaches every Step. Otherwise it fails naming the first Step whose map is refused, and that Step's request is one that is refused. |
| Schedule.ChainRunCovers | src/planit/planit.py:221-226 | The same for the first `i` children of a Chain, with each child given the previous child's jobs. |
| Schedule.ParallelRunCovers | src/planit/planit.py:214-219 | The same for the first `i` children of a Parallel, with every child given the Parallel's parents. |
| Schedule.RunComplete | src/planit/planit.py:195-228 | A walk that succeeds submits every Step of the tree, in order, the i-th with id start+i. |
| Schedule.LogsMatchCalls | src/planit/planit.py:206-209 | The executor log and `all_jobs` hold one entry per submission, in submission order. |
| Schedule.SlotAfterFilled | src/planit/planit.py:208 | Every submitted Step ends with a job in its slot. |
| Schedule.SlotAfterDistinct | src/planit/planit.py:208 | When no Step object is submitted twice, each slot holds the job of that Step's own submission. |
| Schedule.RunLeavesOthers | src/planit/planit.py:195-228 | A walk touches only the slots of its own Steps. |
| Schedule.RunDepsEarlier | src/planit/planit.py:214-226 | Every job a submission waits for is one of the walk's parents or was issued earlier. Every job a walk returns is a parent or one it issued. |
| Schedule.AcceptedTreeSucceeds | src/planit/planit.py:198-207 | A tree whose requests are all accepted (typed, or raw with a nested entry that is absent or a map) is always submitted whole. |
| Schedule.StepRun | src/planit/planit.py:198-212 | A Step with no predecessors, or with an accepted request, is submitted once with the map built for its parents and returns just its own job. Otherwise it makes no call and fails naming the Step. |
| Schedule.AcceptedStepRun | src/planit/planit.py:198-212 | A Step with an accepted request is submitted once with the map built for its parents and returns just its own job. |
| Schedule.ChainOfStepsRun | src/planit/planit.py:221-226 | In a Chain of Steps with accepted requests, the first Step waits for the Chain's parents and each later Step waits for exactly the previous Step's job. The Chain returns the last job, or its parents when it is empty. |
| Schedule.ParallelOfStepsRun | src/planit/planit.py:214-219 | In a Parallel of Steps with accepted requests, every Step waits for the same parents. The Parallel returns all their jobs, concatenated in order. |
| Schedule.ChainOfTwoSteps | src/planit/planit.py:196-226 | In `Chain(a, b)` with accepted requests, `b` depends on exactly `a`'s job. Its nested `dependency` is "afterok:" followed by that job's id. |
| Schedule.ParallelOfTwoSteps | src/planit/planit.py:214-219 | In `Parallel(a, b)` with accepted requests, both Steps carry the parents' dependency. Neither depends on the other, and both jobs are returned. |
| Schedule.FirstCallIndependent | src/planit/planit.py:230 | Submission starts with no predecessors, so the first Step submitted has no dependency added: it is submitted with the map its request gives for no predecessors. |
| Schedule.EmptyParallelCutsChain | src/planit/planit.py:214-226 | In `Chain(a, Parallel(), b)`, `b` gets no dependency on `a`, because the empty Parallel returns no jobs. This holds for any requests: neither Step has predecessors, so neither can be refused. |
| Schedule.WaitCheckMeaning | src/planit/planit.py:251-253 | `_wait_node`'s "has not been submitted yet" check passes exactly when every Step of the tree has a job. When it fails, it names a Step without one. |
| Submission.Executor.Submit | src/planit/planit.py:206-207 | The fake executor issues the next fresh id and appends the map to its log. |
| Submission.Plan.constructor | src/planit/planit.py:165-167 | A Plan keeps its name and root. |
| Submission.Plan.WalkStep | src/planit/planit.py:198-212 | The Step branch submits the Step's map (see `StepParamsContents`), writes the job into the Step's slot, appends it to `all_jobs` and returns it alone. When the nested entry is not a map it fails and changes nothing. |
| Submission.Plan.WalkChain | src/planit/planit.py:221-226 | The Chain loop gives each child the jobs the previous child returned, and returns the last child's jobs. It makes exactly the calls `ChainRun` describes. |
| Submission.Plan.WalkParallel | src/planit/planit.py:214-219 | The Parallel loop gives every child the same parents and extends `results` with each child's jobs. It makes exactly the calls `ParallelRun` describes. |
| Submission.Plan.Walk | src/planit/planit.py:195-228 | `_walk` makes exactly the submissions `Run` describes: the executor's log, its id counter, `all_jobs` and every Step's slot follow them. |
| Submission.Plan.Submit | src/planit/planit.py:190-232 | `submit` returns one fresh job per Step, in left-to-right tree order, with consecutive ids. Every Step's slot is then filled, so the wait check cannot fail for this tree. |

## Left out

- `Plan.wait` / `_wait_node` (planit.py:234-266): the thread-pool fan-out and
  the blocking `job.result()` calls are concurrency and external blocking.
  Only the "has not been submitted yet" check is modelled, as `WaitCheck`. The
  `max_workers=0` error an empty Parallel raises there is not modelled.
- `describe` / `_print_recursive`: logging and text rendering only. All
  `logger.info` calls are dropped.
- The executor (`submitit`): only the parameter map handed to
  `update_parameters` and a fresh id per `submit` are modelled. Whatever the
  library does with parameters left over from earlier calls is not visible
  here. The callable and its `*args` / `**kwargs` are forwarded untouched and
  are not modelled.
- `datetime` and `strptime`: durations are whole seconds. `%H`, `%M` and `%S`
  are one or two ASCII digits within range. Non-ASCII digits, which Python's
  `\d` also accepts, are not modelled. The day count is a plain ASCII digit
  string. The whitespace, sign and underscore forms that `int()` also accepts
  are not modelled.
- SlurmTime.ParseSlurmTime: CPython's `int()` refuses digit strings longer
  than 4300 characters with a ValueError. The model reads a day count of any
  length, so such a string is reported as the overflow error (or accepted,
  with leading zeros) rather than as "Could not parse time".
- Value: parameter-map values are None, integers, strings and nested maps.
  Floats, booleans and lists are not modelled. The `str()` of a nested map is
  a placeholder that starts with '{'. That first character is all the parser
  sees.
- Aliasing of raw maps: `dict(self.slurm_args)` is a shallow copy, so the
  source writes the `dependency` entry into the user's own nested map. Maps
  are values here, and that in-place update is not modelled. The visible
  effect is on a Step with no predecessors whose nested map is shared with a
  Step submitted earlier. In `Parallel(Chain(a, b), c)` with b and c sharing
  one nested map, b's `dependency` is still in that map when c is submitted,
  so the source hands c a dependency on a; the model gives c none. A plan
  submitted twice shows the same effect on its Steps without predecessors.
- The `TypeError` for an unknown node type (planit.py:228) cannot arise with
  the closed `Node` datatype.
- MailType is modelled as a datatype whose values stand for their names.
  StrEnum's other string behaviour is not modelled.
- The write-once job slot is not enforced by the source, and it is not
  enforced here. A Step object placed twice in a tree is submitted twice, and
  its slot keeps the later job (`SlotAfter`). `SlotAfterDistinct` states the
  single-write case.
- The argument order `Step(name, func, slurm_args, ...)` follows the source.
  Some call sites pass `slurm_args` second. The callable is not modelled, so
  the order does not affect the model.
