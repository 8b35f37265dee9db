/**
 * Schema validation of a raw plan: a depth-first structural check that
 * reports the first violation it meets. The checks run in a fixed order:
 * the top-level keys, then the milestones (each milestone's id, title and
 * tasks, each task's fields), then the artifacts. On success the raw value
 * is decoded into the typed plan the rest of the pipeline works on.
 */
module Validation {
  import opened Wrappers
  import opened Json
  import opened Plans

  const REQUIRED_KEYS: seq<string> := ["feature", "milestones", "artifacts", "status"]
  const VALID_PRIORITIES: seq<string> := ["high", "medium", "low"]

  /** One step of the location a message names: `.tasks`, `[2]`. */
  datatype Segment = Key(name: string) | Index(i: nat)

  /** The Python type named in a "must be a ..." message. */
  datatype Kind = IntKind | StrKind | ListKind

  /** The `ValueError`s the validator raises, with the location they name. */
  datatype Violation =
    | NotAnObject(at: seq<Segment>)              // "<at> must be a dict"
    | MissingKey(at: seq<Segment>, key: string)  // "<at> missing '<key>'"
    | WrongType(at: seq<Segment>, expected: Kind) // "<at> must be a <kind>"
    | EmptyList(at: seq<Segment>)                // "<at> must not be empty"
    | BadPriority(at: seq<Segment>, got: string) // "<at> must be one of [...], got '<got>'"

  datatype Result<+T> = Ok(value: T) | Err(error: Violation)

  /** `isinstance(v, int)`: a bool is an int in Python, so it passes too. */
  predicate IsInt(v: Value) {
    v.Int? || v.Bool?
  }

  /** The integer Python reads from an int-like value (`True == 1`). */
  function AsInt(v: Value): int
    requires IsInt(v)
  {
    if v.Int? then v.i else if v.b then 1 else 0
  }

  predicate HasKind(v: Value, k: Kind) {
    match k
    case IntKind => IsInt(v)
    case StrKind => v.Str?
    case ListKind => v.List?
  }

  // ---------------------------------------------------------------------
  // The declarative schema: what a well-formed plan is.

  /** All four task fields are present and of their Python type. */
  predicate TaskFieldsTyped(m: map<string, Value>) {
    && "step" in m && IsInt(m["step"])
    && "description" in m && m["description"].Str?
    && "output" in m && m["output"].Str?
    && "priority" in m && m["priority"].Str?
  }

  predicate WellFormedTask(v: Value) {
    v.Object? && TaskFieldsTyped(v.fields) && v.fields["priority"].s in VALID_PRIORITIES
  }

  predicate WellFormedTasks(v: Value) {
    v.List? && |v.items| > 0 && forall j :: 0 <= j < |v.items| ==> WellFormedTask(v.items[j])
  }

  predicate WellFormedMilestone(v: Value) {
    && v.Object?
    && "id" in v.fields && IsInt(v.fields["id"])
    && "title" in v.fields && v.fields["title"].Str?
    && "tasks" in v.fields && WellFormedTasks(v.fields["tasks"])
  }

  predicate WellFormedMilestones(v: Value) {
    v.List? && |v.items| > 0 && forall i :: 0 <= i < |v.items| ==> WellFormedMilestone(v.items[i])
  }

  predicate WellFormedArtifacts(v: Value) {
    v.List? && |v.items| > 0 && forall i :: 0 <= i < |v.items| ==> v.items[i].Str?
  }

  predicate HasRequiredKeys(v: Value) {
    v.Object? && forall k :: k in REQUIRED_KEYS ==> k in v.fields
  }

  predicate WellFormedPlan(v: Value) {
    && HasRequiredKeys(v)
    && WellFormedMilestones(v.fields["milestones"])
    && WellFormedArtifacts(v.fields["artifacts"])
  }

  /** The name a priority is written with in a raw plan. */
  function PriorityName(p: Priority): string {
    match p
    case High => "high"
    case Medium => "medium"
    case Low => "low"
  }

  /** The typed task carries the raw task's step, description, output and priority. */
  predicate TaskDecodes(v: Value, t: Task) {
    v.Object? && TaskFieldsTyped(v.fields)
    && t.step == AsInt(v.fields["step"]) && t.description == v.fields["description"].s
    && t.output == v.fields["output"].s && PriorityName(t.priority) == v.fields["priority"].s
  }

  /** The typed milestone carries the raw milestone's id and title, and its tasks one for one. */
  predicate MilestoneDecodes(v: Value, m: Milestone) {
    v.Object? && "id" in v.fields && IsInt(v.fields["id"]) && "title" in v.fields && v.fields["title"].Str?
    && "tasks" in v.fields && v.fields["tasks"].List?
    && m.id == AsInt(v.fields["id"]) && m.title == v.fields["title"].s
    && |m.tasks| == |v.fields["tasks"].items|
    && forall j :: 0 <= j < |m.tasks| ==> TaskDecodes(v.fields["tasks"].items[j], m.tasks[j])
  }

  /** Decoding one more raw element in front keeps the decoded list element-wise in step. */
  lemma DecodesCons<T>(raw: seq<Value>, from: nat, all: seq<T>, decodes: (Value, T) -> bool)
    requires from < |raw| && |all| == |raw| - from && decodes(raw[from], all[0])
    requires forall j :: from + 1 <= j < |raw| ==> decodes(raw[j], all[1..][j - (from + 1)])
    ensures forall j :: from <= j < |raw| ==> decodes(raw[j], all[j - from])
  {
    forall j | from < j < |raw|
      ensures decodes(raw[j], all[j - from])
    {
      assert all[j - from] == all[1..][j - (from + 1)];
    }
  }

  /** The violation lies at or below the location `prefix`. */
  predicate Under(e: Violation, prefix: seq<Segment>) {
    prefix <= e.at
  }

  // ---------------------------------------------------------------------
  // `validate_plan` and its helpers, checking in their order.

  /** Index of the first key of `keys` that `m` lacks (the loop over REQUIRED_KEYS). */
  function FirstMissing(m: map<string, Value>, keys: seq<string>): (r: Option<nat>)
    ensures r.None? <==> forall j :: 0 <= j < |keys| ==> keys[j] in m
    ensures r.Some? ==> r.value < |keys| && keys[r.value] !in m
    ensures r.Some? ==> forall j :: 0 <= j < r.value ==> keys[j] in m
  {
    if keys == [] then None
    else if keys[0] !in m then Some(0)
    else match FirstMissing(m, keys[1..])
      case None => None
      case Some(n) => Some(n + 1)
  }

  /** `_validate_top_level`: a dict holding every required key; extra keys are allowed. */
  function ValidateTopLevel(v: Value): (r: Result<map<string, Value>>)
    ensures r.Ok? <==> HasRequiredKeys(v)
    ensures r.Ok? ==> r.value == v.fields
    ensures !v.Object? ==> r == Err(NotAnObject([]))
    ensures r.Err? && v.Object? ==>
      exists n :: (0 <= n < |REQUIRED_KEYS| && r.error == MissingKey([], REQUIRED_KEYS[n])
        && REQUIRED_KEYS[n] !in v.fields && forall j :: 0 <= j < n ==> REQUIRED_KEYS[j] in v.fields)
  {
    if !v.Object? then Err(NotAnObject([]))
    else match FirstMissing(v.fields, REQUIRED_KEYS)
      case Some(n) => Err(MissingKey([], REQUIRED_KEYS[n]))
      case None => Ok(v.fields)
  }

  /** The fields of a task, in the order they are checked, with their expected types. */
  const TASK_FIELDS: seq<(string, Kind)> := [("step", IntKind), ("description", StrKind), ("output", StrKind), ("priority", StrKind)]

  predicate FieldOk(m: map<string, Value>, f: (string, Kind)) {
    f.0 in m && HasKind(m[f.0], f.1)
  }

  /** Presence is checked before type: a missing field is reported as missing. */
  function FieldViolation(m: map<string, Value>, f: (string, Kind), at: seq<Segment>): Violation {
    if f.0 !in m then MissingKey(at, f.0) else WrongType(at + [Key(f.0)], f.1)
  }

  /** Index of the first field of `fields` that is absent or of the wrong type. */
  function FirstBadField(m: map<string, Value>, fields: seq<(string, Kind)>): (r: Option<nat>)
    ensures r.None? <==> forall j :: 0 <= j < |fields| ==> FieldOk(m, fields[j])
    ensures r.Some? ==> r.value < |fields| && !FieldOk(m, fields[r.value])
    ensures r.Some? ==> forall j :: 0 <= j < r.value ==> FieldOk(m, fields[j])
  {
    if fields == [] then None
    else if !FieldOk(m, fields[0]) then Some(0)
    else match FirstBadField(m, fields[1..])
      case None => None
      case Some(n) => Some(n + 1)
  }

  function ToPriority(s: string): Priority
    requires s in VALID_PRIORITIES
  {
    if s == "high" then High else if s == "medium" then Medium else Low
  }

  lemma TaskFieldsOk(m: map<string, Value>)
    ensures (forall j :: 0 <= j < |TASK_FIELDS| ==> FieldOk(m, TASK_FIELDS[j])) <==> TaskFieldsTyped(m)
  {
    assert FieldOk(m, TASK_FIELDS[0]) <==> "step" in m && IsInt(m["step"]);
    assert FieldOk(m, TASK_FIELDS[1]) <==> "description" in m && m["description"].Str?;
    assert FieldOk(m, TASK_FIELDS[2]) <==> "output" in m && m["output"].Str?;
    assert FieldOk(m, TASK_FIELDS[3]) <==> "priority" in m && m["priority"].Str?;
  }

  /**
   * `_validate_task`: a dict; step, description, output and priority, in that
   * order, each present and then of its type; only then the priority value.
   */
  function ValidateTask(v: Value, at: seq<Segment>): (r: Result<Task>)
    ensures r.Ok? <==> WellFormedTask(v)
    ensures r.Ok? ==> TaskDecodes(v, r.value)
    ensures r.Err? ==> Under(r.error, at)
    ensures !v.Object? ==> r == Err(NotAnObject(at))
    ensures r.Err? && v.Object? && !r.error.BadPriority? ==>
      exists n :: (0 <= n < |TASK_FIELDS|
        && (forall j :: 0 <= j < n ==> FieldOk(v.fields, TASK_FIELDS[j]))
        && !FieldOk(v.fields, TASK_FIELDS[n]) && r.error == FieldViolation(v.fields, TASK_FIELDS[n], at))
    ensures r.Err? && r.error.BadPriority? ==>
      (v.Object? && TaskFieldsTyped(v.fields)
        && r.error == BadPriority(at + [Key("priority")], v.fields["priority"].s)
        && v.fields["priority"].s !in VALID_PRIORITIES)
  {
    TaskFieldsOk(if v.Object? then v.fields else map[]);
    if !v.Object? then Err(NotAnObject(at))
    else match FirstBadField(v.fields, TASK_FIELDS)
      case Some(n) => Err(FieldViolation(v.fields, TASK_FIELDS[n], at))
      case None =>
        var m := v.fields;
        if m["priority"].s !in VALID_PRIORITIES then Err(BadPriority(at + [Key("priority")], m["priority"].s))
        else Ok(Task(AsInt(m["step"]), m["description"].s, m["output"].s, ToPriority(m["priority"].s)))
  }

  /** The loop over the tasks from index `from` on: the first failing task is reported. */
  function ValidateTaskList(ts: seq<Value>, from: nat, at: seq<Segment>): (r: Result<seq<Task>>)
    requires from <= |ts|
    decreases |ts| - from
    ensures r.Ok? <==> forall j :: from <= j < |ts| ==> WellFormedTask(ts[j])
    ensures r.Ok? ==> |r.value| == |ts| - from && forall j :: from <= j < |ts| ==> TaskDecodes(ts[j], r.value[j - from])
    ensures r.Err? ==>
      exists k :: (from <= k < |ts| && (forall j :: from <= j < k ==> WellFormedTask(ts[j]))
        && ValidateTask(ts[k], at + [Index(k)]) == Err(r.error))
  {
    if from == |ts| then Ok([])
    else match ValidateTask(ts[from], at + [Index(from)])
      case Err(e) => Err(e)
      case Ok(t) =>
        match ValidateTaskList(ts, from + 1, at)
        case Err(e) => Err(e)
        case Ok(rest) =>
          var all := [t] + rest;
          DecodesCons(ts, from, all, TaskDecodes);
          Ok(all)
  }

  /** `_validate_tasks`: a non-empty list whose tasks are checked in order. */
  function ValidateTasks(v: Value, prefix: seq<Segment>): (r: Result<seq<Task>>)
    ensures r.Ok? <==> WellFormedTasks(v)
    ensures r.Ok? ==> |r.value| == |v.items| && forall j :: 0 <= j < |v.items| ==> TaskDecodes(v.items[j], r.value[j])
    ensures r.Err? ==> Under(r.error, prefix + [Key("tasks")])
    ensures !v.List? ==> r == Err(WrongType(prefix + [Key("tasks")], ListKind))
    ensures v.List? && v.items == [] ==> r == Err(EmptyList(prefix + [Key("tasks")]))
    ensures r.Err? && v.List? && v.items != [] ==>
      exists k :: (0 <= k < |v.items| && (forall j :: 0 <= j < k ==> WellFormedTask(v.items[j]))
        && ValidateTask(v.items[k], prefix + [Key("tasks")] + [Index(k)]) == Err(r.error))
  {
    var at := prefix + [Key("tasks")];
    if !v.List? then Err(WrongType(at, ListKind))
    else if |v.items| == 0 then Err(EmptyList(at))
    else
      var r := ValidateTaskList(v.items, 0, at);
      assert r.Err? ==> Under(r.error, at) by {
        if r.Err? {
          var k :| 0 <= k < |v.items| && ValidateTask(v.items[k], at + [Index(k)]) == Err(r.error);
        }
      }
      r
  }

  /**
   * `_validate_milestone`: a dict; `id` present and an int, then `title`
   * present and a str, then `tasks` present, then the tasks themselves.
   */
  function ValidateMilestone(v: Value, index: nat): (r: Result<Milestone>)
    ensures r.Ok? <==> WellFormedMilestone(v)
    ensures r.Ok? ==> MilestoneDecodes(v, r.value)
    ensures r.Err? ==> Under(r.error, [Key("milestones"), Index(index)])
    ensures var at := [Key("milestones"), Index(index)];
      && (!v.Object? ==> r == Err(NotAnObject(at)))
      && (v.Object? && "id" !in v.fields ==> r == Err(MissingKey(at, "id")))
      && (v.Object? && "id" in v.fields && !IsInt(v.fields["id"]) ==> r == Err(WrongType(at + [Key("id")], IntKind)))
      && (v.Object? && "id" in v.fields && IsInt(v.fields["id"]) && "title" !in v.fields ==> r == Err(MissingKey(at, "title")))
      && (v.Object? && "id" in v.fields && IsInt(v.fields["id"]) && "title" in v.fields && !v.fields["title"].Str?
          ==> r == Err(WrongType(at + [Key("title")], StrKind)))
      && ((v.Object? && "id" in v.fields && IsInt(v.fields["id"]) && "title" in v.fields && v.fields["title"].Str?
          && "tasks" !in v.fields) ==> r == Err(MissingKey(at, "tasks")))
      && ((v.Object? && "id" in v.fields && IsInt(v.fields["id"]) && "title" in v.fields && v.fields["title"].Str?
          && "tasks" in v.fields && ValidateTasks(v.fields["tasks"], at).Err?)
          ==> r == Err(ValidateTasks(v.fields["tasks"], at).error))
  {
    var at := [Key("milestones"), Index(index)];
    if !v.Object? then Err(NotAnObject(at))
    else
      var m := v.fields;
      if "id" !in m then Err(MissingKey(at, "id"))
      else if !IsInt(m["id"]) then Err(WrongType(at + [Key("id")], IntKind))
      else if "title" !in m then Err(MissingKey(at, "title"))
      else if !m["title"].Str? then Err(WrongType(at + [Key("title")], StrKind))
      else if "tasks" !in m then Err(MissingKey(at, "tasks"))
      else match ValidateTasks(m["tasks"], at)
        case Err(e) => Err(e)
        case Ok(ts) => Ok(Milestone(AsInt(m["id"]), m["title"].s, ts))
  }

  /** The loop over the milestones from index `from` on. */
  function ValidateMilestoneList(ms: seq<Value>, from: nat): (r: Result<seq<Milestone>>)
    requires from <= |ms|
    decreases |ms| - from
    ensures r.Ok? <==> forall j :: from <= j < |ms| ==> WellFormedMilestone(ms[j])
    ensures r.Ok? ==> |r.value| == |ms| - from && forall j :: from <= j < |ms| ==> MilestoneDecodes(ms[j], r.value[j - from])
    ensures r.Err? ==>
      exists k :: (from <= k < |ms| && (forall j :: from <= j < k ==> WellFormedMilestone(ms[j]))
        && ValidateMilestone(ms[k], k) == Err(r.error))
  {
    if from == |ms| then Ok([])
    else match ValidateMilestone(ms[from], from)
      case Err(e) => Err(e)
      case Ok(m) =>
        match ValidateMilestoneList(ms, from + 1)
        case Err(e) => Err(e)
        case Ok(rest) =>
          var all := [m] + rest;
          DecodesCons(ms, from, all, MilestoneDecodes);
          Ok(all)
  }

  /**
   * `_validate_milestones`: a non-empty list; a violation inside a milestone
   * carries the prefix `milestones[k]` of the first failing milestone `k`.
   */
  function ValidateMilestones(v: Value): (r: Result<seq<Milestone>>)
    ensures r.Ok? <==> WellFormedMilestones(v)
    ensures r.Ok? ==> |r.value| == |v.items| && forall i :: 0 <= i < |v.items| ==> MilestoneDecodes(v.items[i], r.value[i])
    ensures r.Err? ==> Under(r.error, [Key("milestones")])
    ensures !v.List? ==> r == Err(WrongType([Key("milestones")], ListKind))
    ensures v.List? && v.items == [] ==> r == Err(EmptyList([Key("milestones")]))
    ensures r.Err? && v.List? && v.items != [] ==>
      exists k :: (0 <= k < |v.items|
        && (forall j :: 0 <= j < k ==> WellFormedMilestone(v.items[j]))
        && !WellFormedMilestone(v.items[k])
        && Under(r.error, [Key("milestones"), Index(k)])
        && ValidateMilestone(v.items[k], k) == Err(r.error))
  {
    if !v.List? then Err(WrongType([Key("milestones")], ListKind))
    else if |v.items| == 0 then Err(EmptyList([Key("milestones")]))
    else ValidateMilestoneList(v.items, 0)
  }

  /** The first element of `items` from `from` on that is not a string. */
  function FirstNonString(items: seq<Value>, from: nat): (r: Option<nat>)
    requires from <= |items|
    decreases |items| - from
    ensures r.None? <==> forall j :: from <= j < |items| ==> items[j].Str?
    ensures r.Some? ==> from <= r.value < |items| && !items[r.value].Str?
    ensures r.Some? ==> forall j :: from <= j < r.value ==> items[j].Str?
  {
    if from == |items| then None
    else if !items[from].Str? then Some(from)
    else FirstNonString(items, from + 1)
  }

  /** `_validate_artifacts`: a non-empty list of strings; the first non-string is reported by its index. */
  function ValidateArtifacts(v: Value): (r: Result<seq<string>>)
    ensures r.Ok? <==> WellFormedArtifacts(v)
    ensures r.Ok? ==> |r.value| == |v.items| && forall i :: 0 <= i < |v.items| ==> v.items[i] == Str(r.value[i])
    ensures !v.List? ==> r == Err(WrongType([Key("artifacts")], ListKind))
    ensures v.List? && v.items == [] ==> r == Err(EmptyList([Key("artifacts")]))
    ensures r.Err? && v.List? && v.items != [] ==>
      exists k :: (0 <= k < |v.items|
        && (forall j :: 0 <= j < k ==> v.items[j].Str?) && !v.items[k].Str?
        && r.error == WrongType([Key("artifacts"), Index(k)], StrKind))
  {
    if !v.List? then Err(WrongType([Key("artifacts")], ListKind))
    else if |v.items| == 0 then Err(EmptyList([Key("artifacts")]))
    else match FirstNonString(v.items, 0)
      case Some(k) => Err(WrongType([Key("artifacts"), Index(k)], StrKind))
      case None => Ok(seq(|v.items|, i requires 0 <= i < |v.items| => v.items[i].s))
  }

  /**
   * `validate_plan`: top level, then milestones, then artifacts; the first
   * stage that fails decides the reported violation.
   */
  function ValidatePlan(v: Value): (r: Result<Plan>)
    ensures r.Ok? <==> WellFormedPlan(v)
    ensures !HasRequiredKeys(v) ==> r.Err? && r.error.at == []
    ensures !HasRequiredKeys(v) ==> r == Err(ValidateTopLevel(v).error)
    ensures HasRequiredKeys(v) && !WellFormedMilestones(v.fields["milestones"]) ==>
      r.Err? && Under(r.error, [Key("milestones")])
    ensures HasRequiredKeys(v) && !WellFormedMilestones(v.fields["milestones"]) ==>
      r == Err(ValidateMilestones(v.fields["milestones"]).error)
    ensures HasRequiredKeys(v) && WellFormedMilestones(v.fields["milestones"]) && !WellFormedArtifacts(v.fields["artifacts"]) ==>
      r.Err? && Under(r.error, [Key("artifacts")])
    ensures HasRequiredKeys(v) && WellFormedMilestones(v.fields["milestones"]) && !WellFormedArtifacts(v.fields["artifacts"]) ==>
      r == Err(ValidateArtifacts(v.fields["artifacts"]).error)
    ensures r.Ok? ==> (r.value.feature == v.fields["feature"] && r.value.status == v.fields["status"]
      && |r.value.milestones| == |v.fields["milestones"].items|
      && (forall i :: 0 <= i < |r.value.milestones| ==> MilestoneDecodes(v.fields["milestones"].items[i], r.value.milestones[i]))
      && |r.value.artifacts| == |v.fields["artifacts"].items|
      && forall i :: 0 <= i < |r.value.artifacts| ==> v.fields["artifacts"].items[i] == Str(r.value.artifacts[i]))
  {
    match ValidateTopLevel(v)
    case Err(e) => Err(e)
    case Ok(m) =>
      match ValidateMilestones(m["milestones"])
      case Err(e) => Err(e)
      case Ok(ms) =>
        match ValidateArtifacts(m["artifacts"])
        case Err(e) => Err(e)
        case Ok(arts) => Ok(Plan(m["feature"], ms, arts, m["status"]))
  }

  /** A key outside REQUIRED_KEYS never changes the verdict: extra keys are accepted. */
  lemma ExtraKeyIgnored(m: map<string, Value>, k: string, x: Value)
    requires k !in REQUIRED_KEYS
    ensures ValidatePlan(Object(m[k := x])).Ok? <==> ValidatePlan(Object(m)).Ok?
  {
    var m' := m[k := x];
    assert forall q :: q in REQUIRED_KEYS ==> (q in m' <==> q in m) && (q in m ==> m'[q] == m[q]);
  }
}
