/** `TaskStatus` and `GenerationTask` (src/task_storage.py): the job record,
    its derived `progress_percent`, its dict form (`to_dict` / `from_dict`)
    and the in-memory mutations the registry applies between a read and a
    write.
 */
module Tasks {
  import opened Wrappers
  import opened Common
  import opened Json

  datatype Status = Pending | Running | Completed | Failed

  /** `TaskStatus.value` */
  function Tag(s: Status): string {
    match s
    case Pending => "pending"
    case Running => "running"
    case Completed => "completed"
    case Failed => "failed"
  }

  /** `TaskStatus(tag)`; None where it raises ValueError. */
  function ParseTag(tag: string): Option<Status> {
    if tag == "pending" then Some(Pending)
    else if tag == "running" then Some(Running)
    else if tag == "completed" then Some(Completed)
    else if tag == "failed" then Some(Failed)
    else None
  }

  lemma TagsRoundTrip(s: Status, tag: string)
    ensures ParseTag(tag) == Some(s) <==> Tag(s) == tag
  {
  }

  /** An emoticon or icon descriptor: a JSON object. */
  type Descriptor = map<string, Value>

  datatype GenerationTask = GenerationTask(
    taskId: string,
    status: Status,
    emoticonType: string,
    totalCount: int,
    completedCount: int,
    currentDescription: string,
    emoticons: seq<Descriptor>,
    icon: Option<Descriptor>,
    errorMessage: Option<string>,
    createdAt: Instant,
    updatedAt: Instant)

  // -------------------------------------------------------------------------
  // progress_percent

  /** Python's `round(n / d)` on the exact quotient: the nearest integer,
      ties to the even one. */
  function RoundHalfEven(n: int, d: int): (r: int)
    requires d > 0
    ensures -d <= 2 * (n - r * d) <= d
    ensures 2 * (n - r * d) == d || 2 * (n - r * d) == -d ==> r % 2 == 0
  {
    var q := n / d;
    var rem := n % d;
    assert n == q * d + rem;
    if 2 * rem < d then q
    else if 2 * rem > d then q + 1
    else if q % 2 == 0 then q
    else q + 1
  }

  /** The nearest-integer property determines the rounded value. */
  lemma RoundHalfEvenUnique(n: int, d: int, r: int)
    requires d > 0
    requires -d <= 2 * (n - r * d) <= d
    requires 2 * (n - r * d) == d || 2 * (n - r * d) == -d ==> r % 2 == 0
    ensures r == RoundHalfEven(n, d)
  {
    var x := RoundHalfEven(n, d);
    if r < x {
      NextMultiple(r, x, d, n);
    } else if r > x {
      NextMultiple(x, r, d, n);
    }
  }

  /** Two candidates `a < b` both within half a step of `n` are adjacent
      and sit exactly on either side of a tie. */
  lemma NextMultiple(a: int, b: int, d: int, n: int)
    requires a < b && d > 0
    requires -d <= 2 * (n - a * d) <= d && -d <= 2 * (n - b * d) <= d
    ensures b == a + 1 && 2 * (n - a * d) == d && 2 * (n - b * d) == -d
  {
    MulMono(a + 1, b, d);
    assert (a + 1) * d == a * d + d;
    if b > a + 1 {
      MulMono(a + 2, b, d);
      assert false;
    }
  }

  lemma MulMono(a: int, b: int, d: int)
    requires a <= b && d > 0
    ensures a * d <= b * d
  {
    assert b * d - a * d == (b - a) * d;
  }

  /** `progress_percent`: `round(completed_count / total_count * 100)` when
      there is a total, else 0. */
  function ProgressPercent(t: GenerationTask): (p: int)
    ensures t.totalCount <= 0 ==> p == 0
    ensures t.totalCount > 0 ==>
              -t.totalCount <= 2 * (100 * t.completedCount - p * t.totalCount) <= t.totalCount
  {
    if t.totalCount > 0 then RoundHalfEven(100 * t.completedCount, t.totalCount) else 0
  }

  /** A count within the total gives a percentage within 0..100. */
  lemma ProgressBounded(t: GenerationTask)
    requires 0 <= t.completedCount <= t.totalCount
    ensures 0 <= ProgressPercent(t) <= 100
  {
    var c, n, p := t.completedCount, t.totalCount, ProgressPercent(t);
    if n > 0 {
      if p > 100 {
        MulMono(101, p, n);
        MulMono(c, n, 100);
        assert false;
      }
      if p < 0 {
        MulMono(p, -1, n);
        assert false;
      }
    }
  }

  // -------------------------------------------------------------------------
  // to_dict / from_dict

  function DescriptorValues(ds: seq<Descriptor>): (vs: seq<Value>)
    ensures |vs| == |ds| && forall i :: 0 <= i < |ds| ==> vs[i] == Obj(ds[i])
  {
    seq(|ds|, i requires 0 <= i < |ds| => Obj(ds[i]))
  }

  /** The twelve keys `to_dict` writes. */
  const TaskFields: set<string> :=
    {"task_id", "status", "emoticon_type", "total_count", "completed_count",
     "current_description", "progress_percent", "emoticons", "icon",
     "error_message", "created_at", "updated_at"}

  /** `to_dict`: the document saved under `task:<id>`. */
  function ToDict(t: GenerationTask): (d: map<string, Value>)
    ensures d.Keys == TaskFields
    ensures d["progress_percent"].Num?
    ensures 0 <= t.completedCount <= t.totalCount ==> 0 <= d["progress_percent"].n <= 100
  {
    assert 0 <= t.completedCount <= t.totalCount ==> 0 <= ProgressPercent(t) <= 100 by {
      if 0 <= t.completedCount <= t.totalCount {
        ProgressBounded(t);
      }
    }
    map[
      "task_id" := Str(t.taskId),
      "status" := Str(Tag(t.status)),
      "emoticon_type" := Str(t.emoticonType),
      "total_count" := Num(t.totalCount),
      "completed_count" := Num(t.completedCount),
      "current_description" := Str(t.currentDescription),
      "progress_percent" := Num(ProgressPercent(t)),
      "emoticons" := Arr(DescriptorValues(t.emoticons)),
      "icon" := (match t.icon case Some(i) => Obj(i) case None => Null),
      "error_message" := (match t.errorMessage case Some(e) => Str(e) case None => Null),
      "created_at" := Str(IsoFormat(t.createdAt)),
      "updated_at" := Str(IsoFormat(t.updatedAt))
    ]
  }

  /** `data["key"]` read as a string or integer. */
  function RequiredStr(d: map<string, Value>, key: string): (r: Result<string>)
    ensures r.Ok? <==> key in d && d[key].Str?
    ensures r.Ok? ==> r.value == d[key].s
  {
    if key !in d then Err("KeyError: " + key)
    else if d[key].Str? then Ok(d[key].s)
    else Err("TypeError: " + key + " is not a string")
  }

  function RequiredInt(d: map<string, Value>, key: string): (r: Result<int>)
    ensures r.Ok? <==> key in d && d[key].Num?
    ensures r.Ok? ==> r.value == d[key].n
  {
    if key !in d then Err("KeyError: " + key)
    else if d[key].Num? then Ok(d[key].n)
    else Err("TypeError: " + key + " is not an integer")
  }

  /** `data.get(key, default)` for a string or integer field. */
  function OptionalStr(d: map<string, Value>, key: string, default: string): (r: Result<string>)
    ensures key !in d ==> r == Ok(default)
    ensures key in d && d[key].Str? ==> r == Ok(d[key].s)
  {
    if key !in d then Ok(default)
    else if d[key].Str? then Ok(d[key].s)
    else Err("TypeError: " + key + " is not a string")
  }

  function OptionalInt(d: map<string, Value>, key: string, default: int): (r: Result<int>)
    ensures key !in d ==> r == Ok(default)
    ensures key in d && d[key].Num? ==> r == Ok(d[key].n)
  {
    if key !in d then Ok(default)
    else if d[key].Num? then Ok(d[key].n)
    else Err("TypeError: " + key + " is not an integer")
  }

  /** `data.get("emoticons", [])` as a list of objects. */
  function OptionalDescriptors(d: map<string, Value>, key: string): (r: Result<seq<Descriptor>>)
    ensures key !in d ==> r == Ok([])
    ensures r.Ok? && key in d ==> d[key] == Arr(DescriptorValues(r.value))
  {
    if key !in d then Ok([])
    else
      match d[key]
      case Arr(items) =>
        if forall i :: 0 <= i < |items| ==> items[i].Obj? then
          var ds := seq(|items|, i requires 0 <= i < |items| => items[i].fields);
          assert DescriptorValues(ds) == items;
          Ok(ds)
        else Err("TypeError: " + key + " holds a non-object")
      case _ => Err("TypeError: " + key + " is not a list")
  }

  /** `data.get(key)` for a field that may be null: an object or a string. */
  function NullableDescriptor(d: map<string, Value>, key: string): (r: Result<Option<Descriptor>>)
    ensures key !in d || d[key] == Null ==> r == Ok(None)
    ensures key in d && d[key].Obj? ==> r == Ok(Some(d[key].fields))
  {
    if key !in d || d[key] == Null then Ok(None)
    else if d[key].Obj? then Ok(Some(d[key].fields))
    else Err("TypeError: " + key + " is not an object")
  }

  function NullableStr(d: map<string, Value>, key: string): (r: Result<Option<string>>)
    ensures key !in d || d[key] == Null ==> r == Ok(None)
    ensures key in d && d[key].Str? ==> r == Ok(Some(d[key].s))
  {
    if key !in d || d[key] == Null then Ok(None)
    else if d[key].Str? then Ok(Some(d[key].s))
    else Err("TypeError: " + key + " is not a string")
  }

  /** The timestamp fields: ISO text is parsed, a missing or null field is
      `datetime.now()`. */
  function ReadTimestamp(d: map<string, Value>, key: string, now: Instant): (r: Result<Instant>)
    ensures key !in d || d[key] == Null ==> r == Ok(now)
    ensures r.Ok? && key in d && d[key] != Null ==> d[key].Str? && IsoParse(d[key].s) == Some(r.value)
  {
    if key !in d || d[key] == Null then Ok(now)
    else
      match d[key]
      case Str(s) =>
        (match IsoParse(s)
         case Some(t) => Ok(t)
         case None => Err("ValueError: Invalid isoformat string"))
      case _ => Err("TypeError: " + key + " is not a timestamp")
  }

  /** `data.get("status", "pending")` turned into a `TaskStatus`. */
  function ReadStatus(d: map<string, Value>): (r: Result<Status>)
    ensures "status" !in d ==> r == Ok(Pending)
    ensures r.Ok? && "status" in d ==> d["status"] == Str(Tag(r.value))
  {
    if "status" !in d then Ok(Pending)
    else
      match d["status"]
      case Str(tag) =>
        (match ParseTag(tag)
         case Some(s) => Ok(s)
         case None => Err("ValueError: '" + tag + "' is not a valid TaskStatus"))
      case _ => Err("TypeError: status is not a string")
  }

  /** `from_dict`, reading the fields in the order the source does, so the
      first failure is the exception it raises. `progress_percent` is not
      read. */
  function FromDict(data: Value, now: Instant): (r: Result<GenerationTask>)
    ensures r.Ok? ==> data.Obj?
    ensures r.Ok? ==> "task_id" in data.fields && data.fields["task_id"] == Str(r.value.taskId)
  {
    if !data.Obj? then Err("TypeError: task data is not a dict")
    else
      var d := data.fields;
      var createdAt :- ReadTimestamp(d, "created_at", now);
      var updatedAt :- ReadTimestamp(d, "updated_at", now);
      var status :- ReadStatus(d);
      var taskId :- RequiredStr(d, "task_id");
      var emoticonType :- RequiredStr(d, "emoticon_type");
      var totalCount :- RequiredInt(d, "total_count");
      var completedCount :- OptionalInt(d, "completed_count", 0);
      var description :- OptionalStr(d, "current_description", "");
      var emoticons :- OptionalDescriptors(d, "emoticons");
      var icon :- NullableDescriptor(d, "icon");
      var errorMessage :- NullableStr(d, "error_message");
      Ok(GenerationTask(taskId, status, emoticonType, totalCount, completedCount, description,
                        emoticons, icon, errorMessage, createdAt, updatedAt))
  }

  /** Reading back the saved form reproduces every field, timestamps and
      status tag included; the stored `progress_percent` is ignored. */
  lemma FromDictToDict(t: GenerationTask, now: Instant)
    ensures FromDict(Obj(ToDict(t)), now) == Ok(t)
  {
    var d := ToDict(t);
    ToDictFields(t);
    TimestampOf(d, "created_at", t.createdAt, now);
    TimestampOf(d, "updated_at", t.updatedAt, now);
    StatusOf(d, t.status);
    DescriptorsOf(d, "emoticons", t.emoticons);
    IconOf(d, t.icon);
    ErrorOf(d, t.errorMessage);
  }

  lemma IconOf(d: map<string, Value>, icon: Option<Descriptor>)
    requires "icon" in d && d["icon"] == (match icon case Some(i) => Obj(i) case None => Null)
    ensures NullableDescriptor(d, "icon") == Ok(icon)
  {
  }

  lemma ErrorOf(d: map<string, Value>, message: Option<string>)
    requires "error_message" in d
    requires d["error_message"] == (match message case Some(e) => Str(e) case None => Null)
    ensures NullableStr(d, "error_message") == Ok(message)
  {
  }

  lemma ToDictFields(t: GenerationTask)
    ensures var d := ToDict(t);
            && "task_id" in d && d["task_id"] == Str(t.taskId)
            && "status" in d && d["status"] == Str(Tag(t.status))
            && "emoticon_type" in d && d["emoticon_type"] == Str(t.emoticonType)
            && "total_count" in d && d["total_count"] == Num(t.totalCount)
            && "completed_count" in d && d["completed_count"] == Num(t.completedCount)
            && "current_description" in d && d["current_description"] == Str(t.currentDescription)
    ensures var d := ToDict(t);
            && "emoticons" in d && d["emoticons"] == Arr(DescriptorValues(t.emoticons))
            && "icon" in d && d["icon"] == (match t.icon case Some(i) => Obj(i) case None => Null)
            && "error_message" in d
            && d["error_message"] == (match t.errorMessage case Some(e) => Str(e) case None => Null)
            && "created_at" in d && d["created_at"] == Str(IsoFormat(t.createdAt))
            && "updated_at" in d && d["updated_at"] == Str(IsoFormat(t.updatedAt))
    ensures var d := ToDict(t);
            "progress_percent" in d && d["progress_percent"] == Num(ProgressPercent(t))
  {
    ToDictScalars(t);
    ToDictParts(t);
    ToDictProgress(t);
  }

  lemma ToDictProgress(t: GenerationTask)
    ensures var d := ToDict(t);
            "progress_percent" in d && d["progress_percent"] == Num(ProgressPercent(t))
  {
    var d := ToDict(t);
    assert d["progress_percent"] == Num(ProgressPercent(t));
  }

  lemma ToDictScalars(t: GenerationTask)
    ensures var d := ToDict(t);
            && "task_id" in d && d["task_id"] == Str(t.taskId)
            && "status" in d && d["status"] == Str(Tag(t.status))
            && "emoticon_type" in d && d["emoticon_type"] == Str(t.emoticonType)
            && "total_count" in d && d["total_count"] == Num(t.totalCount)
            && "completed_count" in d && d["completed_count"] == Num(t.completedCount)
            && "current_description" in d && d["current_description"] == Str(t.currentDescription)
  {
    ToDictIdentity(t);
    ToDictCounts(t);
  }

  lemma ToDictIdentity(t: GenerationTask)
    ensures var d := ToDict(t);
            && "task_id" in d && d["task_id"] == Str(t.taskId)
            && "status" in d && d["status"] == Str(Tag(t.status))
            && "emoticon_type" in d && d["emoticon_type"] == Str(t.emoticonType)
  {
    var d := ToDict(t);
    assert d["task_id"] == Str(t.taskId);
    assert d["status"] == Str(Tag(t.status));
    assert d["emoticon_type"] == Str(t.emoticonType);
  }

  lemma ToDictCounts(t: GenerationTask)
    ensures var d := ToDict(t);
            && "total_count" in d && d["total_count"] == Num(t.totalCount)
            && "completed_count" in d && d["completed_count"] == Num(t.completedCount)
            && "current_description" in d && d["current_description"] == Str(t.currentDescription)
  {
    var d := ToDict(t);
    assert d["total_count"] == Num(t.totalCount);
    assert d["completed_count"] == Num(t.completedCount);
    assert d["current_description"] == Str(t.currentDescription);
  }

  lemma ToDictParts(t: GenerationTask)
    ensures var d := ToDict(t);
            && "emoticons" in d && d["emoticons"] == Arr(DescriptorValues(t.emoticons))
            && "icon" in d && d["icon"] == (match t.icon case Some(i) => Obj(i) case None => Null)
            && "error_message" in d
            && d["error_message"] == (match t.errorMessage case Some(e) => Str(e) case None => Null)
            && "created_at" in d && d["created_at"] == Str(IsoFormat(t.createdAt))
            && "updated_at" in d && d["updated_at"] == Str(IsoFormat(t.updatedAt))
  {
    var d := ToDict(t);
    assert d["emoticons"] == Arr(DescriptorValues(t.emoticons));
  }

  lemma TimestampOf(d: map<string, Value>, key: string, t: Instant, now: Instant)
    requires key in d && d[key] == Str(IsoFormat(t))
    ensures ReadTimestamp(d, key, now) == Ok(t)
  {
    IsoRoundTrip(t);
  }

  lemma StatusOf(d: map<string, Value>, s: Status)
    requires "status" in d && d["status"] == Str(Tag(s))
    ensures ReadStatus(d) == Ok(s)
  {
    TagsRoundTrip(s, Tag(s));
  }

  lemma DescriptorsOf(d: map<string, Value>, key: string, ds: seq<Descriptor>)
    requires key in d && d[key] == Arr(DescriptorValues(ds))
    ensures OptionalDescriptors(d, key) == Ok(ds)
  {
    var items := DescriptorValues(ds);
    assert forall i :: 0 <= i < |items| ==> items[i].Obj?;
    assert seq(|items|, i requires 0 <= i < |items| => items[i].fields) == ds;
  }

  /** The minimal dict `from_dict` accepts: id, type and total only; every
      optional field takes its default and both timestamps are `now`. */
  lemma FromDictDefaults(id: string, kind: string, total: int, now: Instant)
    ensures FromDict(Obj(map["task_id" := Str(id), "emoticon_type" := Str(kind), "total_count" := Num(total)]), now)
            == Ok(GenerationTask(id, Pending, kind, total, 0, "", [], None, None, now, now))
  {
  }

  /** `from_dict` raises KeyError without a `task_id`. */
  lemma FromDictNeedsTaskId(d: map<string, Value>, now: Instant)
    requires "task_id" !in d
    ensures FromDict(Obj(d), now).Err?
  {
  }

  // -------------------------------------------------------------------------
  // Mutations

  /** The field updates of the `TaskStorage` write operations. */
  datatype Mutation =
    | SetStatus(status: Status)                         // update_task_status
    | SetProgress(completed: int, description: string)  // update_task_progress
    | AddEmoticon(emoticon: Descriptor)                 // add_emoticon
    | SetIcon(icon: Descriptor)                         // set_icon
    | SetError(message: string)                         // set_error
    | Complete                                          // complete_task

  /** The fields a mutation rewrites, besides `updated_at`. */
  function Apply(t: GenerationTask, m: Mutation, now: Instant): (r: GenerationTask)
    // never changed by any mutation
    ensures r.taskId == t.taskId && r.emoticonType == t.emoticonType
    ensures r.totalCount == t.totalCount && r.createdAt == t.createdAt
    ensures r.updatedAt == now
    // status: any transition is accepted, terminal states included
    ensures m.SetStatus? ==> r.status == m.status
    ensures m.SetError? ==> r.status == Failed
    ensures m.Complete? ==> r.status == Completed
    ensures !(m.SetStatus? || m.SetError? || m.Complete?) ==> r.status == t.status
    // progress and the emoticon list move independently
    ensures m.SetProgress? ==> r.completedCount == m.completed && r.currentDescription == m.description
    ensures !m.SetProgress? ==> r.completedCount == t.completedCount && r.currentDescription == t.currentDescription
    ensures m.AddEmoticon? ==> r.emoticons == t.emoticons + [m.emoticon]
    ensures !m.AddEmoticon? ==> r.emoticons == t.emoticons
    ensures m.SetIcon? ==> r.icon == Some(m.icon)
    ensures !m.SetIcon? ==> r.icon == t.icon
    // only set_error writes the message; nothing clears it
    ensures m.SetError? ==> r.errorMessage == Some(m.message)
    ensures !m.SetError? ==> r.errorMessage == t.errorMessage
  {
    match m
    case SetStatus(s) => t.(status := s, updatedAt := now)
    case SetProgress(c, desc) => t.(completedCount := c, currentDescription := desc, updatedAt := now)
    case AddEmoticon(e) => t.(emoticons := t.emoticons + [e], updatedAt := now)
    case SetIcon(i) => t.(icon := Some(i), updatedAt := now)
    case SetError(msg) => t.(status := Failed, errorMessage := Some(msg), updatedAt := now)
    case Complete => t.(status := Completed, updatedAt := now)
  }

  /** The record `create_task` builds. */
  function NewTask(id: string, kind: string, total: int, now: Instant): (t: GenerationTask)
    ensures t.taskId == id && t.emoticonType == kind && t.totalCount == total
    ensures t.status == Pending && t.completedCount == 0 && t.currentDescription == ""
    ensures t.emoticons == [] && t.icon.None? && t.errorMessage.None?
    ensures t.createdAt == now && t.updatedAt == now
    ensures ProgressPercent(t) == 0
  {
    GenerationTask(id, Pending, kind, total, 0, "", [], None, None, now, now)
  }

  /** Appending `n` descriptors leaves the count alone. */
  function AddAll(t: GenerationTask, ds: seq<Descriptor>, now: Instant): (r: GenerationTask)
    ensures r.taskId == t.taskId && r.totalCount == t.totalCount
    ensures r.completedCount == t.completedCount
    ensures r.emoticons == t.emoticons + ds
    ensures r.status == t.status && r.errorMessage == t.errorMessage
    decreases |ds|
  {
    if |ds| == 0 then t
    else
      assert t.emoticons + ds == (t.emoticons + [ds[0]]) + ds[1..];
      AddAll(Apply(t, AddEmoticon(ds[0]), now), ds[1..], now)
  }

  /** The documented walk-through: 32 planned, five emoticons added with no
      progress update (count stays 0), progress 5 gives 16 %, and an error
      forces Failed whatever came before. */
  lemma StaticWalkthrough(id: string, now: Instant, ds: seq<Descriptor>)
    requires |ds| == 5
    ensures var created := NewTask(id, "static", 32, now);
            var added := AddAll(created, ds, now);
            var progressed := Apply(added, SetProgress(5, "cat waving"), now);
            var failed := Apply(progressed, SetError("quota exceeded"), now);
            && created.status == Pending && ProgressPercent(created) == 0
            && added.completedCount == 0 && |added.emoticons| == 5
            && progressed.completedCount == 5 && ProgressPercent(progressed) == 16
            && failed.status == Failed && failed.errorMessage == Some("quota exceeded")
  {
    var added := AddAll(NewTask(id, "static", 32, now), ds, now);
    var progressed := Apply(added, SetProgress(5, "cat waving"), now);
    assert progressed.totalCount == 32;
    RoundHalfEvenUnique(500, 32, 16);
  }

  /** No transition guards: `complete_task` succeeds on a failed task and
      keeps its error message; any status can be set from any status. */
  lemma NoTransitionGuards(t: GenerationTask, s: Status, now: Instant)
    ensures Apply(t, SetStatus(s), now).status == s
    ensures t.errorMessage.Some? ==> Apply(t, Complete, now).errorMessage == t.errorMessage
    ensures Apply(Apply(t, Complete, now), SetStatus(Running), now).status == Running
  {
  }
}
