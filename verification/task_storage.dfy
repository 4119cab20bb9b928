/** `TaskStorage` (src/task_storage.py): the job registry. Every operation is
    a read of the JSON document under `task:<id>` followed, when a task was
    found, by a rewrite of the whole document with a fresh task ttl. There
    is no locking: two interleaved updates lose one write, which a model of
    one call at a time does not show.
 */
module TaskStorage {
  import opened Wrappers
  import opened Common
  import opened Json
  import opened MemoryStorage
  import opened JsonStorage
  import opened Keyspace
  import opened Tasks
  import ShortId

  /** `_generate_task_id`'s default length. */
  const TaskIdLength: nat := 12

  /** What `get_task` produces: a task, None, or the exception it raises
      (undecodable bytes, or a document `from_dict` rejects). */
  datatype Lookup = Found(task: GenerationTask) | Absent | Raised(error: string)

  /** The value `_save_task` hands to `set_json`. */
  function Document(t: GenerationTask): PyValue {
    Native(Obj(ToDict(t)))
  }

  /** `_save_task`: the document goes under the key of the task's own id,
      with the task ttl. */
  function SaveTask(s: Store, t: GenerationTask, now: Instant, c: Codec, cfg: TtlConfig): (r: Store)
    requires WellFormed(s)
    ensures WellFormed(r)
    ensures Inv(s) ==> Inv(r)
    ensures r == Set(s, TaskKey(t.taskId), c.dumps(Obj(ToDict(t))), Some(GetTtl(cfg, "task")), now).store
  {
    SetJson(s, TaskKey(t.taskId), Document(t), Some(GetTtl(cfg, "task")), now, c).store
  }

  /** `create_task`: a fresh 12-character id, status pending, nothing done
      yet; the task is saved and returned. */
  function CreateTask(s: Store, kind: string, total: int, draw: nat -> nat, now: Instant, c: Codec, cfg: TtlConfig)
    : (r: Answer<GenerationTask>)
    requires WellFormed(s)
    ensures WellFormed(r.store)
    ensures ShortId.IsShortId(r.value.taskId, TaskIdLength)
    ensures r.value.emoticonType == kind && r.value.totalCount == total
    ensures r.value.status == Pending && r.value.completedCount == 0 && r.value.emoticons == []
    ensures r.value.currentDescription == ""
    ensures r.value.icon.None? && r.value.errorMessage.None?
    ensures r.value.createdAt == now && r.value.updatedAt == now
    ensures r.store == SaveTask(s, r.value, now, c, cfg)
  {
    var t := NewTask(ShortId.Generate(TaskIdLength, draw), kind, total, now);
    Answer(SaveTask(s, t, now, c, cfg), t)
  }

  /** `get_task`: a truthy document is handed to `from_dict`; a missing key,
      empty bytes or a falsy document (`null`, `{}`) read as None. */
  function GetTask(s: Store, id: string, now: Instant, c: Codec): (r: Answer<Lookup>)
    requires WellFormed(s)
    ensures WellFormed(r.store)
    ensures r.store == Get(s, TaskKey(id), now).store
    ensures Get(s, TaskKey(id), now).value.None? ==> r.value == Absent
    ensures r.value.Found? ==> Get(s, TaskKey(id), now).value.Some?
  {
    var a := GetJson(s, TaskKey(id), now, c);
    match a.value
    case Err(e) => Answer(a.store, Raised(e))
    case Ok(None) => Answer(a.store, Absent)
    case Ok(Some(v)) =>
      if !Truthy(v) then Answer(a.store, Absent)
      else
        match FromDict(v, now)
        case Ok(t) => Answer(a.store, Found(t))
        case Err(e) => Answer(a.store, Raised(e))
  }

  /** A stored task document reads back as the task it encodes. */
  lemma GetTaskReadsDocument(s: Store, id: string, now: Instant, c: Codec, t: GenerationTask)
    requires WellFormed(s) && Faithful(c)
    requires Get(s, TaskKey(id), now).value == Some(c.dumps(Obj(ToDict(t))))
    ensures GetTask(s, id, now, c).value == Found(t)
  {
    FromDictToDict(t, now);
    assert Truthy(Obj(ToDict(t)));
    assert GetJson(s, TaskKey(id), now, c).value == Ok(Some(Obj(ToDict(t))));
  }

  /** A falsy document (`null`, `{}`, `0`, `""`, `[]`) reads as no task. */
  lemma GetTaskFalsyDocument(s: Store, id: string, now: Instant, c: Codec, v: Value)
    requires WellFormed(s) && Faithful(c) && !Truthy(v)
    requires Get(s, TaskKey(id), now).value == Some(c.dumps(v))
    ensures GetTask(s, id, now, c).value == Absent
  {
    assert GetJson(s, TaskKey(id), now, c).value == Ok(Some(v));
  }

  /** The common shape of the six update operations: read, and if a task
      came back apply the mutation and save it. An absent task is a silent
      no-op; an exception from the read propagates. */
  function Mutate(s: Store, id: string, m: Mutation, now: Instant, c: Codec, cfg: TtlConfig): (r: Answer<Result<()>>)
    requires WellFormed(s)
    ensures WellFormed(r.store)
    ensures r.value.Err? <==> GetTask(s, id, now, c).value.Raised?
    ensures !GetTask(s, id, now, c).value.Found? ==> r.store == Get(s, TaskKey(id), now).store
    ensures GetTask(s, id, now, c).value.Found? ==>
              var t := GetTask(s, id, now, c).value.task;
              r.store == SaveTask(Get(s, TaskKey(id), now).store, Apply(t, m, now), now, c, cfg)
  {
    var a := GetTask(s, id, now, c);
    match a.value
    case Found(t) => Answer(SaveTask(a.store, Apply(t, m, now), now, c, cfg), Ok(()))
    case Absent => Answer(a.store, Ok(()))
    case Raised(e) => Answer(a.store, Err(e))
  }

  /** A read at the same instant sees what an update wrote, when the task
      is stored under its own id and the task ttl is not negative. */
  lemma UpdateVisible(s: Store, id: string, m: Mutation, now: Instant, c: Codec, cfg: TtlConfig)
    requires WellFormed(s)
    ensures var found := GetTask(s, id, now, c).value;
            Faithful(c) && cfg.task >= 0 && found.Found? && found.task.taskId == id ==>
              GetTask(Mutate(s, id, m, now, c, cfg).store, id, now, c).value == Found(Apply(found.task, m, now))
  {
    var found := GetTask(s, id, now, c).value;
    if Faithful(c) && cfg.task >= 0 && found.Found? && found.task.taskId == id {
      MutateThenGet(s, found.task, m, now, now, c, cfg);
    }
  }

  /** `update_task_status`: the status is replaced and `updated_at` moved
      to now; nothing else changes. */
  function UpdateTaskStatus(s: Store, id: string, status: Status, now: Instant, c: Codec, cfg: TtlConfig)
    : (r: Answer<Result<()>>)
    requires WellFormed(s)
    ensures WellFormed(r.store)
    ensures r.value.Err? <==> GetTask(s, id, now, c).value.Raised?
    ensures var found := GetTask(s, id, now, c).value;
            Faithful(c) && cfg.task >= 0 && found.Found? && found.task.taskId == id ==>
              GetTask(r.store, id, now, c).value == Found(found.task.(status := status, updatedAt := now))
  {
    UpdateVisible(s, id, SetStatus(status), now, c, cfg);
    Mutate(s, id, SetStatus(status), now, c, cfg)
  }

  /** `update_task_progress`: count and description are replaced together. */
  function UpdateTaskProgress(s: Store, id: string, completed: int, description: string, now: Instant, c: Codec, cfg: TtlConfig)
    : (r: Answer<Result<()>>)
    requires WellFormed(s)
    ensures WellFormed(r.store)
    ensures r.value.Err? <==> GetTask(s, id, now, c).value.Raised?
    ensures var found := GetTask(s, id, now, c).value;
            Faithful(c) && cfg.task >= 0 && found.Found? && found.task.taskId == id ==>
              GetTask(r.store, id, now, c).value ==
                Found(found.task.(completedCount := completed, currentDescription := description, updatedAt := now))
  {
    UpdateVisible(s, id, SetProgress(completed, description), now, c, cfg);
    Mutate(s, id, SetProgress(completed, description), now, c, cfg)
  }

  /** `add_emoticon`: the descriptor is appended; the count is untouched. */
  function AddEmoticonTo(s: Store, id: string, emoticon: Descriptor, now: Instant, c: Codec, cfg: TtlConfig)
    : (r: Answer<Result<()>>)
    requires WellFormed(s)
    ensures WellFormed(r.store)
    ensures r.value.Err? <==> GetTask(s, id, now, c).value.Raised?
    ensures var found := GetTask(s, id, now, c).value;
            Faithful(c) && cfg.task >= 0 && found.Found? && found.task.taskId == id ==>
              GetTask(r.store, id, now, c).value ==
                Found(found.task.(emoticons := found.task.emoticons + [emoticon], updatedAt := now))
  {
    UpdateVisible(s, id, AddEmoticon(emoticon), now, c, cfg);
    Mutate(s, id, AddEmoticon(emoticon), now, c, cfg)
  }

  /** `set_icon`: the icon is replaced. */
  function SetIconOf(s: Store, id: string, icon: Descriptor, now: Instant, c: Codec, cfg: TtlConfig)
    : (r: Answer<Result<()>>)
    requires WellFormed(s)
    ensures WellFormed(r.store)
    ensures r.value.Err? <==> GetTask(s, id, now, c).value.Raised?
    ensures var found := GetTask(s, id, now, c).value;
            Faithful(c) && cfg.task >= 0 && found.Found? && found.task.taskId == id ==>
              GetTask(r.store, id, now, c).value == Found(found.task.(icon := Some(icon), updatedAt := now))
  {
    UpdateVisible(s, id, SetIcon(icon), now, c, cfg);
    Mutate(s, id, SetIcon(icon), now, c, cfg)
  }

  /** `set_error`: the task is failed and carries the message. */
  function SetErrorOf(s: Store, id: string, message: string, now: Instant, c: Codec, cfg: TtlConfig)
    : (r: Answer<Result<()>>)
    requires WellFormed(s)
    ensures WellFormed(r.store)
    ensures r.value.Err? <==> GetTask(s, id, now, c).value.Raised?
    ensures var found := GetTask(s, id, now, c).value;
            Faithful(c) && cfg.task >= 0 && found.Found? && found.task.taskId == id ==>
              GetTask(r.store, id, now, c).value ==
                Found(found.task.(status := Failed, errorMessage := Some(message), updatedAt := now))
  {
    UpdateVisible(s, id, SetError(message), now, c, cfg);
    Mutate(s, id, SetError(message), now, c, cfg)
  }

  /** `complete_task`: the task is completed, whatever its status was. */
  function CompleteTask(s: Store, id: string, now: Instant, c: Codec, cfg: TtlConfig): (r: Answer<Result<()>>)
    requires WellFormed(s)
    ensures WellFormed(r.store)
    ensures r.value.Err? <==> GetTask(s, id, now, c).value.Raised?
    ensures var found := GetTask(s, id, now, c).value;
            Faithful(c) && cfg.task >= 0 && found.Found? && found.task.taskId == id ==>
              GetTask(r.store, id, now, c).value == Found(found.task.(status := Completed, updatedAt := now))
  {
    UpdateVisible(s, id, Complete, now, c, cfg);
    Mutate(s, id, Complete, now, c, cfg)
  }

  // -------------------------------------------------------------------------
  // Properties across operations

  /** Whether a write at `now` with the task ttl is gone by `later`. */
  predicate Lapsed(cfg: TtlConfig, now: Instant, later: Instant) {
    HasTtl(Some(GetTtl(cfg, "task"))) && AddSeconds(now, GetTtl(cfg, "task")) < later
  }

  /** A saved task reads back as itself, every field included, until the
      task ttl has passed; after that it is absent. */
  lemma SaveThenGet(s: Store, t: GenerationTask, now: Instant, later: Instant, c: Codec, cfg: TtlConfig)
    requires WellFormed(s) && Faithful(c)
    ensures GetTask(SaveTask(s, t, now, c, cfg), t.taskId, later, c).value ==
              if Lapsed(cfg, now, later) then Absent else Found(t)
  {
    var written := SaveTask(s, t, now, c, cfg);
    var key := TaskKey(t.taskId);
    var bytes := c.dumps(Obj(ToDict(t)));
    SetThenGet(s, key, bytes, Some(GetTtl(cfg, "task")), now, later);
    if !Lapsed(cfg, now, later) {
      GetTaskReadsDocument(written, t.taskId, later, c, t);
    }
  }

  /** `create_task` then `get_task` at the same instant returns the created
      task (a negative task ttl would make it expire at once). */
  lemma CreateThenGet(s: Store, kind: string, total: int, draw: nat -> nat, now: Instant, c: Codec, cfg: TtlConfig)
    requires WellFormed(s) && Faithful(c) && cfg.task >= 0
    ensures var created := CreateTask(s, kind, total, draw, now, c, cfg);
            GetTask(created.store, created.value.taskId, now, c).value == Found(created.value)
  {
    var created := CreateTask(s, kind, total, draw, now, c, cfg);
    SaveThenGet(s, created.value, now, now, c, cfg);
    assert !Lapsed(cfg, now, now);
  }

  /** An update of a stored task is visible to the next read: the task comes
      back with exactly the mutation applied. */
  lemma MutateThenGet(s: Store, t: GenerationTask, m: Mutation, now: Instant, later: Instant, c: Codec, cfg: TtlConfig)
    requires WellFormed(s) && Faithful(c)
    requires GetTask(s, t.taskId, now, c).value == Found(t)
    ensures GetTask(Mutate(s, t.taskId, m, now, c, cfg).store, t.taskId, later, c).value ==
              if Lapsed(cfg, now, later) then Absent else Found(Apply(t, m, now))
  {
    var read := Get(s, TaskKey(t.taskId), now).store;
    SaveThenGet(read, Apply(t, m, now), now, later, c, cfg);
  }

  /** Updating a task that is not there writes nothing: at most the expired
      entry the read itself purged is gone, and no key is added. */
  lemma MutateAbsentWritesNothing(s: Store, id: string, m: Mutation, now: Instant, c: Codec, cfg: TtlConfig)
    requires WellFormed(s)
    requires GetTask(s, id, now, c).value.Absent?
    ensures Mutate(s, id, m, now, c, cfg).value == Ok(())
    ensures Mutate(s, id, m, now, c, cfg).store.data.entries.Keys <= s.data.entries.Keys
  {
  }

  /** The save uses the id inside the document, not the one asked for: a
      document under `task:a` that names task `b` is rewritten under
      `task:b`, and `task:a`, unless evicted, keeps its old bytes. */
  lemma MutateWritesUnderStoredId(s: Store, id: string, m: Mutation, now: Instant, c: Codec, cfg: TtlConfig)
    requires WellFormed(s)
    requires GetTask(s, id, now, c).value.Found?
    requires GetTask(s, id, now, c).value.task.taskId != id
    ensures var written := Mutate(s, id, m, now, c, cfg).store;
            var t := Apply(GetTask(s, id, now, c).value.task, m, now);
            && TaskKey(t.taskId) in written.data.entries
            && written.data.entries[TaskKey(t.taskId)] == c.dumps(Obj(ToDict(t)))
            && (TaskKey(id) in written.data.entries ==>
                  written.data.entries[TaskKey(id)] == s.data.entries[TaskKey(id)])
  {
    var t := Apply(GetTask(s, id, now, c).value.task, m, now);
    KeysAreUnique(Namespace.Task, t.taskId, Namespace.Task, id);
    assert Get(s, TaskKey(id), now).store == s;
  }
}
