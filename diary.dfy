/** controllers/DiaryController.js over models/section-model.js: a teacher's diary of
    sections, each with a task list. Sections are looked up by their own id together
    with the owner's userId; an empty string stands for a missing (falsy) field. */
module Diary {
  import opened Wrappers
  import opened Decimal
  import opened Strings

  datatype Task = Task(
    id: string,
    title: string,
    date: string,
    time: string,
    isUrgent: bool,
    completed: bool,
    completedAt: Option<int>,
    sectionId: string,
    sectionTitle: string,
    sectionColor: string)

  datatype Section = Section(id: string, userId: string, title: string, letter: string, color: string, tasks: seq<Task>)

  /** The body of addTaskToSection: every field may be absent. `id` is spread over the
      generated task id when the client sends one. */
  datatype TaskBody = TaskBody(userId: string, id: Option<string>, title: Option<string>, date: Option<string>,
                               time: Option<string>, isUrgent: Option<bool>)

  /** The body of updateTaskInSection. */
  datatype TaskEdit = TaskEdit(userId: string, title: string, date: string, time: string, isUrgent: Option<bool>)

  /** The HTTP status of the reply and the collection afterwards. */
  datatype DiaryStep = DiaryStep(status: int, sections: seq<Section>)

  const Ok: int := 200
  const Created: int := 201
  const BadRequest: int := 400
  const NotFound: int := 404
  const ServerError: int := 500

  /** `findOne({ id, userId })`: the first section with both. */
  function FindSection(ss: seq<Section>, id: string, userId: string): (r: Option<nat>)
    ensures r.Some? ==> r.value < |ss| && ss[r.value].id == id && ss[r.value].userId == userId
    ensures r.Some? ==> forall j :: 0 <= j < r.value ==> !(ss[j].id == id && ss[j].userId == userId)
    ensures r.None? <==> forall j :: 0 <= j < |ss| ==> !(ss[j].id == id && ss[j].userId == userId)
  {
    if |ss| == 0 then None
    else if ss[0].id == id && ss[0].userId == userId then Some(0)
    else match FindSection(ss[1..], id, userId)
      case None => None
      case Some(i) => Some(i + 1)
  }

  /** `tasks.findIndex(task => task.id === taskId)`, with -1 as None. */
  function FindTask(ts: seq<Task>, taskId: string): (r: Option<nat>)
    ensures r.Some? ==> r.value < |ts| && ts[r.value].id == taskId
    ensures r.Some? ==> forall j :: 0 <= j < r.value ==> ts[j].id != taskId
    ensures r.None? <==> forall j :: 0 <= j < |ts| ==> ts[j].id != taskId
  {
    if |ts| == 0 then None
    else if ts[0].id == taskId then Some(0)
    else match FindTask(ts[1..], taskId)
      case None => None
      case Some(i) => Some(i + 1)
  }

  // ---------------------------------------------------------------- sections

  /** `section_${Date.now()}`. */
  function SectionId(now: nat): (id: string)
    ensures |id| > 8 && id[..8] == "section_" && AllDigits(id[8..]) && DigitsValue(id[8..]) == now
  {
    var digits := NatToString(now);
    assert ("section_" + digits)[8..] == digits;
    "section_" + digits
  }

  /** createSection. The schema trims the title, letter and colour before validating them:
      one that is missing or only white space, or a letter longer than one character once
      trimmed, fails the validation (400); a second section created within the same
      millisecond collides on the unique id (a duplicate-key error, 500). */
  function CreateSectionSpec(ss: seq<Section>, userId: string, title: string, letter: string, color: string,
                             now: nat): (s: DiaryStep)
    ensures userId == "" ==> s == DiaryStep(BadRequest, ss)
    ensures s.status != Created ==> s.sections == ss
    ensures s.status == Created <==>
      userId != "" && Trim(title) != "" && Trim(letter) != "" && |Trim(letter)| <= 1 && Trim(color) != ""
      && forall j :: 0 <= j < |ss| ==> ss[j].id != SectionId(now)
    ensures s.status == Created ==>
      s.sections == ss + [Section(SectionId(now), userId, Trim(title), Trim(letter), Trim(color), [])]
  {
    if userId == "" then DiaryStep(BadRequest, ss)
    else if Trim(title) == "" || Trim(letter) == "" || |Trim(letter)| > 1 || Trim(color) == "" then DiaryStep(BadRequest, ss)
    else if exists j :: 0 <= j < |ss| && ss[j].id == SectionId(now) then DiaryStep(ServerError, ss)
    else DiaryStep(Created, ss + [Section(SectionId(now), userId, Trim(title), Trim(letter), Trim(color), [])])
  }

  // ---------------------------------------------------------------- tasks

  /** The task addTaskToSection builds: generated id unless the body carries one, then the
      body, then the fixed completion state and the section's own id, title and colour,
      which override the body. Schema defaults fill `time` and `isUrgent`; the title is
      stored trimmed. */
  function NewTask(sec: Section, body: TaskBody, now: nat): (t: Task)
    requires body.title.Some? && body.date.Some?
    ensures !t.completed && t.completedAt == None
    ensures t.sectionId == sec.id && t.sectionTitle == sec.title && t.sectionColor == sec.color
    ensures t.id == NewTaskId(body, now)
    ensures t.title == Trim(body.title.value) && t.date == body.date.value
    ensures t.time == body.time.GetOr("00:00") && t.isUrgent == body.isUrgent.GetOr(false)
  {
    Task(body.id.GetOr("task_" + NatToString(now)), Trim(body.title.value), body.date.value,
         body.time.GetOr("00:00"), body.isUrgent.GetOr(false), false, None, sec.id, sec.title, sec.color)
  }

  /** The body passes the task schema's required checks once the title is trimmed. */
  predicate ValidTaskBody(body: TaskBody) {
    && body.title.Some? && Trim(body.title.value) != ""
    && body.date.Some? && body.date.value != ""
    && (body.id.Some? ==> body.id.value != "")
  }

  /** The id a new task gets: the body's `id` when sent, else the generated one. */
  function NewTaskId(body: TaskBody, now: nat): string {
    body.id.GetOr("task_" + NatToString(now))
  }

  /** Some task of a section other than the i-th already carries the id. The schema's
      `unique: true` on the task id is a unique index on `tasks.id` over the whole
      collection, which MongoDB enforces between documents but not inside one. */
  predicate TaskIdHeldElsewhere(ss: seq<Section>, i: nat, id: string) {
    exists j, k :: 0 <= j < |ss| && j != i && 0 <= k < |ss[j].tasks| && ss[j].tasks[k].id == id
  }

  /** addTaskToSection. A task whose title is missing or only white space, whose date is
      missing or empty (cast to null), or whose body sends an empty `id` fails the schema's
      required checks on save, and a task id already held in another section fails the
      unique index (a duplicate-key error); this handler reports both as a server error. */
  function AddTaskSpec(ss: seq<Section>, sectionId: string, body: TaskBody, now: nat): (s: DiaryStep)
    ensures body.userId == "" ==> s == DiaryStep(BadRequest, ss)
    ensures body.userId != "" && FindSection(ss, sectionId, body.userId).None? ==> s == DiaryStep(NotFound, ss)
    ensures s.status != Ok ==> s.sections == ss
    ensures s.status == Ok <==>
      body.userId != "" && FindSection(ss, sectionId, body.userId).Some?
      && ValidTaskBody(body)
      && !TaskIdHeldElsewhere(ss, FindSection(ss, sectionId, body.userId).value, NewTaskId(body, now))
    ensures |s.sections| == |ss|
  {
    if body.userId == "" then DiaryStep(BadRequest, ss)
    else match FindSection(ss, sectionId, body.userId)
      case None => DiaryStep(NotFound, ss)
      case Some(i) =>
        if !ValidTaskBody(body) then DiaryStep(ServerError, ss)
        else if TaskIdHeldElsewhere(ss, i, NewTaskId(body, now)) then DiaryStep(ServerError, ss)
        else
          var sec := ss[i];
          DiaryStep(Ok, ss[i := sec.(tasks := sec.tasks + [NewTask(sec, body, now)])])
  }

  /** updateTaskCompletionStatus. */
  function SetCompletionSpec(ss: seq<Section>, sectionId: string, taskId: string, userId: string,
                             completed: bool, now: int): (s: DiaryStep)
    ensures userId == "" ==> s == DiaryStep(BadRequest, ss)
    ensures s.status != Ok ==> s.sections == ss
    ensures s.status == Ok <==>
      userId != "" && FindSection(ss, sectionId, userId).Some?
      && FindTask(ss[FindSection(ss, sectionId, userId).value].tasks, taskId).Some?
    ensures |s.sections| == |ss|
  {
    if userId == "" then DiaryStep(BadRequest, ss)
    else match FindSection(ss, sectionId, userId)
      case None => DiaryStep(NotFound, ss)
      case Some(i) =>
        var sec := ss[i];
        match FindTask(sec.tasks, taskId)
        case None => DiaryStep(NotFound, ss)
        case Some(k) =>
          var t := sec.tasks[k].(completed := completed, completedAt := if completed then Some(now) else None);
          DiaryStep(Ok, ss[i := sec.(tasks := sec.tasks[k := t])])
  }

  /** deleteTaskFromSection: `splice(taskIndex, 1)`. */
  function DeleteTaskSpec(ss: seq<Section>, sectionId: string, taskId: string, userId: string): (s: DiaryStep)
    ensures userId == "" ==> s == DiaryStep(BadRequest, ss)
    ensures s.status != Ok ==> s.sections == ss
    ensures s.status == Ok <==>
      userId != "" && FindSection(ss, sectionId, userId).Some?
      && FindTask(ss[FindSection(ss, sectionId, userId).value].tasks, taskId).Some?
    ensures |s.sections| == |ss|
  {
    if userId == "" then DiaryStep(BadRequest, ss)
    else match FindSection(ss, sectionId, userId)
      case None => DiaryStep(NotFound, ss)
      case Some(i) =>
        var sec := ss[i];
        match FindTask(sec.tasks, taskId)
        case None => DiaryStep(NotFound, ss)
        case Some(k) => DiaryStep(Ok, ss[i := sec.(tasks := sec.tasks[..k] + sec.tasks[k + 1..])])
  }

  /** The task after updateTaskInSection: id, section data and completion state kept; title,
      date and time replaced only by truthy values, `isUrgent` by any defined value. The
      new title is stored trimmed. */
  function EditedTask(t: Task, e: TaskEdit): (u: Task)
    ensures u.id == t.id && u.sectionId == t.sectionId && u.sectionTitle == t.sectionTitle
    ensures u.sectionColor == t.sectionColor && u.completed == t.completed && u.completedAt == t.completedAt
    ensures u.title == if e.title != "" then Trim(e.title) else t.title
    ensures u.date == if e.date != "" then e.date else t.date
    ensures u.time == if e.time != "" then e.time else t.time
    ensures u.isUrgent == if e.isUrgent.Some? then e.isUrgent.value else t.isUrgent
  {
    t.(title := if e.title != "" then Trim(e.title) else t.title,
       date := if e.date != "" then e.date else t.date,
       time := if e.time != "" then e.time else t.time,
       isUrgent := if e.isUrgent.Some? then e.isUrgent.value else t.isUrgent)
  }

  /** updateTaskInSection: the title is required before any lookup; a title that is only
      white space passes that check, is trimmed to "" on assignment and then fails the
      schema validation, which this handler reports as 400. */
  function EditTaskSpec(ss: seq<Section>, sectionId: string, taskId: string, e: TaskEdit): (s: DiaryStep)
    ensures e.userId == "" || e.title == "" ==> s == DiaryStep(BadRequest, ss)
    ensures s.status != Ok ==> s.sections == ss
    ensures s.status == Ok <==>
      e.userId != "" && Trim(e.title) != "" && FindSection(ss, sectionId, e.userId).Some?
      && FindTask(ss[FindSection(ss, sectionId, e.userId).value].tasks, taskId).Some?
    ensures e.userId != "" && e.title != "" && s.status == BadRequest ==>
      Trim(e.title) == "" && FindSection(ss, sectionId, e.userId).Some?
      && FindTask(ss[FindSection(ss, sectionId, e.userId).value].tasks, taskId).Some?
    ensures |s.sections| == |ss|
  {
    if e.userId == "" || e.title == "" then DiaryStep(BadRequest, ss)
    else match FindSection(ss, sectionId, e.userId)
      case None => DiaryStep(NotFound, ss)
      case Some(i) =>
        var sec := ss[i];
        match FindTask(sec.tasks, taskId)
        case None => DiaryStep(NotFound, ss)
        case Some(k) =>
          if Trim(e.title) == "" then DiaryStep(BadRequest, ss)
          else DiaryStep(Ok, ss[i := sec.(tasks := sec.tasks[k := EditedTask(sec.tasks[k], e)])])
  }

  // ---------------------------------------------------------------- properties

  /** Adding a task appends exactly one, open, carrying the section's identity; the other
      tasks and sections are untouched. */
  lemma AddTaskAppendsOne(ss: seq<Section>, sectionId: string, body: TaskBody, now: nat)
    requires AddTaskSpec(ss, sectionId, body, now).status == Ok
    ensures
      var i := FindSection(ss, sectionId, body.userId).value;
      var after := AddTaskSpec(ss, sectionId, body, now).sections;
      var added := after[i].tasks[|ss[i].tasks|];
      && |after[i].tasks| == |ss[i].tasks| + 1
      && after[i].tasks[..|ss[i].tasks|] == ss[i].tasks
      && !added.completed && added.completedAt == None
      && added.sectionId == ss[i].id && added.sectionTitle == ss[i].title && added.sectionColor == ss[i].color
      && (forall j :: 0 <= j < |ss| && j != i ==> after[j] == ss[j])
  {
    var i := FindSection(ss, sectionId, body.userId).value;
    var after := AddTaskSpec(ss, sectionId, body, now).sections;
    assert after[i].tasks == ss[i].tasks + [NewTask(ss[i], body, now)];
  }

  /** A body id already used by a task of another section is refused as a duplicate key,
      and nothing changes. */
  lemma AddTaskRejectsIdHeldElsewhere(ss: seq<Section>, sectionId: string, body: TaskBody, now: nat,
                                      j: nat, k: nat)
    requires body.userId != "" && FindSection(ss, sectionId, body.userId).Some? && ValidTaskBody(body)
    requires j < |ss| && j != FindSection(ss, sectionId, body.userId).value && k < |ss[j].tasks|
    requires body.id == Some(ss[j].tasks[k].id)
    ensures AddTaskSpec(ss, sectionId, body, now) == DiaryStep(ServerError, ss)
  {
    assert TaskIdHeldElsewhere(ss, FindSection(ss, sectionId, body.userId).value, NewTaskId(body, now));
  }

  /** No two sections share a task id: the state the unique `tasks.id` index maintains. */
  predicate TaskIdsUniqueAcrossSections(ss: seq<Section>) {
    forall j1, k1, j2, k2 ::
      (0 <= j1 < |ss| && 0 <= j2 < |ss| && j1 != j2 && 0 <= k1 < |ss[j1].tasks| && 0 <= k2 < |ss[j2].tasks|)
      ==> ss[j1].tasks[k1].id != ss[j2].tasks[k2].id
  }

  /** Adding a task keeps task ids unique across sections. */
  lemma AddTaskKeepsIdsUniqueAcrossSections(ss: seq<Section>, sectionId: string, body: TaskBody, now: nat)
    requires TaskIdsUniqueAcrossSections(ss)
    ensures TaskIdsUniqueAcrossSections(AddTaskSpec(ss, sectionId, body, now).sections)
  {
    var after := AddTaskSpec(ss, sectionId, body, now).sections;
    if after != ss {
      var i := FindSection(ss, sectionId, body.userId).value;
      var id := NewTaskId(body, now);
      assert after[i].tasks == ss[i].tasks + [NewTask(ss[i], body, now)];
      forall j1, k1, j2, k2 | 0 <= j1 < |after| && 0 <= j2 < |after| && j1 != j2 && 0 <= k1 < |after[j1].tasks|
        && 0 <= k2 < |after[j2].tasks|
        ensures after[j1].tasks[k1].id != after[j2].tasks[k2].id
      {
        if j1 == i && k1 == |ss[i].tasks| {
          assert after[j2] == ss[j2];
          assert !(ss[j2].tasks[k2].id == id);
        } else if j2 == i && k2 == |ss[i].tasks| {
          assert after[j1] == ss[j1];
          assert !(ss[j1].tasks[k1].id == id);
        } else {
          assert after[j1].tasks[k1] == ss[j1].tasks[k1];
          assert after[j2].tasks[k2] == ss[j2].tasks[k2];
        }
      }
    }
  }

  /** A client-sent `id` replaces the generated task id, because the body is spread after it. */
  lemma BodyIdOverridesGeneratedId(ss: seq<Section>, sectionId: string, body: TaskBody, now: nat)
    requires AddTaskSpec(ss, sectionId, body, now).status == Ok && body.id.Some?
    ensures
      var i := FindSection(ss, sectionId, body.userId).value;
      AddTaskSpec(ss, sectionId, body, now).sections[i].tasks[|ss[i].tasks|].id == body.id.value
  {
    var i := FindSection(ss, sectionId, body.userId).value;
    assert AddTaskSpec(ss, sectionId, body, now).sections[i].tasks == ss[i].tasks + [NewTask(ss[i], body, now)];
  }

  /** Completion sets the flag and stamps the time exactly when the task is completed;
      every other task keeps its state. */
  lemma CompletionStampsTime(ss: seq<Section>, sectionId: string, taskId: string, userId: string,
                             completed: bool, now: int)
    requires SetCompletionSpec(ss, sectionId, taskId, userId, completed, now).status == Ok
    ensures
      var i := FindSection(ss, sectionId, userId).value;
      var k := FindTask(ss[i].tasks, taskId).value;
      var after := SetCompletionSpec(ss, sectionId, taskId, userId, completed, now).sections[i].tasks;
      && |after| == |ss[i].tasks|
      && after[k].completed == completed
      && (after[k].completedAt.Some? <==> completed)
      && (completed ==> after[k].completedAt == Some(now))
      && after[k].title == ss[i].tasks[k].title
      && (forall j :: 0 <= j < |after| && j != k ==> after[j] == ss[i].tasks[j])
  {
  }

  /** Deleting removes exactly the first task with the id and keeps the others in order. */
  lemma DeleteRemovesFirstMatch(ss: seq<Section>, sectionId: string, taskId: string, userId: string)
    requires DeleteTaskSpec(ss, sectionId, taskId, userId).status == Ok
    ensures
      var i := FindSection(ss, sectionId, userId).value;
      var k := FindTask(ss[i].tasks, taskId).value;
      var before := ss[i].tasks;
      var after := DeleteTaskSpec(ss, sectionId, taskId, userId).sections[i].tasks;
      && |after| == |before| - 1
      && (forall j :: 0 <= j < k ==> after[j] == before[j])
      && (forall j :: k <= j < |after| ==> after[j] == before[j + 1])
      && multiset(after) + multiset{before[k]} == multiset(before)
  {
    var i := FindSection(ss, sectionId, userId).value;
    var k := FindTask(ss[i].tasks, taskId).value;
    var before := ss[i].tasks;
    assert before == before[..k] + [before[k]] + before[k + 1..];
  }

  /** At most one task of the list carries the id. */
  predicate UniqueTaskId(ts: seq<Task>, taskId: string) {
    forall a, b :: 0 <= a < b < |ts| && ts[a].id == taskId ==> ts[b].id != taskId
  }

  /** When the id is unique in its section, a deleted task is gone: deleting it again is
      a 404. */
  lemma DeleteThenFindSkipsRemoved(ss: seq<Section>, sectionId: string, taskId: string, userId: string)
    requires DeleteTaskSpec(ss, sectionId, taskId, userId).status == Ok
    requires UniqueTaskId(ss[FindSection(ss, sectionId, userId).value].tasks, taskId)
    ensures DeleteTaskSpec(DeleteTaskSpec(ss, sectionId, taskId, userId).sections, sectionId, taskId, userId).status == NotFound
  {
    var i := FindSection(ss, sectionId, userId).value;
    var after := DeleteTaskSpec(ss, sectionId, taskId, userId).sections;
    assert after[i].id == ss[i].id && after[i].userId == ss[i].userId;
    assert forall j :: 0 <= j < |after| && j != i ==> after[j] == ss[j];
    assert FindSection(after, sectionId, userId) == Some(i);
    var ts := ss[i].tasks;
    var k := FindTask(ts, taskId).value;
    forall j | 0 <= j < |ts| && j != k
      ensures ts[j].id != taskId
    {
      if j < k {
        assert ts[j].id != taskId;
      } else {
        assert ts[k].id == taskId;
      }
    }
    RemovedTaskIsGone(ts, k, taskId);
  }

  lemma RemovedTaskIsGone(ts: seq<Task>, k: nat, taskId: string)
    requires k < |ts| && forall j :: 0 <= j < |ts| && j != k ==> ts[j].id != taskId
    ensures FindTask(ts[..k] + ts[k + 1..], taskId).None?
  {
    var rest := ts[..k] + ts[k + 1..];
    forall j | 0 <= j < |rest|
      ensures rest[j].id != taskId
    {
      if j < k {
        assert rest[j] == ts[j];
      } else {
        assert rest[j] == ts[j + 1];
      }
    }
  }

  /** Editing never changes a task's identity, its section or its completion state. */
  lemma EditKeepsIdentity(ss: seq<Section>, sectionId: string, taskId: string, e: TaskEdit)
    requires EditTaskSpec(ss, sectionId, taskId, e).status == Ok
    ensures
      var i := FindSection(ss, sectionId, e.userId).value;
      var k := FindTask(ss[i].tasks, taskId).value;
      var t := ss[i].tasks[k];
      var u := EditTaskSpec(ss, sectionId, taskId, e).sections[i].tasks[k];
      && u.id == t.id && u.sectionId == t.sectionId && u.completed == t.completed
      && u.completedAt == t.completedAt && u.title == Trim(e.title)
  {
  }

  /** A falsy isUrgent of false still overwrites; an empty date or time does not. */
  lemma EditFallbacks(t: Task, e: TaskEdit)
    requires e.date == "" && e.time == "" && e.isUrgent == Some(false)
    ensures EditedTask(t, e).date == t.date && EditedTask(t, e).time == t.time && !EditedTask(t, e).isUrgent
  {
  }

  // ---------------------------------------------------------------- the store

  class DiaryStore {
    var sections: seq<Section>

    constructor()
      ensures sections == []
    {
      sections := [];
    }

    method CreateSection(userId: string, title: string, letter: string, color: string, now: nat) returns (status: int)
      modifies this
      ensures DiaryStep(status, sections) == CreateSectionSpec(old(sections), userId, title, letter, color, now)
    {
      if userId == "" {
        return BadRequest;
      }
      var id := SectionId(now);
      var trimmedTitle, trimmedLetter, trimmedColor := Trim(title), Trim(letter), Trim(color);
      if trimmedTitle == "" || trimmedLetter == "" || |trimmedLetter| > 1 || trimmedColor == "" {
        return BadRequest;
      }
      if exists j :: 0 <= j < |sections| && sections[j].id == id {
        return ServerError;
      }
      sections := sections + [Section(id, userId, trimmedTitle, trimmedLetter, trimmedColor, [])];
      status := Created;
    }

    method AddTaskToSection(sectionId: string, body: TaskBody, now: nat) returns (status: int)
      modifies this
      ensures DiaryStep(status, sections) == AddTaskSpec(old(sections), sectionId, body, now)
    {
      if body.userId == "" {
        return BadRequest;
      }
      var found := FindSection(sections, sectionId, body.userId);
      if found.None? {
        return NotFound;
      }
      var i := found.value;
      var section := sections[i];
      if !ValidTaskBody(body) {
        return ServerError;
      }
      if TaskIdHeldElsewhere(sections, i, NewTaskId(body, now)) {
        return ServerError;
      }
      var newTask := NewTask(section, body, now);
      section := section.(tasks := section.tasks + [newTask]);
      sections := sections[i := section];
      status := Ok;
    }

    method UpdateTaskCompletionStatus(sectionId: string, taskId: string, userId: string, completed: bool, now: int)
      returns (status: int)
      modifies this
      ensures DiaryStep(status, sections) == SetCompletionSpec(old(sections), sectionId, taskId, userId, completed, now)
    {
      if userId == "" {
        return BadRequest;
      }
      var found := FindSection(sections, sectionId, userId);
      if found.None? {
        return NotFound;
      }
      var i := found.value;
      var section := sections[i];
      var taskIndex := FindTask(section.tasks, taskId);
      if taskIndex.None? {
        return NotFound;
      }
      var k := taskIndex.value;
      var task := section.tasks[k].(completed := completed);
      if completed {
        task := task.(completedAt := Some(now));
      } else {
        task := task.(completedAt := None);
      }
      sections := sections[i := section.(tasks := section.tasks[k := task])];
      status := Ok;
    }

    method DeleteTaskFromSection(sectionId: string, taskId: string, userId: string) returns (status: int)
      modifies this
      ensures DiaryStep(status, sections) == DeleteTaskSpec(old(sections), sectionId, taskId, userId)
    {
      if userId == "" {
        return BadRequest;
      }
      var found := FindSection(sections, sectionId, userId);
      if found.None? {
        return NotFound;
      }
      var i := found.value;
      var section := sections[i];
      var taskIndex := FindTask(section.tasks, taskId);
      if taskIndex.None? {
        return NotFound;
      }
      var k := taskIndex.value;
      sections := sections[i := section.(tasks := section.tasks[..k] + section.tasks[k + 1..])];
      status := Ok;
    }

    method UpdateTaskInSection(sectionId: string, taskId: string, e: TaskEdit) returns (status: int)
      modifies this
      ensures DiaryStep(status, sections) == EditTaskSpec(old(sections), sectionId, taskId, e)
    {
      if e.userId == "" || e.title == "" {
        return BadRequest;
      }
      var found := FindSection(sections, sectionId, e.userId);
      if found.None? {
        return NotFound;
      }
      var i := found.value;
      var section := sections[i];
      var taskIndex := FindTask(section.tasks, taskId);
      if taskIndex.None? {
        return NotFound;
      }
      var k := taskIndex.value;
      if Trim(e.title) == "" {
        return BadRequest;
      }
      var existingTask := section.tasks[k];
      var updatedTask := EditedTask(existingTask, e);
      sections := sections[i := section.(tasks := section.tasks[k := updatedTask])];
      status := Ok;
    }
  }
}
