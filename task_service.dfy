/**
 * The task collection: documents keyed by id, the defaults filled in when a
 * document is read back as a task, the two ways tasks are created, the update
 * rule, its wrappers and deletion. The clock is the parameter `now`.
 */
module Tasks {
  import opened Wrappers
  import opened Seqs
  import opened Types
  import Text
  import Gmail
  import TaskAge

  /** A stored task document: every field may be missing. */
  datatype TaskDoc = TaskDoc(
    title: Option<string>,
    description: Option<string>,
    priority: Option<Priority>,
    labelName: Option<string>,
    category: Option<Category>,
    notes: Option<string>,
    completed: Option<bool>,
    createdAt: Option<int>,
    updatedAt: Option<int>,
    source: Option<TaskSource>,
    gmailId: Option<string>,
    fromEmail: Option<string>,
    emailSubject: Option<string>,
    emailSnippet: Option<string>,
    accountEmail: Option<string>,
    lastStatusChange: Option<int>,
    snoozeUntil: Option<int>)

  /** A partial task with nothing in it; updates are built from it. */
  const NoUpdates := TaskDoc(None, None, None, None, None, None, None, None, None, None, None, None, None, None, None, None, None)

  /**
   * `createTaskFromData`: a document read back as a task. Missing fields get
   * their defaults (an empty label reads as "INBOX"), missing times read as
   * `now`, and the status-change time is always defined: the stored one, else
   * the creation time.
   */
  function CreateTaskFromData(id: string, data: TaskDoc, now: int): (r: Task)
    ensures r.id == id
    ensures r.title == OrDefault(data.title, "") && r.description == OrDefault(data.description, "")
    ensures r.labelName != "" && (Truthy(data.labelName) ==> r.labelName == data.labelName.value)
    ensures !Truthy(data.labelName) ==> r.labelName == "INBOX"
    ensures r.priority == (if data.priority.Some? then data.priority.value else Medium)
    ensures r.category == (if data.category.Some? then data.category.value else Unassigned)
    ensures r.completed <==> data.completed == Some(true)
    ensures r.createdAt == (if data.createdAt.Some? then data.createdAt.value else now)
    ensures r.lastStatusChange.Some?
    ensures data.lastStatusChange.Some? ==> r.lastStatusChange == data.lastStatusChange
    ensures data.lastStatusChange.None? ==> r.lastStatusChange == Some(r.createdAt)
    ensures r.source == (if data.source.Some? then data.source.value else Manual)
    ensures r.updatedAt == (if data.updatedAt.Some? then data.updatedAt.value else now)
    ensures r.notes == data.notes && r.fromEmail == data.fromEmail
    ensures r.emailSubject == data.emailSubject && r.emailSnippet == data.emailSnippet
    ensures r.gmailId == data.gmailId && r.accountEmail == data.accountEmail && r.snoozeUntil == data.snoozeUntil
  {
    Task(
      id,
      OrDefault(data.title, ""),
      OrDefault(data.description, ""),
      data.priority.GetOr(Medium),
      OrDefault(data.labelName, "INBOX"),
      data.category.GetOr(Unassigned),
      data.notes,
      data.completed.GetOr(false),
      data.createdAt.GetOr(now),
      data.updatedAt.GetOr(now),
      data.source.GetOr(Manual),
      data.gmailId,
      data.fromEmail,
      data.emailSubject,
      data.emailSnippet,
      data.accountEmail,
      Some(if data.lastStatusChange.Some? then data.lastStatusChange.value
           else data.createdAt.GetOr(now)),
      data.snoozeUntil)
  }

  /** The age of a task read back is measured from its stored status change, else its creation, else now. */
  lemma ReadTaskAnchor(id: string, data: TaskDoc, now: int)
    ensures TaskAge.StatusAnchor(CreateTaskFromData(id, data, now))
            == (if data.lastStatusChange.Some? then data.lastStatusChange.value
                else if data.createdAt.Some? then data.createdAt.value else now)
  {
  }

  /** The document `createTask` writes: the form's fields, not completed, created and updated now, manual. */
  function ManualTaskDoc(data: CreateTaskDialogData, now: int): TaskDoc {
    NoUpdates.(title := Some(data.title), description := Some(data.description),
               priority := Some(data.priority), labelName := Some(data.labelName),
               category := Some(data.category), notes := Some(data.notes),
               completed := Some(false), createdAt := Some(now), updatedAt := Some(now),
               source := Some(Manual))
  }

  /** The document `createTaskFromEmail` writes. */
  function EmailTaskDoc(e: Gmail.EmailTaskData, category: Option<Category>, now: int): TaskDoc {
    NoUpdates.(title := Some(e.title), description := Some(e.description),
               priority := Some(e.priority), labelName := Some(e.labelName),
               category := Some(category.GetOr(Unassigned)),
               completed := Some(false), createdAt := Some(now), updatedAt := Some(now),
               source := Some(Gmail), gmailId := Some(e.gmailId), fromEmail := Some(e.fromEmail),
               emailSubject := Some(e.emailSubject), emailSnippet := Some(e.emailSnippet),
               accountEmail := e.accountEmail)
  }

  /**
   * A task made by `createTask` reads back as an open manual task whose
   * creation, update and status-change times are all the creation instant; no
   * status change was stored.
   */
  lemma ManualTaskReadsBack(id: string, data: CreateTaskDialogData, now: int, later: int)
    ensures var d := ManualTaskDoc(data, now);
            var t := CreateTaskFromData(id, d, later);
            && d.lastStatusChange.None? && d.createdAt == d.updatedAt
            && !t.completed && t.source == Manual
            && t.createdAt == now && t.updatedAt == now && t.lastStatusChange == Some(now)
            && t.title == data.title && t.priority == data.priority && t.category == data.category
            && t.labelName == (if data.labelName == "" then "INBOX" else data.labelName)
  {
  }

  /**
   * A task made by `createTaskFromEmail` reads back as an open mail task with
   * the message's id, sender, subject, snippet and account unchanged, and the
   * category given or UNASSIGNED.
   */
  lemma EmailTaskReadsBack(id: string, e: Gmail.EmailTaskData, category: Option<Category>, now: int, later: int)
    ensures var t := CreateTaskFromData(id, EmailTaskDoc(e, category, now), later);
            && !t.completed && t.source == Gmail
            && t.gmailId == Some(e.gmailId) && t.fromEmail == Some(e.fromEmail)
            && t.emailSubject == Some(e.emailSubject) && t.emailSnippet == Some(e.emailSnippet)
            && t.accountEmail == e.accountEmail
            && t.category == (if category.Some? then category.value else Unassigned)
            && t.createdAt == now && t.lastStatusChange == Some(now)
  {
  }

  /** A field of `updates` that is given replaces the stored one. */
  function Override<T>(given: Option<T>, stored: Option<T>): Option<T> {
    if given.Some? then given else stored
  }

  /** The document after `updateTask`: `updates` merged, `updatedAt` stamped, and `lastStatusChange` when the label is given. */
  function ApplyUpdate(doc: TaskDoc, updates: TaskDoc, now: int): TaskDoc {
    TaskDoc(
      Override(updates.title, doc.title),
      Override(updates.description, doc.description),
      Override(updates.priority, doc.priority),
      Override(updates.labelName, doc.labelName),
      Override(updates.category, doc.category),
      Override(updates.notes, doc.notes),
      Override(updates.completed, doc.completed),
      Override(updates.createdAt, doc.createdAt),
      Some(now),
      Override(updates.source, doc.source),
      Override(updates.gmailId, doc.gmailId),
      Override(updates.fromEmail, doc.fromEmail),
      Override(updates.emailSubject, doc.emailSubject),
      Override(updates.emailSnippet, doc.emailSnippet),
      Override(updates.accountEmail, doc.accountEmail),
      if Truthy(updates.labelName) then Some(now) else Override(updates.lastStatusChange, doc.lastStatusChange),
      Override(updates.snoozeUntil, doc.snoozeUntil))
  }

  /** Every field `updates` leaves out, other than the two stamps, keeps its stored value. */
  predicate KeepsUnmentioned(doc: TaskDoc, updates: TaskDoc, r: TaskDoc) {
    && (updates.title.None? ==> r.title == doc.title)
    && (updates.description.None? ==> r.description == doc.description)
    && (updates.priority.None? ==> r.priority == doc.priority)
    && (updates.labelName.None? ==> r.labelName == doc.labelName)
    && (updates.category.None? ==> r.category == doc.category)
    && (updates.notes.None? ==> r.notes == doc.notes)
    && (updates.completed.None? ==> r.completed == doc.completed)
    && (updates.createdAt.None? ==> r.createdAt == doc.createdAt)
    && (updates.source.None? ==> r.source == doc.source)
    && (updates.gmailId.None? ==> r.gmailId == doc.gmailId)
    && (updates.fromEmail.None? ==> r.fromEmail == doc.fromEmail)
    && (updates.emailSubject.None? ==> r.emailSubject == doc.emailSubject)
    && (updates.emailSnippet.None? ==> r.emailSnippet == doc.emailSnippet)
    && (updates.accountEmail.None? ==> r.accountEmail == doc.accountEmail)
    && (updates.snoozeUntil.None? ==> r.snoozeUntil == doc.snoozeUntil)
  }

  /**
   * `updatedAt` is always stamped; `lastStatusChange` is stamped exactly when the
   * update carries a non-empty label (otherwise it is kept, or taken from the
   * update); given fields win and the rest are untouched.
   */
  lemma ApplyUpdateRule(doc: TaskDoc, updates: TaskDoc, now: int)
    ensures var r := ApplyUpdate(doc, updates, now);
            && r.updatedAt == Some(now)
            && (Truthy(updates.labelName) ==> r.lastStatusChange == Some(now))
            && (!Truthy(updates.labelName) && updates.lastStatusChange.None? ==> r.lastStatusChange == doc.lastStatusChange)
            && (updates.title.Some? ==> r.title == updates.title)
            && (updates.labelName.Some? ==> r.labelName == updates.labelName)
            && (updates.completed.Some? ==> r.completed == updates.completed)
            && KeepsUnmentioned(doc, updates, r)
  {
  }

  function CompletionUpdate(completed: bool): TaskDoc { NoUpdates.(completed := Some(completed)) }
  function PriorityUpdate(priority: Priority): TaskDoc { NoUpdates.(priority := Some(priority)) }
  function LabelUpdate(newLabel: string): TaskDoc { NoUpdates.(labelName := Some(newLabel)) }
  function CreationDateUpdate(now: int): TaskDoc { NoUpdates.(createdAt := Some(now)) }

  /** Toggling completion and changing priority never touch the status-change time. */
  lemma WrappersKeepStatusChange(doc: TaskDoc, completed: bool, priority: Priority, now: int)
    ensures ApplyUpdate(doc, CompletionUpdate(completed), now) == doc.(completed := Some(completed), updatedAt := Some(now))
    ensures ApplyUpdate(doc, PriorityUpdate(priority), now) == doc.(priority := Some(priority), updatedAt := Some(now))
  {
  }

  /** Moving a task to a non-empty label restarts its status clock; an empty label does not. */
  lemma LabelUpdateStamps(doc: TaskDoc, newLabel: string, now: int)
    ensures newLabel != "" ==>
              ApplyUpdate(doc, LabelUpdate(newLabel), now)
              == doc.(labelName := Some(newLabel), updatedAt := Some(now), lastStatusChange := Some(now))
    ensures newLabel == "" ==>
              ApplyUpdate(doc, LabelUpdate(newLabel), now) == doc.(labelName := Some(""), updatedAt := Some(now))
  {
  }

  /**
   * Resetting the creation date restarts the age shown for a task only when no
   * status change is stored; otherwise the age still runs from that change.
   */
  lemma ResetCreationDateAge(id: string, doc: TaskDoc, now: int, later: int)
    ensures var t := CreateTaskFromData(id, ApplyUpdate(doc, CreationDateUpdate(now), now), later);
            && t.createdAt == now
            && (doc.lastStatusChange.None? ==> TaskAge.StatusAnchor(t) == now)
            && (doc.lastStatusChange.Some? ==> TaskAge.StatusAnchor(t) == doc.lastStatusChange.value)
  {
  }

  /** The order of the `createdAt desc` query. */
  const NewestCreatedFirst: (Task, Task) -> bool := (a: Task, b: Task) => a.createdAt >= b.createdAt

  lemma NewestCreatedFirstIsPreorder()
    ensures TotalPreorder(NewestCreatedFirst)
  {
  }

  /** The task collection. */
  class TaskService {
    var docs: map<string, TaskDoc>
    /** The number of documents added so far; the next document's id is `DocId(nextId)`. */
    var nextId: nat

    /** Every id was handed out before, and every document has a creation time. */
    predicate Valid()
      reads this
    {
      forall id | id in docs :: Text.IsDigits(id) && Text.ParseNat(id) < nextId && docs[id].createdAt.Some?
    }

    constructor()
      ensures docs == map[] && nextId == 0 && Valid()
    {
      docs := map[];
      nextId := 0;
    }

    /** `createTask`: a new document under a fresh id. */
    method CreateTask(taskData: CreateTaskDialogData, now: int) returns (id: string)
      requires Valid()
      modifies this
      ensures Valid() && nextId == old(nextId) + 1
      ensures id !in old(docs)
      ensures docs == old(docs)[id := ManualTaskDoc(taskData, now)]
    {
      id := DocId(nextId);
      docs := docs[id := ManualTaskDoc(taskData, now)];
      nextId := nextId + 1;
    }

    /**
     * `createTaskFromEmail`: a new mail-sourced document under a fresh id. A
     * document with an undefined account is refused by the store, which under
     * its default settings rejects `undefined` field values; the write then
     * fails and nothing changes.
     */
    method CreateTaskFromEmail(emailData: Gmail.EmailTaskData, category: Option<Category>, now: int) returns (r: Option<string>)
      requires Valid()
      modifies this
      ensures Valid()
      ensures r.Some? <==> emailData.accountEmail.Some?
      ensures r.None? ==> docs == old(docs) && nextId == old(nextId)
      ensures r.Some? ==> nextId == old(nextId) + 1 && r.value == DocId(old(nextId)) && r.value !in old(docs)
      ensures r.Some? ==> docs == old(docs)[r.value := EmailTaskDoc(emailData, category, now)]
    {
      if emailData.accountEmail.None? {
        return None;
      }
      var id := DocId(nextId);
      docs := docs[id := EmailTaskDoc(emailData, category, now)];
      nextId := nextId + 1;
      r := Some(id);
    }

    /** `updateTask`: fails, changing nothing, when there is no such document. */
    method UpdateTask(taskId: string, updates: TaskDoc, now: int) returns (ok: bool)
      modifies this
      ensures ok <==> taskId in old(docs)
      ensures ok ==> docs == old(docs)[taskId := ApplyUpdate(old(docs)[taskId], updates, now)]
      ensures !ok ==> docs == old(docs)
      ensures nextId == old(nextId)
      ensures old(Valid()) ==> Valid()
    {
      if taskId !in docs {
        return false;
      }
      var updateData := ApplyUpdate(docs[taskId], updates, now);
      docs := docs[taskId := updateData];
      return true;
    }

    method ToggleTaskCompletion(taskId: string, completed: bool, now: int) returns (ok: bool)
      modifies this
      ensures ok <==> taskId in old(docs)
      ensures ok ==> docs == old(docs)[taskId := old(docs)[taskId].(completed := Some(completed), updatedAt := Some(now))]
      ensures !ok ==> docs == old(docs)
      ensures nextId == old(nextId)
      ensures old(Valid()) ==> Valid()
    {
      ok := UpdateTask(taskId, CompletionUpdate(completed), now);
    }

    method UpdateTaskPriority(taskId: string, priority: Priority, now: int) returns (ok: bool)
      modifies this
      ensures ok <==> taskId in old(docs)
      ensures ok ==> docs == old(docs)[taskId := old(docs)[taskId].(priority := Some(priority), updatedAt := Some(now))]
      ensures !ok ==> docs == old(docs)
      ensures nextId == old(nextId)
      ensures old(Valid()) ==> Valid()
    {
      ok := UpdateTask(taskId, PriorityUpdate(priority), now);
    }

    method UpdateTaskLabel(taskId: string, newLabel: string, now: int) returns (ok: bool)
      modifies this
      ensures ok <==> taskId in old(docs)
      ensures ok ==> docs == old(docs)[taskId := ApplyUpdate(old(docs)[taskId], LabelUpdate(newLabel), now)]
      ensures ok && newLabel != "" ==> docs[taskId].lastStatusChange == Some(now)
      ensures !ok ==> docs == old(docs)
      ensures nextId == old(nextId)
      ensures old(Valid()) ==> Valid()
    {
      ok := UpdateTask(taskId, LabelUpdate(newLabel), now);
    }

    method ResetTaskCreationDate(taskId: string, now: int) returns (ok: bool)
      modifies this
      ensures ok <==> taskId in old(docs)
      ensures ok ==> docs == old(docs)[taskId := old(docs)[taskId].(createdAt := Some(now), updatedAt := Some(now))]
      ensures !ok ==> docs == old(docs)
      ensures nextId == old(nextId)
      ensures old(Valid()) ==> Valid()
    {
      ok := UpdateTask(taskId, CreationDateUpdate(now), now);
    }

    /** `deleteTask`: exactly that id goes; deleting a missing id changes nothing. */
    method DeleteTask(taskId: string)
      modifies this
      ensures docs == old(docs) - {taskId}
      ensures nextId == old(nextId)
      ensures old(Valid()) ==> Valid()
    {
      docs := docs - {taskId};
    }

    /** The task a document reads back as. */
    function Read(id: string, now: int): Task
      requires id in docs
      reads this
    {
      CreateTaskFromData(id, docs[id], now)
    }

    /**
     * `getAllTasks`: every document read back as a task, exactly once, newest
     * creation first.
     */
    method GetAllTasks(now: int) returns (tasks: seq<Task>)
      ensures |tasks| == |docs|
      ensures forall id :: id in docs ==> Read(id, now) in tasks
      ensures forall t :: t in tasks ==> t.id in docs && t == Read(t.id, now)
      ensures SortedBy(tasks, NewestCreatedFirst)
    {
      var snapshot: seq<Task> := [];
      var remaining := docs.Keys;
      while remaining != {}
        invariant remaining <= docs.Keys
        invariant |snapshot| + |remaining| == |docs|
        invariant forall id :: id in docs && id !in remaining ==> Read(id, now) in snapshot
        invariant forall t :: t in snapshot ==> t.id in docs && t.id !in remaining && t == Read(t.id, now)
        decreases |remaining|
      {
        var id :| id in remaining;
        snapshot := snapshot + [Read(id, now)];
        remaining := remaining - {id};
      }
      tasks := SortBy(snapshot, NewestCreatedFirst);
      NewestCreatedFirstIsPreorder();
      SortSorted(snapshot, NewestCreatedFirst);
      SortPermutes(snapshot, NewestCreatedFirst);
      forall id | id in docs ensures Read(id, now) in tasks {
        assert Read(id, now) in multiset(snapshot);
      }
      forall t | t in tasks ensures t.id in docs && t == Read(t.id, now) {
        assert t in multiset(snapshot);
      }
    }
  }
}
