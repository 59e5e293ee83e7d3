/**
 * The shared records of the dashboard: tasks, task sections, the priority and
 * category tables, the create-task form data, per-account sync status and
 * blocked-sender entries. Timestamps are milliseconds since the epoch;
 * `Date | null` and optional fields are `Option`s.
 */
module Types {
  import opened Wrappers
  import Text

  datatype Priority = Low | Medium | High | Urgent

  datatype Category = Windsor | Customer | Vendor | Shipper | Unassigned

  datatype TaskSource = Gmail | Manual

  function PriorityName(p: Priority): string {
    match p
    case Low => "low"
    case Medium => "medium"
    case High => "high"
    case Urgent => "urgent"
  }

  function CategoryName(c: Category): string {
    match c
    case Windsor => "WINDSOR"
    case Customer => "CUSTOMER"
    case Vendor => "VENDOR"
    case Shipper => "SHIPPER"
    case Unassigned => "UNASSIGNED"
  }

  datatype Task = Task(
    id: string,
    title: string,
    description: string,
    priority: Priority,
    labelName: string,  // `label` in the source (a Dafny keyword)
    category: Category,
    notes: Option<string>,
    completed: bool,
    createdAt: int,
    updatedAt: int,
    source: TaskSource,
    gmailId: Option<string>,
    fromEmail: Option<string>,
    emailSubject: Option<string>,
    emailSnippet: Option<string>,
    accountEmail: Option<string>,
    lastStatusChange: Option<int>,
    snoozeUntil: Option<int>)

  datatype TaskSection = TaskSection(id: string, title: string, labelName: string, tasks: seq<Task>)

  datatype PriorityInfo = PriorityInfo(level: Priority, color: string, order: int)

  /** The priority table, most pressing first. */
  const PRIORITIES: seq<PriorityInfo> := [
    PriorityInfo(Urgent, "#f44336", 4),
    PriorityInfo(High, "#ff9800", 3),
    PriorityInfo(Medium, "#2196f3", 2),
    PriorityInfo(Low, "#4caf50", 1)
  ]

  const CATEGORIES: seq<Category> := [Windsor, Customer, Vendor, Shipper, Unassigned]

  /** The rank the section sort gives each priority (`{ urgent: 4, high: 3, medium: 2, low: 1 }`). */
  function PriorityOrder(p: Priority): int {
    match p
    case Urgent => 4
    case High => 3
    case Medium => 2
    case Low => 1
  }

  /**
   * Every priority is listed exactly once, the orders run 4, 3, 2, 1 and strictly
   * decrease down the table, and each agrees with the rank the section sort uses.
   */
  lemma PrioritiesTable()
    ensures |PRIORITIES| == 4
    ensures (set i | 0 <= i < |PRIORITIES| :: PRIORITIES[i].level) == {Urgent, High, Medium, Low}
    ensures forall i, j :: 0 <= i < j < |PRIORITIES| ==> PRIORITIES[i].level != PRIORITIES[j].level
    ensures forall i, j :: 0 <= i < j < |PRIORITIES| ==> PRIORITIES[i].order > PRIORITIES[j].order
    ensures forall i :: 0 <= i < |PRIORITIES| ==> PRIORITIES[i].order == PriorityOrder(PRIORITIES[i].level)
  {
    var levels := set i | 0 <= i < |PRIORITIES| :: PRIORITIES[i].level;
    assert PRIORITIES[0].level in levels && PRIORITIES[1].level in levels;
    assert PRIORITIES[2].level in levels && PRIORITIES[3].level in levels;
  }

  /** The category table holds the five categories, each once. */
  lemma CategoriesTable()
    ensures |CATEGORIES| == 5
    ensures forall c: Category :: c in CATEGORIES
    ensures forall i, j :: 0 <= i < j < |CATEGORIES| ==> CATEGORIES[i] != CATEGORIES[j]
  {
    forall c: Category ensures c in CATEGORIES {
      match c
      case Windsor => assert CATEGORIES[0] == c;
      case Customer => assert CATEGORIES[1] == c;
      case Vendor => assert CATEGORIES[2] == c;
      case Shipper => assert CATEGORIES[3] == c;
      case Unassigned => assert CATEGORIES[4] == c;
    }
  }

  datatype CreateTaskDialogData = CreateTaskDialogData(
    title: string,
    description: string,
    priority: Priority,
    labelName: string,  // `label` in the source (a Dafny keyword)
    category: Category,
    notes: string)

  datatype SyncStatus = SyncStatus(
    lastSyncTime: Option<int>,
    lastEmailTime: Option<int>,
    syncInProgress: bool,
    totalTasksImported: int,
    selectedLabels: seq<string>)

  datatype BlockedEmail = BlockedEmail(
    id: string,
    emailAddress: string,
    reason: Option<string>,
    blockedAt: int,
    blockedBy: string)

  /** JavaScript truthiness of an optional string: present and non-empty. */
  predicate Truthy(s: Option<string>) {
    s.Some? && s.value != ""
  }

  /** `x || fallback` for an optional string: the fallback replaces an absent or empty value. */
  function OrDefault(x: Option<string>, fallback: string): (r: string)
    ensures Truthy(x) ==> r == x.value
    ensures !Truthy(x) ==> r == fallback
  {
    if Truthy(x) then x.value else fallback
  }

  /**
   * The id the document store gives the `n`-th document added to a collection:
   * distinct numbers give distinct ids, and the number is recoverable.
   */
  function DocId(n: nat): (r: string)
    ensures Text.IsDigits(r) && Text.ParseNat(r) == n
  {
    Text.ParseNatRoundTrip(n);
    Text.NatToString(n)
  }
}
