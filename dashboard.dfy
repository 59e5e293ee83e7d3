/**
 * The dashboard's logic: the Gmail sync run (`handleSyncGmail`), which picks
 * the messages to import, skips those already imported, creates a task for
 * each of the others and updates the sync records; and `organizeTasks`, which
 * groups the open tasks into ordered sections. The mail provider, the active
 * account, the clock and the messages whose processing throws are inputs.
 */
module Dashboard {
  import opened Wrappers
  import opened Seqs
  import opened Types
  import Text
  import Gmail
  import Sync
  import Tasks
  import Sections

  // ---------------------------------------------------------------- label choice

  /** `selectedLabels.find(labelId => messageLabels.includes(labelId))`. */
  function FindLabel(selectedLabels: seq<string>, messageLabels: seq<string>): Option<string> {
    if selectedLabels == [] then None
    else if selectedLabels[0] in messageLabels then Some(selectedLabels[0])
    else FindLabel(selectedLabels[1..], messageLabels)
  }

  /** The search finds the first selected label, in selection order, that the message carries. */
  lemma {:induction false} FindLabelIsFirst(selectedLabels: seq<string>, messageLabels: seq<string>)
    ensures FindLabel(selectedLabels, messageLabels).None? <==>
              forall k :: 0 <= k < |selectedLabels| ==> selectedLabels[k] !in messageLabels
    ensures FindLabel(selectedLabels, messageLabels).Some? ==>
              exists k :: && 0 <= k < |selectedLabels| && selectedLabels[k] in messageLabels
                          && FindLabel(selectedLabels, messageLabels).value == selectedLabels[k]
                          && forall j :: 0 <= j < k ==> selectedLabels[j] !in messageLabels
  {
    if selectedLabels != [] && selectedLabels[0] !in messageLabels {
      var rest := selectedLabels[1..];
      FindLabelIsFirst(rest, messageLabels);
      assert forall k :: 0 <= k < |rest| ==> rest[k] == selectedLabels[k + 1];
      if FindLabel(rest, messageLabels).Some? {
        var k :| && 0 <= k < |rest| && rest[k] in messageLabels
                 && FindLabel(rest, messageLabels).value == rest[k]
                 && forall j :: 0 <= j < k ==> rest[j] !in messageLabels;
        assert forall j :: 1 <= j < k + 1 ==> selectedLabels[j] == rest[j - 1];
        assert selectedLabels[k + 1] == rest[k];
      }
    } else if selectedLabels != [] {
      assert selectedLabels[0] in messageLabels;
    }
  }

  /** `matchingLabel || 'Gmail'`: the label a message's task gets. */
  function MessageLabel(selectedLabels: seq<string>, messageLabels: seq<string>): (r: string)
    ensures r != ""
    ensures FindLabel(selectedLabels, messageLabels).None? ==> r == "Gmail"
    ensures FindLabel(selectedLabels, messageLabels).Some? && FindLabel(selectedLabels, messageLabels).value != "" ==>
              r == FindLabel(selectedLabels, messageLabels).value
    ensures FindLabel(selectedLabels, messageLabels) == Some("") ==> r == "Gmail"
  {
    OrDefault(FindLabel(selectedLabels, messageLabels), "Gmail")
  }

  // ---------------------------------------------------------------- candidate messages

  /** The per-label listing size of the first sync. */
  const BootstrapPerLabel: nat := 20
  /** How many messages the first sync keeps at most. */
  const BootstrapLimit: nat := 50
  /** The per-label listing size of an incremental sync. */
  const IncrementalLimit: nat := 500

  /**
   * `customSyncDate || syncStatus.lastEmailTime`: the custom date when given
   * (a `Date` is always truthy), else the global record's newest email time.
   * The account's own record is not consulted.
   */
  function Watermark(customSyncDate: Option<int>, global: SyncStatus): (r: Option<int>)
    ensures customSyncDate.Some? ==> r == customSyncDate
    ensures customSyncDate.None? ==> r == global.lastEmailTime
  {
    if customSyncDate.Some? then customSyncDate else global.lastEmailTime
  }

  /** The per-label listing size the run uses. */
  function ListingSize(watermark: Option<int>): nat {
    if watermark.Some? then IncrementalLimit else BootstrapPerLabel
  }

  /**
   * The first sync: up to 20 messages per label, merged, one per id (the first
   * seen), newest first, the first 50 kept. A failed listing is `None`.
   */
  function Bootstrap(fetch: Gmail.FetchRequest -> Gmail.FetchResult, labels: seq<string>): Option<seq<Gmail.GmailMessage>> {
    match Gmail.Collect(fetch, labels, BootstrapPerLabel, None)
    case None => None
    case Some(all) => Some(Take(SortBy(DedupBy(all, Gmail.MessageId), Gmail.NewestFirst), BootstrapLimit))
  }

  /** The messages a run goes through: incremental when there is a watermark, the first sync otherwise. */
  function Candidates(fetch: Gmail.FetchRequest -> Gmail.FetchResult, labels: seq<string>, watermark: Option<int>): Option<seq<Gmail.GmailMessage>> {
    if watermark.Some? then Gmail.NewMessagesSince(fetch, labels, watermark.value, IncrementalLimit)
    else Bootstrap(fetch, labels)
  }

  /**
   * Either way the candidates are newest first with one message per id, all
   * taken from what the provider listed, and the run fails exactly when one of
   * the listings fails. An incremental run holds nothing older than the
   * watermark, and drops no listed id: the first message seen with each id is
   * kept. A first sync keeps the 50 newest of the deduplicated listing, or all
   * of them when there are fewer: no message it leaves out is newer than one
   * it keeps.
   */
  lemma CandidatesShape(fetch: Gmail.FetchRequest -> Gmail.FetchResult, labels: seq<string>, watermark: Option<int>)
    ensures var c := Candidates(fetch, labels, watermark);
            var listed := Gmail.Collect(fetch, labels, ListingSize(watermark), watermark);
            && (c.None? <==> listed.None?)
            && (c.Some? ==>
                  && SortedBy(c.value, Gmail.NewestFirst)
                  && UniqueKeys(c.value, Gmail.MessageId)
                  && multiset(c.value) <= multiset(listed.value))
            && (c.Some? && watermark.Some? ==>
                  && (forall m :: m in c.value ==> m.internalDate >= watermark.value)
                  && (forall i :: 0 <= i < |listed.value| && FirstWithKey(listed.value, Gmail.MessageId, i) ==> listed.value[i] in c.value)
                  && (forall i :: 0 <= i < |listed.value| ==> !KeyAbsent(c.value, Gmail.MessageId, listed.value[i].id)))
            && (c.Some? && watermark.None? ==>
                  var d := DedupBy(listed.value, Gmail.MessageId);
                  && |c.value| <= BootstrapLimit
                  && |c.value| == (if |d| < BootstrapLimit then |d| else BootstrapLimit)
                  && (forall m, x :: m in d && m !in c.value && x in c.value ==> x.internalDate >= m.internalDate))
  {
    if watermark.Some? {
      IncrementalCandidates(fetch, labels, watermark.value);
    } else {
      BootstrapCandidates(fetch, labels);
    }
  }

  /** `CandidatesShape` for an incremental run. */
  lemma IncrementalCandidates(fetch: Gmail.FetchRequest -> Gmail.FetchResult, labels: seq<string>, watermark: int)
    ensures var c := Gmail.NewMessagesSince(fetch, labels, watermark, IncrementalLimit);
            var listed := Gmail.Collect(fetch, labels, IncrementalLimit, Some(watermark));
            && (c.None? <==> listed.None?)
            && (c.Some? ==>
                  && SortedBy(c.value, Gmail.NewestFirst)
                  && UniqueKeys(c.value, Gmail.MessageId)
                  && multiset(c.value) <= multiset(listed.value)
                  && (forall m :: m in c.value ==> m.internalDate >= watermark)
                  && (forall i :: 0 <= i < |listed.value| && FirstWithKey(listed.value, Gmail.MessageId, i) ==> listed.value[i] in c.value)
                  && (forall i :: 0 <= i < |listed.value| ==> !KeyAbsent(c.value, Gmail.MessageId, listed.value[i].id)))
  {
    var listed := Gmail.Collect(fetch, labels, IncrementalLimit, Some(watermark));
    if listed.Some? {
      var all := listed.value;
      var c := SortBy(DedupBy(all, Gmail.MessageId), Gmail.NewestFirst);
      Gmail.UniqueNewestFirst(all);
      Gmail.CollectedNotOlder(fetch, labels, IncrementalLimit, watermark);
      forall m | m in c ensures m.internalDate >= watermark {
        assert m in multiset(all);
      }
    }
  }

  /** `CandidatesShape` for a first sync. */
  lemma BootstrapCandidates(fetch: Gmail.FetchRequest -> Gmail.FetchResult, labels: seq<string>)
    ensures var c := Bootstrap(fetch, labels);
            var listed := Gmail.Collect(fetch, labels, BootstrapPerLabel, None);
            && (c.None? <==> listed.None?)
            && (c.Some? ==>
                  var d := DedupBy(listed.value, Gmail.MessageId);
                  && SortedBy(c.value, Gmail.NewestFirst)
                  && UniqueKeys(c.value, Gmail.MessageId)
                  && multiset(c.value) <= multiset(listed.value)
                  && |c.value| <= BootstrapLimit
                  && |c.value| == (if |d| < BootstrapLimit then |d| else BootstrapLimit)
                  && (forall m, x :: m in d && m !in c.value && x in c.value ==> x.internalDate >= m.internalDate))
  {
    var listed := Gmail.Collect(fetch, labels, BootstrapPerLabel, None);
    if listed.Some? {
      var all := listed.value;
      var d := DedupBy(all, Gmail.MessageId);
      var sorted := SortBy(d, Gmail.NewestFirst);
      var c := Take(sorted, BootstrapLimit);
      Gmail.UniqueNewestFirst(all);
      TakeKeeps(sorted, BootstrapLimit, Gmail.NewestFirst, Gmail.MessageId);
      TakeSortedRest(sorted, BootstrapLimit, Gmail.NewestFirst);
      SortPermutes(d, Gmail.NewestFirst);
      forall m, x | m in d && m !in c && x in c ensures x.internalDate >= m.internalDate {
        assert m in multiset(d);
        assert Gmail.NewestFirst(x, m);
      }
    }
  }

  // ---------------------------------------------------------------- the message loop

  /** The loop's counters: the messages made into tasks, the skipped ones, and the newest imported time. */
  datatype Tally = Tally(imported: seq<Gmail.GmailMessage>, skippedExisting: nat, latestEmailTime: Option<int>)

  /** `tasks.find(t => t.gmailId === message.id)` finds a task in the snapshot taken before the run. */
  predicate AlreadyImported(snapshot: seq<Task>, m: Gmail.GmailMessage) {
    exists i | 0 <= i < |snapshot| :: snapshot[i].gmailId == Some(m.id)
  }

  /** `if (!latestEmailTime || emailTime > latestEmailTime) latestEmailTime = emailTime`. */
  function Later(latest: Option<int>, t: int): (r: Option<int>)
    ensures r.Some? && r.value >= t && (latest.Some? ==> r.value >= latest.value)
    ensures r == Some(t) || r == latest
  {
    if latest.None? || t > latest.value then Some(t) else latest
  }

  /**
   * One turn of the loop: a message already in the snapshot is counted as
   * skipped; one whose conversion or task write throws leaves no trace; any
   * other becomes a task and may advance the newest time.
   */
  function ImportStep(tally: Tally, snapshot: seq<Task>, failing: set<string>, m: Gmail.GmailMessage): Tally {
    if AlreadyImported(snapshot, m) then tally.(skippedExisting := tally.skippedExisting + 1)
    else if m.id in failing then tally
    else Tally(tally.imported + [m], tally.skippedExisting, Later(tally.latestEmailTime, m.internalDate))
  }

  /** The loop over `messages`, in order, starting from the global record's newest email time. */
  function ImportAll(messages: seq<Gmail.GmailMessage>, snapshot: seq<Task>, failing: set<string>, start: Option<int>): Tally {
    if messages == [] then Tally([], 0, start)
    else ImportStep(ImportAll(messages[..|messages| - 1], snapshot, failing, start), snapshot, failing, messages[|messages| - 1])
  }

  /** The loop after `i + 1` turns is one more turn after `i` turns. */
  lemma ImportAllNext(messages: seq<Gmail.GmailMessage>, i: nat, snapshot: seq<Task>, failing: set<string>, start: Option<int>)
    requires i < |messages|
    ensures ImportAll(messages[..i + 1], snapshot, failing, start) == ImportStep(ImportAll(messages[..i], snapshot, failing, start), snapshot, failing, messages[i])
  {
    assert messages[..i + 1][..i] == messages[..i];
  }

  function Importable(snapshot: seq<Task>, failing: set<string>): Gmail.GmailMessage -> bool {
    (m: Gmail.GmailMessage) => !AlreadyImported(snapshot, m) && m.id !in failing
  }

  function Existing(snapshot: seq<Task>): Gmail.GmailMessage -> bool {
    (m: Gmail.GmailMessage) => AlreadyImported(snapshot, m)
  }

  /**
   * A message whose task would carry no account: no active account is known
   * and no token of its To header holds an `@`. The task store refuses the
   * document, so its write throws.
   */
  predicate Unattributed(activeEmail: Option<string>, m: Gmail.GmailMessage) {
    Gmail.GuessAccountEmail(activeEmail, Gmail.ParseHeaders(m.payload.headers).to).None?
  }

  /** The ids of the candidates whose task write is refused for want of an account. */
  function Refused(messages: seq<Gmail.GmailMessage>, activeEmail: Option<string>): set<string> {
    set m | m in messages && Unattributed(activeEmail, m) :: m.id
  }

  /**
   * The imported messages are exactly the candidates neither in the snapshot nor
   * failing, in candidate order; the skipped count is the number already in the
   * snapshot; the two together never exceed the candidates.
   */
  lemma {:induction false} ImportAllCounts(messages: seq<Gmail.GmailMessage>, snapshot: seq<Task>, failing: set<string>, start: Option<int>)
    ensures var t := ImportAll(messages, snapshot, failing, start);
            && t.imported == Filter(messages, Importable(snapshot, failing))
            && t.skippedExisting == |Filter(messages, Existing(snapshot))|
            && |t.imported| + t.skippedExisting <= |messages|
  {
    if messages != [] {
      var init, m := messages[..|messages| - 1], messages[|messages| - 1];
      ImportAllCounts(init, snapshot, failing, start);
      assert messages == init + [m];
      FilterSnoc(init, m, Importable(snapshot, failing));
      FilterSnoc(init, m, Existing(snapshot));
    }
  }

  /**
   * The newest time after the loop is the maximum of the starting time and the
   * times of the imported messages: it never falls below the start, and skipped
   * or failing messages do not move it.
   */
  lemma {:induction false} LatestIsMax(messages: seq<Gmail.GmailMessage>, snapshot: seq<Task>, failing: set<string>, start: Option<int>)
    ensures var t := ImportAll(messages, snapshot, failing, start);
            && (t.latestEmailTime.None? <==> start.None? && t.imported == [])
            && (t.latestEmailTime.Some? ==>
                  && (start.Some? ==> start.value <= t.latestEmailTime.value)
                  && (forall m :: m in t.imported ==> m.internalDate <= t.latestEmailTime.value)
                  && (t.latestEmailTime == start || exists m :: m in t.imported && m.internalDate == t.latestEmailTime.value))
  {
    if messages != [] {
      var init := messages[..|messages| - 1];
      LatestIsMax(init, snapshot, failing, start);
    }
  }

  /** What `LatestIsMax` says of a newest time `l`, a starting time and the imported messages. */
  ghost predicate IsLatest(l: Option<int>, start: Option<int>, imported: seq<Gmail.GmailMessage>) {
    && (l.None? <==> start.None? && imported == [])
    && (l.Some? ==>
          && (start.Some? ==> start.value <= l.value)
          && (forall m :: m in imported ==> m.internalDate <= l.value)
          && (l == start || exists m :: m in imported && m.internalDate == l.value))
  }

  /** The newest time is fixed by the start and the set of imported messages. */
  lemma LatestUnique(l1: Option<int>, l2: Option<int>, start: Option<int>, a: seq<Gmail.GmailMessage>, b: seq<Gmail.GmailMessage>)
    requires IsLatest(l1, start, a) && IsLatest(l2, start, b)
    requires (a == [] <==> b == []) && forall m :: m in a <==> m in b
    ensures l1 == l2
  {
    if l1.Some? && l2.Some? {
      if l1 != start {
        var m :| m in a && m.internalDate == l1.value;
        assert m in b;
      }
      if l2 != start {
        var m :| m in b && m.internalDate == l2.value;
        assert m in a;
      }
    }
  }

  /** Two sequences with one multiset have the same members and are empty together. */
  lemma SameMembers<T>(a: seq<T>, b: seq<T>)
    requires multiset(a) == multiset(b)
    ensures (a == [] <==> b == []) && forall m :: m in a <==> m in b
  {
    assert |a| == |multiset(a)| && |b| == |multiset(b)|;
    forall m ensures m in a <==> m in b {
      assert m in a <==> m in multiset(a);
      assert m in b <==> m in multiset(b);
    }
  }

  /**
   * The loop's outcome does not depend on the order of the candidates: any
   * reordering imports the same messages, skips as many, and ends at the same
   * newest time.
   */
  lemma OrderIndependent(s: seq<Gmail.GmailMessage>, t: seq<Gmail.GmailMessage>, snapshot: seq<Task>, failing: set<string>, start: Option<int>)
    requires multiset(s) == multiset(t)
    ensures var a := ImportAll(s, snapshot, failing, start);
            var b := ImportAll(t, snapshot, failing, start);
            && multiset(a.imported) == multiset(b.imported)
            && a.skippedExisting == b.skippedExisting
            && a.latestEmailTime == b.latestEmailTime
  {
    var a := ImportAll(s, snapshot, failing, start);
    var b := ImportAll(t, snapshot, failing, start);
    ImportAllCounts(s, snapshot, failing, start);
    ImportAllCounts(t, snapshot, failing, start);
    FilterReorder(s, t, Importable(snapshot, failing));
    FilterReorder(s, t, Existing(snapshot));
    assert |multiset(Filter(s, Existing(snapshot)))| == |multiset(Filter(t, Existing(snapshot)))|;
    LatestIsMax(s, snapshot, failing, start);
    LatestIsMax(t, snapshot, failing, start);
    assert IsLatest(a.latestEmailTime, start, a.imported);
    assert IsLatest(b.latestEmailTime, start, b.imported);
    SameMembers(a.imported, b.imported);
    LatestUnique(a.latestEmailTime, b.latestEmailTime, start, a.imported, b.imported);
  }

  /**
   * One run makes at most one task per message id: the candidates have unique
   * ids, so the imported ones do, and none of them matches a task of the snapshot.
   */
  lemma OneTaskPerMessage(messages: seq<Gmail.GmailMessage>, snapshot: seq<Task>, failing: set<string>, start: Option<int>)
    requires UniqueKeys(messages, Gmail.MessageId)
    ensures var t := ImportAll(messages, snapshot, failing, start);
            && UniqueKeys(t.imported, Gmail.MessageId)
            && forall m :: m in t.imported ==>
                 && m in messages && m.id !in failing
                 && forall i :: 0 <= i < |snapshot| ==> snapshot[i].gmailId != Some(m.id)
  {
    ImportAllCounts(messages, snapshot, failing, start);
    FilterUnique(messages, Importable(snapshot, failing), Gmail.MessageId);
    FilterMembers(messages, Importable(snapshot, failing));
    var t := ImportAll(messages, snapshot, failing, start);
    forall m | m in t.imported ensures m in messages {
      assert m in multiset(messages);
    }
  }

  // ---------------------------------------------------------------- the run's report

  datatype SyncReport = ImportedNew(count: nat) | AlreadyImportedAll(count: nat) | UpToDate

  /** The message chosen at the end of a run that did not throw. */
  function Report(imported: nat, skippedExisting: nat): (r: SyncReport)
    ensures r.ImportedNew? <==> imported > 0
    ensures r.ImportedNew? ==> r.count == imported
    ensures r.AlreadyImportedAll? <==> imported == 0 && skippedExisting > 0
    ensures r.AlreadyImportedAll? ==> r.count == skippedExisting
    ensures r.UpToDate? <==> imported == 0 && skippedExisting == 0
  {
    if imported > 0 then ImportedNew(imported)
    else if skippedExisting > 0 then AlreadyImportedAll(skippedExisting)
    else UpToDate
  }

  datatype Severity = Success | Info | Warning | Error

  datatype Snackbar = Snackbar(message: string, severity: Severity)

  function Plural(n: nat): string {
    if n > 1 then "s" else ""
  }

  function ReportSnackbar(r: SyncReport): Snackbar {
    match r
    case ImportedNew(n) =>
      Snackbar("\U{2705} Imported " + Text.NatToString(n) + " new task" + Plural(n) + " from Gmail", Success)
    case AlreadyImportedAll(n) =>
      Snackbar("\U{2705} Found " + Text.NatToString(n) + " email" + Plural(n) + " but they were already imported", Info)
    case UpToDate =>
      Snackbar("\U{2705} No new emails to import - you're up to date!", Info)
  }

  const SyncFailedSnackbar := Snackbar("\U{274C} Error syncing Gmail - please try again", Error)

  /** One imported task is named in the singular, whatever was skipped. */
  lemma ReportTextOne()
    ensures ReportSnackbar(Report(1, 7)) == Snackbar("\U{2705} Imported 1 new task from Gmail", Success)
  {
    assert Report(1, 7) == ImportedNew(1);
    assert Text.NatToString(1) == "1" && Plural(1) == "";
    assert "\U{2705} Imported " + "1" == "\U{2705} Imported 1";
    assert "\U{2705} Imported 1" + " new task" + "" == "\U{2705} Imported 1 new task";
    assert "\U{2705} Imported 1 new task" + " from Gmail" == "\U{2705} Imported 1 new task from Gmail";
  }

  /** Several imported tasks are named in the plural, with the count in decimal. */
  lemma ReportTextMany()
    ensures ReportSnackbar(Report(12, 0)) == Snackbar("\U{2705} Imported 12 new tasks from Gmail", Success)
  {
    assert Report(12, 0) == ImportedNew(12);
    assert Text.NatToString(12) == "12" && Plural(12) == "s";
    assert "\U{2705} Imported " + "12" == "\U{2705} Imported 12";
    assert "\U{2705} Imported 12" + " new task" + "s" == "\U{2705} Imported 12 new tasks";
    assert "\U{2705} Imported 12 new tasks" + " from Gmail" == "\U{2705} Imported 12 new tasks from Gmail";
  }

  /** Only skipped messages: the already-imported text, for information. */
  lemma ReportTextFound()
    ensures ReportSnackbar(Report(0, 2)) == Snackbar("\U{2705} Found 2 emails but they were already imported", Info)
  {
    assert Report(0, 2) == AlreadyImportedAll(2);
    assert Text.NatToString(2) == "2" && Plural(2) == "s";
    assert "\U{2705} Found " + "2" + " email" + "s" == "\U{2705} Found 2 emails";
    FoundTwoText();
  }

  lemma FoundTwoText()
    ensures "\U{2705} Found 2 emails" + " but they were already imported" == "\U{2705} Found 2 emails but they were already imported"
  {
  }

  /** Nothing imported or skipped: the up-to-date text, for information. */
  lemma ReportTextUpToDate()
    ensures ReportSnackbar(Report(0, 0)) == Snackbar("\U{2705} No new emails to import - you're up to date!", Info)
  {
    assert Report(0, 0) == UpToDate;
  }

  // ---------------------------------------------------------------- the sync records

  /** The account record as marked at the start of a run. */
  function StartedAccount(s: SyncStatus, now: int): (r: SyncStatus)
    ensures r.syncInProgress && r.lastSyncTime == Some(now)
    ensures r.lastEmailTime == s.lastEmailTime && r.totalTasksImported == s.totalTasksImported
    ensures r.selectedLabels == s.selectedLabels
  {
    s.(syncInProgress := true, lastSyncTime := Some(now))
  }

  /**
   * The account record at the end of a run that did not throw: no longer in
   * progress and stamped in both branches; the newest time and the import total
   * only move when there is a newest time.
   */
  function FinishedAccount(s: SyncStatus, latest: Option<int>, imported: nat, now: int): (r: SyncStatus)
    ensures !r.syncInProgress && r.lastSyncTime == Some(now) && r.selectedLabels == s.selectedLabels
    ensures latest.Some? ==> r.lastEmailTime == latest && r.totalTasksImported == s.totalTasksImported + imported
    ensures latest.None? ==> r.lastEmailTime == s.lastEmailTime && r.totalTasksImported == s.totalTasksImported
  {
    var s' := if latest.Some? then s.(lastEmailTime := latest, totalTasksImported := s.totalTasksImported + imported) else s;
    s'.(syncInProgress := false, lastSyncTime := Some(now))
  }

  /**
   * The global record at the end of a run that did not throw: `recordImport`
   * whenever there is a newest time, even with nothing imported; otherwise only
   * the progress flag is cleared.
   */
  function FinishedGlobal(s: SyncStatus, latest: Option<int>, imported: nat, now: int): (r: SyncStatus)
    ensures !r.syncInProgress && r.lastSyncTime == s.lastSyncTime && r.selectedLabels == s.selectedLabels
    ensures latest.Some? ==> r == Sync.WithImport(s, latest.value, imported)
    ensures latest.None? ==> r == Sync.WithProgress(s, false, now)
  {
    if latest.Some? then Sync.WithImport(s, latest.value, imported) else Sync.WithProgress(s, false, now)
  }

  /** The store with the active account's record written, when there is an active account. */
  function WithAccount(store: map<string, Sync.Stored>, activeEmail: Option<string>, status: SyncStatus): map<string, Sync.Stored> {
    if Truthy(activeEmail) then store[Sync.AccountKey(activeEmail.value) := Sync.Saved(status)] else store
  }

  /** A later write of the global record or of the account record replaces the earlier one. */
  lemma Rewrite(store: map<string, Sync.Stored>, activeEmail: Option<string>, a: SyncStatus, b: SyncStatus, g: Sync.Stored)
    ensures WithAccount(store, activeEmail, a)[Sync.SyncStatusKey := g] == WithAccount(store[Sync.SyncStatusKey := g], activeEmail, a)
    ensures WithAccount(WithAccount(store, activeEmail, a), activeEmail, b) == WithAccount(store, activeEmail, b)
  {
    if Truthy(activeEmail) {
      Sync.AccountKeysDistinct(activeEmail.value, activeEmail.value);
    }
  }

  // ---------------------------------------------------------------- the tasks written

  /** The document the run writes for an imported message: its converted payload, default category. */
  function EmailDoc(m: Gmail.GmailMessage, selectedLabels: seq<string>, activeEmail: Option<string>, now: int): Tasks.TaskDoc {
    Tasks.EmailTaskDoc(Gmail.ConvertMessageToTask(m, MessageLabel(selectedLabels, m.labelIds), activeEmail), None, now)
  }

  /**
   * An imported message's document is an open mail task with the message's id,
   * the chosen label and the default category, created at the run's instant.
   */
  lemma EmailDocFields(m: Gmail.GmailMessage, selectedLabels: seq<string>, activeEmail: Option<string>, now: int)
    ensures var d := EmailDoc(m, selectedLabels, activeEmail, now);
            && d.gmailId == Some(m.id) && d.source == Some(TaskSource.Gmail) && d.completed == Some(false)
            && d.labelName == Some(MessageLabel(selectedLabels, m.labelIds))
            && d.category == Some(Unassigned) && d.createdAt == Some(now) && d.lastStatusChange.None?
  {
  }

  /** The document of each imported message, as a function of the message. */
  function DocFor(selectedLabels: seq<string>, activeEmail: Option<string>, now: int): Gmail.GmailMessage -> Tasks.TaskDoc {
    (m: Gmail.GmailMessage) => EmailDoc(m, selectedLabels, activeEmail, now)
  }

  /** The collection after the documents `ds` are added one by one under the ids `n`, `n + 1`, .... */
  function AddDocs(docs: map<string, Tasks.TaskDoc>, n: nat, ds: seq<Tasks.TaskDoc>): map<string, Tasks.TaskDoc> {
    if ds == [] then docs
    else AddDocs(docs, n, ds[..|ds| - 1])[DocId(n + |ds| - 1) := ds[|ds| - 1]]
  }

  lemma AddDocsSnoc(docs: map<string, Tasks.TaskDoc>, n: nat, ds: seq<Tasks.TaskDoc>, d: Tasks.TaskDoc)
    ensures AddDocs(docs, n, ds + [d]) == AddDocs(docs, n, ds)[DocId(n + |ds|) := d]
  {
    assert (ds + [d])[..|ds|] == ds;
  }

  /** Importing one more message adds its document under the next id. */
  lemma AddDocSnoc<T>(docs: map<string, Tasks.TaskDoc>, n: nat, imported: seq<T>, m: T, f: T -> Tasks.TaskDoc)
    ensures AddDocs(docs, n, MapSeq(imported + [m], f)) == AddDocs(docs, n, MapSeq(imported, f))[DocId(n + |imported|) := f(m)]
  {
    MapSeqSnoc(imported, m, f);
    AddDocsSnoc(docs, n, MapSeq(imported, f), f(m));
  }

  /** Ids below `n` are taken. */
  ghost predicate IdsBelow(docs: map<string, Tasks.TaskDoc>, n: nat) {
    forall id | id in docs :: Text.IsDigits(id) && Text.ParseNat(id) < n
  }

  /** Adding the documents keeps every earlier one and adds ids from `n` up to `n + |ds|` only. */
  lemma {:induction false} AddDocsContents(docs: map<string, Tasks.TaskDoc>, n: nat, ds: seq<Tasks.TaskDoc>)
    requires IdsBelow(docs, n)
    ensures var r := AddDocs(docs, n, ds);
            && (forall id :: id in docs ==> id in r && r[id] == docs[id])
            && (forall id :: id in r && id !in docs ==> Text.IsDigits(id) && n <= Text.ParseNat(id) < n + |ds|)
  {
    if ds != [] {
      var init := ds[..|ds| - 1];
      AddDocsContents(docs, n, init);
      var newId, r0 := DocId(n + |init|), AddDocs(docs, n, init);
      assert ds == init + [ds[|init|]];
      AddDocsSnoc(docs, n, init, ds[|init|]);
      assert AddDocs(docs, n, ds) == r0[newId := ds[|init|]];
      assert newId !in docs;
    }
  }

  /** The document at index `k` sits under id `n + k`: no later one takes its id. */
  lemma {:induction false} AddDocsAt(docs: map<string, Tasks.TaskDoc>, n: nat, ds: seq<Tasks.TaskDoc>, k: nat)
    requires k < |ds|
    ensures DocId(n + k) in AddDocs(docs, n, ds) && AddDocs(docs, n, ds)[DocId(n + k)] == ds[k]
  {
    var init := ds[..|ds| - 1];
    assert ds == init + [ds[|init|]];
    AddDocsSnoc(docs, n, init, ds[|init|]);
    if k < |init| {
      AddDocsAt(docs, n, init, k);
      assert Text.ParseNat(DocId(n + k)) != Text.ParseNat(DocId(n + |init|));
    }
  }

  // ---------------------------------------------------------------- a whole run

  /** What a run leaves: the sync-state store, the task collection and its id counter, and the message shown. */
  datatype RunOutcome = RunOutcome(store: map<string, Sync.Stored>, docs: map<string, Tasks.TaskDoc>, nextId: nat, snackbar: Snackbar)

  /** The start of a run: the global record marked in progress and stamped, then the account's record likewise. */
  datatype Start = Start(started: SyncStatus, account: SyncStatus, marked: map<string, Sync.Stored>)

  function Begin(store: map<string, Sync.Stored>, activeEmail: Option<string>, now: int): Start {
    var started := Sync.WithProgress(Sync.StatusAt(store, Sync.SyncStatusKey), true, now);
    var account := StartedAccount(Sync.StatusAt(store, Sync.AccountKey(activeEmail.GetOr(""))), now);
    Start(started, account, WithAccount(store[Sync.SyncStatusKey := Sync.Saved(started)], activeEmail, account))
  }

  /**
   * The end of a run whose message loop gave `t`: the imported messages are
   * tasks, the global record and then the account's record are finished, and
   * the report is shown.
   */
  function Finish(s: Start, t: Tally, docs: map<string, Tasks.TaskDoc>, nextId: nat,
                  labels: seq<string>, activeEmail: Option<string>, now: int): RunOutcome
  {
    RunOutcome(
      WithAccount(s.marked[Sync.SyncStatusKey := Sync.Saved(FinishedGlobal(s.started, t.latestEmailTime, |t.imported|, now))],
                  activeEmail, FinishedAccount(s.account, t.latestEmailTime, |t.imported|, now)),
      AddDocs(docs, nextId, MapSeq(t.imported, DocFor(labels, activeEmail, now))),
      nextId + |t.imported|,
      ReportSnackbar(Report(|t.imported|, t.skippedExisting)))
  }

  /** The rest of a run once the candidates are known: a failed listing clears the global flag and shows the failure. */
  function Conclude(s: Start, candidates: Option<seq<Gmail.GmailMessage>>, docs: map<string, Tasks.TaskDoc>, nextId: nat,
                    snapshot: seq<Task>, labels: seq<string>, activeEmail: Option<string>, failing: set<string>, now: int): RunOutcome
  {
    match candidates
    case None =>
      RunOutcome(s.marked[Sync.SyncStatusKey := Sync.Saved(Sync.WithProgress(s.started, false, now))], docs, nextId, SyncFailedSnackbar)
    case Some(messages) =>
      Finish(s, ImportAll(messages, snapshot, failing + Refused(messages, activeEmail), s.started.lastEmailTime),
             docs, nextId, labels, activeEmail, now)
  }

  /**
   * A run over the stores `store` and `docs`, in the order the writes happen:
   * the start, the listing from the watermark of the started global record,
   * then the rest.
   */
  function SyncRun(store: map<string, Sync.Stored>, docs: map<string, Tasks.TaskDoc>, nextId: nat, snapshot: seq<Task>,
                   labels: seq<string>, customSyncDate: Option<int>, activeEmail: Option<string>,
                   fetch: Gmail.FetchRequest -> Gmail.FetchResult, failing: set<string>, now: int): RunOutcome
  {
    var s := Begin(store, activeEmail, now);
    Conclude(s, Candidates(fetch, labels, Watermark(customSyncDate, s.started)), docs, nextId, snapshot, labels, activeEmail, failing, now)
  }

  /**
   * The listing a run makes depends on the stored global record only through
   * its newest email time, which marking the run as started does not change.
   */
  lemma BeginKeepsWatermark(store: map<string, Sync.Stored>, activeEmail: Option<string>, now: int, customSyncDate: Option<int>)
    ensures var s := Begin(store, activeEmail, now);
            && Watermark(customSyncDate, s.started) == Watermark(customSyncDate, Sync.StatusAt(store, Sync.SyncStatusKey))
            && s.started.lastEmailTime == Sync.StatusAt(store, Sync.SyncStatusKey).lastEmailTime
  {
  }

  /**
   * A run whose listing fails writes no task and shows the failure; the global
   * record is stamped with the run's start and no longer in progress, while the
   * active account's record stays marked as in progress.
   */
  lemma RunFailed(store: map<string, Sync.Stored>, docs: map<string, Tasks.TaskDoc>, nextId: nat, snapshot: seq<Task>,
                  labels: seq<string>, customSyncDate: Option<int>, activeEmail: Option<string>,
                  fetch: Gmail.FetchRequest -> Gmail.FetchResult, failing: set<string>, now: int)
    requires Candidates(fetch, labels, Watermark(customSyncDate, Sync.StatusAt(store, Sync.SyncStatusKey))).None?
    ensures var r := SyncRun(store, docs, nextId, snapshot, labels, customSyncDate, activeEmail, fetch, failing, now);
            var g0 := Sync.StatusAt(store, Sync.SyncStatusKey);
            && r.docs == docs && r.nextId == nextId && r.snackbar == SyncFailedSnackbar
            && Sync.StatusAt(r.store, Sync.SyncStatusKey) == g0.(syncInProgress := false, lastSyncTime := Some(now))
            && (Truthy(activeEmail) ==>
                  var key := Sync.AccountKey(activeEmail.value);
                  Sync.StatusAt(r.store, key) == Sync.StatusAt(store, key).(syncInProgress := true, lastSyncTime := Some(now)))
  {
    BeginKeepsWatermark(store, activeEmail, now, customSyncDate);
    if Truthy(activeEmail) {
      Sync.AccountKeysDistinct(activeEmail.value, activeEmail.value);
    }
  }

  /** A run whose listing succeeds is its start, the message loop from the stored newest time, and its end. */
  lemma RunIsFinish(store: map<string, Sync.Stored>, docs: map<string, Tasks.TaskDoc>, nextId: nat, snapshot: seq<Task>,
                    labels: seq<string>, customSyncDate: Option<int>, activeEmail: Option<string>,
                    fetch: Gmail.FetchRequest -> Gmail.FetchResult, failing: set<string>, now: int,
                    messages: seq<Gmail.GmailMessage>)
    requires Candidates(fetch, labels, Watermark(customSyncDate, Sync.StatusAt(store, Sync.SyncStatusKey))) == Some(messages)
    ensures SyncRun(store, docs, nextId, snapshot, labels, customSyncDate, activeEmail, fetch, failing, now)
         == Finish(Begin(store, activeEmail, now),
                   ImportAll(messages, snapshot, failing + Refused(messages, activeEmail), Sync.StatusAt(store, Sync.SyncStatusKey).lastEmailTime),
                   docs, nextId, labels, activeEmail, now)
  {
    BeginKeepsWatermark(store, activeEmail, now, customSyncDate);
  }

  /**
   * A run whose listing succeeds with `messages` adds the documents of the
   * importable candidates, in order, under the next free ids (`AddDocsAt`
   * places each one), keeps every earlier document, advances the counter past
   * them so that every id stays below it, and reports the counts.
   */
  lemma RunImportedDocs(store: map<string, Sync.Stored>, docs: map<string, Tasks.TaskDoc>, nextId: nat, snapshot: seq<Task>,
                        labels: seq<string>, customSyncDate: Option<int>, activeEmail: Option<string>,
                        fetch: Gmail.FetchRequest -> Gmail.FetchResult, failing: set<string>, now: int,
                        messages: seq<Gmail.GmailMessage>)
    requires Candidates(fetch, labels, Watermark(customSyncDate, Sync.StatusAt(store, Sync.SyncStatusKey))) == Some(messages)
    requires IdsBelow(docs, nextId)
    ensures var r := SyncRun(store, docs, nextId, snapshot, labels, customSyncDate, activeEmail, fetch, failing, now);
            var imported := Filter(messages, Importable(snapshot, failing + Refused(messages, activeEmail)));
            && r.nextId == nextId + |imported|
            && r.docs == AddDocs(docs, nextId, MapSeq(imported, DocFor(labels, activeEmail, now)))
            && (forall id :: id in docs ==> id in r.docs && r.docs[id] == docs[id])
            && IdsBelow(r.docs, r.nextId)
            && r.snackbar == ReportSnackbar(Report(|imported|, |Filter(messages, Existing(snapshot))|))
  {
    var start := Sync.StatusAt(store, Sync.SyncStatusKey).lastEmailTime;
    RunIsFinish(store, docs, nextId, snapshot, labels, customSyncDate, activeEmail, fetch, failing, now, messages);
    ImportAllCounts(messages, snapshot, failing + Refused(messages, activeEmail), start);
    var imported := Filter(messages, Importable(snapshot, failing + Refused(messages, activeEmail)));
    AddDocsContents(docs, nextId, MapSeq(imported, DocFor(labels, activeEmail, now)));
  }

  /**
   * A run never makes two tasks for one message, nor a task for a message the
   * snapshot already has: the candidates it imports have distinct ids, none of
   * them failing, none matching a task of the snapshot, and each with an
   * account for its task.
   */
  lemma RunNoDuplicates(store: map<string, Sync.Stored>, labels: seq<string>, customSyncDate: Option<int>, activeEmail: Option<string>,
                        fetch: Gmail.FetchRequest -> Gmail.FetchResult, snapshot: seq<Task>, failing: set<string>,
                        messages: seq<Gmail.GmailMessage>)
    requires Candidates(fetch, labels, Watermark(customSyncDate, Sync.StatusAt(store, Sync.SyncStatusKey))) == Some(messages)
    ensures var imported := Filter(messages, Importable(snapshot, failing + Refused(messages, activeEmail)));
            && UniqueKeys(imported, Gmail.MessageId)
            && forall m :: m in imported ==>
                 && m in messages && m.id !in failing && !Unattributed(activeEmail, m)
                 && forall i :: 0 <= i < |snapshot| ==> snapshot[i].gmailId != Some(m.id)
  {
    var start := Sync.StatusAt(store, Sync.SyncStatusKey).lastEmailTime;
    var throwing := failing + Refused(messages, activeEmail);
    CandidatesShape(fetch, labels, Watermark(customSyncDate, Sync.StatusAt(store, Sync.SyncStatusKey)));
    OneTaskPerMessage(messages, snapshot, throwing, start);
    ImportAllCounts(messages, snapshot, throwing, start);
  }

  /** The end of a run finishes the global record and then the active account's record. */
  lemma FinishRecords(s: Start, t: Tally, docs: map<string, Tasks.TaskDoc>, nextId: nat,
                      labels: seq<string>, activeEmail: Option<string>, now: int)
    ensures var r := Finish(s, t, docs, nextId, labels, activeEmail, now);
            && Sync.StatusAt(r.store, Sync.SyncStatusKey) == FinishedGlobal(s.started, t.latestEmailTime, |t.imported|, now)
            && (Truthy(activeEmail) ==>
                  Sync.StatusAt(r.store, Sync.AccountKey(activeEmail.value)) == FinishedAccount(s.account, t.latestEmailTime, |t.imported|, now))
  {
    if Truthy(activeEmail) {
      Sync.AccountKeysDistinct(activeEmail.value, activeEmail.value);
    }
  }

  /**
   * A run whose listing succeeds leaves the global record stamped with the
   * run's start and no longer in progress, its newest email time the maximum
   * of the old one and the imported messages' times, and its total raised by
   * the number imported; the active account's record is finished the same way.
   */
  lemma RunImportedRecords(store: map<string, Sync.Stored>, docs: map<string, Tasks.TaskDoc>, nextId: nat, snapshot: seq<Task>,
                           labels: seq<string>, customSyncDate: Option<int>, activeEmail: Option<string>,
                           fetch: Gmail.FetchRequest -> Gmail.FetchResult, failing: set<string>, now: int,
                           messages: seq<Gmail.GmailMessage>)
    requires Candidates(fetch, labels, Watermark(customSyncDate, Sync.StatusAt(store, Sync.SyncStatusKey))) == Some(messages)
    ensures var r := SyncRun(store, docs, nextId, snapshot, labels, customSyncDate, activeEmail, fetch, failing, now);
            var imported := Filter(messages, Importable(snapshot, failing + Refused(messages, activeEmail)));
            var g0 := Sync.StatusAt(store, Sync.SyncStatusKey);
            var g := Sync.StatusAt(r.store, Sync.SyncStatusKey);
            && !g.syncInProgress && g.lastSyncTime == Some(now) && g.selectedLabels == g0.selectedLabels
            && IsLatest(g.lastEmailTime, g0.lastEmailTime, imported)
            && g.totalTasksImported == g0.totalTasksImported + |imported|
            && (Truthy(activeEmail) ==>
                  var key := Sync.AccountKey(activeEmail.value);
                  Sync.StatusAt(r.store, key) == FinishedAccount(StartedAccount(Sync.StatusAt(store, key), now), g.lastEmailTime, |imported|, now))
  {
    var start := Sync.StatusAt(store, Sync.SyncStatusKey).lastEmailTime;
    var s := Begin(store, activeEmail, now);
    var throwing := failing + Refused(messages, activeEmail);
    var t := ImportAll(messages, snapshot, throwing, start);
    RunIsFinish(store, docs, nextId, snapshot, labels, customSyncDate, activeEmail, fetch, failing, now, messages);
    ImportAllCounts(messages, snapshot, throwing, start);
    LatestIsMax(messages, snapshot, throwing, start);
    assert IsLatest(t.latestEmailTime, start, t.imported);
    FinishRecords(s, t, docs, nextId, labels, activeEmail, now);
  }

  // ---------------------------------------------------------------- the component

  /**
   * The dashboard component's state that the sync run touches: the task
   * snapshot from the subscription, the dialogs it opens, the busy flag and the
   * snackbar, and the two stores it writes through.
   */
  class Dashboard {
    /** The tasks of the last subscription update. */
    var tasks: seq<Task>
    var taskSections: seq<TaskSection>
    var isGmailConnected: bool
    var gmailSetupOpen: bool
    var gmailSyncOpen: bool
    var syncing: bool
    var snackbar: Option<Snackbar>
    const syncService: Sync.SyncService
    const taskService: Tasks.TaskService

    constructor(syncService: Sync.SyncService, taskService: Tasks.TaskService, isGmailConnected: bool, tasks: seq<Task>)
      ensures this.syncService == syncService && this.taskService == taskService
      ensures this.isGmailConnected == isGmailConnected && this.tasks == tasks
      ensures taskSections == [] && !gmailSetupOpen && !gmailSyncOpen && !syncing && snackbar.None?
    {
      this.syncService := syncService;
      this.taskService := taskService;
      this.isGmailConnected := isGmailConnected;
      this.tasks := tasks;
      taskSections := [];
      gmailSetupOpen := false;
      gmailSyncOpen := false;
      syncing := false;
      snackbar := None;
    }

    /**
     * `organizeTasks(taskList)`: the active tasks grouped by label into
     * sections, the missing default sections added, and the sections put in
     * the board's order.
     */
    method OrganizeTasks(taskList: seq<Task>)
      modifies this`taskSections
      ensures taskSections == Sections.Organize(taskList)
    {
      var activeTasks := Filter(taskList, Sections.Active);
      var labelGroups, keys := Sections.GroupByLabel(activeTasks);
      var sections := seq(|keys|, k requires 0 <= k < |keys| => Sections.MakeSection(keys[k], labelGroups[keys[k]]));
      assert sections == Sections.SectionsOf(activeTasks);
      sections := Sections.AddDefaultSections(sections);
      taskSections := SortBy(sections, Sections.SectionFirst);
    }

    /** The task subscription's callback, and the initial load: the new snapshot and its sections. */
    method TasksUpdated(updatedTasks: seq<Task>)
      modifies this`tasks, this`taskSections
      ensures tasks == updatedTasks && taskSections == Sections.Organize(updatedTasks)
    {
      tasks := updatedTasks;
      OrganizeTasks(updatedTasks);
    }

    /**
     * `handleSyncGmail(selectedLabels, customSyncDate)`. Without a connection it
     * opens the setup dialog, without labels the sync dialog; otherwise it runs
     * a sync over the current task snapshot. `activeEmail` is what the provider
     * reports as the active account, `fetch` answers the label listings and
     * `failing` holds the ids of the messages whose conversion or task write
     * throws for any reason other than a missing account, which `Refused` adds.
     */
    method HandleSyncGmail(selectedLabels: Option<seq<string>>, customSyncDate: Option<int>, activeEmail: Option<string>,
                           fetch: Gmail.FetchRequest -> Gmail.FetchResult, failing: set<string>, now: int)
      requires taskService.Valid()
      modifies this`gmailSetupOpen, this`gmailSyncOpen, this`syncing, this`snackbar, syncService, taskService
      ensures taskService.Valid()
      ensures !isGmailConnected ==>
                && gmailSetupOpen && syncing == old(syncing) && snackbar == old(snackbar)
                && syncService.store == old(syncService.store) && taskService.docs == old(taskService.docs)
      ensures isGmailConnected && selectedLabels.None? ==>
                && gmailSyncOpen && syncing == old(syncing) && snackbar == old(snackbar)
                && syncService.store == old(syncService.store) && taskService.docs == old(taskService.docs)
      ensures isGmailConnected && selectedLabels.Some? ==>
                && !syncing
                && Outcome() == SyncRun(old(syncService.store), old(taskService.docs), old(taskService.nextId), tasks,
                                        selectedLabels.value, customSyncDate, activeEmail, fetch, failing, now)
    {
      if !isGmailConnected {
        gmailSetupOpen := true;
        return;
      }
      if selectedLabels.None? {
        gmailSyncOpen := true;
        return;
      }
      RunSync(selectedLabels.value, customSyncDate, activeEmail, fetch, failing, now);
    }

    /** What a run leaves behind: the two stores and the message shown. */
    function Outcome(): RunOutcome
      reads this, syncService, taskService
    {
      RunOutcome(syncService.store, taskService.docs, taskService.nextId, snackbar.GetOr(SyncFailedSnackbar))
    }

    /**
     * The run itself: busy while it lasts, and it leaves the stores and the
     * message `SyncRun` describes.
     */
    method RunSync(labels: seq<string>, customSyncDate: Option<int>, activeEmail: Option<string>,
                   fetch: Gmail.FetchRequest -> Gmail.FetchResult, failing: set<string>, now: int)
      requires taskService.Valid()
      modifies this`syncing, this`snackbar, syncService, taskService
      ensures taskService.Valid() && !syncing && snackbar.Some?
      ensures Outcome() == SyncRun(old(syncService.store), old(taskService.docs), old(taskService.nextId), tasks,
                                   labels, customSyncDate, activeEmail, fetch, failing, now)
    {
      syncing := true;
      var s := StartSync(activeEmail, now);
      var newMessages := FetchCandidates(fetch, labels, Watermark(customSyncDate, s.started));
      ConcludeSync(s, newMessages, labels, activeEmail, failing, now);
      syncing := false;
    }

    /**
     * The start of a run: the global record marked in progress and stamped, then
     * the active account's record likewise.
     */
    method StartSync(activeEmail: Option<string>, now: int) returns (s: Start)
      modifies syncService
      ensures s == Begin(old(syncService.store), activeEmail, now) && syncService.store == s.marked
      ensures syncService.GetSyncStatus() == s.started
    {
      syncService.UpdateSyncProgress(true, now);
      var started := syncService.GetSyncStatus();
      var account := StartedAccount(syncService.GetAccountSyncStatus(activeEmail.GetOr("")), now);
      if Truthy(activeEmail) {
        syncService.SaveAccountSyncStatus(activeEmail.value, account);
      }
      s := Start(started, account, syncService.store);
    }

    /** Everything after the listing: the `catch` when it failed, the message loop and the final writes otherwise. */
    method ConcludeSync(s: Start, candidates: Option<seq<Gmail.GmailMessage>>, labels: seq<string>, activeEmail: Option<string>,
                        failing: set<string>, now: int)
      requires taskService.Valid() && syncService.store == s.marked && syncService.GetSyncStatus() == s.started
      modifies this`snackbar, syncService, taskService
      ensures taskService.Valid() && snackbar.Some?
      ensures Outcome() == Conclude(s, candidates, old(taskService.docs), old(taskService.nextId), tasks, labels, activeEmail, failing, now)
    {
      if candidates.None? {
        snackbar := Some(SyncFailedSnackbar);
        syncService.UpdateSyncProgress(false, now);
        return;
      }
      var t := ImportMessages(candidates.value, labels, activeEmail, tasks, failing + Refused(candidates.value, activeEmail),
                              s.started.lastEmailTime, now);
      FinishSync(s, t, activeEmail, now);
      snackbar := Some(ReportSnackbar(Report(|t.imported|, t.skippedExisting)));
    }

    /** The candidate listing: `getNewMessagesSince` with a watermark, the per-label first-sync loop without. */
    method FetchCandidates(fetch: Gmail.FetchRequest -> Gmail.FetchResult, labels: seq<string>, watermark: Option<int>)
      returns (r: Option<seq<Gmail.GmailMessage>>)
      ensures r == Candidates(fetch, labels, watermark)
    {
      if watermark.Some? {
        r := Gmail.GetNewMessagesSince(fetch, labels, watermark.value, IncrementalLimit);
        return;
      }
      var allMessages: seq<Gmail.GmailMessage> := [];
      for i := 0 to |labels|
        invariant Gmail.Collect(fetch, labels[..i], BootstrapPerLabel, None) == Some(allMessages)
      {
        assert labels[..i + 1][..i] == labels[..i];
        var messages := Gmail.GetMessagesByLabel(fetch, labels[i], BootstrapPerLabel, None);
        if messages.FetchFailed? {
          Gmail.CollectAbortsOnFailure(fetch, labels, i, BootstrapPerLabel, None);
          return None;
        }
        allMessages := allMessages + messages.messages;
      }
      assert labels[..|labels|] == labels;
      r := Some(Take(SortBy(DedupBy(allMessages, Gmail.MessageId), Gmail.NewestFirst), BootstrapLimit));
    }

    /** The message loop over the task snapshot `snapshot`: skip what it has, convert and write the rest, count, track the newest time. */
    method ImportMessages(messages: seq<Gmail.GmailMessage>, selectedLabels: seq<string>, activeEmail: Option<string>,
                          snapshot: seq<Task>, failing: set<string>, start: Option<int>, now: int) returns (t: Tally)
      requires taskService.Valid()
      requires forall m :: m in messages && Unattributed(activeEmail, m) ==> m.id in failing
      modifies taskService
      ensures taskService.Valid()
      ensures t == ImportAll(messages, snapshot, failing, start)
      ensures taskService.docs == AddDocs(old(taskService.docs), old(taskService.nextId), MapSeq(t.imported, DocFor(selectedLabels, activeEmail, now)))
      ensures taskService.nextId == old(taskService.nextId) + |t.imported|
    {
      t := Tally([], 0, start);
      for i := 0 to |messages|
        invariant taskService.Valid()
        invariant t == ImportAll(messages[..i], snapshot, failing, start)
        invariant taskService.docs == AddDocs(old(taskService.docs), old(taskService.nextId), MapSeq(t.imported, DocFor(selectedLabels, activeEmail, now)))
        invariant taskService.nextId == old(taskService.nextId) + |t.imported|
      {
        var m := messages[i];
        ImportAllNext(messages, i, snapshot, failing, start);
        if AlreadyImported(snapshot, m) {
          t := t.(skippedExisting := t.skippedExisting + 1);
          continue;
        }
        if m.id in failing {
          continue;
        }
        t := ImportNext(m, t, selectedLabels, activeEmail, now, old(taskService.docs), old(taskService.nextId));
      }
      assert messages[..|messages|] == messages;
    }

    /**
     * The loop's import branch: the message made into a task under the next id of
     * the documents added since `docs0`, and counted.
     */
    method ImportNext(m: Gmail.GmailMessage, t: Tally, selectedLabels: seq<string>, activeEmail: Option<string>, now: int,
                      ghost docs0: map<string, Tasks.TaskDoc>, ghost n0: nat) returns (t': Tally)
      requires taskService.Valid() && taskService.nextId == n0 + |t.imported| && !Unattributed(activeEmail, m)
      requires taskService.docs == AddDocs(docs0, n0, MapSeq(t.imported, DocFor(selectedLabels, activeEmail, now)))
      modifies taskService
      ensures t' == Tally(t.imported + [m], t.skippedExisting, Later(t.latestEmailTime, m.internalDate))
      ensures taskService.Valid() && taskService.nextId == n0 + |t'.imported|
      ensures taskService.docs == AddDocs(docs0, n0, MapSeq(t'.imported, DocFor(selectedLabels, activeEmail, now)))
    {
      ghost var f := DocFor(selectedLabels, activeEmail, now);
      ghost var before := taskService.docs;
      ImportMessage(m, selectedLabels, activeEmail, now);
      assert taskService.docs == before[DocId(n0 + |t.imported|) := f(m)];
      AddDocSnoc(docs0, n0, t.imported, m, f);
      t' := Tally(t.imported + [m], t.skippedExisting, Later(t.latestEmailTime, m.internalDate));
    }

    /** One message made into a task: its label chosen, converted, and written under the next id. */
    method ImportMessage(m: Gmail.GmailMessage, selectedLabels: seq<string>, activeEmail: Option<string>, now: int)
      requires taskService.Valid() && !Unattributed(activeEmail, m)
      modifies taskService
      ensures taskService.Valid() && taskService.nextId == old(taskService.nextId) + 1
      ensures taskService.docs == old(taskService.docs)[DocId(old(taskService.nextId)) := DocFor(selectedLabels, activeEmail, now)(m)]
    {
      var labelName := MessageLabel(selectedLabels, m.labelIds);
      var taskData := Gmail.ConvertMessageToTask(m, labelName, activeEmail);
      var id := taskService.CreateTaskFromEmail(taskData, None, now);
      assert id.Some?;
    }

    /** The end of a run that did not throw: the global record, then the active account's record. */
    method FinishSync(s: Start, t: Tally, activeEmail: Option<string>, now: int)
      requires syncService.store == s.marked && syncService.GetSyncStatus() == s.started
      modifies syncService
      ensures syncService.store ==
                WithAccount(s.marked[Sync.SyncStatusKey := Sync.Saved(FinishedGlobal(s.started, t.latestEmailTime, |t.imported|, now))],
                            activeEmail, FinishedAccount(s.account, t.latestEmailTime, |t.imported|, now))
    {
      if t.latestEmailTime.Some? {
        syncService.RecordImport(t.latestEmailTime.value, |t.imported|);
      } else {
        syncService.UpdateSyncProgress(false, now);
      }
      if Truthy(activeEmail) {
        syncService.SaveAccountSyncStatus(activeEmail.value, FinishedAccount(s.account, t.latestEmailTime, |t.imported|, now));
      }
    }
  }
}
