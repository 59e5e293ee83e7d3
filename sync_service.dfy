/**
 * The sync-state store: sync status records kept in a browser key-value store,
 * one global record and one per mail account, and the read-modify-write
 * operations over them. The clock is the parameter `now`.
 */
module Sync {
  import opened Wrappers
  import opened Types
  import Text

  const SyncStatusKey := "gmail_sync_status"
  const AccountStatusKeyPrefix := "gmail_sync_status_"
  const DefaultLabels := ["INBOX", "IMPORTANT", "STARRED"]

  /** The record every read falls back to. */
  const DefaultStatus := SyncStatus(None, None, false, 0, DefaultLabels)

  /** A stored value: a serialised status, or text that does not parse. */
  datatype Stored = Saved(status: SyncStatus) | Unparsable

  function AccountKey(email: string): string {
    AccountStatusKeyPrefix + email
  }

  /** Account keys never collide with the global key, nor with each other. */
  lemma AccountKeysDistinct(e1: string, e2: string)
    ensures AccountKey(e1) != SyncStatusKey
    ensures AccountKey(e1) == AccountKey(e2) <==> e1 == e2
  {
    assert |AccountKey(e1)| > |SyncStatusKey|;
    if AccountKey(e1) == AccountKey(e2) {
      assert e1 == AccountKey(e1)[|AccountStatusKeyPrefix|..];
      assert e2 == AccountKey(e2)[|AccountStatusKeyPrefix|..];
    }
  }

  /** Reading a key: the saved record, or the default when the key is missing or does not parse. */
  function StatusAt(store: map<string, Stored>, key: string): (r: SyncStatus)
    ensures key !in store ==> r == DefaultStatus
    ensures key in store && store[key].Unparsable? ==> r == DefaultStatus
    ensures key in store && store[key].Saved? ==> r == store[key].status
  {
    if key in store && store[key].Saved? then store[key].status else DefaultStatus
  }

  /** A save followed by a read of the same key gives back what was saved; other keys read as before. */
  lemma SaveThenRead(store: map<string, Stored>, key: string, status: SyncStatus, other: string)
    ensures StatusAt(store[key := Saved(status)], key) == status
    ensures other != key ==> StatusAt(store[key := Saved(status)], other) == StatusAt(store, other)
  {
  }

  /** `updateSyncProgress`'s change to a record: the flag set, `lastSyncTime` stamped only when starting. */
  function WithProgress(s: SyncStatus, inProgress: bool, now: int): (r: SyncStatus)
    ensures r.syncInProgress == inProgress
    ensures r.lastSyncTime == (if inProgress then Some(now) else s.lastSyncTime)
    ensures r.lastEmailTime == s.lastEmailTime && r.totalTasksImported == s.totalTasksImported
    ensures r.selectedLabels == s.selectedLabels
  {
    s.(syncInProgress := inProgress, lastSyncTime := if inProgress then Some(now) else s.lastSyncTime)
  }

  /** `recordImport`'s change: watermark set, count added, flag cleared. */
  function WithImport(s: SyncStatus, emailDate: int, tasksImported: int): (r: SyncStatus)
    ensures r.lastEmailTime == Some(emailDate)
    ensures r.totalTasksImported - s.totalTasksImported == tasksImported
    ensures !r.syncInProgress
    ensures r.lastSyncTime == s.lastSyncTime && r.selectedLabels == s.selectedLabels
  {
    s.(lastEmailTime := Some(emailDate), totalTasksImported := s.totalTasksImported + tasksImported, syncInProgress := false)
  }

  /** `setCustomSyncFromDate`'s change: watermark set, last sync forgotten. */
  function WithCustomSyncFrom(s: SyncStatus, date: int): (r: SyncStatus)
    ensures r.lastEmailTime == Some(date) && r.lastSyncTime.None?
    ensures r.syncInProgress == s.syncInProgress && r.totalTasksImported == s.totalTasksImported
    ensures r.selectedLabels == s.selectedLabels
  {
    s.(lastEmailTime := Some(date), lastSyncTime := None)
  }

  const MsPerMinute := 60000
  const MsPerHour := 3600000
  const MsPerDay := 86400000

  /** `(now - lastSyncTime) / (1000 * 60 * 60) > 4`, the hours being a fraction. */
  function SuggestSync(lastSyncTime: Option<int>, now: int): bool {
    match lastSyncTime
    case None => true
    case Some(t) => (now - t) as real / MsPerHour as real > 4.0
  }

  /** A sync is suggested exactly when there was none, or when strictly more than four hours have passed. */
  lemma SuggestSyncIff(lastSyncTime: Option<int>, now: int)
    ensures SuggestSync(lastSyncTime, now) <==> lastSyncTime.None? || now - lastSyncTime.value > 4 * MsPerHour
  {
  }

  /** `"<n> <unit>" + ("s" when n > 1) + " ago"`. */
  function Ago(n: nat, singular: string): string {
    Text.NatToString(n) + " " + singular + (if n > 1 then "s" else "") + " ago"
  }

  /** `getTimeSinceLastSync`: whole minutes, then whole hours of those, then whole days of those. */
  function TimeSinceText(lastSyncTime: Option<int>, now: int): string {
    match lastSyncTime
    case None => "Never"
    case Some(t) =>
      var diffMs := now - t;
      var diffMinutes := diffMs / MsPerMinute;
      var diffHours := diffMinutes / 60;
      var diffDays := diffHours / 24;
      if diffDays > 0 then Ago(diffDays, "day")
      else if diffHours > 0 then Ago(diffHours, "hour")
      else if diffMinutes > 0 then Ago(diffMinutes, "minute")
      else "Just now"
  }

  /** Flooring twice is flooring once by the product. */
  lemma FloorTwice(x: int, a: int, b: int)
    requires a > 0 && b > 0
    ensures x / a / b == x / (a * b)
  {
    var q := x / a;
    var r := x % a;
    var q2 := q / b;
    var r2 := q % b;
    Regroup(q, a, b, q2, r2);
    RemainderBelow(r2, r, a, b);
    DivUnique(x, a * b, q2, r2 * a + r);
  }

  lemma Regroup(q: int, a: int, b: int, q2: int, r2: int)
    requires q == q2 * b + r2
    ensures q * a == q2 * (a * b) + r2 * a
  {
    calc {
      q * a;
      (q2 * b + r2) * a;
      { MulDistributes(q2 * b, r2, a); }
      (q2 * b) * a + r2 * a;
      { MulAssociates(q2, b, a); }
      q2 * (a * b) + r2 * a;
    }
  }

  lemma MulDistributes(x: int, y: int, z: int)
    ensures (x + y) * z == x * z + y * z
  {
  }

  lemma MulAssociates(x: int, y: int, z: int)
    ensures (x * y) * z == x * (z * y)
  {
  }

  lemma RemainderBelow(r2: int, r: int, a: int, b: int)
    requires a > 0 && 0 <= r2 < b && 0 <= r < a
    ensures 0 <= r2 * a + r < a * b
  {
    MulMonotone(r2, b - 1, a);
    MulDistributes(b, -1, a);
  }

  lemma MulMonotone(x: int, y: int, z: int)
    requires 0 <= x <= y && z >= 0
    ensures 0 <= x * z <= y * z
  {
  }

  lemma DivUnique(x: int, d: int, q: int, r: int)
    requires d > 0 && 0 <= r < d && x == q * d + r
    ensures x / d == q
  {
    var q0 := x / d;
    var r0 := x % d;
    assert (q - q0) * d == r0 - r by {
      assert q * d - q0 * d == (q - q0) * d;
    }
    if q0 < q {
      MulAtLeast(q - q0, d);
    } else if q0 > q {
      MulAtLeast(q0 - q, d);
    }
  }

  lemma MulAtLeast(k: int, d: int)
    requires k >= 1 && d > 0
    ensures k * d >= d
  {
    assert k * d == (k - 1) * d + d;
  }

  /**
   * The text in terms of the elapsed milliseconds: a day count from one day on,
   * an hour count from one hour on, a minute count from one minute on, otherwise
   * "Just now" (also for a last sync in the future); plural exactly when the
   * count exceeds one.
   */
  lemma {:induction false} TimeSinceCases(lastSyncTime: Option<int>, now: int)
    ensures lastSyncTime.None? ==> TimeSinceText(lastSyncTime, now) == "Never"
    ensures lastSyncTime.Some? ==>
              var d := now - lastSyncTime.value;
              && (d >= MsPerDay ==> TimeSinceText(lastSyncTime, now) == Ago(d / MsPerDay, "day"))
              && (MsPerHour <= d < MsPerDay ==> TimeSinceText(lastSyncTime, now) == Ago(d / MsPerHour, "hour"))
              && (MsPerMinute <= d < MsPerHour ==> TimeSinceText(lastSyncTime, now) == Ago(d / MsPerMinute, "minute"))
              && (d < MsPerMinute ==> TimeSinceText(lastSyncTime, now) == "Just now")
  {
    if lastSyncTime.Some? {
      var d := now - lastSyncTime.value;
      FloorTwice(d, MsPerMinute, 60);
      FloorTwice(d, MsPerHour, 24);
      assert d / MsPerMinute / 60 / 24 == d / MsPerDay;
    }
  }

  /** The count shown is plural exactly when it exceeds one. */
  lemma AgoPlural(n: nat, singular: string)
    ensures var r := Ago(n, singular);
            |r| > 4 && r[|r| - 4..] == " ago"
            && (r[|r| - 5] == 's' <==> n > 1 || (singular != [] && singular[|singular| - 1] == 's'))
  {
    var r := Ago(n, singular);
    var digits := Text.NatToString(n);
    if n > 1 {
      assert r == (digits + " " + singular + "s") + " ago";
    } else {
      assert r == (digits + " " + singular) + " ago";
      if singular == [] {
        assert r[|r| - 5] == ' ';
      }
    }
  }

  /**
   * The key-value store of sync records. Every reader falls back to the default
   * record for a missing or unreadable key; every writer reads the current
   * record, changes some fields and saves it back.
   */
  class SyncService {
    var store: map<string, Stored>

    constructor(initial: map<string, Stored>)
      ensures store == initial
    {
      store := initial;
    }

    /** `getAccountSyncStatus`: the account's record, the default when there is none; writes nothing. */
    function GetAccountSyncStatus(email: string): (r: SyncStatus)
      reads this
      ensures AccountKey(email) in store && store[AccountKey(email)].Saved? ==> r == store[AccountKey(email)].status
      ensures !(AccountKey(email) in store && store[AccountKey(email)].Saved?) ==> r == DefaultStatus
    {
      StatusAt(store, AccountKey(email))
    }

    /** `getSyncStatus`: the global record, the default when there is none. */
    function GetSyncStatus(): (r: SyncStatus)
      reads this
      ensures SyncStatusKey in store && store[SyncStatusKey].Saved? ==> r == store[SyncStatusKey].status
      ensures !(SyncStatusKey in store && store[SyncStatusKey].Saved?) ==> r == DefaultStatus
    {
      StatusAt(store, SyncStatusKey)
    }

    method SaveAccountSyncStatus(email: string, status: SyncStatus)
      modifies this
      ensures store == old(store)[AccountKey(email) := Saved(status)]
      ensures GetAccountSyncStatus(email) == status
      ensures GetSyncStatus() == old(GetSyncStatus())
      ensures forall e :: e != email ==> GetAccountSyncStatus(e) == old(GetAccountSyncStatus(e))
    {
      store := store[AccountKey(email) := Saved(status)];
      AccountKeysDistinct(email, email);
      forall e | e != email ensures GetAccountSyncStatus(e) == old(GetAccountSyncStatus(e)) {
        AccountKeysDistinct(e, email);
      }
    }

    method SaveSyncStatus(status: SyncStatus)
      modifies this
      ensures store == old(store)[SyncStatusKey := Saved(status)]
      ensures GetSyncStatus() == status
      ensures forall e :: GetAccountSyncStatus(e) == old(GetAccountSyncStatus(e))
    {
      store := store[SyncStatusKey := Saved(status)];
      forall e ensures GetAccountSyncStatus(e) == old(GetAccountSyncStatus(e)) {
        AccountKeysDistinct(e, e);
      }
    }

    /** `updateSyncProgress`. */
    method UpdateSyncProgress(inProgress: bool, now: int)
      modifies this
      ensures store == old(store)[SyncStatusKey := Saved(WithProgress(old(GetSyncStatus()), inProgress, now))]
      ensures forall e :: GetAccountSyncStatus(e) == old(GetAccountSyncStatus(e))
    {
      var status := GetSyncStatus();
      status := status.(syncInProgress := inProgress);
      if inProgress {
        status := status.(lastSyncTime := Some(now));
      }
      SaveSyncStatus(status);
    }

    /** `recordImport`. */
    method RecordImport(emailDate: int, tasksImported: int)
      modifies this
      ensures store == old(store)[SyncStatusKey := Saved(WithImport(old(GetSyncStatus()), emailDate, tasksImported))]
      ensures forall e :: GetAccountSyncStatus(e) == old(GetAccountSyncStatus(e))
    {
      var status := GetSyncStatus();
      status := status.(lastEmailTime := Some(emailDate));
      status := status.(totalTasksImported := status.totalTasksImported + tasksImported);
      status := status.(syncInProgress := false);
      SaveSyncStatus(status);
    }

    /** `updateSelectedLabels`: only the label selection changes. */
    method UpdateSelectedLabels(labels: seq<string>)
      modifies this
      ensures store == old(store)[SyncStatusKey := Saved(old(GetSyncStatus()).(selectedLabels := labels))]
      ensures forall e :: GetAccountSyncStatus(e) == old(GetAccountSyncStatus(e))
    {
      var status := GetSyncStatus();
      status := status.(selectedLabels := labels);
      SaveSyncStatus(status);
    }

    /** `setCustomSyncFromDate`. */
    method SetCustomSyncFromDate(date: int)
      modifies this
      ensures store == old(store)[SyncStatusKey := Saved(WithCustomSyncFrom(old(GetSyncStatus()), date))]
      ensures forall e :: GetAccountSyncStatus(e) == old(GetAccountSyncStatus(e))
    {
      var status := GetSyncStatus();
      status := status.(lastEmailTime := Some(date));
      status := status.(lastSyncTime := None);
      SaveSyncStatus(status);
    }

    /** `shouldSuggestSync`. */
    function ShouldSuggestSync(now: int): (r: bool)
      reads this
      ensures r <==> GetSyncStatus().lastSyncTime.None? || now - GetSyncStatus().lastSyncTime.value > 4 * MsPerHour
    {
      SuggestSyncIff(GetSyncStatus().lastSyncTime, now);
      SuggestSync(GetSyncStatus().lastSyncTime, now)
    }

    /** `getTimeSinceLastSync`. */
    function GetTimeSinceLastSync(now: int): (r: string)
      reads this
      ensures GetSyncStatus().lastSyncTime.None? <==> r == "Never"
    {
      TimeSinceText(GetSyncStatus().lastSyncTime, now)
    }

    /** `clearSyncData`: the global record goes; the account records stay. */
    method ClearSyncData()
      modifies this
      ensures store == old(store) - {SyncStatusKey}
      ensures GetSyncStatus() == DefaultStatus
      ensures forall e :: GetAccountSyncStatus(e) == old(GetAccountSyncStatus(e))
    {
      store := store - {SyncStatusKey};
      forall e ensures GetAccountSyncStatus(e) == old(GetAccountSyncStatus(e)) {
        AccountKeysDistinct(e, e);
      }
    }
  }
}
