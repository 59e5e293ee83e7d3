/**
 * The age/staleness evaluator: how long a task has sat in its current status,
 * whether it should warn or look urgent, whether a snooze silences it, and the
 * colours, badge text and tooltip derived from that. The clock is the
 * parameter `now`; the locale date formatter is the parameter `formatDate`.
 */
module TaskAge {
  import opened Wrappers
  import opened Types
  import Text

  const MsPerDay: int := 1000 * 60 * 60 * 24

  datatype TaskAgeInfo = TaskAgeInfo(
    daysInCurrentStatus: int,
    shouldShowWarning: bool,
    shouldShowUrgent: bool,
    isSnoozed: bool,
    backgroundColor: string,
    borderColor: string)

  /** The instant the task entered its current status: `lastStatusChange`, else `createdAt`. */
  function StatusAnchor(task: Task): int {
    if task.lastStatusChange.Some? then task.lastStatusChange.value else task.createdAt
  }

  /** `Math.floor(ms / 86400000)`, division over the reals then rounding down. */
  function WholeDays(ms: int): int {
    (ms as real / MsPerDay as real).Floor
  }

  function CalculateTaskAge(task: Task, now: int): TaskAgeInfo {
    var isSnoozed := task.snoozeUntil.Some? && now < task.snoozeUntil.value;
    var days := WholeDays(now - StatusAnchor(task));
    var warning := !isSnoozed && days >= 1;
    var urgent := !isSnoozed && days >= 3;
    var (background, border) :=
      if isSnoozed then ("#f8f9fa", "#bdbdbd")
      else if urgent then ("#ffebee", "#f44336")
      else if warning then ("#fff3e0", "#ff9800")
      else ("#fff", "#e0e0e0");
    TaskAgeInfo(days, warning, urgent, isSnoozed, background, border)
  }

  /** Rounding down a real quotient is integer floor division: whole days elapsed, partial days dropped. */
  lemma WholeDaysIsFloor(ms: int)
    ensures WholeDays(ms) == ms / MsPerDay
    ensures WholeDays(ms) * MsPerDay <= ms < (WholeDays(ms) + 1) * MsPerDay
  {
    var d := ms / MsPerDay;
    var q := ms as real / MsPerDay as real;
    assert d as real * MsPerDay as real <= ms as real < (d + 1) as real * MsPerDay as real;
    assert d as real <= q < (d + 1) as real;
  }

  /** A task is snoozed exactly while `now` is strictly before `snoozeUntil`. */
  lemma SnoozedIff(task: Task, now: int)
    ensures CalculateTaskAge(task, now).isSnoozed
        <==> task.snoozeUntil.Some? && now < task.snoozeUntil.value
    ensures task.snoozeUntil == Some(now) ==> !CalculateTaskAge(task, now).isSnoozed
  {
  }

  /**
   * The day count is the floor of the time since the anchor; a task whose anchor
   * is 23 hours old reports 0 days.
   */
  lemma DaysSinceAnchor(task: Task, now: int)
    ensures var d := CalculateTaskAge(task, now).daysInCurrentStatus;
            d == (now - StatusAnchor(task)) / MsPerDay
            && d * MsPerDay <= now - StatusAnchor(task) < (d + 1) * MsPerDay
    ensures now - StatusAnchor(task) == 23 * 60 * 60 * 1000 ==> CalculateTaskAge(task, now).daysInCurrentStatus == 0
  {
    WholeDaysIsFloor(now - StatusAnchor(task));
  }

  /**
   * Warning after one whole day, urgent after three, both only when not snoozed:
   * so urgent implies warning, and a snooze silences both however old the task is.
   */
  lemma Thresholds(task: Task, now: int)
    ensures var info := CalculateTaskAge(task, now);
            && (info.shouldShowWarning <==> !info.isSnoozed && now - StatusAnchor(task) >= MsPerDay)
            && (info.shouldShowUrgent <==> !info.isSnoozed && now - StatusAnchor(task) >= 3 * MsPerDay)
            && (info.shouldShowUrgent ==> info.shouldShowWarning)
            && (info.isSnoozed ==> !info.shouldShowWarning && !info.shouldShowUrgent)
  {
    WholeDaysIsFloor(now - StatusAnchor(task));
  }

  /** Exactly one colour pair, chosen in the order snoozed, urgent, warning, default. */
  lemma ColourSelection(task: Task, now: int)
    ensures var info := CalculateTaskAge(task, now);
            var pair := (info.backgroundColor, info.borderColor);
            && (pair == ("#f8f9fa", "#bdbdbd") <==> info.isSnoozed)
            && (pair == ("#ffebee", "#f44336") <==> !info.isSnoozed && info.shouldShowUrgent)
            && (pair == ("#fff3e0", "#ff9800") <==> !info.isSnoozed && !info.shouldShowUrgent && info.shouldShowWarning)
            && (pair == ("#fff", "#e0e0e0") <==> !info.isSnoozed && !info.shouldShowWarning)
  {
    var info := CalculateTaskAge(task, now);
    assert "#f8f9fa"[2] != "#ffebee"[2] && "#f8f9fa"[2] != "#fff3e0"[2] && |"#f8f9fa"| != |"#fff"|;
    assert "#ffebee"[3] != "#fff3e0"[3] && |"#ffebee"| != |"#fff"| && |"#fff3e0"| != |"#fff"|;
  }

  /** The badge text. */
  function GetAgeDisplayText(task: Task, now: int): string {
    var info := CalculateTaskAge(task, now);
    if info.isSnoozed then "Snoozed"
    else if info.daysInCurrentStatus == 0 then "Today"
    else if info.daysInCurrentStatus == 1 then "1 day"
    else Text.IntToString(info.daysInCurrentStatus) + " days"
  }

  /**
   * "Snoozed" exactly when snoozed, "Today" exactly for 0 days, "1 day" exactly for
   * 1; any other count, negative ones included, reads as its decimal form before
   * " days", so the text gives the count back.
   */
  lemma DisplayTextCases(task: Task, now: int)
    ensures var info := CalculateTaskAge(task, now);
            var r := GetAgeDisplayText(task, now);
            && (r == "Snoozed" <==> info.isSnoozed)
            && (r == "Today" <==> !info.isSnoozed && info.daysInCurrentStatus == 0)
            && (r == "1 day" <==> !info.isSnoozed && info.daysInCurrentStatus == 1)
            && (!info.isSnoozed && info.daysInCurrentStatus != 0 && info.daysInCurrentStatus != 1 ==>
                  |r| > 5 && r[|r| - 5..] == " days"
                  && Text.ParseInt(r[..|r| - 5]) == info.daysInCurrentStatus)
  {
    var info := CalculateTaskAge(task, now);
    var r := GetAgeDisplayText(task, now);
    if !info.isSnoozed && info.daysInCurrentStatus != 0 && info.daysInCurrentStatus != 1 {
      var n := Text.IntToString(info.daysInCurrentStatus);
      assert r[|r| - 1] == 's';
      assert r[..|r| - 5] == n;
      Text.IntToStringRoundTrip(info.daysInCurrentStatus);
    }
  }

  /** The tooltip; like the source it works out the status anchor again itself. */
  function GetAgeTooltip(task: Task, now: int, formatDate: int -> string): string {
    var info := CalculateTaskAge(task, now);
    if info.isSnoozed then
      "Snoozed until " + formatDate(task.snoozeUntil.value)
    else
      var statusChangeDate := if task.lastStatusChange.Some? then task.lastStatusChange.value else task.createdAt;
      "In current status since " + formatDate(statusChangeDate)
        + " (" + Text.IntToString(info.daysInCurrentStatus) + " days ago)"
  }

  /**
   * The tooltip takes the snooze branch exactly when the task is snoozed; otherwise
   * it reports the anchor and day count that `CalculateTaskAge` uses.
   */
  lemma TooltipCases(task: Task, now: int, formatDate: int -> string)
    ensures var r := GetAgeTooltip(task, now, formatDate);
            && (r[0] == 'S' <==> CalculateTaskAge(task, now).isSnoozed)
            && (CalculateTaskAge(task, now).isSnoozed ==> r == "Snoozed until " + formatDate(task.snoozeUntil.value))
            && (!CalculateTaskAge(task, now).isSnoozed ==>
                  r == "In current status since " + formatDate(StatusAnchor(task))
                       + " (" + Text.IntToString(CalculateTaskAge(task, now).daysInCurrentStatus) + " days ago)")
  {
  }
}
