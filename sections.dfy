/**
 * The board's sections, as `organizeTasks` builds them: the tasks that are
 * neither completed nor labelled DONE, grouped by label; each group sorted
 * most pressing first and then newest first; the default sections added where
 * missing; and the sections put in the board's fixed order, any others after
 * them by title.
 */
module Sections {
  import opened Types
  import opened Seqs
  import Text

  /** The sections every board shows, in the order it shows them; the same list orders the sections. */
  const DefaultSections: seq<string> :=
    ["FOLLOW UP", "SCHEDULE CALL", "INBOX", "ORDER", "SHIPPING", "AR", "AP", "PROD INFO", "BIDDING", "ONE OFF", "DONE"]

  /** A task is on the board unless it is completed or labelled DONE. */
  predicate IsActive(t: Task) {
    !t.completed && t.labelName != "DONE"
  }

  const Active: Task -> bool := (t: Task) => IsActive(t)

  function HasLabel(name: string): Task -> bool {
    (t: Task) => t.labelName == name
  }

  const SectionTitle: TaskSection -> string := (s: TaskSection) => s.title

  // ---------------------------------------------------------------- section ids

  /** `label.replace(/\s+/g, '-')` for the label `name`: every run of whitespace becomes a single `-`. */
  function SectionId(name: string): (r: string)
    decreases |name|
  {
    if name == [] then ""
    else if Text.IsWhitespace(name[0]) then "-" + SectionId(Text.TrimStart(name[1..]))
    else [name[0]] + SectionId(name[1..])
  }

  /** An id holds no whitespace, is never longer than its label, and is the label itself when that has none. */
  lemma {:induction false} SectionIdShape(name: string)
    decreases |name|
    ensures forall i :: 0 <= i < |SectionId(name)| ==> !Text.IsWhitespace(SectionId(name)[i])
    ensures |SectionId(name)| <= |name|
    ensures (forall i :: 0 <= i < |name| ==> !Text.IsWhitespace(name[i])) ==> SectionId(name) == name
  {
    if name != [] {
      if Text.IsWhitespace(name[0]) {
        SectionIdShape(Text.TrimStart(name[1..]));
      } else {
        SectionIdShape(name[1..]);
        assert name == [name[0]] + name[1..];
      }
    }
  }

  /** A stretch without whitespace is copied into the id as it is. */
  lemma {:induction false} SectionIdAppend(a: string, b: string)
    requires forall i :: 0 <= i < |a| ==> !Text.IsWhitespace(a[i])
    ensures SectionId(a + b) == a + SectionId(b)
  {
    if a == [] {
      assert a + b == b;
    } else {
      assert (a + b)[0] == a[0] && (a + b)[1..] == a[1..] + b;
      SectionIdAppend(a[1..], b);
      assert SectionId(a + b) == [a[0]] + SectionId(a[1..] + b);
      assert [a[0]] + (a[1..] + SectionId(b)) == a + SectionId(b);
    }
  }

  predicate NoWhitespace(s: string) {
    forall i :: 0 <= i < |s| ==> !Text.IsWhitespace(s[i])
  }

  /** Two words with whitespace between them become the words joined by one `-`. */
  lemma SectionIdTwoWords(a: string, gap: string, b: string)
    requires NoWhitespace(a) && NoWhitespace(b) && gap != [] && Text.AllWhitespace(gap)
    ensures SectionId(a + gap + b) == a + "-" + b
  {
    SectionIdAppend(a, gap + b);
    assert a + gap + b == a + (gap + b);
    TrimStartAll(gap, b);
    assert (gap + b)[1..] == gap[1..] + b;
    SectionIdShape(b);
  }

  lemma {:induction false} TrimStartAll(gap: string, b: string)
    requires Text.AllWhitespace(gap) && (b != [] ==> !Text.IsWhitespace(b[0]))
    ensures Text.TrimStart(gap + b) == b
  {
    if gap == [] {
      assert gap + b == b;
    } else {
      assert (gap + b)[1..] == gap[1..] + b;
      TrimStartAll(gap[1..], b);
    }
  }

  /** The id of the first default section, as the board's drop targets expect it. */
  lemma FollowUpId()
    ensures SectionId("FOLLOW UP") == "FOLLOW-UP"
  {
    assert "FOLLOW UP" == "FOLLOW" + " " + "UP";
    SectionIdTwoWords("FOLLOW", " ", "UP");
  }

  // ---------------------------------------------------------------- grouping

  /** The labels of `ts` in order of first occurrence: the keys of the grouping accumulator as they are added. */
  function Labels(ts: seq<Task>): seq<string> {
    if ts == [] then []
    else
      var r := Labels(ts[..|ts| - 1]);
      var l := ts[|ts| - 1].labelName;
      if l in r then r else r + [l]
  }

  /** The labels listed are exactly the labels of the tasks, each once. */
  lemma {:induction false} LabelsExact(ts: seq<Task>)
    ensures forall l :: l in Labels(ts) <==> exists i :: 0 <= i < |ts| && ts[i].labelName == l
    ensures forall i, j :: 0 <= i < j < |Labels(ts)| ==> Labels(ts)[i] != Labels(ts)[j]
  {
    if ts != [] {
      var init := ts[..|ts| - 1];
      LabelsExact(init);
      assert forall i :: 0 <= i < |init| ==> init[i] == ts[i];
    }
  }

  /** One more task: its label joins the keys if new, and it joins its own label's group only. */
  lemma GroupNext(ts: seq<Task>, i: nat)
    requires i < |ts|
    ensures Labels(ts[..i + 1]) ==
              if ts[i].labelName in Labels(ts[..i]) then Labels(ts[..i]) else Labels(ts[..i]) + [ts[i].labelName]
    ensures forall l :: Filter(ts[..i + 1], HasLabel(l)) ==
                          Filter(ts[..i], HasLabel(l)) + (if ts[i].labelName == l then [ts[i]] else [])
  {
    assert ts[..i + 1][..i] == ts[..i];
    assert ts[..i + 1] == ts[..i] + [ts[i]];
    forall l ensures Filter(ts[..i + 1], HasLabel(l)) == Filter(ts[..i], HasLabel(l)) + (if ts[i].labelName == l then [ts[i]] else []) {
      FilterSnoc(ts[..i], ts[i], HasLabel(l));
    }
  }

  /** A label no task carries has no tasks. */
  lemma GroupAbsent(ts: seq<Task>, name: string)
    requires name !in Labels(ts)
    ensures Filter(ts, HasLabel(name)) == []
  {
    LabelsExact(ts);
    FilterNone(ts, HasLabel(name));
  }

  // ---------------------------------------------------------------- within a section

  /** The comparator of a section's tasks: higher priority first, then the later creation time first. */
  function TaskCompare(a: Task, b: Task): int {
    var priorityDiff := PriorityOrder(b.priority) - PriorityOrder(a.priority);
    if priorityDiff != 0 then priorityDiff else b.createdAt - a.createdAt
  }

  const TaskFirst: (Task, Task) -> bool := (a: Task, b: Task) => TaskCompare(a, b) <= 0

  /** `a` may stay before `b` exactly when it is more pressing, or as pressing and no older. */
  lemma TaskFirstIff(a: Task, b: Task)
    ensures TaskFirst(a, b) <==>
              || PriorityOrder(a.priority) > PriorityOrder(b.priority)
              || (a.priority == b.priority && a.createdAt >= b.createdAt)
  {
  }

  lemma TaskFirstIsPreorder()
    ensures TotalPreorder(TaskFirst)
  {
  }

  /** The section for `label` holding `tasks`: its id, its title and label, the tasks in section order. */
  function MakeSection(name: string, tasks: seq<Task>): TaskSection {
    TaskSection(SectionId(name), name, name, SortBy(tasks, TaskFirst))
  }

  /** One section per label of the active tasks, in first-occurrence order. */
  function SectionsOf(active: seq<Task>): (r: seq<TaskSection>)
    ensures |r| == |Labels(active)|
  {
    var labels := Labels(active);
    seq(|labels|, k requires 0 <= k < |labels| => MakeSection(labels[k], Filter(active, HasLabel(labels[k]))))
  }

  // ---------------------------------------------------------------- default sections

  /** `sections.find(s => s.title === title)` finds something. */
  predicate HasTitle(sections: seq<TaskSection>, title: string) {
    exists k | 0 <= k < |sections| :: sections[k].title == title
  }

  function EmptySection(title: string): TaskSection {
    TaskSection(SectionId(title), title, title, [])
  }

  /** The default titles, in order, each pushed as an empty section unless a section has it already. */
  function AddDefaults(sections: seq<TaskSection>, titles: seq<string>): seq<TaskSection> {
    if titles == [] then sections
    else
      var r := AddDefaults(sections, titles[..|titles| - 1]);
      if HasTitle(r, titles[|titles| - 1]) then r else r + [EmptySection(titles[|titles| - 1])]
  }

  /** The built sections have distinct titles, the labels of the active tasks, each section built from its label's group. */
  lemma SectionsOfFacts(active: seq<Task>)
    ensures var b := SectionsOf(active);
            && UniqueKeys(b, SectionTitle)
            && (forall k :: 0 <= k < |b| ==> b[k] == MakeSection(b[k].title, Filter(active, HasLabel(b[k].title))))
            && (forall l :: HasTitle(b, l) <==> exists i :: 0 <= i < |active| && active[i].labelName == l)
  {
    LabelsExact(active);
    var b, labels := SectionsOf(active), Labels(active);
    assert forall k :: 0 <= k < |b| ==> b[k].title == labels[k];
    forall l ensures HasTitle(b, l) <==> l in labels {
      if l in labels {
        var k :| 0 <= k < |labels| && labels[k] == l;
        assert b[k].title == l;
      }
    }
  }

  /**
   * Adding the defaults keeps the sections there were in front, gives every
   * default title a section, adds only empty sections for titles that had none,
   * and keeps titles distinct.
   */
  lemma {:induction false} AddDefaultsFacts(sections: seq<TaskSection>, titles: seq<string>)
    ensures var r := AddDefaults(sections, titles);
            && |sections| <= |r| && r[..|sections|] == sections
            && (forall t :: t in titles ==> HasTitle(r, t))
            && (forall t :: HasTitle(r, t) ==> HasTitle(sections, t) || t in titles)
            && (forall k :: |sections| <= k < |r| ==> r[k] == EmptySection(r[k].title) && !HasTitle(sections, r[k].title))
            && (UniqueKeys(sections, SectionTitle) ==> UniqueKeys(r, SectionTitle))
  {
    if titles != [] {
      var init, t := titles[..|titles| - 1], titles[|titles| - 1];
      AddDefaultsFacts(sections, init);
      var r0 := AddDefaults(sections, init);
      assert titles == init + [t];
      if !HasTitle(r0, t) {
        var r := r0 + [EmptySection(t)];
        assert r[..|r0|] == r0;
        assert r[..|sections|] == r0[..|sections|];
        assert r[|r0|].title == t;
        forall x | HasTitle(r, x) ensures HasTitle(sections, x) || x in titles {
          if x != t {
            var k :| 0 <= k < |r| && r[k].title == x;
            assert r0[k].title == x;
          }
        }
        forall x | x in titles ensures HasTitle(r, x) {
          if x != t {
            assert x in init;
            var k :| 0 <= k < |r0| && r0[k].title == x;
            assert r[k].title == x;
          }
        }
      }
    }
  }

  /** Every section of the board before sorting is built from its own title's group. */
  lemma BoardFacts(active: seq<Task>)
    ensures var full := AddDefaults(SectionsOf(active), DefaultSections);
            && UniqueKeys(full, SectionTitle)
            && (forall k :: 0 <= k < |full| ==> full[k] == MakeSection(full[k].title, Filter(active, HasLabel(full[k].title))))
            && (forall l :: HasTitle(full, l) <==> l in DefaultSections || exists i :: 0 <= i < |active| && active[i].labelName == l)
  {
    var b := SectionsOf(active);
    var full := AddDefaults(b, DefaultSections);
    SectionsOfFacts(active);
    AddDefaultsFacts(b, DefaultSections);
    forall k | 0 <= k < |full| ensures full[k] == MakeSection(full[k].title, Filter(active, HasLabel(full[k].title))) {
      if k < |b| {
        assert full[k] == b[k];
      } else {
        FilterNone(active, HasLabel(full[k].title));
      }
    }
    forall l | HasTitle(b, l) ensures HasTitle(full, l) {
      var k :| 0 <= k < |b| && b[k].title == l;
      assert full[k] == b[k];
    }
  }

  // ---------------------------------------------------------------- section order

  /**
   * The comparator of the sections, for a list `order` of titles that come
   * first: two of those by their place in the list, one of those before any
   * other section, two others by title.
   */
  function RankedCompare(order: seq<string>, a: TaskSection, b: TaskSection): int {
    var aIndex := IndexOf(order, a.title);
    var bIndex := IndexOf(order, b.title);
    if aIndex != -1 && bIndex != -1 then aIndex - bIndex
    else if aIndex != -1 then -1
    else if bIndex != -1 then 1
    else Text.Compare(a.title, b.title)
  }

  function RankedFirst(order: seq<string>): (TaskSection, TaskSection) -> bool {
    (a: TaskSection, b: TaskSection) => RankedCompare(order, a, b) <= 0
  }

  /** The board's section order: the default sections first, in their fixed order. */
  const SectionFirst: (TaskSection, TaskSection) -> bool := RankedFirst(DefaultSections)

  lemma RankedCompareFlip(order: seq<string>, a: TaskSection, b: TaskSection)
    ensures RankedCompare(order, a, b) == -RankedCompare(order, b, a)
  {
    Text.CompareAntisymmetric(a.title, b.title);
  }

  lemma RankedCompareTransitive(order: seq<string>, a: TaskSection, b: TaskSection, c: TaskSection)
    requires RankedCompare(order, a, b) <= 0 && RankedCompare(order, b, c) <= 0
    ensures RankedCompare(order, a, c) <= 0
  {
    var ia, ib, ic := IndexOf(order, a.title), IndexOf(order, b.title), IndexOf(order, c.title);
    if ia == -1 {
      assert ib == -1 && ic == -1;
      Text.CompareTransitive(a.title, b.title, c.title);
    }
  }

  lemma RankedFirstIsPreorder(order: seq<string>)
    ensures TotalPreorder(RankedFirst(order))
  {
    var first := RankedFirst(order);
    forall a, b ensures first(a, b) || first(b, a) {
      RankedCompareFlip(order, a, b);
    }
    forall a, b, c | first(a, b) && first(b, c) ensures first(a, c) {
      RankedCompareTransitive(order, a, b, c);
    }
  }

  lemma SectionFirstIsPreorder()
    ensures TotalPreorder(SectionFirst)
  {
    RankedFirstIsPreorder(DefaultSections);
  }

  // ---------------------------------------------------------------- the whole board

  /** `organizeTasks(taskList)`: the sections the board shows. */
  function Organize(taskList: seq<Task>): seq<TaskSection> {
    SortBy(AddDefaults(SectionsOf(Filter(taskList, Active)), DefaultSections), SectionFirst)
  }

  /** Sorting the sections neither adds nor drops one. */
  lemma SortKeepsSections(full: seq<TaskSection>)
    ensures forall s :: s in SortBy(full, SectionFirst) <==> s in full
  {
    var r := SortBy(full, SectionFirst);
    SortPermutes(full, SectionFirst);
    forall s ensures s in r <==> s in full {
      assert s in r <==> s in multiset(r);
      assert s in full <==> s in multiset(full);
    }
  }

  /**
   * The board has one section per title: one for each default title and one
   * for each label of an active task, and no other; each is built from its
   * label's active tasks; the sections are in section order.
   */
  lemma OrganizeSections(taskList: seq<Task>)
    ensures var active := Filter(taskList, Active);
            var r := Organize(taskList);
            && UniqueKeys(r, SectionTitle)
            && SortedBy(r, SectionFirst)
            && (forall k :: 0 <= k < |r| ==> r[k] == MakeSection(r[k].title, Filter(active, HasLabel(r[k].title))))
            && (forall l :: HasTitle(r, l) <==> l in DefaultSections || exists i :: 0 <= i < |active| && active[i].labelName == l)
  {
    var active := Filter(taskList, Active);
    var full := AddDefaults(SectionsOf(active), DefaultSections);
    var r := SortBy(full, SectionFirst);
    BoardFacts(active);
    SortUnique(full, SectionFirst, SectionTitle);
    SectionFirstIsPreorder();
    SortSorted(full, SectionFirst);
    SortKeepsSections(full);
    forall k | 0 <= k < |r| ensures r[k] == MakeSection(r[k].title, Filter(active, HasLabel(r[k].title))) {
      assert r[k] in full;
    }
    forall l ensures HasTitle(r, l) <==> HasTitle(full, l) {
      if HasTitle(r, l) {
        var k :| 0 <= k < |r| && r[k].title == l;
        assert r[k] in full;
      }
      if HasTitle(full, l) {
        var j :| 0 <= j < |full| && full[j].title == l;
        assert full[j] in r;
      }
    }
  }

  /** The tasks of one section are exactly the active tasks of the list carrying its title as label. */
  lemma SectionMembers(taskList: seq<Task>, k: nat)
    requires k < |Organize(taskList)|
    ensures var s := Organize(taskList)[k];
            forall t :: t in s.tasks <==> t in taskList && IsActive(t) && t.labelName == s.title
  {
    var s := Organize(taskList)[k];
    OrganizeSections(taskList);
    var g := Filter(Filter(taskList, Active), HasLabel(s.title));
    assert s.tasks == SortBy(g, TaskFirst);
    SortPermutes(g, TaskFirst);
    GroupMembers(taskList, s.title);
    forall t ensures t in s.tasks <==> t in g {
      assert t in s.tasks <==> t in multiset(g);
    }
  }

  /** A label's group holds exactly the active tasks of the list with that label. */
  lemma GroupMembers(taskList: seq<Task>, name: string)
    ensures forall t :: t in Filter(Filter(taskList, Active), HasLabel(name)) <==> t in taskList && IsActive(t) && t.labelName == name
  {
    var active := Filter(taskList, Active);
    var g := Filter(active, HasLabel(name));
    FilterMembers(active, HasLabel(name));
    FilterMembers(taskList, Active);
    forall t ensures t in g <==> t in taskList && IsActive(t) && t.labelName == name {
      if t in taskList && IsActive(t) && t.labelName == name {
        var i :| 0 <= i < |taskList| && taskList[i] == t;
        var j :| 0 <= j < |active| && active[j] == t;
      }
      if t in g {
        assert t in multiset(active);
        assert t in multiset(taskList);
      }
    }
  }

  /**
   * Each section's id is its title with the whitespace runs replaced, its label
   * is its title, and its tasks are all the active tasks of the list carrying
   * that label, each as often as in the list, most pressing and then newest first.
   */
  lemma OrganizeContents(taskList: seq<Task>)
    ensures var r := Organize(taskList);
            forall k :: 0 <= k < |r| ==>
              && r[k].id == SectionId(r[k].title) && r[k].labelName == r[k].title
              && multiset(r[k].tasks) == multiset(Filter(Filter(taskList, Active), HasLabel(r[k].title)))
              && SortedBy(r[k].tasks, TaskFirst)
              && (forall t :: t in r[k].tasks <==> t in taskList && IsActive(t) && t.labelName == r[k].title)
  {
    var active := Filter(taskList, Active);
    var r := Organize(taskList);
    OrganizeSections(taskList);
    TaskFirstIsPreorder();
    forall k | 0 <= k < |r|
      ensures multiset(r[k].tasks) == multiset(Filter(active, HasLabel(r[k].title)))
      ensures SortedBy(r[k].tasks, TaskFirst)
      ensures forall t :: t in r[k].tasks <==> t in taskList && IsActive(t) && t.labelName == r[k].title
    {
      var g := Filter(active, HasLabel(r[k].title));
      SortPermutes(g, TaskFirst);
      SortSorted(g, TaskFirst);
      SectionMembers(taskList, k);
    }
  }

  /** Every task on the board is in the section of its label and in no other; a completed or DONE task is in none. */
  lemma OrganizePlacesEachTask(taskList: seq<Task>)
    ensures var r := Organize(taskList);
            && (forall t :: t in taskList && IsActive(t) ==> exists k :: 0 <= k < |r| && r[k].title == t.labelName && t in r[k].tasks)
            && (forall t, j, k :: 0 <= j < |r| && 0 <= k < |r| && t in r[j].tasks && t in r[k].tasks ==> j == k)
            && (forall t, k :: 0 <= k < |r| && t in r[k].tasks ==> IsActive(t))
  {
    var active := Filter(taskList, Active);
    var r := Organize(taskList);
    OrganizeSections(taskList);
    FilterMembers(taskList, Active);
    forall t | t in taskList && IsActive(t) ensures exists k :: 0 <= k < |r| && r[k].title == t.labelName && t in r[k].tasks {
      var i :| 0 <= i < |taskList| && taskList[i] == t;
      var ia :| 0 <= ia < |active| && active[ia] == t;
      assert HasTitle(r, t.labelName);
      var k :| 0 <= k < |r| && r[k].title == t.labelName;
      SectionMembers(taskList, k);
    }
    forall t, j, k | 0 <= j < |r| && 0 <= k < |r| && t in r[j].tasks && t in r[k].tasks ensures j == k {
      SectionMembers(taskList, j);
      SectionMembers(taskList, k);
      assert SectionTitle(r[j]) == SectionTitle(r[k]);
    }
    forall t, k | 0 <= k < |r| && t in r[k].tasks ensures IsActive(t) {
      SectionMembers(taskList, k);
    }
  }

  /** The DONE section is always there and always empty. */
  lemma DoneSectionEmpty(taskList: seq<Task>)
    ensures var r := Organize(taskList);
            exists k :: 0 <= k < |r| && r[k].title == "DONE" && r[k].tasks == []
  {
    var active := Filter(taskList, Active);
    var r := Organize(taskList);
    OrganizeSections(taskList);
    assert DefaultSections[10] == "DONE";
    assert HasTitle(r, "DONE");
    var k :| 0 <= k < |r| && r[k].title == "DONE";
    FilterMembers(taskList, Active);
    assert forall i :: 0 <= i < |active| ==> active[i] in active;
    FilterNone(active, HasLabel("DONE"));
  }

  predicate Distinct(order: seq<string>) {
    forall i, j :: 0 <= i < j < |order| ==> order[i] != order[j]
  }

  /** No default title is listed twice. */
  lemma DefaultsDistinct()
    ensures Distinct(DefaultSections)
  {
  }

  /** Sections in ranked order with distinct titles: one of the ranked titles is never after another title, they keep the list's order, and the others go by title. */
  lemma PairOrder(order: seq<string>, r: seq<TaskSection>, i: nat, j: nat)
    requires SortedBy(r, RankedFirst(order)) && UniqueKeys(r, SectionTitle) && i < j < |r|
    ensures IndexOf(order, r[j].title) != -1 ==> 0 <= IndexOf(order, r[i].title) < IndexOf(order, r[j].title)
    ensures IndexOf(order, r[i].title) == -1 ==> Text.Compare(r[i].title, r[j].title) < 0
  {
    assert RankedFirst(order)(r[i], r[j]);
    assert r[i].title != r[j].title by {
      assert SectionTitle(r[i]) != SectionTitle(r[j]);
    }
    Text.CompareAntisymmetric(r[i].title, r[j].title);
  }

  /** The pairwise facts of ranked order, without the comparator. */
  ghost predicate RankedPairs(order: seq<string>, r: seq<TaskSection>) {
    forall i, j :: 0 <= i < j < |r| ==>
      && (IndexOf(order, r[j].title) != -1 ==> 0 <= IndexOf(order, r[i].title) < IndexOf(order, r[j].title))
      && (IndexOf(order, r[i].title) == -1 ==> Text.Compare(r[i].title, r[j].title) < 0)
  }

  lemma RankedPairsOf(order: seq<string>, r: seq<TaskSection>)
    requires SortedBy(r, RankedFirst(order)) && UniqueKeys(r, SectionTitle)
    ensures RankedPairs(order, r)
  {
    forall i, j | 0 <= i < j < |r| ensures
      && (IndexOf(order, r[j].title) != -1 ==> 0 <= IndexOf(order, r[i].title) < IndexOf(order, r[j].title))
      && (IndexOf(order, r[i].title) == -1 ==> Text.Compare(r[i].title, r[j].title) < 0)
    {
      PairOrder(order, r, i, j);
    }
  }

  /** Ranks that never fall back to -1 and strictly increase while not -1 are at least their position. */
  lemma {:induction false} RankAtLeast(ranks: seq<int>, k: nat)
    requires forall i :: 0 < i < |ranks| && ranks[i] >= 0 ==> 0 <= ranks[i - 1] < ranks[i]
    requires k < |ranks| && ranks[k] >= 0
    ensures ranks[k] >= k
  {
    if k > 0 {
      RankAtLeast(ranks, k - 1);
    }
  }

  /** The places in `order` of the sections' titles, -1 for a title not in it. */
  function Ranks(order: seq<string>, r: seq<TaskSection>): (ranks: seq<int>)
    ensures |ranks| == |r|
    ensures forall k :: 0 <= k < |r| ==> ranks[k] == IndexOf(order, r[k].title)
  {
    seq(|r|, k requires 0 <= k < |r| => IndexOf(order, r[k].title))
  }

  /** In ranked order the ranks strictly increase from one ranked section to the next, and none follows another section. */
  lemma RanksIncrease(order: seq<string>, r: seq<TaskSection>)
    requires RankedPairs(order, r)
    ensures var ranks := Ranks(order, r);
            forall i :: 0 < i < |ranks| && ranks[i] >= 0 ==> 0 <= ranks[i - 1] < ranks[i]
  {
    var ranks := Ranks(order, r);
    forall i | 0 < i < |ranks| && ranks[i] >= 0 ensures 0 <= ranks[i - 1] < ranks[i] {
      assert i - 1 < i;
    }
  }

  /** Of two ranked sections, the lower rank is the earlier one. */
  lemma RankedBefore(order: seq<string>, r: seq<TaskSection>, a: nat, b: nat)
    requires RankedPairs(order, r) && a < |r| && b < |r|
    requires 0 <= IndexOf(order, r[a].title) < IndexOf(order, r[b].title)
    ensures a < b
  {
  }

  /** The section with the `v`-th ranked title is at position `v` or later. */
  lemma {:induction false} RankedAt(order: seq<string>, r: seq<TaskSection>, v: nat) returns (p: nat)
    requires Distinct(order) && RankedPairs(order, r)
    requires forall u :: 0 <= u < |order| ==> HasTitle(r, order[u])
    requires v < |order|
    ensures p < |r| && r[p].title == order[v] && p >= v
  {
    assert HasTitle(r, order[v]);
    p :| 0 <= p < |r| && r[p].title == order[v];
    IndexOfDistinct(order, v);
    if v > 0 {
      var q := RankedAt(order, r, v - 1);
      IndexOfDistinct(order, v - 1);
      RankedBefore(order, r, q, p);
    }
  }

  /** The `v`-th ranked title is at position `v`: not before it, as each earlier ranked title is earlier, and not after, as ranks only rise. */
  lemma RankedPlace(order: seq<string>, r: seq<TaskSection>, v: nat)
    requires Distinct(order) && RankedPairs(order, r)
    requires forall u :: 0 <= u < |order| ==> HasTitle(r, order[u])
    requires v < |order|
    ensures v < |r| && r[v].title == order[v]
  {
    var ranks := Ranks(order, r);
    RanksIncrease(order, r);
    var p := RankedAt(order, r, v);
    IndexOfDistinct(order, v);
    assert ranks[p] == v;
    RankAtLeast(ranks, p);
  }

  /** With every ranked title present, the ranked sections fill the first places, in the list's order. */
  lemma RankedFirstPlaces(order: seq<string>, r: seq<TaskSection>)
    requires Distinct(order) && RankedPairs(order, r)
    requires forall u :: 0 <= u < |order| ==> HasTitle(r, order[u])
    ensures |r| >= |order|
    ensures forall k :: 0 <= k < |order| ==> r[k].title == order[k]
  {
    forall v | 0 <= v < |order| ensures v < |r| && r[v].title == order[v] {
      RankedPlace(order, r, v);
    }
    if |order| > 0 {
      RankedPlace(order, r, |order| - 1);
    }
  }

  /** Sections in ranked order with distinct titles, every ranked title among them: the ranked ones first, in the list's order, then the others by title. */
  lemma LayoutOf(order: seq<string>, r: seq<TaskSection>)
    requires Distinct(order) && SortedBy(r, RankedFirst(order)) && UniqueKeys(r, SectionTitle)
    requires forall u :: 0 <= u < |order| ==> HasTitle(r, order[u])
    ensures |r| >= |order|
    ensures forall k :: 0 <= k < |order| ==> r[k].title == order[k]
    ensures forall k :: |order| <= k < |r| ==> r[k].title !in order
    ensures forall i, j :: |order| <= i < j < |r| ==> Text.Compare(r[i].title, r[j].title) < 0
  {
    RankedPairsOf(order, r);
    RankedFirstPlaces(order, r);
    forall k, v | |order| <= k < |r| && 0 <= v < |order| ensures r[k].title != order[v] {
      assert SectionTitle(r[v]) != SectionTitle(r[k]);
    }
    forall i, j | |order| <= i < j < |r| ensures Text.Compare(r[i].title, r[j].title) < 0 {
      assert r[i].title !in order;
    }
  }

  /**
   * The board's layout: the eleven default sections first, in the fixed order,
   * then every other section, by title, none of them with a default title.
   */
  lemma OrganizeLayout(taskList: seq<Task>)
    ensures var r := Organize(taskList);
            && |r| >= |DefaultSections|
            && (forall k :: 0 <= k < |DefaultSections| ==> r[k].title == DefaultSections[k])
            && (forall k :: |DefaultSections| <= k < |r| ==> r[k].title !in DefaultSections)
            && (forall i, j :: |DefaultSections| <= i < j < |r| ==> Text.Compare(r[i].title, r[j].title) < 0)
  {
    var r := Organize(taskList);
    OrganizeSections(taskList);
    DefaultsDistinct();
    assert forall u :: 0 <= u < |DefaultSections| ==> DefaultSections[u] in DefaultSections;
    LayoutOf(DefaultSections, r);
  }

  // ---------------------------------------------------------------- the steps of organizeTasks

  /**
   * The `reduce` into `labelGroups`: the labels in the order they first
   * occur, and for each the active tasks carrying it, in list order.
   */
  method GroupByLabel(active: seq<Task>) returns (labelGroups: map<string, seq<Task>>, keys: seq<string>)
    ensures keys == Labels(active)
    ensures forall l :: l in labelGroups <==> l in keys
    ensures forall l | l in labelGroups :: labelGroups[l] == Filter(active, HasLabel(l))
  {
    labelGroups := map[];
    keys := [];
    for i := 0 to |active|
      invariant keys == Labels(active[..i])
      invariant forall l :: l in labelGroups <==> l in keys
      invariant forall l | l in labelGroups :: labelGroups[l] == Filter(active[..i], HasLabel(l))
    {
      var task := active[i];
      GroupNext(active, i);
      if task.labelName !in labelGroups {
        GroupAbsent(active[..i], task.labelName);
        labelGroups := labelGroups[task.labelName := []];
        keys := keys + [task.labelName];
      }
      labelGroups := labelGroups[task.labelName := labelGroups[task.labelName] + [task]];
    }
    assert active[..|active|] == active;
  }

  /** `defaultSections.forEach`: each default title missing so far gets an empty section at the end. */
  method AddDefaultSections(sections: seq<TaskSection>) returns (r: seq<TaskSection>)
    ensures r == AddDefaults(sections, DefaultSections)
  {
    r := sections;
    for i := 0 to |DefaultSections|
      invariant r == AddDefaults(sections, DefaultSections[..i])
    {
      var sectionTitle := DefaultSections[i];
      assert DefaultSections[..i + 1][..i] == DefaultSections[..i];
      if !HasTitle(r, sectionTitle) {
        r := r + [EmptySection(sectionTitle)];
      }
    }
    assert DefaultSections[..|DefaultSections|] == DefaultSections;
  }
}
