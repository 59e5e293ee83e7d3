/**
 * The blocked-sender list: a document collection of entries, each with a
 * normalised address, a reason, a time and who blocked it. Blocking appends,
 * unblocking deletes the first matching entry, and the list readers return
 * entries newest first. A failed read is the parameter `failed`; the clock is
 * the parameter `now`.
 */
module Blocklist {
  import opened Wrappers
  import opened Seqs
  import opened Types
  import Text

  /** `emailAddress.toLowerCase().trim()`. */
  function Normalise(emailAddress: string): string {
    Text.Trim(Text.ToLower(emailAddress))
  }

  /** The index of the first entry with address `address`, as the equality query returns it. */
  function FirstMatch(entries: seq<BlockedEmail>, address: string): (r: Option<nat>)
    ensures r.Some? ==> r.value < |entries| && entries[r.value].emailAddress == address
                        && forall j :: 0 <= j < r.value ==> entries[j].emailAddress != address
    ensures r.None? ==> forall j :: 0 <= j < |entries| ==> entries[j].emailAddress != address
  {
    if entries == [] then None
    else if entries[0].emailAddress == address then Some(0)
    else match FirstMatch(entries[1..], address)
      case None => None
      case Some(k) => Some(k + 1)
  }

  /** How many entries carry `address`. */
  function Count(entries: seq<BlockedEmail>, address: string): nat {
    if entries == [] then 0
    else (if entries[|entries| - 1].emailAddress == address then 1 else 0) + Count(entries[..|entries| - 1], address)
  }

  /** An address with no entry counts zero, and one with an entry counts more. */
  lemma {:induction false} CountPositiveIff(entries: seq<BlockedEmail>, address: string)
    ensures Count(entries, address) > 0 <==> exists j :: 0 <= j < |entries| && entries[j].emailAddress == address
  {
    if entries != [] {
      var init := entries[..|entries| - 1];
      CountPositiveIff(init, address);
      assert forall j :: 0 <= j < |init| ==> init[j] == entries[j];
    }
  }

  lemma {:induction false} CountAppend(a: seq<BlockedEmail>, b: seq<BlockedEmail>, address: string)
    ensures Count(a + b, address) == Count(a, address) + Count(b, address)
  {
    if b != [] {
      CountAppend(a, b[..|b| - 1], address);
      assert (a + b)[..|a + b| - 1] == a + b[..|b| - 1];
    } else {
      assert a + b == a;
    }
  }

  /** The entry list with entry `i` deleted, the others in order. */
  function RemoveAt(entries: seq<BlockedEmail>, i: nat): (r: seq<BlockedEmail>)
    requires i < |entries|
    ensures |r| == |entries| - 1
  {
    entries[..i] + entries[i + 1..]
  }

  /**
   * Deleting the first match lowers that address's count by one and leaves every
   * other address's count alone; with no match nothing is deleted.
   */
  lemma RemoveFirstCounts(entries: seq<BlockedEmail>, address: string, other: string)
    ensures var m := FirstMatch(entries, address);
            && (m.None? ==> Count(entries, address) == 0)
            && (m.Some? ==> Count(RemoveAt(entries, m.value), address) == Count(entries, address) - 1)
            && (m.Some? && other != address ==> Count(RemoveAt(entries, m.value), other) == Count(entries, other))
  {
    var m := FirstMatch(entries, address);
    CountPositiveIff(entries, address);
    if m.Some? {
      var i := m.value;
      assert entries == entries[..i] + ([entries[i]] + entries[i + 1..]);
      CountAppend(entries[..i], [entries[i]] + entries[i + 1..], address);
      CountAppend([entries[i]], entries[i + 1..], address);
      CountAppend(entries[..i], entries[i + 1..], address);
      CountAppend(entries[..i], [entries[i]] + entries[i + 1..], other);
      CountAppend([entries[i]], entries[i + 1..], other);
      CountAppend(entries[..i], entries[i + 1..], other);
      assert Count([entries[i]], address) == 1 by { assert [entries[i]][..0] == []; }
      assert Count([entries[i]], other) == (if entries[i].emailAddress == other then 1 else 0) by { assert [entries[i]][..0] == []; }
    }
  }

  /** The comparator `b.blockedAt - a.blockedAt`: newest first. */
  const NewestBlockedFirst: (BlockedEmail, BlockedEmail) -> bool :=
    (a: BlockedEmail, b: BlockedEmail) => a.blockedAt >= b.blockedAt

  function BlockedBy(userId: string): BlockedEmail -> bool {
    (e: BlockedEmail) => e.blockedBy == userId
  }

  lemma NewestBlockedFirstIsPreorder()
    ensures TotalPreorder(NewestBlockedFirst)
  {
  }

  /** The blocked-sender collection, entries in document order. */
  class BlockedEmailService {
    var entries: seq<BlockedEmail>
    /** The number of documents added so far; the next document's id is `DocId(nextId)`. */
    var nextId: nat

    /** Every id was handed out before. */
    predicate Valid()
      reads this
    {
      forall i :: 0 <= i < |entries| ==> Text.IsDigits(entries[i].id) && Text.ParseNat(entries[i].id) < nextId
    }

    constructor()
      ensures entries == [] && nextId == 0 && Valid()
    {
      entries := [];
      nextId := 0;
    }

    /** `isEmailBlocked`: some entry has the normalised address; `false` when the lookup fails. */
    function IsEmailBlocked(emailAddress: string, failed: bool): (r: bool)
      reads this
      ensures r <==> !failed && Count(entries, Normalise(emailAddress)) > 0
      ensures r <==> !failed && exists j :: 0 <= j < |entries| && entries[j].emailAddress == Normalise(emailAddress)
    {
      CountPositiveIff(entries, Normalise(emailAddress));
      !failed && FirstMatch(entries, Normalise(emailAddress)).Some?
    }

    /**
     * `blockEmail`: a new entry is appended whether or not the address is already
     * blocked; it carries the normalised address, the reason or "Marked as spam",
     * the time, and the blocker or "unknown". The new id is fresh.
     */
    method BlockEmail(emailAddress: string, reason: Option<string>, blockedBy: Option<string>, now: int)
      returns (id: string)
      requires Valid()
      modifies this
      ensures Valid()
      ensures nextId == old(nextId) + 1
      ensures entries == old(entries) + [BlockedEmail(id, Normalise(emailAddress), Some(OrDefault(reason, "Marked as spam")), now, OrDefault(blockedBy, "unknown"))]
      ensures forall i :: 0 <= i < |old(entries)| ==> old(entries)[i].id != id
      ensures forall b :: Normalise(b) == Normalise(emailAddress) ==> IsEmailBlocked(b, false)
      ensures forall a :: Count(entries, a) == Count(old(entries), a) + (if a == Normalise(emailAddress) then 1 else 0)
    {
      id := DocId(nextId);
      var entry := BlockedEmail(id, Normalise(emailAddress), Some(OrDefault(reason, "Marked as spam")), now, OrDefault(blockedBy, "unknown"));
      entries := entries + [entry];
      nextId := nextId + 1;
      assert entries[..|entries| - 1] == old(entries);
    }

    /** `unblockEmail`: the first entry with the normalised address is deleted, if there is one. */
    method UnblockEmail(emailAddress: string)
      modifies this
      ensures nextId == old(nextId)
      ensures var m := FirstMatch(old(entries), Normalise(emailAddress));
              && (m.None? ==> entries == old(entries))
              && (m.Some? ==> entries == RemoveAt(old(entries), m.value))
      ensures old(Valid()) ==> Valid()
      ensures forall a :: Count(entries, a) == Count(old(entries), a) - (if a == Normalise(emailAddress) && Count(old(entries), a) > 0 then 1 else 0)
    {
      var address := Normalise(emailAddress);
      var m := FirstMatch(entries, address);
      ghost var before := entries;
      if m.Some? {
        entries := RemoveAt(entries, m.value);
      }
      forall a ensures Count(entries, a) == Count(before, a) - (if a == address && Count(before, a) > 0 then 1 else 0) {
        RemoveFirstCounts(before, address, a);
      }
      if m.Some? {
        assert forall i :: 0 <= i < |entries| ==> entries[i] in before;
      }
    }

    /** `getBlockedEmails`: every entry, newest first; `[]` when the read fails. */
    method GetBlockedEmails(failed: bool) returns (r: seq<BlockedEmail>)
      ensures failed ==> r == []
      ensures !failed ==> r == SortBy(entries, NewestBlockedFirst)
      ensures !failed ==> SortedBy(r, NewestBlockedFirst) && multiset(r) == multiset(entries)
    {
      if failed {
        return [];
      }
      var blockedEmails: seq<BlockedEmail> := [];
      for i := 0 to |entries|
        invariant blockedEmails == entries[..i]
      {
        var doc := entries[i];
        blockedEmails := blockedEmails + [BlockedEmail(doc.id, doc.emailAddress, doc.reason, doc.blockedAt, doc.blockedBy)];
      }
      assert blockedEmails == entries;
      r := SortBy(blockedEmails, NewestBlockedFirst);
      NewestBlockedFirstIsPreorder();
      SortSorted(blockedEmails, NewestBlockedFirst);
      SortPermutes(blockedEmails, NewestBlockedFirst);
    }

    /**
     * `getBlockedEmailsByUser`: exactly the entries blocked by `userId`, in the
     * order the full list has them; `[]` when the read fails.
     */
    method GetBlockedEmailsByUser(userId: string, failed: bool) returns (r: seq<BlockedEmail>)
      ensures failed ==> r == []
      ensures !failed ==> r == Filter(SortBy(entries, NewestBlockedFirst), BlockedBy(userId))
      ensures !failed ==> forall e :: e in r <==> e in entries && e.blockedBy == userId
    {
      if failed {
        return [];
      }
      var snapshot := Filter(entries, BlockedBy(userId));
      var blockedEmails: seq<BlockedEmail> := [];
      for i := 0 to |snapshot|
        invariant blockedEmails == snapshot[..i]
      {
        var doc := snapshot[i];
        blockedEmails := blockedEmails + [BlockedEmail(doc.id, doc.emailAddress, doc.reason, doc.blockedAt, doc.blockedBy)];
      }
      assert blockedEmails == snapshot;
      r := SortBy(blockedEmails, NewestBlockedFirst);
      ByUserSorted(entries, userId);
      ByUserMembers(entries, userId);
    }
  }

  /** Sorting the user's entries is filtering the sorted list. */
  lemma ByUserSorted(entries: seq<BlockedEmail>, userId: string)
    ensures SortBy(Filter(entries, BlockedBy(userId)), NewestBlockedFirst) == Filter(SortBy(entries, NewestBlockedFirst), BlockedBy(userId))
  {
    NewestBlockedFirstIsPreorder();
    FilterSortCommute(entries, BlockedBy(userId), NewestBlockedFirst);
  }

  /** Sorting the user's entries keeps exactly the user's entries. */
  lemma ByUserMembers(entries: seq<BlockedEmail>, userId: string)
    ensures forall e :: e in SortBy(Filter(entries, BlockedBy(userId)), NewestBlockedFirst) <==> e in entries && e.blockedBy == userId
  {
    var snapshot := Filter(entries, BlockedBy(userId));
    var r := SortBy(snapshot, NewestBlockedFirst);
    SortPermutes(snapshot, NewestBlockedFirst);
    FilterMembers(entries, BlockedBy(userId));
    forall e | e in entries && e.blockedBy == userId ensures e in r {
      assert e in snapshot;
      assert e in multiset(r);
    }
    forall e | e in r ensures e in entries && e.blockedBy == userId {
      assert e in multiset(snapshot);
    }
  }

  /** An address blocked twice stays blocked after one unblock. */
  lemma BlockedTwiceSurvivesUnblock(entries: seq<BlockedEmail>, address: string)
    requires Count(entries, address) >= 2
    ensures var m := FirstMatch(entries, address);
            m.Some? && Count(RemoveAt(entries, m.value), address) >= 1
  {
    RemoveFirstCounts(entries, address, address);
  }
}
