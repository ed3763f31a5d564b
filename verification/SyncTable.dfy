/**
 * The synchronised table of user devices: records as objects that merging rewrites, and the two tables updated step by
 * step.
 */
module SyncTable {
  import opened JsValues
  import opened SyncMerge

  /** A row of the device table. */
  datatype UserDevice = UserDevice(key: Key, state: Option<string>)

  /** A row joined with its journal entry. */
  class UserDeviceSyncRecord {
    var key: Key
    var lastModified: int
    var state: Option<string>

    constructor (row: UserDevice, lastModified: int)
      ensures Contents() == Record(row.key, lastModified, row.state)
    {
      key, this.lastModified, state := row.key, lastModified, row.state;
    }

    function Contents(): Record
      reads this
    {
      Record(key, lastModified, state)
    }

    function Row(): UserDevice
      reads this
    {
      UserDevice(key, state)
    }

    method SetKey(key: Key)
      modifies this`key
      ensures Contents() == old(Contents()).(key := key)
    {
      this.key := key;
    }
  }

  function Contents(records: seq<UserDeviceSyncRecord>): (r: seq<Record>)
    reads records
    ensures |r| == |records|
    ensures forall i :: 0 <= i < |r| ==> r[i] == records[i].Contents()
  {
    if records == [] then [] else Contents(records[..|records| - 1]) + [records[|records| - 1].Contents()]
  }

  // ----- queries -----

  /** The journal entry of `k` left joined with its row. */
  function Joined(t: Tables, k: Key): Record
    requires k in t.journal
  {
    Record(k, t.journal[k], if k in t.rows then t.rows[k] else None)
  }

  /** What changed for a user after `cursor`. */
  function ChangesAfter(t: Tables, cursor: int, userID: int): set<Record> {
    set k | k in t.journal && k.userID == userID && t.journal[k] > cursor :: Joined(t, k)
  }

  /** `m` is the newest timestamp of a user, 0 without any. */
  ghost predicate Latest(t: Tables, userID: int, m: int) {
    && (forall k :: k in t.journal && k.userID == userID ==> t.journal[k] <= m)
    && ((exists k :: k in t.journal && k.userID == userID && t.journal[k] == m)
        || (m == 0 && forall k :: k in t.journal ==> k.userID != userID))
  }

  // ----- replacing -----

  predicate Kept(r: Record) {
    HasDiscriminator(r.state) && r.key.uniqueID != ""
  }

  function Cleared(t: Tables, userID: int): Tables {
    Tables(
      map k | k in t.rows && k.userID != userID :: t.rows[k],
      map k | k in t.journal && k.userID != userID :: t.journal[k])
  }

  function InsertKept(t: Tables, records: seq<Record>, userID: int): Tables {
    if records == [] then t
    else
      var n := |records| - 1;
      var before := InsertKept(t, records[..n], userID);
      if Kept(records[n]) then Inserted(before, Owned(records[n], userID)) else before
  }

  /** A record of a live row: it has a name and a state that is not empty. */
  ghost predicate Lives(r: Record) {
    r.key.uniqueID != "" && r.state.Some? && r.state.value != ""
  }

  /** Record `i` is the last live one for `k`. */
  ghost predicate LastKept(records: seq<Record>, k: Key, i: int) {
    && 0 <= i < |records| && Lives(records[i]) && records[i].key.uniqueID == k.uniqueID
    && forall j :: i < j < |records| && records[j].key.uniqueID == k.uniqueID ==> !Lives(records[j])
  }

  /** The user's tables are exactly the last-wins map of the records, and other users' are as before. */
  ghost predicate ReplacedAt(t: Tables, records: seq<Record>, userID: int, t': Tables, k: Key) {
    if k.userID != userID then SameAt(t, t', k)
    else if exists i :: LastKept(records, k, i) then exists i :: LastKept(records, k, i) && Holds(t', k, records[i])
    else k !in t'.rows && k !in t'.journal
  }

  lemma {:induction false} InsertKeptAt(t: Tables, records: seq<Record>, userID: int, k: Key)
    ensures ReplacedAt(t, records, userID, InsertKept(Cleared(t, userID), records, userID), k)
  {
    if records != [] && k.userID == userID {
      var n := |records| - 1;
      var before := records[..n];
      InsertKeptAt(t, before, userID, k);
      var t' := InsertKept(Cleared(t, userID), records, userID);
      if Lives(records[n]) && records[n].key.uniqueID == k.uniqueID {
        assert LastKept(records, k, n) && Holds(t', k, records[n]);
      } else {
        assert forall i :: LastKept(records, k, i) <==> LastKept(before, k, i);
        if i :| LastKept(before, k, i) && Holds(InsertKept(Cleared(t, userID), before, userID), k, before[i]) {
          assert LastKept(records, k, i) && Holds(t', k, records[i]);
        }
      }
    } else if records != [] {
      InsertKeptAt(t, records[..|records| - 1], userID, k);
    }
  }

  // ----- what conditional and unconditional updates promise -----

  ghost predicate OthersKept(t: Tables, t': Tables, userID: int) {
    forall k: Key :: k.userID != userID ==> SameAt(t, t', k)
  }

  ghost predicate NeverLowered(t: Tables, t': Tables) {
    forall k :: k in t.journal ==> k in t'.journal && t.journal[k] <= t'.journal[k]
  }

  lemma MergeNothing(t: Tables, changes: seq<Record>, userID: int)
    ensures MergeAll(t, changes[..0], userID) == t
  {
  }

  lemma MergeNext(t: Tables, changes: seq<Record>, i: nat, userID: int)
    requires i < |changes|
    ensures MergeAll(t, changes[..i + 1], userID) == Merge(MergeAll(t, changes[..i], userID), changes[i], userID)
  {
    assert changes[..i + 1][..i] == changes[..i];
  }

  /** A record that is this user's already is merged as it would have been before. */
  lemma MergeOwned(t: Tables, r: Record, userID: int)
    ensures Merge(t, Owned(r, userID), userID) == Merge(t, r, userID)
    ensures Applies(t, Owned(r, userID), userID) == Applies(t, r, userID)
  {
  }

  lemma HandledKeeps(t: Tables, changes: seq<Record>, userID: int)
    ensures var t' := MergeAll(t, changes, userID);
            OthersKept(t, t', userID) && NeverLowered(t, t') && Merged(t, changes, userID, t')
  {
    MergeAllKeeps(t, changes, userID);
    MergeAllMerged(t, changes, userID);
  }

  lemma ReplacedKeeps(t: Tables, records: seq<Record>, userID: int, t': Tables)
    requires t' == InsertKept(Cleared(t, userID), records, userID)
    ensures OthersKept(t, t', userID)
    ensures forall k :: ReplacedAt(t, records, userID, t', k)
  {
    forall k: Key | k.userID != userID
      ensures SameAt(t, t', k)
    {
      InsertKeptAt(t, records, userID, k);
    }
    forall k
      ensures ReplacedAt(t, records, userID, t', k)
    {
      InsertKeptAt(t, records, userID, k);
    }
  }

  lemma InsertNext(t: Tables, records: seq<Record>, i: nat, userID: int)
    requires i < |records|
    ensures var before := InsertKept(t, records[..i], userID);
            InsertKept(t, records[..i + 1], userID)
            == if Kept(records[i]) then Inserted(before, Owned(records[i], userID)) else before
  {
    assert records[..i + 1][..i] == records[..i];
  }

  lemma InsertNothing(t: Tables, records: seq<Record>, userID: int)
    ensures InsertKept(t, records[..0], userID) == t
  {
  }

  class SyncTable {
    var rows: map<Key, Option<string>>
    var journal: map<Key, int>

    constructor ()
      ensures Valid() && Current() == Tables(map[], map[])
    {
      rows, journal := map[], map[];
    }

    function Current(): Tables
      reads this
    {
      Tables(rows, journal)
    }

    /** Each live row has a journal entry. */
    ghost predicate Valid()
      reads this
    {
      Journaled(Current())
    }

    method Insert(sr: UserDeviceSyncRecord) returns (lastModified: int)
      requires Valid()
      modifies this
      ensures Valid() && OthersKept(old(Current()), Current(), sr.key.userID)
      ensures Current() == Inserted(old(Current()), sr.Contents())
      ensures lastModified == sr.lastModified
    {
      var row := sr.Row();
      rows := rows[row.key := row.state];
      journal := journal[sr.key := sr.lastModified];
      lastModified := sr.lastModified;
    }

    method Delete(sr: UserDeviceSyncRecord) returns (lastModified: int)
      requires Valid()
      modifies this
      ensures Valid() && OthersKept(old(Current()), Current(), sr.key.userID)
      ensures Current() == Deleted(old(Current()), sr.Contents())
      ensures lastModified == sr.lastModified
    {
      rows := rows - {sr.key};
      journal := journal[sr.key := sr.lastModified];
      lastModified := sr.lastModified;
    }

    method InsertIfRecent(sr: UserDeviceSyncRecord) returns (done: bool)
      requires Valid()
      modifies this
      ensures Valid() && OthersKept(old(Current()), Current(), sr.key.userID) && NeverLowered(old(Current()), Current())
      ensures done <==> Newer(old(Current()), sr.key, sr.lastModified)
      ensures Current() == if done then Inserted(old(Current()), sr.Contents()) else old(Current())
    {
      if sr.key in journal && journal[sr.key] >= sr.lastModified {
        return false;
      }
      var _ := Insert(sr);
      return true;
    }

    method DeleteIfRecent(sr: UserDeviceSyncRecord) returns (done: bool)
      requires Valid()
      modifies this
      ensures Valid() && OthersKept(old(Current()), Current(), sr.key.userID) && NeverLowered(old(Current()), Current())
      ensures done <==> Newer(old(Current()), sr.key, sr.lastModified)
      ensures Current() == if done then Deleted(old(Current()), sr.Contents()) else old(Current())
    {
      if sr.key in journal && journal[sr.key] >= sr.lastModified {
        return false;
      }
      var _ := Delete(sr);
      return true;
    }

    /** One record of a batch: taken over as this user's if it has a name and is newer than what the journal has. */
    method HandleChange(sr: UserDeviceSyncRecord, userID: int) returns (res: bool)
      requires Valid()
      modifies this, sr`key
      ensures Valid() && Current() == Merge(old(Current()), old(sr.Contents()), userID)
      ensures res <==> Applies(old(Current()), old(sr.Contents()), userID)
      ensures sr.Contents() == Owned(old(sr.Contents()), userID)
      ensures res ==> Holds(Current(), sr.key, sr.Contents())
    {
      hide Journaled, OthersKept, NeverLowered;
      var key := sr.key.(userID := userID);
      sr.SetKey(key);
      if |key.uniqueID| == 0 {
        return false;
      }
      if HasDiscriminator(sr.state) {
        res := InsertIfRecent(sr);
      } else {
        res := DeleteIfRecent(sr);
      }
    }

    /** Takes over the records that are newer than what the journal has, all of them as this user's. */
    method HandleChanges(changes: seq<UserDeviceSyncRecord>, userID: int) returns (results: seq<bool>)
      requires Valid()
      modifies this, changes
      ensures Valid() && OthersKept(old(Current()), Current(), userID) && NeverLowered(old(Current()), Current())
      ensures Merged(old(Current()), old(Contents(changes)), userID, Current())
      ensures Current() == MergeAll(old(Current()), old(Contents(changes)), userID)
      ensures |results| == |changes|
      ensures forall i :: 0 <= i < |changes| ==>
                (results[i] <==> NewestSoFar(old(Current()), old(Contents(changes)), userID, i))
      ensures forall i :: 0 <= i < |changes| ==> changes[i].Contents() == Owned(old(changes[i].Contents()), userID)
    {
      hide MergeAll, Merged, Merge, Applies, NewestSoFar, NeverLowered, OthersKept, Journaled;
      ghost var before, records := Current(), Contents(changes);
      MergeNothing(before, records, userID);
      results := [];
      for i := 0 to |changes|
        invariant Valid() && |results| == i
        invariant Current() == MergeAll(before, records[..i], userID)
        invariant forall j :: 0 <= j < i ==>
                  (results[j] <==> NewestSoFar(before, records, userID, j))
        invariant forall j :: 0 <= j < |changes| ==>
                    changes[j].Contents() == Owned(records[j], userID)
                      || (i <= j && changes[j].Contents() == records[j])
      {
        MergeNext(before, records, i, userID);
        MergeOwned(Current(), records[i], userID);
        AppliedNewest(before, records, userID, i);
        var res := HandleChange(changes[i], userID);
        results := results + [res];
      }
      assert records[..|changes|] == records;
      HandledKeeps(before, records, userID);
    }

    function GetChangesAfter(cursor: int, userID: int): set<Record>
      reads this
    {
      ChangesAfter(Current(), cursor, userID)
    }

    method GetLastModified(userID: int) returns (m: int)
      ensures Latest(Current(), userID, m)
    {
      var mine := set k | k in journal && k.userID == userID;
      m := 0;
      var found := false;
      while mine != {}
        invariant forall k :: k in mine ==> k in journal && k.userID == userID
        invariant forall k :: k in journal && k.userID == userID && k !in mine ==> found && journal[k] <= m
        invariant if found then exists k :: k in journal && k.userID == userID && journal[k] == m else m == 0
        decreases |mine|
      {
        var k :| k in mine;
        if !found || journal[k] > m {
          m := journal[k];
        }
        found, mine := true, mine - {k};
      }
    }

    /** What changed for the peer and the newest timestamp, both read before its own changes are merged. */
    method SyncAt(sr: UserDeviceSyncRecord, pushed: seq<UserDeviceSyncRecord>)
      returns (lastModified: int, ours: set<Record>, done: seq<bool>)
      requires Valid()
      modifies this, pushed
      ensures Valid() && OthersKept(old(Current()), Current(), old(sr.key.userID))
              && NeverLowered(old(Current()), Current())
      ensures Merged(old(Current()), old(Contents(pushed)), old(sr.key.userID), Current())
      ensures Latest(old(Current()), old(sr.key.userID), lastModified)
      ensures ours == ChangesAfter(old(Current()), old(sr.lastModified), old(sr.key.userID))
      ensures Current() == MergeAll(old(Current()), old(Contents(pushed)), old(sr.key.userID))
      ensures |done| == |pushed|
      ensures forall i :: 0 <= i < |pushed| ==>
                (done[i] <==> NewestSoFar(old(Current()), old(Contents(pushed)), old(sr.key.userID), i))
    {
      var userID := sr.Row().key.userID;
      ours := GetChangesAfter(sr.lastModified, userID);
      lastModified := GetLastModified(userID);
      done := HandleChanges(pushed, userID);
    }

    /** Replaces all that a user has, unless there is nothing to replace it with. */
    method ReplaceAll(records: seq<UserDeviceSyncRecord>, userID: int)
      requires Valid()
      modifies this, records
      ensures Valid() && OthersKept(old(Current()), Current(), userID)
      ensures records == [] ==> Current() == old(Current())
      ensures records != [] ==> forall k :: ReplacedAt(old(Current()), old(Contents(records)), userID, Current(), k)
    {
      if |records| == 0 {
        return;
      }
      hide InsertKept, Cleared, Journaled, OthersKept, ReplacedAt;
      ghost var before, contents := Current(), Contents(records);
      ClearUser(userID);
      InsertAll(records, userID);
      ReplacedKeeps(before, contents, userID, Current());
    }

    /** Deletes all that a user has. */
    method ClearUser(userID: int)
      requires Valid()
      modifies this
      ensures Valid() && Current() == Cleared(old(Current()), userID)
    {
      rows := map k | k in rows && k.userID != userID :: rows[k];
      journal := map k | k in journal && k.userID != userID :: journal[k];
    }

    /** Inserts the records that have a state and a name, as this user's. */
    method InsertAll(records: seq<UserDeviceSyncRecord>, userID: int)
      requires Valid()
      modifies this, records
      ensures Valid() && Current() == InsertKept(old(Current()), old(Contents(records)), userID)
    {
      hide InsertKept, Journaled, OthersKept, Inserted;
      ghost var before, contents := Current(), Contents(records);
      InsertNothing(before, contents, userID);
      for i := 0 to |records|
        invariant Valid() && Current() == InsertKept(before, contents[..i], userID)
        invariant forall j :: 0 <= j < |records| ==>
                    records[j].Contents() == Owned(contents[j], userID) || records[j].Contents() == contents[j]
      {
        var row := records[i];
        InsertNext(before, contents, i, userID);
        if !HasDiscriminator(row.state) {
          continue;
        }
        var key := row.key.(userID := userID);
        row.SetKey(key);
        if |key.uniqueID| == 0 {
          continue;
        }
        var _ := Insert(row);
      }
      assert contents[..|records|] == contents;
    }

    method InsertRowIfRecent(row: UserDevice, lastModified: int) returns (done: bool)
      requires Valid()
      modifies this
      ensures Valid() && OthersKept(old(Current()), Current(), row.key.userID)
              && NeverLowered(old(Current()), Current())
      ensures done <==> Newer(old(Current()), row.key, lastModified)
      ensures Current() == if done
              then Inserted(old(Current()), Record(row.key, lastModified, row.state)) else old(Current())
    {
      var sr := new UserDeviceSyncRecord(row, lastModified);
      done := InsertIfRecent(sr);
    }

    method InsertOne(row: UserDevice, now: int) returns (lastModified: int)
      requires Valid()
      modifies this
      ensures Valid() && OthersKept(old(Current()), Current(), row.key.userID) && lastModified == now
      ensures Current() == Inserted(old(Current()), Record(row.key, now, row.state))
    {
      var sr := new UserDeviceSyncRecord(row, now);
      lastModified := Insert(sr);
    }

    method DeleteRowIfRecent(row: UserDevice, lastModified: int) returns (done: bool)
      requires Valid()
      modifies this
      ensures Valid() && OthersKept(old(Current()), Current(), row.key.userID)
              && NeverLowered(old(Current()), Current())
      ensures done <==> Newer(old(Current()), row.key, lastModified)
      ensures Current() == if done
              then Deleted(old(Current()), Record(row.key, lastModified, row.state)) else old(Current())
    {
      var sr := new UserDeviceSyncRecord(row, lastModified);
      done := DeleteIfRecent(sr);
    }

    method DeleteOne(row: UserDevice, now: int) returns (lastModified: int)
      requires Valid()
      modifies this
      ensures Valid() && OthersKept(old(Current()), Current(), row.key.userID) && lastModified == now
      ensures Current() == Deleted(old(Current()), Record(row.key, now, row.state))
    {
      var sr := new UserDeviceSyncRecord(row, now);
      lastModified := Delete(sr);
    }
  }
}
