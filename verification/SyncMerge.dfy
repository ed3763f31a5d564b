/** The two tables of a synchronised table as maps, and what merging a batch of records does to them. */
module SyncMerge {
  import opened JsValues

  datatype Key = Key(uniqueID: string, userID: int)

  /** A row table and its journal; a key with a journal entry and no row is a tombstone. */
  datatype Tables = Tables(rows: map<Key, Option<string>>, journal: map<Key, int>)

  /** The contents of a sync record. */
  datatype Record = Record(key: Key, lastModified: int, state: Option<string>)

  /** Records without a state are deletions. */
  predicate HasDiscriminator(state: Option<string>) {
    state.Some? && |state.value| > 0
  }

  predicate Newer(t: Tables, key: Key, lastModified: int) {
    key in t.journal ==> t.journal[key] < lastModified
  }

  function Inserted(t: Tables, r: Record): Tables {
    Tables(t.rows[r.key := r.state], t.journal[r.key := r.lastModified])
  }

  function Deleted(t: Tables, r: Record): Tables {
    Tables(t.rows - {r.key}, t.journal[r.key := r.lastModified])
  }

  /** A record as it is stored for a user, whatever user it claims to be from. */
  function Owned(r: Record, userID: int): Record {
    r.(key := Key(r.key.uniqueID, userID))
  }

  /** Whether merging applies a record. */
  predicate Applies(t: Tables, r: Record, userID: int) {
    r.key.uniqueID != "" && Newer(t, Owned(r, userID).key, r.lastModified)
  }

  function Merge(t: Tables, r: Record, userID: int): Tables {
    if !Applies(t, r, userID) then t
    else if HasDiscriminator(r.state) then Inserted(t, Owned(r, userID))
    else Deleted(t, Owned(r, userID))
  }

  function MergeAll(t: Tables, changes: seq<Record>, userID: int): Tables {
    if changes == [] then t
    else
      var n := |changes| - 1;
      Merge(MergeAll(t, changes[..n], userID), changes[n], userID)
  }

  // ----- what a batch does, without saying in which order -----

  /** Record `i` is the newest for its key in the batch, the first one of those, and newer than the journal. */
  ghost predicate Winner(t: Tables, changes: seq<Record>, userID: int, k: Key, i: int) {
    && 0 <= i < |changes|
    && k == Key(changes[i].key.uniqueID, userID) && k.uniqueID != ""
    && (k in t.journal ==> t.journal[k] < changes[i].lastModified)
    && (forall j :: 0 <= j < i && changes[j].key.uniqueID == k.uniqueID ==>
      changes[j].lastModified < changes[i].lastModified)
    && forall j :: i < j < |changes| && changes[j].key.uniqueID == k.uniqueID ==>
      changes[j].lastModified <= changes[i].lastModified
  }

  /** `k` holds exactly what the record says: a state that is not empty is its row, and without one there is no row. */
  ghost predicate Holds(t: Tables, k: Key, r: Record) {
    && k in t.journal && t.journal[k] == r.lastModified
    && if r.state.Some? && r.state.value != "" then k in t.rows && t.rows[k] == r.state else k !in t.rows
  }

  ghost predicate SameAt(t: Tables, t': Tables, k: Key) {
    && (k in t.journal <==> k in t'.journal) && (k in t.journal ==> t.journal[k] == t'.journal[k])
    && (k in t.rows <==> k in t'.rows) && (k in t.rows ==> t.rows[k] == t'.rows[k])
  }

  /** After merging, every key holds its winner, and keys without one are as before. */
  ghost predicate Merged(t: Tables, changes: seq<Record>, userID: int, t': Tables) {
    forall k :: MergedAt(t, changes, userID, t', k)
  }

  ghost predicate MergedAt(t: Tables, changes: seq<Record>, userID: int, t': Tables, k: Key) {
    if exists i :: Winner(t, changes, userID, k, i)
    then exists i :: Winner(t, changes, userID, k, i) && Holds(t', k, changes[i])
    else SameAt(t, t', k)
  }

  /** Equal timestamps on one key mean equal contents. */
  ghost predicate Consistent(changes: seq<Record>) {
    forall i, j :: 0 <= i < |changes| && 0 <= j < |changes|
      && changes[i].key.uniqueID == changes[j].key.uniqueID && changes[i].lastModified == changes[j].lastModified
      ==> SameContent(changes[i].state, changes[j].state)
  }

  ghost predicate SameContent(a: Option<string>, b: Option<string>) {
    if a.Some? && a.value != "" then a == b else b.None? || b.value == ""
  }

  lemma {:induction false} MergeAllAt(t: Tables, changes: seq<Record>, userID: int, k: Key)
    ensures MergedAt(t, changes, userID, MergeAll(t, changes, userID), k)
  {
    if changes != [] {
      var n := |changes| - 1;
      var before, r := changes[..n], changes[n];
      MergeAllAt(t, before, userID, k);
      var mid := MergeAll(t, before, userID);
      if k != Key(r.key.uniqueID, userID) || k.uniqueID == "" {
        OtherKey(mid, r, userID, k);
        WinnersSame(t, changes, userID, k);
        if i :| Winner(t, before, userID, k, i) && Holds(mid, k, before[i]) {
          assert Winner(t, changes, userID, k, i);
        } else {
          assert SameAt(t, mid, k);
        }
      } else {
        OwnKey(t, changes, userID, k);
      }
    }
  }

  lemma OtherKey(t: Tables, r: Record, userID: int, k: Key)
    requires k != Key(r.key.uniqueID, userID) || k.uniqueID == ""
    ensures SameAt(t, Merge(t, r, userID), k)
  {
  }

  lemma WinnersSame(t: Tables, changes: seq<Record>, userID: int, k: Key)
    requires changes != [] && (k != Key(changes[|changes| - 1].key.uniqueID, userID) || k.uniqueID == "")
    ensures forall i :: Winner(t, changes, userID, k, i) <==> Winner(t, changes[..|changes| - 1], userID, k, i)
  {
  }

  lemma OwnKey(t: Tables, changes: seq<Record>, userID: int, k: Key)
    requires changes != [] && k == Key(changes[|changes| - 1].key.uniqueID, userID) && k.uniqueID != ""
    requires var before := changes[..|changes| - 1];
             MergedAt(t, before, userID, MergeAll(t, before, userID), k)
    ensures MergedAt(t, changes, userID, MergeAll(t, changes, userID), k)
  {
    hide Holds, SameAt, Merge;
    var n := |changes| - 1;
    var before, r := changes[..n], changes[n];
    var mid := MergeAll(t, before, userID);
    if i :| Winner(t, before, userID, k, i) && Holds(mid, k, before[i]) {
      HeldTimestamp(mid, k, before[i]);
      if before[i].lastModified < r.lastModified {
        LastIsWinner(t, changes, userID, k, i);
        MergeHolds(mid, r, userID);
      } else {
        WinnerStays(t, changes, userID, k, i);
        MergeSkips(mid, r, userID);
      }
    } else {
      NoWinner(t, before, userID, k);
      SameTimestamp(t, mid, k);
      if Newer(t, k, r.lastModified) {
        OnlyLast(t, changes, userID, k);
        MergeHolds(mid, r, userID);
      } else {
        StillNoWinner(t, changes, userID, k);
        MergeSkips(mid, r, userID);
      }
    }
  }

  /** A record that is newer than its key's journal entry is what the key then holds. */
  lemma MergeHolds(t: Tables, r: Record, userID: int)
    requires r.key.uniqueID != "" && Newer(t, Key(r.key.uniqueID, userID), r.lastModified)
    ensures Holds(Merge(t, r, userID), Key(r.key.uniqueID, userID), r)
  {
  }

  lemma MergeSkips(t: Tables, r: Record, userID: int)
    requires !Newer(t, Key(r.key.uniqueID, userID), r.lastModified)
    ensures Merge(t, r, userID) == t
  {
  }

  lemma HeldTimestamp(t: Tables, k: Key, r: Record)
    requires Holds(t, k, r)
    ensures k in t.journal && t.journal[k] == r.lastModified
  {
  }

  lemma SameTimestamp(t: Tables, t': Tables, k: Key)
    requires SameAt(t, t', k)
    ensures forall ts :: Newer(t, k, ts) <==> Newer(t', k, ts)
  {
  }

  /** A last record that is newer than the winner so far wins. */
  lemma LastIsWinner(t: Tables, changes: seq<Record>, userID: int, k: Key, i: int)
    requires changes != [] && k == Key(changes[|changes| - 1].key.uniqueID, userID) && 0 <= i < |changes| - 1
    requires Winner(t, changes[..|changes| - 1], userID, k, i)
    requires changes[i].lastModified < changes[|changes| - 1].lastModified
    ensures Winner(t, changes, userID, k, |changes| - 1)
  {
    var before := changes[..|changes| - 1];
    assert before[i] == changes[i];
    forall j | 0 <= j < |changes| - 1 && changes[j].key.uniqueID == k.uniqueID
      ensures changes[j].lastModified < changes[|changes| - 1].lastModified
    {
      assert before[j] == changes[j];
    }
  }

  /** One that is not leaves it. */
  lemma WinnerStays(t: Tables, changes: seq<Record>, userID: int, k: Key, i: int)
    requires changes != [] && 0 <= i < |changes| - 1 && Winner(t, changes[..|changes| - 1], userID, k, i)
    requires changes[|changes| - 1].lastModified <= changes[i].lastModified
    ensures Winner(t, changes, userID, k, i)
  {
    var before := changes[..|changes| - 1];
    forall j | i < j < |changes| && changes[j].key.uniqueID == k.uniqueID
      ensures changes[j].lastModified <= changes[i].lastModified
    {
      assert j < |changes| - 1 ==> before[j] == changes[j];
    }
    forall j | 0 <= j < i && changes[j].key.uniqueID == k.uniqueID
      ensures changes[j].lastModified < changes[i].lastModified
    {
      assert before[j] == changes[j];
    }
  }

  /** A last record that is the only one newer than the journal wins. */
  lemma OnlyLast(t: Tables, changes: seq<Record>, userID: int, k: Key)
    requires changes != [] && k == Key(changes[|changes| - 1].key.uniqueID, userID) && k.uniqueID != ""
    requires Newer(t, k, changes[|changes| - 1].lastModified)
    requires NothingNewer(t, changes[..|changes| - 1], k)
    ensures Winner(t, changes, userID, k, |changes| - 1)
  {
    var before := changes[..|changes| - 1];
    forall j | 0 <= j < |changes| - 1 && changes[j].key.uniqueID == k.uniqueID
      ensures changes[j].lastModified < changes[|changes| - 1].lastModified
    {
      assert before[j] == changes[j];
    }
  }

  lemma StillNoWinner(t: Tables, changes: seq<Record>, userID: int, k: Key)
    requires changes != [] && !Newer(t, k, changes[|changes| - 1].lastModified)
    requires NothingNewer(t, changes[..|changes| - 1], k)
    ensures !exists i :: Winner(t, changes, userID, k, i)
  {
    forall i
      ensures !Winner(t, changes, userID, k, i)
    {
      if 0 <= i < |changes| - 1 {
        assert changes[..|changes| - 1][i] == changes[i];
      }
    }
  }

  /** Nothing in the batch is newer than the journal. */
  ghost predicate NothingNewer(t: Tables, changes: seq<Record>, k: Key) {
    forall j :: 0 <= j < |changes| && changes[j].key.uniqueID == k.uniqueID ==> !Newer(t, k, changes[j].lastModified)
  }

  /** That is so without a winner. */
  lemma NoWinner(t: Tables, changes: seq<Record>, userID: int, k: Key)
    requires k.userID == userID && k.uniqueID != "" && !exists i :: Winner(t, changes, userID, k, i)
    ensures NothingNewer(t, changes, k)
  {
    forall j | 0 <= j < |changes| && changes[j].key.uniqueID == k.uniqueID
      ensures !Newer(t, k, changes[j].lastModified)
    {
      if Newer(t, k, changes[j].lastModified) {
        var i := Newest(changes, k.uniqueID, j);
        assert Winner(t, changes, userID, k, i);
      }
    }
  }

  /** The first of the newest records with an id. */
  lemma {:induction false} Newest(changes: seq<Record>, id: string, j: nat) returns (i: nat)
    requires j < |changes| && changes[j].key.uniqueID == id
    ensures i < |changes| && changes[i].key.uniqueID == id && changes[j].lastModified <= changes[i].lastModified
    ensures forall l :: 0 <= l < |changes| && changes[l].key.uniqueID == id ==>
              changes[l].lastModified <= changes[i].lastModified
    ensures forall l :: 0 <= l < i && changes[l].key.uniqueID == id ==>
              changes[l].lastModified < changes[i].lastModified
  {
    i := j;
    for l := 0 to |changes|
      invariant i < |changes| && changes[i].key.uniqueID == id && changes[j].lastModified <= changes[i].lastModified
      invariant forall m :: 0 <= m < l && changes[m].key.uniqueID == id ==>
                  changes[m].lastModified <= changes[i].lastModified
      invariant forall m :: 0 <= m < l && m < i && changes[m].key.uniqueID == id ==>
                  changes[m].lastModified < changes[i].lastModified
    {
      var ts, top := changes[l].lastModified, changes[i].lastModified;
      if changes[l].key.uniqueID == id && (ts > top || (ts == top && l < i)) {
        i := l;
      }
    }
  }

  /** Merging a batch gives every key its newest version. */
  lemma MergeAllMerged(t: Tables, changes: seq<Record>, userID: int)
    ensures Merged(t, changes, userID, MergeAll(t, changes, userID))
  {
    forall k
      ensures MergedAt(t, changes, userID, MergeAll(t, changes, userID), k)
    {
      MergeAllAt(t, changes, userID, k);
    }
  }

  /** The outcome depends only on which records are in the batch: not on their order, and not on repetitions. */
  lemma OrderIndependent(t: Tables, a: seq<Record>, b: seq<Record>, userID: int)
    requires Consistent(a) && forall r :: r in a <==> r in b
    ensures MergeAll(t, a, userID) == MergeAll(t, b, userID)
  {
    hide Consistent, MergeAll;
    var x, y := MergeAll(t, a, userID), MergeAll(t, b, userID);
    forall k
      ensures SameAt(x, y, k)
    {
      MergeAllAt(t, a, userID, k);
      MergeAllAt(t, b, userID, k);
      if i :| Winner(t, a, userID, k, i) && Holds(x, k, a[i]) {
        WinnerMoves(t, a, b, userID, k, i);
        var j :| Winner(t, b, userID, k, j) && Holds(y, k, b[j]);
        EqualWinners(t, a, b, userID, k, i, j);
      } else {
        if j :| Winner(t, b, userID, k, j) {
          WinnerMoves(t, b, a, userID, k, j);
        }
      }
    }
    SameTables(x, y);
  }

  lemma EqualWinners(t: Tables, a: seq<Record>, b: seq<Record>, userID: int, k: Key, i: int, j: int)
    requires Consistent(a) && forall r :: r in a <==> r in b
    requires Winner(t, a, userID, k, i) && Winner(t, b, userID, k, j)
    ensures a[i].lastModified == b[j].lastModified && SameContent(a[i].state, b[j].state)
  {
    hide SameContent;
    assert b[j] in a && a[i] in b;
    var j' :| 0 <= j' < |a| && a[j'] == b[j];
    var i' :| 0 <= i' < |b| && b[i'] == a[i];
    assert a[j'].lastModified <= a[i].lastModified;
    assert b[i'].lastModified <= b[j].lastModified;
  }

  lemma WinnerMoves(t: Tables, a: seq<Record>, b: seq<Record>, userID: int, k: Key, i: int)
    requires Winner(t, a, userID, k, i) && forall r :: r in a <==> r in b
    ensures exists j :: Winner(t, b, userID, k, j)
  {
    assert a[i] in b;
    var l :| 0 <= l < |b| && b[l] == a[i];
    var j := Newest(b, k.uniqueID, l);
    assert Winner(t, b, userID, k, j);
  }

  lemma SameTables(t: Tables, t': Tables)
    requires forall k :: SameAt(t, t', k)
    ensures t == t'
  {
    assert forall k :: k in t.journal <==> k in t'.journal by {
      forall k ensures k in t.journal <==> k in t'.journal { assert SameAt(t, t', k); }
    }
    assert forall k :: k in t.rows <==> k in t'.rows by {
      forall k ensures k in t.rows <==> k in t'.rows { assert SameAt(t, t', k); }
    }
    forall k | k in t.journal ensures t.journal[k] == t'.journal[k] { assert SameAt(t, t', k); }
    forall k | k in t.rows ensures t.rows[k] == t'.rows[k] { assert SameAt(t, t', k); }
    assert t.journal == t'.journal && t.rows == t'.rows;
  }

  /** Splitting a batch changes nothing. */
  lemma {:induction false} Splits(t: Tables, a: seq<Record>, b: seq<Record>, userID: int)
    ensures MergeAll(t, a + b, userID) == MergeAll(MergeAll(t, a, userID), b, userID)
  {
    if b == [] {
      assert a + b == a;
    } else {
      var n := |b| - 1;
      Splits(t, a, b[..n], userID);
      assert (a + b)[..|a| + n] == a + b[..n];
    }
  }

  /** Merging a batch again changes nothing. */
  lemma Idempotent(t: Tables, a: seq<Record>, userID: int)
    requires Consistent(a)
    ensures MergeAll(MergeAll(t, a, userID), a, userID) == MergeAll(t, a, userID)
  {
    Splits(t, a, a, userID);
    OrderIndependent(t, a, a + a, userID);
  }

  /**
   * Record `i` of a batch is applied exactly when it has a name and is strictly newer than the journal and everything
   * before it for its key.
   */
  lemma {:induction false} AppliedExactly(t: Tables, changes: seq<Record>, userID: int, r: Record)
    ensures var k := Key(r.key.uniqueID, userID);
            Applies(MergeAll(t, changes, userID), r, userID) <==>
              && r.key.uniqueID != "" && (k in t.journal ==> t.journal[k] < r.lastModified)
              && forall j :: 0 <= j < |changes| && changes[j].key.uniqueID == r.key.uniqueID ==>
                changes[j].lastModified < r.lastModified
  {
    var k := Key(r.key.uniqueID, userID);
    var t' := MergeAll(t, changes, userID);
    MergeAllAt(t, changes, userID, k);
    if r.key.uniqueID != "" {
      if i :| Winner(t, changes, userID, k, i) && Holds(t', k, changes[i]) {
      } else {
        NoWinner(t, changes, userID, k);
      }
    }
  }

  // ----- what every merge keeps -----

  /** Each live row has a journal entry. */
  ghost predicate Journaled(t: Tables) {
    t.rows.Keys <= t.journal.Keys
  }

  lemma {:induction false} MergeAllKeeps(t: Tables, changes: seq<Record>, userID: int)
    ensures Journaled(t) ==> Journaled(MergeAll(t, changes, userID))
    ensures forall k: Key :: k.userID != userID ==> SameAt(t, MergeAll(t, changes, userID), k)
    ensures forall k :: k in t.journal ==>
            k in MergeAll(t, changes, userID).journal && t.journal[k] <= MergeAll(t, changes, userID).journal[k]
  {
    if changes != [] {
      MergeAllKeeps(t, changes[..|changes| - 1], userID);
    }
  }

  /**
   * Record `i` of a batch has a name, and is strictly newer than the journal and than everything before it for its key.
   */
  ghost predicate NewestSoFar(t: Tables, changes: seq<Record>, userID: int, i: int)
    requires 0 <= i < |changes|
  {
    var r := changes[i];
    var k := Key(r.key.uniqueID, userID);
    && r.key.uniqueID != "" && (k in t.journal ==> t.journal[k] < r.lastModified)
    && forall j :: 0 <= j < i && changes[j].key.uniqueID == r.key.uniqueID ==> changes[j].lastModified < r.lastModified
  }

  lemma AppliedNewest(t: Tables, changes: seq<Record>, userID: int, i: nat)
    requires i < |changes|
    ensures Applies(MergeAll(t, changes[..i], userID), changes[i], userID) <==> NewestSoFar(t, changes, userID, i)
  {
    hide MergeAll, Applies;
    AppliedExactly(t, changes[..i], userID, changes[i]);
    assert forall j :: 0 <= j < i ==> changes[..i][j] == changes[j];
  }
}
