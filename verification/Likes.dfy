/** The likes of examples, and the counter that each example keeps of its own. */
module Likes {
  import opened JsValues

  datatype LikeRow = LikeRow(exampleID: int, userID: int)

  datatype Tables = Tables(likeCount: map<int, int>, likes: set<LikeRow>)

  function Likers(likes: set<LikeRow>, exampleID: int): set<LikeRow> {
    set l | l in likes && l.exampleID == exampleID
  }

  /** Every counter is right, and only existing examples are liked. */
  ghost predicate Counted(t: Tables) {
    && (forall id :: id in t.likeCount ==> t.likeCount[id] == |Likers(t.likes, id)|)
    && (forall l :: l in t.likes ==> l.exampleID in t.likeCount)
  }

  /** The example tables; each method is a transaction. */
  class Examples {
    var likeCount: map<int, int>
    var likes: set<LikeRow>

    function Contents(): Tables
      reads this
    {
      Tables(likeCount, likes)
    }

    ghost predicate Valid()
      reads this
    {
      Counted(Contents())
    }

    constructor ()
      ensures Valid() && Contents() == Tables(map[], {})
    {
      likeCount, likes := map[], {};
    }

    /** One new example, with the count it is given or the column's default, 0. Only 0 keeps the counters right. */
    method Create(exampleID: int, given: Option<int>)
      requires Valid() && exampleID !in likeCount
      modifies this
      ensures likes == old(likes) && likeCount == old(likeCount)[exampleID := if given.Some? then given.value else 0]
      ensures Valid() <==> given.None? || given.value == 0
    {
      var n := if given.Some? then given.value else 0;
      NobodyLikes(Contents(), exampleID, n);
      likeCount := likeCount[exampleID := n];
    }

    /** New examples, each with the count reset. */
    method CreateMany(exampleIDs: seq<int>)
      requires Valid() && forall i :: 0 <= i < |exampleIDs| ==> exampleIDs[i] !in likeCount
      modifies this
      ensures Valid() && likes == old(likes)
      ensures likeCount.Keys == old(likeCount.Keys) + set i | 0 <= i < |exampleIDs| :: exampleIDs[i]
      ensures forall id :: id in old(likeCount) ==> likeCount[id] == old(likeCount)[id]
    {
      for k := 0 to |exampleIDs|
        invariant Valid() && likes == old(likes)
        invariant likeCount.Keys == old(likeCount.Keys) + set i | 0 <= i < k :: exampleIDs[i]
        invariant forall id :: id in old(likeCount) ==> likeCount[id] == old(likeCount)[id]
      {
        NoLikers(old(Contents()), exampleIDs[k]);
        likeCount := likeCount[exampleIDs[k] := 0];
      }
    }

    method Add(exampleID: int, n: int)
      modifies this`likeCount
      ensures likeCount == map id | id in old(likeCount) :: old(likeCount)[id] + if id == exampleID then n else 0
    {
      likeCount := map id | id in likeCount :: likeCount[id] + if id == exampleID then n else 0;
    }

    /** `insert ignore` leaves out a like that is there already, and one of an example that is not. */
    method InsertIgnore(like: LikeRow) returns (inserted: bool)
      modifies this`likes
      ensures inserted <==> like.exampleID in likeCount && like !in old(likes)
      ensures likes == if inserted then old(likes) + {like} else old(likes)
    {
      inserted := like.exampleID in likeCount && like !in likes;
      if inserted {
        likes := likes + {like};
      }
    }

    method Like(userID: int, exampleID: int) returns (inserted: bool)
      requires Valid()
      modifies this
      ensures Valid() && likeCount.Keys == old(likeCount.Keys)
      ensures inserted <==> exampleID in likeCount && LikeRow(exampleID, userID) !in old(likes)
      ensures Contents() == old(if inserted
                                then Tables(likeCount[exampleID := likeCount[exampleID] + 1],
                                            likes + {LikeRow(exampleID, userID)}) else Contents())
    {
      var like := LikeRow(exampleID, userID);
      LikersPlus(likes, like);
      inserted := InsertIgnore(like);
      if inserted {
        Add(exampleID, 1);
      }
    }

    method Unlike(userID: int, exampleID: int) returns (deleted: bool)
      requires Valid()
      modifies this
      ensures Valid() && likeCount.Keys == old(likeCount.Keys)
      ensures deleted <==> LikeRow(exampleID, userID) in old(likes)
      ensures Contents() == old(if deleted
                                then Tables(likeCount[exampleID := likeCount[exampleID] - 1],
                                            likes - {LikeRow(exampleID, userID)}) else Contents())
    {
      var like := LikeRow(exampleID, userID);
      deleted := like in likes;
      LikersMinus(likes, like);
      if deleted {
        Add(exampleID, -1);
      }
      likes := likes - {like};
    }

    /** Deleting an example deletes its likes along with it. */
    method DeleteById(exampleID: int)
      requires Valid()
      modifies this
      ensures Valid() && likeCount == old(likeCount) - {exampleID}
              && likes == old(likes) - Likers(old(likes), exampleID)
    {
      ghost var before := likes;
      likeCount := likeCount - {exampleID};
      likes := set l | l in likes && l.exampleID != exampleID;
      assert forall id :: id != exampleID ==> Likers(likes, id) == Likers(before, id);
    }

    /** The bulk decrement: one from every example that the user likes. */
    method DeleteAllLikesFromUser(userID: int)
      requires Valid()
      modifies this
      ensures Valid() && likes == (set l | l in old(likes) && l.userID != userID)
              && likeCount.Keys == old(likeCount.Keys)
    {
      ghost var before := likes;
      likeCount := map id | id in likeCount :: likeCount[id] - if LikeRow(id, userID) in likes then 1 else 0;
      likes := set l | l in likes && l.userID != userID;
      forall id | id in likeCount
        ensures likeCount[id] == |Likers(likes, id)|
      {
        var like := LikeRow(id, userID);
        assert Likers(likes, id) == Likers(before - {like}, id);
        LikersMinus(before, like);
      }
    }
  }

  lemma NoLikers(t: Tables, id: int)
    requires Counted(t) && id !in t.likeCount
    ensures Likers(t.likes, id) == {}
  {
  }

  /** A new counter is right exactly if it is 0. */
  lemma NobodyLikes(t: Tables, id: int, n: int)
    requires Counted(t) && id !in t.likeCount
    ensures Counted(Tables(t.likeCount[id := n], t.likes)) <==> n == 0
  {
    hide Likers;
    NoLikers(t, id);
    assert id in Tables(t.likeCount[id := n], t.likes).likeCount;
  }

  lemma LikersOf(likes: set<LikeRow>, like: LikeRow, id: int)
    ensures |Likers(likes + {like}, id)|
            == |Likers(likes, id)| + if like !in likes && id == like.exampleID then 1 else 0
  {
    var more := Likers(likes + {like}, id);
    if id == like.exampleID && like !in likes {
      assert more == Likers(likes, id) + {like};
      assert like !in Likers(likes, id);
    } else {
      assert more == Likers(likes, id);
    }
  }

  lemma LikersPlus(likes: set<LikeRow>, like: LikeRow)
    ensures forall id ::
              |Likers(likes + {like}, id)|
              == |Likers(likes, id)| + if like !in likes && id == like.exampleID then 1 else 0
  {
    hide Likers;
    forall id
      ensures |Likers(likes + {like}, id)|
              == |Likers(likes, id)| + if like !in likes && id == like.exampleID then 1 else 0
    {
      LikersOf(likes, like, id);
    }
  }

  lemma LikersMinus(likes: set<LikeRow>, like: LikeRow)
    ensures forall id ::
              |Likers(likes - {like}, id)|
              == |Likers(likes, id)| - if like in likes && id == like.exampleID then 1 else 0
  {
    hide Likers;
    LikersPlus(likes - {like}, like);
    if like in likes {
      assert likes - {like} + {like} == likes;
    } else {
      assert likes - {like} == likes;
    }
  }
}
