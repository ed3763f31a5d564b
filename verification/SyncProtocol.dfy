/**
 * Replicating one user's table between the server and a peer, over a network that may lose, repeat, delay and reorder
 * requests and responses. The peer pushes what the server has not acknowledged, and merges what the server answers.
 */
module SyncProtocol {
  import opened JsValues
  import opened SyncMerge
  import opened SyncTable

  /** Whose table it is, and the content each version of an entry has: equal timestamps mean equal content. */
  datatype Env = Env(user: int, truth: (string, int) -> Option<string>)

  datatype Request = Request(cursor: int, pushed: seq<Record>)

  datatype Response = Response(lastModified: int, ours: set<Record>, pushed: seq<Record>)

  /** Both replicas, the peer's cursor and unacknowledged entries, and every message ever sent. */
  datatype World = World(server: Tables, peer: Tables, cursor: int, pending: set<string>, requests: set<Request>,
                         responses: set<Response>)

  /** A version of one of the user's entries, with the content it has everywhere. */
  ghost predicate Genuine(e: Env, r: Record) {
    && r.key.uniqueID != "" && r.key.userID == e.user && r.lastModified > 0
    && SameContent(r.state, e.truth(r.key.uniqueID, r.lastModified))
  }

  function Stored(t: Tables, r: Record): Tables {
    if HasDiscriminator(r.state) then Inserted(t, r) else Deleted(t, r)
  }

  // ----- steps -----

  /** An update stamped by the server's clock, past everything it has for the user. */
  ghost predicate ServerWrite(e: Env, w: World, w': World, r: Record) {
    && Genuine(e, r)
    && (forall k :: k in w.server.journal && k.userID == e.user ==> w.server.journal[k] < r.lastModified)
    && w' == w.(server := Stored(w.server, r))
  }

  /** Anything another user does. */
  ghost predicate OtherUser(e: Env, w: World, w': World) {
    && (forall k: Key :: k.userID == e.user ==> SameAt(w.server, w'.server, k))
    && w' == w.(server := w'.server)
  }

  /** An update at the peer, newer than its own version but in any relation to the server's. */
  ghost predicate PeerEdit(e: Env, w: World, w': World, r: Record) {
    && Genuine(e, r) && Newer(w.peer, r.key, r.lastModified)
    && w' == w.(peer := Stored(w.peer, r), pending := w.pending + {r.key.uniqueID})
  }

  /** `pushed` lists the peer's unacknowledged entries, in any order. */
  ghost predicate Lists(e: Env, w: World, pushed: seq<Record>) {
    && (forall r :: r in pushed ==> r.key.userID == e.user && r.key.uniqueID in w.pending)
    && (forall r :: r in pushed ==> r.key in w.peer.journal && r == Joined(w.peer, r.key))
    && (forall id :: id in w.pending ==> exists r :: r in pushed && r.key == Key(id, e.user))
  }

  ghost predicate Send(e: Env, w: World, w': World, q: Request) {
    && q.cursor == w.cursor && Lists(e, w, q.pushed)
    && w' == w.(requests := w.requests + {q})
  }

  /** What `SyncAt` does for a request. */
  ghost predicate Serve(e: Env, w: World, w': World, q: Request, p: Response) {
    && q in w.requests
    && Latest(w.server, e.user, p.lastModified)
    && p.ours == ChangesAfter(w.server, q.cursor, e.user) && p.pushed == q.pushed
    && w' == w.(server := MergeAll(w.server, q.pushed, e.user), responses := w.responses + {p})
  }

  ghost predicate Acknowledged(e: Env, peer: Tables, p: Response, id: string) {
    exists r :: r in p.pushed && r.key.uniqueID == id
             && Key(id, e.user) in peer.journal && peer.journal[Key(id, e.user)] <= r.lastModified
  }

  ghost predicate Receive(e: Env, w: World, w': World, p: Response, ours: seq<Record>) {
    && p in w.responses && (forall r :: r in ours <==> r in p.ours)
    && w' == w.(
         peer := MergeAll(w.peer, ours, e.user),
         cursor := p.lastModified,
         pending := set id | id in w.pending && !Acknowledged(e, w.peer, p, id))
  }

  ghost predicate Step(e: Env, w: World, w': World) {
    || (exists r :: ServerWrite(e, w, w', r))
    || OtherUser(e, w, w')
    || (exists r :: PeerEdit(e, w, w', r))
    || (exists q :: Send(e, w, w', q))
    || (exists q, p :: Serve(e, w, w', q, p))
    || (exists p, ours :: Receive(e, w, w', p, ours))
  }

  /** Nothing of the user's anywhere, and nothing sent. */
  ghost predicate Init(e: Env, w: World) {
    && (forall k: Key :: k.userID == e.user ==> k !in w.server.journal && k !in w.server.rows)
    && (forall k: Key :: k.userID == e.user ==> k !in w.peer.journal && k !in w.peer.rows)
    && w.cursor == 0 && w.pending == {} && w.requests == {} && w.responses == {}
  }

  ghost predicate Run(e: Env, run: seq<World>) {
    && |run| > 0 && Init(e, run[0])
    && forall i :: 0 <= i < |run| - 1 ==> Step(e, run[i], run[i + 1])
  }

  // ----- the step that the server's code takes -----

  /** Objects with the contents of some records. */
  method NewRecords(records: seq<Record>) returns (rows: seq<UserDeviceSyncRecord>)
    ensures fresh(rows) && |rows| == |records|
    ensures Contents(rows) == records
  {
    rows := [];
    for i := 0 to |records|
      invariant |rows| == i && fresh(rows)
      invariant forall j :: 0 <= j < i ==> rows[j].Contents() == records[j]
    {
      var sr := new UserDeviceSyncRecord(UserDevice(records[i].key, records[i].state), records[i].lastModified);
      rows := rows + [sr];
    }
    assert Contents(rows) == records;
  }

  /** Handling a request with `SyncAt` is a step of the protocol, and leaves the table as the protocol says. */
  method HandleRequest(table: SyncTable, e: Env, ghost w: World, q: Request)
    returns (p: Response, ghost w': World)
    requires table.Valid() && table.Current() == w.server && q in w.requests
    modifies table
    ensures table.Valid() && table.Current() == w'.server
    ensures Serve(e, w, w', q, p) && Step(e, w, w')
  {
    hide MergeAll, ChangesAfter, Latest;
    var pushed := NewRecords(q.pushed);
    var sr := new UserDeviceSyncRecord(UserDevice(Key("", e.user), None), q.cursor);
    var lastModified, ours, done := table.SyncAt(sr, pushed);
    p := Response(lastModified, ours, q.pushed);
    w' := w.(server := table.Current(), responses := w.responses + {p});
  }

  // ----- what every step keeps -----

  ghost predicate AtLeast(t: Tables, k: Key, lastModified: int) {
    k in t.journal && lastModified <= t.journal[k]
  }

  /** `t` holds genuine versions of the user's entries and nothing else. */
  ghost predicate Conforms(e: Env, t: Tables) {
    forall k: Key :: k.userID == e.user ==> ConformsAt(e, t, k)
  }

  ghost predicate ConformsAt(e: Env, t: Tables, k: Key) {
    if k in t.journal
    then k.uniqueID != "" && t.journal[k] > 0 && Holds(t, k, Record(k, t.journal[k], e.truth(k.uniqueID, t.journal[k])))
    else k !in t.rows
  }

  /** Some entry of the server is as new as `c`. */
  ghost predicate Reached(e: Env, server: Tables, c: int) {
    c <= 0 || exists k :: k in server.journal && k.userID == e.user && c <= server.journal[k]
  }

  /** The peer has everything the server has up to `c`. */
  ghost predicate CaughtUp(e: Env, server: Tables, peer: Tables, c: int) {
    forall k :: k in server.journal && k.userID == e.user && server.journal[k] <= c ==>
      AtLeast(peer, k, server.journal[k])
  }

  /** With `ours`, the peer will have everything the server has up to `c`. */
  ghost predicate CatchesUp(e: Env, server: Tables, peer: Tables, ours: set<Record>, c: int) {
    forall k :: k in server.journal && k.userID == e.user && server.journal[k] <= c
      ==> || AtLeast(peer, k, server.journal[k])
          || exists r :: r in ours && r.key == k && server.journal[k] <= r.lastModified
  }

  /** `t` has taken in all of `records`, which are genuine. */
  ghost predicate Includes(e: Env, t: Tables, records: set<Record>) {
    forall r :: r in records ==> Genuine(e, r) && AtLeast(t, r.key, r.lastModified)
  }

  ghost predicate RequestInv(e: Env, server: Tables, peer: Tables, q: Request) {
    && Reached(e, server, q.cursor) && CaughtUp(e, server, peer, q.cursor)
    && Includes(e, peer, Elements(q.pushed))
  }

  ghost predicate ResponseInv(e: Env, server: Tables, peer: Tables, p: Response) {
    && Reached(e, server, p.lastModified) && CatchesUp(e, server, peer, p.ours, p.lastModified)
    && Includes(e, server, Elements(p.pushed)) && Includes(e, server, p.ours)
  }

  function Elements(s: seq<Record>): set<Record> {
    set r | r in s
  }

  /** What is not pending, the server has. */
  ghost predicate PendingInv(e: Env, w: World) {
    && (forall id :: id in w.pending ==> Key(id, e.user) in w.peer.journal)
    && (forall k :: k in w.peer.journal && k.userID == e.user && k.uniqueID !in w.pending ==>
        AtLeast(w.server, k, w.peer.journal[k]))
  }

  ghost predicate Inv(e: Env, w: World) {
    && Conforms(e, w.server) && Conforms(e, w.peer)
    && Reached(e, w.server, w.cursor) && CaughtUp(e, w.server, w.peer, w.cursor)
    && PendingInv(e, w)
    && (forall q :: q in w.requests ==> RequestInv(e, w.server, w.peer, q))
    && (forall p :: p in w.responses ==> ResponseInv(e, w.server, w.peer, p))
  }

  // ----- merging -----

  /** Merging leaves each key with its old version or one of the batch, and no older than either. */
  lemma MergeVersion(t: Tables, changes: seq<Record>, userID: int, k: Key)
    requires k.userID == userID && k.uniqueID != ""
    ensures var t' := MergeAll(t, changes, userID);
            SameAt(t, t', k) || exists r :: r in changes && r.key.uniqueID == k.uniqueID && Holds(t', k, r)
    ensures forall r :: r in changes && r.key.uniqueID == k.uniqueID ==>
            AtLeast(MergeAll(t, changes, userID), k, r.lastModified)
    ensures k in t.journal ==> AtLeast(MergeAll(t, changes, userID), k, t.journal[k])
  {
    MergeAllAt(t, changes, userID, k);
    MergeAllKeeps(t, changes, userID);
    var t' := MergeAll(t, changes, userID);
    if i :| Winner(t, changes, userID, k, i) && Holds(t', k, changes[i]) {
    } else {
      NoWinner(t, changes, userID, k);
    }
  }

  lemma MergeConforms(e: Env, t: Tables, changes: seq<Record>)
    requires Conforms(e, t) && forall r :: r in changes ==> Genuine(e, r)
    ensures Conforms(e, MergeAll(t, changes, e.user))
  {
    var t' := MergeAll(t, changes, e.user);
    forall k: Key | k.userID == e.user
      ensures ConformsAt(e, t', k)
    {
      if k.uniqueID == "" {
        MergeAllAt(t, changes, e.user, k);
      } else {
        MergeVersion(t, changes, e.user, k);
      }
      assert ConformsAt(e, t, k);
    }
  }

  lemma StoredConforms(e: Env, t: Tables, r: Record)
    requires Conforms(e, t) && Genuine(e, r)
    ensures Conforms(e, Stored(t, r))
  {
    forall k: Key | k.userID == e.user
      ensures ConformsAt(e, Stored(t, r), k)
    {
      assert ConformsAt(e, t, k);
    }
  }

  // ----- the server moves -----

  /** Every version the server gets is one the peer has, or newer than all it had. */
  ghost predicate ServerMoves(e: Env, server: Tables, server': Tables, peer: Tables) {
    forall k: Key :: k.userID == e.user ==>
      && (k in server.journal ==> AtLeast(server', k, server.journal[k]))
      && (k in server'.journal ==>
            || (k in server.journal && server.journal[k] == server'.journal[k])
            || AtLeast(peer, k, server'.journal[k])
            || BeyondAll(e, server, server'.journal[k]))
  }

  ghost predicate BeyondAll(e: Env, server: Tables, ts: int) {
    ts > 0 && forall k :: k in server.journal && k.userID == e.user ==> server.journal[k] < ts
  }

  lemma CursorKept(e: Env, server: Tables, server': Tables, peer: Tables, ours: set<Record>, c: int)
    requires ServerMoves(e, server, server', peer) && Reached(e, server, c)
    ensures Reached(e, server', c)
    ensures CaughtUp(e, server, peer, c) ==> CaughtUp(e, server', peer, c)
    ensures CatchesUp(e, server, peer, ours, c) ==> CatchesUp(e, server', peer, ours, c)
  {
    if k :| k in server.journal && k.userID == e.user && c <= server.journal[k] {
      assert AtLeast(server', k, server.journal[k]);
      assert c <= server'.journal[k];
    }
    assert forall k: Key :: k in server'.journal && BeyondAll(e, server, server'.journal[k]) ==> c < server'.journal[k];
  }

  lemma IncludesKept(e: Env, t: Tables, t': Tables, records: set<Record>)
    requires Includes(e, t, records)
    requires forall k :: k in t.journal && k.userID == e.user ==> AtLeast(t', k, t.journal[k])
    ensures Includes(e, t', records)
  {
  }

  lemma ServerKeeps(e: Env, w: World, server': Tables)
    requires Inv(e, w) && Conforms(e, server') && ServerMoves(e, w.server, server', w.peer)
    ensures Inv(e, w.(server := server'))
  {
    hide Conforms, Reached, CaughtUp, CatchesUp, Includes;
    CursorKept(e, w.server, server', w.peer, {}, w.cursor);
    forall q | q in w.requests
      ensures RequestInv(e, server', w.peer, q)
    {
      CursorKept(e, w.server, server', w.peer, {}, q.cursor);
    }
    forall p | p in w.responses
      ensures ResponseInv(e, server', w.peer, p)
    {
      CursorKept(e, w.server, server', w.peer, p.ours, p.lastModified);
      IncludesKept(e, w.server, server', p.ours);
      IncludesKept(e, w.server, server', Elements(p.pushed));
    }
  }

  // ----- the peer moves -----

  ghost predicate PeerMoves(e: Env, peer: Tables, peer': Tables) {
    forall k :: k in peer.journal && k.userID == e.user ==> AtLeast(peer', k, peer.journal[k])
  }

  lemma PeerKeeps(e: Env, w: World, peer': Tables)
    requires Inv(e, w) && PeerMoves(e, w.peer, peer')
    ensures CaughtUp(e, w.server, peer', w.cursor)
    ensures forall q :: q in w.requests ==> RequestInv(e, w.server, peer', q)
    ensures forall p :: p in w.responses ==> ResponseInv(e, w.server, peer', p)
  {
    forall p | p in w.responses
      ensures ResponseInv(e, w.server, peer', p)
    {
      assert ResponseInv(e, w.server, w.peer, p);
      CatchesUpKept(e, w.server, w.peer, peer', p.ours, p.lastModified);
    }
    forall q | q in w.requests
      ensures RequestInv(e, w.server, peer', q)
    {
      assert RequestInv(e, w.server, w.peer, q);
    }
  }

  lemma CatchesUpKept(e: Env, server: Tables, peer: Tables, peer': Tables, ours: set<Record>, c: int)
    requires CatchesUp(e, server, peer, ours, c) && PeerMoves(e, peer, peer')
    ensures CatchesUp(e, server, peer', ours, c)
  {
  }

  // ----- each step keeps the invariant -----

  lemma ServerWriteKeeps(e: Env, w: World, w': World, r: Record)
    requires Inv(e, w) && ServerWrite(e, w, w', r)
    ensures Inv(e, w')
  {
    StoredConforms(e, w.server, r);
    assert BeyondAll(e, w.server, r.lastModified);
    ServerKeeps(e, w, w'.server);
  }

  lemma OtherUserKeeps(e: Env, w: World, w': World)
    requires Inv(e, w) && OtherUser(e, w, w')
    ensures Inv(e, w')
  {
    forall k: Key | k.userID == e.user
      ensures ConformsAt(e, w'.server, k)
    {
      assert ConformsAt(e, w.server, k) && SameAt(w.server, w'.server, k);
    }
    assert ServerMoves(e, w.server, w'.server, w.peer) by {
      assert forall k: Key :: k.userID == e.user ==> SameAt(w.server, w'.server, k);
    }
    ServerKeeps(e, w, w'.server);
  }

  lemma PeerEditKeeps(e: Env, w: World, w': World, r: Record)
    requires Inv(e, w) && PeerEdit(e, w, w', r)
    ensures Inv(e, w')
  {
    StoredConforms(e, w.peer, r);
    PeerKeeps(e, w, w'.peer);
  }

  lemma SendKeeps(e: Env, w: World, w': World, q: Request)
    requires Inv(e, w) && Send(e, w, w', q)
    ensures Inv(e, w')
  {
    PushedGenuine(e, w, q.pushed);
    assert RequestInv(e, w.server, w.peer, q);
  }

  lemma PushedGenuine(e: Env, w: World, pushed: seq<Record>)
    requires Conforms(e, w.peer) && Lists(e, w, pushed)
    ensures Includes(e, w.peer, Elements(pushed))
  {
    forall r | r in pushed
      ensures Genuine(e, r) && AtLeast(w.peer, r.key, r.lastModified)
    {
      assert ConformsAt(e, w.peer, r.key);
    }
  }

  lemma ServeKeeps(e: Env, w: World, w': World, q: Request, p: Response)
    requires Inv(e, w) && Serve(e, w, w', q, p)
    ensures Inv(e, w')
  {
    assert RequestInv(e, w.server, w.peer, q);
    ServeMoves(e, w.server, w.peer, q.pushed);
    MergeConforms(e, w.server, q.pushed) by {
      assert forall r :: r in q.pushed ==> r in Elements(q.pushed);
    }
    ServerKeeps(e, w, w'.server);
    Answered(e, w, q, p);
  }

  lemma ServeMoves(e: Env, server: Tables, peer: Tables, pushed: seq<Record>)
    requires Conforms(e, server) && Includes(e, peer, Elements(pushed))
    ensures ServerMoves(e, server, MergeAll(server, pushed, e.user), peer)
  {
    var server' := MergeAll(server, pushed, e.user);
    forall k: Key | k.userID == e.user
      ensures k in server.journal ==> AtLeast(server', k, server.journal[k])
      ensures k in server'.journal ==>
              (k in server.journal && server.journal[k] == server'.journal[k]) || AtLeast(peer, k, server'.journal[k])
    {
      if k.uniqueID == "" {
        MergeAllAt(server, pushed, e.user, k);
      } else {
        MergeVersion(server, pushed, e.user, k);
        if r :| r in pushed && r.key.uniqueID == k.uniqueID && Holds(server', k, r) {
          assert r in Elements(pushed);
        }
      }
    }
  }

  /** The response to a request covers everything up to the timestamp it carries. */
  lemma Answered(e: Env, w: World, q: Request, p: Response)
    requires Inv(e, w) && RequestInv(e, w.server, w.peer, q)
    requires Latest(w.server, e.user, p.lastModified)
    requires p.ours == ChangesAfter(w.server, q.cursor, e.user) && p.pushed == q.pushed
    ensures ResponseInv(e, MergeAll(w.server, q.pushed, e.user), w.peer, p)
  {
    hide MergeAll;
    var server' := MergeAll(w.server, q.pushed, e.user);
    ServeMoves(e, w.server, w.peer, q.pushed);
    assert CatchesUp(e, w.server, w.peer, p.ours, p.lastModified) by {
      forall k | k in w.server.journal && k.userID == e.user
        ensures || AtLeast(w.peer, k, w.server.journal[k])
                || exists r :: r in p.ours && r.key == k && w.server.journal[k] <= r.lastModified
      {
        if w.server.journal[k] > q.cursor {
          assert Joined(w.server, k) in p.ours;
        }
      }
    }
    CursorKept(e, w.server, server', w.peer, p.ours, p.lastModified);
    assert Includes(e, w.server, p.ours) by {
      forall r | r in p.ours
        ensures Genuine(e, r) && AtLeast(w.server, r.key, r.lastModified)
      {
        assert ConformsAt(e, w.server, r.key);
      }
    }
    IncludesKept(e, w.server, server', p.ours);
    PushedIncluded(e, w.server, w.peer, q.pushed);
  }

  lemma PushedIncluded(e: Env, server: Tables, peer: Tables, pushed: seq<Record>)
    requires Includes(e, peer, Elements(pushed))
    ensures Includes(e, MergeAll(server, pushed, e.user), Elements(pushed))
  {
    forall r | r in pushed
      ensures Genuine(e, r) && AtLeast(MergeAll(server, pushed, e.user), r.key, r.lastModified)
    {
      assert r in Elements(pushed);
      MergeVersion(server, pushed, e.user, r.key);
    }
  }

  lemma ReceiveKeeps(e: Env, w: World, w': World, p: Response, ours: seq<Record>)
    requires Inv(e, w) && Receive(e, w, w', p, ours)
    ensures Inv(e, w')
  {
    assert ResponseInv(e, w.server, w.peer, p);
    MergeConforms(e, w.peer, ours);
    forall k | k in w.peer.journal && k.userID == e.user
      ensures AtLeast(w'.peer, k, w.peer.journal[k])
    {
      MergeAllKeeps(w.peer, ours, e.user);
    }
    PeerKeeps(e, w, w'.peer);
    ReceivedCaughtUp(e, w, p, ours);
    ReceivedPending(e, w, w', p, ours);
  }

  lemma ReceivedCaughtUp(e: Env, w: World, p: Response, ours: seq<Record>)
    requires Conforms(e, w.server) && CatchesUp(e, w.server, w.peer, p.ours, p.lastModified)
             && forall r :: r in ours <==> r in p.ours
    ensures CaughtUp(e, w.server, MergeAll(w.peer, ours, e.user), p.lastModified)
  {
    forall k | k in w.server.journal && k.userID == e.user && w.server.journal[k] <= p.lastModified
      ensures AtLeast(MergeAll(w.peer, ours, e.user), k, w.server.journal[k])
    {
      assert ConformsAt(e, w.server, k);
      MergeVersion(w.peer, ours, e.user, k);
    }
  }

  lemma ReceivedPending(e: Env, w: World, w': World, p: Response, ours: seq<Record>)
    requires Conforms(e, w'.peer) && PendingInv(e, w) && ResponseInv(e, w.server, w.peer, p)
             && Receive(e, w, w', p, ours)
    ensures PendingInv(e, w')
  {
    forall id | id in w'.pending
      ensures Key(id, e.user) in w'.peer.journal
    {
      MergeAllKeeps(w.peer, ours, e.user);
    }
    forall k | k in w'.peer.journal && k.userID == e.user && k.uniqueID !in w'.pending
      ensures AtLeast(w'.server, k, w'.peer.journal[k])
    {
      assert ConformsAt(e, w'.peer, k);
      MergeVersion(w.peer, ours, e.user, k);
      if r :| r in ours && r.key.uniqueID == k.uniqueID && Holds(w'.peer, k, r) {
        assert r in p.ours && r.key == k;
      } else if k.uniqueID in w.pending {
        var r :| r in p.pushed && r.key.uniqueID == k.uniqueID && w.peer.journal[k] <= r.lastModified;
        assert r in Elements(p.pushed) && r.key == k;
      }
    }
  }

  lemma StepKeeps(e: Env, w: World, w': World)
    requires Inv(e, w) && Step(e, w, w')
    ensures Inv(e, w')
  {
    hide Inv, ServerWrite, OtherUser, PeerEdit, Send, Serve, Receive;
    if r :| ServerWrite(e, w, w', r) {
      ServerWriteKeeps(e, w, w', r);
    } else if OtherUser(e, w, w') {
      OtherUserKeeps(e, w, w');
    } else if r :| PeerEdit(e, w, w', r) {
      PeerEditKeeps(e, w, w', r);
    } else if q :| Send(e, w, w', q) {
      SendKeeps(e, w, w', q);
    } else if q, p :| Serve(e, w, w', q, p) {
      ServeKeeps(e, w, w', q, p);
    } else {
      var p, ours :| Receive(e, w, w', p, ours);
      ReceiveKeeps(e, w, w', p, ours);
    }
  }

  lemma {:induction false} RunInv(e: Env, run: seq<World>)
    requires Run(e, run)
    ensures Inv(e, run[|run| - 1])
  {
    hide Step, Inv;
    if |run| == 1 {
      InitInv(e, run[0]);
    } else {
      var before := run[..|run| - 1];
      assert Run(e, before);
      RunInv(e, before);
      assert Step(e, run[|run| - 2], run[|run| - 2 + 1]);
      StepKeeps(e, run[|run| - 2], run[|run| - 1]);
    }
  }

  lemma InitInv(e: Env, w: World)
    requires Init(e, w)
    ensures Inv(e, w)
  {
  }

  // ----- main results -----

  /**
   * In every run, every server entry at or below the peer's cursor is dominated by the peer, and every acknowledged
   * peer entry by the server.
   */
  lemma NothingMissed(e: Env, run: seq<World>)
    requires Run(e, run)
    ensures var w := run[|run| - 1];
            && CaughtUp(e, w.server, w.peer, w.cursor)
            && forall k :: k in w.peer.journal && k.userID == e.user && k.uniqueID !in w.pending ==>
              AtLeast(w.server, k, w.peer.journal[k])
  {
    RunInv(e, run);
  }

  /** The last-writer-wins join of two replicas at a key. */
  ghost predicate JoinAt(a: Tables, b: Tables, t: Tables, k: Key) {
    if k in a.journal && (k in b.journal ==> b.journal[k] <= a.journal[k]) then SameAt(a, t, k)
    else SameAt(b, t, k)
  }

  /**
   * However a run went, and whatever is still in flight, one round in which the peer pushes what is pending and merges
   * the answer leaves both replicas with the join of what they had, and nothing pending.
   */
  lemma RoundConverges(e: Env, run: seq<World>, w1: World, w2: World, w3: World, q: Request, p: Response,
                       ours: seq<Record>)
    requires Run(e, run)
    requires Send(e, run[|run| - 1], w1, q) && Serve(e, w1, w2, q, p) && Receive(e, w2, w3, p, ours)
    ensures var w := run[|run| - 1];
            forall k: Key :: k.userID == e.user ==>
              JoinAt(w.server, w.peer, w3.server, k) && JoinAt(w.server, w.peer, w3.peer, k)
              && SameAt(w3.server, w3.peer, k)
    ensures w3.pending == {}
  {
    var w := run[|run| - 1];
    RunInv(e, run);
    SendKeeps(e, w, w1, q);
    ServeKeeps(e, w1, w2, q, p);
    ReceiveKeeps(e, w2, w3, p, ours);
    forall k: Key | k.userID == e.user
      ensures JoinAt(w.server, w.peer, w3.server, k) && JoinAt(w.server, w.peer, w3.peer, k)
              && SameAt(w3.server, w3.peer, k)
    {
      assert ConformsAt(e, w.server, k) && ConformsAt(e, w.peer, k) && ConformsAt(e, w3.server, k)
             && ConformsAt(e, w3.peer, k);
      if k.uniqueID != "" {
        ServerJoins(e, w, q, k);
        PeerJoins(e, w, p, ours, k);
      }
    }
    AllAcknowledged(e, w, w3, p);
  }

  /** `t` has the newer of both timestamps. */
  ghost predicate NewestAt(a: Tables, b: Tables, t: Tables, k: Key) {
    && (k in t.journal <==> k in a.journal || k in b.journal)
    && (k in t.journal ==>
          && (k in a.journal ==> a.journal[k] <= t.journal[k]) && (k in b.journal ==> b.journal[k] <= t.journal[k])
          && ((k in a.journal && a.journal[k] == t.journal[k]) || (k in b.journal && b.journal[k] == t.journal[k])))
  }

  lemma ServerJoins(e: Env, w: World, q: Request, k: Key)
    requires Inv(e, w) && Lists(e, w, q.pushed) && k.userID == e.user && k.uniqueID != ""
    ensures NewestAt(w.server, w.peer, MergeAll(w.server, q.pushed, e.user), k)
  {
    MergeVersion(w.server, q.pushed, e.user, k);
    if k.uniqueID in w.pending {
      var r :| r in q.pushed && r.key == Key(k.uniqueID, e.user);
      assert r.key == k && r == Joined(w.peer, k);
    }
  }

  lemma PeerJoins(e: Env, w: World, p: Response, ours: seq<Record>, k: Key)
    requires Inv(e, w) && k.userID == e.user && k.uniqueID != ""
    requires p.ours == ChangesAfter(w.server, w.cursor, e.user) && forall r :: r in ours <==> r in p.ours
    ensures NewestAt(w.server, w.peer, MergeAll(w.peer, ours, e.user), k)
  {
    MergeVersion(w.peer, ours, e.user, k);
    if k in w.server.journal && w.server.journal[k] > w.cursor {
      assert Joined(w.server, k) in p.ours;
    }
  }

  lemma AllAcknowledged(e: Env, w: World, w': World, p: Response)
    requires PendingInv(e, w) && Lists(e, w, p.pushed)
    requires w'.pending == set id | id in w.pending && !Acknowledged(e, w.peer, p, id)
    ensures w'.pending == {}
  {
    forall id | id in w.pending
      ensures Acknowledged(e, w.peer, p, id)
    {
      var r :| r in p.pushed && r.key == Key(id, e.user);
      assert r == Joined(w.peer, r.key);
    }
  }

  // ----- why the server's stamps must be past its journal -----

  /**
   * If the server stores a version that the peer lacks, whatever its stamp, the next round brings it to the peer if and
   * only if the stamp is past the peer's cursor; otherwise the replicas differ after the round.
   */
  lemma LearnsExactly(e: Env, w: World, r: Record, w1: World, w2: World, w3: World, q: Request, p: Response,
                      ours: seq<Record>)
    requires Genuine(e, r) && Newer(w.peer, r.key, r.lastModified)
    requires Send(e, w.(server := Stored(w.server, r)), w1, q) && Serve(e, w1, w2, q, p) && Receive(e, w2, w3, p, ours)
    ensures AtLeast(w3.server, r.key, r.lastModified)
    ensures AtLeast(w3.peer, r.key, r.lastModified) <==> w.cursor < r.lastModified
    ensures r.lastModified <= w.cursor ==> !SameAt(w3.server, w3.peer, r.key)
  {
    var server := Stored(w.server, r);
    MergeVersion(server, q.pushed, e.user, r.key);
    MergeVersion(w.peer, ours, e.user, r.key);
    if w.cursor < r.lastModified {
      assert Joined(server, r.key) in p.ours;
    }
  }
}
