/** The hand-over of a cloud-sync websocket to the remote engine, which keeps less order than the conversation's. */
module CloudSync {
  datatype Data<T> = Text(text: T) | Binary

  datatype State<T> = State(remote: bool, stopped: bool, buffer: seq<T>, next: nat, relayed: seq<T>)

  datatype Event<T> =
    | Message(data: Data<T>)
    | SetRemote             // the engine answered: relays the first buffered message
    | Resume                // the call that `setRemote` awaits came back
    | RelayFails            // the call that `setRemote` awaits was rejected

  function Start<T>(): State<T> {
    State(false, false, [], 0, [])
  }

  function Drain<T>(s: State<T>): State<T> {
    if s.next < |s.buffer| then s.(next := s.next + 1, relayed := s.relayed + [s.buffer[s.next]])
      else s.(stopped := true)
  }

  function Next<T>(s: State<T>, event: Event<T>): State<T> {
    match event
    case Message(Binary) => s
    case Message(Text(text)) => if s.remote then s.(relayed := s.relayed + [text]) else s.(buffer := s.buffer + [text])
    case SetRemote => if s.remote then s else Drain(s.(remote := true))
    case Resume => if s.remote && !s.stopped then Drain(s) else s
    case RelayFails => s.(stopped := s.stopped || s.remote)
  }

  function After<T>(events: seq<Event<T>>): State<T> {
    if events == [] then Start() else Next(After(events[..|events| - 1]), events[|events| - 1])
  }

  function Arrived<T>(events: seq<Event<T>>): seq<T> {
    if events == [] then []
    else
      var n := |events| - 1;
      Arrived(events[..n]) + Arrival(events[n])
  }

  function Arrival<T>(event: Event<T>): seq<T> {
    match event
    case Message(Text(text)) => [text]
    case _ => []
  }

  lemma Appended<T>(events: seq<Event<T>>, event: Event<T>)
    ensures After(events + [event]) == Next(After(events), event)
    ensures Arrived(events + [event]) == Arrived(events) + Arrival(event)
  {
    assert (events + [event])[..|events|] == events;
  }

  class CloudSyncWebsocketDelegate<T(0)> {
    var remote: bool
    var stopped: bool
    var buffer: seq<T>
    var next: nat
    var relayed: seq<T>

    function Contents(): State<T>
      reads this
    {
      State(remote, stopped, buffer, next, relayed)
    }

    constructor ()
      ensures Contents() == Start()
    {
      remote, stopped, buffer, next, relayed := false, false, [], 0, [];
    }

    method OnMessage(data: Data<T>)
      modifies this
      ensures Contents() == Next(old(Contents()), Message(data))
    {
      if !data.Text? {
        return;
      }
      if remote {
        relayed := relayed + [data.text];
      } else {
        buffer := buffer + [data.text];
      }
    }

    /** The loop over the buffer, up to its next `await`. */
    method DrainOn()
      modifies this
      ensures Contents() == Drain(old(Contents()))
    {
      if next < |buffer| {
        next, relayed := next + 1, relayed + [buffer[next]];
      } else {
        stopped := true;
      }
    }

    method OnRemote()
      requires !remote
      modifies this
      ensures Contents() == Next(old(Contents()), SetRemote)
    {
      remote := true;
      DrainOn();
    }

    method OnResume()
      requires remote && !stopped
      modifies this
      ensures Contents() == Next(old(Contents()), Resume)
    {
      DrainOn();
    }
  }

  // ----- exactly once -----

  /** `s` takes the elements of `a` and of `b`, each in their order. */
  ghost predicate Shuffle<T>(s: seq<T>, a: seq<T>, b: seq<T>) {
    if s == [] then a == [] && b == []
    else
      var n, last := |s| - 1, s[|s| - 1];
      || (a != [] && a[|a| - 1] == last && Shuffle(s[..n], a[..|a| - 1], b))
      || (b != [] && b[|b| - 1] == last && Shuffle(s[..n], a, b[..|b| - 1]))
  }

  lemma ShuffleLeft<T>(s: seq<T>, a: seq<T>, b: seq<T>, x: T)
    requires Shuffle(s, a, b)
    ensures Shuffle(s + [x], a + [x], b)
  {
    assert (s + [x])[..|s|] == s && (a + [x])[..|a|] == a;
  }

  lemma ShuffleRight<T>(s: seq<T>, a: seq<T>, b: seq<T>, x: T)
    requires Shuffle(s, a, b)
    ensures Shuffle(s + [x], a, b + [x])
  {
    assert (s + [x])[..|s|] == s && (b + [x])[..|b|] == b;
  }

  lemma {:induction false} ShuffleCounts<T>(s: seq<T>, a: seq<T>, b: seq<T>)
    requires Shuffle(s, a, b)
    ensures multiset(s) == multiset(a) + multiset(b)
  {
    if s != [] {
      var n := |s| - 1;
      assert s == s[..n] + [s[n]];
      if a != [] && a[|a| - 1] == s[n] && Shuffle(s[..n], a[..|a| - 1], b) {
        assert a == a[..|a| - 1] + [a[|a| - 1]];
        ShuffleCounts(s[..n], a[..|a| - 1], b);
      } else {
        assert b == b[..|b| - 1] + [b[|b| - 1]];
        ShuffleCounts(s[..n], a, b[..|b| - 1]);
      }
    }
  }

  ghost predicate Inv<T>(s: State<T>, arrived: seq<T>) {
    && s.next <= |s.buffer| <= |arrived| && s.buffer == arrived[..|s.buffer|]
    && (!s.remote ==> s.next == 0 && s.relayed == [] && s.buffer == arrived && !s.stopped)
    && Shuffle(s.relayed, s.buffer[..s.next], arrived[|s.buffer|..])
  }

  lemma {:induction false} RunInv<T>(events: seq<Event<T>>)
    ensures Inv(After(events), Arrived(events))
  {
    if events != [] {
      var n := |events| - 1;
      RunInv(events[..n]);
      StepKeeps(After(events[..n]), Arrived(events[..n]), events[n]);
    }
  }

  lemma StepKeeps<T>(s: State<T>, arrived: seq<T>, event: Event<T>)
    requires Inv(s, arrived)
    ensures Inv(Next(s, event), arrived + Arrival(event))
  {
    hide Inv, Drain;
    assert arrived + [] == arrived;
    match event
    case Message(Text(text)) => MessageKeeps(s, arrived, text);
    case Message(Binary) =>
    case SetRemote =>
      if !s.remote {
        RemoteKeeps(s, arrived);
        DrainKeeps(s.(remote := true), arrived);
      }
    case Resume =>
      if s.remote {
        DrainKeeps(s, arrived);
      }
    case RelayFails => FailureKeeps(s, arrived);
  }

  lemma MessageKeeps<T>(s: State<T>, arrived: seq<T>, text: T)
    requires Inv(s, arrived)
    ensures Inv(Next(s, Message(Text(text))), arrived + [text])
  {
    hide Shuffle;
    var arrived' := arrived + [text];
    if s.remote {
      ShuffleRight(s.relayed, s.buffer[..s.next], arrived[|s.buffer|..], text);
      assert arrived'[|s.buffer|..] == arrived[|s.buffer|..] + [text];
    } else {
      assert arrived[|s.buffer|..] == [] == arrived'[|s.buffer| + 1..];
      assert s.buffer[..s.next] == [] == (s.buffer + [text])[..s.next];
    }
  }

  lemma RemoteKeeps<T>(s: State<T>, arrived: seq<T>)
    requires Inv(s, arrived)
    ensures Inv(s.(remote := true), arrived)
  {
  }

  lemma FailureKeeps<T>(s: State<T>, arrived: seq<T>)
    requires Inv(s, arrived)
    ensures Inv(s.(stopped := s.stopped || s.remote), arrived)
  {
  }

  lemma DrainKeeps<T>(s: State<T>, arrived: seq<T>)
    requires s.remote && Inv(s, arrived)
    ensures Inv(Drain(s), arrived)
  {
    hide Shuffle;
    if s.next < |s.buffer| {
      ShuffleLeft(s.relayed, s.buffer[..s.next], arrived[|s.buffer|..], s.buffer[s.next]);
      assert s.buffer[..s.next + 1] == s.buffer[..s.next] + [s.buffer[s.next]];
    }
  }

  /**
   * What is relayed are the first buffered messages and all direct ones, either group in the order of arrival and each
   * message once; with what is still buffered, they are all that arrived.
   */
  lemma ExactlyOnce<T>(events: seq<Event<T>>)
    ensures var s, arrived := After(events), Arrived(events);
            && s.next <= |s.buffer| <= |arrived| && s.buffer == arrived[..|s.buffer|]
            && Shuffle(s.relayed, s.buffer[..s.next], arrived[|s.buffer|..])
            && multiset(s.relayed) + multiset(s.buffer[s.next..]) == multiset(arrived)
  {
    RunInv(events);
    Counts(After(events), Arrived(events));
  }

  lemma Counts<T>(s: State<T>, arrived: seq<T>)
    requires Inv(s, arrived)
    ensures multiset(s.relayed) + multiset(s.buffer[s.next..]) == multiset(arrived)
  {
    hide Shuffle;
    var direct := arrived[|s.buffer|..];
    ShuffleCounts(s.relayed, s.buffer[..s.next], direct);
    Concatenated(s.buffer[..s.next], s.buffer[s.next..], s.buffer);
    Concatenated(s.buffer, direct, arrived);
  }

  lemma Concatenated<T>(a: seq<T>, b: seq<T>, s: seq<T>)
    requires s == a + b
    ensures multiset(s) == multiset(a) + multiset(b)
  {
  }

  // ----- when the order is kept -----

  /** A message arrived after the remote was set and before the buffer was relayed. */
  ghost predicate Overtakes<T>(events: seq<Event<T>>) {
    exists i :: 0 <= i < |events| && OvertakesAt(events, i)
  }

  ghost predicate OvertakesAt<T>(events: seq<Event<T>>, i: nat)
    requires i < |events|
  {
    var s := After(events[..i]);
    events[i].Message? && events[i].data.Text? && s.remote && s.next < |s.buffer|
  }

  ghost predicate Distinct<T>(s: seq<T>) {
    forall i, j :: 0 <= i < j < |s| ==> s[i] != s[j]
  }

  /** Relaying keeps the order of arrival if and only if no message overtakes the buffered ones. */
  lemma InOrderExactly<T>(events: seq<Event<T>>)
    requires Distinct(Arrived(events))
    ensures After(events).relayed <= Arrived(events) <==> !Overtakes(events)
  {
    if Overtakes(events) {
      var i :| 0 <= i < |events| && OvertakesAt(events, i);
      Overtaken(events, i);
    } else {
      InOrder(events);
    }
  }

  /** While the buffer is relayed, its first messages are all that is; after that, everything that arrived is. */
  ghost predicate Ordered<T>(s: State<T>, arrived: seq<T>)
    requires s.next <= |s.buffer|
  {
    s.relayed == if s.remote && s.next == |s.buffer| then arrived else s.buffer[..s.next]
  }

  lemma {:induction false} InOrder<T>(events: seq<Event<T>>)
    requires !Overtakes(events)
    ensures Inv(After(events), Arrived(events)) && After(events).next <= |After(events).buffer|
            && Ordered(After(events), Arrived(events))
  {
    hide Inv, Ordered, Next;
    RunInv(events);
    if events == [] {
      NothingYet<T>();
    } else {
      var n := |events| - 1;
      assert !OvertakesAt(events, n);
      forall i | 0 <= i < n
        ensures !OvertakesAt(events[..n], i)
      {
        assert events[..n][..i] == events[..i];
        assert !OvertakesAt(events, i);
      }
      InOrder(events[..n]);
      StepOrdered(After(events[..n]), Arrived(events[..n]), events[n]);
    }
  }

  lemma NothingYet<T>()
    ensures Ordered<T>(Start(), [])
  {
  }

  lemma StepOrdered<T>(s: State<T>, arrived: seq<T>, event: Event<T>)
    requires Inv(s, arrived) && Ordered(s, arrived)
    requires !(event.Message? && event.data.Text? && s.remote && s.next < |s.buffer|)
    ensures Ordered(Next(s, event), arrived + Arrival(event))
  {
    hide Shuffle;
    assert arrived + [] == arrived;
    if s.next < |s.buffer| {
      assert s.buffer[..s.next + 1] == s.buffer[..s.next] + [s.buffer[s.next]];
    }
    ShuffleLength(s.relayed, s.buffer[..s.next], arrived[|s.buffer|..]);
  }

  /** Something is relayed before a message that arrived earlier. */
  ghost predicate Swapped<T>(relayed: seq<T>, arrived: seq<T>) {
    exists p, q :: 0 <= p < q < |arrived| && p < |relayed| && relayed[p] == arrived[q]
  }

  /** A message that overtakes is relayed before one that arrived earlier, for good. */
  lemma {:induction false} Overtaken<T>(events: seq<Event<T>>, i: nat)
    requires i < |events| && OvertakesAt(events, i)
    ensures Swapped(After(events).relayed, Arrived(events))
  {
    hide Next, Swapped, Inv;
    var n := |events| - 1;
    RunInv(events[..n]);
    if i == n {
      OvertakenNow(After(events[..n]), Arrived(events[..n]), events[n]);
    } else {
      assert events[..n][..i] == events[..i];
      Overtaken(events[..n], i);
      StaysSwapped(After(events[..n]), Arrived(events[..n]), events[n]);
    }
  }

  lemma OvertakenNow<T>(s: State<T>, arrived: seq<T>, event: Event<T>)
    requires Inv(s, arrived) && event.Message? && event.data.Text? && s.remote && s.next < |s.buffer|
    ensures Swapped(Next(s, event).relayed, arrived + Arrival(event))
  {
    ShuffleLength(s.relayed, s.buffer[..s.next], arrived[|s.buffer|..]);
    hide Shuffle;
    var relayed, arrived' := Next(s, event).relayed, arrived + Arrival(event);
    assert relayed[|s.relayed|] == arrived'[|arrived|];
  }

  lemma StaysSwapped<T>(s: State<T>, arrived: seq<T>, event: Event<T>)
    requires Swapped(s.relayed, arrived)
    ensures Swapped(Next(s, event).relayed, arrived + Arrival(event))
  {
    var p, q :| 0 <= p < q < |arrived| && p < |s.relayed| && s.relayed[p] == arrived[q];
    assert Next(s, event).relayed[p] == (arrived + Arrival(event))[q];
  }

  lemma {:induction false} ShuffleLength<T>(s: seq<T>, a: seq<T>, b: seq<T>)
    requires Shuffle(s, a, b)
    ensures |s| == |a| + |b|
  {
    if s != [] {
      if a != [] && a[|a| - 1] == s[|s| - 1] && Shuffle(s[..|s| - 1], a[..|a| - 1], b) {
        ShuffleLength(s[..|s| - 1], a[..|a| - 1], b);
      } else {
        ShuffleLength(s[..|s| - 1], a, b[..|b| - 1]);
      }
    }
  }

  /** Two messages that arrive before the remote is set, and one before the second of them was relayed. */
  lemma OrderIsLost()
    ensures var events := [Message(Text(1)), Message(Text(2)), SetRemote, Message(Text(3)), Resume];
            After(events).relayed == [1, 3, 2] && Arrived(events) == [1, 2, 3]
  {
    var none: seq<Event<int>> := [];
    var one := none + [Message(Text(1))];
    var two := one + [Message(Text(2))];
    var ready := two + [SetRemote];
    var three := ready + [Message(Text(3))];
    Appended(none, Message(Text(1)));
    Appended(one, Message(Text(2)));
    Appended(two, SetRemote);
    Appended(ready, Message(Text(3)));
    Appended(three, Resume);
    assert three + [Resume] == [Message(Text(1)), Message(Text(2)), SetRemote, Message(Text(3)), Resume];
  }

  // ----- the buffer is relayed to its end -----

  function Resumes<T>(n: nat): (r: seq<Event<T>>)
    ensures |r| == n
  {
    seq(n, _ => Resume)
  }

  /**
   * While `setRemote` goes on, as many calls that come back as there are messages left relay the whole buffer, and then
   * everything that has arrived is relayed.
   */
  lemma {:induction false} DrainFinishes<T>(events: seq<Event<T>>, n: nat)
    requires After(events).remote && !After(events).stopped && n == |After(events).buffer| - After(events).next
    ensures var s, s' := After(events), After(events + Resumes(n));
            && s'.next == |s'.buffer| && s'.buffer == s.buffer && s'.remote && !s'.stopped
            && multiset(s'.relayed) == multiset(Arrived(events))
    decreases n
  {
    hide After, Arrived, Shuffle;
    if n == 0 {
      assert events + Resumes(0) == events;
      ExactlyOnce(events);
      assert After(events).buffer[After(events).next..] == [];
    } else {
      var more := events + [Resume];
      Appended(events, Resume);
      assert Arrived(more) == Arrived(events) + [] == Arrived(events);
      DrainFinishes(more, n - 1);
      assert events + Resumes(n) == more + Resumes(n - 1);
    }
  }

  lemma Stopped<T>(s: State<T>, event: Event<T>)
    requires s.remote
    ensures Next(s, RelayFails) == s.(stopped := true)
    ensures s.stopped ==> Next(s, event) == s.(relayed := s.relayed + Arrival(event))
  {
  }

  /** After a rejected call no more of the buffer is relayed, and messages that arrive still are. */
  lemma {:induction false} FailureStops<T>(events: seq<Event<T>>, more: seq<Event<T>>)
    requires After(events).remote
    ensures var s, s' := After(events), After(events + [RelayFails] + more);
            && s'.stopped && s'.remote && s'.next == s.next && s'.buffer == s.buffer
            && s'.relayed == s.relayed + Arrived(more)
  {
    hide Next;
    var failed := events + [RelayFails];
    Appended(events, RelayFails);
    if more == [] {
      assert failed + more == failed;
      Stopped(After(events), Message(Binary));
    } else {
      var n := |more| - 1;
      FailureStops(events, more[..n]);
      Appended(failed + more[..n], more[n]);
      assert failed + more[..n] + [more[n]] == failed + more;
      Stopped(After(failed + more[..n]), more[n]);
    }
  }
}
