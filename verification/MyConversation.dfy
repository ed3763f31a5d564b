/**
 * The hand-over of a conversation websocket from the code that opens the engine's wrapper to the message handler. The
 * handlers run one at a time, each up to its next `await`; `events` says in which order they happened to run.
 */
module MyConversation {
  /** What a websocket message parses to. */
  datatype Data<T> = Json(value: T) | Malformed

  /** Where the opening task is. */
  datatype Task = Opening | Draining | Done | Failed

  datatype State<T> = State(task: Task, isOpen: bool, wrapper: bool, destroying: bool, initQueue: seq<T>, next: nat,
                            handled: seq<T>)

  datatype Event<T> =
    | Message(data: Data<T>)
    | GotWrapper            // the engine answered: the opening task goes on, up to its first `await`
    | Resume                // the call that the opening task awaits came back
    | TaskFails             // what the opening task awaits was rejected
    | Close                 // the websocket closed
    | Destroyed             // destroying the wrapper came to an end

  function Start<T>(): State<T> {
    State(Opening, false, false, false, [], 0, [])
  }

  /** The opening task takes the next message of the live queue, or finds it exhausted and opens. */
  function Drain<T>(s: State<T>): State<T> {
    if s.next < |s.initQueue| then
      if s.wrapper then s.(task := Draining, next := s.next + 1, handled := s.handled + [s.initQueue[s.next]])
      else s.(task := Failed)
    else s.(task := Done, isOpen := true, initQueue := [], next := 0)
  }

  function Next<T>(s: State<T>, event: Event<T>): State<T> {
    match event
    case Message(Malformed) => s
    case Message(Json(value)) =>
      if !s.isOpen then s.(initQueue := s.initQueue + [value])
      else if s.wrapper then s.(handled := s.handled + [value])
      else s
    case GotWrapper => if s.task == Opening then Drain(s.(wrapper := true)) else s
    case Resume => if s.task == Draining then Drain(s) else s
    case TaskFails => if s.task == Opening || s.task == Draining then s.(task := Failed) else s
    case Close => if s.wrapper then s.(destroying := true) else s
    case Destroyed => if s.destroying then s.(wrapper := false, destroying := false) else s
  }

  function After<T>(events: seq<Event<T>>): State<T> {
    if events == [] then Start() else Next(After(events[..|events| - 1]), events[|events| - 1])
  }

  /** The messages that arrived and parsed, in order. */
  function Arrived<T>(events: seq<Event<T>>): seq<T> {
    if events == [] then []
    else
      var n := |events| - 1;
      Arrived(events[..n]) + Arrival(events[n])
  }

  function Arrival<T>(event: Event<T>): seq<T> {
    match event
    case Message(Json(value)) => [value]
    case _ => []
  }

  /** The variables that the handlers share, each handler a method. */
  class Conversation<T(0)> {
    var task: Task
    var isOpen: bool
    var wrapper: bool
    var destroying: bool
    var initQueue: seq<T>
    var next: nat
    var handled: seq<T>

    function Contents(): State<T>
      reads this
    {
      State(task, isOpen, wrapper, destroying, initQueue, next, handled)
    }

    constructor ()
      ensures Contents() == Start()
    {
      task, isOpen, wrapper, destroying, initQueue, next, handled := Opening, false, false, false, [], 0, [];
    }

    method Handle(msg: T)
      modifies this`handled
      ensures handled == old(handled) + [msg]
    {
      handled := handled + [msg];
    }

    method OnMessage(data: Data<T>)
      modifies this
      ensures Contents() == Next(old(Contents()), Message(data))
    {
      if data.Malformed? {
        return;
      }
      if isOpen {
        if !wrapper {
          return;
        }
        Handle(data.value);
      } else {
        initQueue := initQueue + [data.value];
      }
    }

    /** The loop over the queue, up to its next `await`. */
    method DrainOn()
      modifies this
      ensures Contents() == Drain(old(Contents()))
    {
      if next < |initQueue| {
        if !wrapper {
          task := Failed;
          return;
        }
        var msg := initQueue[next];
        task, next := Draining, next + 1;
        Handle(msg);
        return;
      }
      task, isOpen := Done, true;
      initQueue, next := [], 0;
    }

    method OnWrapper()
      requires task == Opening
      modifies this
      ensures Contents() == Next(old(Contents()), GotWrapper)
    {
      wrapper := true;
      DrainOn();
    }

    method OnResume()
      requires task == Draining
      modifies this
      ensures Contents() == Next(old(Contents()), Resume)
    {
      DrainOn();
    }

    method OnClose()
      modifies this
      ensures Contents() == Next(old(Contents()), Close)
    {
      if !wrapper {
        return;
      }
      destroying := true;
    }

    method OnDestroyed()
      requires destroying
      modifies this
      ensures Contents() == Next(old(Contents()), Destroyed)
    {
      wrapper, destroying := false, false;
    }
  }

  lemma Appended<T>(events: seq<Event<T>>, event: Event<T>)
    ensures After(events + [event]) == Next(After(events), event)
    ensures Arrived(events + [event]) == Arrived(events) + Arrival(event)
  {
    assert (events + [event])[..|events|] == events;
  }

  // ----- every run -----

  ghost predicate Inv<T>(s: State<T>, arrived: seq<T>) {
    && (s.isOpen <==> s.task == Done)
    && (s.task == Opening ==> !s.wrapper && s.next == 0)
    && (s.destroying ==> s.wrapper)
    && if s.isOpen then (s.handled <= arrived && (s.wrapper ==> s.handled == arrived))
       else (s.next <= |s.initQueue| && s.handled == s.initQueue[..s.next] && arrived == s.initQueue)
  }

  lemma {:induction false} RunInv<T>(events: seq<Event<T>>)
    ensures Inv(After(events), Arrived(events))
  {
    hide Next, Inv;
    if events == [] {
      StartInv<T>();
    } else {
      var n := |events| - 1;
      RunInv(events[..n]);
      StepKeeps(After(events[..n]), Arrived(events[..n]), events[n]);
    }
  }

  lemma StartInv<T>()
    ensures Inv<T>(Start(), [])
  {
  }

  lemma StepKeeps<T>(s: State<T>, arrived: seq<T>, event: Event<T>)
    requires Inv(s, arrived)
    ensures Inv(Next(s, event), arrived + Arrival(event))
  {
    assert arrived + [] == arrived;
    if s.next < |s.initQueue| {
      assert s.initQueue[..s.next + 1] == s.initQueue[..s.next] + [s.initQueue[s.next]];
    }
  }

  /**
   * Messages are handled in the order in which they arrive, each once and none skipped, however the run goes and ends.
   */
  lemma InOrderExactlyOnce<T>(events: seq<Event<T>>)
    ensures After(events).handled <= Arrived(events)
  {
    RunInv(events);
  }

  /** While the conversation is open, and until its wrapper is gone, everything that arrived has been handled. */
  lemma OpenHandlesAll<T>(events: seq<Event<T>>)
    ensures After(events).isOpen && After(events).wrapper ==> After(events).handled == Arrived(events)
  {
    RunInv(events);
  }

  function Resumes<T>(n: nat): (r: seq<Event<T>>)
    ensures |r| == n
  {
    seq(n, _ => Resume)
  }

  /**
   * Draining ends: once no more messages arrive, each call that comes back makes one more, and then the conversation
   * opens.
   */
  lemma {:induction false} DrainOpens<T>(events: seq<Event<T>>, n: nat)
    requires After(events).task == Draining && After(events).wrapper
    requires n == |After(events).initQueue| - After(events).next
    ensures var s := After(events + Resumes(n + 1)); s.isOpen && s.handled == Arrived(events)
    decreases n
  {
    var more := events + [Resume];
    assert more[..|events|] == events;
    RunInv(events);
    RunInv(more);
    if n == 0 {
      assert events + Resumes(1) == more;
    } else {
      DrainOpens(more, n - 1);
      assert events + Resumes(n + 1) == more + Resumes(n);
    }
  }

  /** From the first call on: as many calls that come back as messages were queued, and the conversation opens. */
  lemma QueueOpens<T>(events: seq<Event<T>>, n: nat)
    requires After(events).task == Opening && n == |After(events).initQueue|
    ensures var s := After(events + [GotWrapper] + Resumes(n)); s.isOpen && s.handled == Arrived(events)
  {
    var more := events + [GotWrapper];
    Appended(events, GotWrapper);
    RunInv(events);
    RunInv(more);
    if n == 0 {
      assert more + Resumes(0) == more;
    } else {
      DrainOpens(more, n - 1);
    }
  }

  /** A closed conversation is being destroyed until its wrapper is gone. */
  lemma {:induction false} CloseDestroys<T>(events: seq<Event<T>>, more: seq<Event<T>>)
    requires After(events).wrapper && forall i :: 0 <= i < |more| ==> !more[i].Destroyed?
    ensures After(events + [Close] + more).destroying
    ensures !After(events + [Close] + more + [Destroyed]).wrapper
  {
    hide After, Arrived;
    var closed := events + [Close];
    Appended(events, Close);
    if more == [] {
      assert closed + more == closed;
    } else {
      var n := |more| - 1;
      CloseDestroys(events, more[..n]);
      Appended(closed + more[..n], more[n]);
      assert closed + more == closed + more[..n] + [more[n]];
    }
    Appended(closed + more, Destroyed);
  }

  /** Once the opening task has failed, nothing more is handled. */
  lemma {:induction false} NothingAfterFailure<T>(events: seq<Event<T>>, more: seq<Event<T>>)
    requires After(events).task == Opening || After(events).task == Draining
    ensures var s := After(events + [TaskFails] + more);
            s.task == Failed && !s.isOpen && s.handled == After(events).handled
  {
    hide After, Arrived;
    var failed := events + [TaskFails];
    Appended(events, TaskFails);
    RunInv(events);
    if more == [] {
      assert failed + more == failed;
    } else {
      var n := |more| - 1;
      NothingAfterFailure(events, more[..n]);
      Appended(failed + more[..n], more[n]);
      assert failed + more == failed + more[..n] + [more[n]];
    }
  }

  /** Once the wrapper is gone, nothing is handled any more. */
  lemma {:induction false} NothingAfterDestroyed<T>(events: seq<Event<T>>, more: seq<Event<T>>)
    requires After(events).task != Opening && !After(events).wrapper
    ensures After(events + more).task != Opening && !After(events + more).wrapper
    ensures After(events + more).handled == After(events).handled
  {
    hide After, Arrived;
    if more == [] {
      assert events + more == events;
    } else {
      var n := |more| - 1;
      NothingAfterDestroyed(events, more[..n]);
      Appended(events + more[..n], more[n]);
      assert events + more == events + more[..n] + [more[n]];
    }
  }
}
