/** The QGIS wrapper's work queue: many handler threads put items, one main
    thread executes them, and each handler waits for its own item until it is
    done or the wait times out. */
module WorkQueue {
  import opened Text

  datatype Worker = DroneProject | BasemapAttach | FieldProject

  function WorkerFor(endpoint: string): Worker {
    if endpoint == "drone" then DroneProject
    else if endpoint == "basemap" then BasemapAttach
    else FieldProject
  }

  datatype Result = Produced(value: string) | Failed(message: string)

  /** A work item; handlers are identified with the items they put. */
  datatype Item = Item(endpoint: string, args: string, result: Option<Result>, done: bool)

  datatype Reply = TimedOut | Answered(result: Option<Result>)

  /** One execution that ran to its end. */
  datatype Execution = Execution(id: nat, worker: Worker, args: string, result: Result)

  /** Where the main thread is with its item: it has just taken it, its work
      function runs, or that has ended, by an interrupt or not, and the event
      is about to be set. */
  datatype Phase = Taken | Executing | Signalling(interrupted: bool)

  datatype Running = Running(id: nat, phase: Phase)

  /** `started` and `history` record what the main thread did. */
  datatype State = State(
    items: seq<Item>,
    queue: seq<nat>,
    running: Option<Running>,
    replies: map<nat, Reply>,
    stopped: bool,
    started: seq<nat>,
    history: seq<Execution>)

  /** Storing the result and setting the event are steps of their own: a
      handler's wait may end in between. An interrupt may hit the main thread
      anywhere. Before the guarded block, or inside the final block and before
      the event, it takes the thread past the event, which is never set. */
  datatype Event =
    | Put(endpoint: string, args: string)
    | Wake(id: nat)      // the wait returns because the event is set
    | Timeout(id: nat)   // the wait returns without it, possibly just too early
    | Get
    | Enter              // the guarded block is entered
    | StoreResult(result: Result)
    | Interrupt(inFinal: bool)
    | SetEvent

  /** An event that is not possible in a state does nothing there. */
  function Next(s: State, e: Event): State {
    match e
    case Put(endpoint, args) =>
      s.(items := s.items + [Item(endpoint, args, None, false)], queue := s.queue + [|s.items|])
    case Wake(id) =>
      if id < |s.items| && id !in s.replies && s.items[id].done
      then s.(replies := s.replies[id := Answered(s.items[id].result)]) else s
    case Timeout(id) =>
      if id < |s.items| && id !in s.replies then s.(replies := s.replies[id := TimedOut]) else s
    case Get =>
      if s.running.Some? || s.stopped || s.queue == [] then s
      else s.(running := Some(Running(s.queue[0], Taken)), queue := s.queue[1..],
              started := s.started + [s.queue[0]])
    case Enter =>
      if s.running.Some? && s.running.value.phase == Taken
      then s.(running := Some(s.running.value.(phase := Executing))) else s
    case StoreResult(result) =>
      if s.running.Some? && s.running.value.phase == Executing && s.running.value.id < |s.items|
      then Stored(s, s.running.value.id, result) else s
    case Interrupt(inFinal) =>
      if s.running.None? then s.(stopped := true)
      else if s.running.value.phase == Taken || (s.running.value.phase.Signalling? && inFinal)
      then s.(running := None, stopped := true)
      else s.(running := Some(s.running.value.(phase := Signalling(true))))
    case SetEvent =>
      if s.running.Some? && s.running.value.phase.Signalling? && s.running.value.id < |s.items|
      then Signalled(s, s.running.value.id, s.running.value.phase.interrupted) else s
  }

  function Stored(s: State, i: nat, result: Result): State
    requires i < |s.items|
  {
    var item := s.items[i];
    s.(items := s.items[i := item.(result := Some(result))],
       running := Some(Running(i, Signalling(false))),
       history := s.history + [Execution(i, WorkerFor(item.endpoint), item.args, result)])
  }

  function Signalled(s: State, i: nat, interrupted: bool): State
    requires i < |s.items|
  {
    s.(items := s.items[i := s.items[i].(done := true)], running := None, stopped := interrupted)
  }

  function Run(s: State, events: seq<Event>): State {
    if events == [] then s else Next(Run(s, events[..|events| - 1]), events[|events| - 1])
  }

  // ---- the invariant ----

  /** Items are started once each and in the order they were put. */
  predicate InOrder(s: State) {
    && |s.started| + |s.queue| == |s.items|
    && (forall k :: 0 <= k < |s.started| ==> s.started[k] == k)
    && (forall k :: 0 <= k < |s.queue| ==> s.queue[k] == |s.started| + k)
  }

  /** Only the item started last can be in execution. All before it are done
      and none after it is; it is itself unless it is in execution or the main
      loop was stopped with it. */
  predicate OneAtATime(s: State) {
    && |s.started| <= |s.items|
    && (s.running.Some? ==> s.running.value.id == |s.started| - 1 && !s.stopped)
    && (forall i :: 0 <= i < |s.started| - 1 ==> s.items[i].done)
    && (forall i :: |s.started| <= i < |s.items| ==> !s.items[i].done)
    && (s.running.Some? ==> !s.items[|s.started| - 1].done)
    && (s.running.None? && !s.stopped && s.started != [] ==> s.items[|s.started| - 1].done)
  }

  /** The k-th completed execution is that of the k-th item, by the worker its
      endpoint names, on its own arguments, and its result is the item's; the
      items without one have no result. */
  predicate HistoryOk(s: State) {
    && |s.history| <= |s.items|
    && (forall k :: 0 <= k < |s.history| ==>
         var item := s.items[k];
         s.history[k] == Execution(k, WorkerFor(item.endpoint), item.args, s.history[k].result)
         && item.result == Some(s.history[k].result))
    && forall i :: |s.history| <= i < |s.items| ==> s.items[i].result.None?
  }

  /** Every item started has completed, except one still executing or
      interrupted. */
  predicate Completed(s: State) {
    && |s.started| - 1 <= |s.history| <= |s.started|
    && (s.running.Some? && !s.running.value.phase.Signalling? ==> |s.history| == |s.started| - 1)
    && (|s.history| < |s.started| ==> s.stopped || (s.running.Some? && s.running.value.phase != Signalling(false)))
  }

  /** A reply is a timeout or what the handler's own done item holds. */
  predicate RepliesOk(s: State) {
    forall h :: h in s.replies ==>
      h < |s.items| && (s.replies[h] == TimedOut
                        || (s.items[h].done && s.replies[h] == Answered(s.items[h].result)))
  }

  predicate Ok(s: State) {
    InOrder(s) && OneAtATime(s) && HistoryOk(s) && Completed(s) && RepliesOk(s)
  }

  lemma PutEffect(s: State, endpoint: string, args: string)
    requires Ok(s)
    ensures var t := Next(s, Put(endpoint, args));
            && Ok(t) && t.running == s.running && t.started == s.started
            && t.items == s.items + [Item(endpoint, args, None, false)]
            && t.queue == s.queue + [|s.items|] && |s.items| == |s.started| + |s.queue|
  {
  }

  lemma TakeKeepsOk(s: State)
    requires Ok(s)
    ensures Ok(Next(s, Get)) && Ok(Next(s, Enter))
  {
  }

  lemma StoreKeepsOk(s: State, result: Result)
    requires Ok(s)
    ensures Ok(Next(s, StoreResult(result)))
  {
  }

  lemma SetKeepsOk(s: State)
    requires Ok(s)
    ensures Ok(Next(s, SetEvent))
  {
  }

  lemma WakeKeepsOk(s: State, id: nat)
    requires Ok(s)
    ensures Ok(Next(s, Wake(id)))
  {
  }

  lemma TimeoutKeepsOk(s: State, id: nat)
    requires Ok(s)
    ensures Ok(Next(s, Timeout(id)))
  {
  }

  lemma InterruptKeepsOk(s: State, inFinal: bool)
    requires Ok(s)
    ensures Ok(Next(s, Interrupt(inFinal)))
  {
  }

  lemma NextKeepsOk(s: State, e: Event)
    requires Ok(s)
    ensures Ok(Next(s, e))
  {
    hide Ok, Next;
    match e
    case Put(endpoint, args) => PutEffect(s, endpoint, args);
    case Wake(id) => WakeKeepsOk(s, id);
    case Timeout(id) => TimeoutKeepsOk(s, id);
    case Get => TakeKeepsOk(s);
    case Enter => TakeKeepsOk(s);
    case StoreResult(result) => StoreKeepsOk(s, result);
    case Interrupt(inFinal) => InterruptKeepsOk(s, inFinal);
    case SetEvent => SetKeepsOk(s);
  }

  lemma {:induction false} RunKeepsOk(s: State, events: seq<Event>)
    requires Ok(s)
    ensures Ok(Run(s, events))
  {
    hide Ok, Next;
    if events != [] {
      RunKeepsOk(s, events[..|events| - 1]);
      NextKeepsOk(Run(s, events[..|events| - 1]), events[|events| - 1]);
    }
  }

  /** Over all interleavings of handlers, timeouts and the main thread: one
      execution at a time, each item at most once and in order, `done` only
      with a result short of an interrupt, and replies from one's own item. */
  lemma AlwaysOk(s: State, events: seq<Event>)
    requires Ok(s)
    ensures var t := Run(s, events);
            && Ok(t) && |t.started| <= |t.items|
            && (forall k :: 0 <= k < |t.started| ==> t.started[k] == k)
            && (t.running.Some? ==> t.running.value.id == |t.started| - 1 && !t.items[|t.started| - 1].done)
            && (forall i :: 0 <= i < |t.started| - 1 ==> t.items[i].done)
            && (forall i :: |t.started| <= i < |t.items| ==> !t.items[i].done)
            && (forall i :: 0 <= i < |t.items| && t.items[i].done ==>
                 t.items[i].result.Some? || (t.stopped && i == |t.started| - 1))
  {
    hide Run;
    RunKeepsOk(s, events);
  }

  /** Once its event is set an item does not change any more, so it does not
      matter how long after its wait a handler reads the result. */
  lemma {:induction false} DoneItemStays(s: State, events: seq<Event>, i: nat)
    requires Ok(s) && i < |s.items| && s.items[i].done
    ensures i < |Run(s, events).items| && Run(s, events).items[i] == s.items[i]
  {
    hide Ok;
    if events != [] {
      var init := events[..|events| - 1];
      DoneItemStays(s, init, i);
      RunKeepsOk(s, init);
      DoneItemStaysNext(Run(s, init), events[|events| - 1], i);
    }
  }

  lemma DoneItemStaysNext(s: State, e: Event, i: nat)
    requires Ok(s) && i < |s.items| && s.items[i].done
    ensures i < |Next(s, e).items| && Next(s, e).items[i] == s.items[i]
  {
  }

  /** A handler is answered once. */
  lemma {:induction false} ReplyStays(s: State, events: seq<Event>, h: nat)
    requires h in s.replies
    ensures h in Run(s, events).replies && Run(s, events).replies[h] == s.replies[h]
  {
    if events != [] { ReplyStays(s, events[..|events| - 1], h); }
  }

  /** An interrupt always ends the main loop. The event of the item in hand is
      still set, without a result if the work was cut short, unless the guarded
      block was not yet entered or its final part was already running. */
  lemma InterruptLaw(s: State, inFinal: bool)
    requires Ok(s)
    ensures var t := Next(Next(s, Interrupt(inFinal)), SetEvent);
            && t.stopped && t.running.None? && t.replies == s.replies && t.history == s.history
            && (s.running.None? ==> t.items == s.items)
            && (s.running.Some? ==>
                 var Running(id, phase) := s.running.value;
                 && id < |s.items|
                 && t.items == if phase == Executing || (phase.Signalling? && !inFinal)
                               then s.items[id := s.items[id].(done := true)] else s.items)
            && (s.running.None? && !s.stopped && s.queue != [] ==>
                 Next(Next(Next(s, Get), Interrupt(inFinal)), SetEvent).items == s.items)
  {
  }

  /** What a handler can be told from an idle start: the timeout error, the
      result of the one execution of its own item, or, only when the main
      loop was interrupted during just that item, nothing. */
  lemma ReplyIsOwnResult(events: seq<Event>, h: nat)
    ensures var s := Run(State([], [], None, map[], false, [], []), events);
            h in s.replies ==>
              || s.replies[h] == TimedOut
              || (h < |s.history| && s.history[h].id == h && s.replies[h] == Answered(Some(s.history[h].result))
                  && h < |s.items| && s.history[h].args == s.items[h].args)
              || (s.stopped && h == |s.started| - 1 && s.replies[h] == Answered(None))
  {
    AlwaysOk(State([], [], None, map[], false, [], []), events);
  }

  // ---- an abandoned item does not matter to others ----

  /** The events without what handler h makes of its wait. */
  function Without(events: seq<Event>, h: nat): (rest: seq<Event>)
    ensures forall e :: e in rest <==> e in events && e != Wake(h) && e != Timeout(h)
  {
    if events == [] then []
    else
      var init := Without(events[..|events| - 1], h);
      var e := events[|events| - 1];
      if e == Wake(h) || e == Timeout(h) then init else init + [e]
  }

  /** Equal but for the reply of handler h. */
  predicate SameBut(s: State, t: State, h: nat) {
    && s == t.(replies := s.replies)
    && s.replies - {h} == t.replies - {h}
  }

  lemma NextKeepsSame(s: State, t: State, e: Event, h: nat)
    requires SameBut(s, t, h) && e != Wake(h) && e != Timeout(h)
    ensures SameBut(Next(s, e), Next(t, e), h)
  {
    if e.Wake? || e.Timeout? {
      assert e.id in s.replies <==> e.id in s.replies - {h};
      assert e.id in t.replies <==> e.id in t.replies - {h};
      var s', t' := Next(s, e), Next(t, e);
      if s' != s {
        assert s'.replies - {h} == (s.replies - {h})[e.id := s'.replies[e.id]];
        assert t'.replies - {h} == (t.replies - {h})[e.id := t'.replies[e.id]];
      }
    }
  }

  /** Whether and when handler h gives up changes no other handler's reply
      and nothing the main thread does. */
  lemma {:induction false} AbandoningIsInvisible(s: State, events: seq<Event>, h: nat)
    ensures SameBut(Run(s, events), Run(s, Without(events, h)), h)
  {
    if events != [] {
      var init, e := events[..|events| - 1], events[|events| - 1];
      AbandoningIsInvisible(s, init, h);
      if e == Wake(h) || e == Timeout(h) {
        var before := Run(s, init);
        var after := Next(before, e);
        assert after.replies - {h} == before.replies - {h};
      } else {
        NextKeepsSame(Run(s, init), Run(s, Without(init, h)), e, h);
        assert (Without(init, h) + [e])[..|Without(init, h)|] == Without(init, h);
      }
    }
  }

  // ---- the objects themselves ----

  /** How executing an item ends. */
  datatype Outcome = Returns(value: string) | Raises(message: string) | Interrupted

  function ResultOf(outcome: Outcome): Option<Result> {
    match outcome
    case Returns(value) => Some(Produced(value))
    case Raises(message) => Some(Failed(message))
    case Interrupted => None
  }

  /** The event in which the work function ends. */
  function Ending(outcome: Outcome): Event {
    if ResultOf(outcome).Some? then StoreResult(ResultOf(outcome).value) else Interrupt(false)
  }

  /** One turn of the main loop that finds an item. */
  function Turn(s: State, outcome: Outcome): State {
    Next(Next(Next(Next(s, Get), Enter), Ending(outcome)), SetEvent)
  }

  lemma TurnEffect(s: State, outcome: Outcome)
    requires Ok(s) && s.running.None? && !s.stopped && s.queue != []
    ensures var id := |s.started|;
            var t := Turn(s, outcome);
            && id < |s.items| && s.items[id].result.None? && Ok(t) && t.running.None?
            && t.items == s.items[id := s.items[id].(result := ResultOf(outcome), done := true)]
            && |t.queue| == |s.queue| - 1 && |t.started| == id + 1
  {
    hide Ok;
    TakeKeepsOk(s);
    NextKeepsOk(Next(s, Get), Enter);
    NextKeepsOk(Next(Next(s, Get), Enter), Ending(outcome));
    SetKeepsOk(Next(Next(Next(s, Get), Enter), Ending(outcome)));
    FirstIsNext(s);
  }

  /** What a handler is to be told of an outcome: the value returned, the
      message raised, nothing after an interrupt. */
  predicate Tells(result: Option<Result>, outcome: Outcome) {
    match outcome
    case Returns(value) => result == Some(Produced(value))
    case Raises(message) => result == Some(Failed(message))
    case Interrupted => result == None
  }

  /** From a turn to the reply, told by what happened: the handler of the item
      executed is answered the value its work returned, the message it raised,
      or nothing after an interrupt, and the execution that is recorded, if any,
      is by the worker its endpoint names, on its own arguments. */
  lemma TurnReply(s: State, outcome: Outcome)
    requires Ok(s) && s.running.None? && !s.stopped && s.queue != [] && |s.started| !in s.replies
    ensures var id := |s.started|;
            var t := Turn(s, outcome);
            var u := Next(t, Wake(id));
            && id < |s.items| && id in u.replies
            && u.replies[id].Answered? && Tells(u.replies[id].result, outcome)
            && (t.stopped <==> outcome == Interrupted)
            && (outcome == Interrupted ==> t.history == s.history)
            && (outcome != Interrupted ==>
                 && |t.history| == id + 1 && t.history[..id] == s.history
                 && t.history[id].id == id && t.history[id].args == s.items[id].args
                 && (s.items[id].endpoint == "drone" ==> t.history[id].worker == DroneProject)
                 && (s.items[id].endpoint == "basemap" ==> t.history[id].worker == BasemapAttach)
                 && (s.items[id].endpoint != "drone" && s.items[id].endpoint != "basemap" ==>
                      t.history[id].worker == FieldProject))
  {
    TurnEffect(s, outcome);
    FirstIsNext(s);
    EndpointsDiffer();
    TurnHistory(s, outcome);
    hide Ok, Turn;
  }

  lemma EndpointsDiffer()
    ensures "drone" != "basemap"
  {
    assert "drone"[0] != "basemap"[0];
  }

  lemma TurnHistory(s: State, outcome: Outcome)
    requires Ok(s) && s.running.None? && !s.stopped && s.queue != []
    ensures var id := |s.started|;
            var t := Turn(s, outcome);
            && id == |s.history| < |s.items| && t.replies == s.replies
            && t.history == if outcome == Interrupted then s.history else
                 s.history + [Execution(id, WorkerFor(s.items[id].endpoint), s.items[id].args, ResultOf(outcome).value)]
  {
    FirstIsNext(s);
  }

  lemma FirstIsNext(s: State)
    requires Ok(s) && s.running.None? && !s.stopped && s.queue != []
    ensures s.queue[0] == |s.started| < |s.items| && s.items[s.queue[0]].result.None?
  {
  }

  lemma WaitEffect(s: State, id: nat, completed: bool)
    requires Ok(s) && id < |s.items| && id !in s.replies && (completed ==> s.items[id].done)
    ensures var t := Next(s, if completed then Wake(id) else Timeout(id));
            && Ok(t) && t == s.(replies := t.replies) && id in t.replies
            && t.replies[id] == if completed then Answered(s.items[id].result) else TimedOut
  {
  }

  class WorkItem {
    const endpoint: string
    const args: string
    var result: Option<Result>
    var done: bool

    constructor (endpoint: string, args: string)
      ensures this.endpoint == endpoint && this.args == args && result.None? && !done
    {
      this.endpoint, this.args := endpoint, args;
      result, done := None, false;
    }

    ghost function Value(): Item
      reads this
    {
      Item(endpoint, args, result, done)
    }

    /** The result if there is one, and then, in any case, the event. */
    method Complete(produced: Option<Result>)
      modifies this
      ensures Value() == old(Value()).(result := if produced.Some? then produced else old(result), done := true)
    {
      if produced.Some? { result := produced; }
      done := true;
    }
  }

  /** The item objects hold what the model says. */
  ghost predicate Mirrors(all: seq<WorkItem>, items: seq<Item>)
    reads all
  {
    |all| == |items| && forall i :: 0 <= i < |all| ==> all[i].Value() == items[i]
  }

  class QgisServer {
    var pending: seq<WorkItem>   // the queue object
    ghost var all: seq<WorkItem> // every item ever put
    ghost var model: State

    ghost predicate Valid()
      reads this, all
    {
      && Ok(model) && model.running.None?
      && |all| == |model.items| && |pending| == |model.queue|
      && (forall i, j :: 0 <= i < j < |all| ==> all[i] != all[j])
      && Mirrors(all, model.items)
      && (forall k :: 0 <= k < |pending| ==> pending[k] == all[|model.started| + k])
    }

    constructor ()
      ensures Valid() && model == State([], [], None, map[], false, [], []) && all == []
    {
      pending, all, model := [], [], State([], [], None, map[], false, [], []);
    }

    /** The first half of a dispatch: the handler's item joins the queue. */
    method Dispatch(endpoint: string, args: string) returns (item: WorkItem)
      requires Valid()
      modifies this
      ensures Valid() && fresh(item) && all == old(all) + [item]
      ensures model == Next(old(model), Put(endpoint, args))
    {
      hide Ok, Next;
      PutEffect(model, endpoint, args);
      item := new WorkItem(endpoint, args);
      pending := pending + [item];
      all := all + [item];
      model := Next(model, Put(endpoint, args));
    }

    /** The second half: what a wait that saw the event set, or did not,
        returns to its handler. */
    method Await(item: WorkItem, completed: bool, ghost id: nat) returns (reply: Reply)
      requires Valid() && id < |all| && all[id] == item && id !in model.replies
      requires completed ==> item.done
      modifies this
      ensures Valid() && all == old(all)
      ensures model == Next(old(model), if completed then Wake(id) else Timeout(id))
      ensures id in model.replies && reply == model.replies[id]
    {
      hide Ok, Next;
      assert item.Value() == model.items[id];
      WaitEffect(model, id, completed);
      if !completed {
        reply := TimedOut;
        model := Next(model, Timeout(id));
      } else {
        reply := Answered(item.result);
        model := Next(model, Wake(id));
      }
    }

    /** One turn of the main loop: take the first item if there is one, execute
        it, store its result if there is one, and set its event whatever
        happens. */
    method ProcessWorkQueue(outcome: Outcome)
      requires Valid() && !model.stopped
      modifies this, all
      ensures Valid() && all == old(all)
      ensures model == if old(model).queue == [] then old(model) else Turn(old(model), outcome)
      ensures old(pending) != [] ==>
        && pending == old(pending)[1..]
        && old(pending)[0].done && Tells(old(pending)[0].result, outcome)
    {
      hide Ok, Next, ResultOf, Turn, Mirrors;
      if pending == [] { return; }
      TurnEffect(model, outcome);
      var item := pending[0];
      pending := pending[1..];
      Finish(item, outcome, |model.started|);
      model := Turn(model, outcome);
    }

    /** What becomes of one item when its work function has ended. */
    method Finish(item: WorkItem, outcome: Outcome, ghost id: nat)
      requires id < |all| && all[id] == item && Mirrors(all, model.items)
      requires forall i, j :: 0 <= i < j < |all| ==> all[i] != all[j]
      requires model.items[id].result.None?
      modifies item
      ensures Mirrors(all, model.items[id := model.items[id].(result := ResultOf(outcome), done := true)])
      ensures item.done && Tells(item.result, outcome)
    {
      assert item.Value() == model.items[id];
      item.Complete(ResultOf(outcome));
    }
  }
}
