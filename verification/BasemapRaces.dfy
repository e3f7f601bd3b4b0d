/** Interleavings the basemap code admits, each as a run of the protocol from
    a row at rest: the limits of what BasemapProtocol can promise. */
module BasemapRaces {
  import opened Text
  import opened BasemapRow
  import opened BasemapProtocol

  function Reply(code: int, url: Option<string>): Env {
    Env(false, code, Payload(url, None, None, None), None, true, AttachOk)
  }

  const WAITING := Row(Some("a"), Generating, None, Idle, true, true)
  const SERVED := Row(Some("a"), Ready, Some("url-a"), Idle, true, true)

  /** Two overlapping polls up to the last commit: poll 1 has made the row
      ready, poll 0 still holds the older answer. */
  lemma OverlappingPolls() returns (events: seq<Event>)
    ensures forall i :: 0 <= i < |events| && events[i].Begin? ==> events[i].entry == PollStart
    ensures Run(Sys(WAITING, map[]), events)
            == Sys(WAITING.(status := Ready, url := Some("url-a")),
                   map[0 := PollCommit(WAITING, Answer(Generating, None))])
  {
    var s := Sys(WAITING, map[]);
    var waiting, ready := Reply(202, None), Reply(200, Some("url-a"));
    events := [];
    RunSnoc(s, events, Begin(0, PollStart));
    events := events + [Begin(0, PollStart)];
    RunSnoc(s, events, Advance(0, waiting));
    events := events + [Advance(0, waiting)];
    RunSnoc(s, events, Advance(0, waiting));
    events := events + [Advance(0, waiting)];
    assert Run(s, events) == Sys(WAITING, map[0 := PollCommit(WAITING, Answer(Generating, None))]);
    RunSnoc(s, events, Begin(1, PollStart));
    events := events + [Begin(1, PollStart)];
    RunSnoc(s, events, Advance(1, ready));
    events := events + [Advance(1, ready)];
    RunSnoc(s, events, Advance(1, ready));
    events := events + [Advance(1, ready)];
    RunSnoc(s, events, Advance(1, ready));
    events := events + [Advance(1, ready)];
  }

  /** The last event of a run of polls and attaches takes a ready row down. */
  ghost predicate DowngradesAtLast(s: Sys, events: seq<Event>, last: Event) {
    && PollsAndAttachesOnly(events + [last])
    && ReadyWithUrl(Run(s, events).row)
    && Run(s, events + [last]).row.status == Generating
  }

  /** Overlapping polls can take a ready row down. */
  lemma OverlappingPollsDowngrade()
    ensures exists events: seq<Event>, last: Event :: DowngradesAtLast(Sys(WAITING, map[]), events, last)
  {
    var events := OverlappingPolls();
    var last := Advance(0, Reply(202, None));
    RunSnoc(Sys(WAITING, map[]), events, last);
    assert DowngradesAtLast(Sys(WAITING, map[]), events, last);
  }

  lemma RunTwo(s: Sys, a: Event, b: Event)
    ensures Run(s, [a, b]) == Next(Next(s, a), b)
  {
    hide Next;
    RunSnoc(s, [], a);
    RunSnoc(s, [a], b);
    assert [] + [a] == [a] && [a] + [b] == [a, b];
  }

  lemma RunFour(s: Sys, a: Event, b: Event, c: Event, d: Event)
    ensures Run(s, [a, b, c, d]) == Next(Next(Next(Next(s, a), b), c), d)
  {
    hide Next, Run;
    RunTwo(s, a, b);
    RunTwo(Run(s, [a, b]), c, d);
    RunSplit(s, [a, b], [c, d]);
    assert [a, b] + [c, d] == [a, b, c, d];
  }

  /** The poll's read of image "a", and the generate request up to its commit
      of image "b". */
  lemma PollThenGenerate()
    ensures Run(Sys(SERVED, map[]), POLL_READ + GENERATE)
            == Sys(SERVED.(item := Some("b"), status := Generating), map[0 := PollCall(SERVED)])
  {
    var s := Sys(SERVED, map[]);
    RunTwo(s, POLL_READ[0], POLL_READ[1]);
    RunSplit(s, POLL_READ, GENERATE);
    RunFour(Run(s, POLL_READ), GENERATE[0], GENERATE[1], GENERATE[2], GENERATE[3]);
    hide Run;
    assert SERVED.item != Some("b") by { assert "a"[0] != "b"[0]; }
  }

  const POLL_READ := [Begin(0, PollStart), Advance(0, Reply(202, None))]
  const GENERATE := [
    Begin(1, GenerateStart("b")), Advance(1, Reply(202, None)), Advance(1, Reply(202, None)),
    Advance(1, Reply(202, None))]
  const POLL_COMMIT := [Advance(0, Reply(202, None)), Advance(0, Reply(202, None))]

  /** A generate request for another image between a poll's read and its
      commit: the row ends `ready` for image "b" with the URL of image "a",
      though the API never had anything for "b". */
  lemma ReadyUrlCanBeAnotherImages()
    ensures exists events: seq<Event> ::
              var row := Run(Sys(SERVED, map[]), events).row;
              row.item == Some("b") && row.status == Ready && row.url == Some("url-a")
  {
    var s := Sys(SERVED, map[]);
    var t := Run(s, POLL_READ + GENERATE);
    PollThenGenerate();
    RunTwo(t, POLL_COMMIT[0], POLL_COMMIT[1]);
    RunSplit(s, POLL_READ + GENERATE, POLL_COMMIT);
    hide Run;
    assert Run(s, POLL_READ + GENERATE + POLL_COMMIT).row.url == Some("url-a");
  }

  // ---- a resume over a ready row ----

  const RESUMABLE := Row(Some("a"), Generating, None, PendingAutostart, true, true)
  const RESUME_ASKED := [Advance(0, Reply(202, None)), Advance(0, Reply(202, None))]
  const POLL_READY := [
    Begin(1, PollStart), Advance(1, Reply(200, Some("url-a"))), Advance(1, Reply(200, Some("url-a"))),
    Advance(1, Reply(200, Some("url-a")))]

  lemma ResumeAsked()
    ensures Run(Sys(RESUMABLE, map[0 := AutostartStart]), RESUME_ASKED)
            == Sys(RESUMABLE, map[0 := ResumeCommit(RESUMABLE, Answer(Generating, None))])
  {
    SelectedIsA();
    RunTwo(Sys(RESUMABLE, map[0 := AutostartStart]), RESUME_ASKED[0], RESUME_ASKED[1]);
    hide Run, Blank;
  }

  lemma PolledReady(s: Sys, held: Proc)
    requires s == Sys(RESUMABLE, map[0 := held])
    ensures Run(s, POLL_READY)
            == Sys(RESUMABLE.(status := Ready, url := Some("url-a")), map[0 := held, 1 := PollEnqueue("url-a")])
  {
    RunFour(s, POLL_READY[0], POLL_READY[1], POLL_READY[2], POLL_READY[3]);
    hide Run;
  }

  const HELD := ResumeCommit(RESUMABLE, Answer(Generating, None))
  const POLLED := Sys(RESUMABLE.(status := Ready, url := Some("url-a")), map[0 := HELD, 1 := PollEnqueue("url-a")])
  const ENQUEUED := Sys(
    RESUMABLE.(status := Ready, url := Some("url-a"), attach := InProgress),
    map[0 := HELD, 1 := SpawnJob("url-a")])
  const TAKEN_DOWN := Sys(RESUMABLE.(url := Some("url-a")), map[1 := SpawnJob("url-a")])

  lemma EnqueuedThenTakenDown()
    ensures Next(POLLED, Advance(1, Reply(202, None))) == ENQUEUED
    ensures Next(ENQUEUED, Advance(0, Reply(202, None))) == TAKEN_DOWN
  {
    assert ENQUEUED.procs - {0} == TAKEN_DOWN.procs;
  }

  /** An autostart resumes while a poll finds the tilepack ready: its older
      answer takes the ready row down, and hides the job the poll started. */
  lemma ResumeCanDowngrade() returns (events: seq<Event>, last: Event)
    ensures Run(Sys(RESUMABLE, map[0 := AutostartStart]), events) == ENQUEUED
    ensures Run(Sys(RESUMABLE, map[0 := AutostartStart]), events + [last]) == TAKEN_DOWN
  {
    var s := Sys(RESUMABLE, map[0 := AutostartStart]);
    ResumeAsked();
    PolledReady(Sys(RESUMABLE, map[0 := HELD]), HELD);
    EnqueuedThenTakenDown();
    hide Run, Next;
    RunSplit(s, RESUME_ASKED, POLL_READY);
    events, last := RESUME_ASKED + POLL_READY, Advance(0, Reply(202, None));
    RunSnoc(s, events, Advance(1, Reply(202, None)));
    events := events + [Advance(1, Reply(202, None))];
    RunSnoc(s, events, last);
  }

  // ---- overlapping claims ----

  const FRESH := Row(None, Unset, None, NoAttach, true, true)

  /** An API that has the tilepack ready at once, and two processes taking a
      step each against it. */
  const PROMPT := Env(false, 200, Payload(Some("u"), None, None, None), Some("a"), true, AttachOk)
  const ROUND := [Advance(0, PROMPT), Advance(1, PROMPT)]

  function Both(row: Row, p: Proc): Sys {
    Sys(row, map[0 := p, 1 := p])
  }

  lemma OneRound(s: Sys, events: seq<Event>, row: Row, p: Proc, row': Row, p': Proc)
    requires Run(s, events) == Both(row, p)
    requires BothStep(row, p, row', p')
    ensures Run(s, events + ROUND) == Both(row', p')
  {
    hide Step;
    RunSplit(s, events, ROUND);
    RunTwo(Both(row, p), ROUND[0], ROUND[1]);
    assert Next(Both(row, p), ROUND[0]) == Sys(row', map[0 := p', 1 := p]);
    assert Next(Sys(row', map[0 := p', 1 := p]), ROUND[1]) == Both(row', p');
  }

  const CLAIMED := Row(None, Generating, None, PendingAutostart, true, true)
  const CHOSEN := CLAIMED.(item := Some("a"))
  const SERVING := CHOSEN.(status := Ready, url := Some("u"), attach := InProgress)

  lemma SelectedIsA()
    ensures Trim("a") == "a" && !Blank(Some("a")) && Blank(None)
  {
    assert !IsSpace("a"[0]);
  }

  /** Each of the two takes the same step, whichever of them goes first. */
  predicate BothStep(row: Row, p: Proc, row': Row, p': Proc) {
    Step(row, p, PROMPT) == (row', Some(p')) == Step(row', p, PROMPT)
  }

  lemma StepsToChoice()
    ensures Run(Sys(FRESH, map[]), [Begin(0, ClaimStart), Begin(1, ClaimStart)]) == Both(FRESH, ClaimStart)
    ensures BothStep(FRESH, ClaimStart, CLAIMED, AutostartStart)
    ensures BothStep(CLAIMED, AutostartStart, CLAIMED, SelectCall)
    ensures BothStep(CLAIMED, SelectCall, CLAIMED, TilepackCommit("a"))
  {
    SelectedIsA();
    RunTwo(Sys(FRESH, map[]), Begin(0, ClaimStart), Begin(1, ClaimStart));
    hide Trim, ParseTilepackStatus, Run;
  }

  lemma StepsToJob()
    ensures BothStep(CLAIMED, TilepackCommit("a"), CHOSEN, TilepackCall("a"))
    ensures BothStep(CHOSEN, TilepackCall("a"), CHOSEN, TilepackAnswered("a", Answer(Ready, Some("u"))))
    ensures BothStep(CHOSEN, TilepackAnswered("a", Answer(Ready, Some("u"))), SERVING, SpawnJob("u"))
  {
    hide Trim;
  }

  predicate OnlyClaimsBegin(events: seq<Event>) {
    forall i :: 0 <= i < |events| && events[i].Begin? ==> events[i].entry == ClaimStart
  }

  /** Two claims of one fresh row, the second taken before the first has
      chosen its image: both succeed, and two attach jobs are spawned. */
  lemma OverlappingClaims() returns (events: seq<Event>)
    ensures OnlyClaimsBegin(events)
    ensures Run(Sys(FRESH, map[]), events) == Both(SERVING, SpawnJob("u"))
  {
    var s := Sys(FRESH, map[]);
    StepsToChoice();
    StepsToJob();
    hide Run, Step, Both;
    events := [Begin(0, ClaimStart), Begin(1, ClaimStart)];
    OneRound(s, events, FRESH, ClaimStart, CLAIMED, AutostartStart);
    OneRound(s, events + ROUND, CLAIMED, AutostartStart, CLAIMED, SelectCall);
    var chosen := events + ROUND + ROUND;
    OneRound(s, chosen, CLAIMED, SelectCall, CLAIMED, TilepackCommit("a"));
    OneRound(s, chosen + ROUND, CLAIMED, TilepackCommit("a"), CHOSEN, TilepackCall("a"));
    var asked := chosen + ROUND + ROUND;
    var answered := TilepackAnswered("a", Answer(Ready, Some("u")));
    OneRound(s, asked, CHOSEN, TilepackCall("a"), CHOSEN, answered);
    OneRound(s, asked + ROUND, CHOSEN, answered, SERVING, SpawnJob("u"));
    events := asked + ROUND + ROUND;
  }

  // ---- when a second claim is refused ----

  /** The processes of claims and of the autostarts and jobs they lead to; the
      later ones exist only once an image has been chosen. */
  predicate OfClaim(row: Row, p: Proc) {
    match p
    case ClaimStart => true
    case AutostartStart => true
    case SelectCall => true
    case TilepackCommit(target) => !Blank(Some(target))
    case AutostartFailing => true
    case ResumeCall(_) => !Blank(row.item)
    case ResumeCommit(_, _) => !Blank(row.item)
    case TilepackCall(_) => !Blank(row.item)
    case TilepackAnswered(_, _) => !Blank(row.item)
    case SpawnJob(_) => !Blank(row.item)
    case Job(_, _) => !Blank(row.item)
    case _ => false
  }

  predicate ClaimableWhileBlank(row: Row) {
    row.qfield && row.published && (Blank(row.item) ==> row.status in {Unset, Generating, Failed})
  }

  ghost predicate OnlyClaims(s: Sys) {
    ClaimableWhileBlank(s.row) && forall pid :: pid in s.procs ==> OfClaim(s.row, s.procs[pid])
  }

  lemma StepOfClaim(row: Row, p: Proc, env: Env)
    requires ClaimableWhileBlank(row) && OfClaim(row, p)
    ensures var (row', next) := Step(row, p, env);
            && ClaimableWhileBlank(row') && (Blank(row'.item) ==> Blank(row.item))
            && (next.Some? ==> OfClaim(row', next.value))
  {
    hide Blank, Trim, Upstream, ResolveStatus, NextAttach;
    if p.SelectCall? && !Blank(env.selected) {
      SelectedStays(env.selected);
    }
  }

  lemma SelectedStays(selected: Option<string>)
    requires !Blank(selected)
    ensures !Blank(Some(Trim(selected.value)))
  {
    TrimKeepsText(selected.value);
  }

  lemma NextOnlyClaims(s: Sys, e: Event)
    requires OnlyClaims(s) && (e.Begin? ==> e.entry == ClaimStart)
    ensures OnlyClaims(Next(s, e))
  {
    hide Step, Blank, ClaimableWhileBlank;
    match e
    case Begin(_, _) =>
    case Advance(pid, env) =>
      if pid in s.procs { StepOfClaim(s.row, s.procs[pid], env); }
    case Raise(_) =>
  }

  /** Over any interleaving of claims with their autostarts and jobs, a claim
      is accepted exactly as long as no image has been chosen: it excludes the
      others only from the commit of that choice on. */
  lemma {:induction false} ClaimAcceptedIff(s: Sys, events: seq<Event>)
    requires OnlyClaims(s)
    requires OnlyClaimsBegin(events)
    ensures OnlyClaims(Run(s, events))
    ensures Claimable(Run(s, events).row) <==> Blank(Run(s, events).row.item)
  {
    hide Next, OfClaim, Blank;
    if events != [] {
      ClaimAcceptedIff(s, events[..|events| - 1]);
      NextOnlyClaims(Run(s, events[..|events| - 1]), events[|events| - 1]);
    }
  }
}
