/** Whose URL a ready row serves: over all interleavings, exactly when a ready
    row's URL is that of the image selected in the same row. */
module BasemapProvenance {
  import opened Text
  import opened BasemapRow
  import opened BasemapProtocol
  import opened BasemapSerial

  /** Ids name the same image up to the white space around them, which some
      requests strip and others do not. */
  predicate SameImage(a: Option<string>, b: Option<string>) {
    a.Some? && b.Some? && Trim(a.value) == Trim(b.value)
  }

  predicate ServesItsImage(imageOf: string -> string, row: Row) {
    row.status == Ready ==> NonEmpty(row.url) && SameImage(row.item, Some(imageOf(row.url.value)))
  }

  // ---- an API that answers for the image asked about ----

  predicate HonestAnswer(imageOf: string -> string, answer: Answer, asked: Option<string>) {
    NonEmpty(answer.url) ==> SameImage(asked, Some(imageOf(answer.url.value)))
  }

  /** The image a process is about to ask the API about. */
  function AskedFor(p: Proc): Option<string> {
    match p
    case GenerateCall(target) => Some(target)
    case PollCall(seen) => seen.item
    case ReconcileCall(seen) => seen.item
    case ResumeCall(seen) => seen.item
    case TilepackCall(target) => Some(target)
    case _ => None
  }

  predicate HonestEvent(imageOf: string -> string, s: Sys, e: Event) {
    e.Advance? && e.pid in s.procs && AskedFor(s.procs[e.pid]).Some? && Upstream(e.env).Some? ==>
      HonestAnswer(imageOf, Upstream(e.env).value, AskedFor(s.procs[e.pid]))
  }

  /** What the processes carry is what an honest API told them. */
  predicate ProcHonest(imageOf: string -> string, p: Proc) {
    match p
    case GenerateCommit(target, answer) => AnswerOk(answer) && HonestAnswer(imageOf, answer, Some(target))
    case PollCall(seen) => ServesItsImage(imageOf, seen) && seen.item.Some?
    case PollCommit(seen, answer) =>
      ServesItsImage(imageOf, seen) && seen.item.Some? && AnswerOk(answer) && HonestAnswer(imageOf, answer, seen.item)
    case ReconcileCommit(seen, url) => url != "" && SameImage(seen.item, Some(imageOf(url)))
    case ResumeCall(seen) => ServesItsImage(imageOf, seen) && seen.item.Some?
    case ResumeCommit(seen, answer) =>
      ServesItsImage(imageOf, seen) && seen.item.Some? && AnswerOk(answer) && HonestAnswer(imageOf, answer, seen.item)
    case TilepackAnswered(target, answer) => AnswerOk(answer) && HonestAnswer(imageOf, answer, Some(target))
    case _ => true
  }

  // ---- one commit ----

  /** The image whose answer a commit stores in a row that it does not at the
      same time select the image in. */
  function AnsweredFor(p: Proc): Option<string> {
    match p
    case PollCommit(seen, _) => seen.item
    case ReconcileCommit(seen, _) => seen.item
    case ResumeCommit(seen, _) => seen.item
    case TilepackAnswered(target, _) => Some(target)
    case _ => None
  }

  /** Such a commit that writes `ready`. */
  predicate WritesReady(p: Proc) {
    match p
    case PollCommit(seen, answer) => answer.status == Ready || ReadyWithUrl(seen)
    case ReconcileCommit(_, _) => true
    case ResumeCommit(seen, answer) => answer.status == Ready || ReadyWithUrl(seen)
    case TilepackAnswered(_, answer) => answer.status == Ready
    case _ => false
  }

  /** A commit of an answer leaves the row serving its image exactly when it
      does not write `ready` or the image it asked about is still the one
      selected, whatever the row was. A generate request, which selects its
      image in the same commit, always does. */
  lemma CommitServesIff(imageOf: string -> string, row: Row, p: Proc, env: Env)
    requires ProcHonest(imageOf, p)
    requires p.PollCommit? || p.ReconcileCommit? || p.ResumeCommit? || p.TilepackAnswered? || p.GenerateCommit?
    ensures ServesItsImage(imageOf, Step(row, p, env).0)
            <==> !WritesReady(p) || SameImage(row.item, AnsweredFor(p))
  {
    hide Trim;
  }

  lemma OtherStepsServe(imageOf: string -> string, row: Row, p: Proc, env: Env)
    requires ServesItsImage(imageOf, row)
    requires !(p.PollCommit? || p.ReconcileCommit? || p.ResumeCommit? || p.TilepackAnswered? || p.GenerateCommit?)
    ensures ServesItsImage(imageOf, Step(row, p, env).0)
  {
    hide Trim;
  }

  lemma StepStaysHonest(imageOf: string -> string, row: Row, p: Proc, env: Env)
    requires ServesItsImage(imageOf, row) && ProcHonest(imageOf, p)
    requires AskedFor(p).Some? && Upstream(env).Some? ==> HonestAnswer(imageOf, Upstream(env).value, AskedFor(p))
    ensures var next := Step(row, p, env).1; next.Some? ==> ProcHonest(imageOf, next.value)
  {
    hide Trim;
    if !env.unreachable { ParsedAnswersAreOk(env.code, env.payload); }
  }

  // ---- all interleavings ----

  /** A commit that writes `ready` for an image no longer selected. */
  predicate StaleCommit(s: Sys, e: Event) {
    && e.Advance? && e.pid in s.procs && WritesReady(s.procs[e.pid])
    && !SameImage(s.row.item, AnsweredFor(s.procs[e.pid]))
  }

  ghost predicate Honest(imageOf: string -> string, s: Sys) {
    forall pid :: pid in s.procs ==> ProcHonest(imageOf, s.procs[pid])
  }

  ghost predicate HonestRun(imageOf: string -> string, s: Sys, events: seq<Event>) {
    events != [] ==>
      var init := events[..|events| - 1];
      HonestRun(imageOf, s, init) && HonestEvent(imageOf, Run(s, init), events[|events| - 1])
  }

  ghost predicate ServesThroughout(imageOf: string -> string, s: Sys, events: seq<Event>) {
    && ServesItsImage(imageOf, Run(s, events).row)
    && (events != [] ==> ServesThroughout(imageOf, s, events[..|events| - 1]))
  }

  ghost predicate NoStaleCommit(s: Sys, events: seq<Event>) {
    events != [] ==>
      var init := events[..|events| - 1];
      NoStaleCommit(s, init) && !StaleCommit(Run(s, init), events[|events| - 1])
  }

  lemma NextServesIff(imageOf: string -> string, s: Sys, e: Event)
    requires ServesItsImage(imageOf, s.row) && Honest(imageOf, s) && HonestEvent(imageOf, s, e)
    ensures Honest(imageOf, Next(s, e))
    ensures ServesItsImage(imageOf, Next(s, e).row) <==> !StaleCommit(s, e)
  {
    hide SameImage, ServesItsImage, HonestAnswer, Step;
    if e.Advance? && e.pid in s.procs {
      var p := s.procs[e.pid];
      StepStaysHonest(imageOf, s.row, p, e.env);
      if p.PollCommit? || p.ReconcileCommit? || p.ResumeCommit? || p.TilepackAnswered? || p.GenerateCommit? {
        CommitServesIff(imageOf, s.row, p, e.env);
      } else {
        OtherStepsServe(imageOf, s.row, p, e.env);
      }
    }
  }

  /** Over any interleaving of all writers, with an API that answers for the
      image asked about, a ready row serves the selected image's URL at every
      point exactly when no commit writes `ready` for an image that is no
      longer the one selected. */
  lemma {:induction false} ServesThroughoutIff(imageOf: string -> string, s: Sys, events: seq<Event>)
    requires ServesItsImage(imageOf, s.row) && Honest(imageOf, s) && HonestRun(imageOf, s, events)
    ensures ServesThroughout(imageOf, s, events) <==> NoStaleCommit(s, events)
    ensures ServesThroughout(imageOf, s, events) ==> Honest(imageOf, Run(s, events))
  {
    hide Next, ServesItsImage, Honest, HonestEvent, StaleCommit;
    if events != [] {
      var init := events[..|events| - 1];
      ServesThroughoutIff(imageOf, s, init);
      if ServesThroughout(imageOf, s, init) {
        NextServesIff(imageOf, Run(s, init), events[|events| - 1]);
      }
    }
  }

  // ---- no image change, no stale commit ----

  /** Processes that neither select another image nor answer for one. */
  predicate StaysWith(item: Option<string>, p: Proc) {
    match p
    case GenerateStart(target) => Some(target) == item
    case GenerateCall(target) => Some(target) == item
    case GenerateCommit(target, _) => Some(target) == item
    case GenerateFailing(wrote) => wrote.Some? ==> wrote == item
    case PollCall(seen) => seen.item == item && item.Some?
    case PollCommit(seen, _) => seen.item == item && item.Some?
    case ReconcileCall(seen) => seen.item == item
    case ReconcileCommit(seen, _) => seen.item == item && item.Some?
    case ResumeCall(seen) => seen.item == item && item.Some?
    case ResumeCommit(seen, _) => seen.item == item && item.Some?
    case TilepackCommit(target) => Some(target) == item
    case TilepackCall(target) => Some(target) == item
    case TilepackAnswered(target, _) => Some(target) == item
    case ClaimStart => false
    case AutostartStart => false
    case SelectCall => false
    case _ => true
  }

  ghost predicate OneImage(item: Option<string>, s: Sys) {
    s.row.item == item && forall pid :: pid in s.procs ==> StaysWith(item, s.procs[pid])
  }

  /** Polls, searches, attach requests and generate requests for the image
      already selected. */
  predicate OneImageOnly(item: Option<string>, events: seq<Event>) {
    forall i :: 0 <= i < |events| && events[i].Begin? ==> StaysWith(item, events[i].entry)
  }

  lemma StepStaysWith(item: Option<string>, row: Row, p: Proc, env: Env)
    requires row.item == item && StaysWith(item, p)
    ensures var (row', next) := Step(row, p, env);
            row'.item == item && (next.Some? ==> StaysWith(item, next.value))
    ensures WritesReady(p) ==> SameImage(row.item, AnsweredFor(p))
  {
    hide Trim, Upstream, ResolveStatus, NextAttach;
  }

  lemma NextStaysWith(item: Option<string>, s: Sys, e: Event)
    requires OneImage(item, s) && (e.Begin? ==> StaysWith(item, e.entry))
    ensures OneImage(item, Next(s, e)) && !StaleCommit(s, e)
  {
    hide Step, SameImage, WritesReady, AnsweredFor;
    if e.Advance? && e.pid in s.procs {
      StepStaysWith(item, s.row, s.procs[e.pid], e.env);
    }
  }

  lemma {:induction false} OneImageNeverStale(item: Option<string>, s: Sys, events: seq<Event>)
    requires OneImage(item, s) && OneImageOnly(item, events)
    ensures OneImage(item, Run(s, events)) && NoStaleCommit(s, events)
  {
    hide Next, OneImage, StaleCommit, StaysWith;
    if events != [] {
      var init := events[..|events| - 1];
      assert OneImageOnly(item, init);
      OneImageNeverStale(item, s, init);
      NextStaysWith(item, Run(s, init), events[|events| - 1]);
    }
  }

  /** Every interleaving of polls, searches, attach requests, jobs and generate
      requests for the selected image, however they overlap, keeps a ready row
      serving that image. */
  lemma OneImageServes(imageOf: string -> string, item: Option<string>, s: Sys, events: seq<Event>)
    requires ServesItsImage(imageOf, s.row) && Honest(imageOf, s) && HonestRun(imageOf, s, events)
    requires OneImage(item, s) && OneImageOnly(item, events)
    ensures ServesThroughout(imageOf, s, events) && Run(s, events).row.item == item
  {
    OneImageNeverStale(item, s, events);
    ServesThroughoutIff(imageOf, s, events);
  }

  // ---- requests that do not overlap ----

  /** The image a request asks the API about. */
  function AskedBy(row: Row, entry: Proc, env: Env): Option<string> {
    match entry
    case GenerateStart(target) => Some(target)
    case ClaimStart => env.selected
    case _ => row.item
  }

  predicate HonestAction(imageOf: string -> string, row: Row, a: Action) {
    a.Request? && Upstream(a.env).Some? ==>
      HonestAnswer(imageOf, Upstream(a.env).value, AskedBy(row, a.entry, a.env))
  }

  predicate HonestActions(imageOf: string -> string, s: Sys, actions: seq<Action>)
    decreases |actions|
  {
    actions == [] ||
    (HonestAction(imageOf, s.row, actions[0]) && HonestActions(imageOf, Act(s, actions[0]), actions[1..]))
  }

  lemma ActServes(imageOf: string -> string, s: Sys, a: Action)
    requires ServesItsImage(imageOf, s.row) && AllJobs(s) && HonestAction(imageOf, s.row, a)
    ensures ServesItsImage(imageOf, Act(s, a).row) && AllJobs(Act(s, a))
  {
    hide Complete;
    if a.Request? && a.pid !in s.procs && IsEntry(a.entry) {
      RequestServes(imageOf, s.row, a.entry, a.env);
    }
  }

  lemma RequestServes(imageOf: string -> string, row: Row, entry: Proc, env: Env)
    requires ServesItsImage(imageOf, row) && IsEntry(entry)
    requires Upstream(env).Some? ==> HonestAnswer(imageOf, Upstream(env).value, AskedBy(row, entry, env))
    ensures ServesItsImage(imageOf, Complete(row, entry, env).0)
  {
    hide Complete, Trim;
    if !env.unreachable { ParsedAnswersAreOk(env.code, env.payload); }
    match entry
    case PollStart => PollInOneGo(row, env);
    case AttachStart => AttachInOneGo(row, env);
    case GenerateStart(target) => GenerateInOneGo(row, target, env);
    case ClaimStart =>
      ClaimInOneGo(row, env);
      if env.selected.Some? { TrimTwice(env.selected.value); }
    case SearchStart => SearchInOneGo(row, env);
  }

  lemma SearchInOneGo(row: Row, env: Env)
    ensures Complete(row, SearchStart, env) == (if row.published then row.(status := Searching) else row, None)
  {
    assert row.published ==> Complete(row, SearchStart, env) == Complete(row, SearchCommit, env);
  }

  lemma TrimTwice(s: string)
    ensures Trim(Trim(s)) == Trim(s)
  {
  }

  /** When requests do not overlap, whatever images they select, a ready row's
      URL is always that of the image selected in the same row: search,
      generate, poll, attach, claim and autostart included. */
  lemma {:induction false} ReadyUrlIsSelectedImages(imageOf: string -> string, s: Sys, actions: seq<Action>)
    requires ServesItsImage(imageOf, s.row) && AllJobs(s) && HonestActions(imageOf, s, actions)
    ensures ServesItsImage(imageOf, Acts(s, actions).row)
    decreases |actions|
  {
    hide ServesItsImage, HonestAction, Act;
    if actions != [] {
      ActServes(imageOf, s, actions[0]);
      ReadyUrlIsSelectedImages(imageOf, Act(s, actions[0]), actions[1..]);
    }
  }
}
