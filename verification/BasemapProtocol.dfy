/** The basemap lifecycle as a transition system. Every handler, background
    task and attach job is a process; each of its database reads, upstream
    answers and commits is one step, and the steps of different processes
    interleave freely. */
module BasemapProtocol {
  import opened Text
  import opened BasemapRow

  /** What a process does next. `seen` is the row the handler loaded. */
  datatype Proc =
    | SearchStart
    | SearchCommit
    | GenerateStart(target: string)
    | GenerateCall(target: string)          // first update made, not yet committed
    | GenerateCommit(target: string, answer: Answer)
    | GenerateFailing(wrote: Option<string>) // target of the uncommitted update, if made
    | PollStart
    | PollCall(seen: Row)
    | PollCommit(seen: Row, answer: Answer)
    | PollEnqueue(url: string)
    | AttachStart
    | ReconcileCall(seen: Row)
    | ReconcileCommit(seen: Row, url: string)
    | AttachDecide(seen: Row, url: string)
    | AttachCommit(url: string)
    | ClaimStart
    | AutostartStart
    | ResumeCall(seen: Row)
    | ResumeCommit(seen: Row, answer: Answer)
    | SelectCall
    | TilepackCommit(target: string)
    | TilepackCall(target: string)
    | TilepackAnswered(target: string, answer: Answer)
    | AutostartFailing
    | SpawnJob(url: string)                 // `in_progress` committed, job not yet spawned
    | Job(url: string, attempt: nat)

  datatype AttachOutcome = AttachOk | AttachTransient | AttachPermanent

  /** Everything a step may learn from outside. */
  datatype Env = Env(
    unreachable: bool,
    code: int,
    payload: Payload,
    selected: Option<string>,
    configured: bool,
    outcome: AttachOutcome)

  const MAX_RETRY_ATTEMPTS: nat := 1

  /** The tilepack API's answer; `None` when the call raises. */
  function Upstream(env: Env): Option<Answer> {
    if env.unreachable then None else ParseTilepackStatus(env.code, env.payload)
  }

  /** The two updates of a generate request share one transaction: the row
      stays locked in between, so they take effect together at the commit. */
  function GenerateFirst(target: string): Patch {
    Patch(item := Some(target), status := Some(Generating), attach := Some(Idle))
  }

  function TilepackFirst(target: string): Patch {
    Patch(item := Some(target), status := Some(Generating), attach := Some(PendingAutostart))
  }

  /** The status to persist after a poll: a row seen as ready with a URL is
      not downgraded. */
  function ResolveStatus(seen: Row, upstream: GenStatus, isReadyWithUrl: bool): GenStatus {
    if ReadyWithUrl(seen) && !isReadyWithUrl then Ready else upstream
  }

  function NextAttach(answer: Answer, isReadyWithUrl: bool): AttachStatus {
    if isReadyWithUrl then InProgress
    else if answer.status == Generating then PendingAutostart
    else Idle
  }

  predicate AutostartSkipped(row: Row) {
    || !row.qfield
    || !row.published
    || row.status == Ready
    || (row.status == Generating && !Blank(row.item))
  }

  /** One step of a process: the row it leaves and what the process does
      next, `None` when it has ended. */
  function Step(row: Row, p: Proc, env: Env): (Row, Option<Proc>) {
    match p
    case SearchStart => (row, if row.published then Some(SearchCommit) else None)
    case SearchCommit => (Apply(row, Patch(status := Some(Searching))), None)

    case GenerateStart(target) =>
      if row.item == Some(target) && row.status in {Generating, Ready} then (row, None)
      else (row, Some(GenerateCall(target)))
    case GenerateCall(target) =>
      var answer := Upstream(env);
      if answer.None? then (row, Some(GenerateFailing(Some(target))))
      else (row, Some(GenerateCommit(target, answer.value)))
    case GenerateCommit(target, answer) =>
      var first := Apply(row, GenerateFirst(target));
      (Apply(first, Patch(status := Some(answer.status), url := answer.url)), None)
    case GenerateFailing(wrote) =>
      var first := if wrote.Some? then Apply(row, GenerateFirst(wrote.value)) else row;
      (Apply(first, Patch(status := Some(Failed))), None)

    case PollStart => (row, if NonEmpty(row.item) then Some(PollCall(row)) else None)
    case PollCall(seen) =>
      var answer := Upstream(env);
      (row, if answer.None? then None else Some(PollCommit(seen, answer.value)))
    case PollCommit(seen, answer) =>
      var resolved := Or(answer.url, seen.url);
      var isReady := answer.status == Ready && NonEmpty(resolved);
      var status := ResolveStatus(seen, answer.status, isReady);
      (Apply(row, Patch(status := Some(status), url := resolved)),
       if isReady && seen.attach == PendingAutostart then Some(PollEnqueue(resolved.value)) else None)
    case PollEnqueue(url) =>
      (Apply(row, Patch(attach := Some(InProgress))), Some(SpawnJob(url)))

    case AttachStart =>
      if !row.published || !row.qfield || row.status != Ready then (row, None)
      else if NonEmpty(row.url) then (row, Some(AttachDecide(row, row.url.value)))
      else (row, Some(ReconcileCall(row)))
    case ReconcileCall(seen) =>
      var answer := Upstream(env);
      if Blank(seen.item) || answer.None? then (row, None)
      else if answer.value.status == Ready && NonEmpty(answer.value.url) then
        (row, Some(ReconcileCommit(seen, answer.value.url.value)))
      else (row, None)
    case ReconcileCommit(seen, url) =>
      (Apply(row, Patch(status := Some(Ready), url := Some(url))), Some(AttachDecide(seen, url)))
    case AttachDecide(seen, url) =>
      if !env.configured || seen.attach in {InProgress, Attached} then (row, None)
      else (row, Some(AttachCommit(url)))
    case AttachCommit(url) =>
      (Apply(row, Patch(attach := Some(InProgress))), Some(SpawnJob(url)))

    case ClaimStart =>
      if Claimable(row) then (Claimed(row), Some(AutostartStart)) else (row, None)
    case AutostartStart =>
      if row.status == Generating && !Blank(row.item) then (row, Some(ResumeCall(row)))
      else if AutostartSkipped(row) then (row, None)
      else (row, Some(SelectCall))
    case ResumeCall(seen) =>
      var answer := Upstream(env);
      (row, Some(if answer.None? then AutostartFailing else ResumeCommit(seen, answer.value)))
    case ResumeCommit(seen, answer) =>
      var resolved := Or(answer.url, seen.url);
      var isReady := answer.status == Ready && NonEmpty(resolved);
      var status := ResolveStatus(seen, answer.status, isReady);
      (Apply(row, Patch(status := Some(status), url := resolved, attach := Some(NextAttach(answer, isReady)))),
       if isReady then Some(SpawnJob(resolved.value)) else None)
    case SelectCall =>
      (row, Some(if Blank(env.selected) then AutostartFailing else TilepackCommit(Trim(env.selected.value))))
    case TilepackCommit(target) =>
      (Apply(row, TilepackFirst(target)), Some(TilepackCall(target)))
    case TilepackCall(target) =>
      var answer := Upstream(env);
      (row, Some(if answer.None? then AutostartFailing else TilepackAnswered(target, answer.value)))
    case TilepackAnswered(_, answer) =>
      var isReady := answer.status == Ready && NonEmpty(answer.url);
      (Apply(row, Patch(status := Some(answer.status), url := answer.url,
                        attach := Some(NextAttach(answer, isReady)))),
       if isReady then Some(SpawnJob(answer.url.value)) else None)
    case AutostartFailing =>
      (Apply(row, Patch(status := Some(Failed), attach := Some(Idle))), None)

    case SpawnJob(url) => (row, Some(Job(url, 0)))
    case Job(url, attempt) =>
      match env.outcome
      case AttachOk => (Apply(row, Patch(attach := Some(Attached))), None)
      case AttachTransient =>
        if attempt < MAX_RETRY_ATTEMPTS then (row, Some(Job(url, attempt + 1)))
        else (Apply(row, Patch(attach := Some(AttachFailed))), None)
      case AttachPermanent => (Apply(row, Patch(attach := Some(AttachFailed))), None)
  }

  /** What becomes of a process whose current action raises before it takes
      effect. Nothing raises between the `in_progress` commit and the spawn,
      and a job handles its own exceptions. */
  function Raised(p: Proc): Option<Proc> {
    match p
    case GenerateStart(_) => Some(GenerateFailing(None))
    case GenerateCall(target) => Some(GenerateFailing(Some(target)))
    case GenerateCommit(target, _) => Some(GenerateFailing(Some(target)))
    case AutostartStart => Some(AutostartFailing)
    case ResumeCall(_) => Some(AutostartFailing)
    case ResumeCommit(_, _) => Some(AutostartFailing)
    case SelectCall => Some(AutostartFailing)
    case TilepackCommit(_) => Some(AutostartFailing)
    case TilepackCall(_) => Some(AutostartFailing)
    case TilepackAnswered(_, _) => Some(AutostartFailing)
    case SpawnJob(_) => Some(p)
    case Job(_, _) => Some(p)
    case _ => None
  }

  // ---- interleaved runs ----

  datatype Sys = Sys(row: Row, procs: map<nat, Proc>)

  datatype Event =
    | Begin(pid: nat, entry: Proc)
    | Advance(pid: nat, env: Env)
    | Raise(pid: nat)

  /** The requests that start a process from outside. */
  predicate IsEntry(p: Proc) {
    p.SearchStart? || p.GenerateStart? || p.PollStart? || p.AttachStart? || p.ClaimStart?
  }

  function Put(procs: map<nat, Proc>, pid: nat, p: Option<Proc>): map<nat, Proc> {
    if p.Some? then procs[pid := p.value] else procs - {pid}
  }

  /** Events that name a process that is not there do nothing. */
  function Next(s: Sys, e: Event): Sys {
    match e
    case Begin(pid, entry) =>
      if pid in s.procs || !IsEntry(entry) then s else s.(procs := s.procs[pid := entry])
    case Advance(pid, env) =>
      if pid !in s.procs then s
      else var (row, p) := Step(s.row, s.procs[pid], env); Sys(row, Put(s.procs, pid, p))
    case Raise(pid) =>
      if pid !in s.procs then s else s.(procs := Put(s.procs, pid, Raised(s.procs[pid])))
  }

  function Run(s: Sys, events: seq<Event>): Sys {
    if events == [] then s else Next(Run(s, events[..|events| - 1]), events[|events| - 1])
  }

  lemma {:induction false} RunSplit(s: Sys, first: seq<Event>, rest: seq<Event>)
    ensures Run(s, first + rest) == Run(Run(s, first), rest)
  {
    if rest == [] {
      assert first + rest == first;
    } else {
      var init := rest[..|rest| - 1];
      RunSplit(s, first, init);
      assert (first + rest)[..|first + rest| - 1] == first + init;
    }
  }

  lemma RunSnoc(s: Sys, events: seq<Event>, e: Event)
    ensures Run(s, events + [e]) == Next(Run(s, events), e)
  {
    assert (events + [e])[..|events|] == events;
  }

  // ---- ready means downloadable ----

  /** What a process may carry: parsed answers, and URLs that are not empty. */
  predicate ProcOk(p: Proc) {
    match p
    case GenerateCommit(_, answer) => AnswerOk(answer)
    case PollCommit(_, answer) => AnswerOk(answer)
    case ResumeCommit(_, answer) => AnswerOk(answer)
    case TilepackAnswered(_, answer) => AnswerOk(answer)
    case PollEnqueue(url) => url != ""
    case ReconcileCommit(_, url) => url != ""
    case AttachDecide(_, url) => url != ""
    case AttachCommit(url) => url != ""
    case SpawnJob(url) => url != ""
    case Job(url, attempt) => url != "" && attempt <= MAX_RETRY_ATTEMPTS
    case _ => true
  }

  ghost predicate SysOk(s: Sys) {
    && RowOk(s.row)
    && forall pid :: pid in s.procs ==> ProcOk(s.procs[pid])
  }

  lemma StepKeepsOk(row: Row, p: Proc, env: Env)
    requires RowOk(row) && ProcOk(p)
    ensures var (row', p') := Step(row, p, env); RowOk(row') && (p'.Some? ==> ProcOk(p'.value))
  {
    if !env.unreachable { ParsedAnswersAreOk(env.code, env.payload); }
  }

  lemma NextKeepsOk(s: Sys, e: Event)
    requires SysOk(s)
    ensures SysOk(Next(s, e))
  {
    match e
    case Begin(pid, entry) =>
    case Advance(pid, env) =>
      if pid in s.procs { StepKeepsOk(s.row, s.procs[pid], env); }
    case Raise(pid) =>
  }

  /** In every interleaving of every writer, a `ready` row has a URL, and so
      does every attach job that was ever started. */
  lemma {:induction false} ReadyAlwaysHasUrl(s: Sys, events: seq<Event>)
    requires SysOk(s)
    ensures var t := Run(s, events);
            && SysOk(t)
            && (t.row.status == Ready ==> t.row.url.Some? && t.row.url.value != "")
            && (forall pid :: pid in t.procs && t.procs[pid].Job? ==> t.procs[pid].url != "")
  {
    if events != [] {
      ReadyAlwaysHasUrl(s, events[..|events| - 1]);
      NextKeepsOk(Run(s, events[..|events| - 1]), events[|events| - 1]);
    }
  }

  // ---- in progress means a job ----

  predicate IsUnfinishedJob(p: Proc) {
    p.SpawnJob? || p.Job?
  }

  ghost predicate InProgressHasJob(s: Sys) {
    s.row.attach == InProgress ==> exists pid :: pid in s.procs && IsUnfinishedJob(s.procs[pid])
  }

  /** A step that leaves `in_progress` behind either keeps its process a job,
      or found `in_progress` there and was not a job. */
  lemma StepInProgress(row: Row, p: Proc, env: Env)
    requires Step(row, p, env).0.attach == InProgress
    ensures var next := Step(row, p, env).1;
            || (next.Some? && IsUnfinishedJob(next.value))
            || (row.attach == InProgress && !IsUnfinishedJob(p))
  {
  }

  lemma NextKeepsJob(s: Sys, e: Event)
    requires InProgressHasJob(s)
    ensures InProgressHasJob(Next(s, e))
  {
    var s' := Next(s, e);
    if s'.row.attach == InProgress && s' != s {
      if e.Advance? {
        StepInProgress(s.row, s.procs[e.pid], e.env);
        if e.pid in s'.procs && IsUnfinishedJob(s'.procs[e.pid]) { return; }
      }
      var pid :| pid in s.procs && IsUnfinishedJob(s.procs[pid]);
      assert pid in s'.procs && IsUnfinishedJob(s'.procs[pid]);
    }
  }

  /** In every interleaving, an attach shown as in progress is one that some
      unfinished job will still settle. */
  lemma {:induction false} InProgressAlwaysHasJob(s: Sys, events: seq<Event>)
    requires InProgressHasJob(s)
    ensures var t := Run(s, events);
            && InProgressHasJob(t)
            && (t.row.attach == InProgress ==>
                 exists pid :: pid in t.procs && (t.procs[pid].SpawnJob? || t.procs[pid].Job?))
  {
    if events != [] {
      InProgressAlwaysHasJob(s, events[..|events| - 1]);
      NextKeepsJob(Run(s, events[..|events| - 1]), events[|events| - 1]);
    }
  }

  /** A job's attempt ends it in `ready` or `failed`, except a first one that
      fails transiently. */
  lemma JobStepSettles(s: Sys, pid: nat, url: string, attempt: nat, env: Env)
    requires pid in s.procs && s.procs[pid] == Job(url, attempt)
    ensures Next(s, Advance(pid, env)) ==
      if env.outcome == AttachTransient && attempt < MAX_RETRY_ATTEMPTS
      then Sys(s.row, s.procs[pid := Job(url, attempt + 1)])
      else Sys(s.row.(attach := if env.outcome == AttachOk then Attached else AttachFailed), s.procs - {pid})
  {
  }

  // ---- no downgrade ----

  /** The processes of status polls, attach requests and jobs, as far as they
      got when every row they saw was ready with a URL. */
  predicate SawReady(p: Proc) {
    match p
    case PollStart => true
    case PollCall(seen) => ReadyWithUrl(seen)
    case PollCommit(seen, answer) => ReadyWithUrl(seen) && AnswerOk(answer)
    case PollEnqueue(_) => true
    case AttachStart => true
    case AttachDecide(_, _) => true
    case AttachCommit(_) => true
    case SpawnJob(_) => true
    case Job(_, _) => true
    case _ => false
  }

  ghost predicate Settled(s: Sys) {
    && ReadyWithUrl(s.row)
    && forall pid :: pid in s.procs ==> SawReady(s.procs[pid])
  }

  predicate PollsAndAttachesOnly(events: seq<Event>) {
    forall i :: 0 <= i < |events| && events[i].Begin? ==> events[i].entry in {PollStart, AttachStart}
  }

  lemma StepKeepsSettled(row: Row, p: Proc, env: Env)
    requires ReadyWithUrl(row) && SawReady(p)
    ensures var (row', p') := Step(row, p, env); ReadyWithUrl(row') && (p'.Some? ==> SawReady(p'.value))
  {
    if !env.unreachable { ParsedAnswersAreOk(env.code, env.payload); }
  }

  lemma NextKeepsSettled(s: Sys, e: Event)
    requires Settled(s)
    requires e.Begin? ==> e.entry in {PollStart, AttachStart}
    ensures Settled(Next(s, e))
  {
    match e
    case Begin(pid, entry) =>
    case Advance(pid, env) =>
      if pid in s.procs { StepKeepsSettled(s.row, s.procs[pid], env); }
    case Raise(pid) =>
  }

  /** Once the row is ready with a URL and no older poll is in flight, any
      interleaving of polls, attach requests and jobs keeps it so, whatever
      the API answers. */
  lemma {:induction false} NoDowngrade(s: Sys, events: seq<Event>)
    requires Settled(s) && PollsAndAttachesOnly(events)
    ensures Settled(Run(s, events))
  {
    if events != [] {
      var init := events[..|events| - 1];
      assert PollsAndAttachesOnly(init);
      NoDowngrade(s, init);
      NextKeepsSettled(Run(s, init), events[|events| - 1]);
    }
  }

  /** A poll takes a ready row down exactly when the row it loaded was not
      ready with a URL and neither is the answer. */
  lemma PollDowngradesIff(row: Row, seen: Row, answer: Answer, env: Env)
    requires ReadyWithUrl(row) && AnswerOk(answer)
    ensures !ReadyWithUrl(Step(row, PollCommit(seen, answer), env).0)
            <==> !ReadyWithUrl(seen) && answer.status != Ready
  {
  }
}
