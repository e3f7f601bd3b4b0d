/** Which commits take a ready row down: over all interleavings, exactly when a
    row that is ready with a URL stays so. */
module BasemapReadiness {
  import opened Text
  import opened BasemapRow
  import opened BasemapProtocol

  /** The writes that leave a row not ready with a URL, whatever it was. A poll
      or a resume holds back only if the row it loaded was ready with a URL. */
  predicate Downgrades(p: Proc) {
    match p
    case SearchCommit => true
    case GenerateCommit(_, answer) => answer.status != Ready
    case GenerateFailing(_) => true
    case PollCommit(seen, answer) => answer.status != Ready && !ReadyWithUrl(seen)
    case ResumeCommit(seen, answer) => answer.status != Ready && !ReadyWithUrl(seen)
    case TilepackCommit(_) => true
    case TilepackAnswered(_, answer) => answer.status != Ready
    case AutostartFailing => true
    case _ => false
  }

  lemma StepDowngradesIff(row: Row, p: Proc, env: Env)
    requires ReadyWithUrl(row) && ProcOk(p)
    ensures !ReadyWithUrl(Step(row, p, env).0) <==> Downgrades(p)
  {
    hide Trim, Upstream;
  }

  predicate DowngradingEvent(s: Sys, e: Event) {
    e.Advance? && e.pid in s.procs && Downgrades(s.procs[e.pid])
  }

  ghost predicate ReadyThroughout(s: Sys, events: seq<Event>) {
    && ReadyWithUrl(Run(s, events).row)
    && (events != [] ==> ReadyThroughout(s, events[..|events| - 1]))
  }

  ghost predicate NoneDowngrades(s: Sys, events: seq<Event>) {
    events != [] ==>
      var init := events[..|events| - 1];
      NoneDowngrades(s, init) && !DowngradingEvent(Run(s, init), events[|events| - 1])
  }

  /** Over any interleaving of all writers a ready row stays ready with a URL at
      every point exactly when no downgrading commit takes its turn. */
  lemma {:induction false} ReadyThroughoutIff(s: Sys, events: seq<Event>)
    requires SysOk(s) && ReadyWithUrl(s.row)
    ensures ReadyThroughout(s, events) <==> NoneDowngrades(s, events)
  {
    hide SysOk, Next, ReadyWithUrl;
    if events != [] {
      var init, last := events[..|events| - 1], events[|events| - 1];
      ReadyThroughoutIff(s, init);
      ReadyAlwaysHasUrl(s, init);
      if ReadyThroughout(s, init) { NextDowngradesIff(Run(s, init), last); }
    }
  }

  lemma NextDowngradesIff(s: Sys, e: Event)
    requires SysOk(s) && ReadyWithUrl(s.row)
    ensures !ReadyWithUrl(Next(s, e).row) <==> DowngradingEvent(s, e)
  {
    hide Step, Downgrades, ReadyWithUrl;
    if e.Advance? && e.pid in s.procs { StepDowngradesIff(s.row, s.procs[e.pid], e.env); }
  }

  // ---- polls and attach requests ----

  /** A poll about to commit an answer that is not ready, having loaded the
      row before it was ready with a URL. */
  predicate StalePoll(s: Sys, e: Event) {
    && e.Advance? && e.pid in s.procs && s.procs[e.pid].PollCommit?
    && s.procs[e.pid].answer.status != Ready && !ReadyWithUrl(s.procs[e.pid].seen)
  }

  ghost predicate NoStalePoll(s: Sys, events: seq<Event>) {
    events != [] ==>
      var init := events[..|events| - 1];
      NoStalePoll(s, init) && !StalePoll(Run(s, init), events[|events| - 1])
  }

  /** The processes of polls, attach requests and jobs. */
  predicate PollsOrAttaches(p: Proc) {
    || p.PollStart? || p.PollCall? || p.PollCommit? || p.PollEnqueue?
    || p.AttachStart? || p.ReconcileCall? || p.ReconcileCommit? || p.AttachDecide? || p.AttachCommit?
    || p.SpawnJob? || p.Job?
  }

  ghost predicate OnlyPolls(s: Sys) {
    forall pid :: pid in s.procs ==> PollsOrAttaches(s.procs[pid])
  }

  lemma NextOnlyPolls(s: Sys, e: Event)
    requires OnlyPolls(s) && (e.Begin? ==> e.entry in {PollStart, AttachStart})
    ensures OnlyPolls(Next(s, e))
    ensures DowngradingEvent(s, e) <==> StalePoll(s, e)
  {
    hide Trim, Upstream, ReadyWithUrl;
  }

  lemma {:induction false} OnlyPollsRun(s: Sys, events: seq<Event>)
    requires OnlyPolls(s) && PollsAndAttachesOnly(events)
    ensures OnlyPolls(Run(s, events))
    ensures NoneDowngrades(s, events) <==> NoStalePoll(s, events)
  {
    hide Next, DowngradingEvent, StalePoll, OnlyPolls;
    if events != [] {
      var init := events[..|events| - 1];
      assert PollsAndAttachesOnly(init);
      OnlyPollsRun(s, init);
      NextOnlyPolls(Run(s, init), events[|events| - 1]);
    }
  }

  /** Over any interleaving of polls, attach requests and jobs a ready row stays
      ready with a URL at every point exactly when no poll commits an answer
      that is not ready after loading the row before it was. */
  lemma ReadyUnderPollsIff(s: Sys, events: seq<Event>)
    requires SysOk(s) && ReadyWithUrl(s.row) && OnlyPolls(s) && PollsAndAttachesOnly(events)
    ensures ReadyThroughout(s, events) <==> NoStalePoll(s, events)
  {
    ReadyThroughoutIff(s, events);
    OnlyPollsRun(s, events);
  }

  // ---- a resume never holds back ----

  /** Resumes in flight loaded a row that was generating. */
  ghost predicate ResumesSawGenerating(s: Sys) {
    forall pid :: pid in s.procs ==>
      && (s.procs[pid].ResumeCall? ==> s.procs[pid].seen.status == Generating)
      && (s.procs[pid].ResumeCommit? ==> s.procs[pid].seen.status == Generating)
  }

  lemma NextResumes(s: Sys, e: Event)
    requires ResumesSawGenerating(s)
    ensures ResumesSawGenerating(Next(s, e))
  {
    hide Trim, Upstream;
  }

  lemma {:induction false} ResumesAlwaysSawGenerating(s: Sys, events: seq<Event>)
    requires ResumesSawGenerating(s)
    ensures ResumesSawGenerating(Run(s, events))
  {
    hide Next, ResumesSawGenerating;
    if events != [] {
      ResumesAlwaysSawGenerating(s, events[..|events| - 1]);
      NextResumes(Run(s, events[..|events| - 1]), events[|events| - 1]);
    }
  }

  /** A resume's guard against downgrading never holds it back: wherever one
      is about to commit over a ready row, it takes the row down exactly when
      its answer is not ready, and then also no longer shows a running job. */
  lemma ResumeDowngradesIff(s: Sys, events: seq<Event>, pid: nat, env: Env)
    requires SysOk(s) && ResumesSawGenerating(s)
    requires var t := Run(s, events); pid in t.procs && t.procs[pid].ResumeCommit? && ReadyWithUrl(t.row)
    ensures var t := Run(s, events);
            var after := Next(t, Advance(pid, env)).row;
            && (!ReadyWithUrl(after) <==> t.procs[pid].answer.status != Ready)
            && (!ReadyWithUrl(after) ==> after.attach in {PendingAutostart, Idle})
  {
    hide Run;
    ReadyAlwaysHasUrl(s, events);
    ResumesAlwaysSawGenerating(s, events);
  }
}
