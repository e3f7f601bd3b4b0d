/** Handlers that run without interruption: what one request does from its
    first read to its last commit, and what sequences of such requests and
    attach-job steps keep. */
module BasemapSerial {
  import opened Text
  import opened Wording
  import opened BasemapRow
  import opened BasemapProtocol

  /** Steps a process still needs before it ends or becomes a job. */
  function Rank(p: Proc): nat {
    match p
    case Job(_, _) => 0
    case SpawnJob(_) => 1
    case SearchCommit => 1
    case GenerateCommit(_, _) => 1
    case GenerateFailing(_) => 1
    case AutostartFailing => 1
    case SearchStart => 2
    case GenerateCall(_) => 2
    case PollEnqueue(_) => 2
    case AttachCommit(_) => 2
    case ResumeCommit(_, _) => 2
    case TilepackAnswered(_, _) => 2
    case GenerateStart(_) => 3
    case PollCommit(_, _) => 3
    case AttachDecide(_, _) => 3
    case ResumeCall(_) => 3
    case TilepackCall(_) => 3
    case PollCall(_) => 4
    case ReconcileCommit(_, _) => 4
    case TilepackCommit(_) => 4
    case PollStart => 5
    case ReconcileCall(_) => 5
    case SelectCall => 5
    case AttachStart => 6
    case AutostartStart => 6
    case ClaimStart => 7
  }

  lemma StepsRunOut(row: Row, p: Proc, env: Env)
    requires !p.Job?
    ensures var next := Step(row, p, env).1; next.Some? ==> Rank(next.value) < Rank(p)
  {
  }

  /** A process run on its own until it ends or has become a job. */
  function Complete(row: Row, p: Proc, env: Env): (r: (Row, Option<Proc>))
    ensures r.1.Some? ==> r.1.value.Job?
    decreases Rank(p)
  {
    if p.Job? then (row, Some(p))
    else
      StepsRunOut(row, p, env);
      var (row', p') := Step(row, p, env);
      if p'.None? then (row', None) else Complete(row', p'.value, env)
  }

  /** One request handled start to end while nothing else happens. */
  function Handle(s: Sys, pid: nat, entry: Proc, env: Env): Sys {
    if pid in s.procs || !IsEntry(entry) then s
    else var (row, p) := Complete(s.row, entry, env); Sys(row, Put(s.procs, pid, p))
  }

  lemma {:induction false} CompleteIsRun(s: Sys, pid: nat, env: Env) returns (events: seq<Event>)
    requires pid in s.procs
    ensures var (row, p) := Complete(s.row, s.procs[pid], env);
            Run(s, events) == Sys(row, Put(s.procs, pid, p))
    ensures forall i :: 0 <= i < |events| ==> !events[i].Begin?
    decreases Rank(s.procs[pid])
  {
    var p := s.procs[pid];
    if p.Job? {
      events := [];
      assert s.procs[pid := p] == s.procs;
    } else {
      StepsRunOut(s.row, p, env);
      var s' := Next(s, Advance(pid, env));
      RunSnoc(s, [], Advance(pid, env));
      assert [] + [Advance(pid, env)] == [Advance(pid, env)];
      var next := Step(s.row, p, env).1;
      if next.None? {
        events := [Advance(pid, env)];
      } else {
        var rest := CompleteIsRun(s', pid, env);
        RunSplit(s, [Advance(pid, env)], rest);
        events := [Advance(pid, env)] + rest;
        var (row, o) := Complete(s.row, p, env);
        assert Put(s'.procs, pid, o) == Put(s.procs, pid, o);
      }
    }
  }

  /** Handling a request in one go is one of the protocol's interleavings, so
      every invariant of BasemapProtocol holds of it; and each of the five
      requests is handled. */
  lemma HandleIsRun(s: Sys, pid: nat, entry: Proc, env: Env)
    ensures exists events: seq<Event> :: Run(s, events) == Handle(s, pid, entry, env)
    ensures && pid !in s.procs
            && (|| entry.SearchStart? || entry.GenerateStart?
                || entry.PollStart? || entry.AttachStart? || entry.ClaimStart?)
            ==> Handle(s, pid, entry, env).row == Complete(s.row, entry, env).0
  {
    if pid in s.procs || !IsEntry(entry) {
      assert Run(s, []) == s;
    } else {
      var s' := Next(s, Begin(pid, entry));
      var rest := CompleteIsRun(s', pid, env);
      RunSnoc(s, [], Begin(pid, entry));
      assert [] + [Begin(pid, entry)] == [Begin(pid, entry)];
      RunSplit(s, [Begin(pid, entry)], rest);
      var (row, o) := Complete(s.row, entry, env);
      assert Put(s'.procs, pid, o) == Put(s.procs, pid, o);
      assert Run(s, [Begin(pid, entry)] + rest) == Handle(s, pid, entry, env);
    }
  }

  // ---- what each request does as a whole ----

  /** A status poll, start to end. */
  function PollResult(row: Row, env: Env): (Row, Option<Proc>) {
    var answer := Upstream(env);
    if !NonEmpty(row.item) || answer.None? then (row, None)
    else if answer.value.status == Ready then
      var polled := row.(status := Ready, url := answer.value.url);
      if row.attach == PendingAutostart
      then (polled.(attach := InProgress), Some(Job(answer.value.url.value, 0)))
      else (polled, None)
    else if row.status == Ready && row.url.Some? && row.url.value != "" then (row, None)
    else (row.(status := answer.value.status), None)
  }

  /** A poll in one go promotes on a ready answer, leaves a ready row as it
      is on any other, and otherwise writes only the status; it starts a job
      exactly when it promotes a row reserved for autostart. */
  lemma PollInOneGo(row: Row, env: Env)
    ensures Complete(row, PollStart, env) == PollResult(row, env)
  {
    if !env.unreachable { ParsedAnswersAreOk(env.code, env.payload); }
    var answer := Upstream(env);
    if NonEmpty(row.item) {
      assert Complete(row, PollStart, env) == Complete(row, PollCall(row), env);
      if answer.Some? {
        var commit := PollCommit(row, answer.value);
        assert Complete(row, PollCall(row), env) == Complete(row, commit, env);
        var (row', next) := Step(row, commit, env);
        if next.Some? {
          assert Complete(row, commit, env) == Complete(row', next.value, env);
          PollEnqueueInOneGo(row', next.value.url, env);
        }
      }
    }
  }

  lemma PollEnqueueInOneGo(row: Row, url: string, env: Env)
    ensures Complete(row, PollEnqueue(url), env) == (row.(attach := InProgress), Some(Job(url, 0)))
  {
    var row' := row.(attach := InProgress);
    assert Complete(row', SpawnJob(url), env) == Complete(row', Job(url, 0), env);
  }

  /** What a poll of a generating row does with every answer: an unreachable
      API or a code that raises leaves the row alone; 202, 429 and a 200 without
      a URL keep it generating; it fails exactly on another code below 400 whose
      state says neither ready nor running. */
  lemma PollLaw(row: Row, env: Env)
    requires row.status == Generating && row.item.Some? && row.item.value != ""
    ensures var (after, job) := Complete(row, PollStart, env);
            && (env.unreachable || (env.code >= 400 && env.code != 429) ==> after == row && job == None)
            && (!env.unreachable && (env.code in {202, 429} || (env.code == 200 && NoUrl(env.payload))) ==>
                 after.status == Generating)
            && (after.status == Failed <==>
                 && !env.unreachable && env.code < 400 && env.code != 200 && env.code != 202
                 && !SaysReady(env.payload) && !SaysRunning(env.payload))
            && (after.status == Ready <==>
                 && !env.unreachable && (exists url :: GivesUrl(env.payload, url))
                 && (env.code == 200 || (env.code < 400 && env.code != 202 && SaysReady(env.payload))))
  {
    hide Complete, SaysReady, SaysRunning, GivesUrl, ParseTilepackStatus;
    PollInOneGo(row, env);
    AnswerLaw(env.code, env.payload);
    ParsedAnswersAreOk(env.code, env.payload);
  }

  /** The claim takes effect exactly on a published QField row without an
      image, blank at most, whose status is unset, generating or failed. */
  lemma ClaimLaw(row: Row, env: Env)
    ensures Step(row, ClaimStart, env)
            == if && row.published && row.qfield && (row.item.None? || White(row.item.value))
                  && (row.status == Unset || row.status == Generating || row.status == Failed)
               then (row.(status := Generating, url := None, attach := PendingAutostart), Some(AutostartStart))
               else (row, None)
  {
    hide Blank;
    BlankIs(row.item);
  }

  /** What an exception leaves behind: an autostart fails and goes idle, a
      generate request fails for the image it was asked for, a job is not
      affected, and any other request ends without a write. */
  lemma RaisedLaw(s: Sys, pid: nat, env: Env)
    requires pid in s.procs
    ensures var p := s.procs[pid];
            var raised := Next(s, Raise(pid));
            var after := Next(raised, Advance(pid, env));
            match p
            case AutostartStart => after == Sys(s.row.(status := Failed, attach := Idle), s.procs - {pid})
            case SelectCall => after == Sys(s.row.(status := Failed, attach := Idle), s.procs - {pid})
            case ResumeCall(_) => after == Sys(s.row.(status := Failed, attach := Idle), s.procs - {pid})
            case ResumeCommit(_, _) => after == Sys(s.row.(status := Failed, attach := Idle), s.procs - {pid})
            case TilepackCommit(_) => after == Sys(s.row.(status := Failed, attach := Idle), s.procs - {pid})
            case TilepackCall(_) => after == Sys(s.row.(status := Failed, attach := Idle), s.procs - {pid})
            case TilepackAnswered(_, _) => after == Sys(s.row.(status := Failed, attach := Idle), s.procs - {pid})
            case GenerateStart(_) => after == Sys(s.row.(status := Failed), s.procs - {pid})
            case GenerateCall(target) =>
              after == Sys(s.row.(item := Some(target), status := Failed, attach := Idle), s.procs - {pid})
            case GenerateCommit(target, _) =>
              after == Sys(s.row.(item := Some(target), status := Failed, attach := Idle), s.procs - {pid})
            case SpawnJob(_) => raised == s
            case Job(_, _) => raised == s
            case _ => raised == Sys(s.row, s.procs - {pid})
  {
    hide Upstream, Blank, Trim;
    assert s.procs[pid := s.procs[pid]] == s.procs;
    var raised := Next(s, Raise(pid));
    if pid in raised.procs { assert raised.procs - {pid} == s.procs - {pid}; }
  }

  /** The URL an attach request works with: the stored one, or for a ready
      row without one the URL a re-poll recovers. */
  function AttachUrl(row: Row, env: Env): Option<string> {
    var answer := Upstream(env);
    if NonEmpty(row.url) then row.url
    else if Blank(row.item) || answer.None? || answer.value.status != Ready then None
    else answer.value.url
  }

  /** An attach request, start to end: it heals a ready row without a URL,
      and starts a job only when none is in progress or done. */
  function AttachResult(row: Row, env: Env): (Row, Option<Proc>) {
    var url := AttachUrl(row, env);
    if !row.published || !row.qfield || row.status != Ready || url.None? then (row, None)
    else if !env.configured || row.attach in {InProgress, Attached} then (row.(url := url), None)
    else (row.(url := url, attach := InProgress), Some(Job(url.value, 0)))
  }

  lemma AttachInOneGo(row: Row, env: Env)
    ensures Complete(row, AttachStart, env) == AttachResult(row, env)
  {
    if !env.unreachable { ParsedAnswersAreOk(env.code, env.payload); }
    var url := AttachUrl(row, env);
    if row.published && row.qfield && row.status == Ready {
      if NonEmpty(row.url) {
        assert Complete(row, AttachStart, env) == Complete(row, AttachDecide(row, row.url.value), env);
        AttachDecideInOneGo(row, row, row.url.value, env);
      } else {
        assert Complete(row, AttachStart, env) == Complete(row, ReconcileCall(row), env);
        if url.Some? {
          var healed := row.(url := url);
          var commit := ReconcileCommit(row, url.value);
          assert Complete(row, ReconcileCall(row), env) == Complete(row, commit, env);
          assert Complete(row, commit, env) == Complete(healed, AttachDecide(row, url.value), env);
          AttachDecideInOneGo(healed, row, url.value, env);
        }
      }
    }
  }

  lemma AttachDecideInOneGo(row: Row, seen: Row, url: string, env: Env)
    ensures Complete(row, AttachDecide(seen, url), env)
            == if !env.configured || seen.attach in {InProgress, Attached} then (row, None)
               else (row.(attach := InProgress), Some(Job(url, 0)))
  {
    if env.configured && seen.attach !in {InProgress, Attached} {
      var row' := row.(attach := InProgress);
      assert Complete(row, AttachDecide(seen, url), env) == Complete(row, AttachCommit(url), env);
      assert Complete(row, AttachCommit(url), env) == Complete(row', SpawnJob(url), env);
      assert Complete(row', SpawnJob(url), env) == Complete(row', Job(url, 0), env);
    }
  }

  /** A generate request, start to end: it repeats itself harmlessly, and
      otherwise resets the attach to idle and keeps the old URL unless the
      API hands out a new one. */
  function GenerateResult(row: Row, target: string, env: Env): Row {
    var answer := Upstream(env);
    if row.item == Some(target) && row.status in {Generating, Ready} then row
    else if answer.None? then row.(item := Some(target), status := Failed, attach := Idle)
    else row.(item := Some(target), status := answer.value.status, attach := Idle,
              url := if answer.value.url.Some? then answer.value.url else row.url)
  }

  lemma GenerateInOneGo(row: Row, target: string, env: Env)
    ensures Complete(row, GenerateStart(target), env) == (GenerateResult(row, target, env), None)
  {
    if !(row.item == Some(target) && row.status in {Generating, Ready}) {
      var next := Step(row, GenerateCall(target), env).1.value;
      assert Complete(row, GenerateStart(target), env) == Complete(row, GenerateCall(target), env);
      assert Complete(row, GenerateCall(target), env) == Complete(row, next, env);
    }
  }

  /** Starting a tilepack for a chosen image, start to end. */
  function TilepackResult(row: Row, target: string, env: Env): (Row, Option<Proc>) {
    var answer := Upstream(env);
    var chosen := row.(item := Some(target));
    if answer.None? then (chosen.(status := Failed, attach := Idle), None)
    else match answer.value.status
      case Ready =>
        (chosen.(status := Ready, url := answer.value.url, attach := InProgress),
         Some(Job(if answer.value.url.Some? then answer.value.url.value else "", 0)))
      case Generating => (chosen.(status := Generating, attach := PendingAutostart), None)
      case other => (chosen.(status := other, attach := Idle), None)
  }

  lemma TilepackInOneGo(row: Row, target: string, env: Env)
    ensures Complete(row, TilepackCommit(target), env) == TilepackResult(row, target, env)
    ensures Step(row, TilepackCommit(target), env)
            == (row.(item := Some(target), status := Generating, attach := PendingAutostart),
                Some(TilepackCall(target)))
  {
    if !env.unreachable { ParsedAnswersAreOk(env.code, env.payload); }
    var row' := Apply(row, TilepackFirst(target));
    var next := Step(row', TilepackCall(target), env).1.value;
    assert Complete(row, TilepackCommit(target), env) == Complete(row', TilepackCall(target), env);
    assert Complete(row', TilepackCall(target), env) == Complete(row', next, env);
    if next.TilepackAnswered? {
      var (row'', last) := Step(row', next, env);
      if last.Some? {
        assert Complete(row', next, env) == Complete(row'', last.value, env);
        assert Complete(row'', last.value, env) == Complete(row'', Job(last.value.url, 0), env);
      }
    }
  }

  /** An autostart, start to end. */
  function AutostartResult(row: Row, env: Env): (Row, Option<Proc>) {
    var answer := Upstream(env);
    var failed := (row.(status := Failed, attach := Idle), None);
    if row.status == Generating && !Blank(row.item) then
      if answer.None? then failed
      else match answer.value.status
        case Ready =>
          (row.(status := Ready, url := answer.value.url, attach := InProgress),
           Some(Job(if answer.value.url.Some? then answer.value.url.value else "", 0)))
        case Generating => (row.(attach := PendingAutostart), None)
        case other => (row.(status := other, attach := Idle), None)
    else if !row.qfield || !row.published || row.status == Ready then (row, None)
    else if Blank(env.selected) then failed
    else TilepackResult(row, Trim(env.selected.value), env)
  }

  lemma AutostartInOneGo(row: Row, env: Env)
    ensures Complete(row, AutostartStart, env) == AutostartResult(row, env)
  {
    if row.status == Generating && !Blank(row.item) {
      assert Complete(row, AutostartStart, env) == Complete(row, ResumeCall(row), env);
      ResumeInOneGo(row, env);
    } else if !AutostartSkipped(row) {
      assert Complete(row, AutostartStart, env) == Complete(row, SelectCall, env);
      var next := Step(row, SelectCall, env).1.value;
      assert Complete(row, SelectCall, env) == Complete(row, next, env);
      if next.TilepackCommit? { TilepackInOneGo(row, next.target, env); }
    }
  }

  lemma ResumeInOneGo(row: Row, env: Env)
    requires row.status == Generating && !Blank(row.item)
    ensures Complete(row, ResumeCall(row), env) == AutostartResult(row, env)
  {
    if !env.unreachable { ParsedAnswersAreOk(env.code, env.payload); }
    var next := Step(row, ResumeCall(row), env).1.value;
    assert Complete(row, ResumeCall(row), env) == Complete(row, next, env);
    if next.ResumeCommit? {
      var (row', last) := Step(row, next, env);
      if last.Some? {
        assert Complete(row, next, env) == Complete(row', last.value, env);
        assert Complete(row', last.value, env) == Complete(row', Job(last.value.url, 0), env);
      }
    }
  }

  /** A claim and the autostart it spawns. */
  lemma ClaimInOneGo(row: Row, env: Env)
    ensures Complete(row, ClaimStart, env)
            == if Claimable(row) then AutostartResult(Claimed(row), env) else (row, None)
  {
    if Claimable(row) {
      AutostartInOneGo(Claimed(row), env);
      assert Complete(row, ClaimStart, env) == Complete(Claimed(row), AutostartStart, env);
    }
  }

  // ---- exactly one job while in progress ----

  datatype Action =
    | Request(pid: nat, entry: Proc, env: Env)
    | JobStep(pid: nat, env: Env)

  function Act(s: Sys, a: Action): Sys {
    match a
    case Request(pid, entry, env) => Handle(s, pid, entry, env)
    case JobStep(pid, env) => Next(s, Advance(pid, env))
  }

  function Acts(s: Sys, actions: seq<Action>): Sys
    decreases |actions|
  {
    if actions == [] then s else Acts(Act(s, actions[0]), actions[1..])
  }

  ghost predicate AllJobs(s: Sys) {
    forall pid :: pid in s.procs ==> s.procs[pid].Job?
  }

  /** The number of unfinished attach jobs is what the attach status says. */
  ghost predicate JobCountOk(s: Sys) {
    && AllJobs(s)
    && |s.procs| == (if s.row.attach == InProgress then 1 else 0)
  }

  lemma PutSize(procs: map<nat, Proc>, pid: nat, p: Option<Proc>)
    ensures var size := |procs| - (if pid in procs then 1 else 0);
            |Put(procs, pid, p)| == size + (if p.Some? then 1 else 0)
  {
    if p.Some? {
      assert Put(procs, pid, p).Keys == procs.Keys + {pid};
    } else {
      assert Put(procs, pid, p).Keys == procs.Keys - {pid};
    }
    assert |procs.Keys| == |procs|;
  }

  lemma RequestKeepsJobCount(s: Sys, pid: nat, row: Row, p: Option<Proc>)
    requires JobCountOk(s) && pid !in s.procs
    requires p.Some? ==> p.value.Job? && s.row.attach != InProgress && row.attach == InProgress
    requires p.None? ==> row.attach == s.row.attach
    ensures JobCountOk(Sys(row, Put(s.procs, pid, p)))
  {
    PutSize(s.procs, pid, p);
  }

  lemma JobStepKeepsJobCount(s: Sys, pid: nat, env: Env)
    requires JobCountOk(s) && pid in s.procs
    ensures JobCountOk(Next(s, Advance(pid, env)))
  {
    PutSize(s.procs, pid, Step(s.row, s.procs[pid], env).1);
    assert |s.procs| >= 1;
  }

  /** What polls, attach requests and searches do to the attach column: they
      leave it alone, or start the one job together with `in_progress`. */
  lemma RequestInOneGo(row: Row, entry: Proc, env: Env)
    requires entry in {PollStart, AttachStart, SearchStart}
    ensures var (row', p) := Complete(row, entry, env);
            && (p.Some? ==> p.value.Job? && row.attach != InProgress && row'.attach == InProgress)
            && (p.None? ==> row'.attach == row.attach)
  {
    if entry == PollStart {
      PollInOneGo(row, env);
      if !env.unreachable { ParsedAnswersAreOk(env.code, env.payload); }
    } else if entry == AttachStart {
      AttachInOneGo(row, env);
    } else {
      assert row.published ==> Complete(row, entry, env) == Complete(row, SearchCommit, env);
    }
  }

  lemma HandleKeepsJobCount(s: Sys, pid: nat, entry: Proc, env: Env)
    requires JobCountOk(s) && entry in {PollStart, AttachStart, SearchStart}
    ensures JobCountOk(Handle(s, pid, entry, env))
  {
    if pid !in s.procs {
      RequestInOneGo(s.row, entry, env);
      var (row, p) := Complete(s.row, entry, env);
      RequestKeepsJobCount(s, pid, row, p);
    }
  }

  lemma ActKeepsJobCount(s: Sys, a: Action)
    requires JobCountOk(s)
    requires a.Request? ==> a.entry in {PollStart, AttachStart, SearchStart}
    ensures JobCountOk(Act(s, a))
  {
    match a
    case Request(pid, entry, env) => HandleKeepsJobCount(s, pid, entry, env);
    case JobStep(pid, env) =>
      if pid in s.procs { JobStepKeepsJobCount(s, pid, env); }
  }

  /** Over any sequence of polls, searches, attach requests and job steps
      there is one unfinished job while `in_progress` and none otherwise. */
  lemma {:induction false} OneJobExactlyWhileInProgress(s: Sys, actions: seq<Action>)
    requires JobCountOk(s)
    requires forall a :: a in actions && a.Request? ==> a.entry in {PollStart, AttachStart, SearchStart}
    ensures JobCountOk(Acts(s, actions))
    decreases |actions|
  {
    if actions != [] {
      assert actions[0] in actions;
      ActKeepsJobCount(s, actions[0]);
      OneJobExactlyWhileInProgress(Act(s, actions[0]), actions[1..]);
    }
  }

  /** A generate request keeps the count exactly when no attach is in
      progress or it only repeats the image already generating or ready;
      otherwise it shows `idle` while the old job is still running. */
  lemma GenerateKeepsJobCountIff(s: Sys, pid: nat, target: string, env: Env)
    requires JobCountOk(s) && pid !in s.procs
    ensures JobCountOk(Handle(s, pid, GenerateStart(target), env))
            <==> (s.row.attach != InProgress
                  || (s.row.item == Some(target) && s.row.status in {Generating, Ready}))
  {
    GenerateInOneGo(s.row, target, env);
    PutSize(s.procs, pid, None);
  }

  /** A claim keeps the count exactly when it is refused or no attach is in
      progress: otherwise the running job is joined by a second one, or goes
      on behind an attach status that no longer shows it. */
  lemma ClaimKeepsJobCountIff(s: Sys, pid: nat, env: Env)
    requires JobCountOk(s) && pid !in s.procs
    ensures JobCountOk(Handle(s, pid, ClaimStart, env)) <==> !Claimable(s.row) || s.row.attach != InProgress
  {
    hide Complete;
    ClaimInOneGo(s.row, env);
    var (row, p) := Complete(s.row, ClaimStart, env);
    PutSize(s.procs, pid, p);
    if Claimable(s.row) {
      ClaimedResult(s.row, env);
      assert |Handle(s, pid, ClaimStart, env).procs| == |s.procs| + (if p.Some? then 1 else 0);
      assert AllJobs(Handle(s, pid, ClaimStart, env));
    } else {
      assert Put(s.procs, pid, None) == s.procs;
    }
  }

  /** A claimed row's autostart shows `in_progress` exactly when it started a
      job. */
  lemma ClaimedResult(row: Row, env: Env)
    requires Claimable(row)
    ensures var (row', p) := AutostartResult(Claimed(row), env);
            (p.Some? <==> row'.attach == InProgress) && (p.Some? ==> p.value.Job?)
  {
  }
}
