/** The basemap handlers as they update the stored row statement by
    statement, each proved against the protocol run without interruption. */
module BasemapStore {
  import opened AttachErrors
  import opened Text
  import opened BasemapRow
  import opened BasemapProtocol
  import opened BasemapSerial

  function Spawned(job: Option<string>): Option<Proc> {
    if job.Some? then Some(Job(job.value, 0)) else None
  }

  class StoredProject {
    var item: Option<string>
    var status: GenStatus
    var url: Option<string>
    var attach: AttachStatus
    var published: bool
    var qfield: bool

    ghost function Value(): Row
      reads this
    {
      Row(item, status, url, attach, published, qfield)
    }

    constructor (row: Row)
      ensures Value() == row
    {
      item, status, url, attach := row.item, row.status, row.url, row.attach;
      published, qfield := row.published, row.qfield;
    }

    /** Reads the row as a handler does when it loads the project. */
    method Load() returns (row: Row)
      ensures row == Value()
    {
      row := Row(item, status, url, attach, published, qfield);
    }

    /** Writes the fields that are not `None`; a patch with none of them is
        an error and writes nothing. */
    method Update(patch: Patch) returns (ok: bool)
      modifies this
      ensures ok <==> patch.item.Some? || patch.status.Some? || patch.url.Some? || patch.attach.Some?
      ensures Value() == Apply(old(Value()), patch)
    {
      ok := patch != Patch(None, None, None, None);
      if patch.item.Some? { item := patch.item; }
      if patch.status.Some? { status := patch.status.value; }
      if patch.url.Some? { url := patch.url; }
      if patch.attach.Some? { attach := patch.attach.value; }
    }

    /** The guarded SQL update that reserves a row for autostart. */
    method Claim() returns (claimed: bool)
      modifies this
      ensures claimed <==> Claimable(old(Value()))
      ensures Value() == if claimed then Claimed(old(Value())) else old(Value())
    {
      claimed := qfield && published && Blank(item) && status in {Unset, Generating, Failed};
      if claimed {
        status, url, attach := Generating, None, PendingAutostart;
      }
    }

    method Generate(target: string, env: Env)
      modifies this
      ensures Value() == Complete(old(Value()), GenerateStart(target), env).0
    {
      GenerateInOneGo(Value(), target, env);
      if item == Some(target) && status == Generating { return; }
      if item == Some(target) && status == Ready { return; }
      var _ := Update(Patch(item := Some(target), status := Some(Generating), attach := Some(Idle)));
      var answer := Upstream(env);
      if answer.None? {
        var _ := Update(Patch(status := Some(Failed)));
      } else {
        var _ := Update(Patch(status := Some(answer.value.status), url := answer.value.url));
      }
    }

    method PollStatus(env: Env) returns (job: Option<string>)
      modifies this
      ensures (Value(), Spawned(job)) == Complete(old(Value()), PollStart, env)
    {
      PollInOneGo(Value(), env);
      if !env.unreachable { ParsedAnswersAreOk(env.code, env.payload); }
      job := None;
      var seen := Load();
      if !NonEmpty(seen.item) { return; }
      var answer := Upstream(env);
      if answer.None? { return; }
      var resolvedUrl := Or(answer.value.url, seen.url);
      var isReadyWithUrl := answer.value.status == Ready && NonEmpty(resolvedUrl);
      var persisted := ResolveStatus(seen, answer.value.status, isReadyWithUrl);
      var _ := Update(Patch(status := Some(persisted), url := resolvedUrl));
      if isReadyWithUrl && seen.attach == PendingAutostart {
        var _ := Update(Patch(attach := Some(InProgress)));
        job := resolvedUrl;
      }
    }

    /** An attach request; a ready row without a URL is re-polled first. */
    method Attach(env: Env) returns (job: Option<string>)
      modifies this
      ensures (Value(), Spawned(job)) == Complete(old(Value()), AttachStart, env)
    {
      AttachInOneGo(Value(), env);
      job := None;
      var seen := Load();
      if !seen.published || !seen.qfield || seen.status != Ready { return; }
      var baseUrl := seen.url;
      if !NonEmpty(baseUrl) {
        baseUrl := ReconcileMissingUrl(seen, env);
        if baseUrl.None? { return; }
      }
      if !env.configured || seen.attach == InProgress || seen.attach == Attached { return; }
      var _ := Update(Patch(attach := Some(InProgress)));
      job := baseUrl;
    }

    /** Re-polls for a URL the stored row lacks; a URL found is stored. */
    method ReconcileMissingUrl(seen: Row, env: Env) returns (found: Option<string>)
      modifies this
      ensures found.None? ==> Value() == old(Value())
      ensures found.Some? ==>
                && Upstream(env).Some?
                && NonEmpty(found) && found == Upstream(env).value.url
                && Value() == old(Value()).(status := Ready, url := found)
      ensures found.Some? <==>
                !Blank(seen.item) && Upstream(env).Some? && Upstream(env).value.status == Ready
    {
      if !env.unreachable { ParsedAnswersAreOk(env.code, env.payload); }
      found := None;
      if Blank(seen.item) { return; }
      var answer := Upstream(env);
      if answer.None? || !(answer.value.status == Ready && NonEmpty(answer.value.url)) { return; }
      found := answer.value.url;
      var _ := Update(Patch(status := Some(Ready), url := found));
    }

    /** The claim followed by the autostart it spawns. */
    method ClaimAndAutostart(env: Env) returns (job: Option<string>)
      modifies this
      ensures (Value(), Spawned(job)) == Complete(old(Value()), ClaimStart, env)
    {
      ClaimInOneGo(Value(), env);
      job := None;
      var claimed := Claim();
      if !claimed { return; }
      job := Autostart(env);
    }

    /** Autostart: resume a tilepack in flight, or choose an image and start
        one; any exception marks the autostart failed. */
    method Autostart(env: Env) returns (job: Option<string>)
      modifies this
      ensures (Value(), Spawned(job)) == Complete(old(Value()), AutostartStart, env)
    {
      AutostartInOneGo(Value(), env);
      if !env.unreachable { ParsedAnswersAreOk(env.code, env.payload); }
      job := None;
      var seen := Load();
      if seen.status == Generating && !Blank(seen.item) {
        var answer := Upstream(env);
        if answer.None? { MarkAutostartFailed(); return; }
        var resolvedUrl := Or(answer.value.url, seen.url);
        var isReadyWithUrl := answer.value.status == Ready && NonEmpty(resolvedUrl);
        var persisted := ResolveStatus(seen, answer.value.status, isReadyWithUrl);
        var next := NextAttach(answer.value, isReadyWithUrl);
        var _ := Update(Patch(status := Some(persisted), url := resolvedUrl, attach := Some(next)));
        job := if isReadyWithUrl then resolvedUrl else None;
        return;
      }
      if AutostartSkipped(seen) { return; }
      if Blank(env.selected) { MarkAutostartFailed(); return; }
      job := StartTilepack(Trim(env.selected.value), env);
    }

    method StartTilepack(target: string, env: Env) returns (job: Option<string>)
      modifies this
      ensures (Value(), Spawned(job)) == TilepackResult(old(Value()), target, env)
    {
      if !env.unreachable { ParsedAnswersAreOk(env.code, env.payload); }
      job := None;
      var _ := Update(Patch(item := Some(target), status := Some(Generating), attach := Some(PendingAutostart)));
      var answer := Upstream(env);
      if answer.None? { MarkAutostartFailed(); return; }
      var isReadyWithUrl := answer.value.status == Ready && NonEmpty(answer.value.url);
      var _ := Update(Patch(status := Some(answer.value.status), url := answer.value.url,
                            attach := Some(NextAttach(answer.value, isReadyWithUrl))));
      if isReadyWithUrl { job := answer.value.url; }
    }

    method MarkAutostartFailed()
      modifies this
      ensures Value() == old(Value()).(status := Failed, attach := Idle)
    {
      var _ := Update(Patch(status := Some(Failed), attach := Some(Idle)));
    }

    /** The background attach job: at most two attempts, the second only
        after a transient failure of the first; it ends in `ready` or
        `failed`. `tries` says how each attempt would go. */
    method RunAttachBackground(g: ExcGraph, tries: seq<Try>) returns (attempts: nat)
      requires ValidTries(g, tries)
      modifies this
      ensures attempts == LoopFrom(g, tries, 0).0
      ensures attempts == if OutcomeAt(g, tries, 0) == AttachTransient then 2 else 1
      ensures Value() == old(Value()).(attach := LoopFrom(g, tries, 0).1)
      ensures attach == if OutcomeAt(g, tries, attempts - 1) == AttachOk then Attached else AttachFailed
    {
      hide Transient, ReachesTransient;
      attempts := 0;
      for attempt := 0 to MAX_RETRY_ATTEMPTS + 1
        invariant attempts == attempt <= MAX_RETRY_ATTEMPTS
        invariant Value() == old(Value())
        invariant LoopFrom(g, tries, 0) == LoopFrom(g, tries, attempt)
      {
        attempts := attempts + 1;
        if tries[attempt].Succeeds? {
          var _ := Update(Patch(attach := Some(Attached)));
          return;
        }
        assert tries[attempt] in tries;
        var isLastAttempt := attempt >= MAX_RETRY_ATTEMPTS;
        var retryable := IsTransientAttachException(g, tries[attempt].exc);
        if retryable && !isLastAttempt {
          continue;
        }
        var _ := Update(Patch(attach := Some(AttachFailed)));
        return;
      }
    }
  }

  /** How one attach attempt goes. */
  datatype Try = Succeeds | Raises(exc: nat)

  ghost function Outcome(g: ExcGraph, t: Try): AttachOutcome
    requires (t.Raises? ==> t.exc in g)
  {
    if t.Succeeds? then AttachOk else if Transient(g, t.exc) then AttachTransient else AttachPermanent
  }

  predicate ValidTries(g: ExcGraph, tries: seq<Try>) {
    |tries| == MAX_RETRY_ATTEMPTS + 1 && forall t :: t in tries && t.Raises? ==> t.exc in g
  }

  /** What the retry loop comes to from one attempt on: the number of attempts
      made in all, and the attach status it writes at its end. */
  ghost function LoopFrom(g: ExcGraph, tries: seq<Try>, attempt: nat): (nat, AttachStatus)
    requires ValidTries(g, tries) && attempt <= MAX_RETRY_ATTEMPTS
    decreases MAX_RETRY_ATTEMPTS - attempt
  {
    var outcome := OutcomeAt(g, tries, attempt);
    if outcome == AttachOk then (attempt + 1, Attached)
    else if outcome == AttachTransient && attempt < MAX_RETRY_ATTEMPTS then LoopFrom(g, tries, attempt + 1)
    else (attempt + 1, AttachFailed)
  }

  ghost function OutcomeAt(g: ExcGraph, tries: seq<Try>, attempt: nat): AttachOutcome
    requires ValidTries(g, tries) && attempt <= MAX_RETRY_ATTEMPTS
  {
    assert tries[attempt] in tries;
    Outcome(g, tries[attempt])
  }

  /** The protocol's events of a job whose attempts go as `tries` says. */
  ghost function JobEvents(g: ExcGraph, tries: seq<Try>, attempt: nat, pid: nat, env: Env): seq<Event>
    requires ValidTries(g, tries) && attempt <= MAX_RETRY_ATTEMPTS
    decreases MAX_RETRY_ATTEMPTS - attempt
  {
    [Advance(pid, env.(outcome := OutcomeAt(g, tries, attempt)))] +
    if attempt < MAX_RETRY_ATTEMPTS then JobEvents(g, tries, attempt + 1, pid, env) else []
  }

  /** A job that has ended takes no further step. */
  lemma {:induction false} EndedStays(s: Sys, g: ExcGraph, tries: seq<Try>, attempt: nat, pid: nat, env: Env)
    requires ValidTries(g, tries) && attempt <= MAX_RETRY_ATTEMPTS && pid !in s.procs
    ensures Run(s, JobEvents(g, tries, attempt, pid, env)) == s
    decreases MAX_RETRY_ATTEMPTS - attempt
  {
    hide OutcomeAt;
    var first := Advance(pid, env.(outcome := OutcomeAt(g, tries, attempt)));
    RunOne(s, first);
    if attempt < MAX_RETRY_ATTEMPTS {
      EndedStays(s, g, tries, attempt + 1, pid, env);
      RunSplit(s, [first], JobEvents(g, tries, attempt + 1, pid, env));
    }
  }

  lemma RunOne(s: Sys, e: Event)
    ensures Run(s, [e]) == Next(s, e)
  {
    RunSnoc(s, [], e);
    assert [] + [e] == [e];
  }

  /** The protocol's job does what the retry loop does: among any other
      processes, the steps of its attempts end it with the row's attach status
      as the loop leaves it and everything else as it was. */
  lemma {:induction false} JobStepsMatchLoop(
      s: Sys, g: ExcGraph, tries: seq<Try>, attempt: nat, pid: nat, url: string, env: Env)
    requires ValidTries(g, tries) && attempt <= MAX_RETRY_ATTEMPTS
    requires pid in s.procs && s.procs[pid] == Job(url, attempt)
    ensures Run(s, JobEvents(g, tries, attempt, pid, env))
            == Sys(s.row.(attach := LoopFrom(g, tries, attempt).1), s.procs - {pid})
    decreases MAX_RETRY_ATTEMPTS - attempt
  {
    hide OutcomeAt, Next, Run;
    var first := Advance(pid, env.(outcome := OutcomeAt(g, tries, attempt)));
    var s' := Next(s, first);
    RunOne(s, first);
    JobStepSettles(s, pid, url, attempt, env.(outcome := OutcomeAt(g, tries, attempt)));
    if attempt < MAX_RETRY_ATTEMPTS {
      var rest := JobEvents(g, tries, attempt + 1, pid, env);
      RunSplit(s, [first], rest);
      if OutcomeAt(g, tries, attempt) == AttachTransient {
        JobStepsMatchLoop(s', g, tries, attempt + 1, pid, url, env);
        assert s'.procs - {pid} == s.procs - {pid};
      } else {
        EndedStays(s', g, tries, attempt + 1, pid, env);
      }
    } else {
      assert JobEvents(g, tries, attempt, pid, env) == [first];
    }
  }
}
