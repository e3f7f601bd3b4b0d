/** Publishing a project to ODK Central and deleting it again: two systems
    that no transaction joins, kept in step by the order of the writes. */
module OdkSaga {
  import opened Text

  /** The local row. */
  datatype ProjectRow = ProjectRow(external: Option<nat>, published: bool)

  /** The remote server: the projects made for this row, the ids that ever got
      a manager account, and the next free id. */
  datatype Central = Central(projects: set<nat>, managed: set<nat>, nextId: nat)

  /** `orphans` records the remote projects whose id never reached the row. */
  datatype State = State(row: Option<ProjectRow>, central: Central, orphans: set<nat>)

  /** What the create request does: a lost answer leaves a project behind. */
  datatype CreateAnswer = Created | Refused | AnswerLost

  /** The remote steps between creation and the manager account. */
  datatype Stage = FeatureEntities | TaskEntities | FormUpload | ProjectFiles

  datatype ManagerAnswer = NoAccount | AccountUnassigned | Assigned

  /** One finalisation's environment: the stages that go through when the
      remote project is there. */
  datatype Finalisation = Finalisation(
    prerequisites: bool,
    create: CreateAnswer,
    succeeds: set<Stage>,
    manager: ManagerAnswer)

  type SuccessCode = c: nat | 200 <= c < 300 witness 200

  type ErrorCode = c: nat | !(200 <= c < 300) && c != 404 witness 500

  /** What the delete request does: the server acts and answers, refuses, or
      the answer is lost with the project gone or still there. */
  datatype DeleteAnswer = Answers(success: SuccessCode) | Refuses(code: ErrorCode) | Lost(applied: bool)

  datatype Event = Finalize(how: Finalisation) | Delete(answer: DeleteAnswer) | RemovedByAdmin(id: nat)

  const STAGES := [FeatureEntities, TaskEntities, FormUpload, ProjectFiles]

  // ---- the steps ----

  /** The recorded id, by truth value: a missing or zero id counts as none. */
  function Recorded(s: State): set<nat> {
    if s.row.Some? && s.row.value.external.Some? && s.row.value.external.value != 0
    then {s.row.value.external.value} else {}
  }

  predicate AllSucceed(how: Finalisation, from: nat)
    requires from <= |STAGES|
    decreases |STAGES| - from
  {
    from == |STAGES| || (STAGES[from] in how.succeeds && AllSucceed(how, from + 1))
  }

  /** Reuse the recorded remote project, or create one and record its id. */
  function Ensured(s: State, create: CreateAnswer): (r: (State, Option<nat>))
    requires s.row.Some?
  {
    if Recorded(s) != {} then (s, s.row.value.external)
    else
      var id := s.central.nextId;
      var made := s.central.(projects := s.central.projects + {id}, nextId := id + 1);
      match create
      case Refused => (s, None)
      case AnswerLost => (s.(central := made, orphans := s.orphans + {id}), None)
      case Created => (s.(central := made, row := Some(s.row.value.(external := Some(id)))), Some(id))
  }

  /** The server's side of the manager account: it is there, with its role, if
      and only if the answer says it was made and assigned. */
  function WithManager(c: Central, id: nat, manager: ManagerAnswer): Central {
    match manager
    case NoAccount => c
    case AccountUnassigned => c
    case Assigned => c.(managed := c.managed + {id})
  }

  /** The state after a finalisation, and whether it went through. */
  function Finalized(s: State, how: Finalisation): (State, bool) {
    if s.row.None? || !how.prerequisites then (s, false)
    else
      var (t, id) := Ensured(s, how.create);
      if id.None? || id.value !in t.central.projects || !AllSucceed(how, 0) then (t, false)
      else
        var u := t.(central := WithManager(t.central, id.value, how.manager));
        if how.manager != Assigned then (u, false)
        else (u.(row := Some(u.row.value.(published := true))), true)
  }

  /** The server's side of a delete request; `None` for an exception. */
  function Answered(c: Central, id: nat, answer: DeleteAnswer): (Central, Option<nat>) {
    match answer
    case Answers(success) => (c.(projects := c.projects - {id}), Some(if id in c.projects then success as nat else 404))
    case Refuses(code) => (c, Some(code))
    case Lost(applied) => (if applied then c.(projects := c.projects - {id}) else c, None)
  }

  /** The state after a deletion, and whether the row is gone. */
  function Deleted(s: State, answer: DeleteAnswer): (State, bool) {
    if s.row.None? then (s, false)
    else if Recorded(s) == {} then (s.(row := None), true)
    else
      var (c, code) := Answered(s.central, s.row.value.external.value, answer);
      if code.Some? && (200 <= code.value < 300 || code.value == 404) then (s.(central := c, row := None), true)
      else (s.(central := c), false)
  }

  function Next(s: State, e: Event): State {
    match e
    case Finalize(how) => Finalized(s, how).0
    case Delete(answer) => Deleted(s, answer).0
    case RemovedByAdmin(id) => s.(central := s.central.(projects := s.central.projects - {id}))
  }

  function Run(s: State, events: seq<Event>): State
    decreases |events|
  {
    if events == [] then s else Run(Next(s, events[0]), events[1..])
  }

  /** A fresh row, and nothing of it on the server. */
  predicate Fresh(s: State) {
    && s.row == Some(ProjectRow(None, false))
    && s.central.projects == {} && s.central.managed == {} && s.central.nextId >= 1
    && s.orphans == {}
  }

  // ---- the code, write by write ----

  class Project {
    var row: Option<ProjectRow>
    var central: Central
    ghost var orphans: set<nat>

    ghost function Value(): State
      reads this
    {
      State(row, central, orphans)
    }

    constructor (nextId: nat)
      requires nextId >= 1
      ensures Fresh(Value())
    {
      row, central, orphans := Some(ProjectRow(None, false)), Central({}, {}, nextId), {};
    }

    method EnsureOdkProject(create: CreateAnswer) returns (id: Option<nat>)
      requires row.Some?
      modifies this
      ensures (Value(), id) == Ensured(old(Value()), create)
    {
      if row.value.external.Some? && row.value.external.value != 0 {
        return row.value.external;
      }
      if create == Refused {
        return None;
      }
      var made := central.nextId;
      central := central.(projects := central.projects + {made}, nextId := made + 1);
      if create == AnswerLost {
        orphans := orphans + {made};
        return None;
      }
      row := Some(row.value.(external := Some(made)));
      id := Some(made);
    }

    method FinalizeOdkProject(how: Finalisation) returns (ok: bool)
      modifies this
      ensures (Value(), ok) == Finalized(old(Value()), how)
    {
      if row.None? || !how.prerequisites {
        return false;
      }
      var id := EnsureOdkProject(how.create);
      if id.None? {
        return false;
      }
      for i := 0 to |STAGES|
        invariant Value() == Ensured(old(Value()), how.create).0
        invariant AllSucceed(how, 0) == AllSucceed(how, i)
        invariant i > 0 ==> id.value in central.projects
      {
        if id.value !in central.projects || STAGES[i] !in how.succeeds {
          return false;
        }
      }
      central := WithManager(central, id.value, how.manager);
      if how.manager != Assigned {
        return false;
      }
      row := Some(row.value.(published := true));
      ok := true;
    }

    method DeleteProjectWithDownstream(answer: DeleteAnswer) returns (ok: bool)
      modifies this
      ensures (Value(), ok) == Deleted(old(Value()), answer)
    {
      if row.None? {
        return false;
      }
      if row.value.external.Some? && row.value.external.value != 0 {
        var code;
        code := Request(row.value.external.value, answer);
        if code.None? || !(200 <= code.value < 300 || code.value == 404) {
          return false;
        }
      }
      row := None;
      ok := true;
    }

    method Request(id: nat, answer: DeleteAnswer) returns (code: Option<nat>)
      modifies this
      ensures (central, code) == Answered(old(central), id, answer)
      ensures row == old(row) && orphans == old(orphans)
    {
      var present := id in central.projects;
      match answer
      case Answers(success) =>
        central := central.(projects := central.projects - {id});
        code := Some(if present then success else 404);
      case Refuses(c) =>
        code := Some(c);
      case Lost(applied) =>
        if applied {
          central := central.(projects := central.projects - {id});
        }
        code := None;
    }
  }

  // ---- what every step keeps ----

  /** Whatever exists remotely is recorded or an orphan; a published row had
      its manager account made. */
  predicate Ok(s: State) {
    && s.central.projects <= Recorded(s) + s.orphans
    && Recorded(s) !! s.orphans
    && (forall id :: id in Recorded(s) + s.orphans ==> id < s.central.nextId)
    && s.central.nextId >= 1
    && (s.row.Some? && s.row.value.published ==> Recorded(s) != {} && Recorded(s) <= s.central.managed)
  }

  lemma EnsuredKeepsOk(s: State, create: CreateAnswer)
    requires Ok(s) && s.row.Some?
    ensures var (t, id) := Ensured(s, create);
      Ok(t) && t.row.Some? && (id.Some? ==> Recorded(t) == {id.value})
  {
  }

  lemma NextKeepsOk(s: State, e: Event)
    requires Ok(s)
    ensures Ok(Next(s, e))
  {
    hide AllSucceed;
    match e
    case Finalize(how) =>
      if s.row.Some? { EnsuredKeepsOk(s, how.create); }
    case Delete(answer) =>
    case RemovedByAdmin(id) =>
  }

  /** In every state a run of finalisations, deletions and outside removals
      reaches: remote projects are recorded or orphaned, and PUBLISHED stands
      only on a row whose project got its manager account. */
  lemma {:induction false} AlwaysOk(s: State, events: seq<Event>)
    requires Ok(s)
    ensures var t := Run(s, events);
      && Ok(t)
      && (t.row.Some? && t.row.value.published ==>
           t.row.value.external.Some? && t.row.value.external.value in t.central.managed)
      && forall id :: id in t.central.projects ==>
           (id in t.orphans <==> id == 0 || t.row.None? || t.row.value.external != Some(id))
    decreases |events|
  {
    if events != [] {
      NextKeepsOk(s, events[0]);
      AlwaysOk(Next(s, events[0]), events[1..]);
    }
  }

  // ---- when the two systems agree ----

  /** A finalisation that has to create the project and loses the answer. */
  predicate LosesCreate(s: State, e: Event) {
    e.Finalize? && e.how.prerequisites && e.how.create == AnswerLost && s.row.Some? && Recorded(s) == {}
  }

  function LostCreates(s: State, events: seq<Event>): nat
    decreases |events|
  {
    if events == [] then 0
    else (if LosesCreate(s, events[0]) then 1 else 0) + LostCreates(Next(s, events[0]), events[1..])
  }

  /** At every point of the run, whatever exists remotely is recorded. */
  predicate RecordedThroughout(s: State, events: seq<Event>)
    decreases |events|
  {
    s.central.projects <= Recorded(s) && (events == [] || RecordedThroughout(Next(s, events[0]), events[1..]))
  }

  lemma NextOrphans(s: State, e: Event)
    requires Ok(s)
    ensures LosesCreate(s, e) ==>
      Next(s, e).orphans == s.orphans + {s.central.nextId} && s.central.nextId !in s.orphans
    ensures LosesCreate(s, e) ==> !(Next(s, e).central.projects <= Recorded(Next(s, e)))
    ensures !LosesCreate(s, e) ==> Next(s, e).orphans == s.orphans
  {
    hide AllSucceed;
  }

  lemma {:induction false} OrphansAreLostCreates(s: State, events: seq<Event>)
    requires Ok(s)
    ensures |Run(s, events).orphans| == |s.orphans| + LostCreates(s, events)
    decreases |events|
  {
    hide Next, LosesCreate, Ok;
    if events != [] {
      NextKeepsOk(s, events[0]);
      NextOrphans(s, events[0]);
      OrphansAreLostCreates(Next(s, events[0]), events[1..]);
    }
  }

  lemma SizeOfUnion(p: set<nat>, a: set<nat>, b: set<nat>)
    requires p <= a + b
    ensures |p| <= |a| + |b|
  {
    Subset(p, a + b);
    assert a + b == a + (b - a) && |a + (b - a)| == |a| + |b - a|;
    Subset(b - a, b);
  }

  lemma {:induction false} Subset(x: set<nat>, y: set<nat>)
    requires x <= y
    ensures |x| <= |y|
  {
    if x != {} {
      var e :| e in x;
      Subset(x - {e}, y - {e});
    }
  }

  /** From a fresh row: no more remote projects than one plus the create
      answers that got lost. */
  lemma RemoteProjectsBound(s: State, events: seq<Event>)
    requires Fresh(s)
    ensures |Run(s, events).central.projects| <= 1 + LostCreates(s, events)
    ensures Run(s, events).row.None? ==> |Run(s, events).central.projects| <= LostCreates(s, events)
  {
    var t := Run(s, events);
    AlwaysOk(s, events);
    OrphansAreLostCreates(s, events);
    SizeOfUnion(t.central.projects, Recorded(t), t.orphans);
  }

  lemma {:induction false} ThroughoutIff(s: State, events: seq<Event>)
    requires Ok(s) && s.orphans == {}
    ensures RecordedThroughout(s, events) <==> LostCreates(s, events) == 0
    decreases |events|
  {
    hide Next, LosesCreate;
    if events != [] {
      NextKeepsOk(s, events[0]);
      NextOrphans(s, events[0]);
      if !LosesCreate(s, events[0]) {
        ThroughoutIff(Next(s, events[0]), events[1..]);
      }
    }
  }

  /** The row records the remote project whenever there is one, at every point
      of the run, exactly when no create answer was lost; then there is at most
      one, and the row is never removed while it exists. */
  lemma RecordedIffNoLostCreate(s: State, events: seq<Event>)
    requires Fresh(s)
    ensures RecordedThroughout(s, events) <==> LostCreates(s, events) == 0
    ensures LostCreates(s, events) == 0 ==>
      && |Run(s, events).central.projects| <= 1
      && Run(s, events).central.projects <= Recorded(Run(s, events))
      && (Run(s, events).row.None? ==> Run(s, events).central.projects == {})
  {
    ThroughoutIff(s, events);
    AlwaysOk(s, events);
    OrphansAreLostCreates(s, events);
    RemoteProjectsBound(s, events);
  }

  /** A create answer lost once and a retry leave two remote projects, and
      deleting the row then leaves one that nothing points to. */
  lemma LostCreateLeavesAnOrphan(s: State, lost: Event, again: Event)
    requires s == State(Some(ProjectRow(None, false)), Central({}, {}, 1), {})
    requires lost == Finalize(Finalisation(true, AnswerLost, {}, Assigned))
    requires again == Finalize(Finalisation(true, Created, {}, NoAccount))
    ensures Run(s, [lost, again]).central.projects == {1, 2}
    ensures Run(s, [lost, again, Delete(Answers(200))]).row == None
    ensures Run(s, [lost, again, Delete(Answers(200))]).central.projects == {1}
  {
    hide AllSucceed;
    RunThree(s, lost, again, Delete(Answers(200)));
    var s1 := State(Some(ProjectRow(None, false)), Central({1}, {}, 2), {1});
    var s2 := State(Some(ProjectRow(Some(2), false)), Central({1, 2}, {}, 3), {1});
    assert {} + {1} == {1} && {1} + {2} == {1, 2};
    assert Next(s, lost) == s1;
    assert Next(s1, again) == s2;
    assert {1, 2} - {2} == {1};
  }

  lemma RunThree(s: State, a: Event, b: Event, c: Event)
    ensures Run(s, [a, b]) == Next(Next(s, a), b)
    ensures Run(s, [a, b, c]) == Next(Next(Next(s, a), b), c)
  {
    hide Next;
    assert [a, b][1..] == [b] && [b][1..] == [] && [a, b, c][1..] == [b, c] && [b, c][1..] == [c] && [c][1..] == [];
    assert Run(Next(s, a), [b]) == Next(Next(s, a), b);
    assert Run(Next(Next(s, a), b), [c]) == Next(Next(Next(s, a), b), c);
    assert Run(Next(s, a), [b, c]) == Run(Next(Next(s, a), b), [c]);
  }

  // ---- retries and outcomes ----

  /** The id a finalisation works with: the recorded one, or that of a project
      it is answered to have made. */
  ghost predicate WorksWith(s: State, how: Finalisation, id: nat) {
    s.row.Some? &&
    if s.row.value.external.Some? && s.row.value.external.value != 0
    then id == s.row.value.external.value && id in s.central.projects
    else how.create == Created && id == s.central.nextId
  }

  /** A finalisation goes through exactly when its prerequisites hold, it has a
      remote project that exists, each of the four stages succeeds and the
      manager account is made and assigned. It publishes exactly then, and only
      then is there an account more on the server, that of the project
      recorded. */
  lemma FinalizeSucceedsIff(s: State, how: Finalisation)
    requires Ok(s)
    ensures var (t, ok) := Finalized(s, how);
      && (ok <==>
           && how.prerequisites && how.manager == Assigned
           && (exists id: nat :: WorksWith(s, how, id))
           && FeatureEntities in how.succeeds && TaskEntities in how.succeeds
           && FormUpload in how.succeeds && ProjectFiles in how.succeeds)
      && (ok ==> t.row.Some? && t.row.value.published && Recorded(t) != {}
                 && Recorded(t) <= t.central.projects && Recorded(t) <= t.central.managed)
      && (!ok ==> (t.row.Some? <==> s.row.Some?)
                  && (t.row.Some? ==> t.row.value.published == s.row.value.published))
      && t.central.managed == if ok then s.central.managed + Recorded(t) else s.central.managed
  {
    StagesAre(how);
    hide AllSucceed;
    if s.row.Some? {
      EnsuredKeepsOk(s, how.create);
      var (t, id) := Ensured(s, how.create);
      if id.Some? && id.value in t.central.projects { assert WorksWith(s, how, id.value); }
    }
  }

  lemma StagesAre(how: Finalisation)
    ensures AllSucceed(how, 0) <==>
      && FeatureEntities in how.succeeds && TaskEntities in how.succeeds
      && FormUpload in how.succeeds && ProjectFiles in how.succeeds
  {
    assert AllSucceed(how, 4);
    assert AllSucceed(how, 3) <==> ProjectFiles in how.succeeds;
    assert AllSucceed(how, 2) <==> FormUpload in how.succeeds && AllSucceed(how, 3);
    assert AllSucceed(how, 1) <==> TaskEntities in how.succeeds && AllSucceed(how, 2);
  }

  /** A deletion, told by what became of the request: without a recorded id, or
      on a success code or 404, the row goes and a recorded project with it;
      on any other code, or none, the row stays as it was, as does a missing
      row. */
  lemma DeletionLaw(s: State, answer: DeleteAnswer)
    ensures var (t, gone) := Deleted(s, answer);
      var recorded := s.row.Some? && s.row.value.external.Some? && s.row.value.external.value != 0;
      && (gone <==> s.row.Some? && (!recorded || answer.Answers?))
      && (gone ==> t.row == None && (recorded ==> s.row.value.external.value !in t.central.projects))
      && (!gone ==> t.row == s.row)
      && (t.central.projects != s.central.projects ==>
           recorded && (answer.Answers? || answer == Lost(true))
           && t.central.projects == s.central.projects - {s.row.value.external.value})
  {
  }
}
