/** Waiting for QFieldCloud to process a project file: trigger a job, poll it
    until it settles or the time is up, and start over a bounded number of
    times. */
module ProjectfileWait {
  import opened Text

  datatype TriggerReply = Job(id: Option<string>) | TriggerRaises

  datatype PollReply = Status(status: Option<string>) | PollRaises

  /** The remote service as an oracle: what it answers to the trigger of an
      attempt, and to each status call of an attempt. */
  datatype Service = Service(trigger: nat -> TriggerReply, poll: (nat, nat) -> PollReply)

  /** The calls made, in order, with their answers. */
  datatype Call = Triggered(reply: TriggerReply) | Polled(job: string, answer: PollReply)

  datatype Outcome = Done | TriggerError | GaveUp(last: Option<string>)

  // ---- how many polls fit into the time ----

  function Ratio(timeout: real, interval: real): (q: real)
    requires interval > 0.0
  {
    timeout / interval
  }

  /** The least whole number not below q. */
  function Ceiling(q: real): int {
    if q.Floor as real == q then q.Floor else q.Floor + 1
  }

  lemma BelowCeiling(k: int, q: real)
    ensures k as real < q <==> k < Ceiling(q)
  {
  }

  /** ceil(timeout / interval), or none for a timeout that is not positive. */
  function Budget(interval: real, timeout: real): nat
    requires interval > 0.0
  {
    var n := Ceiling(Ratio(timeout, interval));
    if timeout <= 0.0 || n <= 0 then 0 else n
  }

  lemma RatioTimes(timeout: real, interval: real)
    requires interval > 0.0
    ensures Ratio(timeout, interval) * interval == timeout
  {
  }

  lemma ProductSign(d: real, p: real)
    requires d >= 0.0 && p > 0.0
    ensures d * p >= 0.0 && (d > 0.0 ==> d * p > 0.0)
  {
  }

  lemma ProductOfDifference(x: real, y: real, p: real)
    ensures (y - x) * p == y * p - x * p
  {
  }

  lemma Ordered(x: real, y: real, p: real)
    requires p > 0.0
    ensures x < y <==> x * p < y * p
  {
    ProductOfDifference(x, y, p);
    ProductOfDifference(y, x, p);
    ProductSign(if x < y then y - x else x - y, p);
  }

  /** The loop condition after k sleeps, in terms of the budget. */
  lemma BudgetIsPollCount(interval: real, timeout: real, k: nat)
    requires interval > 0.0
    ensures k as real * interval < timeout <==> k < Budget(interval, timeout)
  {
    hide Ratio, Ceiling;
    var q := Ratio(timeout, interval);
    RatioTimes(timeout, interval);
    Ordered(k as real, q, interval);
    ProductSign(k as real, interval);
    BelowCeiling(k, q);
  }

  // ---- what an attempt amounts to ----

  predicate Settles(r: PollReply) {
    r == Status(Some("finished")) || r == Status(Some("failed"))
  }

  /** Attempt a gets a job, and the first settling answer within the budget
      is "finished". */
  ghost predicate Finishes(s: Service, a: nat, budget: nat) {
    && s.trigger(a).Job? && s.trigger(a).id.Some? && s.trigger(a).id.value != ""
    && exists k: nat :: FinishesAt(s, a, k, budget)
  }

  ghost predicate FinishesAt(s: Service, a: nat, k: nat, budget: nat) {
    && k < budget && s.poll(a, k) == Status(Some("finished"))
    && forall j: nat :: j < k ==> s.poll(a, j) != Status(Some("finished")) && s.poll(a, j) != Status(Some("failed"))
  }

  /** No attempt before a ended the loop. */
  ghost predicate Reaches(s: Service, a: nat, budget: nat) {
    forall b: nat :: 1 <= b < a ==> !s.trigger(b).TriggerRaises? && !Finishes(s, b, budget)
  }

  /** The loop ends well in attempt a. */
  ghost predicate SucceedsAt(s: Service, a: nat, budget: nat) {
    Finishes(s, a, budget) && Reaches(s, a, budget)
  }

  /** The loop ends with the trigger's error in attempt a. */
  ghost predicate RaisesAt(s: Service, a: nat, budget: nat) {
    s.trigger(a).TriggerRaises? && Reaches(s, a, budget)
  }

  /** How many status calls an attempt makes from its k-th on: up to the first
      settling answer, or all of the budget. */
  function PollCount(s: Service, a: nat, k: nat, budget: nat): (n: nat)
    requires k <= budget
    ensures k <= n <= budget
    decreases budget - k
  {
    if k == budget then k
    else if Settles(s.poll(a, k)) then k + 1
    else PollCount(s, a, k + 1, budget)
  }

  /** No answer but the last settles the job, and short of the budget the last
      one does. */
  lemma {:induction false} PollsUpToSettling(s: Service, a: nat, k: nat, budget: nat)
    requires k <= budget
    ensures var n := PollCount(s, a, k, budget);
      && (forall j :: k <= j < n - 1 ==>
           s.poll(a, j) != Status(Some("finished")) && s.poll(a, j) != Status(Some("failed")))
      && (n < budget ==>
           n > k && (s.poll(a, n - 1) == Status(Some("finished")) || s.poll(a, n - 1) == Status(Some("failed"))))
    decreases budget - k
  {
    if k < budget && !Settles(s.poll(a, k)) { PollsUpToSettling(s, a, k + 1, budget); }
  }

  function Answers(s: Service, a: nat, job: string, n: nat): seq<Call> {
    seq(n, k requires 0 <= k < n => Polled(job, s.poll(a, k)))
  }

  /** The calls of one attempt: the trigger, and the polls if it gave a job. */
  function AttemptCalls(s: Service, a: nat, budget: nat): seq<Call> {
    var reply := s.trigger(a);
    [Triggered(reply)] +
    if reply.Job? && NonEmpty(reply.id) then Answers(s, a, reply.id.value, PollCount(s, a, 0, budget)) else []
  }

  /** The calls of the first n attempts. */
  function Trace(s: Service, n: nat, budget: nat): seq<Call> {
    if n == 0 then [] else Trace(s, n - 1, budget) + AttemptCalls(s, n, budget)
  }

  // ---- accounts over the calls ----

  function Triggers(calls: seq<Call>): nat {
    if calls == [] then 0
    else Triggers(calls[..|calls| - 1]) + if calls[|calls| - 1].Triggered? then 1 else 0
  }

  function Polls(calls: seq<Call>): nat {
    if calls == [] then 0
    else Polls(calls[..|calls| - 1]) + if calls[|calls| - 1].Polled? then 1 else 0
  }

  /** The id the latest trigger returned. */
  function CurrentJob(calls: seq<Call>): Option<string> {
    if calls == [] then None
    else
      match calls[|calls| - 1]
      case Triggered(reply) => if reply.Job? then reply.id else None
      case Polled(_, _) => CurrentJob(calls[..|calls| - 1])
  }

  /** Every status call asked for the job of the attempt it belongs to. */
  predicate PollsOwnJob(calls: seq<Call>) {
    calls != [] ==>
      && PollsOwnJob(calls[..|calls| - 1])
      && (calls[|calls| - 1].Polled? ==> CurrentJob(calls[..|calls| - 1]) == Some(calls[|calls| - 1].job))
  }

  /** The latest status any status call reported. */
  function LastStatus(calls: seq<Call>): Option<string> {
    if calls == [] then None
    else if calls[|calls| - 1].Polled? && calls[|calls| - 1].answer.Status? then calls[|calls| - 1].answer.status
    else LastStatus(calls[..|calls| - 1])
  }

  lemma OneMore(calls: seq<Call>, c: Call)
    ensures Triggers(calls + [c]) == Triggers(calls) + if c.Triggered? then 1 else 0
    ensures Polls(calls + [c]) == Polls(calls) + if c.Polled? then 1 else 0
    ensures CurrentJob(calls + [c]) ==
      if c.Polled? then CurrentJob(calls) else if c.reply.Job? then c.reply.id else None
    ensures PollsOwnJob(calls + [c]) <==>
      PollsOwnJob(calls) && (c.Polled? ==> CurrentJob(calls) == Some(c.job))
    ensures LastStatus(calls + [c]) == if c.Polled? && c.answer.Status? then c.answer.status else LastStatus(calls)
  {
    assert (calls + [c])[..|calls|] == calls;
  }

  /** The loop ends early in one attempt only, and in one way. */
  lemma EndsOnce(s: Service, budget: nat, a: nat)
    requires a >= 1 && (SucceedsAt(s, a, budget) || RaisesAt(s, a, budget))
    ensures forall b: nat :: b >= 1 && (SucceedsAt(s, b, budget) || RaisesAt(s, b, budget)) ==> a == b
    ensures !(SucceedsAt(s, a, budget) && RaisesAt(s, a, budget))
  {
    hide FinishesAt;
  }

  lemma AttemptAdds(s: Service, a: nat, budget: nat, before: seq<Call>)
    requires a >= 1 && before == Trace(s, a - 1, budget)
    ensures a * budget == (a - 1) * budget + budget
    ensures var reply := s.trigger(a);
      Trace(s, a, budget) == before + [Triggered(reply)] +
        if reply.Job? && NonEmpty(reply.id) then Answers(s, a, reply.id.value, PollCount(s, a, 0, budget)) else []
  {
  }

  // ---- the loop ----

  /** One attempt's polling: whether it finished, and the calls it added. */
  method PollJob(s: Service, a: nat, job: string, interval: real, timeout: real,
      before: seq<Call>, seen: Option<string>)
    returns (finished: bool, calls: seq<Call>, last: Option<string>)
    requires interval > 0.0
    requires PollsOwnJob(before) && CurrentJob(before) == Some(job) && seen == LastStatus(before)
    ensures finished <==> exists k: nat :: FinishesAt(s, a, k, Budget(interval, timeout))
    ensures calls == before + Answers(s, a, job, PollCount(s, a, 0, Budget(interval, timeout)))
    ensures Triggers(calls) == Triggers(before)
    ensures Polls(calls) <= Polls(before) + Budget(interval, timeout)
    ensures PollsOwnJob(calls) && CurrentJob(calls) == Some(job) && last == LastStatus(calls)
    ensures finished ==> calls != [] && calls[|calls| - 1] == Polled(job, Status(Some("finished")))
  {
    hide Triggers, Polls, CurrentJob, PollsOwnJob, LastStatus, Budget;
    calls, last := before, seen;
    var elapsed := 0.0;
    ghost var budget := Budget(interval, timeout);
    var k: nat := 0;
    BudgetIsPollCount(interval, timeout, 0);
    while elapsed < timeout
      invariant k <= budget && elapsed == k as real * interval
      invariant elapsed < timeout <==> k < budget
      invariant forall j: nat :: j < k ==> !Settles(s.poll(a, j))
      invariant calls == before + Answers(s, a, job, k) && PollCount(s, a, 0, budget) == PollCount(s, a, k, budget)
      invariant Triggers(calls) == Triggers(before) && Polls(calls) == Polls(before) + k
      invariant PollsOwnJob(calls) && CurrentJob(calls) == Some(job) && last == LastStatus(calls)
      decreases budget - k
    {
      var answer := s.poll(a, k);
      elapsed := elapsed + interval;
      assert elapsed == (k + 1) as real * interval;
      BudgetIsPollCount(interval, timeout, k + 1);
      OneMore(calls, Polled(job, answer));
      calls := calls + [Polled(job, answer)];
      assert calls == before + Answers(s, a, job, k + 1);
      if answer.Status? {
        last := answer.status;
        if last == Some("finished") {
          assert FinishesAt(s, a, k, budget);
          return true, calls, last;
        }
        if last == Some("failed") {
          assert Settles(s.poll(a, k));
          return false, calls, last;
        }
      }
      k := k + 1;
    }
    finished := false;
  }

  /** The wait as a whole. It ends well exactly when some attempt's job is
      seen to finish and no trigger raised before; it ends with the trigger's
      own error exactly when that comes first; otherwise it gives up with the
      last status seen. It never makes more calls than the bounds allow, asks
      only for the job of the current attempt, and reports success only right
      after that job was seen to finish. */
  method WaitForProjectfileProcessing(s: Service, attempts: int, interval: real, timeout: real)
    returns (outcome: Outcome, calls: seq<Call>)
    requires interval > 0.0
    ensures outcome.Done? <==> exists a: nat :: 1 <= a <= attempts && SucceedsAt(s, a, Budget(interval, timeout))
    ensures outcome.TriggerError? <==> exists a: nat :: 1 <= a <= attempts && RaisesAt(s, a, Budget(interval, timeout))
    ensures outcome.GaveUp? ==> outcome.last == LastStatus(calls)
    ensures outcome.GaveUp? ==> Triggers(calls) == if attempts > 0 then attempts else 0
    ensures Triggers(calls) <= if attempts > 0 then attempts else 0
    ensures Polls(calls) <= Triggers(calls) * Budget(interval, timeout)
    ensures calls == Trace(s, Triggers(calls), Budget(interval, timeout))
    ensures PollsOwnJob(calls)
    ensures outcome.Done? ==>
      calls != [] && CurrentJob(calls).Some?
      && calls[|calls| - 1] == Polled(CurrentJob(calls).value, Status(Some("finished")))
  {
    hide Triggers, Polls, CurrentJob, PollsOwnJob, LastStatus, Budget, FinishesAt, Trace, PollCount, Answers;
    calls := [];
    NoCalls(s, Budget(interval, timeout));
    var last: Option<string> := None;
    ghost var budget := Budget(interval, timeout);
    var attempt: nat := 1;
    while attempt <= attempts
      invariant attempt <= (if attempts > 0 then attempts else 0) + 1
      invariant Reaches(s, attempt, budget)
      invariant Triggers(calls) == attempt - 1 && calls == Trace(s, attempt - 1, budget)
      invariant Polls(calls) <= (attempt - 1) * budget
      invariant PollsOwnJob(calls) && last == LastStatus(calls)
      decreases attempts - attempt
    {
      var reply := s.trigger(attempt);
      ghost var earlier := calls;
      OneMore(calls, Triggered(reply));
      calls := calls + [Triggered(reply)];
      AttemptAdds(s, attempt, budget, earlier);
      if reply.TriggerRaises? {
        assert RaisesAt(s, attempt, budget);
        EndsOnce(s, budget, attempt);
        return TriggerError, calls;
      }
      if NonEmpty(reply.id) {
        var finished;
        finished, calls, last := PollJob(s, attempt, reply.id.value, interval, timeout, calls, last);
        if finished {
          assert SucceedsAt(s, attempt, budget);
          EndsOnce(s, budget, attempt);
          return Done, calls;
        }
      }
      attempt := attempt + 1;
    }
    outcome := GaveUp(last);
  }

  lemma NoCalls(s: Service, budget: nat)
    ensures Trace(s, 0, budget) == []
    ensures Triggers([]) == 0 && Polls([]) == 0 && PollsOwnJob([]) && LastStatus([]) == None
  {
  }
}
