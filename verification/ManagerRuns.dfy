/** What holds over every run of the reconcile loop. */
module ManagerRuns {
  import opened Text
  import opened Firewall
  import opened Topology
  import opened Compiler
  import opened Rendering
  import opened Manager

  // ---- runs ----

  /** The state after a sequence of attempts. */
  function After(run: seq<Attempt>, failOpenAfter: int): State {
    if run == [] then Started()
    else Step(After(run[..|run| - 1], failOpenAfter), run[|run| - 1], failOpenAfter)
  }

  /** The state in which attempt `i` starts. */
  function Before(run: seq<Attempt>, i: nat, failOpenAfter: int): State
    requires i <= |run|
  {
    After(run[..i], failOpenAfter)
  }

  /** Plans come from the compiler. */
  predicate Genuine(run: seq<Attempt>) {
    forall a :: a in run && a.plan.Some? ==> IsCompiled(a.plan.value)
  }

  // ---- the invariant ----

  /** The installed table and everything published about it are determined by havePlan,
      failOpen and lastPlan. */
  ghost predicate Inv(st: State) {
    && st.status.failureCount == st.failures
    && (st.status.status == "starting" || st.status.status == "ready" || st.status.status == "degraded")
    && (st.status.failOpen ==> st.status.status == "degraded" && st.havePlan)
    && (st.status.status == "ready" ==> st.havePlan)
    && (!st.havePlan ==> st.table == None && st.appliedHash == Blank && st.status.lastSuccess == None)
    && (st.havePlan ==>
          && IsCompiled(st.lastPlan) && Renderable(st.lastPlan) && st.status.lastSuccess.Some?
          && st.status.status != "starting"
          && st.table == Some(if st.status.failOpen then FailOpenPlan(st.lastPlan) else st.lastPlan)
          && st.appliedHash == st.table.value.digest
          && st.status.policySHA256 == st.appliedHash)
  }

  lemma StartedInv()
    ensures Inv(Started())
  {
  }

  /** A plan with the installed digest is the installed plan. */
  lemma DigestTells(a: FirewallPlan, b: FirewallPlan)
    requires a.digest == DigestPlan(a) && b.digest == DigestPlan(b) && a.digest == b.digest
    ensures a == b
  {
  }

  lemma FailOpenIsRenderable(plan: FirewallPlan)
    requires Renderable(plan)
    ensures Renderable(FailOpenPlan(plan))
    ensures FailOpenPlan(plan).digest == DigestPlan(FailOpenPlan(plan)) && FailOpenPlan(plan).failOpen
  {
  }

  lemma StepKeepsInv(st: State, a: Attempt, failOpenAfter: int)
    requires Inv(st) && (a.plan.Some? ==> IsCompiled(a.plan.value))
    ensures Inv(Step(st, a, failOpenAfter))
  {
    if st.havePlan { FailOpenIsRenderable(st.lastPlan); }
    if Succeeds(st, a) && a.plan.value.digest == st.appliedHash {
      DigestTells(a.plan.value, st.table.value);
    }
    hide Renderable;
  }

  lemma {:induction false} InvAlways(run: seq<Attempt>, failOpenAfter: int)
    requires Genuine(run)
    ensures Inv(After(run, failOpenAfter))
  {
    hide Inv;
    if run == [] {
      StartedInv();
    } else {
      InvAlways(run[..|run| - 1], failOpenAfter);
      StepKeepsInv(After(run[..|run| - 1], failOpenAfter), run[|run| - 1], failOpenAfter);
    }
  }

  /** After every run the installed table is a function of what the manager remembers:
      nothing before the first success, the fail-open form of the last plan exactly when
      failOpen is published, else the last plan; and the published digest is its digest. */
  lemma TableIsDetermined(run: seq<Attempt>, failOpenAfter: int)
    requires Genuine(run)
    ensures var st := After(run, failOpenAfter);
      && st.table == (if !st.havePlan then None
                      else Some(if st.status.failOpen then FailOpenPlan(st.lastPlan) else st.lastPlan))
      && (st.havePlan ==> st.appliedHash == DigestPlan(st.table.value) && st.status.policySHA256 == st.appliedHash)
      && (st.status.status == "ready" ==> st.havePlan && !st.status.failOpen && st.table == Some(st.lastPlan))
  {
    InvAlways(run, failOpenAfter);
    var st := After(run, failOpenAfter);
    if st.havePlan { FailOpenIsRenderable(st.lastPlan); }
    hide Renderable;
  }

  // ---- interleaved readers ----

  predicate Suspended(st: State) {
    st.table.Some? && st.table.value.failOpen
  }

  /** No reader is misled: "ready" means an enforcing table is in place, and a published
      failOpen comes with "degraded". */
  predicate Honest(st: State) {
    && (st.status.status == "ready" ==> st.table.Some? && !Suspended(st))
    && (st.status.failOpen ==> st.status.status == "degraded")
  }

  lemma TraceIsHonest(st: State, a: Attempt, failOpenAfter: int)
    requires Inv(st) && (a.plan.Some? ==> IsCompiled(a.plan.value))
    ensures forall v :: v in Trace(st, a, failOpenAfter) ==> Honest(v)
  {
    if Succeeds(st, a) && a.plan.value.digest == st.appliedHash {
      DigestTells(a.plan.value, st.table.value);
    }
    hide Renderable;
  }

  /** Everything other goroutines can see during a run. */
  function Seen(run: seq<Attempt>, failOpenAfter: int): seq<State> {
    if run == [] then [Started()]
    else
      var front := run[..|run| - 1];
      Seen(front, failOpenAfter) + Trace(After(front, failOpenAfter), run[|run| - 1], failOpenAfter)
  }

  /** A status reader that runs between any two steps is never told "ready" while a
      fail-open table is installed. */
  lemma {:induction false} ReadersAreNeverMisled(run: seq<Attempt>, failOpenAfter: int)
    requires Genuine(run)
    ensures forall v :: v in Seen(run, failOpenAfter) ==> Honest(v)
  {
    if run != [] {
      var front := run[..|run| - 1];
      ReadersAreNeverMisled(front, failOpenAfter);
      InvAlways(front, failOpenAfter);
      hide Inv, Trace, Honest;
      TraceIsHonest(After(front, failOpenAfter), run[|run| - 1], failOpenAfter);
    }
  }

  // ---- bookkeeping ----

  /** Attempt `i` of the run succeeds. */
  predicate SucceedsAt(run: seq<Attempt>, i: nat, failOpenAfter: int)
    requires i < |run|
  {
    Succeeds(Before(run, i, failOpenAfter), run[i])
  }

  function FailureCount(run: seq<Attempt>, failOpenAfter: int): nat {
    if run == [] then 0
    else
      FailureCount(run[..|run| - 1], failOpenAfter) +
      if Succeeds(After(run[..|run| - 1], failOpenAfter), run[|run| - 1]) then 0 else 1
  }

  /** The start of the latest successful attempt. */
  function LatestSuccess(run: seq<Attempt>, failOpenAfter: int): Option<int> {
    if run == [] then None
    else if Succeeds(After(run[..|run| - 1], failOpenAfter), run[|run| - 1]) then Some(run[|run| - 1].now)
    else LatestSuccess(run[..|run| - 1], failOpenAfter)
  }

  /** The published counters: every failed attempt is counted once, LastSuccess is the start
      of the latest success, LastAttempt that of the latest attempt. */
  lemma {:induction false} Bookkeeping(run: seq<Attempt>, failOpenAfter: int)
    ensures var st := After(run, failOpenAfter);
      && st.failures == FailureCount(run, failOpenAfter) && st.status.failureCount == st.failures
      && st.status.lastSuccess == LatestSuccess(run, failOpenAfter)
      && st.status.lastAttempt == (if run == [] then None else Some(run[|run| - 1].now))
  {
    if run != [] {
      var front, a := run[..|run| - 1], run[|run| - 1];
      Bookkeeping(front, failOpenAfter);
      StepBookkeeping(After(front, failOpenAfter), a, failOpenAfter);
      hide Succeeds, Step;
    }
  }

  /** The plan of the latest successful attempt. */
  function LatestPlan(run: seq<Attempt>, failOpenAfter: int): Option<FirewallPlan> {
    if run == [] then None
    else if Succeeds(After(run[..|run| - 1], failOpenAfter), run[|run| - 1]) then run[|run| - 1].plan
    else LatestPlan(run[..|run| - 1], failOpenAfter)
  }

  /** Some attempt since the latest success suspended enforcement. */
  predicate IsSuspended(run: seq<Attempt>, failOpenAfter: int) {
    run != [] &&
    var before, last := After(run[..|run| - 1], failOpenAfter), run[|run| - 1];
    !Succeeds(before, last) && (IsSuspended(run[..|run| - 1], failOpenAfter) || Opens(before, last, failOpenAfter))
  }

  lemma StepRemembers(st: State, a: Attempt, failOpenAfter: int)
    ensures var after := Step(st, a, failOpenAfter);
      && after.havePlan == (Succeeds(st, a) || st.havePlan)
      && after.lastPlan == (if Succeeds(st, a) then a.plan.value else st.lastPlan)
      && (after.status.status == "ready" <==> Succeeds(st, a))
      && after.status.failOpen == (!Succeeds(st, a) && (st.status.failOpen || Opens(st, a, failOpenAfter)))
  {
    hide Renderable;
  }

  /** What the manager remembers, read off the run: the last plan is that of the latest
      successful attempt, "ready" is published exactly when the last attempt succeeded, and
      FailOpen exactly when enforcement has been suspended since the latest success. */
  lemma {:induction false} Remembered(run: seq<Attempt>, failOpenAfter: int)
    ensures var st := After(run, failOpenAfter);
      && (st.havePlan <==> LatestPlan(run, failOpenAfter).Some?)
      && (st.havePlan ==> st.lastPlan == LatestPlan(run, failOpenAfter).value)
      && (st.status.status == "ready" <==> run != [] && SucceedsAt(run, |run| - 1, failOpenAfter))
      && (st.status.failOpen <==> IsSuspended(run, failOpenAfter))
  {
    if run != [] {
      var front, a := run[..|run| - 1], run[|run| - 1];
      Remembered(front, failOpenAfter);
      StepRemembers(After(front, failOpenAfter), a, failOpenAfter);
      SuccessHasPlan(After(front, failOpenAfter), a);
      hide Succeeds, Step, Opens;
    }
  }

  lemma SuccessHasPlan(st: State, a: Attempt)
    ensures Succeeds(st, a) ==> a.plan.Some?
  {
  }

  /** So the installed table is a function of the run: none before the first success, else the
      plan of the latest successful attempt, or its fail-open form if enforcement has been
      suspended since. */
  lemma TableOfRun(run: seq<Attempt>, failOpenAfter: int)
    requires Genuine(run)
    ensures After(run, failOpenAfter).table ==
      match LatestPlan(run, failOpenAfter)
      case None => None
      case Some(plan) => Some(if IsSuspended(run, failOpenAfter) then FailOpenPlan(plan) else plan)
  {
    hide After, LatestPlan, IsSuspended, Genuine;
    TableIsDetermined(run, failOpenAfter);
    Remembered(run, failOpenAfter);
  }

  lemma StepBookkeeping(st: State, a: Attempt, failOpenAfter: int)
    requires st.status.failureCount == st.failures
    ensures var after := Step(st, a, failOpenAfter);
      && after.failures == st.failures + (if Succeeds(st, a) then 0 else 1) &&
        after.status.failureCount == after.failures
      && after.status.lastSuccess == (if Succeeds(st, a) then Some(a.now) else st.status.lastSuccess)
      && after.status.lastAttempt == Some(a.now)
  {
    hide Renderable;
  }

  // ---- suspending and restoring enforcement ----

  /** The attempt installs the fail-open table. */
  predicate Opens(st: State, a: Attempt, failOpenAfter: int) {
    && !Succeeds(st, a) && MayOpen(st, a, failOpenAfter)
    && Installs(a.openWorks, FailOpenPlan(st.lastPlan))
  }

  predicate OpensAt(run: seq<Attempt>, i: nat, failOpenAfter: int)
    requires i < |run|
  {
    Opens(Before(run, i, failOpenAfter), run[i], failOpenAfter)
  }

  /** A failing attempt that does not suspend enforcement leaves the table alone throughout. */
  lemma FailuresKeepTheTable(st: State, a: Attempt, failOpenAfter: int)
    requires !Succeeds(st, a) && !Opens(st, a, failOpenAfter)
    ensures forall v :: v in Trace(st, a, failOpenAfter) ==> v.table == st.table
  {
    hide Renderable;
  }

  /** A fail-open table appears only through a failing attempt that starts at least
      failOpenAfter after the start of the latest success. */
  lemma OpeningIsEarned(run: seq<Attempt>, i: nat, failOpenAfter: int)
    requires Genuine(run) && i < |run| && !Suspended(Before(run, i, failOpenAfter))
    requires exists v :: v in Trace(Before(run, i, failOpenAfter), run[i], failOpenAfter) && Suspended(v)
    ensures !SucceedsAt(run, i, failOpenAfter) && OpensAt(run, i, failOpenAfter)
    ensures var latest := LatestSuccess(run[..i], failOpenAfter);
      latest.Some? && run[i].now - latest.value >= failOpenAfter
  {
    var st := Before(run, i, failOpenAfter);
    Bookkeeping(run[..i], failOpenAfter);
    assert run[i] in run;
    hide Trace, Succeeds, Installs, After, LatestSuccess, Suspended, IsCompiled;
    var v :| v in Trace(st, run[i], failOpenAfter) && Suspended(v);
    OnlyFailuresOpen(st, run[i], failOpenAfter, v);
  }

  lemma OnlyFailuresOpen(st: State, a: Attempt, failOpenAfter: int, v: State)
    requires !Suspended(st) && (a.plan.Some? ==> IsCompiled(a.plan.value))
    requires v in Trace(st, a, failOpenAfter) && Suspended(v)
    ensures !Succeeds(st, a) && Opens(st, a, failOpenAfter)
  {
    hide Renderable;
  }

  lemma FailureKeepsOpen(st: State, a: Attempt, failOpenAfter: int)
    requires !Succeeds(st, a) && (st.status.failOpen || Opens(st, a, failOpenAfter))
    ensures Step(st, a, failOpenAfter).status.failOpen
  {
    hide Renderable;
  }

  lemma {:induction false} StaysOpen(run: seq<Attempt>, i: nat, j: nat, failOpenAfter: int)
    requires i < j <= |run| && OpensAt(run, i, failOpenAfter)
    requires forall k :: i < k < j ==> !SucceedsAt(run, k, failOpenAfter)
    ensures Before(run, j, failOpenAfter).status.failOpen
  {
    hide Opens, Succeeds, Trace;
    assert run[..j][..j - 1] == run[..j - 1];
    if j == i + 1 { OpensFails(run, i, failOpenAfter); } else { StaysOpen(run, i, j - 1, failOpenAfter); }
    assert !SucceedsAt(run, j - 1, failOpenAfter);
    FailureKeepsOpen(Before(run, j - 1, failOpenAfter), run[j - 1], failOpenAfter);
  }

  lemma OpensFails(run: seq<Attempt>, i: nat, failOpenAfter: int)
    requires i < |run| && OpensAt(run, i, failOpenAfter)
    ensures !SucceedsAt(run, i, failOpenAfter) && !Before(run, i, failOpenAfter).status.failOpen
  {
    hide Renderable;
  }

  /** Enforcement is suspended at most once per outage: between two suspensions some
      attempt succeeds. */
  lemma OpensOncePerOutage(run: seq<Attempt>, i: nat, j: nat, failOpenAfter: int)
    requires i < j < |run| && OpensAt(run, i, failOpenAfter) && OpensAt(run, j, failOpenAfter)
    ensures exists k :: i < k < j && SucceedsAt(run, k, failOpenAfter)
  {
    hide OpensAt, SucceedsAt;
    OpensFails(run, j, failOpenAfter);
    if forall k :: i < k < j ==> !SucceedsAt(run, k, failOpenAfter) {
      StaysOpen(run, i, j, failOpenAfter);
    }
  }

  /** What an outage starts from and keeps until enforcement is suspended. */
  predicate Waiting(st: State, since: int) {
    st.havePlan && !st.status.failOpen && st.status.lastSuccess == Some(since)
  }

  lemma KeepsWaiting(st: State, a: Attempt, failOpenAfter: int, since: int)
    requires Waiting(st, since) && !Succeeds(st, a) && a.now - since < failOpenAfter
    ensures Waiting(Step(st, a, failOpenAfter), since)
  {
    hide Renderable;
  }

  lemma {:induction false} WaitingUntil(run: seq<Attempt>, n: nat, k: nat, failOpenAfter: int, since: int)
    requires n <= k <= |run| && Waiting(Before(run, n, failOpenAfter), since)
    requires forall i :: n <= i < |run| ==> !SucceedsAt(run, i, failOpenAfter)
    requires forall i :: n <= i < k ==> run[i].now - since < failOpenAfter
    ensures Waiting(Before(run, k, failOpenAfter), since)
  {
    hide Waiting, Succeeds, Trace;
    if n < k {
      WaitingUntil(run, n, k - 1, failOpenAfter, since);
      assert run[..k][..k - 1] == run[..k - 1];
      assert !SucceedsAt(run, k - 1, failOpenAfter);
      KeepsWaiting(Before(run, k - 1, failOpenAfter), run[k - 1], failOpenAfter, since);
    }
  }

  /** The attempts from `n` on start at most `gap` apart, the first within `gap` of `since`. */
  predicate Regular(run: seq<Attempt>, n: nat, since: int, gap: int)
    requires n < |run|
  {
    run[n].now <= since + gap && forall i :: n <= i < |run| - 1 ==> run[i + 1].now <= run[i].now + gap
  }

  lemma FirstLateIndex(run: seq<Attempt>, n: nat, limit: int) returns (k: nat)
    requires n < |run| && run[|run| - 1].now >= limit
    ensures n <= k < |run| && run[k].now >= limit && forall i :: n <= i < k ==> run[i].now < limit
  {
    k := n;
    while run[k].now < limit
      invariant n <= k < |run| && forall i :: n <= i < k ==> run[i].now < limit
      decreases |run| - k
    {
      k := k + 1;
    }
  }

  /** If every attempt since a success fails, attempts are regular and nft takes the
      fail-open plan, enforcement is suspended by an attempt that starts before
      failOpenAfter + gap have passed. */
  lemma OpensInTime(run: seq<Attempt>, n: nat, failOpenAfter: int, since: int, gap: int)
    requires Genuine(run) && n < |run| && failOpenAfter > 0
    requires Waiting(Before(run, n, failOpenAfter), since)
    requires forall i :: n <= i < |run| ==> !SucceedsAt(run, i, failOpenAfter) && run[i].openWorks
    requires Regular(run, n, since, gap) && run[|run| - 1].now >= since + failOpenAfter
    ensures exists k :: n <= k < |run| && OpensAt(run, k, failOpenAfter) && run[k].now < since + failOpenAfter + gap
  {
    hide SucceedsAt, After, Renderable;
    var k := FirstLateIndex(run, n, since + failOpenAfter);
    WaitingUntil(run, n, k, failOpenAfter, since);
    var st := Before(run, k, failOpenAfter);
    InvAlways(run[..k], failOpenAfter);
    FailOpenIsRenderable(st.lastPlan);
    assert !SucceedsAt(run, k, failOpenAfter);
    assert !Succeeds(st, run[k]) by { NotSucceeding(run, k, failOpenAfter); }
    assert k > n ==> run[(k - 1) + 1].now <= run[k - 1].now + gap;
  }

  lemma NotSucceeding(run: seq<Attempt>, k: nat, failOpenAfter: int)
    requires k < |run| && !SucceedsAt(run, k, failOpenAfter)
    ensures !Succeeds(Before(run, k, failOpenAfter), run[k])
  {
  }

  /** The next success after a suspension always installs its own plan. */
  lemma SuccessRestores(st: State, a: Attempt, failOpenAfter: int)
    requires Inv(st) && Suspended(st) && Succeeds(st, a) && IsCompiled(a.plan.value)
    ensures a.plan.value.digest != st.appliedHash
    ensures Step(st, a, failOpenAfter).table == a.plan && !Suspended(Step(st, a, failOpenAfter))
    ensures Step(st, a, failOpenAfter).status.status == "ready"
  {
    hide Renderable;
  }

  // ---- the loop ----

  const SECOND := 1_000_000_000

  /** Run, until it is cancelled: refuses intervals that are too short, else reconciles once
      per reply. What other goroutines see and what is left is what the run says. */
  method Run(manager: Manager, pollInterval: int, replies: seq<Reply>) returns (ok: bool, run: seq<Attempt>)
    requires manager.Valid() && manager.Now() == Started() && manager.visible == [Started()]
    modifies manager, manager.backend
    ensures ok <==> pollInterval >= 1_000_000_000 && manager.failOpenAfter >= pollInterval
    ensures |run| == (if ok then |replies| else 0) && forall i :: 0 <= i < |run| ==> Answers(replies[i], run[i])
    ensures Genuine(run) && manager.Valid()
    ensures manager.visible == Seen(run, manager.failOpenAfter) && manager.Now() == After(run, manager.failOpenAfter)
  {
    hide Trace, Answers, IsCompiled;
    run := [];
    if pollInterval < SECOND { return false, run; }
    if manager.failOpenAfter < pollInterval { return false, run; }
    for i := 0 to |replies|
      invariant |run| == i && forall k :: 0 <= k < i ==> Answers(replies[k], run[k])
      invariant Genuine(run) && manager.Valid()
      invariant manager.visible == Seen(run, manager.failOpenAfter) &&
        manager.Now() == After(run, manager.failOpenAfter)
    {
      var reply := replies[i];
      ghost var before := manager.Now();
      var a := manager.Reconcile(reply);
      AnswerIsCompiled(reply, a);
      LastSeen(before, a, manager.failOpenAfter, manager.visible);
      assert (run + [a])[..|run|] == run;
      run := run + [a];
    }
    ok := true;
  }

  lemma AnswerIsCompiled(r: Reply, a: Attempt)
    requires Answers(r, a)
    ensures a.plan.Some? ==> IsCompiled(a.plan.value)
  {
    hide Accepted, IsCompiled;
  }

  /** The last state visible is the one the attempt leaves. */
  lemma LastSeen(st: State, a: Attempt, failOpenAfter: int, visible: seq<State>)
    requires exists earlier: seq<State> :: visible == earlier + Trace(st, a, failOpenAfter)
    ensures visible != [] && visible[|visible| - 1] == Step(st, a, failOpenAfter)
  {
    var trace := Trace(st, a, failOpenAfter);
    hide Trace;
    var earlier :| visible == earlier + trace;
    assert visible[|visible| - 1] == trace[|trace| - 1];
  }
}
