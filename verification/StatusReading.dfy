/** What the manager publishes and installs, read off the attempts alone: which of them succeed,
    which plan is the latest, and what suspending enforcement changes. */
module StatusReading {
  import opened Text
  import opened Firewall
  import opened Compiler
  import opened Rendering
  import opened Manager
  import opened ManagerRuns
  import opened Sizes

  // ---- the run ----

  /** An attempt succeeds if it has a plan that nft takes, or that is in force already. */
  ghost predicate IsSuccess(run: seq<Attempt>, i: int, failOpenAfter: int)
    requires 0 <= i < |run|
    decreases i, 1
  {
    run[i].plan.Some? &&
    ((run[i].works && Renderable(run[i].plan.value)) ||
     exists j :: 0 <= j < i && IsLatest(run, j, i, failOpenAfter) && run[j].plan == run[i].plan &&
       !IsOpen(run, j, i, failOpenAfter))
  }

  /** Attempt `j` is the latest success before attempt `i`. */
  ghost predicate IsLatest(run: seq<Attempt>, j: int, i: int, failOpenAfter: int)
    requires 0 <= j < i <= |run|
    decreases i, 0
  {
    IsSuccess(run, j, failOpenAfter) && forall k :: j < k < i ==> !IsSuccess(run, k, failOpenAfter)
  }

  /** Some attempt after `j` started late enough and nft took the fail-open plan. */
  ghost predicate IsOpen(run: seq<Attempt>, j: int, i: int, failOpenAfter: int)
    requires 0 <= j < i <= |run|
  {
    exists k :: j < k < i && run[k].now - run[j].now >= failOpenAfter && run[k].openWorks
  }

  ghost predicate NoneSucceeds(run: seq<Attempt>, i: int, failOpenAfter: int)
    requires 0 <= i <= |run|
  {
    forall k :: 0 <= k < i ==> !IsSuccess(run, k, failOpenAfter)
  }

  // ---- what is published ----

  /** The plan that allows everything and keeps the counts. */
  ghost predicate IsOpened(plan: FirewallPlan, open: FirewallPlan) {
    && open.subnet == plan.subnet && open.defaultAction == "allow" && open.rules == [] && open.failOpen
    && open.workloadCount == plan.workloadCount && open.localWorkloadCount == plan.localWorkloadCount
    && open.policyRuleCount == plan.policyRuleCount && open.zeroMatchCount == plan.zeroMatchCount
    && open.digest == Sha(open.(digest := Blank))
  }

  /** Every field but the failure count and the latest attempt. */
  ghost predicate Reports(p: PublicStatus, plan: FirewallPlan, since: int, isLast: bool, open: bool) {
    && p.status == (if isLast then "ready" else "degraded") && p.lastSuccess == Some(since)
    && p.workloadCount == plan.workloadCount && p.localWorkloadCount == plan.localWorkloadCount
    && p.policyRuleCount == plan.policyRuleCount && p.zeroMatchCount == plan.zeroMatchCount
    && (p.failOpen <==> open)
    && (!open ==>
          p.policySHA256 == plan.digest && p.defaultAction == plan.defaultAction && p.firewallRuleCount == |plan.rules|)
    && (open ==>
          && p.defaultAction == "allow" && p.firewallRuleCount == 0
          && exists f :: IsOpened(plan, f) && p.policySHA256 == f.digest)
  }

  ghost predicate ReportsNothing(p: PublicStatus, begun: bool) {
    && p.status == (if begun then "degraded" else "starting") && p.lastSuccess.None? && p.policySHA256 == Blank
    && p.defaultAction == "" && p.workloadCount == 0 && p.localWorkloadCount == 0 && p.policyRuleCount == 0
    && p.firewallRuleCount == 0 && p.zeroMatchCount == 0 && !p.failOpen
  }

  /** The table in force. */
  ghost predicate InForce(table: Option<FirewallPlan>, plan: FirewallPlan, open: bool) {
    table.Some? && if open then IsOpened(plan, table.value) else table.value == plan
  }

  /** What is published and installed after the first `n` attempts. */
  ghost predicate IsStateAfter(run: seq<Attempt>, n: nat, failOpenAfter: int, st: State)
    requires n <= |run|
  {
    && st.status.lastAttempt == (if n == 0 then None else Some(run[n - 1].now))
    && (NoneSucceeds(run, n, failOpenAfter) ==> st.table.None? && ReportsNothing(st.status, n > 0))
    && forall j :: 0 <= j < n && IsLatest(run, j, n, failOpenAfter) ==>
         && run[j].plan.Some? && InForce(st.table, run[j].plan.value, IsOpen(run, j, n, failOpenAfter))
         && Reports(st.status, run[j].plan.value, run[j].now, j == n - 1, IsOpen(run, j, n, failOpenAfter))
  }

  // ---- the step ----

  lemma IsOpenedPlan(plan: FirewallPlan)
    ensures IsOpened(plan, FailOpenPlan(plan))
  {
  }

  /** The latest success is known to the state. */
  ghost predicate Holds(st: State, plan: FirewallPlan, since: int, isLast: bool, open: bool) {
    && st.havePlan && st.lastPlan == plan && Renderable(plan) && IsCompiled(plan)
    && InForce(st.table, plan, open) && Reports(st.status, plan, since, isLast, open)
    && st.appliedHash == st.table.value.digest
  }

  lemma SuccessIs(st: State, a: Attempt, failOpenAfter: int)
    requires Inv(st) && Succeeds(st, a) && IsCompiled(a.plan.value)
    ensures var s := Step(st, a, failOpenAfter);
      Holds(s, a.plan.value, a.now, true, false) && s.status.lastAttempt == Some(a.now)
  {
    if a.plan.value.digest == st.appliedHash { DigestTells(a.plan.value, st.table.value); }
    hide Renderable;
  }

  lemma FailureIs(st: State, a: Attempt, failOpenAfter: int, plan: FirewallPlan, since: int, isLast: bool, open: bool)
    requires Inv(st) && !Succeeds(st, a) && Holds(st, plan, since, isLast, open)
    ensures var s := Step(st, a, failOpenAfter);
      && s.status.lastAttempt == Some(a.now)
      && Holds(s, plan, since, false, open || (a.now - since >= failOpenAfter && a.openWorks))
  {
    IsOpenedPlan(plan);
    FailOpenIsRenderable(plan);
    hide Renderable, FailOpenPlan, IsOpened;
  }

  lemma NothingIs(st: State, a: Attempt, failOpenAfter: int, begun: bool)
    requires Inv(st) && !Succeeds(st, a) && ReportsNothing(st.status, begun)
    ensures var s := Step(st, a, failOpenAfter);
      && s.table == st.table && ReportsNothing(s.status, true) && s.status.lastAttempt == Some(a.now)
      && s.havePlan == st.havePlan
  {
    hide Renderable;
  }

  // ---- the whole run ----

  lemma {:induction false} SomeLatest(run: seq<Attempt>, n: nat, failOpenAfter: int)
    requires n <= |run| && !NoneSucceeds(run, n, failOpenAfter)
    ensures exists j :: 0 <= j < n && IsLatest(run, j, n, failOpenAfter)
  {
    hide IsSuccess;
    if IsSuccess(run, n - 1, failOpenAfter) {
      assert IsLatest(run, n - 1, n, failOpenAfter);
    } else {
      SomeLatest(run, n - 1, failOpenAfter);
      var j :| 0 <= j < n - 1 && IsLatest(run, j, n - 1, failOpenAfter);
      assert IsLatest(run, j, n, failOpenAfter);
    }
  }

  lemma OneLatest(run: seq<Attempt>, n: nat, i: int, j: int, failOpenAfter: int)
    requires 0 <= i < n <= |run| && 0 <= j < n
    requires IsLatest(run, i, n, failOpenAfter) && IsLatest(run, j, n, failOpenAfter)
    ensures i == j
  {
    hide IsSuccess;
  }

  lemma SuccessHasOnePlan(run: seq<Attempt>, i: int, failOpenAfter: int)
    requires 0 <= i < |run| && IsSuccess(run, i, failOpenAfter)
    ensures run[i].plan.Some?
  {
  }

  /** The state knows the latest success. */
  ghost predicate IsKnown(run: seq<Attempt>, n: nat, failOpenAfter: int, st: State)
    requires n <= |run|
  {
    && (NoneSucceeds(run, n, failOpenAfter) ==> !st.havePlan && ReportsNothing(st.status, n > 0))
    && forall j :: 0 <= j < n && IsLatest(run, j, n, failOpenAfter) ==>
         && run[j].plan.Some?
         && Holds(st, run[j].plan.value, run[j].now, j == n - 1, IsOpen(run, j, n, failOpenAfter))
  }

  /** The compiled plan is installed already exactly when it is the latest and not suspended. */
  lemma InstalledAlready(st: State, plan: FirewallPlan, latest: FirewallPlan, since: int, isLast: bool, open: bool)
    requires Holds(st, latest, since, isLast, open) && IsCompiled(plan)
    ensures plan.digest == st.appliedHash <==> plan == latest && !open
  {
    if plan.digest == st.appliedHash {
      DigestTells(plan, st.table.value);
    }
    hide Renderable;
  }

  lemma LatestSuccessAsRead(run: seq<Attempt>, n: nat, j: int, failOpenAfter: int, st: State)
    requires n < |run| && IsKnown(run, n, failOpenAfter, st) && Genuine(run)
    requires 0 <= j < n && IsLatest(run, j, n, failOpenAfter)
    ensures Succeeds(st, run[n]) <==> IsSuccess(run, n, failOpenAfter)
  {
    assert run[n] in run;
    forall i | 0 <= i < n && IsLatest(run, i, n, failOpenAfter)
      ensures i == j
    {
      OneLatest(run, n, i, j, failOpenAfter);
    }
    hide Holds, IsOpen, Renderable, IsLatest, IsCompiled;
    if run[n].plan.Some? {
      InstalledAlready(
        st, run[n].plan.value, run[j].plan.value, run[j].now, j == n - 1, IsOpen(run, j, n, failOpenAfter));
    }
  }

  lemma FirstSuccessAsRead(run: seq<Attempt>, n: nat, failOpenAfter: int, st: State)
    requires n < |run| && IsKnown(run, n, failOpenAfter, st) && Genuine(run) && Inv(st)
    requires NoneSucceeds(run, n, failOpenAfter)
    ensures Succeeds(st, run[n]) <==> IsSuccess(run, n, failOpenAfter)
  {
    assert run[n] in run;
    hide Holds, IsOpen, Renderable;
  }

  lemma SuccessAsRead(run: seq<Attempt>, n: nat, failOpenAfter: int, st: State)
    requires n < |run| && IsKnown(run, n, failOpenAfter, st) && Genuine(run) && Inv(st)
    ensures Succeeds(st, run[n]) <==> IsSuccess(run, n, failOpenAfter)
  {
    hide IsSuccess, IsLatest, NoneSucceeds, IsKnown, Inv, Genuine, Succeeds;
    if NoneSucceeds(run, n, failOpenAfter) {
      FirstSuccessAsRead(run, n, failOpenAfter, st);
    } else {
      SomeLatest(run, n, failOpenAfter);
      var j :| 0 <= j < n && IsLatest(run, j, n, failOpenAfter);
      LatestSuccessAsRead(run, n, j, failOpenAfter, st);
    }
  }

  lemma KnownAfterSuccess(run: seq<Attempt>, n: nat, failOpenAfter: int, st: State)
    requires n < |run| && Genuine(run) && Inv(st) && Succeeds(st, run[n]) && IsSuccess(run, n, failOpenAfter)
    ensures IsKnown(run, n + 1, failOpenAfter, Step(st, run[n], failOpenAfter))
  {
    assert run[n] in run;
    SuccessHasOnePlan(run, n, failOpenAfter);
    SuccessIs(st, run[n], failOpenAfter);
    hide Step, Holds, IsSuccess, Inv, Succeeds;
    var next := n + 1;
    forall j | 0 <= j < next && IsLatest(run, j, next, failOpenAfter) ensures j == n {
      assert !(j < n < next);
    }
    assert !IsOpen(run, n, n + 1, failOpenAfter);
  }

  lemma KnownAfterFailure(run: seq<Attempt>, n: nat, failOpenAfter: int, st: State)
    requires n < |run| && Inv(st) && !Succeeds(st, run[n]) && !IsSuccess(run, n, failOpenAfter)
    requires IsKnown(run, n, failOpenAfter, st)
    ensures IsKnown(run, n + 1, failOpenAfter, Step(st, run[n], failOpenAfter))
  {
    hide Step, Holds, IsSuccess, Inv, Succeeds, ReportsNothing;
    var s := Step(st, run[n], failOpenAfter);
    if NoneSucceeds(run, n + 1, failOpenAfter) {
      assert NoneSucceeds(run, n, failOpenAfter);
      NothingIs(st, run[n], failOpenAfter, n > 0);
    }
    forall j | 0 <= j < n + 1 && IsLatest(run, j, n + 1, failOpenAfter)
      ensures run[j].plan.Some? &&
        Holds(s, run[j].plan.value, run[j].now, j == n, IsOpen(run, j, n + 1, failOpenAfter))
    {
      assert j < n && IsLatest(run, j, n, failOpenAfter);
      FailureIs(
        st, run[n], failOpenAfter, run[j].plan.value, run[j].now, j == n - 1, IsOpen(run, j, n, failOpenAfter));
      OpenNext(run, j, n, failOpenAfter);
    }
  }

  lemma OpenNext(run: seq<Attempt>, j: nat, n: nat, failOpenAfter: int)
    requires j < n < |run|
    ensures IsOpen(run, j, n + 1, failOpenAfter) <==>
      IsOpen(run, j, n, failOpenAfter) || (run[n].now - run[j].now >= failOpenAfter && run[n].openWorks)
  {
  }

  lemma {:induction false} StateIsKnown(run: seq<Attempt>, n: nat, failOpenAfter: int)
    requires n <= |run| && Genuine(run)
    ensures IsKnown(run, n, failOpenAfter, After(run[..n], failOpenAfter))
    ensures Inv(After(run[..n], failOpenAfter))
  {
    hide IsKnown, Inv, Step, Succeeds, IsSuccess;
    InvAlways(run[..n], failOpenAfter);
    if n == 0 {
      assert run[..0] == [];
      NothingKnown(run, failOpenAfter);
    } else {
      assert run[..n][..n - 1] == run[..n - 1];
      var st := After(run[..n - 1], failOpenAfter);
      StateIsKnown(run, n - 1, failOpenAfter);
      SuccessAsRead(run, n - 1, failOpenAfter, st);
      if IsSuccess(run, n - 1, failOpenAfter) {
        KnownAfterSuccess(run, n - 1, failOpenAfter, st);
      } else {
        KnownAfterFailure(run, n - 1, failOpenAfter, st);
      }
    }
  }

  lemma NothingKnown(run: seq<Attempt>, failOpenAfter: int)
    ensures IsKnown(run, 0, failOpenAfter, Started())
  {
  }

  /** Attempts succeed as read. */
  lemma RunAsRead(run: seq<Attempt>, n: nat, failOpenAfter: int)
    requires n < |run| && Genuine(run)
    ensures SucceedsAt(run, n, failOpenAfter) <==> IsSuccess(run, n, failOpenAfter)
  {
    hide IsKnown, Inv, Succeeds, IsSuccess, After;
    StateIsKnown(run, n, failOpenAfter);
    SuccessAsRead(run, n, failOpenAfter, After(run[..n], failOpenAfter));
  }

  lemma FailuresAsRead(run: seq<Attempt>, n: nat, failOpenAfter: int)
    requires n <= |run| && Genuine(run)
    ensures IsSizeOf(FailureCount(run[..n], failOpenAfter), (i: int) => 0 <= i < n && !IsSuccess(run, i, failOpenAfter))
  {
    hide IsSizeOf, IsSuccess, Succeeds, After;
    var such := (i: int) => 0 <= i < n && !IsSuccess(run, i, failOpenAfter);
    if n == 0 {
      NothingSuch(such);
    } else {
      assert run[..n][..n - 1] == run[..n - 1];
      FailuresAsRead(run, n - 1, failOpenAfter);
      RunAsRead(run, n - 1, failOpenAfter);
      var last := (i: int) => i == n - 1 && !IsSuccess(run, i, failOpenAfter);
      SizeOfSet(if IsSuccess(run, n - 1, failOpenAfter) then {} else {n - 1}, last);
      SizesAdd(
        FailureCount(run[..n - 1], failOpenAfter), (i: int) => 0 <= i < n - 1 && !IsSuccess(run, i, failOpenAfter),
        if IsSuccess(run, n - 1, failOpenAfter) then 0 else 1, last, such);
    }
  }

  /** After every run, the status and the table in force are those of the latest success. */
  lemma StatusAsRead(run: seq<Attempt>, failOpenAfter: int)
    requires Genuine(run)
    ensures var st := After(run, failOpenAfter);
      IsStateAfter(run, |run|, failOpenAfter, st) &&
      IsSizeOf(st.status.failureCount, (i: int) => 0 <= i < |run| && !IsSuccess(run, i, failOpenAfter))
  {
    hide Inv, IsSuccess, After, IsLatest, NoneSucceeds, IsOpen, IsSizeOf, Reports, ReportsNothing, InForce, Genuine;
    assert run[..|run|] == run;
    StateIsKnown(run, |run|, failOpenAfter);
    Bookkeeping(run, failOpenAfter);
    FailuresAsRead(run, |run|, failOpenAfter);
    NoTable(After(run, failOpenAfter));
  }

  lemma NoTable(st: State)
    requires Inv(st)
    ensures !st.havePlan ==> st.table.None?
  {
  }
}
