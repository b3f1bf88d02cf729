/** The reconcile loop: what is installed, what is published, and when enforcement is
    suspended. */
module Manager {
  import opened Text
  import opened Network
  import opened Firewall
  import opened Topology
  import opened Choices
  import opened Compiler
  import opened Rendering

  // ---- state ----

  datatype PublicStatus = PublicStatus(
    status: string, policySHA256: Digest, defaultAction: string,
    lastSuccess: Option<int>, lastAttempt: Option<int>,
    workloadCount: nat, localWorkloadCount: nat, policyRuleCount: nat, firewallRuleCount: nat,
    zeroMatchCount: nat, failureCount: nat, failOpen: bool)

  /** `table` is the plan behind the owned nftables table, none while the manager has not
      touched it. */
  datatype State = State(
    status: PublicStatus, lastPlan: FirewallPlan, havePlan: bool, failures: nat,
    appliedHash: Digest, table: Option<FirewallPlan>)

  /** One call of reconcile: its start time, what metadata and compiler gave, and whether
      nft takes the plan and, if it comes to that, the fail-open plan. */
  datatype Attempt = Attempt(now: int, plan: Option<FirewallPlan>, works: bool, openWorks: bool)

  // ---- one attempt, as the sequence of states other goroutines can see ----

  predicate Installs(works: bool, plan: FirewallPlan) {
    works && Renderable(plan)
  }

  predicate Succeeds(st: State, a: Attempt) {
    a.plan.Some? && (a.plan.value.digest == st.appliedHash || Installs(a.works, a.plan.value))
  }

  function Begun(st: State, a: Attempt): State {
    st.(status := st.status.(lastAttempt := Some(a.now)))
  }

  function Applied(st: State, plan: FirewallPlan): State {
    st.(table := Some(plan), appliedHash := plan.digest)
  }

  /** The status reconcile publishes on success. */
  function ReadyStatus(plan: FirewallPlan, now: int, failures: nat): PublicStatus {
    PublicStatus(
      "ready", plan.digest, plan.defaultAction, Some(now), Some(now), plan.workloadCount, plan.localWorkloadCount,
      plan.policyRuleCount, |plan.rules|, plan.zeroMatchCount, failures, false)
  }

  function Ready(st: State, plan: FirewallPlan, now: int): State {
    st.(havePlan := true, lastPlan := plan, status := ReadyStatus(plan, now, st.failures))
  }

  /** The first locked section of recordFailure. */
  function Degraded(st: State, a: Attempt): State {
    st.(failures := st.failures + 1,
        status := st.status.(
          failureCount := st.failures + 1,
          lastAttempt := Some(a.now),
          status :=
            if st.status.status == "starting" || st.status.status == "ready" then "degraded"
            else st.status.status))
  }

  lemma DegradedKeepsPlan(st: State, a: Attempt)
    ensures Degraded(st, a).lastPlan == st.lastPlan
  {
  }

  /** recordFailure goes on to suspend enforcement. */
  predicate MayOpen(st: State, a: Attempt, failOpenAfter: int) {
    && st.havePlan && !st.status.failOpen && st.status.lastSuccess.Some?
    && a.now - st.status.lastSuccess.value >= failOpenAfter
  }

  /** The second locked section of recordFailure. */
  function OpenPublished(st: State, plan: FirewallPlan): State {
    st.(status := st.status.(
      status := "degraded", policySHA256 := plan.digest, defaultAction := plan.defaultAction,
      firewallRuleCount := 0, failOpen := true))
  }

  function FailureTrace(st: State, a: Attempt, failOpenAfter: int): (r: seq<State>)
    ensures |r| >= 1
  {
    var degraded := Degraded(st, a);
    var open := FailOpenPlan(st.lastPlan);
    if MayOpen(degraded, a, failOpenAfter) && Installs(a.openWorks, open) then
      [degraded, Applied(degraded, open), OpenPublished(Applied(degraded, open), open)]
    else [degraded]
  }

  /** Every state visible during an attempt, in order. */
  function Trace(st: State, a: Attempt, failOpenAfter: int): (r: seq<State>)
    ensures |r| >= 1
  {
    var begun := Begun(st, a);
    if !Succeeds(st, a) then [begun] + FailureTrace(begun, a, failOpenAfter)
    else if a.plan.value.digest != st.appliedHash then
      [begun, Applied(begun, a.plan.value), Ready(Applied(begun, a.plan.value), a.plan.value, a.now)]
    else [begun, Ready(begun, a.plan.value, a.now)]
  }

  /** The state an attempt leaves. */
  function Step(st: State, a: Attempt, failOpenAfter: int): State {
    Trace(st, a, failOpenAfter)[|Trace(st, a, failOpenAfter)| - 1]
  }

  // ---- the manager and its backend ----

  /** The nftables backend. Installing a table is one transaction. */
  class Backend {
    var table: Option<Program>
    ghost var installed: Option<FirewallPlan>

    /** The kernel runs a rendering of the installed plan. */
    ghost predicate Valid()
      reads this
    {
      && (table.Some? <==> installed.Some?)
      && (table.Some? ==> Renderable(installed.value) && Renders(table.value, installed.value))
      && (table.Some? ==> SetsAreInterned(table.value.sets))
    }

    constructor ()
      ensures Valid() && installed == None
    {
      table, installed := None, None;
    }

    /** Apply: renders the plan and commits it, or changes nothing. */
    method Apply(plan: FirewallPlan, works: bool) returns (ok: bool)
      requires Valid()
      modifies this
      ensures Valid() && (ok <==> Installs(works, plan))
      ensures installed == if ok then Some(plan) else old(installed)
      ensures !ok ==> table == old(table)
    {
      var script := RenderNFT(plan);
      if script.None? { return false; }
      if !works { return false; }
      table, installed := script, Some(plan);
      return true;
    }
  }

  class Manager {
    const backend: Backend
    const failOpenAfter: int
    var status: PublicStatus
    var lastPlan: FirewallPlan
    var havePlan: bool
    var failures: nat
    var appliedHash: Digest
    /** Every state another goroutine could have seen so far. */
    ghost var visible: seq<State>

    ghost function Now(): State
      reads this, backend
    {
      State(status, lastPlan, havePlan, failures, appliedHash, backend.installed)
    }

    ghost predicate Valid()
      reads this, backend
    {
      backend.Valid() && visible != [] && visible[|visible| - 1] == Now()
    }

    constructor (failOpenAfter: int)
      ensures Valid() && fresh(backend) && this.failOpenAfter == failOpenAfter
      ensures Now() == Started() && visible == [Started()]
    {
      backend := new Backend();
      this.failOpenAfter := failOpenAfter;
      status := Started().status;
      lastPlan := Started().lastPlan;
      havePlan := false;
      failures := 0;
      appliedHash := Blank;
      visible := [Started()];
    }

    /** Status */
    method Status() returns (r: PublicStatus)
      ensures r == Now().status
    {
      return status;
    }

    /** The first locked section of recordFailure. */
    method NoteFailure(a: Attempt)
      requires Valid()
      modifies this
      ensures Valid() && Now() == Degraded(old(Now()), a) && visible == old(visible) + [Now()]
    {
      hide Renderable, Renders, SetsAreInterned;
      failures := failures + 1;
      status := status.(failureCount := failures, lastAttempt := Some(a.now));
      if status.status == "starting" {
        status := status.(status := "degraded");
      } else if status.status == "ready" {
        status := status.(status := "degraded");
      }
      visible := visible + [Now()];
    }

    /** recordFailure */
    method RecordFailure(a: Attempt)
      requires Valid()
      modifies this, backend
      ensures Valid()
      ensures visible == old(visible) + FailureTrace(old(Now()), a, failOpenAfter)
    {
      hide Renderable, Renders, SetsAreInterned, FailOpenPlan, Installs, Degraded;
      NoteFailure(a);
      assert lastPlan == old(lastPlan) by { DegradedKeepsPlan(old(Now()), a); }
      var lastSuccess, alreadyOpen, previous := status.lastSuccess, status.failOpen, lastPlan;
      if !havePlan || alreadyOpen || lastSuccess.None? || a.now - lastSuccess.value < failOpenAfter { return; }
      var plan := FailOpenPlan(previous);
      var ok := backend.Apply(plan, a.openWorks);
      if !ok { return; }
      appliedHash := plan.digest;
      visible := visible + [Now()];

      status := status.(status := "degraded", policySHA256 := plan.digest, defaultAction := plan.defaultAction,
                        firewallRuleCount := 0, failOpen := true);
      visible := visible + [Now()];
    }

    /** reconcile. The attempt it returns records the reply and the plan compiled from it. */
    method Reconcile(reply: Reply) returns (a: Attempt)
      requires Valid()
      modifies this, backend
      ensures Valid() && Answers(reply, a)
      ensures visible == old(visible) + Trace(old(Now()), a, failOpenAfter)
    {
      hide Answers, Renderable, Renders, SetsAreInterned, FailureTrace;
      status := status.(lastAttempt := Some(reply.now));
      visible := visible + [Now()];
      a := Plan(reply);
      if a.plan.None? {
        RecordFailure(a);
        return;
      }
      var plan := a.plan.value;
      if plan.digest != appliedHash {
        var ok := backend.Apply(plan, a.works);
        if !ok {
          RecordFailure(a);
          return;
        }
        appliedHash := plan.digest;
        visible := visible + [Now()];
      }
      havePlan := true;
      lastPlan := plan;
      status := ReadyStatus(plan, a.now, failures);
      visible := visible + [Now()];
    }
  }

  // ---- the plan of an attempt ----

  /** What the world answers one attempt: the time, the snapshot the metadata source delivers,
      and whether nft takes the plan and the fail-open plan. */
  datatype Reply = Reply(now: int, snapshot: Option<Snapshot>, works: bool, openWorks: bool)

  /** The attempt that comes of a reply: it has a plan exactly when the compiler accepts the
      snapshot, and then one the compiler may return. */
  ghost predicate Answers(r: Reply, a: Attempt) {
    && a.now == r.now && a.works == r.works && a.openWorks == r.openWorks
    && (a.plan.Some? <==> r.snapshot.Some? && Accepted(r.snapshot.value))
    && (a.plan.Some? ==> IsCompiled(a.plan.value) && IsPossiblePlan(r.snapshot.value, a.plan.value))
  }

  /** The part of reconcile that changes nothing: metadata, then the compiler. */
  method Plan(reply: Reply) returns (a: Attempt)
    ensures Answers(reply, a) && a.now == reply.now
  {
    hide Accepted, IsCompiled, IsPossiblePlan, LabelsDetermined, PlanOf;
    var plan := None;
    if reply.snapshot.Some? {
      plan := Compile(reply.snapshot.value);
    }
    a := Attempt(reply.now, plan, reply.works, reply.openWorks);
  }

  /** Labels that have one lower-cased form leave one plan. */
  lemma ReplyDeterminesPlan(r: Reply, a: Attempt)
    requires Answers(r, a) && a.plan.Some? && LabelsDetermined(r.snapshot.value)
    ensures Accepted(r.snapshot.value) && a.plan == Some(PlanOf(r.snapshot.value))
  {
    hide RuleAccepted, IsPossiblePlan, LabelsDetermined, PlanOf, WorkloadsAccepted;
    OnePossiblePlan(r.snapshot.value, a.plan.value);
  }

  /** The state Run starts from. */
  function Started(): State {
    State(
      PublicStatus("starting", Blank, "", None, None, 0, 0, 0, 0, 0, 0, false),
      FirewallPlan(Prefix(NoAddr, 0), Blank, "", [], 0, 0, 0, 0, false), false, 0, Blank, None)
  }
}
