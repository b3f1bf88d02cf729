/** From metadata to the kernel. */
module EndToEnd {
  import opened Text
  import opened Network
  import opened Firewall
  import opened Policy
  import opened Topology
  import opened Choices
  import opened Meaning
  import opened Metadata
  import opened MetadataLaws
  import opened Rendering
  import opened Manager
  import opened ManagerRuns
  import opened Pipeline
  import opened PolicyReading
  import opened InputReading

  /** After any run: when "ready" is published and the snapshot of the last attempt was built
      from the metadata, that snapshot was accepted, the table is its plan, and the kernel
      accepts a packet exactly when the policy in the metadata, read directly, does not deny it. */
  lemma ReadyEnforcesMetadata(
    run: seq<Attempt>, failOpenAfter: int, reply: Reply, input: Input, program: Program, pkt: Packet)
    requires Genuine(run) && run != [] && Answers(reply, run[|run| - 1])
    requires After(run, failOpenAfter).status.status == "ready"
    requires reply.snapshot.Some? ==> IsSnapshotOf(reply.snapshot.value, input)
    requires SetsAreInterned(program.sets)
    requires After(run, failOpenAfter).table.Some? ==> Renders(program, After(run, failOpenAfter).table.value)
    ensures reply.snapshot.Some? && Accepted(reply.snapshot.value)
    ensures After(run, failOpenAfter).table == Some(PlanOf(reply.snapshot.value))
    ensures Accepts(program, pkt) <==>
      (NewInSubnet(reply.snapshot.value, pkt) ==> Verdict(reply.snapshot.value, pkt) == "allow")
  {
    hide IsSnapshotOf, Accepted, IsNormalPolicy, Renders, SetsAreInterned, Accepts, PlanOf, Verdict, After, Genuine,
      LabelsDetermined, Answers, NewInSubnet;
    if reply.snapshot.Some? {
      SnapshotPolicy(reply.snapshot.value, input);
      SnapshotLabelsAreDetermined(reply.snapshot.value, input);
    }
    ReadyMeansEnforced(run, failOpenAfter, reply, program, pkt);
  }

  /** And the attempt of every snapshot built from metadata is its plan, whatever the answers of
      the selector matcher. */
  lemma MetadataPlanIsCompiled(reply: Reply, a: Attempt, input: Input)
    requires Answers(reply, a) && a.plan.Some? && IsSnapshotOf(reply.snapshot.value, input)
    ensures Accepted(reply.snapshot.value) && a.plan == Some(PlanOf(reply.snapshot.value))
  {
    hide IsSnapshotOf, Accepted, PlanOf, LabelsDetermined, IsPossiblePlan;
    SnapshotLabelsAreDetermined(reply.snapshot.value, input);
    ReplyDeterminesPlan(reply, a);
  }

  /** A new packet between two addresses of the subnet. */
  ghost predicate IsGoverned(s: Snapshot, pkt: Packet) {
    IsInside(pkt.src, s.subnet) && IsInside(pkt.dst, s.subnet) && !pkt.established
  }

  lemma GovernedAsRead(s: Snapshot, pkt: Packet)
    requires IsPrefix4(s.subnet)
    ensures NewInSubnet(s, pkt) <==> IsGoverned(s, pkt)
  {
    hide IsInside, Contains;
    ContainsIsInside(s.subnet, pkt.src);
    ContainsIsInside(s.subnet, pkt.dst);
  }

  /** The same, read off the texts: the kernel accepts a packet exactly when it is not a new one
      between two addresses of the subnet, or the policy as it is written allows it. */
  lemma ReadyEnforcesAsRead(
    run: seq<Attempt>, failOpenAfter: int, reply: Reply, input: Input, program: Program, pkt: Packet)
    requires Genuine(run) && run != [] && Answers(reply, run[|run| - 1])
    requires After(run, failOpenAfter).status.status == "ready"
    requires reply.snapshot.Some? ==> IsSnapshotOf(reply.snapshot.value, input)
    requires SetsAreInterned(program.sets)
    requires After(run, failOpenAfter).table.Some? ==> Renders(program, After(run, failOpenAfter).table.value)
    ensures reply.snapshot.Some? && IsBuildable(input)
    ensures Accepts(program, pkt) <==>
      (IsGoverned(reply.snapshot.value, pkt) ==> IsVerdict(reply.snapshot.value, pkt, "allow"))
  {
    hide IsSnapshotOf, RuleAccepted, WorkloadsAccepted, IsNormalPolicy, Renders, SetsAreInterned, Accepts, PlanOf,
      Verdict, After,
      Genuine, LabelsDetermined, Answers, NewInSubnet, IsVerdict, IsBuildable, IsGoverned;
    ReadyEnforcesMetadata(run, failOpenAfter, reply, input, program, pkt);
    var s := reply.snapshot.value;
    SnapshotHeadAsRead(s, input);
    SnapshotLabelsAreDetermined(s, input);
    GovernedAsRead(s, pkt);
    VerdictAsRead(s, pkt);
    if IsVerdict(s, pkt, "allow") { OneVerdict(s, pkt, Verdict(s, pkt), "allow"); }
  }
}
