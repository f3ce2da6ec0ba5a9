/** Milestone-list creation on a Project contract: `createMilestone`, `createMilestones`,
    `getMilestonesCount`, `milestones(i)` and `milestoneStatuses(i)`. Each call is an atomic
    transaction: it either returns the new project state or reverts with nothing changed. */
module Milestones {
  import opened Wrappers

  /** An account; the empty string is the empty address argument the contract refuses. */
  type Address = string

  /** The `milestones(i)` record: (recipient, description, threshold). */
  datatype Milestone = Milestone(recipient: Address, description: string, threshold: nat)

  /** The `milestoneStatuses(i)` record: (approved, approvedAt, approvalsCount, completed, completedAt). */
  datatype MilestoneStatus = MilestoneStatus(
    approved: bool,
    approvedAt: nat,
    approvalsCount: nat,
    completed: bool,
    completedAt: nat)

  /** The status every new milestone starts with. */
  const Pending := MilestoneStatus(false, 0, 0, false, 0)

  /** The part of a Project this model covers: who owns it, who receives its funds,
      and its milestones with their statuses, index for index. */
  datatype Project = Project(
    owner: Address,
    recipient: Address,
    milestones: seq<Milestone>,
    statuses: seq<MilestoneStatus>)

  datatype MilestoneError =
    | NotOwner
    | EmptyDescription
    | ZeroThreshold
    | EmptyRecipient
    | ThresholdNotIncreasing
    | LengthMismatch

  /** A stored milestone has a description, a positive threshold and a recipient. */
  predicate WellFormed(m: Milestone) {
    m.description != "" && m.threshold > 0 && m.recipient != ""
  }

  /** The state every reachable project is in: one status per milestone, every milestone
      well formed, thresholds strictly increasing in list order. */
  predicate Valid(p: Project) {
    && |p.statuses| == |p.milestones|
    && (forall i :: 0 <= i < |p.milestones| ==> WellFormed(p.milestones[i]))
    && (forall i, j :: 0 <= i < j < |p.milestones| ==> p.milestones[i].threshold < p.milestones[j].threshold)
  }

  /** The factory's `createProject(recipient, ...)` sent by `creator`: the creator, not the
      recipient argument, becomes the owner; the milestone list starts empty. */
  function NewProject(creator: Address, recipient: Address): (p: Project)
    ensures p.owner == creator && p.recipient == recipient
    ensures |p.milestones| == 0 && Valid(p)
  {
    Project(creator, recipient, [], [])
  }

  /** The threshold a new milestone must exceed: the last one's, or 0 for an empty list. */
  function LastThreshold(p: Project): nat {
    if |p.milestones| == 0 then 0 else p.milestones[|p.milestones| - 1].threshold
  }

  /** Validation of one milestone against the threshold before it. */
  function CheckMilestone(floor: nat, description: string, threshold: nat, recipient: Address): (e: Option<MilestoneError>)
    ensures e.None? <==> description != "" && threshold > 0 && recipient != "" && threshold > floor
    ensures description == "" ==> e == Some(EmptyDescription)
    ensures threshold == 0 && description != "" ==> e == Some(ZeroThreshold)
  {
    if description == "" then Some(EmptyDescription)
    else if threshold == 0 then Some(ZeroThreshold)
    else if recipient == "" then Some(EmptyRecipient)
    else if threshold <= floor then Some(ThresholdNotIncreasing)
    else None
  }

  function Append(p: Project, description: string, threshold: nat, recipient: Address): Project {
    p.(milestones := p.milestones + [Milestone(recipient, description, threshold)],
       statuses := p.statuses + [Pending])
  }

  /** `createMilestone(description, threshold, recipient)` sent by `caller`. */
  function CreateMilestone(p: Project, caller: Address, description: string, threshold: nat, recipient: Address)
    : (r: Result<Project, MilestoneError>)
    ensures r.Success? <==>
      caller == p.owner && description != "" && threshold > 0 && recipient != "" && threshold > LastThreshold(p)
    ensures caller != p.owner ==> r == Failure(NotOwner)
    ensures r.Success? ==>
      && r.value.owner == p.owner && r.value.recipient == p.recipient
      && |r.value.milestones| == |p.milestones| + 1
      && r.value.milestones[..|p.milestones|] == p.milestones
      && r.value.milestones[|p.milestones|] == Milestone(recipient, description, threshold)
      && r.value.statuses == p.statuses + [Pending]
  {
    if caller != p.owner then Failure(NotOwner)
    else
      match CheckMilestone(LastThreshold(p), description, threshold, recipient)
      case Some(e) => Failure(e)
      case None => Success(Append(p, description, threshold, recipient))
  }

  /** A successful single creation keeps the project valid. */
  lemma CreateMilestonePreservesValid(p: Project, caller: Address, description: string, threshold: nat, recipient: Address)
    requires Valid(p)
    requires CreateMilestone(p, caller, description, threshold, recipient).Success?
    ensures Valid(CreateMilestone(p, caller, description, threshold, recipient).value)
  {
    var q := CreateMilestone(p, caller, description, threshold, recipient).value;
    var n := |p.milestones|;
    forall i, j | 0 <= i < j < |q.milestones|
      ensures q.milestones[i].threshold < q.milestones[j].threshold
    {
      if j == n {
        assert q.milestones[i] == p.milestones[i];
        if i < n - 1 {
          assert p.milestones[i].threshold < p.milestones[n - 1].threshold;
        }
      } else {
        assert q.milestones[i] == p.milestones[i] && q.milestones[j] == p.milestones[j];
      }
    }
  }

  // ---------------------------------------------------------------------------
  // Batch creation
  // ---------------------------------------------------------------------------

  /** Appends the inputs one by one, each checked against the threshold before it;
      the first invalid element fails the whole batch. */
  function AppendAll(p: Project, ds: seq<string>, ts: seq<nat>, rs: seq<Address>): Result<Project, MilestoneError>
    requires |ds| == |ts| == |rs|
    decreases |ds|
  {
    if |ds| == 0 then Success(p)
    else
      match CheckMilestone(LastThreshold(p), ds[0], ts[0], rs[0])
      case Some(e) => Failure(e)
      case None => AppendAll(Append(p, ds[0], ts[0], rs[0]), ds[1..], ts[1..], rs[1..])
  }

  /** `createMilestones(descriptions, thresholds, recipients)` sent by `caller`. */
  function CreateMilestones(p: Project, caller: Address, ds: seq<string>, ts: seq<nat>, rs: seq<Address>)
    : (r: Result<Project, MilestoneError>)
    ensures caller != p.owner ==> r == Failure(NotOwner)
    ensures caller == p.owner && !(|ds| == |ts| == |rs|) ==> r == Failure(LengthMismatch)
  {
    if caller != p.owner then Failure(NotOwner)
    else if !(|ds| == |ts| == |rs|) then Failure(LengthMismatch)
    else AppendAll(p, ds, ts, rs)
  }

  /** The milestones a batch describes, in input order. */
  function Zip(ds: seq<string>, ts: seq<nat>, rs: seq<Address>): (ms: seq<Milestone>)
    requires |ds| == |ts| == |rs|
    ensures |ms| == |ds|
    ensures forall i :: 0 <= i < |ds| ==> ms[i] == Milestone(rs[i], ds[i], ts[i])
  {
    seq(|ds|, i requires 0 <= i < |ds| => Milestone(rs[i], ds[i], ts[i]))
  }

  function PendingStatuses(n: nat): (ss: seq<MilestoneStatus>)
    ensures |ss| == n && forall i :: 0 <= i < n ==> ss[i] == Pending
  {
    seq(n, i => Pending)
  }

  /** The batch rule stated element-wise: every element well formed, and every threshold above
      the one before it (the first one above the project's last threshold). */
  predicate BatchAcceptable(floor: nat, ds: seq<string>, ts: seq<nat>, rs: seq<Address>)
    requires |ds| == |ts| == |rs|
  {
    && (forall i :: 0 <= i < |ds| ==> ds[i] != "" && ts[i] > 0 && rs[i] != "")
    && (|ts| > 0 ==> ts[0] > floor)
    && (forall i :: 0 < i < |ts| ==> ts[i - 1] < ts[i])
  }

  /** The element-wise rule unfolded once: the head passes the single check, the tail is
      acceptable above the head's threshold. */
  lemma BatchAcceptableCons(floor: nat, ds: seq<string>, ts: seq<nat>, rs: seq<Address>)
    requires |ds| == |ts| == |rs| > 0
    ensures BatchAcceptable(floor, ds, ts, rs) <==>
      CheckMilestone(floor, ds[0], ts[0], rs[0]).None? && BatchAcceptable(ts[0], ds[1..], ts[1..], rs[1..])
  {
    if CheckMilestone(floor, ds[0], ts[0], rs[0]).None? && BatchAcceptable(ts[0], ds[1..], ts[1..], rs[1..]) {
      forall i | 0 < i < |ds|
        ensures ds[i] != "" && ts[i] > 0 && rs[i] != "" && ts[i - 1] < ts[i]
      {
        assert ds[1..][i - 1] == ds[i] && ts[1..][i - 1] == ts[i] && rs[1..][i - 1] == rs[i];
        if i > 1 {
          assert ts[1..][i - 2] == ts[i - 1];
        }
      }
    }
  }

  lemma {:induction false} AppendAllAccepts(p: Project, ds: seq<string>, ts: seq<nat>, rs: seq<Address>)
    requires |ds| == |ts| == |rs|
    ensures AppendAll(p, ds, ts, rs).Success? <==> BatchAcceptable(LastThreshold(p), ds, ts, rs)
    decreases |ds|
  {
    if |ds| > 0 {
      var q := Append(p, ds[0], ts[0], rs[0]);
      assert LastThreshold(q) == ts[0];
      AppendAllAccepts(q, ds[1..], ts[1..], rs[1..]);
      BatchAcceptableCons(LastThreshold(p), ds, ts, rs);
    }
  }

  lemma ZipCons(ds: seq<string>, ts: seq<nat>, rs: seq<Address>)
    requires |ds| == |ts| == |rs| > 0
    ensures Zip(ds, ts, rs) == [Milestone(rs[0], ds[0], ts[0])] + Zip(ds[1..], ts[1..], rs[1..])
  {
  }

  lemma {:induction false} AppendAllValue(p: Project, ds: seq<string>, ts: seq<nat>, rs: seq<Address>)
    requires |ds| == |ts| == |rs|
    requires AppendAll(p, ds, ts, rs).Success?
    ensures var q := AppendAll(p, ds, ts, rs).value;
      && q.owner == p.owner && q.recipient == p.recipient
      && q.milestones == p.milestones + Zip(ds, ts, rs)
      && q.statuses == p.statuses + PendingStatuses(|ds|)
    decreases |ds|
  {
    if |ds| == 0 {
      assert p.milestones + Zip(ds, ts, rs) == p.milestones;
      assert p.statuses + PendingStatuses(0) == p.statuses;
    } else {
      var q := Append(p, ds[0], ts[0], rs[0]);
      var r := AppendAll(p, ds, ts, rs);
      assert r == AppendAll(q, ds[1..], ts[1..], rs[1..]);
      AppendAllValue(q, ds[1..], ts[1..], rs[1..]);
      ZipCons(ds, ts, rs);
      var head := [Milestone(rs[0], ds[0], ts[0])];
      var tail := Zip(ds[1..], ts[1..], rs[1..]);
      calc {
        r.value.milestones;
        q.milestones + tail;
        (p.milestones + head) + tail;
        p.milestones + (head + tail);
      }
      calc {
        r.value.statuses;
        q.statuses + PendingStatuses(|ds| - 1);
        (p.statuses + [Pending]) + PendingStatuses(|ds| - 1);
        p.statuses + ([Pending] + PendingStatuses(|ds| - 1));
        { assert PendingStatuses(|ds|) == [Pending] + PendingStatuses(|ds| - 1); }
        p.statuses + PendingStatuses(|ds|);
      }
    }
  }

  /** A batch succeeds exactly when the owner sends three arrays of one length whose elements
      are well formed and strictly increasing in threshold, starting above the existing list;
      it then appends every element in input order, each with a pending status. */
  lemma CreateMilestonesSpec(p: Project, caller: Address, ds: seq<string>, ts: seq<nat>, rs: seq<Address>)
    ensures var r := CreateMilestones(p, caller, ds, ts, rs);
      r.Success? <==> caller == p.owner && |ds| == |ts| == |rs| && BatchAcceptable(LastThreshold(p), ds, ts, rs)
    ensures var r := CreateMilestones(p, caller, ds, ts, rs);
      r.Success? ==>
        && |ds| == |ts| == |rs|
        && r.value.owner == p.owner && r.value.recipient == p.recipient
        && r.value.milestones == p.milestones + Zip(ds, ts, rs)
        && r.value.statuses == p.statuses + PendingStatuses(|ds|)
  {
    if caller == p.owner && |ds| == |ts| == |rs| {
      AppendAllAccepts(p, ds, ts, rs);
      if AppendAll(p, ds, ts, rs).Success? {
        AppendAllValue(p, ds, ts, rs);
      }
    }
  }

  /** A batch is the sequence of its single creations, committed only if every one succeeds. */
  lemma BatchIsSequenceOfSingles(p: Project, caller: Address, ds: seq<string>, ts: seq<nat>, rs: seq<Address>)
    requires |ds| == |ts| == |rs| > 0
    ensures CreateMilestones(p, caller, ds, ts, rs) ==
      match CreateMilestone(p, caller, ds[0], ts[0], rs[0])
      case Failure(e) => Failure(e)
      case Success(q) => CreateMilestones(q, caller, ds[1..], ts[1..], rs[1..])
  {
  }

  /** A successful batch keeps the project valid. */
  lemma {:induction false} CreateMilestonesPreservesValid(p: Project, caller: Address, ds: seq<string>, ts: seq<nat>, rs: seq<Address>)
    requires Valid(p)
    requires CreateMilestones(p, caller, ds, ts, rs).Success?
    ensures Valid(CreateMilestones(p, caller, ds, ts, rs).value)
    decreases |ds|
  {
    CreateMilestonesSpec(p, caller, ds, ts, rs);
    if |ds| > 0 {
      BatchIsSequenceOfSingles(p, caller, ds, ts, rs);
      var q := CreateMilestone(p, caller, ds[0], ts[0], rs[0]).value;
      CreateMilestonePreservesValid(p, caller, ds[0], ts[0], rs[0]);
      CreateMilestonesPreservesValid(q, caller, ds[1..], ts[1..], rs[1..]);
    }
  }

  // ---------------------------------------------------------------------------
  // Transactions and getters
  // ---------------------------------------------------------------------------

  /** The state after a transaction: its result when it succeeded, the old state when it reverted. */
  function Commit(p: Project, r: Result<Project, MilestoneError>): (q: Project)
    ensures r.Failure? ==> q == p
  {
    if r.Success? then r.value else p
  }

  /** A batch with a pair of adjacent thresholds that does not increase reverts as a whole. */
  lemma NonIncreasingBatchReverts(p: Project, caller: Address, ds: seq<string>, ts: seq<nat>, rs: seq<Address>, i: nat)
    requires 0 < i < |ts| && ts[i] <= ts[i - 1]
    ensures CreateMilestones(p, caller, ds, ts, rs).Failure?
    ensures Commit(p, CreateMilestones(p, caller, ds, ts, rs)) == p
  {
    CreateMilestonesSpec(p, caller, ds, ts, rs);
  }

  /** `getMilestonesCount()`. */
  function MilestonesCount(p: Project): nat {
    |p.milestones|
  }

  /** `milestones(i)`: reverts (None) past the end of the list. */
  function MilestoneAt(p: Project, i: nat): (r: Option<Milestone>)
    ensures r.Some? <==> i < MilestonesCount(p)
    ensures r.Some? ==> r.value == p.milestones[i]
  {
    if i < |p.milestones| then Some(p.milestones[i]) else None
  }

  /** `milestoneStatuses(i)`: taken to revert (None) past the end of the list, as a public
      array getter does. */
  function MilestoneStatusAt(p: Project, i: nat): (r: Option<MilestoneStatus>)
    ensures r.Some? <==> i < |p.statuses|
    ensures r.Some? ==> r.value == p.statuses[i]
  {
    if i < |p.statuses| then Some(p.statuses[i]) else None
  }

  /** After a successful batch, index `|old list| + i` holds the i-th input, still pending. */
  lemma BatchIndexing(p: Project, caller: Address, ds: seq<string>, ts: seq<nat>, rs: seq<Address>, i: nat)
    requires |p.statuses| == |p.milestones|
    requires CreateMilestones(p, caller, ds, ts, rs).Success?
    requires i < |ds|
    ensures var q := CreateMilestones(p, caller, ds, ts, rs).value;
      && i < |ts| && i < |rs|
      && MilestonesCount(q) == MilestonesCount(p) + |ds|
      && MilestoneAt(q, |p.milestones| + i) == Some(Milestone(rs[i], ds[i], ts[i]))
      && MilestoneStatusAt(q, |p.milestones| + i) == Some(Pending)
  {
    CreateMilestonesSpec(p, caller, ds, ts, rs);
  }

  // ---------------------------------------------------------------------------
  // The test fixture: owner accounts[0], recipient accounts[1], thresholds 30000/70000/90000
  // ---------------------------------------------------------------------------

  const Account0: Address := "account-0"
  const Account1: Address := "account-1"
  const Account2: Address := "account-2"

  /** The recipient of a project is not its owner: it cannot create milestones. */
  lemma RecipientCannotCreateMilestone(creator: Address, recipient: Address, description: string, threshold: nat, to: Address)
    requires creator != recipient
    ensures CreateMilestone(NewProject(creator, recipient), recipient, description, threshold, to) == Failure(NotOwner)
  {
  }

  /** On a fresh project, the owner's single creation succeeds exactly for a non-empty
      description, a positive threshold and a non-empty recipient; the list then has one
      pending milestone holding the inputs. */
  lemma FirstMilestoneCreation(creator: Address, recipient: Address, description: string, threshold: nat, to: Address)
    ensures var r := CreateMilestone(NewProject(creator, recipient), creator, description, threshold, to);
      && (r.Success? <==> description != "" && threshold > 0 && to != "")
      && (r.Success? ==>
            && MilestonesCount(r.value) == 1
            && MilestoneAt(r.value, 0) == Some(Milestone(to, description, threshold))
            && MilestoneStatusAt(r.value, 0) == Some(Pending))
  {
  }

  /** The batch tests: decreasing thresholds and mismatched lengths revert; the increasing batch
      stores its thresholds at indices 0, 1, 2. */
  lemma FixtureBatches()
    ensures var p := NewProject(Account0, Account1);
      CreateMilestones(p, Account0, ["M1", "M2", "M3"], [90000, 70000, 30000], [Account0, Account1, Account2]).Failure?
    ensures var p := NewProject(Account0, Account1);
      CreateMilestones(p, Account0, ["M1", "M2", "M3"], [30000], [Account0, Account1]) == Failure(LengthMismatch)
    ensures var p := NewProject(Account0, Account1);
      var r := CreateMilestones(p, Account0, ["M1", "M2", "M3"], [30000, 70000, 90000], [Account0, Account1, Account2]);
      && r.Success?
      && MilestonesCount(r.value) == 3
      && r.value.milestones[0].threshold == 30000
      && r.value.milestones[1].threshold == 70000
      && r.value.milestones[2].threshold == 90000
  {
    var p := NewProject(Account0, Account1);
    NonIncreasingBatchReverts(p, Account0, ["M1", "M2", "M3"], [90000, 70000, 30000], [Account0, Account1, Account2], 1);
    CreateMilestonesSpec(p, Account0, ["M1", "M2", "M3"], [30000, 70000, 90000], [Account0, Account1, Account2]);
  }
}
