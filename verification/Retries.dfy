/** Requests and retries of instantiate, terminate, heal and change_ext_conn: which of them the API
    admits, and what any number of them leaves behind. */
module Retries {
  import opened Common
  import opened Lifecycle

  // ---------------------------------------------------------------- admission

  /** The checks on the instance. Instantiate and terminate are checked on every way in, heal and
      change_ext_conn only as fresh requests. */
  predicate StateCheck(op: Operation, fresh_: bool, i: Instance) {
    match op
    case Instantiate => !i.instantiated && !i.busy
    case Terminate => !i.busy
    case Heal => fresh_ ==> i.instantiated && !i.busy
    case ChangeExtConn => fresh_ ==> i.instantiated
  }

  /** `check_vnf_status_and_error_point`, which change_ext_conn does not have. */
  predicate StatusCheck(op: Operation, before: nat, status: VnfStatus) {
    op.ChangeExtConn? || before != INITIAL || status == StartStatus(op)
  }

  /** An accepted request of `op`, on a record with a new occurrence, or an accepted retry, which
      demands FAILED_TEMP and resumes at the stored error point. The status copy is the row's. */
  ghost predicate Admitted(a: Attempt, pre: Record) {
    && a.Valid() && a.dictStatus == pre.status
    && StatusCheck(a.op, a.before, pre.status)
    && StateCheck(a.op, pre.opState == Starting, pre.instance)
    && ((pre.opState == Starting && a.before == INITIAL)
        || (pre.opState == FailedTemp && a.before == pre.errorPoint))
  }

  ghost predicate Attempted(a: Attempt, pre: Record, post: Record) {
    AttemptRel(a, pre, post, false) || AttemptRel(a, pre, post, true)
  }

  /** A request followed by any number of retries of the same operation occurrence (one that
      resumes at INITIAL is given a new occurrence and so is not one of them). */
  ghost predicate Chain(as_: seq<Attempt>, recs: seq<Record>) {
    && |recs| == |as_| + 1
    && recs[0].opState == Starting
    && (forall i :: 0 <= i < |as_| ==> as_[i].op == as_[0].op && Admitted(as_[i], recs[i]))
    && (forall i :: 1 <= i < |as_| ==> as_[i].before != INITIAL)
    && (forall i :: 0 <= i < |as_| ==> Attempted(as_[i], recs[i], recs[i + 1]))
  }

  // ---------------------------------------------------------------- which attempts can be retried

  /** Some retry of the occurrence passes the API's checks. */
  ghost predicate Retryable(op: Operation, r: Record) {
    r.opState == FailedTemp && exists retry: Attempt :: retry.op == op && Admitted(retry, r)
  }

  lemma RetryableMeans(op: Operation, r: Record)
    ensures Retryable(op, r)
            <==> && r.opState == FailedTemp && r.errorPoint <= NOTIFY_COMPLETED
                 && StatusCheck(op, r.errorPoint, r.status) && StateCheck(op, false, r.instance)
  {
    var retry := Attempt(op, r.errorPoint, r.status, {}, VNF_CONFIG_END, r.instance, r.instance.instantiated);
    if && r.opState == FailedTemp && r.errorPoint <= NOTIFY_COMPLETED
       && StatusCheck(op, r.errorPoint, r.status) && StateCheck(op, false, r.instance) {
      assert Admitted(retry, r);
    }
  }

  /** The task state is reset although the clean-up does not get to do it: the driver had reset it
      before it raised and its decorator could not set it again; or, for terminate, the driver came
      to its end or the main block saved the instance. */
  ghost predicate ResetEarlier(a: Attempt, st: VnfStatus) {
    && StartClear(a) && ClaimOk(a, st)
    && if RunsDriver(a) && Driver in a.faults then
         !a.driverStored.busy && (a.op.Instantiate? || RevertTask in a.faults)
       else
         a.op.Terminate? && (RunsDriver(a) || {GetVim, InstanceUpdate} !! a.faults)
  }

  /** What decides whether a failed attempt can be retried. If its failure was saved:
      - instantiate: it got past the save of PROCESSING but not to NOTIFY_COMPLETED, where the instance
        becomes INSTANTIATED, and the task state was reset;
      - terminate: it got past the save of PROCESSING, and the task state was reset;
      - heal: it got past the save of PROCESSING, or the ERROR write failed and left ACTIVE;
      - change_ext_conn: always.
      Otherwise the attempt must have been a retry that did not even save PROCESSING. */
  ghost predicate LeavesRetry(a: Attempt, pre: Record) {
    var st := pre.status;
    && !GrantRefused(a) && !Succeeds(a, st)
    && if FailureSaved(a) then
         match a.op
         case Instantiate =>
           && StartClear(a) && FailPoint(a, st) != Some(NOTIFY_COMPLETED)
           && (CleanResets(a, st) || ResetEarlier(a, st))
         case Terminate => StartClear(a) && (CleanResets(a, st) || ResetEarlier(a, st))
         case Heal => StartClear(a) || (CleanStatus in a.faults && st == Active)
         case ChangeExtConn => true
       else
         && !StartClear(a) && pre.opState == FailedTemp && a.before != INITIAL
         && (a.op.Instantiate? || a.op.Terminate? ==> CleanResets(a, st))
  }

  /** DEAD is neither entered nor left. */
  lemma DeadStays(a: Attempt, st: VnfStatus)
    ensures FailStatus(a, st) == Dead <==> st == Dead
  {
  }

  /** Whether the main block leaves an accepted instantiate or terminate busy. */
  lemma BusyAfterMain(a: Attempt, st: VnfStatus, i: Instance)
    requires (a.op.Instantiate? || a.op.Terminate?) && i.busy
    requires a.op.Instantiate? ==> !LateReached(a, st)
    ensures MainShadow(a, st, i).stored.busy <==> !ResetEarlier(a, st)
  {
  }

  lemma FailedInstantiate(a: Attempt, pre: Record, mid: Record)
    requires a.op.Instantiate? && Admitted(a, pre) && Attempted(a, pre, mid)
    requires !GrantRefused(a) && !Succeeds(a, pre.status)
    ensures mid.instance.instantiated || mid.instance.busy
            <==> LateReached(a, pre.status) || !(CleanResets(a, pre.status) || ResetEarlier(a, pre.status))
  {
    DeadStays(a, pre.status);
    if !LateReached(a, pre.status) {
      BusyAfterMain(a, pre.status, Accepted(a, pre).instance);
    }
  }

  lemma FailedTerminate(a: Attempt, pre: Record, mid: Record)
    requires a.op.Terminate? && Admitted(a, pre) && Attempted(a, pre, mid)
    requires !GrantRefused(a) && !Succeeds(a, pre.status)
    ensures mid.instance.busy <==> !(CleanResets(a, pre.status) || ResetEarlier(a, pre.status))
  {
    DeadStays(a, pre.status);
    BusyAfterMain(a, pre.status, Accepted(a, pre).instance);
  }

  /** Which attempts can be retried, for every admitted one and every placement of exceptions. */
  lemma RetryableIff(a: Attempt, pre: Record, mid: Record)
    requires Admitted(a, pre) && Attempted(a, pre, mid)
    ensures Retryable(a.op, mid) <==> LeavesRetry(a, pre)
  {
    RetryableMeans(a.op, mid);
    if !GrantRefused(a) && !Succeeds(a, pre.status) {
      DeadStays(a, pre.status);
      if a.op.Instantiate? { FailedInstantiate(a, pre, mid); }
      if a.op.Terminate? { FailedTerminate(a, pre, mid); }
    }
  }

  /** A saved failure that comes before PROCESSING is saved is recorded at INITIAL, and the status
      check then refuses every retry - unless it is a heal and its ERROR write failed. */
  lemma EarlyFailureIsFinal(a: Attempt, pre: Record, mid: Record)
    requires Admitted(a, pre) && Attempted(a, pre, mid)
    requires !GrantRefused(a) && SaveState(Processing) in a.faults && FailureSaved(a)
    ensures mid.opState == FailedTemp && mid.errorPoint == INITIAL
    ensures CleanStatus !in a.faults && pre.status != Dead ==> mid.status == Error
    ensures Retryable(a.op, mid) <==> a.op.Heal? && CleanStatus in a.faults && pre.status == Active
  {
    assert !Succeeds(a, pre.status);
    RetryableIff(a, pre, mid);
  }

  // ---------------------------------------------------------------- chains of retries

  /** An instantiate is never resumed at NOTIFY_COMPLETED: its instance is INSTANTIATED by then, or
      still busy. */
  lemma {:induction false} InstantiateNeverResumesLate(as_: seq<Attempt>, recs: seq<Record>, i: nat)
    requires Chain(as_, recs) && i < |recs| && as_ != [] && as_[0].op.Instantiate?
    ensures i < |as_| ==> as_[i].before != NOTIFY_COMPLETED
    ensures recs[i].opState == FailedTemp && recs[i].errorPoint == NOTIFY_COMPLETED
            ==> recs[i].instance.instantiated || recs[i].instance.busy
  {
    if i > 0 {
      InstantiateNeverResumesLate(as_, recs, i - 1);
      var a, pre, post := as_[i - 1], recs[i - 1], recs[i];
      assert Admitted(a, pre) && Attempted(a, pre, post);
      if !GrantRefused(a) && !Succeeds(a, pre.status) {
        FailedInstantiate(a, pre, post);
      }
    }
    if i < |as_| {
      assert Admitted(as_[i], recs[i]);
    }
  }

  /** Only terminate and heal can be resumed at NOTIFY_COMPLETED and skip what leaves the pending
      status. */
  ghost predicate SkipsDriver(a: Attempt) { (a.op.Terminate? || a.op.Heal?) && a.before > VNF_CONFIG_END }

  /** One attempt that does not skip the driver. */
  lemma AttemptKeepsStatus(a: Attempt, pre: Record, post: Record)
    requires Admitted(a, pre) && Attempted(a, pre, post) && RunsDriver(a)
    ensures post.opState == Completed ==> post.status == TargetStatus(a.op)
    ensures post.opState == RolledBack ==> GrantRefused(a)
    ensures GrantRefused(a) ==> a.before == INITIAL && post.status == pre.status
    ensures CleanStatus !in a.faults && !GrantRefused(a) ==> post.status !in PENDING_STATUSES
    ensures post.status == Dead <==> pre.status == Dead
    ensures pre.status == Dead || post.opState == Completed || CleanStatus in a.faults
            || post.status == Error || GrantRefused(a)
  {
    DeadStays(a, pre.status);
  }

  /** Through any sequence of retries of which none resumes a terminate or a heal past
      VNF_CONFIG_END, after every single attempt: COMPLETED comes with the target status;
      ROLLED_BACK ends the chain with the status it began with; unless that attempt's own ERROR
      write failed the VNF is not left pending, and a failure has left ERROR if the VNF was not
      DEAD from the start. */
  lemma {:induction false} RetriesKeepStatus(as_: seq<Attempt>, recs: seq<Record>, i: nat)
    requires Chain(as_, recs) && 0 < i <= |as_|
    requires forall k :: 0 <= k < |as_| ==> !SkipsDriver(as_[k])
    ensures recs[i].opState == Completed ==> recs[i].status == if as_[0].op.Terminate? then Inactive else Active
    ensures recs[i].opState == RolledBack ==>
              i == 1 && recs[1].status == recs[0].status
              && (as_[0].op.ChangeExtConn? || recs[0].status == if as_[0].op.Instantiate? then Inactive else Active)
    ensures GrantRefused(as_[i - 1]) ==> recs[i].status == recs[0].status
    ensures CleanStatus !in as_[i - 1].faults && !GrantRefused(as_[i - 1]) ==> recs[i].status !in PENDING_STATUSES
    ensures recs[i].status == Dead <==> recs[0].status == Dead
    ensures recs[0].status == Dead || recs[i].opState in {Completed, RolledBack}
            || CleanStatus in as_[i - 1].faults || recs[i].status == Error || GrantRefused(as_[i - 1])
    ensures recs[i].opState in {Starting, FailedTemp} || i == |as_|
  {
    var a, pre, post := as_[i - 1], recs[i - 1], recs[i];
    if i > 1 { RetriesKeepStatus(as_, recs, i - 1); }
    if a.op.Instantiate? { InstantiateNeverResumesLate(as_, recs, i - 1); }
    assert Admitted(a, pre) && !SkipsDriver(a) && Attempted(a, pre, post);
    AttemptKeepsStatus(a, pre, post);
    if i < |as_| {
      assert Admitted(as_[i], recs[i]);
    }
  }

  ghost predicate FlawlessRetry(a: Attempt, op: Operation, pre: Record, post: Record) {
    a.op == op && a.faults == {} && Admitted(a, pre) && Attempted(a, pre, post)
  }

  ghost predicate Settled(op: Operation, r: Record) {
    r.opState == Completed && r.status == if op.Terminate? then Inactive else Active
  }

  /** Retrying heals: whatever a failed attempt left behind - also if its ERROR write failed, or
      if an attribute update leaked the new status - an admitted retry without exceptions and, if
      that fails on the status, another one complete with the promised status; the first is enough
      if the status is ERROR, and the second is always admitted. The error point has to lie between
      NOTIFY_PROCESSING and VNF_CONFIG_END, or the operation be change_ext_conn. */
  lemma TwoRetriesSettle(op: Operation, failed: Record, first: Attempt, mid: Record)
    requires failed.opState == FailedTemp && failed.status != Dead
    requires NOTIFY_PROCESSING <= failed.errorPoint && (failed.errorPoint <= VNF_CONFIG_END || op.ChangeExtConn?)
    requires FlawlessRetry(first, op, failed, mid)
    ensures failed.status == Error ==> Settled(op, mid)
    ensures Settled(op, mid)
            || (&& Retryable(op, mid)
                && forall second: Attempt, last: Record :: FlawlessRetry(second, op, mid, last) ==> Settled(op, last))
  {
    if !Succeeds(first, failed.status) {
      assert mid.status == Error && mid.opState == FailedTemp;
      RetryableIff(first, failed, mid);
    }
  }

  /** What goes wrong past VNF_CONFIG_END: a heal that fails after its status is already ACTIVE is
      cleaned up to ERROR, and its flawless retry then reports COMPLETED while the VNF stays in
      PENDING_HEAL. */
  lemma CompletedWhilePending() returns (as_: seq<Attempt>, recs: seq<Record>)
    ensures Chain(as_, recs) && |as_| == 2
    ensures as_[0].faults == {InstanceUpdate} && as_[1].faults == {} && as_[1].before == NOTIFY_COMPLETED
    ensures recs[2].opState == Completed && recs[2].status == PendingHeal
  {
    var up := Instance(true, false);
    var first := Attempt(Heal, INITIAL, Active, {InstanceUpdate}, VNF_CONFIG_END, up, true);
    var retry := Attempt(Heal, NOTIFY_COMPLETED, Error, {}, VNF_CONFIG_END, up, true);
    var r0 := Record(Active, Starting, INITIAL, up);
    var r1 := Record(Error, FailedTemp, NOTIFY_COMPLETED, up);
    var r2 := Record(PendingHeal, Completed, NOTIFY_COMPLETED, up);
    as_, recs := [first, retry], [r0, r1, r2];
    assert Attempted(first, r0, r1) && Attempted(retry, r1, r2);
  }

  // ---------------------------------------------------------------- the task state

  /** What COMPLETED leaves of the instance: instantiate and terminate set both columns, heal resets
      the task state, and change_ext_conn changes nothing. */
  lemma CompletedInstance(a: Attempt, pre: Record, post: Record, raised: bool)
    requires AttemptRel(a, pre, post, raised) && !GrantRefused(a) && Succeeds(a, pre.status)
    ensures a.op.Instantiate? ==> post.instance == Instance(true, false)
    ensures a.op.Terminate? ==> post.instance == Instance(false, false)
    ensures a.op.Heal? ==> !post.instance.busy && (pre.instance.instantiated ==> post.instance.instantiated)
    ensures a.op.ChangeExtConn? ==> post.instance == pre.instance
  {
  }

  /** What COMPLETED means for what follows. After a completed attempt that ran its driver a fresh
      request passes all checks iff it is an instantiate after a terminate, or any other operation
      after the other three. (A heal or a change_ext_conn has to have started from an instantiated
      VNF, the latter from an idle one, as it never resets the task state.) */
  lemma CompletedAdmitsNext(a: Attempt, pre: Record, post: Record, raised: bool, b: Attempt)
    requires AttemptRel(a, pre, post, raised) && !GrantRefused(a) && Succeeds(a, pre.status) && RunsDriver(a)
    requires a.op.Heal? ==> pre.instance.instantiated
    requires a.op.ChangeExtConn? ==> pre.instance == Instance(true, false)
    requires b.Valid() && b.before == INITIAL && b.dictStatus == post.status
    ensures Admitted(b, post.(opState := Starting))
            <==> if a.op.Terminate? then b.op.Instantiate? else !b.op.Instantiate?
  {
  }

  /** When a change_ext_conn leaves the instance busy: it was busy before, or its driver raised and
      the decorator's save went through. Only a refused grant ever resets it. */
  lemma ChangeExtConnBusyIff(a: Attempt, pre: Record, post: Record, raised: bool)
    requires a.op.ChangeExtConn? && AttemptRel(a, pre, post, raised)
    ensures post.instance.instantiated == pre.instance.instantiated
    ensures post.instance.busy
            <==> if GrantRefused(a) then pre.instance.busy && ResetTask in a.faults
                 else || pre.instance.busy
                      || (&& StartClear(a) && ClaimOk(a, pre.status)
                          && Driver in a.faults && RevertTask !in a.faults)
  {
  }

  /** Once a change_ext_conn has left the instance busy, no retry of it resets that, COMPLETED or
      not; and all the while the API refuses every instantiate and terminate and every fresh heal. */
  lemma {:induction false} ChangeExtConnStaysBusy(as_: seq<Attempt>, recs: seq<Record>, i: nat, j: nat)
    requires Chain(as_, recs) && as_ != [] && as_[0].op.ChangeExtConn?
    requires 1 <= i <= j < |recs| && recs[i].instance.busy
    ensures recs[j].instance.busy
    ensures forall r: Attempt, rec: Record ::
              rec.instance == recs[j].instance && Admitted(r, rec)
              ==> r.op.ChangeExtConn? || (r.op.Heal? && rec.opState != Starting)
  {
    if i < j {
      ChangeExtConnStaysBusy(as_, recs, i, j - 1);
      var a, pre, post := as_[j - 1], recs[j - 1], recs[j];
      assert a.op == as_[0].op && a.before != INITIAL && Attempted(a, pre, post);
      if AttemptRel(a, pre, post, false) {
        ChangeExtConnBusyIff(a, pre, post, false);
      } else {
        ChangeExtConnBusyIff(a, pre, post, true);
      }
    }
  }
}
