/** One attempt of instantiate, terminate, heal or change_ext_conn.

    Every call that can raise is a `Site`; an attempt comes with the set of sites that raise, so
    that quantifying over attempts covers every placement of exceptions (each site is passed at
    most once per attempt). The VIM-side driver is one such site: it may raise, and it leaves its
    own error point and its own traces on the VNF instance, but it does not touch the VNF status.
    The operation states are those of section 5.6.2 of ETSI GS NFV-SOL 003.
 */
module Lifecycle {
  import opened Common

  datatype VnfStatus =
    | Active | Inactive | Error | Dead
    | PendingInstantiate | PendingCreate | PendingUpdate | PendingDelete | PendingScaleIn
    | PendingScaleOut | PendingHeal | PendingTerminate | PendingChangeExtConn

  const PENDING_STATUSES: set<VnfStatus> :=
    {PendingInstantiate, PendingCreate, PendingUpdate, PendingDelete, PendingScaleIn,
     PendingScaleOut, PendingHeal, PendingTerminate, PendingChangeExtConn}

  const ALL_STATUSES: set<VnfStatus> := {Active, Inactive, Error} + PENDING_STATUSES

  datatype OperationState =
    Starting | Processing | Completed | FailedTemp | Failed | RollingBack | RolledBack

  datatype Operation = Instantiate | Terminate | Heal | ChangeExtConn

  const INITIAL := 0
  const NOTIFY_PROCESSING := 1
  const POST_VIM_CONTROL := 4
  const VNF_CONFIG_END := 6
  const NOTIFY_COMPLETED := 7

  datatype Site =
    | Grant | ResetTask | LoadRolledBack | SaveRolledBack
    | CopyInstance
    | SaveState(state: OperationState)
    | BuildData(state: OperationState)
    | CollectResources(state: OperationState)
    | SaveResources(state: OperationState)
    | ConvertConnectivity(state: OperationState)
    | PostNotification(state: OperationState)
    | ClaimStatus | Driver | RevertTask | BuildInfo | GetVim | DeletePlacement
    | UpdateInfo | StackParam | AdditionalInfo
    | FinalStatus | AttrCheck | AttrLoop | AttrRollback
    | InstanceUpdate | Reinitialize | CreatePlacement | UpdatePlacement
    | CleanStatus | CleanInfo | CleanInstance

  /** The columns of the VNF instance that the API checks: `instantiation_state`, and whether
      `task_state` is set. */
  datatype Instance = Instance(instantiated: bool, busy: bool)

  /** What an attempt starts from: the error point it resumes at, the VNF status copied into
      `vnf_dict` when the request was accepted and the sites that raise. The rest is up to the
      driver: the error point it leaves if it raises, what it has stored of the instance by then,
      and whether the instance object is instantiated then. */
  datatype Attempt = Attempt(
    op: Operation, before: nat, dictStatus: VnfStatus, faults: set<Site>,
    driverPoint: nat, driverStored: Instance, driverHeld: bool)
  {
    ghost predicate Valid() {
      before <= NOTIFY_COMPLETED && NOTIFY_PROCESSING <= driverPoint <= VNF_CONFIG_END
    }
  }

  /** The database columns an attempt works on: `vnf.status`, `operation_state` and `error_point` of
      the operation occurrence, and those of the instance. */
  datatype Record = Record(status: VnfStatus, opState: OperationState, errorPoint: nat, instance: Instance)

  /** The versioned object of an operation occurrence. `changes` says with which state its resource
      changes were collected, if any are stored. */
  datatype Occurrence = Occurrence(state: OperationState, errorPoint: nat, changes: Option<OperationState>)

  /** What a client is sent: the operation state, whether it is marked RESULT or still START, and
      which of the optional parts are filled in. */
  datatype Notification = Notification(
    state: OperationState, result: bool, resources: bool, connectivity: bool, error: bool)

  // ---------------------------------------------------------------- what an operation asks for

  /** The status a fresh request must find. */
  function StartStatus(op: Operation): VnfStatus { if op.Instantiate? then Inactive else Active }

  function PendingStatus(op: Operation): VnfStatus {
    match op
    case Instantiate => PendingCreate
    case Terminate => PendingTerminate
    case Heal => PendingHeal
    case ChangeExtConn => PendingChangeExtConn
  }

  function TargetStatus(op: Operation): VnfStatus { if op.Terminate? then Inactive else Active }

  ghost predicate GrantRefused(a: Attempt) { a.before == INITIAL && Grant in a.faults }

  /** No call before the claim on the VNF status raises. */
  ghost predicate StartClear(a: Attempt) {
    (a.op.Instantiate? || CopyInstance !in a.faults) && SaveState(Processing) !in a.faults
  }

  ghost predicate Claims(a: Attempt) { a.dictStatus == Error || a.before <= NOTIFY_PROCESSING }

  /** The compare-and-set to the pending status, if there is one, goes through. */
  ghost predicate ClaimOk(a: Attempt, st: VnfStatus) {
    Claims(a) ==>
      ClaimStatus !in a.faults && st == (if a.dictStatus == Error then Error else StartStatus(a.op))
  }

  ghost function Claimed(a: Attempt, st: VnfStatus): VnfStatus {
    if Claims(a) then PendingStatus(a.op) else st
  }

  /** change_ext_conn runs its driver on every resume; the others skip it past VNF_CONFIG_END. */
  ghost predicate RunsDriver(a: Attempt) { a.op.ChangeExtConn? || a.before <= VNF_CONFIG_END }

  ghost predicate DriverClear(a: Attempt) {
    && Driver !in a.faults
    && match a.op
       case Instantiate => {BuildInfo, GetVim, AttrCheck, AttrLoop} !! a.faults
       case Terminate => {DeletePlacement, FinalStatus} !! a.faults
       case Heal => {UpdateInfo, StackParam, AdditionalInfo, FinalStatus} !! a.faults
       case ChangeExtConn => true
  }

  ghost predicate LateClear(a: Attempt) {
    && SaveState(Completed) !in a.faults
    && match a.op
       case Instantiate => {InstanceUpdate, CreatePlacement} !! a.faults
       case Terminate => {GetVim, InstanceUpdate, Reinitialize} !! a.faults
       case Heal => {InstanceUpdate, UpdatePlacement} !! a.faults
       case ChangeExtConn => {UpdateInfo, AttrCheck, AttrLoop} !! a.faults
  }

  /** No call on the way to COMPLETED raises and both compare-and-sets find what they expect. */
  ghost predicate Succeeds(a: Attempt, st: VnfStatus) {
    && StartClear(a) && ClaimOk(a, st)
    && (RunsDriver(a) ==> DriverClear(a) && Claimed(a, st) in PENDING_STATUSES)
    && LateClear(a)
  }

  /** `current_error_point` when the attempt's main block is left by an exception. The API sets it
      to INITIAL beforehand, except for change_ext_conn. */
  ghost function FailPoint(a: Attempt, st: VnfStatus): Option<nat> {
    if !StartClear(a) then (if a.op.ChangeExtConn? then None else Some(INITIAL))
    else if !ClaimOk(a, st) then Some(NOTIFY_PROCESSING)
    else if RunsDriver(a) && Driver in a.faults then Some(a.driverPoint)
    else if LateReached(a, st) then Some(NOTIFY_COMPLETED)
    else Some(VNF_CONFIG_END)
  }

  /** The main block gets to NOTIFY_COMPLETED. */
  ghost predicate LateReached(a: Attempt, st: VnfStatus) {
    && StartClear(a) && ClaimOk(a, st)
    && (RunsDriver(a) ==> DriverClear(a) && (a.op.ChangeExtConn? || Claimed(a, st) in PENDING_STATUSES))
  }

  /** What an attribute update that raises leaves of a pending status: the handler's own commit
      lets the new status through if the failure came after the row was updated. */
  ghost function AttrStatus(a: Attempt, st: VnfStatus): VnfStatus {
    if AttrCheck in a.faults || st !in PENDING_STATUSES || (AttrLoop in a.faults && AttrRollback in a.faults)
    then st else Active
  }

  /** The VNF status when the block up to VNF_CONFIG_END is left by an exception. */
  ghost function VimStatus(a: Attempt, st: VnfStatus): VnfStatus {
    if a.op.Instantiate? && {Driver, BuildInfo, GetVim} !! a.faults then AttrStatus(a, st) else st
  }

  /** The VNF status when the attempt's main block is left by an exception. */
  ghost function FailStatus(a: Attempt, st: VnfStatus): VnfStatus {
    if !StartClear(a) || !ClaimOk(a, st) then st
    else
      var claimed := Claimed(a, st);
      if a.op.ChangeExtConn? then
        if Driver in a.faults || UpdateInfo in a.faults then claimed else AttrStatus(a, claimed)
      else if !RunsDriver(a) then claimed
      else if LateReached(a, st) then TargetStatus(a.op)
      else VimStatus(a, claimed)
  }

  /** The clean-up's last save is reached and succeeds. If copying the instance raised, the
      handler stumbles over the unbound copy before it can save anything; a change_ext_conn whose
      PROCESSING was not saved has no error point yet, and its handler stumbles over that. */
  ghost predicate FailureSaved(a: Attempt) {
    && SaveState(FailedTemp) !in a.faults && (a.op.Instantiate? || CopyInstance !in a.faults)
    && (a.op.ChangeExtConn? ==> SaveState(Processing) !in a.faults)
  }

  ghost predicate RollbackSaved(faults: set<Site>) { {LoadRolledBack, SaveRolledBack} !! faults }

  // ---------------------------------------------------------------- the instance

  /** The instance's stored columns, and whether the object that the conductor works on is
      instantiated. Each save writes what the object has; its task state is set right before. */
  datatype Shadow = Shadow(stored: Instance, held: bool)

  /** What a driver that raises leaves, its decorator included: all but the instantiating one set the
      task state to ERROR and save, if that works. */
  ghost function DriverFailed(a: Attempt, i: Instance): Shadow {
    match a.op
    case Instantiate => Shadow(i.(busy := a.driverStored.busy), i.instantiated)
    case ChangeExtConn => Reverted(a, i, i.instantiated)
    case _ => Reverted(a, a.driverStored, a.driverHeld)
  }

  ghost function Reverted(a: Attempt, stored: Instance, held: bool): Shadow {
    Shadow(if RevertTask in a.faults then stored else Instance(held, true), held)
  }

  /** What a driver that does not raise leaves: the terminating one may store NOT_INSTANTIATED, the
      healing one INSTANTIATED unless it only resumes its last part, and both reset the task state. */
  function DriverDone(a: Attempt, i: Instance): Instance {
    match a.op
    case Terminate => Instance(i.instantiated && a.driverStored.instantiated, false)
    case Heal =>
      if a.before <= POST_VIM_CONTROL then Instance(i.instantiated || a.driverStored.instantiated, false) else i
    case _ => i
  }

  /** What the calls from NOTIFY_COMPLETED on leave. */
  ghost function LateShadow(a: Attempt, i: Instance): Shadow {
    if a.op.ChangeExtConn? || (a.op.Terminate? && GetVim in a.faults) then Shadow(i, i.instantiated)
    else
      var held := a.op.Instantiate? || (a.op.Heal? && i.instantiated);
      Shadow(if InstanceUpdate in a.faults then i else Instance(held, false), held)
  }

  ghost function VimShadow(a: Attempt, i: Instance): Shadow {
    if Driver in a.faults then DriverFailed(a, i)
    else var done := DriverDone(a, i); Shadow(done, done.instantiated)
  }

  /** The instance when the main block is left. */
  ghost function MainShadow(a: Attempt, st: VnfStatus, i: Instance): Shadow {
    if !StartClear(a) || !ClaimOk(a, st) then Shadow(i, i.instantiated)
    else if LateReached(a, st) then LateShadow(a, if RunsDriver(a) then DriverDone(a, i) else i)
    else VimShadow(a, i)
  }

  /** The clean-up gets to reset the task state. Heal and change_ext_conn never do. */
  ghost predicate CleanResets(a: Attempt, st: VnfStatus) {
    && (a.op.Instantiate? || a.op.Terminate?)
    && st != Dead && {CleanStatus, CleanInstance} !! a.faults && (a.op.Instantiate? ==> CleanInfo !in a.faults)
  }

  // ---------------------------------------------------------------- an attempt as a whole

  /** What the API stores when it accepts an attempt: a new occurrence, unless the attempt resumes
      one, and the task state, except for change_ext_conn. */
  function Accepted(a: Attempt, pre: Record): Record {
    var r := if a.before == INITIAL then pre.(opState := Starting, errorPoint := INITIAL) else pre;
    if a.op.ChangeExtConn? then r else r.(instance := r.instance.(busy := true))
  }

  /** Everything an attempt may do to the record; `raised` says that an exception leaves it. */
  ghost predicate AttemptRel(a: Attempt, pre: Record, post: Record, raised: bool) {
    var acc := Accepted(a, pre);
    var main := MainShadow(a, pre.status, acc.instance);
    if GrantRefused(a) then
      && raised
      && post == acc.(opState := if RollbackSaved(a.faults) then RolledBack else Starting,
                      instance := if ResetTask in a.faults then acc.instance else acc.instance.(busy := false))
    else if Succeeds(a, pre.status) then
      && !raised
      && post == Record(if RunsDriver(a) then TargetStatus(a.op) else Claimed(a, pre.status),
                        Completed, acc.errorPoint, main.stored)
    else
      var st := FailStatus(a, pre.status);
      && post.status == (if CleanStatus in a.faults || st == Dead then st else Error)
      && post.instance == (if CleanResets(a, st) then Instance(main.held, false) else main.stored)
      && if FailureSaved(a) then
           && !raised
           && post.opState == FailedTemp && Some(post.errorPoint) == FailPoint(a, pre.status)
         else
           && raised
           && post.errorPoint == acc.errorPoint
           && post.opState == if StartClear(a) then Processing else acc.opState
  }

  // ---------------------------------------------------------------- writes and notifications

  /** The states for which affected resources are collected and a result is reported. */
  predicate Reports(state: OperationState) { state in {Completed, FailedTemp, Failed} }

  /** The resource changes of `state` are collected and saved. */
  ghost predicate ChangesSaved(state: OperationState, faults: set<Site>) {
    && Reports(state)
    && {SaveState(state), BuildData(state), CollectResources(state), SaveResources(state)} !! faults
  }

  /** A notification of `state` goes out. */
  ghost predicate Notified(state: OperationState, faults: set<Site>) {
    {SaveState(state), BuildData(state), PostNotification(state)} !! faults
  }

  /** The values written to the `operation_state` column by one notification call. */
  ghost function SendWrites(state: OperationState, faults: set<Site>): seq<OperationState> {
    (if SaveState(state) in faults then [] else [state]) + (if ChangesSaved(state, faults) then [state] else [])
  }

  /** The notification of a saved state, as far as it gets filled in. */
  ghost function NoteOf(state: OperationState, faults: set<Site>): Notification {
    var saved := ChangesSaved(state, faults);
    var full := saved && ConvertConnectivity(state) !in faults;
    Notification(state, saved, saved, full, full && state != Completed)
  }

  ghost function SendNotes(state: OperationState, faults: set<Site>): seq<Notification> {
    if Notified(state, faults) then [NoteOf(state, faults)] else []
  }

  ghost function RollbackNotes(faults: set<Site>): seq<Notification> {
    if {LoadRolledBack, PostNotification(RolledBack)} !! faults
    then [Notification(RolledBack, true, false, false, false)] else []
  }

  /** How the main block ends: with COMPLETED, with FAILED_TEMP from the clean-up, or neither. */
  ghost function LastSend(a: Attempt, st: VnfStatus): Option<OperationState> {
    if Succeeds(a, st) then Some(Completed) else if FailureSaved(a) then Some(FailedTemp) else None
  }

  /** Everything an attempt writes to `operation_state`, in order. */
  ghost function AttemptWrites(a: Attempt, st: VnfStatus): seq<OperationState> {
    if GrantRefused(a) then
      if RollbackSaved(a.faults) then [RolledBack] else []
    else
      var last := LastSend(a, st);
      (if StartClear(a) then SendWrites(Processing, a.faults) else [])
      + if last.Some? then SendWrites(last.value, a.faults) else []
  }

  /** Everything an attempt tells the clients, in order. */
  ghost function AttemptNotes(a: Attempt, st: VnfStatus): seq<Notification> {
    if GrantRefused(a) then RollbackNotes(a.faults)
    else
      var last := LastSend(a, st);
      (if StartClear(a) then SendNotes(Processing, a.faults) else [])
      + if last.Some? then SendNotes(last.value, a.faults) else []
  }

  lemma Regroup<T>(x: seq<T>, y: seq<T>, u: seq<T>, v: seq<T>)
    requires u == [] || v == []
    ensures x + y + u + v == x + (y + (if u == [] then v else u))
  {
  }

  // ---------------------------------------------------------------- the code

  class Conductor {
    var status: VnfStatus
    var opState: OperationState
    var errorPoint: nat
    var instance: Instance
    /** Whether the instance object at hand is instantiated. */
    var held: bool
    /** The state with which the stored resource changes were collected. */
    var changes: Option<OperationState>
    /** The notifications that went out, oldest first. */
    var sent: seq<Notification>
    /** The values written to the `operation_state` column, oldest first. */
    ghost var writes: seq<OperationState>

    constructor (r: Record)
      ensures Rec() == r && changes == None && sent == [] && writes == []
    {
      status, opState, errorPoint, instance, held := r.status, r.opState, r.errorPoint, r.instance, false;
      changes, sent, writes := None, [], [];
    }

    ghost function Rec(): Record
      reads this
    {
      Record(status, opState, errorPoint, instance)
    }

    /** The API's part: store the task state and make a new occurrence if none is resumed. The
        conductor is then called with the instance as it is stored. */
    method Accept(a: Attempt)
      modifies this`opState, this`errorPoint, this`changes, this`instance, this`held
      ensures Rec() == Accepted(a, old(Rec())) && held == instance.instantiated
      ensures changes == if a.before == INITIAL then None else old(changes)
    {
      held := instance.instantiated;
      if !a.op.ChangeExtConn? {
        instance := instance.(busy := true);
      }
      if a.before == INITIAL {
        opState, errorPoint, changes := Starting, INITIAL, None;
      }
    }

    /** `_vnf_instance_update` with a task state, after `held` has been set. */
    method UpdateInstance(busy: bool, fault: bool) returns (raised: bool)
      modifies this`instance
      ensures raised == fault && instance == if raised then old(instance) else Instance(held, busy)
    {
      if fault {
        return true;
      }
      instance := Instance(held, busy);
      return false;
    }

    /** The driver's call and, if it raises, `revert_to_error_task_state` around it. */
    method CallDriver(a: Attempt) returns (raised: bool)
      requires held == instance.instantiated
      modifies this`instance, this`held
      ensures raised == (Driver in a.faults) && Shadow(instance, held) == VimShadow(a, old(instance))
    {
      if Driver !in a.faults {
        instance := DriverDone(a, instance);
        held := instance.instantiated;
        return false;
      }
      if a.op.Instantiate? {
        instance := instance.(busy := a.driverStored.busy);
        return true;
      }
      if !a.op.ChangeExtConn? {
        instance, held := a.driverStored, a.driverHeld;
      }
      var ignored := UpdateInstance(true, RevertTask in a.faults);
      return true;
    }

    /** `_change_vnf_status`: compare-and-set in one transaction. */
    method ChangeVnfStatus(allowed: set<VnfStatus>, newStatus: VnfStatus, fault: bool) returns (raised: bool)
      modifies this`status
      ensures raised <==> fault || old(status) !in allowed
      ensures status == if raised then old(status) else newStatus
    {
      if fault || status !in allowed {
        return true;
      }
      status := newStatus;
      return false;
    }

    /** `_update_vnf_attributes`: a failure after the row was updated is answered by a handler
        that repairs the attributes and commits, the new status included. */
    method UpdateVnfAttributes(newStatus: VnfStatus, faults: set<Site>) returns (raised: bool)
      modifies this`status
      ensures raised <==> AttrCheck in faults || old(status) !in PENDING_STATUSES || AttrLoop in faults
      ensures !raised ==> status == newStatus
      ensures raised ==>
                status == if AttrCheck in faults || old(status) !in PENDING_STATUSES || AttrRollback in faults
                          then old(status) else newStatus
    {
      if AttrCheck in faults || status !in PENDING_STATUSES {
        return true;
      }
      var before := status;
      status := newStatus;
      if AttrLoop in faults {
        if AttrRollback in faults {
          status := before;
        }
        return true;
      }
      return false;
    }

    /** `VnfLcmOpOcc.get_by_id` */
    method Load() returns (occ: Occurrence)
      ensures occ == Occurrence(opState, errorPoint, changes)
    {
      occ := Occurrence(opState, errorPoint, changes);
    }

    /** `VnfLcmOpOcc.save`: state and error point are written from the object whether they were
        changed or not, the resource changes only if there are any. */
    method Save(occ: Occurrence)
      modifies this`opState, this`errorPoint, this`changes, this`writes
      ensures opState == occ.state && errorPoint == occ.errorPoint
      ensures changes == if occ.changes.Some? then occ.changes else old(changes)
      ensures writes == old(writes) + [occ.state]
    {
      opState, errorPoint := occ.state, occ.errorPoint;
      if occ.changes.Some? {
        changes := occ.changes;
      }
      writes := writes + [occ.state];
    }

    /** `_send_lcm_op_occ_notification`: only the first of its three blocks lets an exception out.
        The error point is stored for FAILED_TEMP alone, which is what the test in the source
        evaluates to. */
    method SendNotification(state: OperationState, point: nat, faults: set<Site>) returns (raised: bool)
      modifies this`opState, this`errorPoint, this`changes, this`sent, this`writes
      ensures raised <==> SaveState(state) in faults
      ensures opState == if raised then old(opState) else state
      ensures errorPoint == if !raised && state == FailedTemp then point else old(errorPoint)
      ensures changes == if ChangesSaved(state, faults) then Some(state) else old(changes)
      ensures writes == old(writes) + SendWrites(state, faults)
      ensures sent == old(sent) + SendNotes(state, faults)
    {
      // first block: save the state
      if SaveState(state) in faults {
        return true;
      }
      var occ := Load();
      occ := occ.(state := state);
      if state == FailedTemp {
        occ := occ.(errorPoint := point);
      }
      Save(occ);
      // second block: an exception leaves `data` as far as it got, perhaps unbound
      var data := CollectData(occ, faults);
      // third block: an unbound name and a failed posting are both caught
      if data.Some? && PostNotification(state) !in faults {
        sent := sent + [data.value];
      }
      return false;
    }

    /** The second block, which saves the occurrence a second time. Its handler swallows every
        exception: each return below is the end of the block or a jump to the handler. */
    method CollectData(occ: Occurrence, faults: set<Site>) returns (data: Option<Notification>)
      requires SaveState(occ.state) !in faults && occ.state == opState && occ.errorPoint == errorPoint
      modifies this`opState, this`errorPoint, this`changes, this`writes
      ensures opState == old(opState) && errorPoint == old(errorPoint)
      ensures changes == if ChangesSaved(occ.state, faults) then Some(occ.state) else old(changes)
      ensures writes == old(writes) + if ChangesSaved(occ.state, faults) then [occ.state] else []
      ensures data == if BuildData(occ.state) in faults then None else Some(NoteOf(occ.state, faults))
    {
      data := None;
      if BuildData(occ.state) in faults { return; }
      data := Some(Notification(occ.state, false, false, false, false));
      if Reports(occ.state) {
        if CollectResources(occ.state) in faults { return; }
        var changed := occ.(changes := Some(occ.state));
        if SaveResources(occ.state) in faults { return; }
        Save(changed);
        data := Some(data.value.(resources := true));
        data := Some(data.value.(result := true));
        if ConvertConnectivity(occ.state) in faults { return; }
        data := Some(data.value.(connectivity := true));
        if occ.state == FailedTemp || occ.state == Failed {
          data := Some(data.value.(error := true));
        }
      }
    }

    /** A grant step wrapped by `grant_error_common`; the exception is raised again. The ROLLED_BACK
        notification is sent whenever the occurrence could be loaded, saved or not. */
    method GrantStep(faults: set<Site>) returns (raised: bool)
      requires held == instance.instantiated
      modifies this`opState, this`errorPoint, this`changes, this`instance, this`sent, this`writes
      ensures raised <==> Grant in faults
      ensures instance == if raised && ResetTask !in faults then old(instance).(busy := false) else old(instance)
      ensures opState == if raised && RollbackSaved(faults) then RolledBack else old(opState)
      ensures errorPoint == old(errorPoint) && changes == old(changes)
      ensures writes == old(writes) + if raised && RollbackSaved(faults) then [RolledBack] else []
      ensures sent == old(sent) + if raised then RollbackNotes(faults) else []
    {
      if Grant !in faults {
        return false;
      }
      var ignored := UpdateInstance(false, ResetTask in faults);
      var loaded: Option<Occurrence> := None;
      if LoadRolledBack !in faults {
        var occ := Load();
        loaded := Some(occ.(state := RolledBack));
        if SaveRolledBack !in faults {
          Save(loaded.value);
        }
      }
      if loaded.Some? && PostNotification(RolledBack) !in faults {
        sent := sent + [Notification(RolledBack, true, false, false, false)];
      }
      return true;
    }

    /** The compare-and-set to the pending status that opens all four operations. */
    method Claim(a: Attempt) returns (raised: bool)
      modifies this`status
      ensures raised <==> !ClaimOk(a, old(status))
      ensures status == if raised then old(status) else Claimed(a, old(status))
    {
      raised := false;
      if a.dictStatus == Error {
        raised := ChangeVnfStatus({Error}, PendingStatus(a.op), ClaimStatus in a.faults);
      } else if a.before <= NOTIFY_PROCESSING {
        raised := ChangeVnfStatus({StartStatus(a.op)}, PendingStatus(a.op), ClaimStatus in a.faults);
      }
    }

    /** The main blocks promise their caller the same thing. */
    twostate predicate MainPost(a: Attempt, failed: bool, new point: Option<nat>)
      reads this
    {
      && (failed <==> !Succeeds(a, old(status)))
      && errorPoint == old(errorPoint) && Shadow(instance, held) == MainShadow(a, old(status), old(instance))
      && (!failed ==>
            && status == (if RunsDriver(a) then TargetStatus(a.op) else Claimed(a, old(status)))
            && opState == Completed)
      && (failed ==>
            && point == FailPoint(a, old(status)) && status == FailStatus(a, old(status))
            && opState == if StartClear(a) then Processing else old(opState))
      && writes == old(writes) + (if StartClear(a) then SendWrites(Processing, a.faults) else [])
                   + (if failed then [] else SendWrites(Completed, a.faults))
      && sent == old(sent) + (if StartClear(a) then SendNotes(Processing, a.faults) else [])
                 + (if failed then [] else SendNotes(Completed, a.faults))
    }

    /** The opening that all four operations share: copy the instance, save PROCESSING, claim. */
    method Open(a: Attempt) returns (failed: bool, point: Option<nat>)
      modifies this`status, this`opState, this`errorPoint, this`changes, this`sent, this`writes
      ensures failed <==> !(StartClear(a) && ClaimOk(a, old(status)))
      ensures point == if !StartClear(a) then (if a.op.ChangeExtConn? then None else Some(INITIAL))
                       else Some(NOTIFY_PROCESSING)
      ensures status == if failed then old(status) else Claimed(a, old(status))
      ensures opState == if StartClear(a) then Processing else old(opState)
      ensures errorPoint == old(errorPoint)
      ensures writes == old(writes) + if StartClear(a) then SendWrites(Processing, a.faults) else []
      ensures sent == old(sent) + if StartClear(a) then SendNotes(Processing, a.faults) else []
    {
      point := if a.op.ChangeExtConn? then None else Some(INITIAL);
      if !a.op.Instantiate? && CopyInstance in a.faults {
        return true, point;
      }
      failed := SendNotification(Processing, 0, a.faults);
      if failed { return; }
      point := Some(NOTIFY_PROCESSING);
      failed := Claim(a);
    }

    /** The block that an attempt resuming past VNF_CONFIG_END skips. */
    twostate predicate VimPost(a: Attempt, failed: bool, new point: Option<nat>)
      reads this
    {
      && (failed <==> !(DriverClear(a) && old(status) in PENDING_STATUSES))
      && status == (if failed then VimStatus(a, old(status)) else TargetStatus(a.op))
      && Shadow(instance, held) == VimShadow(a, old(instance))
      && (failed ==> point == Some(if Driver in a.faults then a.driverPoint else VNF_CONFIG_END))
    }

    /** The calls from NOTIFY_COMPLETED on; change_ext_conn sets its status there. */
    twostate predicate LatePost(a: Attempt, failed: bool)
      reads this
    {
      && (failed <==> !(LateClear(a) && (a.op.ChangeExtConn? ==> old(status) in PENDING_STATUSES)))
      && status == (if !a.op.ChangeExtConn? || UpdateInfo in a.faults then old(status)
                    else AttrStatus(a, old(status)))
      && errorPoint == old(errorPoint) && opState == (if failed then old(opState) else Completed)
      && Shadow(instance, held) == LateShadow(a, old(instance))
      && writes == old(writes) + (if failed then [] else SendWrites(Completed, a.faults))
      && sent == old(sent) + (if failed then [] else SendNotes(Completed, a.faults))
    }

    method InstantiateMain(a: Attempt) returns (failed: bool, point: Option<nat>)
      requires a.Valid() && a.op.Instantiate? && held == instance.instantiated
      modifies this
      ensures MainPost(a, failed, point)
    {
      failed, point := Open(a);
      if failed { return; }
      if a.before <= VNF_CONFIG_END {
        failed, point := InstantiateOnVim(a);
        if failed { return; }
      }
      point := Some(NOTIFY_COMPLETED);
      failed := InstantiateLate(a);
    }

    /** Everything between the claim and NOTIFY_COMPLETED of instantiate. */
    method InstantiateOnVim(a: Attempt) returns (failed: bool, point: Option<nat>)
      requires a.op.Instantiate? && held == instance.instantiated
      modifies this`status, this`instance, this`held
      ensures VimPost(a, failed, point)
    {
      failed := CallDriver(a);
      point := Some(if failed then a.driverPoint else VNF_CONFIG_END);
      if failed || BuildInfo in a.faults || GetVim in a.faults {
        return true, point;
      }
      failed := UpdateVnfAttributes(Active, a.faults);
    }

    method InstantiateLate(a: Attempt) returns (failed: bool)
      requires a.op.Instantiate? && held == instance.instantiated
      modifies this
      ensures LatePost(a, failed)
    {
      held := true;
      failed := UpdateInstance(false, InstanceUpdate in a.faults);
      if failed || CreatePlacement in a.faults {
        return true;
      }
      failed := SendNotification(Completed, 0, a.faults);
    }

    method TerminateMain(a: Attempt) returns (failed: bool, point: Option<nat>)
      requires a.Valid() && a.op.Terminate? && held == instance.instantiated
      modifies this
      ensures MainPost(a, failed, point)
    {
      failed, point := Open(a);
      if failed { return; }
      if a.before <= VNF_CONFIG_END {
        failed, point := TerminateOnVim(a);
        if failed { return; }
      }
      point := Some(NOTIFY_COMPLETED);
      failed := TerminateLate(a);
    }

    /** The same part of terminate. */
    method TerminateOnVim(a: Attempt) returns (failed: bool, point: Option<nat>)
      requires a.op.Terminate? && held == instance.instantiated
      modifies this`status, this`instance, this`held
      ensures VimPost(a, failed, point)
    {
      failed := CallDriver(a);
      point := Some(if failed then a.driverPoint else VNF_CONFIG_END);
      if failed || DeletePlacement in a.faults {
        return true, point;
      }
      failed := ChangeVnfStatus(PENDING_STATUSES, Inactive, FinalStatus in a.faults);
    }

    method TerminateLate(a: Attempt) returns (failed: bool)
      requires a.op.Terminate? && held == instance.instantiated
      modifies this
      ensures LatePost(a, failed)
    {
      if GetVim in a.faults {
        return true;
      }
      held := false;
      failed := UpdateInstance(false, InstanceUpdate in a.faults);
      if failed || Reinitialize in a.faults {
        return true;
      }
      failed := SendNotification(Completed, 0, a.faults);
    }

    method HealMain(a: Attempt) returns (failed: bool, point: Option<nat>)
      requires a.Valid() && a.op.Heal? && held == instance.instantiated
      modifies this
      ensures MainPost(a, failed, point)
    {
      failed, point := Open(a);
      if failed { return; }
      if a.before <= VNF_CONFIG_END {
        failed, point := HealOnVim(a);
        if failed { return; }
      }
      point := Some(NOTIFY_COMPLETED);
      failed := HealLate(a);
    }

    /** The same part of heal. */
    method HealOnVim(a: Attempt) returns (failed: bool, point: Option<nat>)
      requires a.op.Heal? && held == instance.instantiated
      modifies this`status, this`instance, this`held
      ensures VimPost(a, failed, point)
    {
      failed := CallDriver(a);
      point := Some(if failed then a.driverPoint else VNF_CONFIG_END);
      if failed || UpdateInfo in a.faults || StackParam in a.faults || AdditionalInfo in a.faults {
        return true, point;
      }
      failed := ChangeVnfStatus(PENDING_STATUSES, Active, FinalStatus in a.faults);
    }

    method HealLate(a: Attempt) returns (failed: bool)
      requires a.op.Heal? && held == instance.instantiated
      modifies this
      ensures LatePost(a, failed)
    {
      failed := UpdateInstance(false, InstanceUpdate in a.faults);
      if failed || UpdatePlacement in a.faults {
        return true;
      }
      failed := SendNotification(Completed, 0, a.faults);
    }

    method ChangeExtConnMain(a: Attempt) returns (failed: bool, point: Option<nat>)
      requires a.Valid() && a.op.ChangeExtConn? && held == instance.instantiated
      modifies this
      ensures MainPost(a, failed, point)
    {
      failed, point := Open(a);
      if failed { return; }
      failed := CallDriver(a);
      if failed {
        return true, Some(a.driverPoint);
      }
      point := Some(NOTIFY_COMPLETED);
      failed := ChangeExtConnLate(a);
    }

    method ChangeExtConnLate(a: Attempt) returns (failed: bool)
      requires a.op.ChangeExtConn? && held == instance.instantiated
      modifies this
      ensures LatePost(a, failed)
    {
      if UpdateInfo in a.faults {
        return true;
      }
      failed := UpdateVnfAttributes(Active, a.faults);
      if failed { return; }
      failed := SendNotification(Completed, 0, a.faults);
    }

    /** The except and finally clauses: write ERROR and reset the task state as far as that works,
        then save FAILED_TEMP. An unbound copy of the instance or an unset error point raises in
        the finally clause. The clean-up's other calls touch nothing modelled here. */
    method CleanUp(a: Attempt, point: Option<nat>) returns (raised: bool)
      modifies this
      ensures status == if CleanStatus in a.faults || old(status) == Dead then old(status) else Error
      ensures instance == if CleanResets(a, old(status)) then Instance(old(held), false) else old(instance)
      ensures raised <==> || SaveState(FailedTemp) in a.faults
                          || (!a.op.Instantiate? && CopyInstance in a.faults) || point.None?
      ensures opState == if raised then old(opState) else FailedTemp
      ensures errorPoint == if raised then old(errorPoint) else point.value
      ensures writes == old(writes) + if raised then [] else SendWrites(FailedTemp, a.faults)
      ensures sent == old(sent) + if raised then [] else SendNotes(FailedTemp, a.faults)
    {
      var failed := ChangeVnfStatus(ALL_STATUSES, Error, CleanStatus in a.faults);
      if !failed && (a.op.Terminate? || (a.op.Instantiate? && CleanInfo !in a.faults)) {
        failed := UpdateInstance(false, CleanInstance in a.faults);
      }
      if (!a.op.Instantiate? && CopyInstance in a.faults) || point.None? {
        return true;
      }
      raised := SendNotification(FailedTemp, point.value, a.faults);
    }

    method MainBlock(a: Attempt) returns (failed: bool, point: Option<nat>)
      requires a.Valid() && held == instance.instantiated
      modifies this
      ensures MainPost(a, failed, point)
    {
      match a.op {
        case Instantiate => failed, point := InstantiateMain(a);
        case Terminate => failed, point := TerminateMain(a);
        case Heal => failed, point := HealMain(a);
        case ChangeExtConn => failed, point := ChangeExtConnMain(a);
      }
    }

    /** An accepted attempt whose grant step, if it has one, did not raise. */
    method Proceed(a: Attempt, ghost pre: Record) returns (raised: bool)
      requires a.Valid() && !GrantRefused(a) && Rec() == Accepted(a, pre) && held == instance.instantiated
      modifies this
      ensures AttemptRel(a, pre, Rec(), raised)
      ensures writes == old(writes) + AttemptWrites(a, pre.status)
      ensures sent == old(sent) + AttemptNotes(a, pre.status)
    {
      ghost var w, n := writes, sent;
      ghost var w1 := if StartClear(a) then SendWrites(Processing, a.faults) else [];
      ghost var n1 := if StartClear(a) then SendNotes(Processing, a.faults) else [];
      var failed, point := MainBlock(a);
      raised := false;
      if failed {
        raised := CleanUp(a, point);
        Regroup(w, w1, [], if raised then [] else SendWrites(FailedTemp, a.faults));
        Regroup(n, n1, [], if raised then [] else SendNotes(FailedTemp, a.faults));
      } else {
        Regroup(w, w1, SendWrites(Completed, a.faults), []);
        Regroup(n, n1, SendNotes(Completed, a.faults), []);
      }
    }

    /** One attempt from its acceptance on. */
    method Run(a: Attempt) returns (raised: bool)
      requires a.Valid()
      modifies this
      ensures AttemptRel(a, old(Rec()), Rec(), raised)
      ensures writes == old(writes) + AttemptWrites(a, old(status))
      ensures sent == old(sent) + AttemptNotes(a, old(status))
    {
      ghost var pre := Rec();
      Accept(a);
      if a.before == INITIAL {
        raised := GrantStep(a.faults);
        if raised { return; }
      }
      raised := Proceed(a, pre);
    }
  }

  // ---------------------------------------------------------------- single attempts

  /** Over every placement of exceptions a fresh attempt whose last save succeeds ends COMPLETED
      or FAILED_TEMP, or ROLLED_BACK with the VNF status untouched if the grant step raised -
      unless copying the instance raised, or saving PROCESSING for a change_ext_conn: then it stays
      where it was. */
  lemma FreshAttemptEnds(a: Attempt, pre: Record, post: Record, raised: bool)
    requires a.Valid() && AttemptRel(a, pre, post, raised)
    requires pre.opState == Starting
    requires SaveState(FailedTemp) !in a.faults && RollbackSaved(a.faults)
    ensures post.opState in {Completed, FailedTemp, RolledBack, Starting}
    ensures post.opState == RolledBack <==> GrantRefused(a)
    ensures post.opState == RolledBack ==> post.status == pre.status
    ensures post.opState == Starting
            <==> && !GrantRefused(a)
                 && ((!a.op.Instantiate? && CopyInstance in a.faults)
                     || (a.op.ChangeExtConn? && SaveState(Processing) in a.faults))
    ensures post.opState == Completed <==> !GrantRefused(a) && Succeeds(a, pre.status)
    ensures raised <==> post.opState in {RolledBack, Starting}
  {
  }

  /** What the occurrence ends with is what was written last. Once COMPLETED is written nothing else
      is, whichever calls raise afterwards, and the attempt does not raise. */
  lemma CompletedIsFinal(a: Attempt, pre: Record, post: Record, raised: bool)
    requires a.Valid() && AttemptRel(a, pre, post, raised)
    ensures var ws := AttemptWrites(a, pre.status);
            && post.opState == (if ws == [] then Accepted(a, pre).opState else ws[|ws| - 1])
            && (forall i, j :: 0 <= i < j < |ws| && ws[i] == Completed ==> ws[j] == Completed)
            && (Completed in ws ==> post.opState == Completed && !raised)
            && (Completed in ws <==> !GrantRefused(a) && Succeeds(a, pre.status))
  {
    SendWritesOf(Processing, a.faults);
    SendWritesOf(Completed, a.faults);
    SendWritesOf(FailedTemp, a.faults);
  }

  lemma SendWritesOf(state: OperationState, faults: set<Site>)
    ensures var ws := SendWrites(state, faults);
            && (ws == [] <==> SaveState(state) in faults)
            && forall i :: 0 <= i < |ws| ==> ws[i] == state
  {
  }

  /** The states that an attempt tells its clients. */
  ghost predicate Told(a: Attempt, st: VnfStatus, state: OperationState) {
    exists n :: n in AttemptNotes(a, st) && n.state == state
  }

  /** When the clients are told the outcome. COMPLETED or FAILED_TEMP goes out iff it was saved and
      neither building nor posting the notification raised; ROLLED_BACK goes out even if it could
      not be saved; nothing else is told but PROCESSING. */
  lemma ToldIff(a: Attempt, pre: Record, post: Record, raised: bool, state: OperationState)
    requires a.Valid() && AttemptRel(a, pre, post, raised)
    requires state != Processing
    ensures state == RolledBack ==>
              (Told(a, pre.status, state)
               <==> GrantRefused(a) && {LoadRolledBack, PostNotification(RolledBack)} !! a.faults)
    ensures state == Completed ==>
              (Told(a, pre.status, state)
               <==> && !GrantRefused(a) && Succeeds(a, pre.status)
                    && {BuildData(state), PostNotification(state)} !! a.faults)
    ensures state == FailedTemp ==>
              (Told(a, pre.status, state)
               <==> && !GrantRefused(a) && !Succeeds(a, pre.status) && FailureSaved(a)
                    && {BuildData(state), PostNotification(state)} !! a.faults)
    ensures state !in {RolledBack, Completed, FailedTemp} ==> !Told(a, pre.status, state)
    ensures pre.opState != RolledBack ==>
              (Told(a, pre.status, state) && post.opState != state
               <==> && state == RolledBack && GrantRefused(a) && SaveRolledBack in a.faults
                    && {LoadRolledBack, PostNotification(RolledBack)} !! a.faults)
  {
    var notes := AttemptNotes(a, pre.status);
    assert forall n :: n in notes ==> n in RollbackNotes(a.faults) || n in SendNotes(Processing, a.faults)
                                      || n in SendNotes(Completed, a.faults) || n in SendNotes(FailedTemp, a.faults);
    if !GrantRefused(a) && LastSend(a, pre.status) == Some(state) && Notified(state, a.faults) {
      assert SendNotes(state, a.faults)[0] in notes;
    }
    if GrantRefused(a) && RollbackNotes(a.faults) != [] {
      assert RollbackNotes(a.faults)[0] in notes;
    }
  }

  /** What the notifications say. An outcome is told as RESULT with the affected resources iff these
      were collected and saved, and goes out marked START and empty otherwise; the connectivity
      comes along if it could be converted, and then also the error of a failure. PROCESSING is
      always a START without more, ROLLED_BACK a RESULT without more. */
  lemma NoteContents(a: Attempt, st: VnfStatus, n: Notification)
    requires n in AttemptNotes(a, st)
    ensures n.state in {Processing, Completed, FailedTemp, RolledBack}
    ensures n.state == Processing ==> n == Notification(Processing, false, false, false, false)
    ensures n.state == RolledBack ==> n == Notification(RolledBack, true, false, false, false)
    ensures n.state in {Completed, FailedTemp} ==>
              && n.result == n.resources
              && (n.result <==> {CollectResources(n.state), SaveResources(n.state)} !! a.faults)
              && (n.connectivity <==> n.result && ConvertConnectivity(n.state) !in a.faults)
              && (n.error <==> n.connectivity && n.state == FailedTemp)
  {
  }

  /** The calls behind the two handlers of `_send_lcm_op_occ_notification`. */
  ghost predicate NotificationSite(s: Site) {
    || s.BuildData? || s.CollectResources? || s.SaveResources? || s.ConvertConnectivity?
    || s.PostNotification?
  }

  /** Exceptions behind the handlers change nothing in the database but the resource changes: run
      on equal records without and with them, the code ends with equal records and raises alike. */
  method NotificationFaultsAreHarmless(c: Conductor, d: Conductor, a: Attempt, extra: set<Site>)
    returns (raised: bool, raisedToo: bool)
    requires a.Valid() && c != d && c.Rec() == d.Rec()
    requires forall s :: s in extra ==> NotificationSite(s)
    modifies c, d
    ensures c.Rec() == d.Rec() && raised == raisedToo && AttemptRel(a, old(c.Rec()), c.Rec(), raised)
    ensures Completed in AttemptWrites(a, old(c.status)) ==> d.opState == Completed && !raisedToo
  {
    ghost var pre := c.Rec();
    var b := a.(faults := a.faults + extra);
    raised := c.Run(a);
    raisedToo := d.Run(b);
    SameOutcome(a, b, pre, d.Rec(), raisedToo);
    OneOutcome(a, pre, c.Rec(), raised, d.Rec(), raisedToo);
    CompletedIsFinal(a, pre, c.Rec(), raised);
  }

  /** An attempt's outcome is determined. */
  lemma OneOutcome(a: Attempt, pre: Record, p: Record, raised: bool, q: Record, raisedToo: bool)
    requires AttemptRel(a, pre, p, raised) && AttemptRel(a, pre, q, raisedToo)
    ensures p == q && raised == raisedToo
  {
  }

  ghost predicate AgreeElsewhere(a: Attempt, b: Attempt) {
    a == b.(faults := a.faults) && forall s: Site :: !NotificationSite(s) ==> (s in a.faults <==> s in b.faults)
  }

  lemma SameStart(a: Attempt, b: Attempt, st: VnfStatus)
    requires AgreeElsewhere(a, b)
    ensures GrantRefused(a) == GrantRefused(b) && RollbackSaved(a.faults) == RollbackSaved(b.faults)
    ensures StartClear(a) == StartClear(b) && ClaimOk(a, st) == ClaimOk(b, st)
  {
  }

  lemma SameClear(a: Attempt, b: Attempt)
    requires AgreeElsewhere(a, b)
    ensures DriverClear(a) == DriverClear(b) && LateClear(a) == LateClear(b) && FailureSaved(a) == FailureSaved(b)
  {
  }

  lemma SamePoint(a: Attempt, b: Attempt, st: VnfStatus)
    requires AgreeElsewhere(a, b)
    ensures FailPoint(a, st) == FailPoint(b, st)
  {
    SameStart(a, b, st);
    SameClear(a, b);
  }

  lemma SameAttrStatus(a: Attempt, b: Attempt, st: VnfStatus)
    requires AgreeElsewhere(a, b)
    ensures AttrStatus(a, st) == AttrStatus(b, st) && VimStatus(a, st) == VimStatus(b, st)
  {
  }

  lemma SameStatus(a: Attempt, b: Attempt, st: VnfStatus)
    requires a == b.(faults := a.faults)
    requires StartClear(a) == StartClear(b) && ClaimOk(a, st) == ClaimOk(b, st) && DriverClear(a) == DriverClear(b)
    requires (Driver in a.faults) == (Driver in b.faults) && (UpdateInfo in a.faults) == (UpdateInfo in b.faults)
    requires AttrStatus(a, Claimed(a, st)) == AttrStatus(b, Claimed(a, st))
    requires VimStatus(a, Claimed(a, st)) == VimStatus(b, Claimed(a, st))
    ensures FailStatus(a, st) == FailStatus(b, st)
  {
    assert LateReached(a, st) == LateReached(b, st);
  }

  lemma SamePieces(a: Attempt, b: Attempt, i: Instance)
    requires AgreeElsewhere(a, b)
    ensures VimShadow(a, i) == VimShadow(b, i) && LateShadow(a, i) == LateShadow(b, i)
  {
  }

  lemma SameInstance(a: Attempt, b: Attempt, st: VnfStatus, i: Instance)
    requires AgreeElsewhere(a, b)
    ensures MainShadow(a, st, i) == MainShadow(b, st, i) && CleanResets(a, st) == CleanResets(b, st)
  {
    SameStart(a, b, st);
    SameClear(a, b);
    SamePieces(a, b, i);
    SamePieces(a, b, DriverDone(a, i));
  }

  lemma SameOutcome(a: Attempt, b: Attempt, pre: Record, post: Record, raised: bool)
    requires AgreeElsewhere(a, b)
    ensures AttemptRel(a, pre, post, raised) <==> AttemptRel(b, pre, post, raised)
  {
    SameStart(a, b, pre.status);
    SameClear(a, b);
    SamePoint(a, b, pre.status);
    SameAttrStatus(a, b, Claimed(a, pre.status));
    SameStatus(a, b, pre.status);
    SameInstance(a, b, pre.status, Accepted(a, pre).instance);
    SameInstance(a, b, FailStatus(a, pre.status), Accepted(a, pre).instance);
  }

  /** COMPLETED means the promised VNF status, except for exactly one kind of attempt: one that
      resumes at NOTIFY_COMPLETED and, not being a change_ext_conn, skips the block that
      leaves the pending status. Such an attempt is right only if the status was right before. */
  lemma CompletedStatusIff(a: Attempt, pre: Record, post: Record, raised: bool)
    requires a.Valid() && AttemptRel(a, pre, post, raised)
    requires !GrantRefused(a) && Succeeds(a, pre.status)
    ensures post.opState == Completed
    ensures post.status == (if a.op.Terminate? then Inactive else Active)
            <==> || RunsDriver(a)
                 || (a.dictStatus != Error && pre.status == if a.op.Terminate? then Inactive else Active)
  {
  }
}
