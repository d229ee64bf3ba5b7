/** Fresh attempts of which a single call raises, or that call and the ERROR write after it: the
    outcomes of instantiate, terminate, heal and change_ext_conn written out as tables. */
module FaultTables {
  import opened Common
  import opened Lifecycle

  const Up := Instance(true, false)
  const Down := Instance(false, false)

  /** The record that a fresh request usually finds. */
  function Usual(op: Operation): Record {
    if op.Instantiate? then Record(Inactive, Starting, 0, Down) else Record(Active, Starting, 0, Up)
  }

  ghost predicate Fresh(a: Attempt, faults: set<Site>) {
    a.Valid() && a.before == 0 && a.dictStatus == Usual(a.op).status && a.faults == faults
  }

  ghost function FailedAt(point: nat, i: Instance): Record { Record(Error, FailedTemp, point, i) }

  ghost function InstantiateTable(a: Attempt, s: Site): Record {
    match s
    case Grant => Record(Inactive, RolledBack, 0, Down)
    case SaveState(Processing) => FailedAt(0, Down)
    case ClaimStatus => FailedAt(1, Down)
    case Driver => FailedAt(a.driverPoint, Down)
    case BuildInfo | GetVim | AttrCheck | AttrLoop => FailedAt(6, Down)
    case InstanceUpdate | CreatePlacement | SaveState(Completed) => FailedAt(7, Up)
    case _ => Record(Active, Completed, 0, Up)
  }

  ghost function TerminateTable(a: Attempt, s: Site): Record {
    match s
    case Grant => Record(Active, RolledBack, 0, Up)
    case CopyInstance => Record(Error, Starting, 0, Up)
    case SaveState(Processing) => FailedAt(0, Up)
    case ClaimStatus => FailedAt(1, Up)
    case Driver => FailedAt(a.driverPoint, Instance(a.driverHeld, false))
    case DeletePlacement | FinalStatus => FailedAt(6, Instance(a.driverStored.instantiated, false))
    case GetVim => FailedAt(7, Instance(a.driverStored.instantiated, false))
    case InstanceUpdate | Reinitialize | SaveState(Completed) => FailedAt(7, Down)
    case _ => Record(Inactive, Completed, 0, Down)
  }

  /** A heal that fails before its driver has reset the task state leaves the instance busy. */
  ghost function HealTable(a: Attempt, s: Site): Record {
    match s
    case Grant => Record(Active, RolledBack, 0, Up)
    case CopyInstance => Record(Error, Starting, 0, Instance(true, true))
    case SaveState(Processing) => FailedAt(0, Instance(true, true))
    case ClaimStatus => FailedAt(1, Instance(true, true))
    case Driver => FailedAt(a.driverPoint, Instance(a.driverHeld, true))
    case UpdateInfo | StackParam | AdditionalInfo | FinalStatus => FailedAt(6, Up)
    case InstanceUpdate | UpdatePlacement | SaveState(Completed) => FailedAt(7, Up)
    case _ => Record(Active, Completed, 0, Up)
  }

  ghost function ChangeExtConnTable(a: Attempt, s: Site): Record {
    match s
    case Grant => Record(Active, RolledBack, 0, Up)
    case CopyInstance | SaveState(Processing) => Record(Error, Starting, 0, Up)
    case ClaimStatus => FailedAt(1, Up)
    case Driver => FailedAt(a.driverPoint, Instance(true, true))
    case UpdateInfo | AttrCheck | AttrLoop | SaveState(Completed) => FailedAt(7, Up)
    case _ => Record(Active, Completed, 0, Up)
  }

  /** The code and the tables agree. An exception leaves the attempt in the ROLLED_BACK and STARTING
      rows and in no other. */
  method RunsByTable(a: Attempt, s: Site, c: Conductor) returns (raised: bool)
    requires Fresh(a, {s}) && c.Rec() == Usual(a.op)
    modifies c
    ensures c.Rec() == match a.op
                       case Instantiate => InstantiateTable(a, s)
                       case Terminate => TerminateTable(a, s)
                       case Heal => HealTable(a, s)
                       case ChangeExtConn => ChangeExtConnTable(a, s)
    ensures raised <==> c.opState in {RolledBack, Starting}
  {
    raised := c.Run(a);
    match a.op {
      case Instantiate => InstantiateByTable(a, s, c.Rec(), raised);
      case Terminate => TerminateByTable(a, s, c.Rec(), raised);
      case Heal => HealByTable(a, s, c.Rec(), raised);
      case ChangeExtConn => ChangeExtConnByTable(a, s, c.Rec(), raised);
    }
  }

  /** The calls up to the claim. */
  ghost predicate Opens(s: Site) { s in {Grant, CopyInstance, SaveState(Processing), ClaimStatus} }

  /** The calls from the driver to VNF_CONFIG_END. */
  ghost predicate OnVim(op: Operation, s: Site) {
    match op
    case Instantiate => s in {Driver, BuildInfo, GetVim, AttrCheck, AttrLoop}
    case Terminate => s in {Driver, DeletePlacement, FinalStatus}
    case Heal => s in {Driver, UpdateInfo, StackParam, AdditionalInfo, FinalStatus}
    case ChangeExtConn => s == Driver
  }

  lemma InstantiateByTable(a: Attempt, s: Site, post: Record, raised: bool)
    requires Fresh(a, {s}) && a.op.Instantiate? && AttemptRel(a, Usual(a.op), post, raised)
    ensures post == InstantiateTable(a, s) && (raised <==> post.opState in {RolledBack, Starting})
  {
    if Opens(s) {
      InstantiateOpening(a, s, post, raised);
    } else if OnVim(a.op, s) {
      InstantiateOnVim(a, s, post, raised);
    } else {
      InstantiateRest(a, s, post, raised);
    }
  }

  lemma InstantiateOpening(a: Attempt, s: Site, post: Record, raised: bool)
    requires Fresh(a, {s}) && a.op.Instantiate? && AttemptRel(a, Usual(a.op), post, raised)
    requires Opens(s)
    ensures post == InstantiateTable(a, s) && (raised <==> post.opState in {RolledBack, Starting})
  {
  }

  lemma InstantiateOnVim(a: Attempt, s: Site, post: Record, raised: bool)
    requires Fresh(a, {s}) && a.op.Instantiate? && AttemptRel(a, Usual(a.op), post, raised)
    requires !Opens(s) && OnVim(a.op, s)
    ensures post == InstantiateTable(a, s) && (raised <==> post.opState in {RolledBack, Starting})
  {
  }

  lemma InstantiateRest(a: Attempt, s: Site, post: Record, raised: bool)
    requires Fresh(a, {s}) && a.op.Instantiate? && AttemptRel(a, Usual(a.op), post, raised)
    requires !Opens(s) && !OnVim(a.op, s)
    ensures post == InstantiateTable(a, s) && (raised <==> post.opState in {RolledBack, Starting})
  {
  }

  lemma TerminateByTable(a: Attempt, s: Site, post: Record, raised: bool)
    requires Fresh(a, {s}) && a.op.Terminate? && AttemptRel(a, Usual(a.op), post, raised)
    ensures post == TerminateTable(a, s) && (raised <==> post.opState in {RolledBack, Starting})
  {
    if Opens(s) {
      TerminateOpening(a, s, post, raised);
    } else if OnVim(a.op, s) {
      TerminateOnVim(a, s, post, raised);
    } else {
      TerminateRest(a, s, post, raised);
    }
  }

  lemma TerminateOpening(a: Attempt, s: Site, post: Record, raised: bool)
    requires Fresh(a, {s}) && a.op.Terminate? && AttemptRel(a, Usual(a.op), post, raised)
    requires Opens(s)
    ensures post == TerminateTable(a, s) && (raised <==> post.opState in {RolledBack, Starting})
  {
  }

  lemma TerminateOnVim(a: Attempt, s: Site, post: Record, raised: bool)
    requires Fresh(a, {s}) && a.op.Terminate? && AttemptRel(a, Usual(a.op), post, raised)
    requires !Opens(s) && OnVim(a.op, s)
    ensures post == TerminateTable(a, s) && (raised <==> post.opState in {RolledBack, Starting})
  {
  }

  lemma TerminateRest(a: Attempt, s: Site, post: Record, raised: bool)
    requires Fresh(a, {s}) && a.op.Terminate? && AttemptRel(a, Usual(a.op), post, raised)
    requires !Opens(s) && !OnVim(a.op, s)
    ensures post == TerminateTable(a, s) && (raised <==> post.opState in {RolledBack, Starting})
  {
  }

  lemma HealByTable(a: Attempt, s: Site, post: Record, raised: bool)
    requires Fresh(a, {s}) && a.op.Heal? && AttemptRel(a, Usual(a.op), post, raised)
    ensures post == HealTable(a, s) && (raised <==> post.opState in {RolledBack, Starting})
  {
    if Opens(s) {
      HealOpening(a, s, post, raised);
    } else if OnVim(a.op, s) {
      HealOnVim(a, s, post, raised);
    } else {
      HealRest(a, s, post, raised);
    }
  }

  lemma HealOpening(a: Attempt, s: Site, post: Record, raised: bool)
    requires Fresh(a, {s}) && a.op.Heal? && AttemptRel(a, Usual(a.op), post, raised)
    requires Opens(s)
    ensures post == HealTable(a, s) && (raised <==> post.opState in {RolledBack, Starting})
  {
  }

  lemma HealOnVim(a: Attempt, s: Site, post: Record, raised: bool)
    requires Fresh(a, {s}) && a.op.Heal? && AttemptRel(a, Usual(a.op), post, raised)
    requires !Opens(s) && OnVim(a.op, s)
    ensures post == HealTable(a, s) && (raised <==> post.opState in {RolledBack, Starting})
  {
  }

  lemma HealRest(a: Attempt, s: Site, post: Record, raised: bool)
    requires Fresh(a, {s}) && a.op.Heal? && AttemptRel(a, Usual(a.op), post, raised)
    requires !Opens(s) && !OnVim(a.op, s)
    ensures post == HealTable(a, s) && (raised <==> post.opState in {RolledBack, Starting})
  {
  }

  lemma ChangeExtConnByTable(a: Attempt, s: Site, post: Record, raised: bool)
    requires Fresh(a, {s}) && a.op.ChangeExtConn? && AttemptRel(a, Usual(a.op), post, raised)
    ensures post == ChangeExtConnTable(a, s) && (raised <==> post.opState in {RolledBack, Starting})
  {
    if Opens(s) {
      ChangeExtConnOpening(a, s, post, raised);
    } else if OnVim(a.op, s) {
      ChangeExtConnOnVim(a, s, post, raised);
    } else {
      ChangeExtConnRest(a, s, post, raised);
    }
  }

  lemma ChangeExtConnOpening(a: Attempt, s: Site, post: Record, raised: bool)
    requires Fresh(a, {s}) && a.op.ChangeExtConn? && AttemptRel(a, Usual(a.op), post, raised)
    requires Opens(s)
    ensures post == ChangeExtConnTable(a, s) && (raised <==> post.opState in {RolledBack, Starting})
  {
  }

  lemma ChangeExtConnOnVim(a: Attempt, s: Site, post: Record, raised: bool)
    requires Fresh(a, {s}) && a.op.ChangeExtConn? && AttemptRel(a, Usual(a.op), post, raised)
    requires !Opens(s) && OnVim(a.op, s)
    ensures post == ChangeExtConnTable(a, s) && (raised <==> post.opState in {RolledBack, Starting})
  {
  }

  lemma ChangeExtConnRest(a: Attempt, s: Site, post: Record, raised: bool)
    requires Fresh(a, {s}) && a.op.ChangeExtConn? && AttemptRel(a, Usual(a.op), post, raised)
    requires !Opens(s) && !OnVim(a.op, s)
    ensures post == ChangeExtConnTable(a, s) && (raised <==> post.opState in {RolledBack, Starting})
  {
  }

  // ---------------------------------------------------------------- without the ERROR write

  /** The status an attempt has reached when the call raises. */
  ghost function StatusTable(op: Operation, s: Site): VnfStatus {
    match op
    case Instantiate =>
      (match s
       case Grant | SaveState(Processing) | ClaimStatus => Inactive
       case Driver | BuildInfo | GetVim | AttrCheck => PendingCreate
       case _ => Active)
    case Terminate =>
      (match s
       case Grant | CopyInstance | SaveState(Processing) | ClaimStatus => Active
       case Driver | DeletePlacement | FinalStatus => PendingTerminate
       case _ => Inactive)
    case Heal =>
      (match s
       case Driver | UpdateInfo | StackParam | AdditionalInfo | FinalStatus => PendingHeal
       case _ => Active)
    case ChangeExtConn =>
      (match s
       case Driver | UpdateInfo | AttrCheck => PendingChangeExtConn
       case _ => Active)
  }

  /** With the ERROR write raising as well, the VNF keeps the status it had when the first call
      raised: the start status, the operation's own pending status, or the final one. */
  lemma StatusByTable(a: Attempt, s: Site, post: Record, raised: bool)
    requires Fresh(a, {s, CleanStatus}) && AttemptRel(a, Usual(a.op), post, raised)
    ensures post.status == StatusTable(a.op, s)
  {
    match a.op
    case Instantiate => InstantiateStatus(a, s);
    case Terminate => TerminateStatus(a, s);
    case Heal => HealStatus(a, s);
    case ChangeExtConn => ChangeExtConnStatus(a, s);
  }

  /** The status when the main block is left, one way or the other. */
  ghost function StatusLeft(a: Attempt): VnfStatus {
    var st := Usual(a.op).status;
    if GrantRefused(a) then st else if Succeeds(a, st) then TargetStatus(a.op) else FailStatus(a, st)
  }

  lemma InstantiateStatus(a: Attempt, s: Site)
    requires Fresh(a, {s, CleanStatus}) && a.op.Instantiate?
    ensures StatusLeft(a) == StatusTable(a.op, s)
  {
  }

  lemma TerminateStatus(a: Attempt, s: Site)
    requires Fresh(a, {s, CleanStatus}) && a.op.Terminate?
    ensures StatusLeft(a) == StatusTable(a.op, s)
  {
  }

  lemma HealStatus(a: Attempt, s: Site)
    requires Fresh(a, {s, CleanStatus}) && a.op.Heal?
    ensures StatusLeft(a) == StatusTable(a.op, s)
  {
  }

  lemma ChangeExtConnStatus(a: Attempt, s: Site)
    requires Fresh(a, {s, CleanStatus}) && a.op.ChangeExtConn?
    ensures StatusLeft(a) == StatusTable(a.op, s)
  {
  }

  // ---------------------------------------------------------------- resumed attempts

  /** The record of a failed attempt, and a retry of it with this one fault. */
  ghost predicate Resumed(a: Attempt, st: VnfStatus, faults: set<Site>) {
    a.Valid() && a.before >= 1 && a.dictStatus == st && a.faults == faults
  }

  function Failed(a: Attempt, st: VnfStatus): Record {
    Record(st, FailedTemp, a.before, if a.op.Instantiate? then Down else Up)
  }

  /** What a retry from ERROR completes with: past 6 all but change_ext_conn stay pending. */
  function CompletedFrom(a: Attempt): Record {
    match a.op
    case Instantiate => Record(if a.before <= 6 then Active else PendingCreate, Completed, a.before, Up)
    case Terminate => Record(if a.before <= 6 then Inactive else PendingTerminate, Completed, a.before, Down)
    case Heal => Record(if a.before <= 6 then Active else PendingHeal, Completed, a.before, Up)
    case ChangeExtConn => Record(Active, Completed, a.before, Up)
  }

  /** A retry asks for no grant. Its claim is needed at any error point, and its driver runs up to 6,
      that of change_ext_conn always. */
  lemma RetryFromError(a: Attempt, s: Site, post: Record, raised: bool)
    requires Resumed(a, Error, {s}) && AttemptRel(a, Failed(a, Error), post, raised)
    ensures s == Grant ==> post == CompletedFrom(a) && !raised
    ensures s == ClaimStatus ==> post.(instance := Up) == FailedAt(1, Up) && !raised
    ensures s == Driver && a.before > 6 && !a.op.ChangeExtConn? ==> post == CompletedFrom(a) && !raised
    ensures s == Driver && (a.before <= 6 || a.op.ChangeExtConn?) ==>
              post.(instance := Up) == FailedAt(a.driverPoint, Up) && !raised
  {
  }

  /** A heal that resumes past 4 does not reset the task state in its driver any more. */
  lemma ResumedHealStaysBusy(a: Attempt, s: Site, post: Record, raised: bool)
    requires a.op.Heal? && a.before <= 6 && s in {UpdateInfo, StackParam, AdditionalInfo, FinalStatus}
    requires Resumed(a, Error, {s}) && AttemptRel(a, Failed(a, Error), post, raised)
    ensures post == FailedAt(6, Instance(true, a.before > 4))
  {
  }

  /** A retry that finds the pending status of its own operation, because ERROR could not be written,
      goes on without a claim past 1 and completes; at 1 its claim misses and ERROR is written. */
  lemma RetryFromPending(a: Attempt, st: VnfStatus, post: Record, raised: bool)
    requires st == match a.op
                   case Instantiate => PendingCreate
                   case Terminate => PendingTerminate
                   case Heal => PendingHeal
                   case ChangeExtConn => PendingChangeExtConn
    requires Resumed(a, st, {}) && AttemptRel(a, Failed(a, st), post, raised)
    ensures a.before == 1 ==> post.(instance := Up) == FailedAt(1, Up)
    ensures a.before > 1 ==> post == CompletedFrom(a)
  {
  }
}
