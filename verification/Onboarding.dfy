/** One upload round of a VNF package: the upload resets the shared row and casts
    `load_csar_data` to every conductor; the conductors then interleave freely.

    Each event below is one database transaction, or one point at which an exception
    leaves `load_csar_data` or the clean-up that `revert_upload_vnf_package` wraps around it.
    A run is any interleaving of such events by any number of conductors.
 */
module Onboarding {
  import opened Common

  datatype PackageState = Created | Uploading | Processing | Onboarded
  datatype OperationalState = Enabled | Disabled

  /** The columns of the `vnf_packages` row that the round reads and writes. */
  datatype Row = Row(downloading: int, onboarding: PackageState, operational: OperationalState)

  /** Where one conductor stands. `holding` says that its increment is still in the counter,
      `reverted` that the clean-up managed to write CREATED. */
  datatype Phase =
    | Waiting
    | Loading
    | Decremented
    | Onboarding
    | Saved
    | Done
    | Reverting(holding: bool)
    | Failed(holding: bool, reverted: bool)

  /** Where the upload call itself stands once its reset of the row is committed. */
  datatype Upload = Casting | Cast | UploadReverting | UploadFailed(reverted: bool)

  datatype State = State(row: Row, upload: Upload, conductors: seq<Phase>)

  datatype Event = Increment | Decrement | Reread | Save | Return | Raise | RevertSave | RevertRaise

  datatype Action = ByConductor(who: nat, event: Event) | ByUpload(event: Event)

  // ---------------------------------------------------------------- steps

  predicate Finished(p: Phase) { p.Done? || p.Failed? }

  /** The conductor's increment is in the counter. */
  predicate Holding(p: Phase) {
    p.Loading? || (p.Reverting? && p.holding) || (p.Failed? && p.holding)
  }

  /** The test on the re-read row (one unlocked SELECT). */
  predicate MayOnboard(row: Row) { row.downloading == 0 && row.onboarding == Processing }

  /** What one event of one conductor does to the row and to that conductor; None if the
      conductor is not at a point where the event can happen. */
  function Conduct(row: Row, p: Phase, e: Event): Option<(Row, Phase)> {
    match (p, e)
    case (Waiting, Increment) => Some((row.(downloading := row.downloading + 1), Loading))
    case (Loading, Decrement) => Some((row.(downloading := row.downloading - 1), Decremented))
    case (Decremented, Reread) => Some((row, if MayOnboard(row) then Onboarding else Done))
    case (Onboarding, Save) => Some((row.(onboarding := Onboarded, operational := Enabled), Saved))
    case (Saved, Return) => Some((row, Done))
    case (_, Raise) => if Finished(p) || p.Reverting? then None else Some((row, Reverting(p.Loading?)))
    case (Reverting(h), RevertSave) => Some((row.(onboarding := Created), Failed(h, true)))
    case (Reverting(h), RevertRaise) => Some((row, Failed(h, false)))
    case _ => None
  }

  function Send(row: Row, u: Upload, e: Event): Option<(Row, Upload)> {
    match (u, e)
    case (Casting, Return) => Some((row, Cast))
    case (Casting, Raise) => Some((row, UploadReverting))
    case (UploadReverting, RevertSave) => Some((row.(onboarding := Created), UploadFailed(true)))
    case (UploadReverting, RevertRaise) => Some((row, UploadFailed(false)))
    case _ => None
  }

  function Next(s: State, a: Action): Option<State> {
    match a
    case ByConductor(c, e) =>
      if c >= |s.conductors| then None else
      (match Conduct(s.row, s.conductors[c], e)
       case None => None
       case Some((row, p)) => Some(State(row, s.upload, s.conductors[c := p])))
    case ByUpload(e) =>
      match Send(s.row, s.upload, e)
      case None => None
      case Some((row, u)) => Some(State(row, u, s.conductors))
  }

  /** The state once `upload_vnf_package_content` has committed its reset. */
  ghost predicate Initial(s: State) {
    && s.row.downloading == 0 && s.row.onboarding == Processing && s.upload == Casting
    && |s.conductors| >= 1
    && forall c :: 0 <= c < |s.conductors| ==> s.conductors[c] == Waiting
  }

  ghost predicate IsRun(states: seq<State>, acts: seq<Action>) {
    && |states| == |acts| + 1
    && Initial(states[0])
    && forall i :: 0 <= i < |acts| ==> Next(states[i], acts[i]) == Some(states[i + 1])
  }

  /** Everybody has returned or raised. */
  ghost predicate Quiescent(s: State) {
    && (s.upload.Cast? || s.upload.UploadFailed?)
    && forall c :: 0 <= c < |s.conductors| ==> Finished(s.conductors[c])
  }

  /** Step i is a re-read that lets its conductor start writing the package's records. */
  ghost predicate StartsOnboarding(states: seq<State>, acts: seq<Action>, i: nat)
    requires IsRun(states, acts) && i < |acts|
  {
    && acts[i].ByConductor? && acts[i].event == Reread && acts[i].who < |states[i + 1].conductors|
    && states[i + 1].conductors[acts[i].who] == Onboarding
  }

  // ---------------------------------------------------------------- weights over conductors

  ghost function Sum(ps: seq<Phase>, w: Phase -> nat): nat {
    if ps == [] then 0 else w(ps[0]) + Sum(ps[1..], w)
  }

  lemma {:induction false} SumUpdate(ps: seq<Phase>, c: nat, p: Phase, w: Phase -> nat)
    requires c < |ps|
    ensures Sum(ps[c := p], w) == Sum(ps, w) - w(ps[c]) + w(p)
  {
    if c == 0 {
      assert ps[c := p][1..] == ps[1..];
    } else {
      assert ps[c := p][1..] == ps[1..][c - 1 := p];
      SumUpdate(ps[1..], c - 1, p, w);
    }
  }

  lemma {:induction false} SumBound(ps: seq<Phase>, w: Phase -> nat, most: nat)
    requires forall c :: 0 <= c < |ps| ==> w(ps[c]) <= most
    ensures Sum(ps, w) <= most * |ps|
  {
    if ps != [] { SumBound(ps[1..], w, most); }
  }

  lemma {:induction false} SumWitness(ps: seq<Phase>, w: Phase -> nat) returns (c: nat)
    requires Sum(ps, w) > 0
    ensures c < |ps| && w(ps[c]) > 0
  {
    if w(ps[0]) > 0 {
      c := 0;
    } else {
      c := SumWitness(ps[1..], w);
      c := c + 1;
    }
  }

  lemma {:induction false} SumAtLeast(ps: seq<Phase>, w: Phase -> nat, c: nat)
    requires c < |ps|
    ensures Sum(ps, w) >= w(ps[c])
  {
    if c > 0 { SumAtLeast(ps[1..], w, c - 1); }
  }

  ghost function HoldWeight(p: Phase): nat { if Holding(p) then 1 else 0 }

  /** The number of conductors that incremented and did not decrement. */
  ghost function Holders(ps: seq<Phase>): nat { Sum(ps, HoldWeight) }

  // ---------------------------------------------------------------- invariant

  /** Somebody can still change the row, or gave up without being able to. */
  ghost predicate Pending(p: Phase) { !Finished(p) || (p.Failed? && !p.reverted) }

  ghost predicate SomePending(s: State) {
    exists c :: 0 <= c < |s.conductors| && Pending(s.conductors[c])
  }

  ghost predicate SomeReverted(s: State) {
    || (s.upload.UploadFailed? && s.upload.reverted)
    || exists c :: 0 <= c < |s.conductors| && s.conductors[c].Failed? && s.conductors[c].reverted
  }

  ghost predicate Inv(s: State) {
    && s.row.downloading == Holders(s.conductors)
    && s.row.onboarding != Uploading
    && (s.row.onboarding == Processing ==> SomePending(s) && !SomeReverted(s))
    && (s.row.onboarding == Created ==> SomeReverted(s))
    && (s.row.onboarding == Onboarded ==> s.row.operational == Enabled)
    && (s.row.onboarding == Processing ==>
          forall c :: 0 <= c < |s.conductors| ==> s.conductors[c] != Saved)
  }

  lemma {:induction false} AllWaiting(ps: seq<Phase>)
    requires forall c :: 0 <= c < |ps| ==> ps[c] == Waiting
    ensures Holders(ps) == 0
  {
    SumBound(ps, HoldWeight, 0);
  }

  lemma InitialInv(s: State)
    requires Initial(s)
    ensures Inv(s)
  {
    AllWaiting(s.conductors);
    assert Pending(s.conductors[0]);
  }

  lemma NextInv(s: State, a: Action, t: State)
    requires Inv(s) && Next(s, a) == Some(t)
    ensures Inv(t) && |t.conductors| == |s.conductors|
  {
    match a
    case ByUpload(_) =>
      if s.row.onboarding == Processing {
        var c :| 0 <= c < |s.conductors| && Pending(s.conductors[c]);
        assert Pending(t.conductors[c]);
      }
    case ByConductor(c, e) =>
      SumUpdate(s.conductors, c, t.conductors[c], HoldWeight);
      if t.row.onboarding == Processing {
        StaysPending(s, c, e, t);
      }
      if s.row.onboarding == Created && !(s.upload.UploadFailed? && s.upload.reverted) {
        var d :| 0 <= d < |s.conductors| && s.conductors[d].Failed? && s.conductors[d].reverted;
        assert t.conductors[d] == s.conductors[d];
      }
  }

  /** The heart of the protocol: a conductor that finishes without onboarding leaves someone
      behind who is still loading, or who failed and could not revert. */
  lemma StaysPending(s: State, c: nat, e: Event, t: State)
    requires Inv(s) && Next(s, ByConductor(c, e)) == Some(t)
    requires t.row.onboarding == Processing
    ensures SomePending(t) && !SomeReverted(t)
  {
    if t.conductors[c] == Done {
      var d := SumWitness(s.conductors, HoldWeight);
      assert Pending(t.conductors[d]);
    } else {
      assert Pending(t.conductors[c]);
    }
  }

  lemma {:induction false} RunInv(states: seq<State>, acts: seq<Action>, i: nat)
    requires IsRun(states, acts) && i < |states|
    ensures Inv(states[i]) && |states[i].conductors| == |states[0].conductors|
  {
    if i == 0 {
      InitialInv(states[0]);
    } else {
      RunInv(states, acts, i - 1);
      NextInv(states[i - 1], acts[i - 1], states[i]);
    }
  }

  // ---------------------------------------------------------------- main results

  /** How many of the first j steps are this event of some conductor. */
  ghost function Count(acts: seq<Action>, e: Event, j: nat): nat
    requires j <= |acts|
  {
    if j == 0 then 0
    else Count(acts, e, j - 1) + if acts[j - 1].ByConductor? && acts[j - 1].event == e then 1 else 0
  }

  /** At every point of every interleaving the counter is the number of increments minus the number
      of decrements so far: nothing else touches it, exceptions and clean-ups included. */
  lemma {:induction false} CounterCountsEvents(states: seq<State>, acts: seq<Action>, i: nat)
    requires IsRun(states, acts) && i < |states|
    ensures states[i].row.downloading == Count(acts, Increment, i) - Count(acts, Decrement, i)
  {
    if i > 0 {
      CounterCountsEvents(states, acts, i - 1);
      var a := acts[i - 1];
      assert Next(states[i - 1], a) == Some(states[i]);
    }
  }

  /** The conductor has done this within the first j steps. */
  ghost predicate Did(acts: seq<Action>, c: nat, e: Event, j: nat)
    requires j <= |acts|
  {
    exists i :: 0 <= i < j && acts[i] == ByConductor(c, e)
  }

  lemma DidStep(acts: seq<Action>, c: nat, e: Event, j: nat)
    requires 0 < j <= |acts|
    ensures Did(acts, c, e, j) <==> Did(acts, c, e, j - 1) || acts[j - 1] == ByConductor(c, e)
  {
  }

  /** Holding, told from the events alone: the conductor has incremented and not decremented. */
  lemma {:induction false} HoldingIff(states: seq<State>, acts: seq<Action>, j: nat, c: nat)
    requires IsRun(states, acts) && j < |states| && c < |states[0].conductors|
    ensures c < |states[j].conductors|
    ensures Holding(states[j].conductors[c]) <==> Did(acts, c, Increment, j) && !Did(acts, c, Decrement, j)
    ensures states[j].conductors[c] == Waiting ==> !Did(acts, c, Increment, j) && !Did(acts, c, Decrement, j)
  {
    if j > 0 {
      HoldingIff(states, acts, j - 1, c);
      DidStep(acts, c, Increment, j);
      DidStep(acts, c, Decrement, j);
      var a := acts[j - 1];
      assert Next(states[j - 1], a) == Some(states[j]);
    }
  }

  /** An exception of a conductor can come at any point before it has finished or is cleaning up, one
      of the upload while it casts, and neither it nor a clean-up that raises as well writes
      anything. */
  lemma ExceptionsWriteNothing(s: State, c: nat)
    requires c < |s.conductors|
    ensures Next(s, ByConductor(c, Raise)).Some?
            <==> s.conductors[c] in {Waiting, Loading, Decremented, Onboarding, Saved}
    ensures Next(s, ByUpload(Raise)).Some? <==> s.upload == Casting
    ensures forall e: Event, t: State ::
              e in {Raise, RevertRaise} && Some(t) in {Next(s, ByConductor(c, e)), Next(s, ByUpload(e))} ==>
                t.row == s.row
  {
  }

  /** At every point of every interleaving, failures included, the counter is the number of
      conductors that incremented it and have not decremented it. */
  lemma CounterCountsHolders(states: seq<State>, acts: seq<Action>, i: nat)
    requires IsRun(states, acts) && i < |states|
    ensures states[i].row.downloading == |HoldingSet(states[i].conductors)|
    ensures HoldingSet(states[i].conductors)
            == set c: nat | c < |states[0].conductors| && Did(acts, c, Increment, i) && !Did(acts, c, Decrement, i)
  {
    RunInv(states, acts, i);
    HoldersIsCardinality(states[i].conductors);
    forall c: nat | c < |states[0].conductors|
      ensures Holding(states[i].conductors[c]) <==> Did(acts, c, Increment, i) && !Did(acts, c, Decrement, i)
    {
      HoldingIff(states, acts, i, c);
    }
  }

  ghost function HoldingSet(ps: seq<Phase>): set<nat> {
    set c: nat | c < |ps| && Holding(ps[c])
  }

  lemma HoldingSetSnoc(ps: seq<Phase>, p: Phase)
    ensures |HoldingSet(ps + [p])| == |HoldingSet(ps)| + HoldWeight(p)
  {
    var n: nat := |ps|;
    assert HoldingSet(ps + [p]) == HoldingSet(ps) + if Holding(p) then {n} else {};
    assert n !in HoldingSet(ps);
  }

  lemma {:induction false} HoldersIsCardinality(ps: seq<Phase>)
    ensures Holders(ps) == |HoldingSet(ps)|
    decreases |ps|
  {
    if ps != [] {
      var last := |ps| - 1;
      HoldersIsCardinality(ps[..last]);
      HoldersSnoc(ps[..last], ps[last]);
      HoldingSetSnoc(ps[..last], ps[last]);
      assert ps[..last] + [ps[last]] == ps;
    }
  }

  lemma {:induction false} HoldersSnoc(ps: seq<Phase>, p: Phase)
    ensures Holders(ps + [p]) == Holders(ps) + HoldWeight(p)
  {
    if ps == [] {
      assert [p][1..] == [];
      assert ps + [p] == [p];
    } else {
      assert (ps + [p])[1..] == ps[1..] + [p];
      HoldersSnoc(ps[1..], p);
    }
  }

  /** If nobody raises, then once everybody has returned the package is ONBOARDED and ENABLED,
      whatever the interleaving. */
  lemma FaultFreeRoundOnboards(states: seq<State>, acts: seq<Action>)
    requires IsRun(states, acts)
    requires forall i :: 0 <= i < |acts| ==> acts[i].event != Raise
    requires Quiescent(states[|acts|])
    ensures states[|acts|].row.onboarding == Onboarded
    ensures states[|acts|].row.operational == Enabled
    ensures states[|acts|].row.downloading == 0
  {
    var s := states[|acts|];
    RunInv(states, acts, |acts|);
    NobodyFails(states, acts, |acts|);
    if s.row.downloading > 0 {
      var c := SumWitness(s.conductors, HoldWeight);
      assert false;
    }
  }

  lemma {:induction false} NobodyFails(states: seq<State>, acts: seq<Action>, i: nat)
    requires IsRun(states, acts) && i < |states|
    requires forall j :: 0 <= j < |acts| ==> acts[j].event != Raise
    ensures states[i].upload == Casting || states[i].upload == Cast
    ensures forall c :: 0 <= c < |states[i].conductors| ==>
                          !states[i].conductors[c].Failed? && !states[i].conductors[c].Reverting?
  {
    if i > 0 {
      NobodyFails(states, acts, i - 1);
      var a := acts[i - 1];
      assert a.event != Raise;
    }
  }

  ghost predicate WritesState(a: Action) { a.event == Save || a.event == RevertSave }

  /** Somebody has written ONBOARDED or CREATED in the first j steps. */
  ghost predicate Written(acts: seq<Action>, j: nat)
    requires j <= |acts|
  {
    exists i :: 0 <= i < j && WritesState(acts[i])
  }

  /** Step k is the last of the first j steps that writes the package state. */
  ghost predicate LastWrite(acts: seq<Action>, k: nat, j: nat)
    requires j <= |acts|
  {
    k < j && WritesState(acts[k]) && forall i :: k < i < j ==> !WritesState(acts[i])
  }

  ghost predicate LastWriteIs(acts: seq<Action>, j: nat, e: Event)
    requires j <= |acts|
  {
    exists k: nat :: LastWrite(acts, k, j) && acts[k].event == e
  }

  /** The package is PROCESSING exactly as long as nobody has written its state. */
  lemma {:induction false} ProcessingIffUnwritten(states: seq<State>, acts: seq<Action>, j: nat)
    requires IsRun(states, acts) && j < |states|
    ensures states[j].row.onboarding == Processing <==> !Written(acts, j)
  {
    if j > 0 {
      ProcessingIffUnwritten(states, acts, j - 1);
      var a := acts[j - 1];
      assert Next(states[j - 1], a) == Some(states[j]);
      assert Written(acts, j) <==> Written(acts, j - 1) || WritesState(a);
    }
  }

  /** The last write decides, whoever made it and whatever happened before. */
  lemma {:induction false} LastWriteDecides(states: seq<State>, acts: seq<Action>, k: nat, j: nat)
    requires IsRun(states, acts) && j < |states| && LastWrite(acts, k, j)
    ensures states[j].row.onboarding == if acts[k].event == Save then Onboarded else Created
    decreases j
  {
    assert Next(states[j - 1], acts[j - 1]) == Some(states[j]);
    if k < j - 1 {
      LastWriteDecides(states, acts, k, j - 1);
      assert !WritesState(acts[j - 1]);
    }
  }

  lemma {:induction false} LastWriteExists(acts: seq<Action>, j: nat) returns (k: nat)
    requires j <= |acts| && Written(acts, j)
    ensures LastWrite(acts, k, j)
  {
    if WritesState(acts[j - 1]) {
      k := j - 1;
    } else {
      k := LastWriteExists(acts, j - 1);
    }
  }

  /** The package state at every point of every run, failures included, read off the writes alone. */
  lemma OutcomeIff(states: seq<State>, acts: seq<Action>, j: nat)
    requires IsRun(states, acts) && j < |states|
    ensures states[j].row.onboarding == Processing <==> !Written(acts, j)
    ensures states[j].row.onboarding == Onboarded
            <==> LastWriteIs(acts, j, Save)
    ensures states[j].row.onboarding == Created
            <==> LastWriteIs(acts, j, RevertSave)
  {
    ProcessingIffUnwritten(states, acts, j);
    if Written(acts, j) {
      var k := LastWriteExists(acts, j);
      LastWriteDecides(states, acts, k, j);
      assert forall l: nat :: LastWrite(acts, l, j) ==> l == k;
    }
  }

  /** A saved onboarding is still there later iff no clean-up has written since the last save. */
  lemma SavedSurvivesIff(states: seq<State>, acts: seq<Action>, k: nat, j: nat)
    requires IsRun(states, acts) && k < j < |states|
    requires acts[k].event == Save && forall i :: k < i < j ==> acts[i].event != Save
    ensures states[j].row.onboarding == Onboarded
            <==> forall i :: k < i < j ==> acts[i].event != RevertSave
  {
    var last := LastWriteExists(acts, j);
    LastWriteDecides(states, acts, last, j);
    assert k <= last;
  }

  /** How a finished round ends, with failures allowed: PROCESSING iff nobody wrote, and then some
      conductor raised and its clean-up raised as well; CREATED or ONBOARDED by the last write. */
  lemma FinishedRoundOutcome(states: seq<State>, acts: seq<Action>)
    requires IsRun(states, acts)
    requires Quiescent(states[|acts|])
    ensures var s := states[|acts|];
            && (s.row.onboarding == Processing <==> !Written(acts, |acts|))
            && (s.row.onboarding == Processing ==>
                  exists c :: 0 <= c < |s.conductors| && s.conductors[c].Failed? && !s.conductors[c].reverted)
            && (s.row.onboarding == Created <==> LastWriteIs(acts, |acts|, RevertSave))
            && (s.row.onboarding == Created ==> SomeReverted(s))
            && (s.row.onboarding == Onboarded <==> LastWriteIs(acts, |acts|, Save))
            && (s.row.onboarding == Onboarded ==> s.row.operational == Enabled)
            && s.row.onboarding != Uploading
  {
    RunInv(states, acts, |acts|);
    OutcomeIff(states, acts, |acts|);
  }

  /** Onboarding starts only from a read with nobody loading and nobody having failed while
      loading. */
  lemma OnboardingStartsUnloaded(states: seq<State>, acts: seq<Action>, i: nat)
    requires IsRun(states, acts) && i < |acts| && StartsOnboarding(states, acts, i)
    ensures forall c :: 0 <= c < |states[i].conductors| ==> !Holding(states[i].conductors[c])
    ensures states[i].row.onboarding == Processing
  {
    RunInv(states, acts, i);
    var s := states[i];
    assert MayOnboard(s.row);
    forall c | 0 <= c < |s.conductors|
      ensures !Holding(s.conductors[c])
    {
      SumAtLeast(s.conductors, HoldWeight, c);
    }
  }

  /** A conductor that failed while loading keeps every later read of the round from onboarding. */
  lemma FailedLoaderBlocksOnboarding(states: seq<State>, acts: seq<Action>, i: nat, j: nat, c: nat)
    requires IsRun(states, acts) && i <= j < |acts|
    requires c < |states[i].conductors|
    requires Holding(states[i].conductors[c]) && !states[i].conductors[c].Loading?
    ensures !StartsOnboarding(states, acts, j)
  {
    FailedLoaderStays(states, acts, i, j, c);
    if StartsOnboarding(states, acts, j) {
      OnboardingStartsUnloaded(states, acts, j);
    }
  }

  lemma {:induction false} FailedLoaderStays(states: seq<State>, acts: seq<Action>, i: nat, j: nat, c: nat)
    requires IsRun(states, acts) && i <= j < |states|
    requires c < |states[i].conductors|
    requires Holding(states[i].conductors[c]) && !states[i].conductors[c].Loading?
    ensures c < |states[j].conductors|
    ensures Holding(states[j].conductors[c]) && !states[j].conductors[c].Loading?
  {
    if i < j {
      FailedLoaderStays(states, acts, i, j - 1, c);
      var a := acts[j - 1];
      assert Next(states[j - 1], a) == Some(states[j]);
    }
  }

  /** When a re-read starts onboarding, in every run: nobody has written the package state so
      far, and nobody is loading or has failed while loading. */
  lemma RereadStartsIff(states: seq<State>, acts: seq<Action>, j: nat)
    requires IsRun(states, acts) && j < |acts|
    requires acts[j].ByConductor? && acts[j].event == Reread
    ensures StartsOnboarding(states, acts, j)
            <==> && !Written(acts, j)
                 && forall c :: 0 <= c < |states[j].conductors| ==> !Holding(states[j].conductors[c])
  {
    var s := states[j];
    RunInv(states, acts, j);
    ProcessingIffUnwritten(states, acts, j);
    assert Next(s, acts[j]) == Some(states[j + 1]);
    if MayOnboard(s.row) {
      assert StartsOnboarding(states, acts, j);
      OnboardingStartsUnloaded(states, acts, j);
    } else if s.row.downloading != 0 {
      var c := SumWitness(s.conductors, HoldWeight);
      assert Holding(s.conductors[c]);
    }
  }

  /** The same from the events alone: every conductor that has incremented has decremented. */
  lemma RereadStartsIffBalanced(states: seq<State>, acts: seq<Action>, j: nat)
    requires IsRun(states, acts) && j < |acts|
    requires acts[j].ByConductor? && acts[j].event == Reread
    ensures StartsOnboarding(states, acts, j)
            <==> && !Written(acts, j)
                 && forall c: nat :: c < |states[0].conductors| && Did(acts, c, Increment, j) ==>
                                       Did(acts, c, Decrement, j)
  {
    RunInv(states, acts, j);
    RereadStartsIff(states, acts, j);
    forall c: nat | c < |states[0].conductors|
      ensures Holding(states[j].conductors[c]) <==> Did(acts, c, Increment, j) && !Did(acts, c, Decrement, j)
    {
      HoldingIff(states, acts, j, c);
    }
  }

  /** A conductor that has incremented and not decremented, failed or not, keeps every re-read from
      starting. */
  lemma OpenLoadBlocksOnboarding(states: seq<State>, acts: seq<Action>, j: nat, c: nat)
    requires IsRun(states, acts) && j < |acts| && c < |states[0].conductors|
    requires Did(acts, c, Increment, j) && !Did(acts, c, Decrement, j)
    ensures !StartsOnboarding(states, acts, j)
  {
    if StartsOnboarding(states, acts, j) {
      RereadStartsIffBalanced(states, acts, j);
    }
  }

  /** Once anybody has written ONBOARDED or CREATED, nobody starts onboarding any more: the only
      window for a second onboarding is between a passing re-read and the save that follows it. */
  lemma NoStartAfterWrite(states: seq<State>, acts: seq<Action>, i: nat, j: nat)
    requires IsRun(states, acts) && i < j < |acts|
    requires WritesState(acts[i])
    ensures !StartsOnboarding(states, acts, j)
  {
    if StartsOnboarding(states, acts, j) {
      RereadStartsIff(states, acts, j);
      assert Written(acts, j);
    }
  }

  // ---------------------------------------------------------------- progress

  ghost function Left(p: Phase): nat {
    match p
    case Waiting => 6
    case Loading => 5
    case Decremented => 4
    case Onboarding => 3
    case Saved => 2
    case Reverting(_) => 1
    case Done => 0
    case Failed(_, _) => 0
  }

  ghost function Rank(s: State): nat {
    Sum(s.conductors, Left) + (match s.upload case Casting => 2 case UploadReverting => 1 case _ => 0)
  }

  /** Every interleaving is finite: at most six events per conductor and two of the upload. */
  lemma RunsAreBounded(states: seq<State>, acts: seq<Action>)
    requires IsRun(states, acts)
    ensures |acts| <= 6 * |states[0].conductors| + 2
  {
    RankFalls(states, acts, |acts|);
    SumBound(states[0].conductors, Left, 6);
  }

  lemma {:induction false} RankFalls(states: seq<State>, acts: seq<Action>, i: nat)
    requires IsRun(states, acts) && i < |states|
    ensures Rank(states[i]) + i <= Rank(states[0])
  {
    if i > 0 {
      RankFalls(states, acts, i - 1);
      var s, a := states[i - 1], acts[i - 1];
      assert Next(s, a) == Some(states[i]);
      if a.ByConductor? {
        SumUpdate(s.conductors, a.who, states[i].conductors[a.who], Left);
      }
    }
  }

  /** No state is stuck before everybody is finished, and the way on needs no exception unless
      the process is already cleaning up. */
  lemma NoDeadlock(s: State)
    ensures Quiescent(s) || exists a: Action :: Next(s, a).Some? && a.event != Raise
  {
    if !Quiescent(s) {
      if s.upload.Casting? {
        assert Next(s, ByUpload(Return)).Some?;
      } else if s.upload.UploadReverting? {
        assert Next(s, ByUpload(RevertSave)).Some?;
      } else {
        var c :| 0 <= c < |s.conductors| && !Finished(s.conductors[c]);
        var e := match s.conductors[c]
          case Waiting => Increment
          case Loading => Decrement
          case Decremented => Reread
          case Onboarding => Save
          case Saved => Return
          case _ => RevertSave;
        assert Next(s, ByConductor(c, e)).Some?;
      }
    }
  }

  // ---------------------------------------------------------------- what the protocol does not give

  lemma {:induction false} LeftFalls(states: seq<State>, acts: seq<Action>, i: nat, j: nat, c: nat)
    requires IsRun(states, acts) && i <= j < |states| && c < |states[i].conductors|
    ensures |states[j].conductors| == |states[i].conductors|
    ensures Left(states[j].conductors[c]) <= Left(states[i].conductors[c])
  {
    if i < j {
      LeftFalls(states, acts, i, j - 1, c);
      var a := acts[j - 1];
      assert Next(states[j - 1], a) == Some(states[j]);
    }
  }

  /** In no run does a conductor start onboarding twice. */
  lemma StartersDiffer(states: seq<State>, acts: seq<Action>, i: nat, j: nat)
    requires IsRun(states, acts) && i < j < |acts|
    requires StartsOnboarding(states, acts, i) && StartsOnboarding(states, acts, j)
    ensures acts[i].who != acts[j].who
  {
    assert Next(states[j], acts[j]) == Some(states[j + 1]);
    LeftFalls(states, acts, i + 1, j, acts[i].who);
  }

  ghost predicate AtMostOneStart(states: seq<State>, acts: seq<Action>)
    requires IsRun(states, acts)
  {
    forall i, j :: 0 <= i < j < |acts| ==> !(StartsOnboarding(states, acts, i) && StartsOnboarding(states, acts, j))
  }

  /** Onboarding is at-most-once in every run exactly if there is a single conductor. */
  lemma AtMostOneStartIff(n: nat)
    requires n >= 1
    ensures (forall states: seq<State>, acts: seq<Action> ::
               IsRun(states, acts) && |states[0].conductors| == n ==> AtMostOneStart(states, acts))
            <==> n == 1
  {
    if n >= 2 {
      var states, acts := TwoConductorsCanBothOnboard(n);
      assert !AtMostOneStart(states, acts);
    } else {
      forall states: seq<State>, acts: seq<Action> | IsRun(states, acts) && |states[0].conductors| == n
        ensures AtMostOneStart(states, acts)
      {
        OneConductorStartsOnce(states, acts);
      }
    }
  }

  lemma OneConductorStartsOnce(states: seq<State>, acts: seq<Action>)
    requires IsRun(states, acts) && |states[0].conductors| == 1
    ensures AtMostOneStart(states, acts)
  {
    forall i, j | 0 <= i < j < |acts| && StartsOnboarding(states, acts, i) && StartsOnboarding(states, acts, j)
      ensures false
    {
      StartersDiffer(states, acts, i, j);
      RunInv(states, acts, i + 1);
      RunInv(states, acts, j + 1);
    }
  }

  /** With two conductors or more, two of them can both pass the unlocked test. */
  lemma TwoConductorsCanBothOnboard(n: nat) returns (states: seq<State>, acts: seq<Action>)
    requires n >= 2
    ensures IsRun(states, acts) && |states[0].conductors| == n
    ensures |acts| == 6 && StartsOnboarding(states, acts, 4) && StartsOnboarding(states, acts, 5)
    ensures acts[4] != acts[5]
  {
    var s0 := State(Row(0, Processing, Disabled), Casting, seq(n, _ => Waiting));
    var s1 := State(Row(1, Processing, Disabled), Casting, s0.conductors[0 := Loading]);
    var s2 := State(Row(2, Processing, Disabled), Casting, s1.conductors[1 := Loading]);
    var s3 := State(Row(1, Processing, Disabled), Casting, s2.conductors[0 := Decremented]);
    var s4 := State(Row(0, Processing, Disabled), Casting, s3.conductors[1 := Decremented]);
    var s5 := s4.(conductors := s4.conductors[0 := Onboarding]);
    var s6 := s5.(conductors := s5.conductors[1 := Onboarding]);
    states := [s0, s1, s2, s3, s4, s5, s6];
    acts := [ByConductor(0, Increment), ByConductor(1, Increment), ByConductor(0, Decrement),
             ByConductor(1, Decrement), ByConductor(0, Reread), ByConductor(1, Reread)];
  }

  /** The first conductor onboards before any other starts. */
  lemma FirstConductorOnboards(n: nat) returns (states: seq<State>, acts: seq<Action>)
    requires n >= 1
    ensures IsRun(states, acts) && |states[0].conductors| == n
    ensures |acts| == 4 && acts[3] == ByConductor(0, Save)
    ensures states[4] == State(Row(0, Onboarded, Enabled), Casting, seq(n, c => if c == 0 then Saved else Waiting))
  {
    var s0 := State(Row(0, Processing, Disabled), Casting, seq(n, _ => Waiting));
    var s1 := State(Row(1, Processing, Disabled), Casting, s0.conductors[0 := Loading]);
    var s2 := State(Row(0, Processing, Disabled), Casting, s1.conductors[0 := Decremented]);
    var s3 := State(Row(0, Processing, Disabled), Casting, s2.conductors[0 := Onboarding]);
    var s4 := State(Row(0, Onboarded, Enabled), Casting, s3.conductors[0 := Saved]);
    states := [s0, s1, s2, s3, s4];
    acts := [ByConductor(0, Increment), ByConductor(0, Decrement), ByConductor(0, Reread), ByConductor(0, Save)];
  }

  lemma RunSnoc(states: seq<State>, acts: seq<Action>, a: Action, t: State)
    requires IsRun(states, acts) && Next(states[|acts|], a) == Some(t)
    ensures IsRun(states + [t], acts + [a])
  {
  }

  /** However many conductors there are, one that fails late - the one that saved, if it is alone -
      takes the finished onboarding back: the row ends CREATED although still ENABLED. */
  lemma LateFailureUndoesOnboarding(n: nat) returns (states: seq<State>, acts: seq<Action>)
    requires n >= 1
    ensures IsRun(states, acts) && |states[0].conductors| == n
    ensures |acts| == 6 && acts[3] == ByConductor(0, Save) && states[4].row.onboarding == Onboarded
    ensures acts[5] == ByConductor(n - 1, RevertSave) && states[6].row == Row(0, Created, Enabled)
  {
    states, acts := FirstConductorOnboards(n);
    var s4 := states[4];
    var s5 := s4.(conductors := s4.conductors[n - 1 := Reverting(false)]);
    RunSnoc(states, acts, ByConductor(n - 1, Raise), s5);
    states, acts := states + [s5], acts + [ByConductor(n - 1, Raise)];
    var s6 := State(Row(0, Created, Enabled), Casting, s5.conductors[n - 1 := Failed(false, true)]);
    RunSnoc(states, acts, ByConductor(n - 1, RevertSave), s6);
    states, acts := states + [s6], acts + [ByConductor(n - 1, RevertSave)];
  }
}
