/**
 The registrations of one event occurrence: a capacity counter, current rows, and a
 retained transition log that must agree.

 Every operation but two locks the occurrence row, and is one step. Coordinator review and
 the locking of a region do not, so they also happen while a cancellation, which holds that
 row, is between reading the registrations it cancels and writing each of them.
 */
module Registrations {
  import opened Prelude

  datatype Status =
    Submitted | CoordinatorApproved | CoordinatorDeclined | Selected | Waitlisted | NotSelected | Withdrawn | Cancelled

  datatype OccurrenceStatus = Published | CalledOff | Completed | Archived

  datatype Mode = Required | RequiredRestricted | OpenEntry | PaidEntry

  datatype Policy = Policy(
    mode: Mode, automatic: bool, startsAt: nat, endsAt: nat,
    opensAt: Option<nat>, closesAt: Option<nat>, coordinatorLockAt: Option<nat>)

  datatype Round = Round(locked: bool, lockAt: nat)

  /** `round` is the region whose review the registration awaits, `exempt` an eligibility
      that staff granted against the domain restriction. */
  datatype Registration = Registration(
    user: nat, status: Status, region: Option<nat>, round: Option<nat>, priority: Option<nat>,
    reviewed: bool, finalDecided: bool, exempt: bool)

  datatype Move = Move(leaving: Option<nat>, entering: nat)

  datatype Transition = Transition(id: nat, before: Option<Status>, after: Status, move: Option<Move>, at: nat)

  /** What a cancellation read of a registration. */
  datatype Listing = Listing(id: nat, status: Status)

  /** Under way in one region, or everywhere; dated by a clock read before the listing. */
  datatype Cancellation = Cancellation(region: Option<nat>, at: nat, listed: Option<seq<Listing>>, next: nat)

  /** Registrations are numbered in the order they were made. `answered` are the users with
      a completed or waived questionnaire, `allowed` those of a permitted verified domain,
      and `attended` the registrations with an attendance state recorded. `locking` says that
      a cancellation locks the rows it lists; the server's does not. */
  datatype World = World(
    locking: bool,
    now: nat,
    policy: Policy,
    status: OccurrenceStatus,
    capacity: nat,
    confirmed: int,
    regions: set<nat>,
    retired: set<nat>,
    rounds: map<nat, Round>,
    registrations: seq<Registration>,
    participants: set<nat>,
    attended: set<nat>,
    answered: set<nat>,
    allowed: set<nat>,
    cancellation: Option<Cancellation>,
    log: seq<Transition>)

  datatype Step =
    | Advance(ticks: nat)
    | Answer(user: nat)
    | Submit(user: nat, choice: Option<nat>)
    | IssueConfirmed(user: nat)
    | AddByStaff(user: nat, choice: Option<nat>, override: bool)
    | Review(id: nat, approve: bool, priority: Option<nat>)
    | LockRegion(region: nat)
    | Decide(id: nat, decision: Status)
    | Reassign(id: nat, region: nat, confirmFinal: bool, confirmLocked: bool)
    | Withdraw(user: nat)
    | RetireRegion(region: nat)
    | ChangeCapacity(capacity: nat)
    | Close(target: OccurrenceStatus)
    | RecordAttendance(id: nat, recorded: bool)
    | OpenCancellation(scope: Option<nat>)
    | ListOpen
    | CancelNext
    | FinishCancellation

  // ----- rows and log -----

  predicate Registered(w: World, user: nat) {
    exists i :: 0 <= i < |w.registrations| && w.registrations[i].user == user
  }

  function IdOf(rs: seq<Registration>, user: nat): (i: nat)
    ensures i <= |rs| && (i < |rs| ==> rs[i].user == user)
    ensures i == |rs| ==> forall k :: 0 <= k < |rs| ==> rs[k].user != user
  {
    if rs == [] then 0
    else if rs[0].user == user then 0
    else 1 + IdOf(rs[1..], user)
  }

  function Made(w: World, r: Registration): World {
    var id := |w.registrations|;
    w.(registrations := w.registrations + [r],
       log := w.log + [Transition(id, None, r.status, None, w.now)],
       confirmed := w.confirmed + if r.status.Selected? then 1 else 0,
       participants := if r.status.Selected? then w.participants + {id} else w.participants)
  }

  /** Replaces a row and logs the change. */
  function Logged(w: World, id: nat, r: Registration, before: Status, move: Option<Move>, at: nat): World
    requires id < |w.registrations|
  {
    w.(registrations := w.registrations[id := r], log := w.log + [Transition(id, Some(before), r.status, move, at)])
  }

  function Changed(w: World, id: nat, r: Registration, move: Option<Move>): World
    requires id < |w.registrations|
  {
    Logged(w, id, r, w.registrations[id].status, move, w.now)
  }

  // ----- registering -----

  predicate ReviewClosed(w: World, region: nat) {
    region in w.rounds && (w.rounds[region].locked || w.rounds[region].lockAt <= w.now)
  }

  predicate NeedsReview(w: World, region: Option<nat>) {
    region.Some? && !w.policy.automatic && w.policy.coordinatorLockAt.Some?
  }

  predicate CanSubmit(w: World, user: nat, region: Option<nat>) {
    && user in w.answered
    && w.status.Published? && !w.policy.mode.OpenEntry? && !w.policy.mode.PaidEntry?
    && !Registered(w, user)
    && w.policy.opensAt.Some? && w.policy.closesAt.Some? && w.policy.opensAt.value <= w.now < w.policy.closesAt.value
    && (w.policy.mode.RequiredRestricted? ==> user in w.allowed)
    && (w.regions != {} ==> region.Some?)
    && (region.Some? ==> region.value in w.regions)
    && (NeedsReview(w, region) ==> w.policy.coordinatorLockAt.value > w.now && !ReviewClosed(w, region.value))
    && (w.policy.automatic ==> w.confirmed < w.capacity)
  }

  function WithRound(w: World, region: nat): map<nat, Round> {
    if region !in w.rounds && w.policy.coordinatorLockAt.Some? && w.policy.closesAt.Some?
    then w.rounds[region := Round(false, w.policy.coordinatorLockAt.value)] else w.rounds
  }

  function Submitting(w: World, user: nat, region: Option<nat>): World {
    var auto := w.policy.automatic;
    var review := NeedsReview(w, region);
    var w' := if review then w.(rounds := WithRound(w, region.value)) else w;
    Made(w', Registration(user, if auto then Selected else Submitted, region, if review then region else None,
                          None, false, auto, false))
  }

  // ----- final decisions -----

  datatype DecideOutcome =
    Updated | Unchanged | NotFound | InvalidTransition | FinalDecisionLocked | DomainOverrideRequired | CapacityFull

  predicate FinalDecision(d: Status) { d.Selected? || d.Waitlisted? || d.NotSelected? || d.Cancelled? }

  predicate Selectable(w: World, r: Registration) {
    if r.round.None? then r.status.Submitted? || r.status.Waitlisted? || r.status.NotSelected?
    else r.status.CoordinatorApproved? && ReviewClosed(w, r.round.value)
  }

  function DecideOutcomeOf(w: World, id: nat, decision: Status): DecideOutcome {
    if id >= |w.registrations| then NotFound
    else var r := w.registrations[id];
      if !w.status.Published? || !FinalDecision(decision) then InvalidTransition
      else if r.status == decision then Unchanged
      else if !decision.Cancelled? && r.user !in w.answered then InvalidTransition
      else if id in w.attended then FinalDecisionLocked
      else if decision.Selected? && !Selectable(w, r) then InvalidTransition
      else if decision.Selected? && w.policy.mode.RequiredRestricted? && !r.exempt && r.user !in w.allowed
      then DomainOverrideRequired
      else if decision.Selected? && w.confirmed >= w.capacity then CapacityFull
      else Updated
  }

  function Deciding(w: World, id: nat, decision: Status): World
    requires id < |w.registrations|
  {
    var r := w.registrations[id];
    var change := if decision.Selected? == r.status.Selected? then 0 else if decision.Selected? then 1 else -1;
    Changed(w, id, r.(status := decision, finalDecided := true), None)
      .(confirmed := w.confirmed + change,
        participants := if decision.Selected? then w.participants + {id} else w.participants)
  }

  // ----- regions -----

  datatype ReassignOutcome =
    Reassigned | Missing | NotReassignable | FinalizedConfirmationRequired | LockedDestinationConfirmationRequired

  predicate Finalized(r: Registration) {
    r.finalDecided || r.status.Selected? || r.status.Waitlisted? || r.status.NotSelected?
  }

  function ReassignOutcomeOf(w: World, id: nat, region: nat, confirmFinal: bool, confirmLocked: bool): ReassignOutcome {
    if id >= |w.registrations| || region !in w.regions then Missing
    else var r := w.registrations[id];
      if !w.status.Published? || r.region == Some(region) || r.status.Withdrawn? || r.status.Cancelled? then NotReassignable
      else if Finalized(r) && !confirmFinal then FinalizedConfirmationRequired
      else if !Finalized(r) && ReviewClosed(w.(rounds := WithRound(w, region)), region) && !confirmLocked
      then LockedDestinationConfirmationRequired
      else Reassigned
  }

  /** An unfinished review starts again in the new region, or is waived if that is locked. */
  function Reassigning(w: World, id: nat, region: nat): World
    requires id < |w.registrations|
  {
    var r := w.registrations[id];
    var w' := w.(rounds := WithRound(w, region));
    var waived := !Finalized(r) && ReviewClosed(w', region);
    var round := if waived || region !in w'.rounds then None else Some(region);
    Changed(w', id, r.(region := Some(region), round := round, priority := None, reviewed := false,
                       status := if Finalized(r) then r.status else Submitted),
            Some(Move(r.region, region)))
  }

  // ----- leaving -----

  predicate CanWithdraw(w: World, id: nat)
    requires id < |w.registrations|
  {
    var s := w.registrations[id].status;
    w.status.Published? && w.now < w.policy.endsAt && !s.Withdrawn? && !s.Cancelled? && !s.NotSelected?
  }

  function Withdrawing(w: World, id: nat): World
    requires id < |w.registrations|
  {
    var r := w.registrations[id];
    Changed(w, id, r.(status := Withdrawn, finalDecided := true), None)
      .(confirmed := if r.status.Selected? then Max(0, w.confirmed - 1) else w.confirmed)
  }

  /** In one region, or everywhere. */
  predicate InScope(r: Registration, region: Option<nat>) {
    !r.status.Cancelled? && !r.status.Withdrawn? && !r.status.NotSelected? && (region.Some? ==> r.region == region)
  }

  function CancelledRow(r: Registration): Registration {
    r.(status := Cancelled, finalDecided := true)
  }

  /** The registrations a cancellation has to cancel, in order, as they are now. */
  function OpenIn(rs: seq<Registration>, region: Option<nat>): seq<Listing> {
    if rs == [] then []
    else var n := |rs| - 1;
         OpenIn(rs[..n], region) + if InScope(rs[n], region) then [Listing(n, rs[n].status)] else []
  }

  function ListedSelected(listed: seq<Listing>): nat {
    if listed == [] then 0
    else ListedSelected(listed[..|listed| - 1]) + if listed[|listed| - 1].status.Selected? then 1 else 0
  }

  function SelectedCount(rs: seq<Registration>): nat {
    if rs == [] then 0 else SelectedCount(rs[..|rs| - 1]) + if rs[|rs| - 1].status.Selected? then 1 else 0
  }

  function SelectedIn(rs: seq<Registration>, region: Option<nat>): nat {
    if rs == [] then 0
    else var last := rs[|rs| - 1];
         SelectedIn(rs[..|rs| - 1], region) + if last.status.Selected? && InScope(last, region) then 1 else 0
  }

  predicate Listed(w: World) {
    w.cancellation.Some? && w.cancellation.value.listed.Some?
  }

  /** The registrations a cancellation has listed and not written yet. */
  function Unwritten(w: World): seq<Listing> {
    if Listed(w) && w.cancellation.value.next <= |w.cancellation.value.listed.value|
    then w.cancellation.value.listed.value[w.cancellation.value.next..] else []
  }

  predicate Held(w: World, id: nat) {
    w.locking && exists l :: l in Unwritten(w) && l.id == id
  }

  function Opened(w: World, region: Option<nat>): World {
    if w.status.Published? && (region.Some? ==> region.value in w.regions)
    then w.(cancellation := Some(Cancellation(region, w.now, None, 0))) else w
  }

  /** The entry starts from the status that was listed, whatever the row has become. */
  function CancellingNext(w: World): World
    requires Unwritten(w) != [] && Unwritten(w)[0].id < |w.registrations|
  {
    var c, l := w.cancellation.value, Unwritten(w)[0];
    Logged(w, l.id, CancelledRow(w.registrations[l.id]), l.status, None, c.at)
      .(cancellation := Some(c.(next := c.next + 1)))
  }

  /** The count falls by the selected registrations listed, or to zero. */
  function Finishing(w: World): World
    requires Listed(w)
  {
    var c := w.cancellation.value;
    if c.region.None? then w.(confirmed := 0, status := CalledOff, cancellation := None)
    else Retiring(w, c.region.value).(confirmed := w.confirmed - ListedSelected(c.listed.value), cancellation := None)
  }

  function Retiring(w: World, region: nat): World {
    w.(regions := w.regions - {region}, retired := w.retired + {region})
  }

  // ----- the machine -----

  /** Steps that wait for the occurrence row while a cancellation holds it. */
  predicate NeedsOccurrence(s: Step) {
    !s.Advance? && !s.Answer? && !s.Review? && !s.LockRegion? && !s.ListOpen? && !s.CancelNext? && !s.FinishCancellation?
  }

  function Next(w: World, s: Step): World {
    if w.cancellation.Some? && NeedsOccurrence(s) then w
    else if s.OpenCancellation? || s.ListOpen? || s.CancelNext? || s.FinishCancellation? then Cancelling(w, s)
    else Perform(w, s)
  }

  function Cancelling(w: World, s: Step): World
    requires s.OpenCancellation? || s.ListOpen? || s.CancelNext? || s.FinishCancellation?
  {
    match s
    case OpenCancellation(region) => Opened(w, region)
    case ListOpen =>
      if w.cancellation.None? || Listed(w) then w
      else var c := w.cancellation.value;
           w.(cancellation := Some(c.(listed := Some(OpenIn(w.registrations, c.region)))))
    case CancelNext => if Unwritten(w) != [] && Unwritten(w)[0].id < |w.registrations| then CancellingNext(w) else w
    case FinishCancellation => if Listed(w) && Unwritten(w) == [] then Finishing(w) else w
  }

  /** A step that is refused leaves the world as it is, but for the review round that a
      reassignment opens before asking for confirmation. */
  function Perform(w: World, s: Step): World
    requires !s.OpenCancellation? && !s.ListOpen? && !s.CancelNext? && !s.FinishCancellation?
  {
    match s
    case Advance(ticks) => w.(now := w.now + ticks)
    case Answer(user) => w.(answered := w.answered + {user})
    case Submit(user, region) => if CanSubmit(w, user, region) then Submitting(w, user, region) else w
    case IssueConfirmed(user) =>
      if w.status.Published? && w.now < w.policy.startsAt && !Registered(w, user) && w.confirmed < w.capacity
      then Made(w, Registration(user, Selected, None, None, None, false, true, false)) else w
    case AddByStaff(user, region, override) =>
      var restricted := w.policy.mode.RequiredRestricted? && user !in w.allowed;
      if w.status.Published? && !w.policy.mode.OpenEntry? && !Registered(w, user) && (restricted ==> override)
         && (region.Some? ==> region.value in w.regions)
      then Made(w, Registration(user, Submitted, region, None, None, false, false, restricted)) else w
    case Review(id, approve, priority) =>
      if id < |w.registrations| && CanReview(w, w.registrations[id]) && !Held(w, id)
      then Changed(w, id, w.registrations[id].(status := if approve then CoordinatorApproved else CoordinatorDeclined,
                                               priority := if approve then priority else None, reviewed := true), None)
      else w
    case LockRegion(region) =>
      if region in w.regions + w.retired && region in WithRound(w, region)
      then w.(rounds := WithRound(w, region)[region := WithRound(w, region)[region].(locked := true)]) else w
    case Decide(id, decision) => if DecideOutcomeOf(w, id, decision) == Updated then Deciding(w, id, decision) else w
    case Reassign(id, region, confirmFinal, confirmLocked) =>
      var outcome := ReassignOutcomeOf(w, id, region, confirmFinal, confirmLocked);
      if outcome.Reassigned? then Reassigning(w, id, region)
      else if outcome.LockedDestinationConfirmationRequired? then w.(rounds := WithRound(w, region))
      else w
    case Withdraw(user) =>
      var id := IdOf(w.registrations, user);
      if id < |w.registrations| && CanWithdraw(w, id) then Withdrawing(w, id) else w
    case RetireRegion(region) => if w.status.Published? && region in w.regions then Retiring(w, region) else w
    case ChangeCapacity(capacity) =>
      if w.status.Published? && capacity > 0 && w.confirmed <= capacity then w.(capacity := capacity) else w
    case Close(target) =>
      if (target.Completed? && w.status.Published?) || (target.Archived? && (w.status.CalledOff? || w.status.Completed?))
      then w.(status := target) else w
    case RecordAttendance(id, recorded) =>
      if id < |w.registrations| && id in w.participants && w.registrations[id].status.Selected?
      then w.(attended := if recorded then w.attended + {id} else w.attended - {id}) else w
  }

  predicate CanReview(w: World, r: Registration) {
    && r.user in w.answered && r.region.Some? && r.round.Some? && r.round.value in w.rounds
    && !ReviewClosed(w, r.round.value)
    && (r.status.Submitted? || r.status.CoordinatorApproved? || r.status.CoordinatorDeclined?)
  }

  datatype ReviewOutcome = Reviewed | UnknownRegistration | NotReviewable | RegionLocked

  /** A review does not look at the occurrence. */
  function ReviewOutcomeOf(w: World, id: nat): (outcome: ReviewOutcome)
    ensures outcome.Reviewed? <==> id < |w.registrations| && CanReview(w, w.registrations[id])
  {
    if id >= |w.registrations| then UnknownRegistration
    else var r := w.registrations[id];
      if r.user !in w.answered || r.region.None? || r.round.None? || r.round.value !in w.rounds then NotReviewable
      else if ReviewClosed(w, r.round.value) then RegionLocked
      else if r.status.Submitted? || r.status.CoordinatorApproved? || r.status.CoordinatorDeclined? then Reviewed
      else NotReviewable
  }

  function Run(w: World, steps: seq<Step>): World
    decreases |steps|
  {
    if steps == [] then w else Run(Next(w, steps[0]), steps[1..])
  }

  predicate Opening(w: World) {
    w.registrations == [] && w.log == [] && w.confirmed == 0 && w.attended == {} && w.participants == {} && w.status.Published?
    && w.cancellation.None?
  }

  // ----- replaying the log -----

  function StatusAfter(log: seq<Transition>, id: nat): Option<Status> {
    if log == [] then None
    else var last := log[|log| - 1];
         if last.id == id then Some(last.after) else StatusAfter(log[..|log| - 1], id)
  }

  /** The region an entry last moved the registration to, if any has. */
  function RegionAfter(log: seq<Transition>, id: nat): Option<nat> {
    if log == [] then None
    else var last := log[|log| - 1];
         if last.id == id && last.move.Some? then Some(last.move.value.entering) else RegionAfter(log[..|log| - 1], id)
  }

  function LastAt(log: seq<Transition>, id: nat): nat {
    if log == [] then 0
    else var last := log[|log| - 1]; if last.id == id then last.at else LastAt(log[..|log| - 1], id)
  }

  /** An entry starts where the registration's last entry ended. */
  predicate Continues(log: seq<Transition>, t: Transition) {
    && t.before == StatusAfter(log, t.id)
    && (t.move.Some? && RegionAfter(log, t.id).Some? ==> t.move.value.leaving == RegionAfter(log, t.id))
    && (t.move.Some? ==> t.move.value.leaving != Some(t.move.value.entering))
  }

  predicate Chained(log: seq<Transition>) {
    log == [] || (Chained(log[..|log| - 1]) && Continues(log[..|log| - 1], log[|log| - 1]))
  }

  /** No entry is dated before the registration's previous one, so that reading the log by
      time and reading it as written are the same. */
  predicate InOrder(log: seq<Transition>) {
    log == []
    || (InOrder(log[..|log| - 1]) && LastAt(log[..|log| - 1], log[|log| - 1].id) <= log[|log| - 1].at)
  }

  /** The log, replayed, gives the current row. */
  predicate Replays(log: seq<Transition>, id: nat, r: Registration) {
    StatusAfter(log, id) == Some(r.status) && (RegionAfter(log, id).Some? ==> r.region == RegionAfter(log, id))
  }

  ghost predicate LogInv(w: World) {
    && (forall id :: 0 <= id < |w.registrations| ==> Replays(w.log, id, w.registrations[id]))
    && (forall id: nat :: id >= |w.registrations| ==> StatusAfter(w.log, id).None? && RegionAfter(w.log, id).None?)
    && (forall id: nat :: LastAt(w.log, id) <= w.now)
  }

  lemma Appended(log: seq<Transition>, t: Transition)
    ensures forall id: nat :: StatusAfter(log + [t], id) == if t.id == id then Some(t.after) else StatusAfter(log, id)
    ensures forall id: nat :: RegionAfter(log + [t], id)
                              == if t.id == id && t.move.Some? then Some(t.move.value.entering) else RegionAfter(log, id)
    ensures forall id: nat :: LastAt(log + [t], id) == if t.id == id then t.at else LastAt(log, id)
    ensures Chained(log + [t]) <==> Chained(log) && Continues(log, t)
    ensures InOrder(log + [t]) <==> InOrder(log) && LastAt(log, t.id) <= t.at
  {
    assert (log + [t])[..|log|] == log;
  }

  // ----- what a cancellation has listed -----

  /** The listing is of this occurrence's rows, each once, and tells which are selected; the
      registrations in scope that are left open are all among the unwritten. */
  ghost predicate CancelInv(w: World) {
    && (w.cancellation.Some? ==> w.status.Published? && w.cancellation.value.at <= w.now)
    && (w.cancellation.Some? && w.cancellation.value.listed.None? ==> w.cancellation.value.next == 0)
    && (Listed(w) ==> w.cancellation.value.next <= |w.cancellation.value.listed.value|
                      && ListingOk(w.registrations, w.cancellation.value.region, Unwritten(w)))
  }

  ghost predicate ListingOk(rs: seq<Registration>, region: Option<nat>, unwritten: seq<Listing>) {
    && (forall j :: 0 <= j < |unwritten| ==>
          unwritten[j].id < |rs| && (unwritten[j].status.Selected? <==> rs[unwritten[j].id].status.Selected?))
    && (forall i, j :: 0 <= i < j < |unwritten| ==> unwritten[i].id != unwritten[j].id)
    && (forall id :: 0 <= id < |rs| && InScope(rs[id], region) ==> Lists(unwritten, id))
  }

  predicate Lists(listed: seq<Listing>, id: nat) {
    exists j :: 0 <= j < |listed| && listed[j].id == id
  }

  predicate Accurate(l: Listing, rs: seq<Registration>) {
    l.id < |rs| && l.status == rs[l.id].status
  }

  lemma {:induction false} ListedAreOpen(rs: seq<Registration>, region: Option<nat>)
    ensures forall j :: 0 <= j < |OpenIn(rs, region)| ==>
      Accurate(OpenIn(rs, region)[j], rs) && InScope(rs[OpenIn(rs, region)[j].id], region)
    ensures forall i, j :: 0 <= i < j < |OpenIn(rs, region)| ==> OpenIn(rs, region)[i].id < OpenIn(rs, region)[j].id
  {
    if rs != [] {
      var n := |rs| - 1;
      var init, listed := OpenIn(rs[..n], region), OpenIn(rs, region);
      ListedAreOpen(rs[..n], region);
      forall j | 0 <= j < |listed| ensures Accurate(listed[j], rs) && InScope(rs[listed[j].id], region) {
        if j < |init| { assert listed[j] == init[j] && Accurate(init[j], rs[..n]); }
      }
      forall i, j | 0 <= i < j < |listed| ensures listed[i].id < listed[j].id {
        assert listed[i] == init[i] && Accurate(init[i], rs[..n]);
      }
    }
  }

  lemma {:induction false} OpenAreListed(rs: seq<Registration>, region: Option<nat>, id: nat)
    requires id < |rs| && InScope(rs[id], region)
    ensures Lists(OpenIn(rs, region), id)
  {
    var n := |rs| - 1;
    var init, listed := OpenIn(rs[..n], region), OpenIn(rs, region);
    if id < n {
      OpenAreListed(rs[..n], region, id);
      var j :| 0 <= j < |init| && init[j].id == id;
      assert listed[j].id == id;
    } else {
      assert listed[|init|].id == id;
    }
  }

  /** A cancellation lists exactly the open registrations in scope, as they are, each once. */
  lemma ListingIsExact(rs: seq<Registration>, region: Option<nat>, id: nat)
    requires id < |rs|
    ensures Lists(OpenIn(rs, region), id) <==> InScope(rs[id], region)
    ensures ListingOk(rs, region, OpenIn(rs, region))
  {
    ListedAreOpen(rs, region);
    forall k | 0 <= k < |rs| && InScope(rs[k], region) ensures Lists(OpenIn(rs, region), k) {
      OpenAreListed(rs, region, k);
    }
  }

  /** The selected registrations listed are those in scope. */
  lemma {:induction false} ReleasedAreCounted(rs: seq<Registration>, region: Option<nat>)
    ensures ListedSelected(OpenIn(rs, region)) == SelectedIn(rs, region)
  {
    if rs != [] {
      var n := |rs| - 1;
      ReleasedAreCounted(rs[..n], region);
      var init, listed := OpenIn(rs[..n], region), OpenIn(rs, region);
      if listed != init { assert listed[..|listed| - 1] == init; }
    }
  }

  // ----- the count -----

  function WrittenSelected(w: World): nat {
    if Listed(w) && w.cancellation.value.next <= |w.cancellation.value.listed.value|
    then ListedSelected(w.cancellation.value.listed.value[..w.cancellation.value.next]) else 0
  }

  /** While a cancellation is under way, the count still has the places it has taken back. */
  ghost predicate CountInv(w: World) {
    w.confirmed == SelectedCount(w.registrations) + WrittenSelected(w) && w.confirmed <= w.capacity
  }

  ghost predicate Inv(w: World) { LogInv(w) && CancelInv(w) && CountInv(w) }

  lemma {:induction false} CountUpdated(rs: seq<Registration>, id: nat, r: Registration)
    requires id < |rs|
    ensures SelectedCount(rs[id := r]) + (if rs[id].status.Selected? then 1 else 0)
            == SelectedCount(rs) + if r.status.Selected? then 1 else 0
  {
    var n := |rs| - 1;
    if id < n {
      CountUpdated(rs[..n], id, r);
      assert rs[id := r][..n] == rs[..n][id := r];
    } else {
      assert rs[id := r][..n] == rs[..n];
    }
  }

  lemma {:induction false} NobodyIsCounted(rs: seq<Registration>)
    requires forall j :: 0 <= j < |rs| ==> !rs[j].status.Selected?
    ensures SelectedCount(rs) == 0
  {
    if rs != [] { NobodyIsCounted(rs[..|rs| - 1]); }
  }

  // ----- every step keeps counter and log -----

  lemma MadeKeeps(w: World, r: Registration)
    requires Inv(w) && w.cancellation.None? && (r.status.Selected? ==> w.confirmed < w.capacity)
    ensures Inv(Made(w, r))
  {
    Appended(w.log, Transition(|w.registrations|, None, r.status, None, w.now));
    assert (w.registrations + [r])[..|w.registrations|] == w.registrations;
  }

  lemma LoggedKeepsLog(w: World, id: nat, r: Registration, before: Status, move: Option<Move>, at: nat)
    requires LogInv(w) && id < |w.registrations| && at <= w.now
    requires r.region == if move.Some? then Some(move.value.entering) else w.registrations[id].region
    ensures LogInv(Logged(w, id, r, before, move, at))
  {
    assert Replays(w.log, id, w.registrations[id]);
    Appended(w.log, Transition(id, Some(before), r.status, move, at));
  }

  lemma RegisteringKeeps(w: World, s: Step)
    requires Inv(w) && (s.Submit? || s.IssueConfirmed? || s.AddByStaff?)
    ensures Inv(Next(w, s))
  {
    var w' := Next(w, s);
    if w' != w {
      var r := w'.registrations[|w.registrations|];
      assert w' == Made(w.(rounds := w'.rounds), r);
      MadeKeeps(w.(rounds := w'.rounds), r);
    }
  }

  predicate Reviews(w: World, s: Step) {
    s.Review? && s.id < |w.registrations| && CanReview(w, w.registrations[s.id]) && !Held(w, s.id)
  }

  lemma ReviewKeeps(w: World, s: Step)
    requires Inv(w) && Reviews(w, s)
    ensures Inv(Next(w, s))
  {
    var r := Next(w, s).registrations[s.id];
    LoggedKeepsLog(w, s.id, r, w.registrations[s.id].status, None, w.now);
    CountUpdated(w.registrations, s.id, r);
    ReviewKeepsListing(w, s);
  }

  lemma ReviewKeepsListing(w: World, s: Step)
    requires CancelInv(w) && Reviews(w, s)
    ensures CancelInv(Next(w, s))
  {
  }

  lemma DecideKeeps(w: World, id: nat, decision: Status)
    requires Inv(w)
    ensures Inv(Next(w, Decide(id, decision)))
  {
    if w.cancellation.None? && DecideOutcomeOf(w, id, decision) == Updated {
      var r := w.registrations[id].(status := decision, finalDecided := true);
      LoggedKeepsLog(w, id, r, w.registrations[id].status, None, w.now);
      CountUpdated(w.registrations, id, r);
    }
  }

  lemma ReassignKeeps(w: World, s: Step)
    requires Inv(w) && s.Reassign?
    ensures Inv(Next(w, s))
  {
    var w' := Next(w, s);
    if w'.registrations != w.registrations {
      var r := w.registrations[s.id];
      LoggedKeepsLog(w.(rounds := w'.rounds), s.id, w'.registrations[s.id], r.status, Some(Move(r.region, s.region)), w.now);
      CountUpdated(w.registrations, s.id, w'.registrations[s.id]);
    }
  }

  lemma WithdrawKeeps(w: World, user: nat)
    requires Inv(w)
    ensures Inv(Next(w, Withdraw(user)))
  {
    var id := IdOf(w.registrations, user);
    if w.cancellation.None? && id < |w.registrations| && CanWithdraw(w, id) {
      var r := w.registrations[id].(status := Withdrawn, finalDecided := true);
      LoggedKeepsLog(w, id, r, w.registrations[id].status, None, w.now);
      CountUpdated(w.registrations, id, r);
    }
  }

  lemma ListKeeps(w: World)
    requires Inv(w)
    ensures Inv(Next(w, ListOpen))
  {
    if w.cancellation.Some? && !Listed(w) {
      var listed := OpenIn(w.registrations, w.cancellation.value.region);
      assert listed[0..] == listed && listed[..0] == [];
      assert Unwritten(Next(w, ListOpen)) == listed;
      if w.registrations != [] {
        ListingIsExact(w.registrations, w.cancellation.value.region, 0);
      }
    }
  }

  lemma CancelNextKeepsCount(w: World)
    requires CancelInv(w) && CountInv(w) && Unwritten(w) != []
    ensures CountInv(Next(w, CancelNext))
  {
    var c, l := w.cancellation.value, Unwritten(w)[0];
    CountUpdated(w.registrations, l.id, CancelledRow(w.registrations[l.id]));
    var listed := c.listed.value;
    assert listed[..c.next + 1][..c.next] == listed[..c.next];
    assert l == listed[c.next];
  }

  lemma CancelNextKeepsListing(w: World)
    requires CancelInv(w) && Unwritten(w) != []
    ensures CancelInv(Next(w, CancelNext))
  {
    var w' := Next(w, CancelNext);
    var u, u' := Unwritten(w), Unwritten(w');
    assert u' == u[1..];
    forall id | 0 <= id < |w'.registrations| && InScope(w'.registrations[id], w.cancellation.value.region)
      ensures Lists(u', id)
    {
      assert id != u[0].id && w'.registrations[id] == w.registrations[id];
      assert Lists(u, id);
      var j :| 0 <= j < |u| && u[j].id == id;
      assert u'[j - 1].id == id;
    }
  }

  lemma CancelNextKeeps(w: World)
    requires Inv(w)
    ensures Inv(Next(w, CancelNext))
  {
    if Unwritten(w) != [] {
      var l := Unwritten(w)[0];
      LoggedKeepsLog(w, l.id, CancelledRow(w.registrations[l.id]), l.status, None, w.cancellation.value.at);
      CancelNextKeepsCount(w);
      CancelNextKeepsListing(w);
    }
  }

  lemma FinishKeeps(w: World)
    requires Inv(w)
    ensures Inv(Next(w, FinishCancellation))
  {
    if Listed(w) && Unwritten(w) == [] {
      var c := w.cancellation.value;
      assert c.listed.value[..c.next] == c.listed.value;
      if c.region.None? {
        assert forall id :: 0 <= id < |w.registrations| && w.registrations[id].status.Selected?
                            ==> InScope(w.registrations[id], None);
        NobodyIsCounted(w.registrations);
      }
    }
  }

  lemma NextKeeps(w: World, s: Step)
    requires Inv(w)
    ensures Inv(Next(w, s))
  {
    match s
    case Submit(_, _) => RegisteringKeeps(w, s);
    case IssueConfirmed(_) => RegisteringKeeps(w, s);
    case AddByStaff(_, _, _) => RegisteringKeeps(w, s);
    case Review(_, _, _) => if Reviews(w, s) { ReviewKeeps(w, s); }
    case Decide(id, decision) => DecideKeeps(w, id, decision);
    case Reassign(_, _, _, _) => ReassignKeeps(w, s);
    case Withdraw(user) => WithdrawKeeps(w, user);
    case ListOpen => ListKeeps(w);
    case CancelNext => CancelNextKeeps(w);
    case FinishCancellation => FinishKeeps(w);
    case _ =>
  }

  lemma {:induction false} RunKeeps(w: World, steps: seq<Step>)
    requires Inv(w)
    ensures Inv(Run(w, steps))
    decreases |steps|
  {
    if steps != [] {
      NextKeeps(w, steps[0]);
      RunKeeps(Next(w, steps[0]), steps[1..]);
    }
  }

  // ----- results over whole runs -----

  /** In every run the confirmed count never exceeds the capacity, and outside a cancellation
      it is the number of selected registrations. */
  lemma ConfirmedIsSelected(w: World, steps: seq<Step>)
    requires Opening(w)
    ensures var end := Run(w, steps);
      && end.confirmed <= end.capacity
      && (end.cancellation.None? ==> end.confirmed == SelectedCount(end.registrations))
  {
    RunKeeps(w, steps);
  }

  /** In every run replaying the log gives every registration's current status, and its region
      if it was ever moved. */
  lemma LogReplaysToRows(w: World, steps: seq<Step>, id: nat)
    requires Opening(w) && id < |Run(w, steps).registrations|
    ensures Replays(Run(w, steps).log, id, Run(w, steps).registrations[id])
  {
    RunKeeps(w, steps);
  }

  /** The write of a cancellation that finds the row reviewed to another status since it was
      listed. */
  predicate Overtaken(w: World, s: Step) {
    s.CancelNext? && Unwritten(w) != [] && !Accurate(Unwritten(w)[0], w.registrations)
  }

  /** The write of a cancellation dated before the row's last entry. */
  predicate Antedated(w: World, s: Step) {
    s.CancelNext? && Unwritten(w) != [] && w.cancellation.value.at < LastAt(w.log, Unwritten(w)[0].id)
  }

  predicate EverOvertaken(w: World, steps: seq<Step>)
    decreases |steps|
  {
    steps != [] && (Overtaken(w, steps[0]) || EverOvertaken(Next(w, steps[0]), steps[1..]))
  }

  predicate EverAntedated(w: World, steps: seq<Step>)
    decreases |steps|
  {
    steps != [] && (Antedated(w, steps[0]) || EverAntedated(Next(w, steps[0]), steps[1..]))
  }

  lemma NextChains(w: World, s: Step)
    requires Inv(w)
    ensures Chained(Next(w, s).log) <==> Chained(w.log) && !Overtaken(w, s)
    ensures InOrder(Next(w, s).log) <==> InOrder(w.log) && !Antedated(w, s)
  {
    var w' := Next(w, s);
    if w'.log != w.log {
      NewEntry(w, s);
      Appended(w.log, w'.log[|w.log|]);
    }
  }

  /** A step writes one entry at most, and only the write of a cancellation may start it
      elsewhere than where the registration's last one ended, or date it earlier. */
  lemma NewEntry(w: World, s: Step)
    requires Inv(w) && Next(w, s).log != w.log
    ensures |Next(w, s).log| == |w.log| + 1 && Next(w, s).log[..|w.log|] == w.log
    ensures Next(w, s).log == w.log + [Next(w, s).log[|w.log|]]
    ensures var t := Next(w, s).log[|w.log|];
      && (Continues(w.log, t) <==> !Overtaken(w, s))
      && (LastAt(w.log, t.id) <= t.at <==> !Antedated(w, s))
  {
    if s.CancelNext? { CancelEntry(w); } else { OwnEntry(w, s); }
  }

  lemma CancelEntry(w: World)
    requires Inv(w) && Unwritten(w) != []
    ensures var t := Next(w, CancelNext).log[|w.log|];
      && Next(w, CancelNext).log == w.log + [t]
      && (Continues(w.log, t) <==> !Overtaken(w, CancelNext))
      && (LastAt(w.log, t.id) <= t.at <==> !Antedated(w, CancelNext))
  {
    assert Replays(w.log, Unwritten(w)[0].id, w.registrations[Unwritten(w)[0].id]);
  }

  lemma OwnEntry(w: World, s: Step)
    requires Inv(w) && Next(w, s).log != w.log && !s.CancelNext?
    ensures var t := Next(w, s).log[|w.log|];
      Next(w, s).log == w.log + [t] && Continues(w.log, t) && LastAt(w.log, t.id) <= t.at
  {
    if s.Review? || s.Decide? || s.Reassign? {
      assert Replays(w.log, s.id, w.registrations[s.id]);
    } else if s.Withdraw? {
      var id := IdOf(w.registrations, s.user);
      assert Replays(w.log, id, w.registrations[id]);
    }
  }

  lemma {:induction false} RunChains(w: World, steps: seq<Step>)
    requires Inv(w)
    ensures Chained(Run(w, steps).log) <==> Chained(w.log) && !EverOvertaken(w, steps)
    ensures InOrder(Run(w, steps).log) <==> InOrder(w.log) && !EverAntedated(w, steps)
    decreases |steps|
  {
    if steps != [] {
      NextChains(w, steps[0]);
      NextKeeps(w, steps[0]);
      RunChains(Next(w, steps[0]), steps[1..]);
    }
  }

  /** A review that commits while a cancellation is under way, later than its date. */
  predicate LateReview(w: World, s: Step) {
    Reviews(w, s) && w.cancellation.Some? && w.cancellation.value.at < w.now
  }

  predicate WritesRow(w: World, s: Step, id: nat) {
    s.CancelNext? && Unwritten(w) != [] && Unwritten(w)[0].id == id
  }

  /** The cancellation under way comes to write the row. */
  predicate WillWrite(w: World, steps: seq<Step>, id: nat)
    decreases |steps|
  {
    steps != [] && w.cancellation.Some? && (WritesRow(w, steps[0], id) || WillWrite(Next(w, steps[0]), steps[1..], id))
  }

  /** Some row is reviewed later than the date of the cancellation that comes to write it. */
  predicate ReviewedLate(w: World, steps: seq<Step>)
    decreases |steps|
  {
    steps != []
    && ((LateReview(w, steps[0]) && WillWrite(Next(w, steps[0]), steps[1..], steps[0].id))
        || ReviewedLate(Next(w, steps[0]), steps[1..]))
  }

  /** The row's last entry is later than the date of the cancellation under way. */
  predicate Late(w: World, id: nat) {
    w.cancellation.Some? && w.cancellation.value.at < LastAt(w.log, id)
  }

  /** Only a review of the row, later than the date of the cancellation, makes it so; the
      cancellation's own write ends it. */
  lemma OnlyReviewAntedates(w: World, s: Step, id: nat)
    requires Inv(w)
    ensures Late(Next(w, s), id)
      <==> Next(w, s).cancellation.Some?
           && ((LateReview(w, s) && s.id == id) || (Late(w, id) && !WritesRow(w, s, id)))
  {
    if s.CancelNext? {
      if Unwritten(w) != [] { WriteEndsLateness(w, id); }
    } else if Reviews(w, s) {
      ReviewDates(w, s, id);
    } else {
      NothingElseDates(w, s, id);
    }
  }

  lemma NothingElseDates(w: World, s: Step, id: nat)
    requires Inv(w) && !Reviews(w, s) && !s.CancelNext?
    ensures Late(Next(w, s), id) <==> Next(w, s).cancellation.Some? && Late(w, id)
  {
    assert LastAt(w.log, id) <= w.now;
    if w.cancellation.Some? { assert Next(w, s).log == w.log; }
  }

  lemma WriteEndsLateness(w: World, id: nat)
    requires Inv(w) && Unwritten(w) != []
    ensures Late(Next(w, CancelNext), id) <==> Late(w, id) && id != Unwritten(w)[0].id
  {
    CancelEntry(w);
    Appended(w.log, Next(w, CancelNext).log[|w.log|]);
  }

  lemma ReviewDates(w: World, s: Step, id: nat)
    requires Inv(w) && Reviews(w, s)
    ensures Late(Next(w, s), id) <==> (LateReview(w, s) && s.id == id) || Late(w, id)
  {
    Appended(w.log, Next(w, s).log[|w.log|]);
  }

  ghost predicate LateWrite(w: World, steps: seq<Step>) {
    exists id: nat :: Late(w, id) && WillWrite(w, steps, id)
  }

  lemma LateWriteNext(w: World, steps: seq<Step>)
    requires Inv(w) && steps != []
    ensures var w', rest := Next(w, steps[0]), steps[1..];
      Antedated(w, steps[0]) || LateWrite(w', rest)
      <==> LateWrite(w, steps) || (LateReview(w, steps[0]) && WillWrite(w', rest, steps[0].id))
  {
    var s, w', rest := steps[0], Next(w, steps[0]), steps[1..];
    if Antedated(w, s) {
      assert WillWrite(w, steps, Unwritten(w)[0].id);
    }
    if id: nat :| Late(w', id) && WillWrite(w', rest, id) {
      OnlyReviewAntedates(w, s, id);
      assert Late(w, id) ==> WillWrite(w, steps, id);
    }
    if id: nat :| Late(w, id) && WillWrite(w, steps, id) {
      OnlyReviewAntedates(w, s, id);
      if !WritesRow(w, s, id) { assert WillWrite(w', rest, id); }
    }
    if LateReview(w, s) && WillWrite(w', rest, s.id) {
      OnlyReviewAntedates(w, s, s.id);
    }
  }

  lemma {:induction false} AntedatedIffReviewedLate(w: World, steps: seq<Step>)
    requires Inv(w)
    ensures EverAntedated(w, steps) <==> ReviewedLate(w, steps) || LateWrite(w, steps)
    decreases |steps|
  {
    if steps != [] {
      NextKeeps(w, steps[0]);
      LateWriteNext(w, steps);
      AntedatedIffReviewedLate(Next(w, steps[0]), steps[1..]);
    }
  }

  /** In a run each entry of the log starts where the registration's last one ended exactly
      when no cancellation writes a row that was reviewed to another status since its listing,
      and each is dated no earlier exactly when no row is reviewed, while a cancellation that
      comes to write it is under way, later than that cancellation's date. */
  lemma LogChainsIffNotOvertaken(w: World, steps: seq<Step>)
    requires Opening(w)
    ensures Chained(Run(w, steps).log) <==> !EverOvertaken(w, steps)
    ensures InOrder(Run(w, steps).log) <==> !ReviewedLate(w, steps)
  {
    RunChains(w, steps);
    AntedatedIffReviewedLate(w, steps);
  }

  // ----- only a review overtakes a cancellation -----

  /** A listed registration stays as listed while no review of it commits. */
  lemma OnlyReviewOvertakes(w: World, s: Step, l: Listing)
    requires CancelInv(w) && l in Unwritten(w) && l in Unwritten(Next(w, s)) && Accurate(l, w.registrations)
    requires !(Reviews(w, s) && s.id == l.id)
    ensures Accurate(l, Next(w, s).registrations)
  {
    if s.CancelNext? {
      WriteKeepsOthers(w, l);
    } else {
      assert Next(w, s).registrations == w.registrations || s.Review?;
    }
  }

  lemma WriteKeepsOthers(w: World, l: Listing)
    requires CancelInv(w) && Unwritten(w) != [] && l in Unwritten(Next(w, CancelNext)) && Accurate(l, w.registrations)
    ensures Accurate(l, Next(w, CancelNext).registrations)
  {
    var u := Unwritten(w);
    assert Unwritten(Next(w, CancelNext)) == u[1..];
    var j :| 0 <= j < |u[1..]| && u[1..][j] == l;
    assert u[j + 1].id != u[0].id;
  }

  ghost predicate AllAccurate(w: World) {
    forall l :: l in Unwritten(w) ==> Accurate(l, w.registrations)
  }

  lemma ListingIsAccurate(w: World)
    requires w.cancellation.Some? && !Listed(w) && w.cancellation.value.next == 0
    ensures AllAccurate(Next(w, ListOpen))
  {
    var listed := OpenIn(w.registrations, w.cancellation.value.region);
    ListedAreOpen(w.registrations, w.cancellation.value.region);
    assert Unwritten(Next(w, ListOpen)) == listed[0..] == listed;
  }

  lemma NoOtherStepLists(w: World, s: Step, l: Listing)
    requires CancelInv(w) && !(s.ListOpen? && w.cancellation.Some? && !Listed(w)) && l in Unwritten(Next(w, s))
    ensures l in Unwritten(w)
  {
    if s.CancelNext? && Unwritten(w) != [] {
      assert Unwritten(Next(w, s)) == Unwritten(w)[1..];
    }
  }

  lemma NextStaysAccurate(w: World, s: Step)
    requires CancelInv(w) && AllAccurate(w) && w.locking
    ensures AllAccurate(Next(w, s)) && Next(w, s).locking
  {
    if s.ListOpen? && w.cancellation.Some? && !Listed(w) {
      ListingIsAccurate(w);
    } else {
      forall l | l in Unwritten(Next(w, s)) ensures Accurate(l, Next(w, s).registrations) {
        NoOtherStepLists(w, s, l);
        OnlyReviewOvertakes(w, s, l);
      }
    }
  }

  lemma {:induction false} LockedListingsAreNotOvertaken(w: World, steps: seq<Step>)
    requires Inv(w) && AllAccurate(w) && w.locking
    ensures !EverOvertaken(w, steps)
    decreases |steps|
  {
    if steps != [] {
      NextStaysAccurate(w, steps[0]);
      NextKeeps(w, steps[0]);
      assert Unwritten(w) != [] ==> Unwritten(w)[0] in Unwritten(w);
      LockedListingsAreNotOvertaken(Next(w, steps[0]), steps[1..]);
    }
  }

  ghost predicate AlwaysChained(locking: bool) {
    forall w, steps :: Opening(w) && w.locking == locking ==> Chained(Run(w, steps).log)
  }
  // ----- a schedule that breaks the log, with and without row locks -----

  function Scene(locking: bool, now: nat, rs: seq<Registration>, c: Option<Cancellation>, log: seq<Transition>): World {
    World(locking, now, Policy(Required, false, 10, 20, Some(0), Some(9), Some(5)), Published, 1, 0, {7}, {},
          map[7 := Round(false, 5)], rs, {}, {}, {0}, {}, c, log)
  }

  function Submission(status: Status): Registration {
    Registration(0, status, Some(7), Some(7), None, !status.Submitted?, status.Cancelled?, false)
  }

  function Empty(locking: bool): World {
    Scene(locking, 0, [], None, [])
  }

  function Waiting(locking: bool): World {
    Scene(locking, 0, [Submission(Submitted)], None, Entries(1))
  }

  /** The submission's entries: made, then approved a tick later. */
  function Entries(n: nat): seq<Transition> {
    var made := Transition(0, None, Submitted, None, 0);
    if n == 1 then [made] else [made, Transition(0, Some(Submitted), CoordinatorApproved, None, 1)]
  }

  function Cancelled0(fromStatus: Status): Transition {
    Transition(0, Some(fromStatus), Cancelled, None, 0)
  }

  lemma SubmissionWaits(locking: bool)
    ensures Next(Empty(locking), Submit(0, Some(7))) == Waiting(locking)
  {
    assert CanSubmit(Empty(locking), 0, Some(7));
  }

  function ListedCancellation(status: Status): Cancellation {
    Cancellation(None, 0, Some([Listing(0, status)]), 0)
  }

  lemma CancellationOpens(w: World)
    requires w.cancellation.None? && w.status.Published?
    ensures Next(w, OpenCancellation(None)) == w.(cancellation := Some(Cancellation(None, w.now, None, 0)))
  {
  }

  lemma SubmissionIsListed(w: World, status: Status)
    requires w.registrations == [Submission(status)] && InScope(Submission(status), None)
    requires w.cancellation == Some(Cancellation(None, 0, None, 0))
    ensures Next(w, ListOpen) == w.(cancellation := Some(ListedCancellation(status)))
  {
    assert w.registrations[..0] == [] && OpenIn([], None) == [];
    assert OpenIn(w.registrations, None) == [Listing(0, status)];
  }

  lemma CancellationIsWritten(w: World, status: Status)
    requires w.cancellation == Some(ListedCancellation(status)) && w.registrations == [Submission(CoordinatorApproved)]
    ensures Next(w, CancelNext).log == w.log + [Cancelled0(status)]
  {
    assert Unwritten(w) == [Listing(0, status)];
  }

  lemma SubmissionIsReviewed(w: World)
    requires w == Scene(w.locking, 1, [Submission(Submitted)], w.cancellation, Entries(1))
    requires w.locking ==> !Listed(w)
    ensures Next(w, Review(0, true, None)) == Scene(w.locking, 1, [Submission(CoordinatorApproved)], w.cancellation, Entries(2))
  {
    assert CanReview(w, w.registrations[0]);
  }

  const READ_FIRST: seq<Step> := [OpenCancellation(None), ListOpen, Advance(1), Review(0, true, None), CancelNext]

  /** A review commits between a cancellation's reading of a registration and its write: the
      entry of the cancellation starts from the status before the review. */
  lemma ReviewOvertakesCancellation()
    ensures Opening(Empty(false))
    ensures var log := Run(Empty(false), [Submit(0, Some(7))] + READ_FIRST).log;
      log == Entries(2) + [Cancelled0(Submitted)] && !Chained(log) && !InOrder(log)
  {
    var submitted, approved := Submission(Submitted), Submission(CoordinatorApproved);
    var listed := Some(ListedCancellation(Submitted));
    var w1 := Waiting(false);
    var w2 := w1.(cancellation := Some(Cancellation(None, 0, None, 0)));
    var w3 := Scene(false, 0, [submitted], listed, Entries(1));
    var w4 := Scene(false, 1, [submitted], listed, Entries(1));
    var w5 := Scene(false, 1, [approved], listed, Entries(2));
    SubmissionWaits(false);
    CancellationOpens(w1);
    SubmissionIsListed(w2, Submitted);
    assert Next(w3, Advance(1)) == w4;
    SubmissionIsReviewed(w4);
    var w6 := Next(w5, CancelNext);
    CancellationIsWritten(w5, Submitted);
    LogOfThree(Submitted);
    SixSteps(Empty(false), w1, w2, w3, w4, w5, w6, [Submit(0, Some(7))] + READ_FIRST);
  }

  lemma ThreeEntries(a: Transition, b: Transition, c: Transition)
    requires a.id == b.id == c.id && a.move.None? && b.move.None? && c.move.None?
    ensures Chained([a, b, c]) <==> a.before.None? && b.before == Some(a.after) && c.before == Some(b.after)
    ensures InOrder([a, b, c]) <==> a.at <= b.at <= c.at
  {
    Appended([], a);
    Appended([a], b);
    Appended([a, b], c);
    assert [] + [a] == [a] && [a] + [b] == [a, b] && [a, b] + [c] == [a, b, c];
  }

  lemma LogOfThree(status: Status)
    ensures var log := Entries(2) + [Cancelled0(status)]; (Chained(log) <==> status == CoordinatorApproved) && !InOrder(log)
  {
    var made, approved := Entries(1)[0], Entries(2)[1];
    ThreeEntries(made, approved, Cancelled0(status));
    assert Entries(2) + [Cancelled0(status)] == [made, approved, Cancelled0(status)];
  }

  lemma SixSteps(w0: World, w1: World, w2: World, w3: World, w4: World, w5: World, w6: World, steps: seq<Step>)
    requires |steps| == 6
    requires Next(w0, steps[0]) == w1 && Next(w1, steps[1]) == w2 && Next(w2, steps[2]) == w3
    requires Next(w3, steps[3]) == w4 && Next(w4, steps[4]) == w5 && Next(w5, steps[5]) == w6
    ensures Run(w0, steps) == w6
  {
    assert Run(w5, steps[5..]) == w6;
    assert Run(w4, steps[4..]) == Run(w5, steps[4..][1..]) == w6;
    assert Run(w3, steps[3..]) == Run(w4, steps[3..][1..]) == w6;
    assert Run(w2, steps[2..]) == Run(w3, steps[2..][1..]) == w6;
    assert Run(w1, steps[1..]) == Run(w2, steps[1..][1..]) == w6;
  }

  const READ_LAST: seq<Step> := [OpenCancellation(None), Advance(1), Review(0, true, None), ListOpen, CancelNext]

  /** Row locks do not keep the dates in order: the clock is read before the listing. */
  lemma LockedCancellationIsAntedated()
    ensures Opening(Empty(true))
    ensures var log := Run(Empty(true), [Submit(0, Some(7))] + READ_LAST).log;
      log == Entries(2) + [Cancelled0(CoordinatorApproved)] && Chained(log) && !InOrder(log)
  {
    var w1, w2, w3, w4 := Waiting(true), Reviewing(0, Submitted, 1), Reviewing(1, Submitted, 1), Reviewing(1, CoordinatorApproved, 2);
    var w5 := w4.(cancellation := Some(ListedCancellation(CoordinatorApproved)));
    var w6 := Next(w5, CancelNext);
    SubmissionWaits(true);
    CancellationOpens(w1);
    ReviewPrecedesListing();
    SubmissionIsListed(w4, CoordinatorApproved);
    CancellationIsWritten(w5, CoordinatorApproved);
    LogOfThree(CoordinatorApproved);
    SixSteps(Empty(true), w1, w2, w3, w4, w5, w6, [Submit(0, Some(7))] + READ_LAST);
  }

  function Reviewing(now: nat, status: Status, entries: nat): World {
    Scene(true, now, [Submission(status)], Some(Cancellation(None, 0, None, 0)), Entries(entries))
  }

  lemma ReviewPrecedesListing()
    ensures Next(Reviewing(0, Submitted, 1), Advance(1)) == Reviewing(1, Submitted, 1)
    ensures Next(Reviewing(1, Submitted, 1), Review(0, true, None)) == Reviewing(1, CoordinatorApproved, 2)
  {
    SubmissionIsReviewed(Reviewing(1, Submitted, 1));
  }

  lemma LockedRunChains(w: World, steps: seq<Step>)
    requires Opening(w) && w.locking
    ensures Chained(Run(w, steps).log)
  {
    LogChainsIffNotOvertaken(w, steps);
    LockedListingsAreNotOvertaken(w, steps);
  }

  /** The log of every run is chained exactly when cancellations lock the rows they list. */
  lemma LogAlwaysChainsIffLocking(locking: bool)
    ensures AlwaysChained(locking) <==> locking
  {
    if locking {
      forall w, steps | Opening(w) && w.locking == locking ensures Chained(Run(w, steps).log) {
        LockedRunChains(w, steps);
      }
    } else {
      ReviewOvertakesCancellation();
      assert !Chained(Run(Empty(false), [Submit(0, Some(7))] + READ_FIRST).log);
    }
  }

  // ----- what each operation does -----

  predicate IsUser(w: World, id: nat, user: nat) {
    id < |w.registrations| && w.registrations[id].user == user
  }

  ghost predicate HasRow(w: World, user: nat) {
    exists id: nat :: IsUser(w, id, user)
  }

  predicate LockedRegion(w: World, region: nat) {
    region in w.rounds && (w.rounds[region].locked || w.now >= w.rounds[region].lockAt)
  }

  /** The registration awaits the review of its region's coordinators. */
  predicate AwaitsReview(w: World, region: Option<nat>) {
    region.Some? && !w.policy.automatic && w.policy.coordinatorLockAt.Some?
  }

  ghost predicate MaySubmit(w: World, user: nat, region: Option<nat>) {
    && w.status == Published && user in w.answered && !HasRow(w, user)
    && (w.policy.mode == Required || (w.policy.mode == RequiredRestricted && user in w.allowed))
    && w.policy.opensAt.Some? && w.policy.opensAt.value <= w.now
    && w.policy.closesAt.Some? && w.now < w.policy.closesAt.value
    && (if region.Some? then region.value in w.regions else w.regions == {})
    && (w.policy.automatic ==> w.confirmed < w.capacity)
    && (AwaitsReview(w, region) ==> w.now < w.policy.coordinatorLockAt.value && !LockedRegion(w, region.value))
  }

  lemma RegisteredIsUser(w: World, user: nat)
    ensures Registered(w, user) <==> HasRow(w, user)
  {
    if i :| 0 <= i < |w.registrations| && w.registrations[i].user == user { assert IsUser(w, i, user); }
    if id: nat :| IsUser(w, id, user) { assert w.registrations[id].user == user; }
  }

  /** One row more, with its entry, and a place taken by a selected one. */
  ghost predicate Adds(w: World, w': World, r: Registration) {
    && w'.registrations == w.registrations + [r]
    && w'.log == w.log + [Transition(|w.registrations|, None, r.status, None, w.now)]
    && w'.confirmed == w.confirmed + (if r.status == Selected then 1 else 0)
    && w'.participants == w.participants + (if r.status == Selected then {|w.registrations|} else {})
    && w' == w.(registrations := w'.registrations, log := w'.log, confirmed := w'.confirmed, participants := w'.participants,
                rounds := w'.rounds)
  }

  /** A learner is registered exactly when every condition holds: at once with a place under
      automatic approval, else as submitted, awaiting a review if its region has one. */
  lemma SubmissionIsExact(w: World, user: nat, region: Option<nat>)
    requires w.cancellation.None?
    ensures var w' := Next(w, Submit(user, region));
      && (!MaySubmit(w, user, region) ==> w' == w)
      && (MaySubmit(w, user, region) ==>
            Adds(w, w', Registration(user, if w.policy.automatic then Selected else Submitted, region,
                                     if AwaitsReview(w, region) then region else None, None, false, w.policy.automatic, false))
            && w'.rounds == if AwaitsReview(w, region) && region.value !in w.rounds
                            then w.rounds[region.value := Round(false, w.policy.coordinatorLockAt.value)] else w.rounds)
  {
    RegisteredIsUser(w, user);
  }

  /** A confirmed registration needs a place and an occurrence that has not started, one added
      by staff an override where the domain is restricted; each user registers once. */
  lemma OtherRegistrationsAreExact(w: World, user: nat, region: Option<nat>, override: bool)
    requires w.cancellation.None?
    ensures var w' := Next(w, IssueConfirmed(user));
      if w.status == Published && w.now < w.policy.startsAt && !HasRow(w, user) && w.confirmed < w.capacity
      then Adds(w, w', Registration(user, Selected, None, None, None, false, true, false)) && w'.rounds == w.rounds
      else w' == w
    ensures var w' := Next(w, AddByStaff(user, region, override));
      var restricted := w.policy.mode == RequiredRestricted && user !in w.allowed;
      if w.status == Published && w.policy.mode != OpenEntry && !HasRow(w, user) && (override || !restricted)
         && (region.None? || region.value in w.regions)
      then Adds(w, w', Registration(user, Submitted, region, None, None, false, false, restricted)) && w'.rounds == w.rounds
      else w' == w
  {
    RegisteredIsUser(w, user);
  }

  /** One row changed, with an entry from its status before. */
  ghost predicate Replaces(w: World, w': World, id: nat, r: Registration, move: Option<Move>)
    requires id < |w.registrations|
  {
    && w'.registrations == w.registrations[id := r]
    && w'.log == w.log + [Transition(id, Some(w.registrations[id].status), r.status, move, w.now)]
    && w' == w.(registrations := w'.registrations, log := w'.log, confirmed := w'.confirmed, participants := w'.participants,
                rounds := w'.rounds)
  }

  /** A review is accepted for a user who has answered, while the region's review is open, of a
      registration that awaits one and has no decision but a coordinator's. */
  lemma ReviewIsExact(w: World, id: nat, approve: bool, priority: Option<nat>)
    requires id < |w.registrations| && !Held(w, id)
    ensures var r, w' := w.registrations[id], Next(w, Review(id, approve, priority));
      if r.user in w.answered && r.region.Some? && r.round.Some? && r.round.value in w.rounds && !LockedRegion(w, r.round.value)
         && r.status in {Submitted, CoordinatorApproved, CoordinatorDeclined}
      then Replaces(w, w', id, r.(status := if approve then CoordinatorApproved else CoordinatorDeclined,
                                  priority := if approve then priority else None, reviewed := true), None)
           && w'.confirmed == w.confirmed && w'.participants == w.participants && w'.rounds == w.rounds
      else w' == w
  {
  }

  /** Each answer to a review by its own condition, the occurrence's status being none. */
  lemma ReviewOutcomesAreExact(w: World, id: nat)
    ensures ReviewOutcomeOf(w, id) == UnknownRegistration <==> id >= |w.registrations|
    ensures id < |w.registrations| ==>
      var r, outcome := w.registrations[id], ReviewOutcomeOf(w, id);
      var awaits := r.user in w.answered && r.region.Some? && r.round.Some? && r.round.value in w.rounds;
      && (outcome == RegionLocked <==> awaits && LockedRegion(w, r.round.value))
      && (outcome == Reviewed
          <==> awaits && !LockedRegion(w, r.round.value) && r.status in {Submitted, CoordinatorApproved, CoordinatorDeclined})
  {
  }

  /** A place is given to a submitted, waitlisted or refused registration without a review, and
      to an approved one whose region's review is closed. */
  predicate MayBeSelected(w: World, r: Registration) {
    if r.round.None? then r.status in {Submitted, Waitlisted, NotSelected}
    else r.status == CoordinatorApproved && LockedRegion(w, r.round.value)
  }

  /** A final decision that is not a repetition, on a user who has answered if need be. */
  predicate Decidable(w: World, r: Registration, decision: Status) {
    && w.status == Published && decision in {Selected, Waitlisted, NotSelected, Cancelled} && r.status != decision
    && (decision == Cancelled || r.user in w.answered)
  }

  predicate DomainBars(w: World, r: Registration) {
    w.policy.mode == RequiredRestricted && !r.exempt && r.user !in w.allowed
  }

  /** Each outcome of a final decision by its own condition. */
  lemma DecisionOutcomesAreExact(w: World, id: nat, decision: Status)
    requires id < |w.registrations|
    ensures var r, outcome := w.registrations[id], DecideOutcomeOf(w, id, decision);
      var free := Decidable(w, r, decision) && id !in w.attended;
      && (outcome == Unchanged
          <==> w.status == Published && decision in {Selected, Waitlisted, NotSelected, Cancelled} && r.status == decision)
      && (outcome == FinalDecisionLocked <==> Decidable(w, r, decision) && id in w.attended)
      && (outcome == DomainOverrideRequired <==> free && decision == Selected && MayBeSelected(w, r) && DomainBars(w, r))
      && (outcome == CapacityFull
          <==> free && decision == Selected && MayBeSelected(w, r) && !DomainBars(w, r) && w.confirmed >= w.capacity)
      && (outcome == Updated
          <==> free && (decision == Selected ==> MayBeSelected(w, r) && !DomainBars(w, r) && w.confirmed < w.capacity))
      && outcome != NotFound
  {
  }

  /** A decision that is accepted replaces the status, with its entry, and moves the count and
      the participants by the place it gives or takes; any other changes nothing. */
  lemma DecisionIsExact(w: World, id: nat, decision: Status)
    requires w.cancellation.None?
    ensures var w' := Next(w, Decide(id, decision));
      && (DecideOutcomeOf(w, id, decision) != Updated ==> w' == w)
      && (DecideOutcomeOf(w, id, decision) == Updated ==>
            var r := w.registrations[id];
            && Replaces(w, w', id, r.(status := decision, finalDecided := true), None)
            && w'.rounds == w.rounds
            && w'.confirmed + (if r.status == Selected then 1 else 0) == w.confirmed + (if decision == Selected then 1 else 0)
            && w'.participants == if decision == Selected then w.participants + {id} else w.participants)
    ensures DecideOutcomeOf(w, id, decision) == NotFound <==> id >= |w.registrations|
  {
  }

  predicate Final(r: Registration) {
    r.finalDecided || r.status in {Selected, Waitlisted, NotSelected}
  }

  /** A registration is moved to another open region of the occurrence, once staff confirm where
      a decision has been made or the destination's review is closed. A finished one keeps its
      status; an unfinished one is submitted anew, for review unless that is closed. */
  lemma ReassignmentIsExact(w: World, id: nat, region: nat, confirmFinal: bool, confirmLocked: bool)
    requires w.cancellation.None? && id < |w.registrations|
    ensures var r, w', outcome := w.registrations[id], Next(w, Reassign(id, region, confirmFinal, confirmLocked)),
                                  ReassignOutcomeOf(w, id, region, confirmFinal, confirmLocked);
      var movable := w.status == Published && r.region != Some(region) && r.status !in {Withdrawn, Cancelled};
      var hasRound := region in w.rounds || (w.policy.coordinatorLockAt.Some? && w.policy.closesAt.Some?);
      var lockAt := if region in w.rounds then w.rounds[region].lockAt else if hasRound then w.policy.coordinatorLockAt.value else 0;
      var closed := hasRound && ((region in w.rounds && w.rounds[region].locked) || lockAt <= w.now);
      var reviewed := hasRound && (Final(r) || !closed);
      && (outcome == Missing <==> region !in w.regions)
      && (outcome == NotReassignable <==> region in w.regions && !movable)
      && (outcome == FinalizedConfirmationRequired <==> region in w.regions && movable && Final(r) && !confirmFinal)
      && (outcome == LockedDestinationConfirmationRequired
          <==> region in w.regions && movable && !Final(r) && closed && !confirmLocked)
      && (outcome == Reassigned ==>
            Replaces(w, w', id, r.(region := Some(region), round := if reviewed then Some(region) else None, priority := None,
                                   reviewed := false, status := if Final(r) then r.status else Submitted),
                     Some(Move(r.region, region)))
            && w'.confirmed == w.confirmed && w'.participants == w.participants)
      && (outcome != Reassigned ==> w' == w.(rounds := w'.rounds))
      && w'.rounds == if outcome in {Reassigned, LockedDestinationConfirmationRequired} && hasRound && region !in w.rounds
                      then w.rounds[region := Round(false, lockAt)] else w.rounds
  {
  }

  /** A learner may withdraw before the end from whatever is not over; a place is given back. */
  lemma WithdrawalIsExact(w: World, user: nat, id: nat)
    requires w.cancellation.None? && IsUser(w, id, user) && forall i: nat :: IsUser(w, i, user) ==> i == id
    ensures var r, w' := w.registrations[id], Next(w, Withdraw(user));
      if w.status == Published && w.now < w.policy.endsAt && r.status !in {Withdrawn, Cancelled, NotSelected}
      then Replaces(w, w', id, r.(status := Withdrawn, finalDecided := true), None)
           && w'.confirmed == (if r.status == Selected then Max(0, w.confirmed - 1) else w.confirmed)
           && w'.participants == w.participants && w'.rounds == w.rounds
      else w' == w
  {
    var i := IdOf(w.registrations, user);
    assert w.registrations[id].user == user;
    assert IsUser(w, i, user);
  }

  ghost predicate DistinctUsers(rs: seq<Registration>) {
    forall i, j :: 0 <= i < j < |rs| ==> rs[i].user != rs[j].user
  }

  lemma NewcomerIsNew(w: World, s: Step)
    requires s.Submit? || s.IssueConfirmed? || s.AddByStaff?
    ensures var rs, rs' := w.registrations, Next(w, s).registrations;
      rs' == rs || (|rs'| == |rs| + 1 && rs'[..|rs|] == rs && rs'[|rs|].user == s.user && !Registered(w, s.user))
  {
  }

  lemma NextKeepsUsers(w: World, s: Step)
    requires DistinctUsers(w.registrations)
    ensures DistinctUsers(Next(w, s).registrations)
  {
    if s.Submit? || s.IssueConfirmed? || s.AddByStaff? {
      NewcomerIsNew(w, s);
    }
  }

  /** In every run each user has one registration at most. */
  lemma {:induction false} EachUserRegistersOnce(w: World, steps: seq<Step>)
    requires DistinctUsers(w.registrations)
    ensures DistinctUsers(Run(w, steps).registrations)
    decreases |steps|
  {
    if steps != [] {
      NextKeepsUsers(w, steps[0]);
      EachUserRegistersOnce(Next(w, steps[0]), steps[1..]);
    }
  }

  lemma StrangerWithdrawsNothing(w: World, user: nat)
    requires !HasRow(w, user)
    ensures Next(w, Withdraw(user)) == w
  {
    var i := IdOf(w.registrations, user);
    if i < |w.registrations| { assert IsUser(w, i, user); }
  }

  /** What staff change of the occurrence itself. */
  lemma OccurrenceStepsAreExact(w: World, region: nat, capacity: nat, target: OccurrenceStatus)
    requires w.cancellation.None?
    ensures Next(w, RetireRegion(region))
      == (if w.status == Published && region in w.regions
          then w.(regions := w.regions - {region}, retired := w.retired + {region}) else w)
    ensures Next(w, ChangeCapacity(capacity))
      == (if w.status == Published && capacity > 0 && w.confirmed <= capacity then w.(capacity := capacity) else w)
    ensures Next(w, Close(target))
      == (if (target == Completed && w.status == Published) || (target == Archived && w.status in {CalledOff, Completed})
          then w.(status := target) else w)
  {
  }

  /** Attendance is recorded of participants who are selected. */
  lemma AttendanceIsExact(w: World, id: nat, recorded: bool)
    requires w.cancellation.None?
    ensures Next(w, RecordAttendance(id, recorded))
      == (if id < |w.registrations| && id in w.participants && w.registrations[id].status == Selected
          then w.(attended := if recorded then w.attended + {id} else w.attended - {id}) else w)
  {
  }

  /** A region's review is locked for good, and started for that if it had not been. */
  lemma RegionLockIsExact(w: World, region: nat)
    ensures var hasRound := region in w.rounds || (w.policy.coordinatorLockAt.Some? && w.policy.closesAt.Some?);
      Next(w, LockRegion(region))
      == (if (region in w.regions || region in w.retired) && hasRound
          then w.(rounds := w.rounds[region :=
                 Round(true, if region in w.rounds then w.rounds[region].lockAt else w.policy.coordinatorLockAt.value)])
          else w)
  {
  }

  /** A cancellation opens on a published occurrence, everywhere or in one of its regions, and
      lists once; its writes cancel the listed rows one by one, with entries of its own date from
      the listed statuses; and it ends, when all are written, with the count emptied or less the
      places listed, and the occurrence called off or without the region. */
  lemma CancellationIsDone(w: World, scope: Option<nat>)
    requires CancelInv(w)
    ensures Next(w, OpenCancellation(scope))
      == (if w.cancellation.None? && w.status == Published && (scope.Some? ==> scope.value in w.regions)
          then w.(cancellation := Some(Cancellation(scope, w.now, None, 0))) else w)
    ensures Listed(w) && Unwritten(w) != [] ==>
      var l, c, w' := Unwritten(w)[0], w.cancellation.value, Next(w, CancelNext);
      && w'.registrations == w.registrations[l.id := w.registrations[l.id].(status := Cancelled, finalDecided := true)]
      && w'.log == w.log + [Transition(l.id, Some(l.status), Cancelled, None, c.at)]
      && w' == w.(registrations := w'.registrations, log := w'.log, cancellation := Some(c.(next := c.next + 1)))
    ensures Listed(w) && Unwritten(w) == [] ==>
      var c, w' := w.cancellation.value, Next(w, FinishCancellation);
      && w'.cancellation.None? && w'.registrations == w.registrations && w'.log == w.log
      && (c.region.None? ==> w'.status == CalledOff && w'.confirmed == 0 && w'.regions == w.regions)
      && (c.region.Some? ==>
            w'.status == w.status && w'.regions == w.regions - {c.region.value} && w'.retired == w.retired + {c.region.value}
            && w'.confirmed == w.confirmed - ListedSelected(c.listed.value))
    ensures w.cancellation.None? || w.cancellation.value.listed.Some? ==> Next(w, ListOpen) == w
    ensures !(Listed(w) && Unwritten(w) == []) ==> Next(w, FinishCancellation) == w
  {
  }

  // ----- results about places, regions and decisions -----

  /** A registration changes region only in a step whose log entry moves it from the old
      region to the new. */
  lemma RegionChangesAreLogged(w: World, s: Step, id: nat)
    requires id < |w.registrations| && id < |Next(w, s).registrations|
    requires Next(w, s).registrations[id].region != w.registrations[id].region
    ensures var r, r' := w.registrations[id], Next(w, s).registrations[id];
      r'.region.Some?
      && Next(w, s).log == w.log + [Transition(id, Some(r.status), r'.status, Some(Move(r.region, r'.region.value)), w.now)]
  {
  }

  predicate AttendedPlace(w: World, id: nat) {
    id < |w.registrations| && w.registrations[id].status.Selected? && id in w.attended
  }

  /** What takes a place from somebody whose attendance is recorded: the learner withdrawing
      before the end, or a cancellation, of the region or everywhere, reaching the row. */
  predicate TakesPlace(w: World, s: Step, id: nat)
    requires id < |w.registrations|
  {
    match s
    case Withdraw(user) =>
      w.cancellation.None? && w.status.Published? && IdOf(w.registrations, user) == id && w.now < w.policy.endsAt
    case CancelNext => Unwritten(w) != [] && Unwritten(w)[0].id == id
    case _ => false
  }

  /** Staff decisions and reassignments refuse to reverse an attended registration; the
      steps that do reverse one are exactly these. */
  lemma AttendedPlaceIsLostIff(w: World, s: Step, id: nat)
    requires AttendedPlace(w, id)
    ensures id < |Next(w, s).registrations|
    ensures !Next(w, s).registrations[id].status.Selected? <==> TakesPlace(w, s, id)
  {
    match s
    case Decide(_, _) => StaffKeepAttended(w, s, id);
    case Reassign(_, _, _, _) => StaffKeepAttended(w, s, id);
    case _ =>
  }

  lemma StaffKeepAttended(w: World, s: Step, id: nat)
    requires AttendedPlace(w, id) && (s.Decide? || s.Reassign?)
    ensures |Next(w, s).registrations| == |w.registrations| && Next(w, s).registrations[id].status.Selected?
  {
  }

  /** In an occurrence that is no longer published, a step makes an entry in the log exactly
      when it is a coordinator review still open, and it changes no row but that one's. */
  lemma ClosedStepIsReview(w: World, s: Step)
    requires CancelInv(w) && !w.status.Published?
    ensures var w' := Next(w, s);
      && w'.cancellation.None?
      && !w'.status.Published? && w'.confirmed == w.confirmed && |w'.registrations| == |w.registrations|
      && (w'.log != w.log <==> s.Review? && s.id < |w.registrations| && CanReview(w, w.registrations[s.id]))
      && (forall id :: 0 <= id < |w.registrations| && w'.registrations[id] != w.registrations[id]
            ==> s.Review? && s.id == id && !w.registrations[id].status.Selected?)
  {
  }

  /** Once an occurrence is completed, no run changes a place that was held, or the count. */
  lemma {:induction false} PlacesOutlastCompletion(w: World, steps: seq<Step>, id: nat)
    requires CancelInv(w) && !w.status.Published? && id < |w.registrations| && w.registrations[id].status.Selected?
    ensures var end := Run(w, steps);
      id < |end.registrations| && end.registrations[id] == w.registrations[id] && end.confirmed == w.confirmed
    decreases |steps|
  {
    if steps != [] {
      ClosedStepIsReview(w, steps[0]);
      PlacesOutlastCompletion(Next(w, steps[0]), steps[1..], id);
    }
  }

  /** When a cancellation can finish, whatever was reviewed meanwhile, no registration in its
      scope is left open, and finishing leaves the count at the places that remain. */
  lemma FinishedCancellationLeavesNobody(w: World, steps: seq<Step>, id: nat)
    requires Opening(w)
    requires Listed(Run(w, steps)) && Unwritten(Run(w, steps)) == [] && id < |Run(w, steps).registrations|
    ensures var end := Run(w, steps);
      && !InScope(end.registrations[id], end.cancellation.value.region)
      && Next(end, FinishCancellation).cancellation.None?
      && Next(end, FinishCancellation).confirmed == SelectedCount(end.registrations)
  {
    RunKeeps(w, steps);
    NextKeeps(Run(w, steps), FinishCancellation);
  }

  // ----- a cancellation without interruption -----

  /** All the writes that are left, in order. */
  function AfterWrites(w: World): World
    decreases |Unwritten(w)|
  {
    if Unwritten(w) == [] || Unwritten(w)[0].id >= |w.registrations| then w else AfterWrites(CancellingNext(w))
  }

  lemma OneWrite(w: World)
    requires CancelInv(w) && Unwritten(w) != []
    ensures AfterWrites(w) == AfterWrites(Next(w, CancelNext))
  {
  }

  lemma {:induction false} WritesCancelTheListed(w: World)
    requires CancelInv(w)
    ensures var end := AfterWrites(w);
      && Unwritten(end) == [] && |end.registrations| == |w.registrations| && |end.log| == |w.log| + |Unwritten(w)|
      && end == w.(registrations := end.registrations, log := end.log, cancellation := end.cancellation)
    ensures forall id :: 0 <= id < |w.registrations| ==>
      AfterWrites(w).registrations[id]
        == if Lists(Unwritten(w), id) then CancelledRow(w.registrations[id]) else w.registrations[id]
    decreases |Unwritten(w)|
  {
    var u := Unwritten(w);
    if u != [] {
      var w' := CancellingNext(w);
      assert w' == Next(w, CancelNext);
      CancelNextKeepsListing(w);
      assert Unwritten(w') == u[1..];
      WritesCancelTheListed(w');
      ListsFirst(u);
    }
  }

  lemma ListsFirst(u: seq<Listing>)
    requires u != []
    ensures forall id: nat :: Lists(u, id) <==> id == u[0].id || Lists(u[1..], id)
  {
    forall id: nat ensures Lists(u, id) <==> id == u[0].id || Lists(u[1..], id) {
      if Lists(u, id) && id != u[0].id {
        var j :| 0 <= j < |u| && u[j].id == id;
        assert u[1..][j - 1].id == id;
      }
      if Lists(u[1..], id) {
        var j :| 0 <= j < |u[1..]| && u[1..][j].id == id;
        assert u[j + 1].id == id;
      }
    }
  }

  /** Without interruption a cancellation cancels exactly the open registrations in scope. */
  lemma CancellationIsExact(w: World, region: Option<nat>, id: nat)
    requires Inv(w) && w.cancellation.None? && Opened(w, region) != w && id < |w.registrations|
    ensures var end := AfterWrites(Next(Next(w, OpenCancellation(region)), ListOpen));
      && Unwritten(end) == [] && |end.registrations| == |w.registrations|
      && var r := w.registrations[id];
         end.registrations[id]
         == if r.status !in {Cancelled, Withdrawn, NotSelected} && (region.None? || r.region == region)
            then r.(status := Cancelled, finalDecided := true) else r
  {
    OpenCancellationLists(w, region);
    WritesCancelTheListed(Next(Next(w, OpenCancellation(region)), ListOpen));
    ListingIsExact(w.registrations, region, id);
  }

  lemma OpenCancellationLists(w: World, region: Option<nat>)
    requires Inv(w) && w.cancellation.None? && Opened(w, region) != w
    ensures var w' := Next(Next(w, OpenCancellation(region)), ListOpen);
      CancelInv(w') && w'.registrations == w.registrations && Unwritten(w') == OpenIn(w.registrations, region)
  {
    NextKeeps(w, OpenCancellation(region));
    ListKeeps(Next(w, OpenCancellation(region)));
    var listed := OpenIn(w.registrations, region);
    assert listed[0..] == listed;
  }

  // ----- where the guards do not reach -----

  const EVENT: Policy := Policy(Required, true, 10, 20, Some(0), Some(9), Some(5))

  /** An attended place is lost to the learner's own withdrawal before the end. */
  lemma AttendedLearnerWithdraws(w: World)
    requires Opening(w) && w.policy == EVENT && w.now == 0 && w.capacity == 1 && w.regions == {} && 0 in w.answered
    ensures var attended := Run(w, [Submit(0, None), RecordAttendance(0, true)]);
      && AttendedPlace(attended, 0) && DecideOutcomeOf(attended, 0, Cancelled) == FinalDecisionLocked
      && Next(attended, Withdraw(0)).registrations[0].status.Withdrawn?
  {
    var w1 := Next(w, Submit(0, None));
    assert CanSubmit(w, 0, None);
    assert w1.registrations == [Registration(0, Selected, None, None, None, false, true, false)];
    var w2 := Next(w1, RecordAttendance(0, true));
    assert [Submit(0, None), RecordAttendance(0, true)][1..] == [RecordAttendance(0, true)];
    assert Run(w1, [RecordAttendance(0, true)]) == w2;
    assert IdOf(w2.registrations, 0) == 0 && CanWithdraw(w2, 0);
  }

  /** A coordinator still reviews after the occurrence is completed. */
  lemma CompletedOccurrenceIsReviewed()
    ensures var completed := Run(Empty(false), [Submit(0, Some(7)), Close(Completed)]);
      completed.status.Completed? && Next(completed, Review(0, true, None)).log == completed.log + [Entries(2)[1].(at := 0)]
  {
    SubmissionWaits(false);
    var w2 := Next(Waiting(false), Close(Completed));
    assert [Submit(0, Some(7)), Close(Completed)][1..] == [Close(Completed)];
    assert Run(Waiting(false), [Close(Completed)]) == w2;
    assert CanReview(w2, w2.registrations[0]);
  }

  // ----- the occurrence as the server updates it -----

  class OccurrenceRegister {
    const locking: bool
    var now: nat
    const policy: Policy
    var status: OccurrenceStatus
    var capacity: nat
    var confirmed: int
    var regions: set<nat>
    var retired: set<nat>
    var rounds: map<nat, Round>
    var registrations: seq<Registration>
    var participants: set<nat>
    var attended: set<nat>
    var answered: set<nat>
    var allowed: set<nat>
    var cancellation: Option<Cancellation>
    var log: seq<Transition>

    function View(): World
      reads this
    {
      World(locking, now, policy, status, capacity, confirmed, regions, retired, rounds, registrations, participants,
            attended, answered, allowed, cancellation, log)
    }

    constructor (policy: Policy, capacity: nat, regions: set<nat>, allowed: set<nat>)
      ensures Opening(View()) && !locking && this.policy == policy && this.capacity == capacity
      ensures this.regions == regions && this.allowed == allowed && rounds == map[] && answered == {} && now == 0
    {
      this.policy, this.capacity, this.regions, this.allowed := policy, capacity, regions, allowed;
      locking, cancellation := false, None;
      now, status, confirmed, retired, rounds := 0, Published, 0, {}, map[];
      registrations, participants, attended, answered, log := [], {}, {}, {}, [];
    }

    /** A learner registers; nothing changes if any of the conditions fails. It has the
        occurrence row to itself, like every method that asks for no cancellation. */
    method SubmitRegistration(user: nat, choice: Option<nat>) returns (registered: bool)
      requires cancellation.None?
      modifies this
      ensures View() == Next(old(View()), Submit(user, choice))
      ensures registered <==> CanSubmit(old(View()), user, choice)
    {
      if user !in answered { return false; }
      if status != Published || policy.mode.OpenEntry? || policy.mode.PaidEntry? { return false; }
      var id := IdOf(registrations, user);
      if id < |registrations| { return false; }
      if policy.opensAt.None? || policy.closesAt.None? || policy.opensAt.value > now || policy.closesAt.value <= now {
        return false;
      }
      if policy.mode.RequiredRestricted? && user !in allowed { return false; }
      if (regions != {} && choice.None?) || (choice.Some? && choice.value !in regions) { return false; }
      var round: Option<nat> := None;
      if choice.Some? && !policy.automatic && policy.coordinatorLockAt.Some? {
        if policy.coordinatorLockAt.value <= now { return false; }
        if choice.value in rounds && (rounds[choice.value].locked || rounds[choice.value].lockAt <= now) { return false; }
        round := choice;
      }
      if policy.automatic && confirmed >= capacity { return false; }
      if round.Some? && round.value !in rounds {
        rounds := rounds[round.value := Round(false, policy.coordinatorLockAt.value)];
      }
      EnterRow(Registration(user, if policy.automatic then Selected else Submitted, choice, round, None, false, policy.automatic, false));
      registered := true;
    }

    /** A new row, its entry, and the place and participation of a selected one. */
    method EnterRow(r: Registration)
      modifies this`registrations, this`log, this`confirmed, this`participants
      ensures View() == Made(old(View()), r)
    {
      log := log + [Transition(|registrations|, None, r.status, None, now)];
      if r.status == Selected {
        confirmed := confirmed + 1;
        participants := participants + {|registrations|};
      }
      registrations := registrations + [r];
    }

    method DecideFinal(id: nat, decision: Status) returns (outcome: DecideOutcome)
      requires cancellation.None?
      modifies this`registrations, this`log, this`confirmed, this`participants
      ensures outcome == DecideOutcomeOf(old(View()), id, decision)
      ensures View() == Next(old(View()), Decide(id, decision))
    {
      if id >= |registrations| { return NotFound; }
      var r := registrations[id];
      if status != Published || !FinalDecision(decision) { return InvalidTransition; }
      if r.status == decision { return Unchanged; }
      if decision != Cancelled && r.user !in answered { return InvalidTransition; }
      if id in attended { return FinalDecisionLocked; }
      var wasSelected := r.status == Selected;
      if decision == Selected {
        if !Selectable(View(), r) { return InvalidTransition; }
        if policy.mode.RequiredRestricted? && !r.exempt && r.user !in allowed { return DomainOverrideRequired; }
        if confirmed >= capacity { return CapacityFull; }
      }
      if wasSelected != (decision == Selected) { confirmed := confirmed + if decision == Selected then 1 else -1; }
      ReplaceRow(id, r.(status := decision, finalDecided := true), None);
      if decision == Selected { participants := participants + {id}; }
      outcome := Updated;
    }

    method ReassignRegion(id: nat, region: nat, confirmFinal: bool, confirmLocked: bool) returns (outcome: ReassignOutcome)
      requires cancellation.None?
      modifies this`registrations, this`log, this`rounds
      ensures outcome == ReassignOutcomeOf(old(View()), id, region, confirmFinal, confirmLocked)
      ensures View() == Next(old(View()), Reassign(id, region, confirmFinal, confirmLocked))
    {
      if id >= |registrations| || region !in regions { return Missing; }
      var r := registrations[id];
      if status != Published || r.region == Some(region) || r.status == Withdrawn || r.status == Cancelled {
        return NotReassignable;
      }
      var finalized := r.finalDecided || r.status == Selected || r.status == Waitlisted || r.status == NotSelected;
      if finalized && !confirmFinal { return FinalizedConfirmationRequired; }
      EnsureReviewRound(region);
      var locked := region in rounds && (rounds[region].locked || rounds[region].lockAt <= now);
      if !finalized && locked && !confirmLocked { return LockedDestinationConfirmationRequired; }
      var next := if finalized then r.status else Submitted;
      var round := if (!finalized && locked) || region !in rounds then None else Some(region);
      ReplaceRow(id, r.(region := Some(region), round := round, priority := None, reviewed := false, status := next),
                 Some(Move(r.region, region)));
      outcome := Reassigned;
    }

    method ReplaceRow(id: nat, r: Registration, move: Option<Move>)
      requires id < |registrations|
      modifies this`registrations, this`log
      ensures View() == Changed(old(View()), id, r, move)
    {
      log := log + [Transition(id, Some(registrations[id].status), r.status, move, now)];
      registrations := registrations[id := r];
    }

    method EnsureReviewRound(region: nat)
      modifies this`rounds
      ensures View() == old(View()).(rounds := WithRound(old(View()), region))
    {
      if region !in rounds && policy.coordinatorLockAt.Some? && policy.closesAt.Some? {
        rounds := rounds[region := Round(false, policy.coordinatorLockAt.value)];
      }
    }

    method WithdrawRegistration(user: nat) returns (withdrawn: bool)
      requires cancellation.None?
      modifies this`registrations, this`log, this`confirmed
      ensures View() == Next(old(View()), Withdraw(user))
      ensures withdrawn <==> var id := IdOf(old(registrations), user); id < |old(registrations)| && CanWithdraw(old(View()), id)
    {
      var id := IdOf(registrations, user);
      if id == |registrations| { return false; }
      var r := registrations[id];
      if status != Published || policy.endsAt <= now { return false; }
      if r.status == Withdrawn || r.status == Cancelled || r.status == NotSelected { return false; }
      if r.status == Selected { confirmed := Max(0, confirmed - 1); }
      ReplaceRow(id, r.(status := Withdrawn, finalDecided := true), None);
      withdrawn := true;
    }

    /** A review locks the registration, not the occurrence. */
    method ReviewRegistration(id: nat, approve: bool, priority: Option<nat>) returns (outcome: ReviewOutcome)
      requires !Held(View(), id)
      modifies this`registrations, this`log
      ensures View() == Next(old(View()), Review(id, approve, priority))
      ensures outcome == ReviewOutcomeOf(old(View()), id)
    {
      if id >= |registrations| { return UnknownRegistration; }
      var r := registrations[id];
      if r.user !in answered { return NotReviewable; }
      if r.region.None? || r.round.None? { return NotReviewable; }
      if r.round.value !in rounds { return NotReviewable; }
      var round := rounds[r.round.value];
      if round.locked || round.lockAt <= now { return RegionLocked; }
      if r.status != Submitted && r.status != CoordinatorApproved && r.status != CoordinatorDeclined { return NotReviewable; }
      ReplaceRow(id, r.(status := if approve then CoordinatorApproved else CoordinatorDeclined,
                        priority := if approve then priority else None, reviewed := true), None);
      outcome := Reviewed;
    }

    /** Locks the occurrence row and reads the clock. */
    method BeginCancellation(region: Option<nat>) returns (allowed: bool)
      requires cancellation.None?
      modifies this`cancellation
      ensures View() == Next(old(View()), OpenCancellation(region))
      ensures allowed <==> status.Published? && (region.Some? ==> region.value in regions)
    {
      if status != Published || (region.Some? && region.value !in regions) { return false; }
      cancellation := Some(Cancellation(region, now, None, 0));
      allowed := true;
    }

    method ListRegistrations()
      requires cancellation.Some? && cancellation.value.listed.None?
      modifies this`cancellation
      ensures View() == Next(old(View()), ListOpen)
    {
      var listed, i := [], 0;
      while i < |registrations|
        invariant i <= |registrations| && listed == OpenIn(registrations[..i], cancellation.value.region)
      {
        var r := registrations[i];
        assert registrations[..i + 1][..i] == registrations[..i];
        if r.status != Cancelled && r.status != Withdrawn && r.status != NotSelected
           && (cancellation.value.region.None? || r.region == cancellation.value.region)
        {
          listed := listed + [Listing(i, r.status)];
        }
        i := i + 1;
      }
      assert registrations[..i] == registrations;
      cancellation := Some(cancellation.value.(listed := Some(listed)));
    }

    /** The update of one listed registration and its entry. */
    method CancelOne()
      requires CancelInv(View()) && Unwritten(View()) != []
      modifies this`registrations, this`log, this`cancellation
      ensures View() == Next(old(View()), CancelNext) && CancelInv(View())
      ensures Listed(View()) && Unwritten(View()) == Unwritten(old(View()))[1..]
    {
      CancelNextKeepsListing(View());
      var c := cancellation.value;
      var l := c.listed.value[c.next];
      registrations := registrations[l.id := registrations[l.id].(status := Cancelled, finalDecided := true)];
      log := log + [Transition(l.id, Some(l.status), Cancelled, None, c.at)];
      cancellation := Some(c.(next := c.next + 1));
    }

    /** The writes without interruption. */
    method CancelListed()
      requires CancelInv(View()) && Listed(View())
      modifies this`registrations, this`log, this`cancellation
      ensures View() == AfterWrites(old(View())) && Unwritten(View()) == [] && Listed(View())
    {
      while Unwritten(View()) != []
        invariant CancelInv(View()) && Listed(View())
        invariant AfterWrites(View()) == AfterWrites(old(View()))
        decreases |Unwritten(View())|
      {
        OneWrite(View());
        CancelOne();
      }
    }

    /** The count is emptied when the occurrence is called off; retiring a region takes the
        selected registrations listed from it. */
    method EndCancellation()
      requires Listed(View()) && Unwritten(View()) == []
      modifies this`confirmed, this`status, this`regions, this`retired, this`cancellation
      ensures View() == Next(old(View()), FinishCancellation)
    {
      var c := cancellation.value;
      if c.region.None? {
        confirmed, status := 0, CalledOff;
      } else {
        var released, i := 0, 0;
        while i < |c.listed.value|
          invariant i <= |c.listed.value| && released == ListedSelected(c.listed.value[..i])
        {
          assert c.listed.value[..i + 1][..i] == c.listed.value[..i];
          if c.listed.value[i].status == Selected { released := released + 1; }
          i := i + 1;
        }
        assert c.listed.value[..i] == c.listed.value;
        regions, retired := regions - {c.region.value}, retired + {c.region.value};
        confirmed := confirmed - released;
      }
      cancellation := None;
    }
  }
}
