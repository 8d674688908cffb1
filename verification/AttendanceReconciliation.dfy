/**
 Automatic attendance: provider snapshots racing with signed webhooks.

 A pass claims the room's reconciliation under a lease, lists the provider's
 participants, and only then, in one transaction, applies the listing. Webhooks, staff
 decisions and other passes fall in between, so the transaction first checks that the
 evidence revision is still the one the claim read.
 */
module AttendanceReconciliation {
  import opened Prelude
  import opened QueuedWork
  import opened Lobby
  import opened ConnectionIntervals
  import opened ConnectedTime

  const INTERVAL := 30 * 1000

  datatype Work = Work(status: Status, attempts: nat, availableAt: nat, leasedUntil: nat, evidence: nat, reconciled: nat,
                       lastSuccessAt: nat)

  datatype Pass =
    | Claimed(attempts: nat, evidence: nat, observedAt: nat)
    | Listed(attempts: nat, evidence: nat, observedAt: nat, snapshot: map<nat, Identity>)

  datatype AttendanceState = NotRecorded | CheckedIn | Attended | Absent

  datatype AttendanceSource = System | SelfCheckIn | Coordinator | Presenter | Administrator

  datatype Attendance = Attendance(state: AttendanceState, source: AttendanceSource)

  datatype Outcome = PreservedManual | AlreadySatisfied | Applied

  datatype Decision = Decision(who: Identity, mark: AttendanceState, time: nat, at: nat, outcome: Outcome)

  /** What a room's attendance rests on: `minimum` is set when attendance needs a duration. */
  datatype Policy = Policy(startsAt: int, minimum: Option<nat>)

  datatype Records = Records(attendance: map<Identity, Attendance>, decisions: seq<Decision>)

  /** At most `workers` batches are open at a time. A batch reads the clock once, and dates
      every claim and every success of its passes by that. */
  datatype World = World(
    workers: nat,
    now: nat,
    batches: map<nat, nat>,
    policy: Policy,
    terminal: Option<nat>,
    work: Work,
    passes: map<nat, Pass>,
    live: map<nat, Identity>,
    eligible: seq<Identity>,
    intervals: map<nat, Interval>,
    records: Records)

  /** A webhook, or the end of the room, was `received` at a clock read before its transaction. */
  datatype Step =
    | Advance(ticks: nat)
    | ProviderMoves(live: map<nat, Identity>)
    | ChangeEligibility(eligible: seq<Identity>)
    | SignedJoin(sid: nat, who: Identity, at: nat, terminal: Option<nat>, received: nat)
    | SignedLeave(sid: nat, at: nat, received: nat)
    | EndRoom(at: nat, received: nat)
    | RecordStaff(who: Identity, state: AttendanceState, source: AttendanceSource)
    | RecordSelf(who: Identity, state: AttendanceState)
    | StartBatch(worker: nat)
    | EndBatch(worker: nat)
    | Claim(worker: nat)
    | List(worker: nat)
    | Reconcile(worker: nat)
    | Fail(worker: nat, retryAt: nat)
    | Crash(worker: nat)

  predicate ByStaff(s: AttendanceSource) {
    s.Coordinator? || s.Presenter? || s.Administrator?
  }

  // ----- the work row -----

  /** New evidence moves the revision; either way the work becomes due unless under way. */
  function Woken(k: Work, now: nat, evidenceChanged: bool): Work {
    var k' := if evidenceChanged then k.(evidence := k.evidence + 1) else k;
    if k.status.Processing? then k'
    else k'.(status := Pending, availableAt := Min(k.availableAt, now), leasedUntil := 0)
  }

  predicate Claimable(k: Work, now: nat) {
    (k.status.Pending? && k.availableAt <= now) || (k.status.Processing? && k.leasedUntil <= now)
  }

  predicate Current(k: Work, p: Pass) {
    k.status.Processing? && k.attempts == p.attempts
  }

  /** A clock is not read ahead of time. */
  function Clock(w: World, at: nat): nat {
    if at < w.now then at else w.now
  }

  // ----- applying a listing -----

  /** The listed participants that are eligible attendees. */
  function ActiveSids(snapshot: map<nat, Identity>, eligible: seq<Identity>): set<nat> {
    set s | s in snapshot && snapshot[s].Attendee? && snapshot[s] in eligible
  }

  /** A row still open closes when its participant is not listed, or the room is over. */
  function Updated(i: Interval, active: bool, terminal: bool, at: nat): Interval {
    if i.left.Some? || (active && !terminal) then i
    else i.(left := Some(Departure(if i.joinedAt < at then at else i.joinedAt,
                                   if terminal then RoomEnd else ProviderReconciliation)))
  }

  function Discovered(who: Identity, terminal: bool, at: nat): Interval {
    Interval(who, at, ProviderReconciliation, if terminal then Some(Departure(at, RoomEnd)) else None)
  }

  function Refreshed(rows: map<nat, Interval>, snapshot: map<nat, Identity>, eligible: seq<Identity>,
                     terminal: bool, at: nat): map<nat, Interval> {
    map s | s in rows.Keys + ActiveSids(snapshot, eligible) ::
      if s in rows then Updated(rows[s], s in ActiveSids(snapshot, eligible), terminal, at)
      else Discovered(snapshot[s], terminal, at)
  }

  predicate Connected(i: Interval, terminal: Option<nat>, t: int) {
    i.joinedAt <= t && (i.left.Some? ==> t < i.left.value.at) && (terminal.Some? ==> t < terminal.value)
  }

  /** The instants of the qualifying window at which the attendee was connected. */
  function Overlap(rows: map<nat, Interval>, who: Identity, terminal: Option<nat>, lo: int, hi: int): set<int> {
    set t | t in Range(lo, hi) && exists s :: s in rows && rows[s].identity == who && Connected(rows[s], terminal, t)
  }

  predicate Decided(r: Records, who: Identity, mark: AttendanceState) {
    exists i :: 0 <= i < |r.decisions| && r.decisions[i].who == who && r.decisions[i].mark == mark
  }

  function OutcomeOf(r: Records, who: Identity, mark: AttendanceState): Outcome {
    if who in r.attendance && ByStaff(r.attendance[who].source) then PreservedManual
    else if who in r.attendance && (r.attendance[who].state.Attended? || (mark.CheckedIn? && r.attendance[who].state.CheckedIn?))
    then AlreadySatisfied
    else Applied
  }

  /** One decision for an attendee and a mark, ever; it is recorded as the attendance
      unless staff, or stronger evidence, have already settled that. */
  function Decide(r: Records, who: Identity, mark: AttendanceState, time: nat, at: nat): Records {
    if Decided(r, who, mark) then r
    else var outcome := OutcomeOf(r, who, mark);
         Records(if outcome.Applied? then r.attendance[who := Attendance(mark, System)] else r.attendance,
                 r.decisions + [Decision(who, mark, time, at, outcome)])
  }

  function DecideFor(r: Records, who: Identity, time: nat, minimum: Option<nat>, at: nat): Records {
    if time == 0 then r
    else var r' := Decide(r, who, CheckedIn, time, at);
         if minimum.Some? && time >= minimum.value then Decide(r', who, Attended, time, at) else r'
  }

  function DecideAll(r: Records, eligible: seq<Identity>, rows: map<nat, Interval>, policy: Policy,
                     terminal: Option<nat>, hi: int, at: nat): Records
    decreases |eligible|
  {
    if eligible == [] then r
    else DecideAll(DecideFor(r, eligible[0], |Overlap(rows, eligible[0], terminal, policy.startsAt, hi)|, policy.minimum, at),
                   eligible[1..], rows, policy, terminal, hi, at)
  }

  /** The evidence of a room that is over is dated to its end. */
  function EvidenceAt(terminal: Option<nat>, observedAt: nat): nat {
    if terminal.Some? && terminal.value < observedAt then terminal.value else observedAt
  }

  function AppliedRows(w: World, p: Pass): map<nat, Interval>
    requires p.Listed?
  {
    Refreshed(w.intervals, p.snapshot, w.eligible, w.terminal.Some?, EvidenceAt(w.terminal, p.observedAt))
  }

  function AppliedRecords(w: World, p: Pass): Records
    requires p.Listed?
  {
    DecideAll(w.records, w.eligible, AppliedRows(w, p), w.policy, w.terminal, EvidenceAt(w.terminal, p.observedAt), p.observedAt)
  }

  function AppliedWork(w: World, p: Pass): Work {
    if w.terminal.Some? then Work(Succeeded, 0, p.observedAt, 0, w.work.evidence, w.work.evidence, p.observedAt)
    else Work(Pending, 0, p.observedAt + INTERVAL, 0, w.work.evidence, w.work.evidence, p.observedAt)
  }

  function Reconciling(w: World, worker: nat): World
    requires worker in w.passes && w.passes[worker].Listed?
  {
    var p := w.passes[worker];
    var w' := w.(passes := w.passes - {worker});
    if !Current(w.work, p) then w'
    else if w.work.evidence != p.evidence
    then w'.(work := w.work.(status := Pending, attempts := 0, availableAt := p.observedAt, leasedUntil := 0))
    else w'.(intervals := AppliedRows(w, p), records := AppliedRecords(w, p), work := AppliedWork(w, p))
  }

  /** A step whose guard fails leaves the world as it is. */
  function Next(w: World, s: Step): World {
    match s
    case Advance(ticks) => w.(now := w.now + ticks)
    case ProviderMoves(live) => w.(live := live)
    case ChangeEligibility(eligible) => w.(eligible := eligible)
    case SignedJoin(sid, who, at, terminal, received) =>
      if terminal.Some? && terminal.value < at then w
      else w.(intervals := WithJoin(w.intervals, sid, who, at, terminal), work := Woken(w.work, Clock(w, received), true))
    case SignedLeave(sid, at, received) =>
      w.(intervals := WithLeave(w.intervals, sid, at), work := Woken(w.work, Clock(w, received), true))
    case EndRoom(at, received) =>
      if w.terminal.Some? || at > w.now then w
      else w.(terminal := Some(at), work := Woken(w.work, Clock(w, received), false))
    case RecordStaff(who, state, source) =>
      if who in w.eligible && ByStaff(source)
      then w.(records := w.records.(attendance := w.records.attendance[who := Attendance(state, source)])) else w
    case RecordSelf(who, state) =>
      if who in w.records.attendance then w
      else w.(records := w.records.(attendance := w.records.attendance[who := Attendance(state, SelfCheckIn)]))
    case StartBatch(k) =>
      if k in w.batches || |w.batches| >= w.workers then w else w.(batches := w.batches[k := w.now])
    case EndBatch(k) => if k in w.passes then w else w.(batches := w.batches - {k})
    case Claim(k) =>
      if k !in w.batches || k in w.passes || !Claimable(w.work, w.batches[k]) then w
      else var at := w.batches[k];
           w.(work := w.work.(status := Processing, attempts := w.work.attempts + 1, leasedUntil := at + LEASE),
              passes := w.passes[k := Claimed(w.work.attempts + 1, w.work.evidence, at)])
    case List(k) =>
      if k !in w.passes || !w.passes[k].Claimed? then w
      else var p := w.passes[k];
           w.(passes := w.passes[k := Listed(p.attempts, p.evidence, p.observedAt, w.live)])
    case Reconcile(k) => if k !in w.passes || !w.passes[k].Listed? then w else Reconciling(w, k)
    case Fail(k, retryAt) =>
      if k !in w.passes then w
      else var w' := w.(passes := w.passes - {k});
           if Current(w.work, w.passes[k])
           then w'.(work := w.work.(status := Pending, availableAt := retryAt, leasedUntil := 0)) else w'
    case Crash(k) => w.(passes := w.passes - {k}, batches := w.batches - {k})
  }

  function Run(w: World, steps: seq<Step>): World
    decreases |steps|
  {
    if steps == [] then w else Run(Next(w, steps[0]), steps[1..])
  }

  predicate Started(w: World) {
    w.work == Work(Pending, 0, w.now, 0, 0, 0, 0) && w.passes == map[] && w.batches == map[]
    && w.intervals == map[] && w.records.decisions == []
  }

  // ----- invariants -----

  ghost predicate OneEach(ds: seq<Decision>) {
    forall i, j :: 0 <= i < j < |ds| ==> ds[i].who != ds[j].who || ds[i].mark != ds[j].mark
  }

  ghost predicate AllClosed(rows: map<nat, Interval>) {
    forall s :: s in rows ==> rows[s].left.Some?
  }

  ghost predicate Inv(w: World) {
    && w.work.reconciled <= w.work.evidence
    && (forall k :: k in w.batches ==> w.batches[k] <= w.now)
    && (forall k :: k in w.passes ==> w.passes[k].evidence <= w.work.evidence && w.passes[k].observedAt <= w.now)
    && (w.work.status.Succeeded? ==> w.work.reconciled == w.work.evidence && w.terminal.Some? && AllClosed(w.intervals))
    && OneEach(w.records.decisions)
    && Ordered(w.intervals)
  }

  lemma TerminalPassCloses(rows: map<nat, Interval>, snapshot: map<nat, Identity>, eligible: seq<Identity>, at: nat)
    ensures AllClosed(Refreshed(rows, snapshot, eligible, true, at))
  {
  }

  lemma DecideKeepsOneEach(r: Records, who: Identity, mark: AttendanceState, time: nat, at: nat)
    requires OneEach(r.decisions)
    ensures OneEach(Decide(r, who, mark, time, at).decisions)
  {
  }

  lemma {:induction false} DecideAllKeepsOneEach(r: Records, eligible: seq<Identity>, rows: map<nat, Interval>, policy: Policy,
                                                  terminal: Option<nat>, hi: int, at: nat)
    requires OneEach(r.decisions)
    ensures OneEach(DecideAll(r, eligible, rows, policy, terminal, hi, at).decisions)
    decreases |eligible|
  {
    if eligible != [] {
      var time := |Overlap(rows, eligible[0], terminal, policy.startsAt, hi)|;
      DecideKeepsOneEach(r, eligible[0], CheckedIn, time, at);
      DecideKeepsOneEach(Decide(r, eligible[0], CheckedIn, time, at), eligible[0], Attended, time, at);
      DecideAllKeepsOneEach(DecideFor(r, eligible[0], time, policy.minimum, at), eligible[1..], rows, policy, terminal, hi, at);
    }
  }

  lemma ReconcileKeeps(w: World, k: nat)
    requires Inv(w)
    ensures Inv(Next(w, Reconcile(k)))
  {
    if k in w.passes && w.passes[k].Listed? {
      var p := w.passes[k];
      DecideAllKeepsOneEach(w.records, w.eligible, AppliedRows(w, p), w.policy, w.terminal,
                            EvidenceAt(w.terminal, p.observedAt), p.observedAt);
      TerminalPassCloses(w.intervals, p.snapshot, w.eligible, EvidenceAt(w.terminal, p.observedAt));
    }
  }

  lemma NextKeeps(w: World, s: Step)
    requires Inv(w)
    ensures Inv(Next(w, s))
  {
    if s.Reconcile? { ReconcileKeeps(w, s.worker); }
  }

  lemma {:induction false} RunKeeps(w: World, steps: seq<Step>)
    requires Inv(w)
    ensures Inv(Run(w, steps))
    decreases |steps|
  {
    if steps != [] {
      NextKeeps(w, steps[0]);
      RunKeeps(Next(w, steps[0]), steps[1..]);
    }
  }

  // ----- what a listing does to the intervals -----

  /** The pass still holds its claim, and no evidence has come since. */
  predicate Applies(w: World, k: nat) {
    && k in w.passes && w.passes[k].Listed?
    && w.work.status.Processing? && w.work.attempts == w.passes[k].attempts && w.work.evidence == w.passes[k].evidence
  }

  predicate ListedAttendee(w: World, k: nat, s: nat)
    requires k in w.passes && w.passes[k].Listed?
  {
    var seen := w.passes[k].snapshot; s in seen && seen[s].Attendee? && seen[s] in w.eligible
  }

  /** The time of the listing, or the end of the room if that was earlier. */
  function DatedAt(w: World, k: nat): nat
    requires k in w.passes
  {
    if w.terminal.Some? then Min(w.passes[k].observedAt, w.terminal.value) else w.passes[k].observedAt
  }

  /** An interval stays open exactly when the room is not over and its SID is listed for an
      eligible attendee; else it ends at the listing, but not before it started. A closed one
      does not change. A SID that is new gets an interval exactly when it is so listed. */
  lemma ListingIsAppliedTo(w: World, k: nat, s: nat)
    requires Applies(w, k)
    ensures var rows, after, listed := w.intervals, Next(w, Reconcile(k)).intervals, ListedAttendee(w, k, s);
      && (s in after <==> s in rows || listed)
      && (s in rows ==> after[s] == rows[s].(left := after[s].left))
      && (s in rows && rows[s].left.Some? ==> after[s].left == rows[s].left)
      && (s in rows && rows[s].left.None? ==> (after[s].left.None? <==> w.terminal.None? && listed))
      && (s in rows && rows[s].left.None? && after[s].left.Some? ==>
            after[s].left.value.at == Max(rows[s].joinedAt, DatedAt(w, k))
            && after[s].left.value.source == if w.terminal.None? then ProviderReconciliation else RoomEnd)
      && (s !in rows && listed ==>
            after[s].identity == w.passes[k].snapshot[s]
            && after[s].joinedAt == DatedAt(w, k) && after[s].joinedSource == ProviderReconciliation
            && after[s].left == if w.terminal.None? then None else Some(Departure(DatedAt(w, k), RoomEnd)))
  {
  }

  /** What a pass leaves of the work: nothing if its claim was taken over; due at once if
      evidence has come since; else done, for good if the room is over and until the next
      interval if it is not. */
  lemma PassEndsExactly(w: World, k: nat)
    requires k in w.passes && w.passes[k].Listed?
    ensures var p, w' := w.passes[k], Next(w, Reconcile(k));
      var holds := w.work.status.Processing? && w.work.attempts == p.attempts;
      && w'.passes == w.passes - {k} && w' == w.(passes := w'.passes, work := w'.work, intervals := w'.intervals, records := w'.records)
      && (!holds ==> w'.work == w.work)
      && (holds && w.work.evidence != p.evidence ==>
            w'.work == w.work.(status := Pending, attempts := 0, availableAt := p.observedAt, leasedUntil := 0))
      && (!Applies(w, k) ==> w'.intervals == w.intervals && w'.records == w.records)
      && (Applies(w, k) ==>
            && w'.work.status == (if w.terminal.Some? then Succeeded else Pending)
            && w'.work.availableAt == p.observedAt + (if w.terminal.Some? then 0 else INTERVAL)
            && w'.work.attempts == 0 && w'.work.leasedUntil == 0 && w'.work.lastSuccessAt == p.observedAt
            && w'.work.evidence == w.work.evidence == w'.work.reconciled)
  {
  }

  /** New evidence, or the end of the room, makes work due that is not under way; only evidence
      moves the revision, and a clock read ahead counts as now. */
  lemma WakingIsExact(w: World, s: Step)
    requires s.SignedJoin? || s.SignedLeave? || s.EndRoom?
    ensures var k, w' := w.work, Next(w, s);
      var wakes := match s
                   case SignedJoin(_, _, at, terminal, _) => terminal.Some? ==> at <= terminal.value
                   case EndRoom(at, _) => w.terminal.None? && at <= w.now
                   case _ => true;
      var evidence := k.evidence + if wakes && !s.EndRoom? then 1 else 0;
      && w' == w.(intervals := w'.intervals, terminal := w'.terminal, work := w'.work)
      && w'.terminal == (if wakes && s.EndRoom? then Some(s.at) else w.terminal)
      && (!wakes ==> w' == w)
      && (wakes ==>
            w'.intervals == match s
                            case SignedJoin(sid, who, at, terminal, _) => WithJoin(w.intervals, sid, who, at, terminal)
                            case SignedLeave(sid, at, _) => WithLeave(w.intervals, sid, at)
                            case _ => w.intervals)
      && (wakes ==>
            w'.work == if k.status == Processing then k.(evidence := evidence)
                       else k.(status := Pending, leasedUntil := 0, evidence := evidence,
                               availableAt := Min(k.availableAt, Min(s.received, w.now))))
  {
  }

  /** Work is claimed by an open batch, by its clock, exactly when due or abandoned; the claim
      remembers the evidence it has seen. */
  lemma ClaimIsExact(w: World, k: nat)
    ensures var w' := Next(w, Claim(k));
      var due := k in w.batches && k !in w.passes && match w.work.status
                                                     case Pending => w.work.availableAt <= w.batches[k]
                                                     case Processing => w.work.leasedUntil <= w.batches[k]
                                                     case Succeeded => false;
      && (!due ==> w' == w)
      && (due ==>
            w' == w.(work := w.work.(status := Processing, attempts := w.work.attempts + 1, leasedUntil := w.batches[k] + LEASE),
                     passes := w.passes[k := Claimed(w.work.attempts + 1, w.work.evidence, w.batches[k])]))
  {
  }

  /** A listing remembers what the provider shows, once. */
  lemma ListIsExact(w: World, k: nat)
    ensures k in w.passes && w.passes[k].Claimed? ==>
      var p := w.passes[k];
      Next(w, List(k)) == w.(passes := w.passes[k := Listed(p.attempts, p.evidence, p.observedAt, w.live)])
    ensures k !in w.passes || w.passes[k].Listed? ==> Next(w, List(k)) == w
  {
  }

  /** A pass that fails gives the work back only under its claim. */
  lemma FailureIsExact(w: World, k: nat, retryAt: nat)
    requires k in w.passes
    ensures var w' := Next(w, Fail(k, retryAt));
      && w' == w.(passes := w.passes - {k}, work := w'.work)
      && w'.work == if w.work.status == Processing && w.work.attempts == w.passes[k].attempts
                    then w.work.(status := Pending, availableAt := retryAt, leasedUntil := 0) else w.work
  {
  }

  /** A batch ends without passes, or by a crash with its own. */
  lemma BatchEndIsExact(w: World, k: nat)
    ensures Next(w, Crash(k)) == w.(passes := w.passes - {k}, batches := w.batches - {k})
    ensures Next(w, EndBatch(k)) == if k in w.passes then w else w.(batches := w.batches - {k})
  {
  }

  /** Records kept by hand: staff's for the eligible replace any, one's own only a missing one. */
  lemma ManualRecordsAreExact(w: World, who: Identity, state: AttendanceState, source: AttendanceSource)
    ensures Next(w, RecordStaff(who, state, source))
      == (if who in w.eligible && source in {Coordinator, Presenter, Administrator}
          then w.(records := Records(w.records.attendance[who := Attendance(state, source)], w.records.decisions)) else w)
    ensures Next(w, RecordSelf(who, state))
      == (if who !in w.records.attendance
          then w.(records := Records(w.records.attendance[who := Attendance(state, SelfCheckIn)], w.records.decisions)) else w)
  {
  }

  // ----- a listing is applied only to the evidence it was claimed for -----

  /** A signed webhook; the departure a join already knows is not before it. */
  predicate Heard(s: Step) {
    s.SignedLeave? || (s.SignedJoin? && (s.terminal.Some? ==> s.at <= s.terminal.value))
  }

  predicate Ends(s: Step, k: nat) {
    (s.Reconcile? || s.Fail? || s.Crash?) && s.worker == k
  }

  lemma PassKeepsItsRevisionNext(w: World, k: nat, s: Step)
    requires k in w.passes && !Ends(s, k)
    ensures k in Next(w, s).passes && Next(w, s).passes[k].evidence == w.passes[k].evidence
    ensures Next(w, s).work.evidence >= w.work.evidence + if Heard(s) then 1 else 0
  {
  }

  lemma {:induction false} PassKeepsItsRevision(w: World, k: nat, steps: seq<Step>)
    requires k in w.passes && forall s :: s in steps ==> !Ends(s, k)
    ensures k in Run(w, steps).passes && Run(w, steps).passes[k].evidence == w.passes[k].evidence
    ensures Run(w, steps).work.evidence >= w.work.evidence + if exists s :: s in steps && Heard(s) then 1 else 0
    decreases |steps|
  {
    if steps != [] {
      var w' := Next(w, steps[0]);
      assert !Ends(steps[0], k);
      PassKeepsItsRevisionNext(w, k, steps[0]);
      PassKeepsItsRevision(w', k, steps[1..]);
      assert (exists s :: s in steps && Heard(s)) ==> Heard(steps[0]) || exists s :: s in steps[1..] && Heard(s);
    }
  }

  lemma Discards(w: World, k: nat)
    requires k in w.passes && w.passes[k].evidence != w.work.evidence
    ensures Next(w, Reconcile(k)).intervals == w.intervals && Next(w, Reconcile(k)).records == w.records
  {
  }

  /** When a signed webhook commits after a pass has claimed the work, the pass discards
      its listing whatever else happened, so it closes no interval the webhook opened. */
  lemma StaleListingIsDiscarded(w: World, k: nat, steps: seq<Step>)
    requires k in w.batches && k !in w.passes && Claimable(w.work, w.batches[k])
    requires forall s :: s in steps ==> !Ends(s, k)
    requires exists s :: s in steps && Heard(s)
    ensures var end := Run(Next(w, Claim(k)), steps);
      Next(end, Reconcile(k)).intervals == end.intervals && Next(end, Reconcile(k)).records == end.records
  {
    PassKeepsItsRevision(Next(w, Claim(k)), k, steps);
    Discards(Run(Next(w, Claim(k)), steps), k);
  }

  /** In every run no interval ends before it starts, the reconciled revision trails the
      evidence, and a room reported complete has every interval closed and no evidence unread. */
  lemma CompleteMeansClosed(w: World, steps: seq<Step>)
    requires Started(w)
    ensures var end := Run(w, steps);
      && end.work.reconciled <= end.work.evidence
      && (end.work.status.Succeeded? ==> end.work.reconciled == end.work.evidence && AllClosed(end.intervals))
      && Ordered(end.intervals)
  {
    RunKeeps(w, steps);
  }

  /** In every run an attendee has at most one decision for each mark. */
  lemma AtMostOneDecision(w: World, steps: seq<Step>)
    requires Started(w)
    ensures OneEach(Run(w, steps).records.decisions)
  {
    RunKeeps(w, steps);
  }

  // ----- what a pass decides -----

  predicate Earned(mark: AttendanceState, time: nat, minimum: Option<nat>) {
    time > 0 && (mark.CheckedIn? || (mark.Attended? && minimum.Some? && time >= minimum.value))
  }

  lemma DecideDecides(r: Records, who: Identity, mark: AttendanceState, time: nat, at: nat, w: Identity, m: AttendanceState)
    ensures Decided(Decide(r, who, mark, time, at), w, m) <==> Decided(r, w, m) || (w == who && m == mark)
  {
    var r' := Decide(r, who, mark, time, at);
    if !Decided(r, who, mark) {
      assert r'.decisions[|r.decisions|].who == who && r'.decisions[|r.decisions|].mark == mark;
      forall i | 0 <= i < |r.decisions| ensures r'.decisions[i] == r.decisions[i] {}
    }
  }

  lemma DecideForDecides(r: Records, who: Identity, time: nat, minimum: Option<nat>, at: nat, w: Identity, m: AttendanceState)
    ensures Decided(DecideFor(r, who, time, minimum, at), w, m) <==> Decided(r, w, m) || (w == who && Earned(m, time, minimum))
  {
    DecideDecides(r, who, CheckedIn, time, at, w, m);
    DecideDecides(Decide(r, who, CheckedIn, time, at), who, Attended, time, at, w, m);
  }

  lemma {:induction false} DecideAllDecides(r: Records, eligible: seq<Identity>, rows: map<nat, Interval>, policy: Policy,
                                             terminal: Option<nat>, hi: int, at: nat, w: Identity, m: AttendanceState)
    ensures Decided(DecideAll(r, eligible, rows, policy, terminal, hi, at), w, m)
      <==> Decided(r, w, m) || (w in eligible && Earned(m, |Overlap(rows, w, terminal, policy.startsAt, hi)|, policy.minimum))
    decreases |eligible|
  {
    if eligible != [] {
      var time := |Overlap(rows, eligible[0], terminal, policy.startsAt, hi)|;
      DecideForDecides(r, eligible[0], time, policy.minimum, at, w, m);
      DecideAllDecides(DecideFor(r, eligible[0], time, policy.minimum, at), eligible[1..], rows, policy, terminal, hi, at, w, m);
    }
  }

  /** A pass decides a mark exactly for the eligible attendees whose connected time in the
      window earns it, on the intervals it leaves behind; no overlap, no decision. */
  lemma DecisionsAreExact(w: World, p: Pass, who: Identity, mark: AttendanceState)
    requires p.Listed?
    ensures Decided(AppliedRecords(w, p), who, mark)
      <==> Decided(w.records, who, mark)
           || (who in w.eligible
               && Earned(mark, |Overlap(AppliedRows(w, p), who, w.terminal, w.policy.startsAt, EvidenceAt(w.terminal, p.observedAt))|,
                         w.policy.minimum))
  {
    DecideAllDecides(w.records, w.eligible, AppliedRows(w, p), w.policy, w.terminal,
                     EvidenceAt(w.terminal, p.observedAt), p.observedAt, who, mark);
  }

  // ----- what a pass records -----

  /** The attendance of a participant, if any. */
  function RecordOf(r: Records, who: Identity): Option<Attendance> {
    if who in r.attendance then Some(r.attendance[who]) else None
  }

  predicate FromStaff(a: Option<Attendance>) {
    a.Some? && a.value.source in {Coordinator, Presenter, Administrator}
  }

  lemma OtherDecisionsLeave(r: Records, other: Identity, time: nat, minimum: Option<nat>, at: nat, who: Identity)
    requires other != who
    ensures var r' := DecideFor(r, other, time, minimum, at);
      && RecordOf(r', who) == RecordOf(r, who)
      && forall m :: Decided(r', who, m) <==> Decided(r, who, m)
  {
    forall m ensures Decided(DecideFor(r, other, time, minimum, at), who, m) <==> Decided(r, who, m) {
      DecideForDecides(r, other, time, minimum, at, who, m);
    }
  }

  lemma DecidedOnce(r: Records, who: Identity, time: nat, minimum: Option<nat>, at: nat)
    ensures var r' := DecideFor(r, who, time, minimum, at); DecideFor(r', who, time, minimum, at) == r'
  {
    DecideForDecides(r, who, time, minimum, at, who, CheckedIn);
    DecideForDecides(r, who, time, minimum, at, who, Attended);
  }

  lemma DecideForDepends(r: Records, q: Records, who: Identity, time: nat, minimum: Option<nat>, at: nat)
    requires RecordOf(r, who) == RecordOf(q, who) && forall m :: Decided(r, who, m) <==> Decided(q, who, m)
    ensures RecordOf(DecideFor(r, who, time, minimum, at), who) == RecordOf(DecideFor(q, who, time, minimum, at), who)
  {
    DecideDecides(r, who, CheckedIn, time, at, who, Attended);
    DecideDecides(q, who, CheckedIn, time, at, who, Attended);
  }

  /** Each participant's record is decided on by itself, once. */
  lemma {:induction false} DecideAllRecords(r: Records, eligible: seq<Identity>, rows: map<nat, Interval>, policy: Policy,
                                             terminal: Option<nat>, hi: int, at: nat, who: Identity)
    ensures RecordOf(DecideAll(r, eligible, rows, policy, terminal, hi, at), who)
      == if who in eligible
         then RecordOf(DecideFor(r, who, |Overlap(rows, who, terminal, policy.startsAt, hi)|, policy.minimum, at), who)
         else RecordOf(r, who)
    decreases |eligible|
  {
    if eligible != [] {
      var time := |Overlap(rows, eligible[0], terminal, policy.startsAt, hi)|;
      var r' := DecideFor(r, eligible[0], time, policy.minimum, at);
      DecideAllRecords(r', eligible[1..], rows, policy, terminal, hi, at, who);
      if eligible[0] == who {
        DecidedOnce(r, who, time, policy.minimum, at);
      } else {
        OtherDecisionsLeave(r, eligible[0], time, policy.minimum, at, who);
        DecideForDepends(r', r, who, |Overlap(rows, who, terminal, policy.startsAt, hi)|, policy.minimum, at);
      }
    }
  }

  /** What a mark newly decided leaves of a record. */
  lemma DecideForRecords(r: Records, who: Identity, time: nat, minimum: Option<nat>, at: nat)
    ensures var was, now := RecordOf(r, who), RecordOf(DecideFor(r, who, time, minimum, at), who);
      var attends := time > 0 && minimum.Some? && minimum.value <= time && !Decided(r, who, Attended);
      var checksIn := time > 0 && !Decided(r, who, CheckedIn);
      && (FromStaff(was) || (!attends && !checksIn) ==> now == was)
      && (!FromStaff(was) && attends ==>
            now == if was.Some? && was.value.state == Attended then was else Some(Attendance(Attended, System)))
      && (!FromStaff(was) && !attends && checksIn ==>
            now == if was.Some? && was.value.state in {Attended, CheckedIn} then was else Some(Attendance(CheckedIn, System)))
  {
    DecideDecides(r, who, CheckedIn, time, at, who, Attended);
  }

  /** The instants of the window at which the participant was connected, up to the room's end. */
  lemma OverlapIsExact(rows: map<nat, Interval>, who: Identity, terminal: Option<nat>, lo: int, hi: int, t: int)
    ensures t in Overlap(rows, who, terminal, lo, hi)
      <==> lo <= t < hi && (terminal.Some? ==> t < terminal.value)
           && exists s :: s in rows && rows[s].identity == who && rows[s].joinedAt <= t
                          && (rows[s].left.Some? ==> t < rows[s].left.value.at)
  {
    if s :| s in rows && rows[s].identity == who && rows[s].joinedAt <= t && (rows[s].left.Some? ==> t < rows[s].left.value.at) {
      assert (terminal.Some? ==> t < terminal.value) ==> Connected(rows[s], terminal, t);
    }
  }

  /** After a pass that applies, on the intervals it leaves: a participant not eligible, or not
      connected in the window, or whom staff have recorded, keeps the record; otherwise a mark
      earned and not decided before is recorded, unless one as good is there already. */
  lemma RecordsAreExact(w: World, k: nat, who: Identity)
    requires Applies(w, k)
    ensures var w' := Next(w, Reconcile(k));
      var time := |Overlap(w'.intervals, who, w.terminal, w.policy.startsAt, DatedAt(w, k))|;
      var was, now := RecordOf(w.records, who), RecordOf(w'.records, who);
      var counts := who in w.eligible && time > 0 && !FromStaff(was);
      var attends := counts && w.policy.minimum.Some? && w.policy.minimum.value <= time && !Decided(w.records, who, Attended);
      var checksIn := counts && !Decided(w.records, who, CheckedIn);
      now == if attends && !(was.Some? && was.value.state == Attended) then Some(Attendance(Attended, System))
             else if !attends && checksIn && !(was.Some? && was.value.state in {Attended, CheckedIn})
             then Some(Attendance(CheckedIn, System))
             else was
  {
    var p := w.passes[k];
    assert EvidenceAt(w.terminal, p.observedAt) == DatedAt(w, k);
    DecideAllRecords(w.records, w.eligible, AppliedRows(w, p), w.policy, w.terminal, EvidenceAt(w.terminal, p.observedAt),
                     p.observedAt, who);
    DecideForRecords(w.records, who, |Overlap(AppliedRows(w, p), who, w.terminal, w.policy.startsAt, DatedAt(w, k))|,
                     w.policy.minimum, p.observedAt);
  }

  /** A decision is on an eligible participant's connected time, dated by the pass, and says
      whether staff's record was left. */
  ghost predicate NewDecision(d: Decision, r: Records, eligible: seq<Identity>, rows: map<nat, Interval>, policy: Policy,
                              terminal: Option<nat>, hi: int, at: nat) {
    && d.who in eligible && d.time == |Overlap(rows, d.who, terminal, policy.startsAt, hi)| && d.at == at
    && Earned(d.mark, d.time, policy.minimum) && !Decided(r, d.who, d.mark)
    && (d.outcome == PreservedManual <==> FromStaff(RecordOf(r, d.who)))
  }

  lemma DecideForAppends(r: Records, who: Identity, time: nat, minimum: Option<nat>, at: nat, i: nat)
    requires |r.decisions| <= i < |DecideFor(r, who, time, minimum, at).decisions|
    ensures var d := DecideFor(r, who, time, minimum, at).decisions[i];
      && d.who == who && d.time == time && d.at == at && Earned(d.mark, time, minimum) && !Decided(r, who, d.mark)
      && (d.outcome == PreservedManual <==> FromStaff(RecordOf(r, who)))
  {
    DecideDecides(r, who, CheckedIn, time, at, who, Attended);
  }

  lemma {:induction false} DecideAllAppends(r: Records, eligible: seq<Identity>, rows: map<nat, Interval>, policy: Policy,
                                             terminal: Option<nat>, hi: int, at: nat, i: nat)
    requires |r.decisions| <= i < |DecideAll(r, eligible, rows, policy, terminal, hi, at).decisions|
    ensures NewDecision(DecideAll(r, eligible, rows, policy, terminal, hi, at).decisions[i], r, eligible, rows, policy,
                        terminal, hi, at)
    decreases |eligible|
  {
    var time := |Overlap(rows, eligible[0], terminal, policy.startsAt, hi)|;
    var r' := DecideFor(r, eligible[0], time, policy.minimum, at);
    DecideAllKeeps(r', eligible[1..], rows, policy, terminal, hi, at, eligible[0]);
    if i < |r'.decisions| {
      DecideForAppends(r, eligible[0], time, policy.minimum, at, i);
    } else {
      DecideAllAppends(r', eligible[1..], rows, policy, terminal, hi, at, i);
      var d := DecideAll(r', eligible[1..], rows, policy, terminal, hi, at).decisions[i];
      DecideForDecides(r, eligible[0], time, policy.minimum, at, d.who, d.mark);
      if d.who != eligible[0] { OtherDecisionsLeave(r, eligible[0], time, policy.minimum, at, d.who); }
    }
  }

  /** Every decision a pass adds. */
  lemma NewDecisionsAreExact(w: World, k: nat, i: nat)
    requires Applies(w, k) && |w.records.decisions| <= i < |Next(w, Reconcile(k)).records.decisions|
    ensures var w' := Next(w, Reconcile(k));
      NewDecision(w'.records.decisions[i], w.records, w.eligible, w'.intervals, w.policy, w.terminal, DatedAt(w, k),
                  w.passes[k].observedAt)
  {
    var p := w.passes[k];
    assert EvidenceAt(w.terminal, p.observedAt) == DatedAt(w, k);
    DecideAllAppends(w.records, w.eligible, AppliedRows(w, p), w.policy, w.terminal, EvidenceAt(w.terminal, p.observedAt),
                     p.observedAt, i);
  }

  // ----- a listing applied again -----

  lemma {:induction false} NothingLeftToDecide(r: Records, eligible: seq<Identity>, rows: map<nat, Interval>, policy: Policy,
                                                terminal: Option<nat>, hi: int, at: nat)
    requires forall w, m :: w in eligible && Earned(m, |Overlap(rows, w, terminal, policy.startsAt, hi)|, policy.minimum)
                            ==> Decided(r, w, m)
    ensures DecideAll(r, eligible, rows, policy, terminal, hi, at) == r
    decreases |eligible|
  {
    if eligible != [] {
      var time := |Overlap(rows, eligible[0], terminal, policy.startsAt, hi)|;
      assert eligible[0] in eligible;
      assert time > 0 ==> Earned(CheckedIn, time, policy.minimum);
      assert time > 0 && policy.minimum.Some? && time >= policy.minimum.value ==> Earned(Attended, time, policy.minimum);
      assert DecideFor(r, eligible[0], time, policy.minimum, at) == r;
      NothingLeftToDecide(r, eligible[1..], rows, policy, terminal, hi, at);
    }
  }

  /** Applying the same listing again changes nothing. */
  lemma RerunChangesNothing(w: World, p: Pass)
    requires p.Listed?
    ensures var w' := w.(intervals := AppliedRows(w, p), records := AppliedRecords(w, p));
      AppliedRows(w', p) == w'.intervals && AppliedRecords(w', p) == w'.records
  {
    var w' := w.(intervals := AppliedRows(w, p), records := AppliedRecords(w, p));
    assert AppliedRows(w', p) == AppliedRows(w, p);
    var hi := EvidenceAt(w.terminal, p.observedAt);
    forall who, m | who in w.eligible && Earned(m, |Overlap(w'.intervals, who, w.terminal, w.policy.startsAt, hi)|, w.policy.minimum)
      ensures Decided(w'.records, who, m)
    {
      DecisionsAreExact(w, p, who, m);
    }
    NothingLeftToDecide(w'.records, w.eligible, w'.intervals, w.policy, w.terminal, hi, p.observedAt);
  }

  // ----- staff decisions, and past decisions, stay -----

  lemma {:induction false} DecideAllKeeps(r: Records, eligible: seq<Identity>, rows: map<nat, Interval>, policy: Policy,
                                           terminal: Option<nat>, hi: int, at: nat, who: Identity)
    ensures var r' := DecideAll(r, eligible, rows, policy, terminal, hi, at);
      && r.decisions <= r'.decisions
      && (who in r.attendance ==> who in r'.attendance)
      && (who in r.attendance && (ByStaff(r.attendance[who].source) || r.attendance[who].state.Attended?)
          ==> r'.attendance[who] == r.attendance[who])
    decreases |eligible|
  {
    if eligible != [] {
      var time := |Overlap(rows, eligible[0], terminal, policy.startsAt, hi)|;
      DecideAllKeeps(DecideFor(r, eligible[0], time, policy.minimum, at), eligible[1..], rows, policy, terminal, hi, at, who);
    }
  }

  predicate Corrects(s: Step, who: Identity) { s.RecordStaff? && s.who == who }

  lemma StaffRecordStandsNext(w: World, s: Step, who: Identity)
    requires who in w.records.attendance && ByStaff(w.records.attendance[who].source) && !Corrects(s, who)
    ensures who in Next(w, s).records.attendance
    ensures Next(w, s).records.attendance[who] == w.records.attendance[who]
  {
    if s.Reconcile? && s.worker in w.passes && w.passes[s.worker].Listed? {
      var p := w.passes[s.worker];
      DecideAllKeeps(w.records, w.eligible, AppliedRows(w, p), w.policy, w.terminal,
                     EvidenceAt(w.terminal, p.observedAt), p.observedAt, who);
    }
  }

  /** Once staff have recorded an attendee's attendance, nothing but another staff record
      changes it, whatever passes and webhooks follow. */
  lemma {:induction false} StaffRecordStands(w: World, steps: seq<Step>, who: Identity)
    requires who in w.records.attendance && ByStaff(w.records.attendance[who].source)
    requires forall s :: s in steps ==> !Corrects(s, who)
    ensures who in Run(w, steps).records.attendance
    ensures Run(w, steps).records.attendance[who] == w.records.attendance[who]
    decreases |steps|
  {
    if steps != [] {
      StaffRecordStandsNext(w, steps[0], who);
      StaffRecordStands(Next(w, steps[0]), steps[1..], who);
    }
  }

  /** No step rewrites or drops a decision, and only a pass that applies adds any. */
  lemma DecisionsOnlyGrow(w: World, s: Step)
    ensures w.records.decisions <= Next(w, s).records.decisions
    ensures !s.Reconcile? ==> Next(w, s).records.decisions == w.records.decisions
  {
    if s.Reconcile? && s.worker in w.passes && w.passes[s.worker].Listed? {
      var p := w.passes[s.worker];
      DecideAllKeeps(w.records, w.eligible, AppliedRows(w, p), w.policy, w.terminal,
                     EvidenceAt(w.terminal, p.observedAt), p.observedAt, Attendee(0));
    }
  }

  /** A late signed departure replaces the time the end of the room supplied, without
      touching decisions or attendance, and no later step of any run moves it again. */
  lemma LateDepartureReplacesRoomEnd(w: World, sid: nat, at: nat, received: nat, steps: seq<Step>)
    requires sid in w.intervals && w.intervals[sid].left.Some? && !w.intervals[sid].left.value.source.Webhook?
    requires w.intervals[sid].joinedAt <= at <= w.intervals[sid].left.value.at
    ensures Next(w, SignedLeave(sid, at, received)).records == w.records
    ensures var end := Run(Next(w, SignedLeave(sid, at, received)), steps);
      sid in end.intervals && end.intervals[sid].left == Some(Departure(at, Webhook))
  {
    SignedDepartureStays(Next(w, SignedLeave(sid, at, received)), steps, sid, at);
  }

  lemma SignedDepartureStaysNext(w: World, s: Step, sid: nat, at: nat)
    requires sid in w.intervals && w.intervals[sid].left == Some(Departure(at, Webhook))
    ensures sid in Next(w, s).intervals && Next(w, s).intervals[sid].left == Some(Departure(at, Webhook))
  {
  }

  lemma {:induction false} SignedDepartureStays(w: World, steps: seq<Step>, sid: nat, at: nat)
    requires sid in w.intervals && w.intervals[sid].left == Some(Departure(at, Webhook))
    ensures var end := Run(w, steps);
      sid in end.intervals && end.intervals[sid].left == Some(Departure(at, Webhook))
    decreases |steps|
  {
    if steps != [] {
      SignedDepartureStaysNext(w, steps[0], sid, at);
      SignedDepartureStays(Next(w, steps[0]), steps[1..], sid, at);
    }
  }

  // ----- the recorded time of the last success -----

  ghost predicate Forward(w: World) {
    && w.work.lastSuccessAt <= w.now
    && |w.batches| <= w.workers
    && (forall k :: k in w.batches ==> w.work.lastSuccessAt <= w.batches[k] <= w.now)
    && (forall k :: k in w.passes ==> k in w.batches && w.passes[k].observedAt == w.batches[k])
  }

  lemma OnlyBatch(w: World, k: nat)
    requires |w.batches| <= 1 && k in w.batches
    ensures w.batches == map[k := w.batches[k]]
  {
    assert w.batches.Keys == {k} by {
      SubsetSize({k}, w.batches.Keys);
      if j :| j in w.batches && j != k { SubsetSize({j, k}, w.batches.Keys); }
    }
  }

  lemma BatchForward(w: World, k: nat)
    requires Forward(w) && k !in w.batches && |w.batches| < w.workers
    ensures Forward(w.(batches := w.batches[k := w.now]))
  {
    assert w.batches[k := w.now].Keys == w.batches.Keys + {k};
    assert |w.batches[k := w.now]| == |w.batches| + 1;
  }

  lemma StartForward(w: World, k: nat)
    requires Forward(w)
    ensures Forward(Next(w, StartBatch(k))) && Next(w, StartBatch(k)).work == w.work
  {
    if k !in w.batches && |w.batches| < w.workers { BatchForward(w, k); }
  }

  lemma EndForward(w: World, s: Step)
    requires Forward(w) && (s.EndBatch? || s.Crash?)
    ensures Forward(Next(w, s)) && Next(w, s).work == w.work
  {
    SubsetSize((w.batches - {s.worker}).Keys, w.batches.Keys);
  }

  lemma PassForward(w: World, s: Step)
    requires Forward(w) && (s.Claim? || s.List? || s.Fail?)
    ensures Forward(Next(w, s)) && Next(w, s).work.lastSuccessAt == w.work.lastSuccessAt
  {
  }

  lemma ReconcileForward(w: World, k: nat)
    requires Forward(w) && w.workers <= 1
    ensures Forward(Next(w, Reconcile(k))) && w.work.lastSuccessAt <= Next(w, Reconcile(k)).work.lastSuccessAt
  {
    if k in w.passes { OnlyBatch(w, k); }
  }

  lemma NextForward(w: World, s: Step)
    requires Forward(w) && w.workers <= 1
    ensures Forward(Next(w, s)) && Next(w, s).workers == w.workers
    ensures w.work.lastSuccessAt <= Next(w, s).work.lastSuccessAt
  {
    match s
    case StartBatch(k) => StartForward(w, k);
    case EndBatch(_) => EndForward(w, s);
    case Crash(_) => EndForward(w, s);
    case Claim(_) => PassForward(w, s);
    case List(_) => PassForward(w, s);
    case Fail(_, _) => PassForward(w, s);
    case Reconcile(k) => ReconcileForward(w, k);
    case _ =>
  }

  lemma {:induction false} RunForward(w: World, steps: seq<Step>)
    requires Forward(w) && w.workers <= 1
    ensures Forward(Run(w, steps)) && Run(w, steps).workers == w.workers
    decreases |steps|
  {
    if steps != [] {
      NextForward(w, steps[0]);
      RunForward(Next(w, steps[0]), steps[1..]);
    }
  }

  /** The recorded time of the last successful pass never moves back. */
  ghost predicate NeverMovesBack(workers: nat) {
    forall w, steps, s :: Started(w) && w.workers == workers
      ==> Run(w, steps).work.lastSuccessAt <= Next(Run(w, steps), s).work.lastSuccessAt
  }

  function Idle(workers: nat): World {
    World(workers, 0, map[], Policy(0, None), None, Work(Pending, 0, 0, 0, 0, 0, 0), map[], map[], [], map[],
          Records(map[], []))
  }

  /** The second batch has succeeded, dated by its own clock; the first, with the older clock,
      has claimed nothing yet. */
  function Succeeding(workers: nat): World {
    Idle(workers).(now := 1, batches := map[1 := 0, 2 := 1], work := Work(Pending, 0, 1 + INTERVAL, 0, 0, 0, 1))
  }

  /** A webhook whose clock is as old makes the work due, and the first batch lists it. */
  function Dated(workers: nat): World {
    Succeeding(workers).(work := Work(Processing, 1, 0, LEASE, 1, 0, 1), passes := map[1 := Listed(1, 1, 0, map[])])
  }

  lemma RunCons(w: World, s: Step, rest: seq<Step>)
    ensures Run(w, [s] + rest) == Run(Next(w, s), rest)
  {
    assert ([s] + rest)[1..] == rest;
  }

  lemma RunThree(w: World, a: Step, b: Step, c: Step, rest: seq<Step>)
    ensures Run(w, [a] + ([b] + ([c] + rest))) == Run(Next(Next(Next(w, a), b), c), rest)
  {
    RunCons(w, a, [b] + ([c] + rest));
    RunCons(Next(w, a), b, [c] + rest);
    RunCons(Next(Next(w, a), b), c, rest);
  }

  function TwoBatches(workers: nat): World {
    Idle(workers).(now := 1, batches := map[1 := 0, 2 := 1])
  }

  lemma BatchesOpen(workers: nat)
    requires workers >= 2
    ensures Next(Next(Next(Idle(workers), StartBatch(1)), Advance(1)), StartBatch(2)) == TwoBatches(workers)
  {
    var w1 := Next(Idle(workers), StartBatch(1));
    assert w1.batches == map[1 := 0];
  }

  function SecondListed(workers: nat): World {
    TwoBatches(workers).(work := Work(Processing, 1, 0, 1 + LEASE, 0, 0, 0), passes := map[2 := Listed(1, 0, 1, map[])])
  }

  lemma SecondBatchLists(workers: nat)
    ensures Next(Next(TwoBatches(workers), Claim(2)), List(2)) == SecondListed(workers)
  {
    var w1 := Next(TwoBatches(workers), Claim(2));
    assert w1 == SecondListed(workers).(passes := map[2 := Claimed(1, 0, 1)]);
  }

  lemma SecondBatchSucceeds(workers: nat)
    ensures Next(SecondListed(workers), Reconcile(2)) == Succeeding(workers)
  {
    var w := SecondListed(workers);
    assert w.passes - {2} == map[];
    assert AppliedRows(w, w.passes[2]) == map[];
  }

  lemma FirstBatchLists(workers: nat)
    ensures Next(Next(Next(Succeeding(workers), SignedLeave(0, 0, 0)), Claim(1)), List(1)) == Dated(workers)
  {
    var w1 := Next(Succeeding(workers), SignedLeave(0, 0, 0));
    assert w1 == Succeeding(workers).(work := Work(Pending, 0, 0, 0, 1, 0, 1));
    var w2 := Next(w1, Claim(1));
    assert w2 == w1.(work := Work(Processing, 1, 0, LEASE, 1, 0, 1), passes := map[1 := Claimed(1, 1, 0)]);
  }

  function DatedSteps(): seq<Step> {
    [StartBatch(1)] + ([Advance(1)] + ([StartBatch(2)] + ([Claim(2)] + ([List(2)] + ([Reconcile(2)]
      + ([SignedLeave(0, 0, 0)] + ([Claim(1)] + ([List(1)] + []))))))))
  }

  lemma DatedIsReached(workers: nat)
    requires workers >= 2
    ensures Run(Idle(workers), DatedSteps()) == Dated(workers)
  {
    var last := [SignedLeave(0, 0, 0)] + ([Claim(1)] + ([List(1)] + []));
    var second := [Claim(2)] + ([List(2)] + ([Reconcile(2)] + last));
    BatchesOpen(workers);
    SecondBatchLists(workers);
    SecondBatchSucceeds(workers);
    FirstBatchLists(workers);
    RunThree(Idle(workers), StartBatch(1), Advance(1), StartBatch(2), second);
    RunThree(TwoBatches(workers), Claim(2), List(2), Reconcile(2), last);
    RunThree(Succeeding(workers), SignedLeave(0, 0, 0), Claim(1), List(1), []);
  }

  /** The recorded time of the last success never moves back exactly when batches do not
      overlap: with two open, the one with the older clock may claim last, even though no two
      passes are ever in flight together. */
  lemma SuccessMovesForwardIffBatchesAreSerial(workers: nat)
    ensures NeverMovesBack(workers) <==> workers <= 1
  {
    if workers <= 1 {
      forall w, steps, s | Started(w) && w.workers == workers
        ensures Run(w, steps).work.lastSuccessAt <= Next(Run(w, steps), s).work.lastSuccessAt
      {
        RunForward(w, steps);
        NextForward(Run(w, steps), s);
      }
    } else {
      DatedIsReached(workers);
      assert Started(Idle(workers));
      assert Run(Idle(workers), DatedSteps()).work.lastSuccessAt == 1;
      assert Next(Dated(workers), Reconcile(1)).work.lastSuccessAt == 0;
    }
  }

  // ----- the reconciliation as the server updates it -----

  function WindowOf(i: Interval, terminal: Option<nat>): Window {
    Window(i.joinedAt, if i.left.Some? then Some(i.left.value.at) else None, terminal, None)
  }

  ghost predicate IsWindow(rows: map<nat, Interval>, who: Identity, terminal: Option<nat>, w: Window) {
    exists s :: s in rows && rows[s].identity == who && w == WindowOf(rows[s], terminal)
  }

  /** The windows of an attendee's rows, in whatever order, cover the same instants. */
  lemma WindowsCoverOverlap(rows: map<nat, Interval>, who: Identity, terminal: Option<nat>, ws: seq<Window>, lo: int, hi: int)
    requires forall w :: w in ws ==> IsWindow(rows, who, terminal, w)
    requires forall s :: s in rows && rows[s].identity == who ==> WindowOf(rows[s], terminal) in ws
    ensures ConnectedInstants(ws, lo, hi) == Overlap(rows, who, terminal, lo, hi)
  {
    forall t ensures t in ConnectedInstants(ws, lo, hi) <==> t in Overlap(rows, who, terminal, lo, hi) {
      if t in ConnectedInstants(ws, lo, hi) {
        var i :| 0 <= i < |ws| && InForce(ws[i], t);
        assert ws[i] in ws;
        var s :| s in rows && rows[s].identity == who && ws[i] == WindowOf(rows[s], terminal);
        assert Connected(rows[s], terminal, t);
      }
      if t in Overlap(rows, who, terminal, lo, hi) {
        var s :| s in rows && rows[s].identity == who && Connected(rows[s], terminal, t);
        var i :| 0 <= i < |ws| && ws[i] == WindowOf(rows[s], terminal);
        assert InForce(ws[i], t);
      }
    }
  }

  class AttendanceWork {
    const workers: nat
    const policy: Policy
    var now: nat
    var batches: map<nat, nat>
    var terminal: Option<nat>
    var work: Work
    var passes: map<nat, Pass>
    var live: map<nat, Identity>
    var eligible: seq<Identity>
    var intervals: map<nat, Interval>
    var records: Records

    function View(): World
      reads this
    {
      World(workers, now, batches, policy, terminal, work, passes, live, eligible, intervals, records)
    }

    constructor (workers: nat, policy: Policy, now: nat)
      ensures Started(View()) && this.workers == workers && this.policy == policy
    {
      this.workers, this.policy, this.now := workers, policy, now;
      terminal, work, passes, live := None, Work(Pending, 0, now, 0, 0, 0, 0), map[], map[];
      eligible, intervals, records, batches := [], map[], Records(map[], []), map[];
    }

    /** Reads the clock for all the claims of a batch. */
    method BeginBatch(worker: nat)
      requires worker !in batches && |batches| < workers
      modifies this`batches
      ensures View() == Next(old(View()), StartBatch(worker))
    {
      batches := batches[worker := now];
    }

    method Wake(received: nat, evidenceChanged: bool)
      modifies this`work
      ensures work == Woken(old(work), received, evidenceChanged)
    {
      if evidenceChanged { work := work.(evidence := work.evidence + 1); }
      if !work.status.Processing? {
        work := work.(status := Pending, availableAt := Min(work.availableAt, received), leasedUntil := 0);
      }
    }

    method ClaimWork(worker: nat) returns (claimed: bool)
      requires worker in batches && worker !in passes
      modifies this`work, this`passes
      ensures View() == Next(old(View()), Claim(worker))
      ensures claimed <==> worker in passes
    {
      var at := batches[worker];
      if !((work.status.Pending? && work.availableAt <= at) || (work.status.Processing? && work.leasedUntil <= at)) {
        return false;
      }
      work := work.(status := Processing, attempts := work.attempts + 1, leasedUntil := at + LEASE);
      passes := passes[worker := Claimed(work.attempts, work.evidence, at)];
      claimed := true;
    }

    /** Applies the listing of a pass unless the claim or its evidence has been overtaken. */
    method ReconcileListing(worker: nat) returns (superseded: bool)
      requires worker in passes && passes[worker].Listed?
      modifies this`work, this`passes, this`intervals, this`records
      ensures View() == Next(old(View()), Reconcile(worker))
      ensures superseded <==> !Current(old(work), old(passes)[worker]) || old(work).evidence != old(passes)[worker].evidence
    {
      var pass := passes[worker];
      passes := passes - {worker};
      if !work.status.Processing? || work.attempts != pass.attempts { return true; }
      if work.evidence != pass.evidence {
        work := work.(status := Pending, attempts := 0, availableAt := pass.observedAt, leasedUntil := 0);
        return true;
      }
      ApplyListing(pass);
      superseded := false;
    }

    method ApplyListing(pass: Pass)
      requires pass.Listed?
      modifies this`work, this`intervals, this`records
      ensures intervals == AppliedRows(old(View()), pass) && records == AppliedRecords(old(View()), pass)
      ensures work == AppliedWork(old(View()), pass)
    {
      var at := if terminal.Some? && terminal.value < pass.observedAt then terminal.value else pass.observedAt;
      RefreshIntervals(pass.snapshot, at);
      DecideAttendance(at, pass.observedAt);
      work := Work(if terminal.Some? then Succeeded else Pending, 0,
                   if terminal.Some? then pass.observedAt else pass.observedAt + INTERVAL,
                   0, work.evidence, work.evidence, pass.observedAt);
    }

    method RefreshIntervals(snapshot: map<nat, Identity>, at: nat)
      modifies this`intervals
      ensures intervals == Refreshed(old(intervals), snapshot, eligible, terminal.Some?, at)
    {
      var active := ActiveSids(snapshot, eligible);
      var existing := intervals.Keys;
      intervals := OpenDiscovered(intervals, snapshot, active, at);
      intervals := CloseUnlisted(intervals, existing, active, at);
    }

    /** Opens an interval for every listed participant not seen before. */
    method OpenDiscovered(rows: map<nat, Interval>, snapshot: map<nat, Identity>, active: set<nat>, at: nat)
      returns (added: map<nat, Interval>)
      requires active <= snapshot.Keys
      ensures forall s :: s in added <==> s in rows || s in active
      ensures forall s :: s in added ==>
        added[s] == if s in rows then rows[s] else Discovered(snapshot[s], terminal.Some?, at)
    {
      added := rows;
      var pending := active;
      while pending != {}
        invariant pending <= active
        invariant forall s :: s in added <==> s in rows || (s in active && s !in pending)
        invariant forall s :: s in added ==>
          added[s] == if s in rows then rows[s] else Discovered(snapshot[s], terminal.Some?, at)
        decreases |pending|
      {
        var s :| s in pending;
        pending := pending - {s};
        if s in rows { continue; }
        added := added[s := Discovered(snapshot[s], terminal.Some?, at)];
      }
    }

    /** Closes the existing rows that the listing, or the end of the room, shows to be over. */
    method CloseUnlisted(rows: map<nat, Interval>, existing: set<nat>, active: set<nat>, at: nat)
      returns (closed: map<nat, Interval>)
      requires existing <= rows.Keys
      ensures closed.Keys == rows.Keys
      ensures forall s :: s in rows ==>
        closed[s] == if s in existing then Updated(rows[s], s in active, terminal.Some?, at) else rows[s]
    {
      closed := rows;
      var unchecked := existing;
      while unchecked != {}
        invariant unchecked <= existing && closed.Keys == rows.Keys
        invariant forall s :: s in rows ==>
          closed[s] == if s in existing - unchecked then Updated(rows[s], s in active, terminal.Some?, at) else rows[s]
        decreases |unchecked|
      {
        var s :| s in unchecked;
        unchecked := unchecked - {s};
        if rows[s].left.Some? || (terminal.None? && s in active) { continue; }
        var left := if rows[s].joinedAt < at then at else rows[s].joinedAt;
        closed := closed[s := rows[s].(left := Some(Departure(left, if terminal.Some? then RoomEnd else ProviderReconciliation)))];
      }
    }

    method DecideAttendance(windowEnd: nat, at: nat)
      modifies this`records
      ensures records == DecideAll(old(records), eligible, intervals, policy, terminal, windowEnd, at)
    {
      for i := 0 to |eligible|
        invariant DecideAll(records, eligible[i..], intervals, policy, terminal, windowEnd, at)
                  == DecideAll(old(records), eligible, intervals, policy, terminal, windowEnd, at)
      {
        var time := ConnectedTimeOf(eligible[i], windowEnd);
        assert eligible[i..][1..] == eligible[i + 1..];
        if time == 0 { continue; }
        ApplyDecision(eligible[i], CheckedIn, time, at);
        if policy.minimum.Some? && time >= policy.minimum.value { ApplyDecision(eligible[i], Attended, time, at); }
      }
    }

    method ConnectedTimeOf(who: Identity, windowEnd: nat) returns (time: nat)
      ensures time == |Overlap(intervals, who, terminal, policy.startsAt, windowEnd)|
    {
      var ws: seq<Window> := [];
      var unread := intervals.Keys;
      while unread != {}
        invariant unread <= intervals.Keys
        invariant forall w :: w in ws ==> IsWindow(intervals, who, terminal, w)
        invariant forall s :: s in intervals && s !in unread && intervals[s].identity == who ==> WindowOf(intervals[s], terminal) in ws
        decreases |unread|
      {
        var s :| s in unread;
        unread := unread - {s};
        if intervals[s].identity == who { ws := ws + [WindowOf(intervals[s], terminal)]; }
      }
      WindowsCoverOverlap(intervals, who, terminal, ws, policy.startsAt, windowEnd);
      time := QualifyingTime(ws, policy.startsAt, windowEnd);
    }

    method ApplyDecision(who: Identity, mark: AttendanceState, time: nat, at: nat)
      modifies this`records
      ensures records == Decide(old(records), who, mark, time, at)
    {
      if exists i :: 0 <= i < |records.decisions| && records.decisions[i].who == who && records.decisions[i].mark == mark { return; }
      var outcome := Applied;
      if who in records.attendance {
        var previous := records.attendance[who];
        if ByStaff(previous.source) { outcome := PreservedManual; }
        else if previous.state.Attended? || (mark.CheckedIn? && previous.state.CheckedIn?) { outcome := AlreadySatisfied; }
      }
      records := records.(decisions := records.decisions + [Decision(who, mark, time, at, outcome)]);
      if outcome != Applied { return; }
      records := records.(attendance := records.attendance[who := Attendance(mark, System)]);
    }
  }
}
