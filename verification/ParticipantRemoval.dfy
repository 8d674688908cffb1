/**
 Removing one revoked attendee from a room until the revoked credential expires.

 A revocation queues a removal operation that background passes execute: claim the
 operation under a lease, read the lobby entry, disconnect the identity, settle. A
 pass is not a transaction, so every part of it is a step of its own, and revocations,
 readmissions, joins and other passes fall in between.
 */
module ParticipantRemoval {
  import opened Prelude
  import opened QueuedWork
  import opened Lobby

  datatype Entry = Entry(
    state: AdmissionState,
    admittedByStaff: bool,
    revokedByStaff: bool,
    expires: Option<nat>)

  datatype Operation = Operation(
    status: Status,
    attempts: nat,
    availableAt: nat,
    leasedUntil: nat,
    enforcedUntil: nat)

  datatype Progress = Claimed | Readmitted | Enforcing | Disconnected

  /** What a pass remembers of its claim. `round` counts the revocations queued before it. */
  datatype Pass = Pass(startedAt: nat, attempts: nat, enforcedUntil: nat, progress: Progress, round: nat)

  /** `tokens` are the expiries of the tokens handed out, `session` that of the token the
      attendee is connected with. `condemned` are the tokens that were unexpired at a
      revocation no staff member has since reversed. At most `workers` passes overlap. */
  datatype World = World(
    workers: nat,
    now: nat,
    entry: Entry,
    operation: Option<Operation>,
    passes: map<nat, Pass>,
    tokens: set<nat>,
    session: Option<nat>,
    condemned: set<nat>,
    round: nat)

  /** A claim is dated by a clock read before it.
      Staff also admit everybody waiting at once when they turn automatic admission on. */
  datatype Step =
    | Advance(ticks: nat)
    | IssueToken(expires: nat)
    | Join(token: nat)
    | Drop
    | ObservePresence(open: bool)
    | StaffAdmit
    | StaffDecline
    | Revoke(byStaff: bool)
    | Restore(automatic: bool)
    | AutomaticAdmit
    | Claim(worker: nat, at: nat)
    | ReadEntry(worker: nat)
    | Disconnect(worker: nat)
    | Settle(worker: nat)
    | Fail(worker: nat, retryAt: nat)
    | Crash(worker: nat)

  // ----- the lobby entry -----

  function Issued(e: Entry, expires: nat): Entry {
    var kept := if e.expires.Some? && e.expires.value > expires then e.expires else Some(expires);
    e.(state := if e.state.Connected? then Connected else TokenIssued, expires := kept)
  }

  /** Revocation queues a removal if a token was issued or is unexpired. */
  predicate NeedsRemoval(e: Entry, now: nat) {
    Presence(e.state) || (e.expires.Some? && e.expires.value > now)
  }

  /** Queueing again starts a fresh retry cycle and never shortens the enforcement. */
  function Enqueued(o: Option<Operation>, expires: Option<nat>, now: nat): Operation {
    var wanted := if expires.Some? then expires.value else now;
    var until := if o.Some? && o.value.enforcedUntil > wanted then o.value.enforcedUntil else wanted;
    Operation(Pending, 0, now, 0, until)
  }

  function Revoked(w: World, byStaff: bool): World {
    var w' := w.(entry := w.entry.(state := AdmissionState.Revoked, revokedByStaff := byStaff),
                 condemned := w.condemned + set t | t in w.tokens && t > w.now);
    if NeedsRemoval(w.entry, w.now)
    then w'.(operation := Some(Enqueued(w.operation, w.entry.expires, w.now)), round := w.round + 1)
    else w'
  }

  // ----- the passes -----

  predicate ReadsAsReadmitted(e: Entry) { e.admittedByStaff && Active(e.state) }

  predicate Claimable(o: Operation, now: nat) {
    Due(o.status, o.availableAt, o.leasedUntil, now)
  }

  function Claiming(w: World, worker: nat, at: nat): World
    requires w.operation.Some?
  {
    var o := w.operation.value;
    w.(operation := Some(o.(status := Processing, attempts := o.attempts + 1, leasedUntil := at + LEASE)),
       passes := w.passes[worker := Pass(at, o.attempts + 1, o.enforcedUntil, Claimed, w.round)])
  }

  /** The guard under which a pass may still write the operation it claimed. */
  predicate Matches(w: World, worker: nat) {
    worker in w.passes && w.operation.Some?
    && w.operation.value.status.Processing? && w.operation.value.attempts == w.passes[worker].attempts
  }

  function Settled(o: Operation, p: Pass): Operation {
    if p.progress.Disconnected? && p.enforcedUntil > p.startedAt
    then o.(status := Pending, attempts := 0, leasedUntil := 0,
            availableAt := Min(p.enforcedUntil, p.startedAt + RECHECK))
    else o.(status := Succeeded, leasedUntil := 0)
  }

  /** A step whose guard fails leaves the world as it is. */
  function Next(w: World, s: Step): World {
    match s
    case Advance(ticks) => w.(now := w.now + ticks)
    case IssueToken(expires) =>
      if Active(w.entry.state) && expires > w.now
      then w.(entry := Issued(w.entry, expires), tokens := w.tokens + {expires}) else w
    case Join(token) => if token in w.tokens && token > w.now then w.(session := Some(token)) else w
    case Drop => w.(session := None)
    case ObservePresence(open) =>
      if Presence(w.entry.state) then w.(entry := w.entry.(state := if open then Connected else Left)) else w
    case StaffAdmit =>
      if w.entry.state.Waiting?
      then w.(entry := w.entry.(state := Admitted, admittedByStaff := true), condemned := {}) else w
    case StaffDecline =>
      if w.entry.state.Waiting? then w.(entry := w.entry.(state := Declined)) else w
    case Revoke(byStaff) =>
      if w.entry.state.Declined? || w.entry.state.Revoked? then w else Revoked(w, byStaff)
    case Restore(automatic) =>
      if w.entry.state.Revoked? && !w.entry.revokedByStaff
      then w.(entry := w.entry.(state := if automatic then Admitted else Waiting, admittedByStaff := false)) else w
    case AutomaticAdmit =>
      if w.entry.state.Waiting? then w.(entry := w.entry.(state := Admitted, admittedByStaff := false)) else w
    case Claim(worker, at) =>
      if w.operation.Some? && worker !in w.passes && |w.passes| < w.workers && at <= w.now && Claimable(w.operation.value, at)
      then Claiming(w, worker, at) else w
    case ReadEntry(worker) =>
      if worker in w.passes && w.passes[worker].progress.Claimed?
      then w.(passes := w.passes[worker := w.passes[worker].(progress :=
                if ReadsAsReadmitted(w.entry) then Readmitted else Enforcing)]) else w
    case Disconnect(worker) =>
      if worker in w.passes && w.passes[worker].progress.Enforcing?
      then w.(session := None, passes := w.passes[worker := w.passes[worker].(progress := Disconnected)]) else w
    case Settle(worker) =>
      if worker in w.passes && (w.passes[worker].progress.Readmitted? || w.passes[worker].progress.Disconnected?)
      then w.(operation := if Matches(w, worker) then Some(Settled(w.operation.value, w.passes[worker])) else w.operation,
              passes := w.passes - {worker}) else w
    case Fail(worker, retryAt) =>
      if worker in w.passes
      then w.(operation := if Matches(w, worker)
                           then Some(w.operation.value.(status := Pending, leasedUntil := 0, availableAt := retryAt))
                           else w.operation,
              passes := w.passes - {worker}) else w
    case Crash(worker) => w.(passes := w.passes - {worker})
  }

  function Run(w: World, steps: seq<Step>): World
    decreases |steps|
  {
    if steps == [] then w else Run(Next(w, steps[0]), steps[1..])
  }

  predicate Initial(w: World) {
    w.operation.None? && w.passes == map[] && w.tokens == {} && w.session.None? && w.condemned == {}
    && w.entry.expires.None? && !Presence(w.entry.state)
  }

  // ----- what must hold -----

  /** Until every revoked token has expired the removal stays unsettled, and once it is
      settled the attendee is not connected through a revoked token. */
  predicate Enforced(w: World) {
    && (forall t :: t in w.condemned && t > w.now ==> w.operation.Some? && !w.operation.value.status.Succeeded?)
    && (w.operation.Some? && w.operation.value.status.Succeeded? && w.session.Some?
        ==> w.session.value !in w.condemned)
  }

  predicate Settles(w: World, s: Step) {
    s.Settle? && Matches(w, s.worker)
    && (w.passes[s.worker].progress.Readmitted? || w.passes[s.worker].progress.Disconnected?)
  }

  /** A pass that settles the operation was claimed after the latest revocation queued it. */
  predicate Current(w: World, s: Step) {
    Settles(w, s) ==> w.passes[s.worker].round == w.round
  }

  predicate SettlesCurrently(w: World, steps: seq<Step>)
    decreases |steps|
  {
    steps == [] || (Current(w, steps[0]) && SettlesCurrently(Next(w, steps[0]), steps[1..]))
  }

  ghost predicate Inv(w: World) {
    && (forall t :: t in w.tokens ==> w.entry.expires.Some? && t <= w.entry.expires.value)
    && w.condemned <= w.tokens
    && (w.session.Some? ==> w.session.value in w.tokens)
    && (ReadsAsReadmitted(w.entry) ==> w.condemned == {})
    && (w.condemned != {} ==> w.operation.Some?)
    && (forall t :: t in w.condemned ==> t <= w.operation.value.enforcedUntil)
    && (w.operation.Some? && w.operation.value.status.Succeeded? ==> Spent(w))
    && (forall k :: k in w.passes ==> w.passes[k].round <= w.round && w.passes[k].startedAt <= w.now)
    && (forall k :: k in w.passes && w.passes[k].round == w.round ==> FreshPass(w, w.passes[k]))
  }

  /** No revoked token can connect, or is connected. */
  ghost predicate Spent(w: World) {
    && (forall t :: t in w.condemned ==> t <= w.now)
    && (w.session.Some? ==> w.session.value !in w.condemned)
  }

  /** A pass of the current round knows the enforcement, and what it has seen still holds. */
  ghost predicate FreshPass(w: World, p: Pass) {
    && w.operation.Some? && p.enforcedUntil == w.operation.value.enforcedUntil
    && (p.progress.Readmitted? ==> w.condemned == {})
    && (p.progress.Disconnected? && p.enforcedUntil <= p.startedAt ==> Spent(w))
  }

  lemma LobbyStepKeeps(w: World, s: Step)
    requires Inv(w)
    requires s.Advance? || s.IssueToken? || s.Join? || s.Drop? || s.ObservePresence?
             || s.StaffAdmit? || s.StaffDecline? || s.Restore? || s.AutomaticAdmit?
    ensures Inv(Next(w, s))
  {
  }

  lemma ClaimKeeps(w: World, worker: nat, at: nat)
    requires Inv(w)
    ensures Inv(Next(w, Claim(worker, at)))
  {
  }

  lemma PassStartKeeps(w: World, s: Step)
    requires Inv(w) && (s.ReadEntry? || s.Disconnect?)
    ensures Inv(Next(w, s))
  {
  }

  lemma PassStopKeeps(w: World, s: Step)
    requires Inv(w) && (s.Fail? || s.Crash?)
    ensures Inv(Next(w, s))
  {
  }

  lemma SettleKeeps(w: World, worker: nat)
    requires Inv(w) && Current(w, Settle(worker))
    ensures Inv(Next(w, Settle(worker)))
  {
  }

  lemma NextKeeps(w: World, s: Step)
    requires Inv(w) && Current(w, s)
    ensures Inv(Next(w, s))
  {
    match s
    case Revoke(_) =>
    case Claim(worker, at) => ClaimKeeps(w, worker, at);
    case ReadEntry(_) => PassStartKeeps(w, s);
    case Disconnect(_) => PassStartKeeps(w, s);
    case Settle(worker) => SettleKeeps(w, worker);
    case Fail(_, _) => PassStopKeeps(w, s);
    case Crash(_) => PassStopKeeps(w, s);
    case _ => LobbyStepKeeps(w, s);
  }

  lemma {:induction false} RunKeeps(w: World, steps: seq<Step>)
    requires Inv(w) && SettlesCurrently(w, steps)
    ensures Inv(Run(w, steps))
    decreases |steps|
  {
    if steps != [] {
      NextKeeps(w, steps[0]);
      RunKeeps(Next(w, steps[0]), steps[1..]);
    }
  }

  // ----- one pass at a time is always current -----

  /** The only pass in flight is of the current round, or its operation waits to be claimed. */
  ghost predicate Serial(w: World) {
    && w.workers <= 1 && |w.passes| <= w.workers
    && (forall k :: k in w.passes && w.passes[k].round != w.round ==> w.operation.Some? && w.operation.value.status.Pending?)
  }

  lemma OnlyPass(w: World, k: nat)
    requires |w.passes| <= 1 && k in w.passes
    ensures w.passes.Keys == {k}
  {
    if j :| j in w.passes && j != k { SubsetSize({j, k}, w.passes.Keys); }
  }

  lemma SerialClaim(w: World, worker: nat, at: nat)
    requires Serial(w)
    ensures Serial(Next(w, Claim(worker, at)))
  {
    assert |w.passes| < w.workers ==> w.passes == map[];
  }

  lemma SerialPassStep(w: World, s: Step)
    requires Serial(w) && (s.ReadEntry? || s.Disconnect? || s.Settle? || s.Fail? || s.Crash?)
    ensures Serial(Next(w, s))
  {
    if s.worker in w.passes {
      OnlyPass(w, s.worker);
      assert Next(w, s).passes.Keys <= {s.worker};
      SubsetSize(Next(w, s).passes.Keys, {s.worker});
    }
  }

  lemma {:induction false} SerialRunsSettleCurrently(w: World, steps: seq<Step>)
    requires Serial(w)
    ensures SettlesCurrently(w, steps)
    decreases |steps|
  {
    if steps != [] {
      var s := steps[0];
      if s.Claim? { SerialClaim(w, s.worker, s.at); }
      else if s.ReadEntry? || s.Disconnect? || s.Settle? || s.Fail? || s.Crash? { SerialPassStep(w, s); }
      SerialRunsSettleCurrently(Next(w, s), steps[1..]);
    }
  }

  lemma RunCons(w: World, s: Step, rest: seq<Step>)
    ensures Run(w, [s] + rest) == Run(Next(w, s), rest)
  {
    assert ([s] + rest)[1..] == rest;
  }

  lemma RunFour(w: World, a: Step, b: Step, c: Step, d: Step)
    ensures Run(w, [a, b, c, d]) == Next(Next(Next(Next(w, a), b), c), d)
  {
    RunCons(Next(Next(Next(w, a), b), c), d, []);
    RunCons(Next(Next(w, a), b), c, [d]);
    RunCons(Next(w, a), b, [c] + [d]);
    assert [a, b, c, d] == [a] + ([b] + ([c] + [d]));
  }

  // ----- results over whole runs -----

  /** However many passes overlap, stall or crash, the removal of a revoked attendee is
      enforced in every run in which only passes claimed since the latest queued revocation
      settle the operation. */
  lemma CurrentSettlesEnforce(w: World, steps: seq<Step>)
    requires Initial(w) && SettlesCurrently(w, steps)
    ensures Enforced(Run(w, steps))
  {
    RunKeeps(w, steps);
  }

  /** With one pass at a time that is every run. */
  lemma SerialPassesEnforce(w: World, steps: seq<Step>)
    requires Initial(w) && w.workers <= 1
    ensures Enforced(Run(w, steps))
  {
    SerialRunsSettleCurrently(w, steps);
    CurrentSettlesEnforce(w, steps);
  }

  lemma {:induction false} RunAppend(w: World, a: seq<Step>, b: seq<Step>)
    ensures Run(w, a + b) == Run(Run(w, a), b)
    decreases |a|
  {
    if a == [] {
      assert a + b == b;
    } else {
      assert a + b == [a[0]] + (a[1..] + b);
      RunCons(w, a[0], a[1..] + b);
      RunAppend(Next(w, a[0]), a[1..], b);
    }
  }

  function Admittee(workers: nat): World {
    World(workers, 1, Entry(Admitted, true, false, None), None, map[], {}, None, {}, 0)
  }

  /** Issued a token until 100, lost eligibility, regained it, readmitted by staff: the
      queued removal is still there, with nothing left to enforce. */
  function Readmittee(workers: nat): World {
    World(workers, 1, Entry(Admitted, true, false, Some(100)),
          Some(Operation(Pending, 0, 1, 0, 100)), map[], {100}, None, {}, 1)
  }

  lemma ReadmitteeIsReached(workers: nat)
    ensures Run(Admittee(workers), [IssueToken(100), Revoke(false), Restore(false), StaffAdmit]) == Readmittee(workers)
  {
    var w1 := Next(Admittee(workers), IssueToken(100));
    var w2 := Next(w1, Revoke(false));
    assert w2.condemned == {100};
    RunFour(Admittee(workers), IssueToken(100), Revoke(false), Restore(false), StaffAdmit);
  }

  /** The first pass has read the readmission that a second revocation then reverses, and
      the pass claimed after it has restarted the attempts at the number the first holds. */
  function Overlap(workers: nat): World {
    World(workers, 1, Entry(AdmissionState.Revoked, true, true, Some(100)),
          Some(Operation(Processing, 1, 1, 1 + LEASE, 100)),
          map[1 := Pass(1, 1, 100, Readmitted, 1), 2 := Pass(1, 1, 100, Claimed, 2)],
          {100}, None, {100}, 2)
  }

  lemma OverlapIsReached(workers: nat)
    requires workers >= 2
    ensures Run(Readmittee(workers), [Claim(1, 1), ReadEntry(1), Revoke(true), Claim(2, 1)]) == Overlap(workers)
  {
    RunFour(Readmittee(workers), Claim(1, 1), ReadEntry(1), Revoke(true), Claim(2, 1));
    var w1 := Next(Readmittee(workers), Claim(1, 1));
    var w2 := Next(w1, ReadEntry(1));
    assert w2.passes == map[1 := Pass(1, 1, 100, Readmitted, 1)];
    var w3 := Next(w2, Revoke(true));
    assert w3.condemned == {100};
  }

  /** The first pass now settles the operation although the revoked token is unexpired: it
      matches the restarted attempt, and is of an earlier round. */
  lemma OverlappingPassesSettleEarly(workers: nat)
    ensures !Current(Overlap(workers), Settle(1))
    ensures !Enforced(Next(Overlap(workers), Settle(1)))
  {
    assert Matches(Overlap(workers), 1);
    assert 100 in Next(Overlap(workers), Settle(1)).condemned;
  }

  ghost predicate AlwaysEnforced(workers: nat) {
    forall w, steps :: Initial(w) && w.workers == workers ==> Enforced(Run(w, steps))
  }

  /** Enforcement is certain exactly when at most one pass is in flight at a time. */
  lemma EnforcedIffPassesDoNotOverlap(workers: nat)
    ensures AlwaysEnforced(workers) <==> workers <= 1
  {
    if workers <= 1 {
      forall w, steps | Initial(w) && w.workers == workers ensures Enforced(Run(w, steps)) {
        SerialPassesEnforce(w, steps);
      }
    } else {
      var setting := [IssueToken(100), Revoke(false), Restore(false), StaffAdmit];
      var overlap := [Claim(1, 1), ReadEntry(1), Revoke(true), Claim(2, 1)];
      ReadmitteeIsReached(workers);
      OverlapIsReached(workers);
      OverlappingPassesSettleEarly(workers);
      RunAppend(Admittee(workers), setting, overlap);
      RunCons(Overlap(workers), Settle(1), []);
      RunAppend(Admittee(workers), setting + overlap, [Settle(1)]);
      assert Initial(Admittee(workers)) && !Enforced(Run(Admittee(workers), setting + overlap + [Settle(1)]));
    }
  }

  /** A revoked token whose removal has been settled never connects again, in whatever way
      the run goes on, stale passes included, unless staff readmit the attendee first. */
  lemma SettledTokenStaysOut(w: World, before: seq<Step>, after: seq<Step>, token: nat)
    requires Initial(w) && SettlesCurrently(w, before)
    requires var mid := Run(w, before);
      token in mid.condemned && mid.operation.Some? && mid.operation.value.status.Succeeded?
    requires StaffAdmit !in after
    ensures var end := Run(Run(w, before), after);
      token in end.condemned && token <= end.now && end.session != Some(token)
  {
    RunKeeps(w, before);
    ExpiredTokenStaysOut(Run(w, before), after, token);
  }

  /** A revocation is lifted by nothing but a staff readmission: in no other way, be it
      restored eligibility, a return to waiting or automatic admission, does a run drop or
      shorten a queued removal, or bring the entry to read as readmitted to a pass. */
  lemma {:induction false} OnlyStaffLiftRevocations(w: World, steps: seq<Step>)
    requires StaffAdmit !in steps
    ensures var end := Run(w, steps);
      && w.condemned <= end.condemned
      && (w.operation.Some? ==> end.operation.Some? && end.operation.value.enforcedUntil >= w.operation.value.enforcedUntil)
      && (!ReadsAsReadmitted(w.entry) ==> !ReadsAsReadmitted(end.entry))
    ensures !ReadsAsReadmitted(w.entry) ==>
      forall k :: k in Run(w, steps).passes && Run(w, steps).passes[k].progress.Readmitted? ==>
        k in w.passes && w.passes[k].progress.Readmitted?
    decreases |steps|
  {
    if steps != [] {
      RevocationStays(w, steps[0]);
      OnlyStaffLiftRevocations(Next(w, steps[0]), steps[1..]);
    }
  }

  lemma RevocationStays(w: World, s: Step)
    requires !s.StaffAdmit?
    ensures var w' := Next(w, s);
      && w.condemned <= w'.condemned
      && (w.operation.Some? ==> w'.operation.Some? && w'.operation.value.enforcedUntil >= w.operation.value.enforcedUntil)
      && (!ReadsAsReadmitted(w.entry) ==> !ReadsAsReadmitted(w'.entry))
    ensures !ReadsAsReadmitted(w.entry) ==>
      forall k :: k in Next(w, s).passes && Next(w, s).passes[k].progress.Readmitted? ==>
        k in w.passes && w.passes[k].progress.Readmitted?
  {
    if !ReadsAsReadmitted(w.entry) { EntryStaysUnread(w, s); }
    OperationStays(w, s);
  }

  lemma OperationStays(w: World, s: Step)
    requires !s.StaffAdmit?
    ensures w.condemned <= Next(w, s).condemned
    ensures w.operation.Some? ==>
      Next(w, s).operation.Some? && Next(w, s).operation.value.enforcedUntil >= w.operation.value.enforcedUntil
  {
  }

  lemma EntryStaysUnread(w: World, s: Step)
    requires !s.StaffAdmit? && !ReadsAsReadmitted(w.entry)
    ensures !ReadsAsReadmitted(Next(w, s).entry)
  {
  }

  lemma {:induction false} ExpiredTokenStaysOut(w: World, steps: seq<Step>, token: nat)
    requires token in w.condemned && token <= w.now && w.session != Some(token)
    requires StaffAdmit !in steps
    ensures token in Run(w, steps).condemned && token <= Run(w, steps).now
    ensures Run(w, steps).session != Some(token)
    decreases |steps|
  {
    if steps != [] {
      var w' := Next(w, steps[0]);
      assert token in w'.condemned && token <= w'.now && w'.session != Some(token);
      ExpiredTokenStaysOut(w', steps[1..], token);
    }
  }

  // ----- what each operation does -----

  /** A revocation of an entry not declined or revoked already marks it; and queues a removal
      exactly if the attendee has been given a token, or has one unexpired: due at once, with
      its attempts counted anew, enforced until the later of that expiry and the one in force. */
  lemma RevocationIsExact(w: World, byStaff: bool)
    ensures var e, w' := w.entry, Next(w, Revoke(byStaff));
      var accepted := e.state !in {Declined, AdmissionState.Revoked};
      var queues := accepted && (e.state in {TokenIssued, Connected, Left} || (e.expires.Some? && e.expires.value > w.now));
      && (!accepted ==> w' == w)
      && (accepted ==> w'.entry == e.(state := AdmissionState.Revoked, revokedByStaff := byStaff))
      && (!queues ==> w'.operation == w.operation)
      && (queues ==>
            var wanted := if e.expires.Some? then e.expires.value else w.now;
            var inForce := if w.operation.Some? then w.operation.value.enforcedUntil else 0;
            w'.operation == Some(Operation(Pending, 0, w.now, 0, Max(wanted, inForce))))
      && w'.passes == w.passes && w'.tokens == w.tokens && w'.session == w.session && w'.now == w.now
  {
  }

  /** Every admission step takes effect in one state only, moves nothing but the entry, and
      leaves a queued removal; staff alone are recorded as having admitted. */
  lemma AdmissionIsExact(w: World, s: Step)
    requires s.StaffAdmit? || s.StaffDecline? || s.Restore? || s.AutomaticAdmit?
    ensures var e, w' := w.entry, Next(w, s);
      && w' == w.(entry := w'.entry, condemned := w'.condemned)
      && w'.entry == e.(state := w'.entry.state, admittedByStaff := w'.entry.admittedByStaff)
      && (!s.Restore? ==> (w'.entry != e <==> e.state == Waiting))
      && (s.Restore? ==> (w'.entry.state != e.state <==> e.state == AdmissionState.Revoked && !e.revokedByStaff))
      && (w'.entry.state != e.state ==>
            w'.entry.state == match s
                              case StaffDecline => Declined
                              case Restore(automatic) => if automatic then Admitted else Waiting
                              case _ => Admitted)
      && (w'.entry.admittedByStaff
          <==> if w'.entry.state == e.state || s.StaffDecline? then e.admittedByStaff else s.StaffAdmit?)
  {
  }

  /** A token is issued only in an active state, unexpired, and lasts at least as long as the
      one before; a connection needs a token unexpired. */
  lemma TokensAreExact(w: World, expires: nat)
    ensures var e, w' := w.entry, Next(w, IssueToken(expires));
      && w'.operation == w.operation && w'.passes == w.passes && w'.session == w.session && w'.condemned == w.condemned
      && (w'.tokens != w.tokens || w'.entry != e ==> Active(e.state) && expires > w.now)
      && (Active(e.state) && expires > w.now ==>
            w'.tokens == w.tokens + {expires}
            && w'.entry == e.(state := if e.state == Connected then Connected else TokenIssued,
                              expires := Some(Max(expires, if e.expires.Some? then e.expires.value else 0))))
    ensures Next(w, Join(expires)) == if expires in w.tokens && expires > w.now then w.(session := Some(expires)) else w
  {
  }

  /** Connections end by themselves, and are observed of entries in a presence state only. */
  lemma PresenceIsExact(w: World, open: bool)
    ensures Next(w, Drop) == w.(session := None)
    ensures Next(w, ObservePresence(open))
      == (if w.entry.state in {TokenIssued, Connected, Left}
          then w.(entry := w.entry.(state := if open then Connected else Left)) else w)
  {
  }

  /** A removal is claimed exactly when it is due, pending or abandoned, and a worker is free;
      the claim takes the lease and remembers the attempt and the enforcement. */
  lemma ClaimIsExact(w: World, worker: nat, at: nat)
    ensures var w' := Next(w, Claim(worker, at));
      var free := worker !in w.passes && |w.passes| < w.workers && at <= w.now;
      var due := w.operation.Some? && match w.operation.value.status
                                      case Pending => w.operation.value.availableAt <= at
                                      case Processing => w.operation.value.leasedUntil <= at
                                      case Succeeded => true;
      && (!(free && due) ==> w' == w)
      && (free && due ==>
            var o := w.operation.value;
            && w' == w.(operation := w'.operation, passes := w'.passes)
            && w'.operation == Some(Operation(Processing, o.attempts + 1, o.availableAt, at + LEASE, o.enforcedUntil))
            && w'.passes == w.passes[worker := Pass(at, o.attempts + 1, o.enforcedUntil, Claimed, w.round)])
  {
  }

  /** The parts of a pass between claim and settlement: it reads whether staff have admitted
      the attendee again, disconnects if not, and touches nothing else. */
  lemma PassPartsAreExact(w: World, worker: nat)
    requires worker in w.passes
    ensures var p := w.passes[worker];
      && Next(w, ReadEntry(worker))
         == (if p.progress != Claimed then w
             else w.(passes := w.passes[worker := p.(progress :=
                       if w.entry.admittedByStaff && w.entry.state in {Admitted, TokenIssued, Connected, Left} then Readmitted
                       else Enforcing)]))
      && Next(w, Disconnect(worker))
         == (if p.progress != Enforcing then w
             else w.(session := None, passes := w.passes[worker := p.(progress := Disconnected)]))
      && Next(w, Crash(worker)) == w.(passes := w.passes - {worker})
  {
  }

  /** The end of a pass. It writes the operation only under the status and the attempt it
      claimed: after a disconnection the removal stays queued while its enforcement lasts, is
      rechecked within the interval and counts its attempts anew; else it is settled; and a
      failed pass leaves it to be retried. */
  lemma SettlementIsExact(w: World, worker: nat, retryAt: nat)
    requires worker in w.passes && w.operation.Some?
    ensures var p, o := w.passes[worker], w.operation.value;
      var holds := o.status == Processing && o.attempts == p.attempts;
      var ended := w.(passes := w.passes - {worker});
      var lasts := p.progress == Disconnected && p.startedAt < p.enforcedUntil;
      && Next(w, Fail(worker, retryAt))
         == (if holds then ended.(operation := Some(Operation(Pending, o.attempts, retryAt, 0, o.enforcedUntil))) else ended)
      && Next(w, Settle(worker))
         == (if p.progress !in {Readmitted, Disconnected} then w
             else if !holds then ended
             else if lasts
             then ended.(operation := Some(Operation(Pending, 0, Min(p.enforcedUntil, p.startedAt + RECHECK), 0, o.enforcedUntil)))
             else ended.(operation := Some(Operation(Succeeded, o.attempts, o.availableAt, 0, o.enforcedUntil))))
  {
  }

  /** An undisturbed pass over an entry staff have not readmitted disconnects the attendee,
      and leaves the operation queued again just while the enforcement lasts. */
  lemma EnforcingPassDisconnects(w: World, worker: nat)
    requires w.operation.Some? && Claimable(w.operation.value, w.now)
    requires w.passes == map[] && w.workers >= 1
    requires !ReadsAsReadmitted(w.entry)
    ensures var end := Run(w, [Claim(worker, w.now), ReadEntry(worker), Disconnect(worker), Settle(worker)]);
      && end.session.None? && end.operation.Some?
      && var o := end.operation.value;
         && (o.status.Pending? <==> w.operation.value.enforcedUntil > w.now)
         && (o.status.Succeeded? <==> w.operation.value.enforcedUntil <= w.now)
         && (o.status.Pending? ==> o.attempts == 0 && o.availableAt <= w.now + RECHECK)
  {
    var w3 := Next(Next(Next(w, Claim(worker, w.now)), ReadEntry(worker)), Disconnect(worker));
    RunFour(w, Claim(worker, w.now), ReadEntry(worker), Disconnect(worker), Settle(worker));
    assert Matches(w3, worker);
  }

  // ----- the entry and its operation as the server updates them -----

  datatype Action = Admit | Decline | RevokeAccess

  datatype Outcome = Ready | InvalidTransition | Ineligible

  class LobbySeat {
    const workers: nat
    var now: nat
    var entry: Entry
    var operation: Option<Operation>
    var passes: map<nat, Pass>
    ghost var tokens: set<nat>
    var session: Option<nat>
    ghost var condemned: set<nat>
    var round: nat

    ghost function View(): World
      reads this
    {
      World(workers, now, entry, operation, passes, tokens, session, condemned, round)
    }

    constructor (workers: nat)
      ensures Initial(View()) && this.workers == workers
    {
      this.workers := workers;
      now, entry, operation, passes := 0, Entry(Waiting, false, false, None), None, map[];
      tokens, session, condemned, round := {}, None, {}, 0;
    }

    /** The staff decision on one entry. Admitting an entry already admitted changes
        nothing, so it does not count as a readmission. */
    method ChangeAdmission(action: Action, eligible: bool) returns (outcome: Outcome)
      modifies this`entry, this`operation, this`condemned, this`round
      ensures outcome != Ineligible ==>
        View() == Next(old(View()), match action
                                    case Admit => StaffAdmit
                                    case Decline => StaffDecline
                                    case RevokeAccess => Revoke(true))
      ensures outcome == Ineligible ==> View() == old(View())
      ensures outcome == Ineligible <==> action == Admit && old(entry.state) == Waiting && !eligible
      ensures outcome == InvalidTransition <==> match action
                                                case Admit => old(entry.state) in {Left, Declined, AdmissionState.Revoked}
                                                case Decline => old(entry.state) != Waiting
                                                case RevokeAccess => old(entry.state) == Declined
    {
      if action == Admit && (entry.state.Admitted? || entry.state.TokenIssued? || entry.state.Connected?) {
        return Ready;
      }
      if action == Admit && entry.state.Waiting? && !eligible { return Ineligible; }
      if action != RevokeAccess && !entry.state.Waiting? { return InvalidTransition; }
      if action == RevokeAccess && (entry.state.Declined? || entry.state.Revoked?) {
        return if entry.state.Revoked? then Ready else InvalidTransition;
      }
      match action {
        case Admit =>
          entry := entry.(state := Admitted, admittedByStaff := true);
          condemned := {};
        case Decline =>
          entry := entry.(state := Declined);
        case RevokeAccess =>
          RevokeEntry(true);
      }
      outcome := Ready;
    }

    /** Shared by staff revocation and by the loss of eligibility. */
    method RevokeEntry(byStaff: bool)
      requires !entry.state.Declined? && !entry.state.Revoked?
      modifies this`entry, this`operation, this`condemned, this`round
      ensures View() == Next(old(View()), Revoke(byStaff))
    {
      var before := entry;
      condemned := condemned + set t | t in tokens && t > now;
      entry := entry.(state := AdmissionState.Revoked, revokedByStaff := byStaff);
      if Presence(before.state) || (before.expires.Some? && before.expires.value > now) {
        EnqueueRemoval(if before.expires.Some? then before.expires.value else now);
        round := round + 1;
      }
    }

    method EnqueueRemoval(credentialExpiresAt: nat)
      modifies this`operation
      ensures operation == Some(Enqueued(old(operation), Some(credentialExpiresAt), now))
    {
      match operation {
        case None =>
          operation := Some(Operation(Pending, 0, now, 0, credentialExpiresAt));
        case Some(o) =>
          var until := if o.enforcedUntil > credentialExpiresAt then o.enforcedUntil else credentialExpiresAt;
          operation := Some(Operation(Pending, 0, now, 0, until));
      }
    }

    method ClaimOperation(worker: nat, at: nat) returns (claimed: bool)
      requires worker !in passes && |passes| < workers && at <= now
      modifies this`operation, this`passes
      ensures View() == Next(old(View()), Claim(worker, at))
      ensures claimed <==> worker in passes
    {
      if operation.None? { return false; }
      var o := operation.value;
      if o.status.Processing? && o.leasedUntil > at { return false; }
      if o.status.Pending? && o.availableAt > at { return false; }
      var attempts := o.attempts + 1;
      operation := Some(o.(status := Processing, attempts := attempts, leasedUntil := at + LEASE));
      passes := passes[worker := Pass(at, attempts, o.enforcedUntil, Claimed, round)];
      claimed := true;
    }

    /** Ends a pass: completes the operation, or queues it again while enforcement lasts.
        Either write is guarded by the status and attempt count of the claim. */
    method SettlePass(worker: nat)
      requires worker in passes && (passes[worker].progress.Readmitted? || passes[worker].progress.Disconnected?)
      modifies this`operation, this`passes
      ensures View() == Next(old(View()), Settle(worker))
    {
      var pass := passes[worker];
      passes := passes - {worker};
      if operation.None? { return; }
      var o := operation.value;
      if !o.status.Processing? || o.attempts != pass.attempts { return; }
      if pass.progress.Disconnected? && pass.enforcedUntil > pass.startedAt {
        operation := Some(Operation(Pending, 0, Min(pass.enforcedUntil, pass.startedAt + RECHECK), 0, o.enforcedUntil));
      } else {
        operation := Some(o.(status := Succeeded, leasedUntil := 0));
      }
    }
  }
}
