/**
 Closing an ended room for good.

 A provider room comes back whenever somebody joins it with an unexpired token, or
 when a pass that prepares the room reaches the provider late. Closing is therefore a
 queued operation too: each pass deletes the provider room and the operation settles
 only once no stored credential was unexpired when the pass began. Passes are not
 transactions, so their parts are separate steps.
 */
module RoomClosure {
  import opened Prelude
  import opened QueuedWork

  datatype Operation = Operation(status: Status, attempts: nat, availableAt: nat, leasedUntil: nat)

  datatype Pass =
    | EnsureClaimed(attempts: nat, leasedUntil: nat)
    | EnsureCleared(attempts: nat, leasedUntil: nat)
    | EnsureCreated(attempts: nat, leasedUntil: nat)
    | EnsureCompensating
    | CloseClaimed(attempts: nat, startedAt: nat)
    | CloseChecked(attempts: nat, startedAt: nat)
    | CloseDeleted(attempts: nat, startedAt: nat)

  /** `reservations` are the stored credential expiries by holder. */
  datatype World = World(
    now: nat,
    ended: bool,
    roomExists: bool,
    tokens: set<nat>,
    reservations: map<nat, nat>,
    ensureOp: Option<Operation>,
    closeOp: Option<Operation>,
    passes: map<nat, Pass>)

  /** A claim is dated by a clock read before it. */
  datatype Step =
    | Advance(ticks: nat)
    | IssueToken(holder: nat, expires: nat)
    | Join(token: nat)
    | ProviderDropsRoom
    | End
    | ClaimEnsure(worker: nat, at: nat)
    | ReadRoom(worker: nat)
    | CreateRoom(worker: nat)
    | SettleEnsure(worker: nat)
    | Compensate(worker: nat, closed: bool)
    | FailEnsure(worker: nat, retryAt: nat)
    | ClaimClose(worker: nat, at: nat)
    | CheckClose(worker: nat, reconciled: bool, retryAt: nat)
    | DeleteRoom(worker: nat)
    | SettleClose(worker: nat, latest: nat)
    | FailClose(worker: nat, retryAt: nat)
    | Crash(worker: nat)

  predicate Claimable(o: Operation, now: nat) {
    Due(o.status, o.availableAt, o.leasedUntil, now)
  }

  function ClaimedOp(o: Operation, at: nat): Operation {
    Operation(Processing, o.attempts + 1, o.availableAt, at + LEASE)
  }

  predicate Matches(o: Option<Operation>, attempts: nat) {
    o.Some? && o.value.status.Processing? && o.value.attempts == attempts
  }

  function Finished(o: Option<Operation>, attempts: nat): Option<Operation> {
    if Matches(o, attempts) then Some(o.value.(status := Succeeded, leasedUntil := 0)) else o
  }

  function Retried(o: Option<Operation>, attempts: nat, retryAt: nat): Option<Operation> {
    if Matches(o, attempts)
    then Some(o.value.(status := Pending, leasedUntil := 0, availableAt := retryAt)) else o
  }

  /** A late or failed preparation of an ended room queues its closure again. */
  function Requeued(o: Option<Operation>, now: nat): Option<Operation> {
    if o.Some? then Some(o.value.(status := Pending, availableAt := now, leasedUntil := 0))
    else Some(Operation(Pending, 0, now, 0))
  }

  /** As a closing pass that began at `t` judges it. */
  predicate EnsureUnsettled(w: World, t: nat) {
    w.ensureOp.Some?
    && (w.ensureOp.value.status.Pending?
        || (w.ensureOp.value.status.Processing? && w.ensureOp.value.leasedUntil > t))
  }

  predicate AllExpired(w: World, t: nat) {
    forall h :: h in w.reservations ==> w.reservations[h] <= t
  }

  predicate IsLatest(w: World, latest: nat) {
    latest in w.reservations.Values && forall h :: h in w.reservations ==> w.reservations[h] <= latest
  }

  /** The closure after a pass that deleted the room: due again while a credential that
      was unexpired when the pass began could recreate it. */
  function SettledClose(w: World, p: Pass, latest: nat): Option<Operation>
    requires p.CloseDeleted?
  {
    if !Matches(w.closeOp, p.attempts) then w.closeOp
    else if AllExpired(w, p.startedAt) then Finished(w.closeOp, p.attempts)
    else Some(Operation(Pending, 0, Min(latest, p.startedAt + RECHECK), 0))
  }

  function Held(w: World, holder: nat): nat {
    if holder in w.reservations then w.reservations[holder] else 0
  }

  // ----- the passes that prepare the room -----

  function EnsureStep(w: World, s: Step): World
    requires s.ReadRoom? || s.CreateRoom? || s.SettleEnsure? || s.Compensate? || s.FailEnsure?
  {
    if s.worker !in w.passes then w else
    var p := w.passes[s.worker];
    var rest := w.passes - {s.worker};
    match s
    case ReadRoom(k) =>
      if !p.EnsureClaimed? then w
      else if w.ended then w.(ensureOp := Finished(w.ensureOp, p.attempts), passes := rest)
      else w.(passes := w.passes[k := EnsureCleared(p.attempts, p.leasedUntil)])
    case CreateRoom(k) =>
      if !p.EnsureCleared? then w
      else w.(roomExists := true, passes := w.passes[k := EnsureCreated(p.attempts, p.leasedUntil)])
    case SettleEnsure(k) =>
      if !p.EnsureCreated? then w
      else w.(ensureOp := Finished(w.ensureOp, p.attempts),
              passes := if w.ended then w.passes[k := EnsureCompensating] else rest)
    case Compensate(_, closed) =>
      if !p.EnsureCompensating? then w
      else if closed then w.(roomExists := false, passes := rest)
      else w.(closeOp := Requeued(w.closeOp, w.now), passes := rest)
    case FailEnsure(_, retryAt) =>
      if !p.EnsureCleared? && !p.EnsureCreated? then w
      else if w.ended
      then w.(ensureOp := Finished(w.ensureOp, p.attempts), closeOp := Requeued(w.closeOp, w.now), passes := rest)
      else w.(ensureOp := Retried(w.ensureOp, p.attempts, retryAt), passes := rest)
  }

  // ----- the passes that close it -----

  function CloseStep(w: World, s: Step): World
    requires s.CheckClose? || s.DeleteRoom? || s.SettleClose? || s.FailClose?
  {
    if s.worker !in w.passes then w else
    var p := w.passes[s.worker];
    var rest := w.passes - {s.worker};
    match s
    case CheckClose(k, reconciled, retryAt) =>
      if !p.CloseClaimed? then w
      else if EnsureUnsettled(w, p.startedAt) || !reconciled
      then w.(closeOp := Retried(w.closeOp, p.attempts, retryAt), passes := rest)
      else w.(passes := w.passes[k := CloseChecked(p.attempts, p.startedAt)])
    case DeleteRoom(k) =>
      if !p.CloseChecked? then w
      else w.(roomExists := false, passes := w.passes[k := CloseDeleted(p.attempts, p.startedAt)])
    case SettleClose(_, latest) =>
      if !p.CloseDeleted? || (!AllExpired(w, p.startedAt) && !IsLatest(w, latest)) then w
      else w.(closeOp := SettledClose(w, p, latest), passes := rest)
    case FailClose(_, retryAt) =>
      if !p.CloseChecked? && !p.CloseDeleted? then w
      else w.(closeOp := Retried(w.closeOp, p.attempts, retryAt), passes := rest)
  }

  /** A step whose guard fails leaves the world as it is. */
  function Next(w: World, s: Step): World {
    match s
    case Advance(ticks) => w.(now := w.now + ticks)
    case IssueToken(holder, expires) =>
      if w.ended || expires <= w.now then w
      else w.(tokens := w.tokens + {expires},
              reservations := w.reservations[holder := Max(Held(w, holder), expires)])
    case Join(token) => if token in w.tokens && token > w.now then w.(roomExists := true) else w
    case ProviderDropsRoom => w.(roomExists := false)
    case End =>
      if w.ended then w
      else w.(ended := true, closeOp := if w.closeOp.Some? then w.closeOp else Some(Operation(Pending, 0, w.now, 0)))
    case ClaimEnsure(k, at) =>
      if w.ensureOp.None? || k in w.passes || at > w.now || !Claimable(w.ensureOp.value, at) then w
      else var o := ClaimedOp(w.ensureOp.value, at);
           w.(ensureOp := Some(o), passes := w.passes[k := EnsureClaimed(o.attempts, o.leasedUntil)])
    case ClaimClose(k, at) =>
      if w.closeOp.None? || k in w.passes || at > w.now || !Claimable(w.closeOp.value, at) then w
      else var o := ClaimedOp(w.closeOp.value, at);
           w.(closeOp := Some(o), passes := w.passes[k := CloseClaimed(o.attempts, at)])
    case Crash(k) => w.(passes := w.passes - {k})
    case CheckClose(_, _, _) => CloseStep(w, s)
    case DeleteRoom(_) => CloseStep(w, s)
    case SettleClose(_, _) => CloseStep(w, s)
    case FailClose(_, _) => CloseStep(w, s)
    case _ => EnsureStep(w, s)
  }

  function Run(w: World, steps: seq<Step>): World
    decreases |steps|
  {
    if steps == [] then w else Run(Next(w, steps[0]), steps[1..])
  }

  /** A room row has just been created, together with the operation that prepares it. */
  predicate Created(w: World) {
    !w.ended && !w.roomExists && w.tokens == {} && w.reservations == map[] && w.passes == map[]
    && w.ensureOp == Some(Operation(Pending, 0, w.now, 0)) && w.closeOp.None?
  }

  // ----- closure waits for every credential -----

  predicate IsClosePass(p: Pass) { p.CloseClaimed? || p.CloseChecked? || p.CloseDeleted? }

  predicate IsEnsurePass(p: Pass) { p.EnsureClaimed? || p.EnsureCleared? || p.EnsureCreated? }

  predicate Closed(w: World) {
    w.closeOp.Some? && w.closeOp.value.status.Succeeded?
  }

  ghost predicate WaitInv(w: World) {
    && (forall t :: t in w.tokens ==> exists h :: h in w.reservations && t <= w.reservations[h])
    && (w.closeOp.Some? ==> w.ended)
    && (forall k :: k in w.passes && IsClosePass(w.passes[k]) ==> w.ended && w.passes[k].startedAt <= w.now)
    && (forall k :: k in w.passes && w.passes[k].EnsureCompensating? ==> w.ended)
    && (Closed(w) ==> AllExpired(w, w.now))
  }

  lemma IssueKeepsWait(w: World, holder: nat, expires: nat)
    requires WaitInv(w)
    ensures WaitInv(Next(w, IssueToken(holder, expires)))
  {
    var w' := Next(w, IssueToken(holder, expires));
    if w' != w {
      forall t | t in w'.tokens ensures exists h :: h in w'.reservations && t <= w'.reservations[h] {
        if t == expires {
          assert holder in w'.reservations && t <= w'.reservations[holder];
        } else {
          var h :| h in w.reservations && t <= w.reservations[h];
          assert h in w'.reservations && t <= w'.reservations[h];
        }
      }
    }
  }

  lemma NextKeepsWait(w: World, s: Step)
    requires WaitInv(w)
    ensures WaitInv(Next(w, s))
  {
    if s.IssueToken? { IssueKeepsWait(w, s.holder, s.expires); }
  }

  lemma {:induction false} RunKeepsWait(w: World, steps: seq<Step>)
    requires WaitInv(w)
    ensures WaitInv(Run(w, steps))
    decreases |steps|
  {
    if steps != [] {
      NextKeepsWait(w, steps[0]);
      RunKeepsWait(Next(w, steps[0]), steps[1..]);
    }
  }

  /** Whatever passes overlap, crash or run late, a closure that has succeeded leaves no
      credential that could still recreate the room; so while any is unexpired the closure
      of an ended room is still queued or under way. */
  lemma ClosureWaitsForEveryToken(w: World, steps: seq<Step>, token: nat)
    requires Created(w)
    ensures var end := Run(w, steps);
      token in end.tokens && token > end.now ==> !Closed(end)
  {
    RunKeepsWait(w, steps);
  }

  // ----- closure is final but for passes past their leases -----

  /** Still under its lease. */
  predicate Live(p: Pass, now: nat) {
    IsEnsurePass(p) && p.leasedUntil > now
  }

  predicate SameClaim(p: Pass, q: Pass) {
    IsEnsurePass(p) && IsEnsurePass(q) && p.attempts == q.attempts
  }

  /** A pass still under lease holds the operation it claimed, alone. */
  ghost predicate LeaseInv(w: World) {
    && (forall k :: k in w.passes && Live(w.passes[k], w.now) ==>
          w.ensureOp.Some? && w.ensureOp.value.status.Processing?
          && w.ensureOp.value.leasedUntil == w.passes[k].leasedUntil
          && w.ensureOp.value.attempts == w.passes[k].attempts)
    && (forall k :: k in w.passes && IsEnsurePass(w.passes[k]) ==>
          w.ensureOp.Some? && w.passes[k].attempts <= w.ensureOp.value.attempts)
    && (forall j, k :: j in w.passes && k in w.passes && SameClaim(w.passes[j], w.passes[k]) ==> j == k)
  }

  ghost predicate NoPassCanCreate(w: World) {
    forall k :: k in w.passes && Live(w.passes[k], w.now) ==> !w.passes[k].EnsureCleared?
  }

  /** A preparation reaches the provider after its lease has run out. */
  predicate LateCreation(w: World, s: Step) {
    s.CreateRoom? && s.worker in w.passes && w.passes[s.worker].EnsureCleared? && w.passes[s.worker].leasedUntil <= w.now
  }

  /** The provider drops the room, or a pass deletes it. */
  predicate Removes(w: World, s: Step) {
    || s.ProviderDropsRoom?
    || (s.DeleteRoom? && s.worker in w.passes && w.passes[s.worker].CloseChecked?)
    || (s.Compensate? && s.closed && s.worker in w.passes && w.passes[s.worker].EnsureCompensating?)
  }

  predicate StandsAfter(w: World, s: Step, stands: bool) {
    LateCreation(w, s) || (stands && !Removes(w, s))
  }

  /** At the end of the run a room that a late pass created, or the one that stood at its
      beginning, has not been removed since. */
  predicate LateRoomStands(w: World, steps: seq<Step>, stands: bool)
    decreases |steps|
  {
    if steps == [] then stands else LateRoomStands(Next(w, steps[0]), steps[1..], StandsAfter(w, steps[0], stands))
  }

  /** Of a closed room nothing is left but what a late pass has created; `late` says that
      such a room stands. */
  ghost predicate FinalInv(w: World, late: bool) {
    && WaitInv(w)
    && LeaseInv(w)
    && (late ==> w.roomExists)
    && (forall k :: k in w.passes && (w.passes[k].CloseChecked? || w.passes[k].CloseDeleted?) ==> NoPassCanCreate(w))
    && (forall k :: k in w.passes && w.passes[k].CloseDeleted? && AllExpired(w, w.passes[k].startedAt)
                    ==> (w.roomExists <==> late))
    && (Closed(w) ==> (w.roomExists <==> late) && NoPassCanCreate(w))
  }

  lemma EnsureStartKeepsLease(w: World, s: Step)
    requires LeaseInv(w) && (s.ReadRoom? || s.CreateRoom?)
    ensures LeaseInv(Next(w, s))
  {
  }

  lemma EnsureEndKeepsLease(w: World, s: Step)
    requires LeaseInv(w) && (s.SettleEnsure? || s.Compensate?)
    ensures LeaseInv(Next(w, s))
  {
  }

  lemma EnsureFailureKeepsLease(w: World, s: Step)
    requires LeaseInv(w) && s.FailEnsure?
    ensures LeaseInv(Next(w, s))
  {
  }

  lemma EnsureKeepsFinal(w: World, s: Step, late: bool)
    requires FinalInv(w, late)
    requires s.ReadRoom? || s.CreateRoom? || s.SettleEnsure? || s.Compensate? || s.FailEnsure?
    ensures FinalInv(Next(w, s), StandsAfter(w, s, late))
  {
    NextKeepsWait(w, s);
    if s.ReadRoom? || s.CreateRoom? { EnsureStartKeepsLease(w, s); }
    else if s.FailEnsure? { EnsureFailureKeepsLease(w, s); }
    else { EnsureEndKeepsLease(w, s); }
  }

  /** A closing pass leaves the passes that prepare the room as they are. */
  lemma CloseLeavesEnsure(w: World, s: Step)
    requires s.CheckClose? || s.DeleteRoom? || s.SettleClose? || s.FailClose?
    ensures var w' := Next(w, s);
      && w'.now == w.now && w'.ensureOp == w.ensureOp
      && forall k :: k in w'.passes && IsEnsurePass(w'.passes[k]) ==> k in w.passes && w'.passes[k] == w.passes[k]
  {
  }

  lemma CloseKeepsLease(w: World, s: Step)
    requires LeaseInv(w)
    requires s.CheckClose? || s.DeleteRoom? || s.SettleClose? || s.FailClose?
    ensures LeaseInv(Next(w, s))
  {
    CloseLeavesEnsure(w, s);
  }

  lemma CloseStartKeepsFinal(w: World, s: Step, late: bool)
    requires FinalInv(w, late) && (s.CheckClose? || s.DeleteRoom?)
    ensures FinalInv(Next(w, s), StandsAfter(w, s, late))
  {
    NextKeepsWait(w, s);
    CloseKeepsLease(w, s);
  }

  lemma CloseEndKeepsFinal(w: World, s: Step, late: bool)
    requires FinalInv(w, late) && (s.SettleClose? || s.FailClose?)
    ensures FinalInv(Next(w, s), StandsAfter(w, s, late))
  {
    NextKeepsWait(w, s);
    CloseKeepsLease(w, s);
  }

  lemma ClaimEnsureKeepsFinal(w: World, worker: nat, at: nat, late: bool)
    requires FinalInv(w, late)
    ensures FinalInv(Next(w, ClaimEnsure(worker, at)), late)
  {
    NextKeepsWait(w, ClaimEnsure(worker, at));
  }

  lemma ClaimCloseKeepsFinal(w: World, worker: nat, at: nat, late: bool)
    requires FinalInv(w, late)
    ensures FinalInv(Next(w, ClaimClose(worker, at)), late)
  {
    NextKeepsWait(w, ClaimClose(worker, at));
  }

  /** Joining brings the room back only through a token that no closure has outlived. */
  lemma JoinKeepsFinal(w: World, token: nat, late: bool)
    requires FinalInv(w, late)
    ensures FinalInv(Next(w, Join(token)), late)
  {
    NextKeepsWait(w, Join(token));
    if token in w.tokens && token > w.now {
      var h :| h in w.reservations && token <= w.reservations[h];
      assert !Closed(w);
    }
  }

  lemma OtherKeepsFinal(w: World, s: Step, late: bool)
    requires FinalInv(w, late)
    requires s.Advance? || s.IssueToken? || s.ProviderDropsRoom? || s.End? || s.Crash?
    ensures FinalInv(Next(w, s), StandsAfter(w, s, late))
  {
    NextKeepsWait(w, s);
  }

  lemma NextKeepsFinal(w: World, s: Step, late: bool)
    requires FinalInv(w, late)
    ensures FinalInv(Next(w, s), StandsAfter(w, s, late))
  {
    match s
    case Join(token) => JoinKeepsFinal(w, token, late);
    case ClaimEnsure(worker, at) => ClaimEnsureKeepsFinal(w, worker, at, late);
    case ClaimClose(worker, at) => ClaimCloseKeepsFinal(w, worker, at, late);
    case CheckClose(_, _, _) => CloseStartKeepsFinal(w, s, late);
    case DeleteRoom(_) => CloseStartKeepsFinal(w, s, late);
    case SettleClose(_, _) => CloseEndKeepsFinal(w, s, late);
    case FailClose(_, _) => CloseEndKeepsFinal(w, s, late);
    case Advance(_) => OtherKeepsFinal(w, s, late);
    case IssueToken(_, _) => OtherKeepsFinal(w, s, late);
    case ProviderDropsRoom => OtherKeepsFinal(w, s, late);
    case End => OtherKeepsFinal(w, s, late);
    case Crash(_) => OtherKeepsFinal(w, s, late);
    case _ => EnsureKeepsFinal(w, s, late);
  }

  lemma {:induction false} RunKeepsFinal(w: World, steps: seq<Step>, late: bool)
    requires FinalInv(w, late)
    ensures FinalInv(Run(w, steps), LateRoomStands(w, steps, late))
    decreases |steps|
  {
    if steps != [] {
      NextKeepsFinal(w, steps[0], late);
      RunKeepsFinal(Next(w, steps[0]), steps[1..], StandsAfter(w, steps[0], late));
    }
  }

  /** No credential and no pass under lease can bring the room back. */
  ghost predicate GoneForGood(w: World) {
    && w.ended && NoPassCanCreate(w)
    && AllExpired(w, w.now) && forall t :: t in w.tokens ==> t <= w.now
  }

  lemma ClosedIsGone(w: World, late: bool)
    requires FinalInv(w, late) && Closed(w)
    ensures GoneForGood(w)
  {
    forall t | t in w.tokens ensures t <= w.now {
      var h :| h in w.reservations && t <= w.reservations[h];
    }
  }

  lemma NextStaysGone(w: World, s: Step)
    requires GoneForGood(w)
    ensures GoneForGood(Next(w, s)) && Next(w, s).roomExists == StandsAfter(w, s, w.roomExists)
  {
  }

  /** The closure may be queued again, and claimed again; only a late pass recreates the room,
      and only for as long as nothing removes it. */
  lemma {:induction false} GoneStaysGone(w: World, steps: seq<Step>)
    requires GoneForGood(w)
    ensures GoneForGood(Run(w, steps)) && Run(w, steps).roomExists == LateRoomStands(w, steps, w.roomExists)
    decreases |steps|
  {
    if steps != [] {
      NextStaysGone(w, steps[0]);
      GoneStaysGone(Next(w, steps[0]), steps[1..]);
    }
  }

  /** Once a run has brought the closure to success, then and after any continuation of the
      run, whatever becomes of the closure, the room exists exactly when a pass has created it
      after its lease had run out, and it has not been removed since. */
  lemma ClosedRoomExistsIffLate(w: World, before: seq<Step>, after: seq<Step>)
    requires Created(w) && Closed(Run(w, before))
    ensures Run(Run(w, before), after).roomExists
      <==> LateRoomStands(Run(w, before), after, LateRoomStands(w, before, false))
  {
    RunKeepsFinal(w, before, false);
    ClosedIsGone(Run(w, before), LateRoomStands(w, before, false));
    GoneStaysGone(Run(w, before), after);
  }

  predicate EverLate(w: World, steps: seq<Step>)
    decreases |steps|
  {
    steps != [] && (LateCreation(w, steps[0]) || EverLate(Next(w, steps[0]), steps[1..]))
  }

  lemma {:induction false} NoneLateNoneStands(w: World, steps: seq<Step>)
    requires !EverLate(w, steps)
    ensures !LateRoomStands(w, steps, false)
    decreases |steps|
  {
    if steps != [] { NoneLateNoneStands(Next(w, steps[0]), steps[1..]); }
  }

  /** In a run whose passes keep to their leases a closure that has succeeded is final. */
  lemma TimelyClosureIsFinal(w: World, before: seq<Step>, after: seq<Step>)
    requires Created(w) && Closed(Run(w, before)) && !EverLate(w, before) && !EverLate(Run(w, before), after)
    ensures !Run(Run(w, before), after).roomExists
  {
    NoneLateNoneStands(w, before);
    NoneLateNoneStands(Run(w, before), after);
    ClosedRoomExistsIffLate(w, before, after);
  }

  lemma RunCons(w: World, s: Step, rest: seq<Step>)
    ensures Run(w, [s] + rest) == Run(Next(w, s), rest)
  {
    assert ([s] + rest)[1..] == rest;
  }

  lemma RunFour(w: World, a: Step, b: Step, c: Step, d: Step)
    ensures Run(w, [a, b, c, d]) == Next(Next(Next(Next(w, a), b), c), d)
  {
    RunCons(Next(Next(Next(w, a), b), c), d, []);
    RunCons(Next(Next(w, a), b), c, [d]);
    RunCons(Next(w, a), b, [c] + [d]);
    assert [a, b, c, d] == [a] + ([b] + ([c] + [d]));
  }

  lemma {:induction false} RunAppend(w: World, a: seq<Step>, b: seq<Step>)
    ensures Run(w, a + b) == Run(Run(w, a), b)
    decreases |a|
  {
    if a == [] {
      assert a + b == b;
    } else {
      assert a + b == [a[0]] + (a[1..] + b);
      RunCons(w, a[0], a[1..] + b);
      RunAppend(Next(w, a[0]), a[1..], b);
    }
  }

  // ----- a preparation that outlives its lease -----

  const FRESH: World := World(0, false, false, {}, map[], Some(Operation(Pending, 0, 0, 0)), None, map[])

  /** Cleared to prepare the room just before it ended, and stalled until the lease ran out. */
  const STALLED: World :=
    World(LEASE, true, false, {}, map[], Some(Operation(Processing, 1, 0, LEASE)),
          Some(Operation(Pending, 0, 0, 0)), map[1 := EnsureCleared(1, LEASE)])

  const SETTING: seq<Step> := [ClaimEnsure(1, 0), ReadRoom(1), End, Advance(LEASE)]

  lemma StalledIsReached()
    ensures Run(FRESH, SETTING) == STALLED
  {
    RunFour(FRESH, ClaimEnsure(1, 0), ReadRoom(1), End, Advance(LEASE));
  }

  const CLOSED_TOO_SOON: World := STALLED.(closeOp := Some(Operation(Succeeded, 1, 0, 0)))

  const DELETED: World :=
    STALLED.(closeOp := Some(Operation(Processing, 1, 0, LEASE + LEASE)),
             passes := map[1 := EnsureCleared(1, LEASE), 2 := CloseDeleted(1, LEASE)])

  lemma DeletedIsReached()
    ensures Next(Next(Next(STALLED, ClaimClose(2, LEASE)), CheckClose(2, true, 0)), DeleteRoom(2)) == DELETED
  {
    var w1 := DELETED.(passes := map[1 := EnsureCleared(1, LEASE), 2 := CloseClaimed(1, LEASE)]);
    assert Next(STALLED, ClaimClose(2, LEASE)) == w1;
    var w2 := DELETED.(passes := map[1 := EnsureCleared(1, LEASE), 2 := CloseChecked(1, LEASE)]);
    assert Next(w1, CheckClose(2, true, 0)) == w2;
  }

  const CLOSING: seq<Step> := [ClaimClose(2, LEASE), CheckClose(2, true, 0), DeleteRoom(2), SettleClose(2, 0)]

  lemma ClosedTooSoonIsReached()
    ensures Run(STALLED, CLOSING) == CLOSED_TOO_SOON
  {
    RunFour(STALLED, ClaimClose(2, LEASE), CheckClose(2, true, 0), DeleteRoom(2), SettleClose(2, 0));
    DeletedIsReached();
    assert DELETED.passes - {2} == map[1 := EnsureCleared(1, LEASE)];
  }

  /** A run in which a pass cleared before the end creates the room after its closure. */
  lemma LatePassRecreatesRoom()
    ensures Created(FRESH) && Closed(Run(FRESH, SETTING + CLOSING))
    ensures Run(Run(FRESH, SETTING + CLOSING), [CreateRoom(1)]).roomExists
  {
    StalledIsReached();
    ClosedTooSoonIsReached();
    RunAppend(FRESH, SETTING, CLOSING);
    RunCons(CLOSED_TOO_SOON, CreateRoom(1), []);
  }

  /** A succeeded closure may be queued again by a pass that created nothing; what is final is
      that the room is gone, not the closure's status. */
  lemma SucceededClosureMayBeQueuedAgain()
    ensures Closed(CLOSED_TOO_SOON) && !Closed(Next(CLOSED_TOO_SOON, FailEnsure(1, 0)))
  {
  }

  /** A late pass that crashes instead leaves the room behind a succeeded closure, and nobody
      to compensate. */
  lemma CrashLeavesLateRoom()
    ensures var left := Run(CLOSED_TOO_SOON, [CreateRoom(1), Crash(1)]);
      Closed(left) && left.roomExists && left.passes == map[]
  {
    var created := CLOSED_TOO_SOON.(roomExists := true, passes := map[1 := EnsureCreated(1, LEASE)]);
    assert Next(CLOSED_TOO_SOON, CreateRoom(1)) == created;
    RunCons(CLOSED_TOO_SOON, CreateRoom(1), [Crash(1)]);
    RunCons(created, Crash(1), []);
    assert [CreateRoom(1), Crash(1)] == [CreateRoom(1)] + [Crash(1)] && [Crash(1)] == [Crash(1)] + [];
    assert created.passes - {1} == map[];
  }

  // ----- what each part of a pass does -----

  /** Ending a room queues its closure at once, unless it has one; tokens are issued only
      before the end, unexpired, and only such a token brings the room back. */
  lemma LifecycleIsExact(w: World, holder: nat, expires: nat)
    ensures Next(w, End)
      == (if w.ended then w
          else if w.closeOp.Some? then w.(ended := true)
          else w.(ended := true, closeOp := Some(Operation(Pending, 0, w.now, 0))))
    ensures Next(w, IssueToken(holder, expires))
      == (if w.ended || expires <= w.now then w
          else w.(tokens := w.tokens + {expires},
                  reservations := w.reservations[holder :=
                    if holder in w.reservations then Max(w.reservations[holder], expires) else expires]))
    ensures Next(w, Join(expires)) == if expires in w.tokens && expires > w.now then w.(roomExists := true) else w
  {
  }

  predicate IsDue(o: Option<Operation>, at: nat) {
    o.Some? && match o.value.status
               case Pending => o.value.availableAt <= at
               case Processing => o.value.leasedUntil <= at
               case Succeeded => true
  }

  /** Preparation and closure are claimed exactly when due, pending or abandoned. */
  lemma ClaimsAreExact(w: World, k: nat, at: nat)
    ensures var free := k !in w.passes && at <= w.now;
      && (!(free && IsDue(w.ensureOp, at)) ==> Next(w, ClaimEnsure(k, at)) == w)
      && (!(free && IsDue(w.closeOp, at)) ==> Next(w, ClaimClose(k, at)) == w)
      && (free && IsDue(w.ensureOp, at) ==>
            var o := w.ensureOp.value;
            Next(w, ClaimEnsure(k, at))
            == w.(ensureOp := Some(Operation(Processing, o.attempts + 1, o.availableAt, at + LEASE)),
                  passes := w.passes[k := EnsureClaimed(o.attempts + 1, at + LEASE)]))
      && (free && IsDue(w.closeOp, at) ==>
            var o := w.closeOp.value;
            Next(w, ClaimClose(k, at))
            == w.(closeOp := Some(Operation(Processing, o.attempts + 1, o.availableAt, at + LEASE)),
                  passes := w.passes[k := CloseClaimed(o.attempts + 1, at)]))
  {
  }

  predicate Holds(o: Option<Operation>, attempts: nat) {
    o.Some? && o.value.status == Processing && o.value.attempts == attempts
  }

  function SettledOp(o: Option<Operation>, attempts: nat): Option<Operation> {
    if Holds(o, attempts) then Some(Operation(Succeeded, attempts, o.value.availableAt, 0)) else o
  }

  function PutOffOp(o: Option<Operation>, attempts: nat, retryAt: nat): Option<Operation> {
    if Holds(o, attempts) then Some(Operation(Pending, attempts, retryAt, 0)) else o
  }

  function QueuedOp(o: Option<Operation>, now: nat): Option<Operation> {
    Some(Operation(Pending, if o.Some? then o.value.attempts else 0, now, 0))
  }

  /** A closing pass is put off while the room is being prepared or its attendance is not
      reconciled; else it goes on to delete the room, and a failure in between leaves the
      closure to be retried, each only under its claim. */
  lemma ClosingPartsAreExact(w: World, k: nat, reconciled: bool, retryAt: nat)
    requires k in w.passes && IsClosePass(w.passes[k])
    ensures var p, ended := w.passes[k], w.(passes := w.passes - {k});
      var unsettled := w.ensureOp.Some?
        && (w.ensureOp.value.status == Pending
            || (w.ensureOp.value.status == Processing && p.startedAt < w.ensureOp.value.leasedUntil));
      && Next(w, CheckClose(k, reconciled, retryAt))
         == (if !p.CloseClaimed? then w
             else if unsettled || !reconciled then ended.(closeOp := PutOffOp(w.closeOp, p.attempts, retryAt))
             else w.(passes := w.passes[k := CloseChecked(p.attempts, p.startedAt)]))
      && Next(w, DeleteRoom(k))
         == (if p.CloseChecked? then w.(roomExists := false, passes := w.passes[k := CloseDeleted(p.attempts, p.startedAt)]) else w)
      && Next(w, FailClose(k, retryAt))
         == (if p.CloseClaimed? then w else ended.(closeOp := PutOffOp(w.closeOp, p.attempts, retryAt)))
  {
  }

  /** The end of a closing pass that has deleted the room: settled when every stored credential
      had expired as it began, else due again at the last expiry or within the interval. */
  lemma ClosingEndIsExact(w: World, k: nat, latest: nat)
    requires k in w.passes && w.passes[k].CloseDeleted?
    requires (exists h :: h in w.reservations && w.reservations[h] > w.passes[k].startedAt) ==>
      latest in w.reservations.Values && forall h :: h in w.reservations ==> w.reservations[h] <= latest
    ensures var p, w' := w.passes[k], Next(w, SettleClose(k, latest));
      var expired := forall h :: h in w.reservations ==> w.reservations[h] <= p.startedAt;
      && w' == w.(passes := w.passes - {k}, closeOp := w'.closeOp)
      && (!Holds(w.closeOp, p.attempts) ==> w'.closeOp == w.closeOp)
      && (Holds(w.closeOp, p.attempts) && expired ==> w'.closeOp == SettledOp(w.closeOp, p.attempts))
      && (Holds(w.closeOp, p.attempts) && !expired ==>
            w'.closeOp == Some(Operation(Pending, 0, Min(latest, p.startedAt + RECHECK), 0)))
  {
    var p := w.passes[k];
    if h :| h in w.reservations && w.reservations[h] > p.startedAt { assert !AllExpired(w, p.startedAt); }
  }

  /** A preparing pass stops at an ended room; else it may reach the provider, and one that
      then finds the room ended settles its operation but has the room to remove. */
  lemma PreparingPartsAreExact(w: World, k: nat, closed: bool, retryAt: nat)
    requires k in w.passes && !IsClosePass(w.passes[k])
    ensures var p, ended := w.passes[k], w.(passes := w.passes - {k});
      && Next(w, ReadRoom(k))
         == (if !p.EnsureClaimed? then w
             else if w.ended then ended.(ensureOp := SettledOp(w.ensureOp, p.attempts))
             else w.(passes := w.passes[k := EnsureCleared(p.attempts, p.leasedUntil)]))
      && Next(w, CreateRoom(k))
         == (if p.EnsureCleared? then w.(roomExists := true, passes := w.passes[k := EnsureCreated(p.attempts, p.leasedUntil)]) else w)
      && Next(w, SettleEnsure(k))
         == (if !p.EnsureCreated? then w
             else if w.ended
             then w.(ensureOp := SettledOp(w.ensureOp, p.attempts), passes := w.passes[k := EnsureCompensating])
             else ended.(ensureOp := SettledOp(w.ensureOp, p.attempts)))
      && Next(w, Compensate(k, closed))
         == (if !p.EnsureCompensating? then w
             else if closed then ended.(roomExists := false)
             else ended.(closeOp := QueuedOp(w.closeOp, w.now)))
      && Next(w, FailEnsure(k, retryAt))
         == (if p.EnsureClaimed? || p.EnsureCompensating? then w
             else if w.ended then ended.(ensureOp := SettledOp(w.ensureOp, p.attempts), closeOp := QueuedOp(w.closeOp, w.now))
             else ended.(ensureOp := PutOffOp(w.ensureOp, p.attempts, retryAt)))
  {
  }

  lemma DeletedPassSettles(w: World, worker: nat, latest: nat)
    requires worker in w.passes && w.passes[worker].CloseDeleted? && w.passes[worker].startedAt == w.now
    requires Matches(w.closeOp, w.passes[worker].attempts)
    requires !AllExpired(w, w.now) ==> IsLatest(w, latest)
    ensures var end := Next(w, SettleClose(worker, latest));
      && end.roomExists == w.roomExists && end.closeOp.Some?
      && (Closed(end) <==> AllExpired(w, w.now))
      && (!Closed(end) ==> var o := end.closeOp.value;
            o.status.Pending? && o.attempts == 0 && w.now < o.availableAt <= w.now + RECHECK)
  {
  }

  lemma UndisturbedPassReaches(w: World, worker: nat)
    requires w.passes == map[] && !EnsureUnsettled(w, w.now) && w.closeOp.Some? && Claimable(w.closeOp.value, w.now)
    ensures var o := ClaimedOp(w.closeOp.value, w.now);
      Next(Next(Next(w, ClaimClose(worker, w.now)), CheckClose(worker, true, 0)), DeleteRoom(worker))
      == w.(closeOp := Some(o), roomExists := false, passes := map[worker := CloseDeleted(o.attempts, w.now)])
  {
    var o := ClaimedOp(w.closeOp.value, w.now);
    var w1 := w.(closeOp := Some(o), passes := map[worker := CloseClaimed(o.attempts, w.now)]);
    var w2 := w1.(passes := map[worker := CloseChecked(o.attempts, w.now)]);
    assert Next(w, ClaimClose(worker, w.now)) == w1;
    assert Next(w1, CheckClose(worker, true, 0)) == w2;
  }

  /** An undisturbed pass over an ended room deletes the provider room, and settles the
      closure just when every stored credential has expired. */
  lemma ClosingPassDeletes(w: World, worker: nat, latest: nat)
    requires w.passes == map[] && !EnsureUnsettled(w, w.now)
    requires w.closeOp.Some? && Claimable(w.closeOp.value, w.now)
    requires !AllExpired(w, w.now) ==> IsLatest(w, latest)
    ensures var end := Run(w, [ClaimClose(worker, w.now), CheckClose(worker, true, 0), DeleteRoom(worker), SettleClose(worker, latest)]);
      && !end.roomExists && end.closeOp.Some?
      && (Closed(end) <==> AllExpired(w, w.now))
      && (!Closed(end) ==> var o := end.closeOp.value;
            o.status.Pending? && o.attempts == 0 && w.now < o.availableAt <= w.now + RECHECK)
  {
    RunFour(w, ClaimClose(worker, w.now), CheckClose(worker, true, 0), DeleteRoom(worker), SettleClose(worker, latest));
    UndisturbedPassReaches(w, worker);
    var o := ClaimedOp(w.closeOp.value, w.now);
    DeletedPassSettles(w.(closeOp := Some(o), roomExists := false, passes := map[worker := CloseDeleted(o.attempts, w.now)]),
                       worker, latest);
  }

  // ----- the room's operations as the server updates them -----

  class RoomOperations {
    var now: nat
    var ended: bool
    var roomExists: bool
    var tokens: set<nat>
    var reservations: map<nat, nat>
    var ensureOp: Option<Operation>
    var closeOp: Option<Operation>
    var passes: map<nat, Pass>

    function View(): World
      reads this
    {
      World(now, ended, roomExists, tokens, reservations, ensureOp, closeOp, passes)
    }

    constructor ()
      ensures View() == FRESH
    {
      now, ended, roomExists, tokens, reservations := 0, false, false, {}, map[];
      ensureOp, closeOp, passes := Some(Operation(Pending, 0, 0, 0)), None, map[];
    }

    /** Ends the room and queues its closure unless one is queued already. */
    method EndRoom()
      modifies this`ended, this`closeOp
      ensures View() == Next(old(View()), End)
    {
      if ended { return; }
      ended := true;
      if closeOp.None? { closeOp := Some(Operation(Pending, 0, now, 0)); }
    }

    /** Nothing is claimed while the closure is leased or not yet due. */
    method ClaimCloseOperation(worker: nat, at: nat) returns (claimed: bool)
      requires worker !in passes && at <= now
      modifies this`closeOp, this`passes
      ensures View() == Next(old(View()), ClaimClose(worker, at))
      ensures claimed <==> worker in passes
    {
      if closeOp.None? { return false; }
      var o := closeOp.value;
      if o.status.Processing? && o.leasedUntil > at { return false; }
      if o.status.Pending? && o.availableAt > at { return false; }
      closeOp := Some(Operation(Processing, o.attempts + 1, o.availableAt, at + LEASE));
      passes := passes[worker := CloseClaimed(o.attempts + 1, at)];
      claimed := true;
    }

    /** The pass is put off while the room may still be being prepared, or while its
        attendance is not reconciled. */
    method CheckBeforeClose(worker: nat, reconciled: bool, retryAt: nat) returns (cleared: bool)
      requires worker in passes && passes[worker].CloseClaimed?
      modifies this`closeOp, this`passes
      ensures View() == Next(old(View()), CheckClose(worker, reconciled, retryAt))
      ensures cleared <==> worker in passes
    {
      var pass := passes[worker];
      cleared := reconciled;
      if ensureOp.Some? {
        var e := ensureOp.value;
        if e.status.Pending? || (e.status.Processing? && e.leasedUntil > pass.startedAt) { cleared := false; }
      }
      if cleared {
        passes := passes[worker := CloseChecked(pass.attempts, pass.startedAt)];
        return;
      }
      passes := passes - {worker};
      if closeOp.Some? && closeOp.value.status.Processing? && closeOp.value.attempts == pass.attempts {
        closeOp := Some(closeOp.value.(status := Pending, availableAt := retryAt, leasedUntil := 0));
      }
    }

    /** Looks for the latest unexpired credential, then settles or queues the closure. */
    method FinishClose(worker: nat) returns (latest: nat)
      requires worker in passes && passes[worker].CloseDeleted?
      modifies this`closeOp, this`passes
      ensures View() == Next(old(View()), SettleClose(worker, latest))
      ensures worker !in passes
    {
      var pass := passes[worker];
      latest := LatestExpiry();
      passes := passes - {worker};
      if closeOp.None? || !closeOp.value.status.Processing? || closeOp.value.attempts != pass.attempts { return; }
      if latest > pass.startedAt {
        closeOp := Some(Operation(Pending, 0, Min(latest, pass.startedAt + RECHECK), 0));
      } else {
        closeOp := Some(closeOp.value.(status := Succeeded, leasedUntil := 0));
      }
    }

    method LatestExpiry() returns (latest: nat)
      ensures forall h :: h in reservations ==> reservations[h] <= latest
      ensures latest == 0 || latest in reservations.Values
    {
      latest := 0;
      var rest := reservations.Keys;
      while rest != {}
        invariant rest <= reservations.Keys
        invariant forall h :: h in reservations && h !in rest ==> reservations[h] <= latest
        invariant latest == 0 || latest in reservations.Values
        decreases |rest|
      {
        var h :| h in rest;
        if reservations[h] > latest { latest := reservations[h]; }
        rest := rest - {h};
      }
    }
  }
}
