/**
 Connection intervals: one row per participant SID of a room, opened and closed by
 signed webhooks, by provider snapshots, and by the end of the room.
 */
module ConnectionIntervals {
  import opened Prelude
  import opened Lobby

  datatype Source = Webhook | ProviderReconciliation | RoomEnd

  datatype Departure = Departure(at: nat, source: Source)

  datatype Interval = Interval(identity: Identity, joinedAt: nat, joinedSource: Source, left: Option<Departure>)

  /** A signed join opens the interval, closed at once if its departure is known already.
      It replaces the join time that a snapshot had to guess, never a signed one. */
  function WithJoin(rows: map<nat, Interval>, sid: nat, who: Identity, at: nat, terminal: Option<nat>): map<nat, Interval> {
    if sid !in rows then
      rows[sid := Interval(who, at, Webhook,
                           if terminal.Some? then Some(Departure(terminal.value, Webhook)) else None)]
    else if rows[sid].joinedSource.ProviderReconciliation? && at <= rows[sid].joinedAt
            && (rows[sid].left.Some? ==> at <= rows[sid].left.value.at) then
      rows[sid := rows[sid].(joinedAt := at, joinedSource := Webhook)]
    else rows
  }

  /** A signed departure closes an open interval, and replaces a later time that was not
      signed. */
  function WithLeave(rows: map<nat, Interval>, sid: nat, at: nat): map<nat, Interval> {
    if sid in rows && at >= rows[sid].joinedAt
       && (rows[sid].left.Some? ==> !rows[sid].left.value.source.Webhook? && at <= rows[sid].left.value.at)
    then rows[sid := rows[sid].(left := Some(Departure(at, Webhook)))]
    else rows
  }

  /** No interval ends before it starts. */
  ghost predicate Ordered(rows: map<nat, Interval>) {
    forall s :: s in rows && rows[s].left.Some? ==> rows[s].joinedAt <= rows[s].left.value.at
  }

  /** A signed receipt keeps intervals ordered, moves a start only back and an end only
      back or from open, and changes nothing that was signed. */
  lemma SignedReceiptsRefine(rows: map<nat, Interval>, sid: nat, who: Identity, at: nat, terminal: Option<nat>, s: nat)
    requires Ordered(rows) && s in rows && (terminal.Some? ==> at <= terminal.value)
    ensures Ordered(WithJoin(rows, sid, who, at, terminal)) && Ordered(WithLeave(rows, sid, at))
    ensures s in WithJoin(rows, sid, who, at, terminal) && s in WithLeave(rows, sid, at)
    ensures var i, joined, left := rows[s], WithJoin(rows, sid, who, at, terminal)[s], WithLeave(rows, sid, at)[s];
      && joined.joinedAt <= i.joinedAt && joined.left == i.left && left.joinedAt == i.joinedAt
      && (i.joinedSource.Webhook? ==> joined == i)
      && (i.left.Some? ==> left.left.Some? && left.left.value.at <= i.left.value.at)
      && (i.left.Some? && i.left.value.source.Webhook? ==> left == i)
  {
  }

  /** What a signed join leaves of the row of its SID: a new one starts at its time and ends
      at a departure known already; a guessed start becomes the signed one if that is not
      later, nor behind its end; a signed start stays. No end and no other row moves. */
  lemma SignedJoinIsExact(rows: map<nat, Interval>, sid: nat, who: Identity, at: nat, terminal: Option<nat>)
    ensures var after := WithJoin(rows, sid, who, at, terminal);
      && after.Keys == rows.Keys + {sid} && (forall s :: s in rows && s != sid ==> after[s] == rows[s])
      && (sid !in rows ==>
            after[sid].identity == who && after[sid].joinedAt == at && after[sid].joinedSource == Webhook
            && after[sid].left == if terminal.None? then None else Some(Departure(terminal.value, Webhook)))
      && (sid in rows ==> after[sid].identity == rows[sid].identity && after[sid].left == rows[sid].left)
      && (sid in rows && !rows[sid].joinedSource.ProviderReconciliation? ==> after[sid] == rows[sid])
      && (sid in rows && rows[sid].joinedSource.ProviderReconciliation? ==>
            var was := rows[sid];
            var moves := at <= was.joinedAt && (was.left.Some? ==> at <= was.left.value.at);
            after[sid].joinedAt == (if moves then at else was.joinedAt)
            && after[sid].joinedSource == if moves then Webhook else ProviderReconciliation)
  {
  }

  /** What a signed departure leaves: it closes an open row, replaces a guessed end that is not
      earlier, and does neither before the row's start or against a signed end. */
  lemma SignedDepartureIsExact(rows: map<nat, Interval>, sid: nat, at: nat)
    ensures var after := WithLeave(rows, sid, at);
      && after.Keys == rows.Keys && (forall s :: s in rows && s != sid ==> after[s] == rows[s])
      && (sid in rows ==> after[sid] == rows[sid].(left := after[sid].left))
      && (sid in rows ==>
            var was, now := rows[sid].left, after[sid].left;
            var closes := at >= rows[sid].joinedAt && (was.Some? ==> was.value.source != Webhook && at <= was.value.at);
            now == if closes then Some(Departure(at, Webhook)) else was)
  {
  }

  // ----- what the intervals of one identity say about it -----

  datatype Times = Times(firstConnectedAt: Option<nat>, lastSeenAt: Option<nat>, leftAt: Option<nat>)

  function Of(rows: map<nat, Interval>, who: Identity): set<nat> {
    set s | s in rows && rows[s].identity == who
  }

  predicate Open(rows: map<nat, Interval>, who: Identity) {
    exists s :: s in rows && rows[s].identity == who && rows[s].left.None?
  }

  function Joins(rows: map<nat, Interval>, who: Identity): set<nat> {
    set s | s in rows && rows[s].identity == who :: rows[s].joinedAt
  }

  function Leaves(rows: map<nat, Interval>, who: Identity): set<nat> {
    set s | s in rows && rows[s].identity == who && rows[s].left.Some? :: rows[s].left.value.at
  }

  lemma JoinsOfSome(rows: map<nat, Interval>, who: Identity)
    ensures Of(rows, who) != {} <==> Joins(rows, who) != {}
    ensures Of(rows, who) != {} && !Open(rows, who) ==> Leaves(rows, who) != {}
  {
    if Joins(rows, who) != {} {
      var at :| at in Joins(rows, who);
      var s :| s in rows && rows[s].identity == who && rows[s].joinedAt == at;
      assert s in Of(rows, who);
    }
    if Of(rows, who) != {} {
      var s :| s in Of(rows, who);
      assert rows[s].joinedAt in Joins(rows, who);
      if !Open(rows, who) { assert rows[s].left.value.at in Leaves(rows, who); }
    }
  }

  ghost function TimesOf(rows: map<nat, Interval>, who: Identity): Times {
    JoinsOfSome(rows, who);
    if Of(rows, who) == {} then Times(None, None, None)
    else Times(Some(MinOf(Joins(rows, who))),
               Some(MaxOf(Joins(rows, who) + Leaves(rows, who))),
               if Open(rows, who) then None else Some(MaxOf(Leaves(rows, who))))
  }

  predicate IsRow(rows: map<nat, Interval>, s: nat, who: Identity) {
    s in rows && rows[s].identity == who
  }

  /** The first join, the last join or departure seen, and, once every interval of the identity
      is closed, the last departure. */
  lemma TimesAreExact(rows: map<nat, Interval>, who: Identity)
    ensures var t := TimesOf(rows, who);
      && (t.firstConnectedAt.Some? <==> exists s :: IsRow(rows, s, who))
      && (t.lastSeenAt.Some? <==> exists s :: IsRow(rows, s, who))
      && (t.leftAt.Some? <==> (exists s :: IsRow(rows, s, who)) && forall s :: IsRow(rows, s, who) ==> rows[s].left.Some?)
    ensures var t := TimesOf(rows, who);
      && (t.firstConnectedAt.Some? ==>
            (exists s :: IsRow(rows, s, who) && rows[s].joinedAt == t.firstConnectedAt.value)
            && forall s :: IsRow(rows, s, who) ==> t.firstConnectedAt.value <= rows[s].joinedAt)
      && (t.leftAt.Some? ==>
            (exists s :: IsRow(rows, s, who) && rows[s].left.value.at == t.leftAt.value)
            && forall s :: IsRow(rows, s, who) ==> rows[s].left.value.at <= t.leftAt.value)
    ensures var t := TimesOf(rows, who);
      t.lastSeenAt.Some? ==>
        && (exists s :: IsRow(rows, s, who) && SeenAt(rows[s], t.lastSeenAt.value))
        && (forall s, at: nat :: IsRow(rows, s, who) && SeenAt(rows[s], at) ==> at <= t.lastSeenAt.value)
  {
    JoinsOfSome(rows, who);
    if s :| IsRow(rows, s, who) {
      assert s in Of(rows, who) && rows[s].joinedAt in Joins(rows, who);
    }
    if Of(rows, who) != {} {
      FirstIsExact(rows, who);
      LastIsExact(rows, who);
      if !Open(rows, who) { LeftIsExact(rows, who); }
    }
  }

  predicate SeenAt(i: Interval, at: nat) {
    at == i.joinedAt || (i.left.Some? && at == i.left.value.at)
  }

  lemma FirstIsExact(rows: map<nat, Interval>, who: Identity)
    requires Joins(rows, who) != {}
    ensures var first := MinOf(Joins(rows, who));
      && (exists s :: IsRow(rows, s, who) && rows[s].joinedAt == first)
      && forall s :: IsRow(rows, s, who) ==> first <= rows[s].joinedAt
  {
    var first := MinOf(Joins(rows, who));
    var s :| s in rows && rows[s].identity == who && rows[s].joinedAt == first;
    assert IsRow(rows, s, who);
    forall s | IsRow(rows, s, who) ensures first <= rows[s].joinedAt { assert rows[s].joinedAt in Joins(rows, who); }
  }

  lemma LeftIsExact(rows: map<nat, Interval>, who: Identity)
    requires Leaves(rows, who) != {} && forall s :: IsRow(rows, s, who) ==> rows[s].left.Some?
    ensures var last := MaxOf(Leaves(rows, who));
      && (exists s :: IsRow(rows, s, who) && rows[s].left.value.at == last)
      && forall s :: IsRow(rows, s, who) ==> rows[s].left.value.at <= last
  {
    var last := MaxOf(Leaves(rows, who));
    var s :| s in rows && rows[s].identity == who && rows[s].left.Some? && rows[s].left.value.at == last;
    assert IsRow(rows, s, who);
    forall s | IsRow(rows, s, who) ensures rows[s].left.value.at <= last { assert rows[s].left.value.at in Leaves(rows, who); }
  }

  lemma LastIsExact(rows: map<nat, Interval>, who: Identity)
    requires Joins(rows, who) != {}
    ensures var last := MaxOf(Joins(rows, who) + Leaves(rows, who));
      && (exists s :: IsRow(rows, s, who) && SeenAt(rows[s], last))
      && forall s, at: nat :: IsRow(rows, s, who) && SeenAt(rows[s], at) ==> at <= last
  {
    var all := Joins(rows, who) + Leaves(rows, who);
    var last := MaxOf(all);
    if last in Joins(rows, who) {
      var s :| s in rows && rows[s].identity == who && rows[s].joinedAt == last;
      assert IsRow(rows, s, who) && SeenAt(rows[s], last);
    } else {
      var s :| s in rows && rows[s].identity == who && rows[s].left.Some? && rows[s].left.value.at == last;
      assert IsRow(rows, s, who) && SeenAt(rows[s], last);
    }
    forall s, at: nat | IsRow(rows, s, who) && SeenAt(rows[s], at) ensures at <= last {
      assert at in all;
    }
  }

  /** An admission decision is never overwritten by connection evidence. */
  ghost function Projected(state: AdmissionState, rows: map<nat, Interval>, who: Identity): AdmissionState {
    if Of(rows, who) == {} || !Presence(state) then state
    else if Open(rows, who) then Connected else Left
  }
}
