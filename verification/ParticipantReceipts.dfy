/**
 Signed participant webhooks, delivered late, repeatedly and out of order.

 Each webhook is one transaction: it files a receipt under the provider's event id, moves
 the interval of its participant SID, projects the intervals onto the lobby entry and
 repairs the room's provider SID. From its update of the attendance work on, a transaction
 has the room's evidence to itself; but whether to repair was decided on a SID read before,
 without a lock. That read is a step of its own, and preparations of the room, which write
 the SID too, may fall between it and the commit.
 */
module ParticipantReceipts {
  import opened Prelude
  import opened Lobby
  import opened ConnectionIntervals

  datatype Kind = Joined | LeftRoom | Aborted

  /** `inRoom` says that the provider's room name is this room's. */
  datatype Event = Event(id: nat, kind: Kind, at: nat, inRoom: bool, roomSid: nat, participant: nat, identity: Identity)

  datatype Filing = Unmatched | Ignored | Processed

  datatype Receipt = Receipt(event: Event, filing: Filing)

  datatype Entry = Entry(state: AdmissionState, times: Times)

  /** `seen` are the SIDs read by deliveries that have not committed, by event id. */
  datatype Room = Room(
    receipts: map<nat, Receipt>,
    intervals: map<nat, Interval>,
    entries: map<Identity, Entry>,
    providerRoomSid: Option<nat>,
    ended: bool,
    seen: map<nat, Option<nat>>)

  /** Receive commits a delivery; one that has not read the SID before reads it then. */
  datatype Step =
    | Read(id: nat)
    | Receive(event: Event)
    | Abandon(id: nat)
    | ChangeAdmission(who: Identity, state: AdmissionState)
    | Prepare(sid: nat)
    | RoomStarted(sid: nat)
    | RoomFinished(sid: nat)
    | End

  function File(e: Event, known: set<Identity>): Filing {
    if !e.inRoom then Unmatched
    else if !e.identity.Attendee? then Ignored
    else if e.identity !in known then Unmatched
    else Processed
  }

  predicate IsJoin(r: Receipt) { r.filing.Processed? && r.event.kind.Joined? }

  predicate IsLeave(r: Receipt) { r.filing.Processed? && !r.event.kind.Joined? }

  /** Processed departures of the same participant SID, not before the join `e`. */
  function LeavesAfter(receipts: map<nat, Receipt>, e: Event): set<nat> {
    set id | id in receipts && IsLeave(receipts[id]) && receipts[id].event.participant == e.participant
             && receipts[id].event.identity == e.identity && receipts[id].event.at >= e.at :: receipts[id].event.at
  }

  ghost function FirstLeaveAfter(receipts: map<nat, Receipt>, e: Event): Option<nat> {
    if LeavesAfter(receipts, e) == {} then None else Some(MinOf(LeavesAfter(receipts, e)))
  }

  function JoinTimes(receipts: map<nat, Receipt>): set<nat> {
    set id | id in receipts && IsJoin(receipts[id]) :: receipts[id].event.at
  }

  function JoinsAt(receipts: map<nat, Receipt>, at: nat): set<nat> {
    set id | id in receipts && IsJoin(receipts[id]) && receipts[id].event.at == at
  }

  /** The provider SID named by the newest processed join, ties going to the later id. */
  ghost function NewestSid(receipts: map<nat, Receipt>): Option<nat> {
    if JoinTimes(receipts) == {} then None
    else var at := MaxOf(JoinTimes(receipts));
         var id :| id in receipts && IsJoin(receipts[id]) && receipts[id].event.at == at;
         assert id in JoinsAt(receipts, at);
         Some(receipts[MaxOf(JoinsAt(receipts, at))].event.roomSid)
  }

  function After(r: Room, e: Event): map<nat, Receipt> {
    r.receipts[e.id := Receipt(e, Processed)]
  }

  ghost function Rows(r: Room, e: Event): map<nat, Interval> {
    if e.kind.Joined?
    then WithJoin(r.intervals, e.participant, e.identity, e.at, FirstLeaveAfter(After(r, e), e))
    else WithLeave(r.intervals, e.participant, e.at)
  }

  ghost function Recorded(r: Room, e: Event): Room
    requires e.identity in r.entries
  {
    var receipts, rows := After(r, e), Rows(r, e);
    var entry := r.entries[e.identity];
    var times := if Of(rows, e.identity) == {} then entry.times else TimesOf(rows, e.identity);
    r.(receipts := receipts, intervals := rows,
       entries := r.entries[e.identity := Entry(Projected(entry.state, rows, e.identity), times)],
       providerRoomSid := if e.kind.Joined? && Seen(r, e.id) != Some(e.roomSid)
                          then NewestSid(receipts) else r.providerRoomSid)
  }

  /** The SID on which a delivery decides whether to repair. */
  function Seen(r: Room, id: nat): Option<nat> {
    if id in r.seen then r.seen[id] else r.providerRoomSid
  }

  /** A room webhook is for the incarnation it names, or for the first if none is recorded. */
  predicate Matches(r: Room, sid: nat) {
    !r.ended && (r.providerRoomSid.None? || r.providerRoomSid == Some(sid))
  }

  predicate SidReused(r: Room, e: Event) {
    e.participant in r.intervals && r.intervals[e.participant].identity != e.identity
  }

  /** A repeated event changes nothing, and one that reuses an identifier is refused. */
  ghost function Ingested(r: Room, e: Event): Room {
    if e.id in r.receipts then r
    else if File(e, r.entries.Keys) != Processed
    then r.(receipts := r.receipts[e.id := Receipt(e, File(e, r.entries.Keys))])
    else if SidReused(r, e) then r
    else Recorded(r, e)
  }

  /** A preparation records the SID it got from the provider, unless the room has ended. */
  ghost function Next(r: Room, s: Step): Room {
    match s
    case Read(id) =>
      if id in r.receipts || id in r.seen then r else r.(seen := r.seen[id := r.providerRoomSid])
    case Receive(e) => Ingested(r, e).(seen := r.seen - {e.id})
    case Abandon(id) => r.(seen := r.seen - {id})
    case ChangeAdmission(who, state) =>
      if who in r.entries then r.(entries := r.entries[who := r.entries[who].(state := state)]) else r
    case Prepare(sid) => if r.ended then r else r.(providerRoomSid := Some(sid))
    case RoomStarted(sid) => if Matches(r, sid) then r.(providerRoomSid := Some(sid)) else r
    case RoomFinished(sid) => if Matches(r, sid) then r.(providerRoomSid := Some(sid), ended := true) else r
    case End => r.(ended := true)
  }

  ghost function Run(r: Room, steps: seq<Step>): Room
    decreases |steps|
  {
    if steps == [] then r else Run(Next(r, steps[0]), steps[1..])
  }

  ghost predicate Start(r: Room) {
    && r.receipts == map[] && r.intervals == map[] && r.seen == map[]
    && forall w :: w in r.entries ==> r.entries[w].times == Times(None, None, None)
  }

  function EventOf(s: Step): set<Event> {
    if s.Receive? then {s.event} else {}
  }

  function Events(steps: seq<Step>): set<Event>
    decreases |steps|
  {
    if steps == [] then {} else EventOf(steps[0]) + Events(steps[1..])
  }

  // ----- what the provider guarantees, and what makes the order irrelevant -----

  predicate Relevant(e: Event, known: set<Identity>) { File(e, known) == Processed }

  /** An event id names one event, and a participant SID one identity. */
  ghost predicate WellFormed(es: set<Event>, known: set<Identity>) {
    && (forall e, f :: e in es && f in es && e.id == f.id ==> e == f)
    && (forall e, f :: e in es && f in es && Relevant(e, known) && Relevant(f, known)
                       && e.participant == f.participant
                       ==> e.identity == f.identity)
  }

  /** Two processed joins of a SID agree on the time, and so do two departures that may
      close its interval. One join and one departure for each SID is the usual case. */
  ghost predicate Settled(es: set<Event>, known: set<Identity>) {
    JoinsAgreeIn(es, known) && LeavesAgreeIn(es, known)
  }

  ghost predicate JoinsAgreeIn(es: set<Event>, known: set<Identity>) {
    forall j, k :: j in es && k in es && SameSidJoins(j, k, known) ==> j.at == k.at
  }

  ghost predicate LeavesAgreeIn(es: set<Event>, known: set<Identity>) {
    forall j, l, m :: j in es && l in es && m in es && Closes(l, j, known) && Closes(m, j, known) ==> l.at == m.at
  }

  predicate SameSidJoins(j: Event, k: Event, known: set<Identity>) {
    Relevant(j, known) && Relevant(k, known) && j.kind.Joined? && k.kind.Joined? && j.participant == k.participant
  }

  predicate Closes(l: Event, j: Event, known: set<Identity>) {
    Relevant(j, known) && Relevant(l, known) && j.kind.Joined? && !l.kind.Joined?
    && l.participant == j.participant && l.at >= j.at
  }

  // ----- the receipts are the events -----

  ghost predicate Filed(r: Room, es: set<Event>) {
    && (forall e :: e in es ==> e.id in r.receipts && r.receipts[e.id] == Receipt(e, File(e, r.entries.Keys)))
    && (forall id :: id in r.receipts ==> r.receipts[id].event in es && r.receipts[id].event.id == id)
  }

  /** Every interval is opened by a signed join and closed by a signed departure. */
  ghost predicate Accounts(receipts: map<nat, Receipt>, rows: map<nat, Interval>) {
    && (forall id :: id in receipts && IsJoin(receipts[id]) ==> JoinAccounted(rows, receipts[id].event))
    && (forall s :: s in rows ==> exists id :: id in receipts && Opens(receipts[id], s))
    && (forall id :: id in receipts && IsLeave(receipts[id]) ==> LeaveAccounted(rows, receipts[id].event))
    && (forall s :: s in rows && rows[s].left.Some? ==> exists id :: id in receipts && ClosesRow(receipts[id], s, rows[s]))
  }

  predicate JoinAccounted(rows: map<nat, Interval>, e: Event) {
    e.participant in rows
    && var i := rows[e.participant];
       i.joinedAt == e.at && i.identity == e.identity && i.joinedSource.Webhook?
  }

  predicate Opens(r: Receipt, s: nat) {
    IsJoin(r) && r.event.participant == s
  }

  predicate LeaveAccounted(rows: map<nat, Interval>, e: Event) {
    e.participant in rows && e.at >= rows[e.participant].joinedAt
    ==> rows[e.participant].left == Some(Departure(e.at, Webhook))
  }

  predicate ClosesRow(r: Receipt, s: nat, i: Interval) {
    IsLeave(r) && r.event.participant == s && r.event.at >= i.joinedAt && i.left == Some(Departure(r.event.at, Webhook))
  }

  /** The receipts determine the intervals. */
  lemma AccountsDetermine(a: Room, b: Room)
    requires Accounts(a.receipts, a.intervals) && Accounts(b.receipts, b.intervals) && a.receipts == b.receipts
    ensures a.intervals == b.intervals
  {
    SameRows(a, b);
    SameRows(b, a);
    forall s | s in a.intervals ensures a.intervals[s] == b.intervals[s] {
      var id :| id in a.receipts && Opens(a.receipts[id], s);
      assert JoinAccounted(a.intervals, a.receipts[id].event) && JoinAccounted(b.intervals, a.receipts[id].event);
      SameDeparture(a, b, s);
      SameDeparture(b, a, s);
    }
  }

  lemma SameRows(a: Room, b: Room)
    requires Accounts(a.receipts, a.intervals) && Accounts(b.receipts, b.intervals) && a.receipts == b.receipts
    ensures a.intervals.Keys <= b.intervals.Keys
  {
    forall s | s in a.intervals ensures s in b.intervals {
      var id :| id in a.receipts && Opens(a.receipts[id], s);
      assert JoinAccounted(b.intervals, a.receipts[id].event);
    }
  }

  lemma SameDeparture(a: Room, b: Room, s: nat)
    requires Accounts(a.receipts, a.intervals) && Accounts(b.receipts, b.intervals) && a.receipts == b.receipts
    requires s in a.intervals && s in b.intervals && a.intervals[s].joinedAt == b.intervals[s].joinedAt
    ensures a.intervals[s].left.Some? ==> b.intervals[s].left == a.intervals[s].left
  {
    if a.intervals[s].left.Some? {
      var id :| id in a.receipts && ClosesRow(a.receipts[id], s, a.intervals[s]);
      assert LeaveAccounted(b.intervals, a.receipts[id].event);
    }
  }

  // ----- the newest join names the room -----

  ghost predicate Newest(receipts: map<nat, Receipt>, id: nat) {
    && id in receipts && IsJoin(receipts[id])
    && forall k :: k in receipts && IsJoin(receipts[k]) ==>
         receipts[k].event.at < receipts[id].event.at || (receipts[k].event.at == receipts[id].event.at && k <= id)
  }

  lemma NewestIsUsed(receipts: map<nat, Receipt>, id: nat)
    requires Newest(receipts, id)
    ensures NewestSid(receipts) == Some(receipts[id].event.roomSid)
  {
    var at := receipts[id].event.at;
    assert at in JoinTimes(receipts);
    assert MaxOf(JoinTimes(receipts)) == at;
    assert id in JoinsAt(receipts, at);
    assert MaxOf(JoinsAt(receipts, at)) == id;
  }

  lemma NewestExists(receipts: map<nat, Receipt>)
    requires JoinTimes(receipts) != {}
    ensures exists id :: Newest(receipts, id)
  {
    var at := MaxOf(JoinTimes(receipts));
    var j :| j in receipts && IsJoin(receipts[j]) && receipts[j].event.at == at;
    assert j in JoinsAt(receipts, at);
    var id := MaxOf(JoinsAt(receipts, at));
    forall k | k in receipts && IsJoin(receipts[k])
      ensures receipts[k].event.at < at || (receipts[k].event.at == at && k <= id)
    {
      assert receipts[k].event.at in JoinTimes(receipts);
      if receipts[k].event.at == at { assert k in JoinsAt(receipts, at); }
    }
    assert Newest(receipts, id);
  }

  lemma SameJoinsSameSid(a: map<nat, Receipt>, b: map<nat, Receipt>)
    requires forall id :: id in a && IsJoin(a[id]) <==> id in b && IsJoin(b[id])
    requires forall id :: id in a && IsJoin(a[id]) ==> a[id] == b[id]
    ensures NewestSid(a) == NewestSid(b)
  {
    if JoinTimes(a) != {} {
      NewestExists(a);
      var id :| Newest(a, id);
      NewestIsUsed(a, id);
      assert Newest(b, id);
      NewestIsUsed(b, id);
    }
  }

  // ----- every step accounts for the events so far -----

  ghost predicate Inv(r: Room, es: set<Event>) {
    && Filed(r, es)
    && Accounts(r.receipts, r.intervals)
    && (forall w :: w in r.entries ==> r.entries[w].times == TimesOf(r.intervals, w))
  }

  lemma FiledKept(r: Room, es: set<Event>, e: Event)
    requires Filed(r, es) && Accounts(r.receipts, r.intervals) && WellFormed(es + {e}, r.entries.Keys)
    ensures Filed(Next(r, Receive(e)), es + {e})
  {
    assert e in es + {e};
    if e.id in r.receipts {
      assert r.receipts[e.id].event in es + {e};
    } else if File(e, r.entries.Keys).Processed? {
      NoSidIsReused(r, es, e);
    }
  }

  lemma NoSidIsReused(r: Room, es: set<Event>, e: Event)
    requires Filed(r, es) && Accounts(r.receipts, r.intervals) && WellFormed(es + {e}, r.entries.Keys)
    requires Relevant(e, r.entries.Keys)
    ensures !SidReused(r, e)
  {
    if e.participant in r.intervals {
      var id :| id in r.receipts && Opens(r.receipts[id], e.participant);
      var j := r.receipts[id].event;
      assert j in es + {e} && e in es + {e} && Relevant(j, r.entries.Keys);
      assert JoinAccounted(r.intervals, j);
    }
  }

  /** A fresh event that is filed as processed. */
  ghost predicate Fresh(r: Room, es: set<Event>, e: Event) {
    && Filed(r, es) && Accounts(r.receipts, r.intervals) && e.id !in r.receipts && Relevant(e, r.entries.Keys)
    && WellFormed(es + {e}, r.entries.Keys) && Settled(es + {e}, r.entries.Keys)
  }

  ghost predicate Signed(rows: map<nat, Interval>) {
    forall s :: s in rows ==> rows[s].joinedSource.Webhook? && (rows[s].left.Some? ==> rows[s].left.value.source.Webhook?)
  }

  lemma AccountsAreSigned(receipts: map<nat, Receipt>, rows: map<nat, Interval>)
    requires Accounts(receipts, rows)
    ensures Signed(rows)
  {
    forall s | s in rows ensures rows[s].joinedSource.Webhook? && (rows[s].left.Some? ==> rows[s].left.value.source.Webhook?) {
      var id :| id in receipts && Opens(receipts[id], s);
      assert JoinAccounted(rows, receipts[id].event);
    }
  }

  /** A signed row changes only by being closed. */
  lemma SignedRowKept(r: Room, e: Event, s: nat)
    requires Signed(r.intervals) && s in r.intervals
    ensures s in Rows(r, e)
    ensures var was, now := r.intervals[s], Rows(r, e)[s];
      now == if e.kind.Joined? || e.participant != s || was.left.Some? || e.at < was.joinedAt then was
              else was.(left := Some(Departure(e.at, Webhook)))
  {
  }

  lemma JoinsAgree(r: Room, es: set<Event>, e: Event, id: nat)
    requires Fresh(r, es, e) && e.kind.Joined? && id in r.receipts && Opens(r.receipts[id], e.participant)
    ensures r.receipts[id].event.at == e.at && r.receipts[id].event.identity == e.identity
  {
    var j := r.receipts[id].event;
    assert j in es + {e} && e in es + {e};
    assert SameSidJoins(j, e, r.entries.Keys);
  }

  lemma JoinsKept(r: Room, es: set<Event>, e: Event, id: nat)
    requires Fresh(r, es, e) && id in After(r, e) && IsJoin(After(r, e)[id])
    ensures JoinAccounted(Rows(r, e), After(r, e)[id].event)
  {
    AccountsAreSigned(r.receipts, r.intervals);
    if id != e.id {
      assert JoinAccounted(r.intervals, r.receipts[id].event);
      SignedRowKept(r, e, r.receipts[id].event.participant);
    } else if e.participant in r.intervals {
      var k :| k in r.receipts && Opens(r.receipts[k], e.participant);
      JoinsAgree(r, es, e, k);
      assert JoinAccounted(r.intervals, r.receipts[k].event);
      SignedRowKept(r, e, e.participant);
    }
  }

  lemma OpenersKept(r: Room, e: Event, s: nat)
    requires Accounts(r.receipts, r.intervals) && e.id !in r.receipts && s in Rows(r, e)
    ensures exists id :: id in After(r, e) && Opens(After(r, e)[id], s)
  {
    if s in r.intervals {
      var id :| id in r.receipts && Opens(r.receipts[id], s);
      assert id in After(r, e) && Opens(After(r, e)[id], s);
    } else {
      assert e.id in After(r, e) && Opens(After(r, e)[e.id], s);
    }
  }

  ghost function FirstLeaver(receipts: map<nat, Receipt>, e: Event): (k: nat)
    requires FirstLeaveAfter(receipts, e).Some?
    ensures k in receipts && IsLeave(receipts[k]) && receipts[k].event.participant == e.participant
            && receipts[k].event.at >= e.at && receipts[k].event.at == FirstLeaveAfter(receipts, e).value
  {
    var first := MinOf(LeavesAfter(receipts, e));
    var k :| k in receipts && IsLeave(receipts[k]) && receipts[k].event.participant == e.participant
             && receipts[k].event.at >= e.at && receipts[k].event.at == first;
    k
  }

  lemma LeaversAgree(r: Room, es: set<Event>, j: Event, l: Event, m: Event)
    requires Settled(es, r.entries.Keys) && j in es && l in es && m in es
    requires Closes(l, j, r.entries.Keys) && Closes(m, j, r.entries.Keys)
    ensures l.at == m.at
  {
  }

  /** The departures known for a join about to open its interval agree on the time. */
  lemma FirstLeaveIsAnyLeave(r: Room, es: set<Event>, e: Event, id: nat)
    requires Fresh(r, es, e) && e.kind.Joined?
    requires id in After(r, e) && IsLeave(After(r, e)[id]) && After(r, e)[id].event.participant == e.participant
    requires After(r, e)[id].event.at >= e.at
    ensures FirstLeaveAfter(After(r, e), e) == Some(After(r, e)[id].event.at)
  {
    var receipts := After(r, e);
    var l := receipts[id].event;
    assert e in es + {e} && l in es + {e};
    assert receipts[id].event.at in LeavesAfter(receipts, e);
    var k := FirstLeaver(receipts, e);
    LeaversAgree(r, es + {e}, e, l, receipts[k].event);
  }

  /** The receipts of the join and of the departure that a closed row came from. */
  ghost function PairOf(receipts: map<nat, Receipt>, rows: map<nat, Interval>, s: nat): (p: (nat, nat))
    requires Accounts(receipts, rows) && s in rows && rows[s].left.Some?
    ensures p.0 in receipts && p.1 in receipts && BothOf(receipts[p.0], receipts[p.1], s, rows[s])
  {
    var k :| k in receipts && ClosesRow(receipts[k], s, rows[s]);
    var o :| o in receipts && Opens(receipts[o], s);
    assert JoinAccounted(rows, receipts[o].event);
    (o, k)
  }

  predicate BothOf(j: Receipt, l: Receipt, s: nat, i: Interval) {
    Opens(j, s) && j.event.at == i.joinedAt && ClosesRow(l, s, i)
  }

  /** A departure that may close an interval already closed agrees with its closing. */
  lemma SecondLeaveAgrees(r: Room, es: set<Event>, e: Event, o: nat, id: nat)
    requires Filed(r, es) && Settled(es + {e}, r.entries.Keys) && Relevant(e, r.entries.Keys)
    requires !e.kind.Joined? && e.participant in r.intervals && e.at >= r.intervals[e.participant].joinedAt
    requires o in r.receipts && id in r.receipts && BothOf(r.receipts[o], r.receipts[id], e.participant, r.intervals[e.participant])
    ensures r.intervals[e.participant].left == Some(Departure(e.at, Webhook))
  {
    LeaversAgree(r, es + {e}, r.receipts[o].event, r.receipts[id].event, e);
  }

  lemma LeaveOfNewRowKept(r: Room, e: Event, l: Event)
    requires l.participant !in r.intervals
    requires e.kind.Joined? && e.participant == l.participant && l.at >= e.at
             ==> FirstLeaveAfter(After(r, e), e) == Some(l.at)
    ensures LeaveAccounted(Rows(r, e), l)
  {
  }

  lemma LeaveOfOldRowKept(r: Room, e: Event, l: Event)
    requires Signed(r.intervals) && l.participant in r.intervals && LeaveAccounted(r.intervals, l)
    ensures LeaveAccounted(Rows(r, e), l)
  {
    SignedRowKept(r, e, l.participant);
  }

  lemma NewLeaveKept(r: Room, e: Event)
    requires Signed(r.intervals) && !e.kind.Joined? && e.participant in r.intervals
    requires var i := r.intervals[e.participant];
      e.at >= i.joinedAt && i.left.Some? ==> i.left == Some(Departure(e.at, Webhook))
    ensures LeaveAccounted(Rows(r, e), e)
  {
    SignedRowKept(r, e, e.participant);
  }

  lemma LeavesKept(r: Room, es: set<Event>, e: Event, id: nat)
    requires Fresh(r, es, e) && id in After(r, e) && IsLeave(After(r, e)[id])
    ensures LeaveAccounted(Rows(r, e), After(r, e)[id].event)
  {
    var l := After(r, e)[id].event;
    if l.participant !in r.intervals {
      if e.kind.Joined? && e.participant == l.participant && l.at >= e.at { FirstLeaveIsAnyLeave(r, es, e, id); }
      LeaveOfNewRowKept(r, e, l);
    } else if id == e.id {
      AccountsAreSigned(r.receipts, r.intervals);
      if e.at >= r.intervals[e.participant].joinedAt && r.intervals[e.participant].left.Some? {
        var pair := PairOf(r.receipts, r.intervals, e.participant);
        SecondLeaveAgrees(r, es, e, pair.0, pair.1);
      }
      NewLeaveKept(r, e);
    } else {
      AccountsAreSigned(r.receipts, r.intervals);
      LeaveOfOldRowKept(r, e, r.receipts[id].event);
    }
  }

  lemma ClosersKept(r: Room, e: Event, s: nat)
    requires Accounts(r.receipts, r.intervals) && e.id !in r.receipts && s in Rows(r, e) && Rows(r, e)[s].left.Some?
    ensures exists id :: id in After(r, e) && ClosesRow(After(r, e)[id], s, Rows(r, e)[s])
  {
    AccountsAreSigned(r.receipts, r.intervals);
    if s in r.intervals {
      SignedRowKept(r, e, s);
      if r.intervals[s].left.Some? {
        var id :| id in r.receipts && ClosesRow(r.receipts[id], s, r.intervals[s]);
        assert id in After(r, e) && ClosesRow(After(r, e)[id], s, Rows(r, e)[s]);
      } else {
        assert e.id in After(r, e) && ClosesRow(After(r, e)[e.id], s, Rows(r, e)[s]);
      }
    } else {
      var k := FirstLeaver(After(r, e), e);
      assert k in After(r, e) && ClosesRow(After(r, e)[k], s, Rows(r, e)[s]);
    }
  }

  lemma AccountsKept(r: Room, es: set<Event>, e: Event)
    requires Fresh(r, es, e)
    ensures Accounts(After(r, e), Rows(r, e))
  {
    var receipts, rows := After(r, e), Rows(r, e);
    forall id | id in receipts && IsJoin(receipts[id]) ensures JoinAccounted(rows, receipts[id].event) {
      JoinsKept(r, es, e, id);
    }
    forall s | s in rows ensures exists id :: id in receipts && Opens(receipts[id], s) {
      OpenersKept(r, e, s);
    }
    forall id | id in receipts && IsLeave(receipts[id]) ensures LeaveAccounted(rows, receipts[id].event) {
      LeavesKept(r, es, e, id);
    }
    forall s | s in rows && rows[s].left.Some? ensures exists id :: id in receipts && ClosesRow(receipts[id], s, rows[s]) {
      ClosersKept(r, e, s);
    }
  }

  lemma OthersKeepTimes(rows: map<nat, Interval>, after: map<nat, Interval>, s: nat, who: Identity)
    requires s in after && after[s].identity != who && (s in rows ==> rows[s].identity != who)
    requires forall k :: k != s ==> (k in after <==> k in rows)
    requires forall k :: k != s && k in rows ==> after[k] == rows[k]
    ensures TimesOf(after, who) == TimesOf(rows, who)
  {
    assert Of(after, who) == Of(rows, who);
    assert Joins(after, who) == Joins(rows, who);
    assert Leaves(after, who) == Leaves(rows, who);
  }

  /** An identity with no rows afterwards had none before. */
  lemma NoRowsVanish(r: Room, e: Event, w: Identity)
    requires Signed(r.intervals) && Of(Rows(r, e), w) == {}
    ensures Of(r.intervals, w) == {}
  {
    forall s | s in Of(r.intervals, w) ensures s in Of(Rows(r, e), w) { SignedRowKept(r, e, s); }
  }

  lemma OtherTimesKept(r: Room, e: Event, w: Identity)
    requires !SidReused(r, e) && w != e.identity
    ensures TimesOf(Rows(r, e), w) == TimesOf(r.intervals, w)
  {
    if Rows(r, e) != r.intervals {
      OthersKeepTimes(r.intervals, Rows(r, e), e.participant, w);
    }
  }

  lemma TimesKept(r: Room, e: Event, w: Identity)
    requires Signed(r.intervals) && !SidReused(r, e) && e.identity in r.entries && w in r.entries
    requires r.entries[w].times == TimesOf(r.intervals, w)
    ensures Recorded(r, e).entries[w].times == TimesOf(Rows(r, e), w)
  {
    if w != e.identity {
      OtherTimesKept(r, e, w);
    } else if Of(Rows(r, e), w) == {} {
      NoRowsVanish(r, e, w);
    }
  }

  lemma ReceiveKeeps(r: Room, es: set<Event>, e: Event)
    requires Inv(r, es)
    requires WellFormed(es + {e}, r.entries.Keys) && Settled(es + {e}, r.entries.Keys)
    ensures Inv(Next(r, Receive(e)), es + {e})
  {
    FiledKept(r, es, e);
    if e.id !in r.receipts {
      if Relevant(e, r.entries.Keys) {
        NoSidIsReused(r, es, e);
        AccountsKept(r, es, e);
        forall w | w in r.entries ensures Recorded(r, e).entries[w].times == TimesOf(Rows(r, e), w) {
          AccountsAreSigned(r.receipts, r.intervals);
          TimesKept(r, e, w);
        }
      } else {
        AsideAccounts(r.receipts, r.intervals, e.id, Receipt(e, File(e, r.entries.Keys)));
      }
    }
  }

  /** A receipt that is not processed accounts for nothing. */
  lemma AsideAccounts(receipts: map<nat, Receipt>, rows: map<nat, Interval>, id: nat, aside: Receipt)
    requires Accounts(receipts, rows) && id !in receipts && !aside.filing.Processed?
    ensures Accounts(receipts[id := aside], rows)
  {
    var after := receipts[id := aside];
    forall s | s in rows ensures exists k :: k in after && Opens(after[k], s) {
      var k :| k in receipts && Opens(receipts[k], s);
      assert k in after && Opens(after[k], s);
    }
    forall s | s in rows && rows[s].left.Some? ensures exists k :: k in after && ClosesRow(after[k], s, rows[s]) {
      var k :| k in receipts && ClosesRow(receipts[k], s, rows[s]);
      assert k in after && ClosesRow(after[k], s, rows[s]);
    }
  }

  // ----- results over whole runs -----

  ghost predicate Orderly(es: set<Event>, known: set<Identity>) {
    WellFormed(es, known) && Settled(es, known)
  }

  lemma NextKeepsKnown(r: Room, s: Step)
    ensures Next(r, s).entries.Keys == r.entries.Keys
  {
    match s
    case ChangeAdmission(who, state) => assert who in r.entries ==> r.entries.Keys + {who} == r.entries.Keys;
    case Receive(e) => assert e.identity in r.entries ==> r.entries.Keys + {e.identity} == r.entries.Keys;
    case _ =>
  }

  lemma NextKeeps(r: Room, es: set<Event>, s: Step, all: set<Event>)
    requires Inv(r, es) && Orderly(all, r.entries.Keys) && es + EventOf(s) <= all
    ensures Inv(Next(r, s), es + EventOf(s))
  {
    if s.Receive? {
      ReceiveKeeps(r, es, s.event);
    } else {
      NextKeepsKnown(r, s);
      assert es + EventOf(s) == es;
    }
  }

  lemma {:induction false} RunKeeps(r: Room, es: set<Event>, steps: seq<Step>, all: set<Event>)
    requires Inv(r, es) && Orderly(all, r.entries.Keys) && es + Events(steps) <= all
    ensures Inv(Run(r, steps), es + Events(steps))
    ensures Run(r, steps).entries.Keys == r.entries.Keys
    decreases |steps|
  {
    if steps == [] {
      assert es + Events(steps) == es;
    } else {
      var soFar := es + EventOf(steps[0]);
      assert es + Events(steps) == soFar + Events(steps[1..]);
      NextKeeps(r, es, steps[0], all);
      NextKeepsKnown(r, steps[0]);
      RunKeeps(Next(r, steps[0]), soFar, steps[1..], all);
    }
  }

  lemma StartAccounts(r: Room)
    requires Start(r)
    ensures Inv(r, {})
  {
    forall w | w in r.entries ensures r.entries[w].times == TimesOf(r.intervals, w) {
      assert Of(r.intervals, w) == {};
    }
  }

  lemma SameFilings(a: Room, b: Room, es: set<Event>)
    requires Filed(a, es) && Filed(b, es) && a.entries.Keys == b.entries.Keys
    ensures a.receipts == b.receipts
  {
    forall id | id in a.receipts ensures id in b.receipts && b.receipts[id] == a.receipts[id] {
      assert a.receipts[id].event in es;
    }
    forall id | id in b.receipts ensures id in a.receipts {
      assert b.receipts[id].event in es;
    }
  }

  /** Whatever the order and the repetitions of the deliveries, and whatever admission
      decisions, preparations and room webhooks fall between them, the receipts, the
      intervals and the connection times of every entry depend only on which events were
      delivered. */
  lemma OnlyTheEventsMatter(r: Room, some: seq<Step>, others: seq<Step>)
    requires Start(r) && Events(some) == Events(others) && Orderly(Events(some), r.entries.Keys)
    ensures var a, b := Run(r, some), Run(r, others);
      && a.receipts == b.receipts && a.intervals == b.intervals && a.entries.Keys == b.entries.Keys
      && forall w :: w in a.entries ==> a.entries[w].times == b.entries[w].times
  {
    StartAccounts(r);
    assert {} + Events(some) == Events(some) && {} + Events(others) == Events(others);
    RunKeeps(r, {}, some, Events(some));
    RunKeeps(r, {}, others, Events(some));
    var a, b := Run(r, some), Run(r, others);
    SameFilings(a, b, Events(some));
    AccountsDetermine(a, b);
  }

  // ----- which room is recorded -----

  /** The recorded SID is the one the newest processed join named. */
  ghost predicate Named(r: Room) {
    JoinTimes(r.receipts) != {} ==> r.providerRoomSid == NewestSid(r.receipts)
  }

  predicate FilesJoin(r: Room, e: Event) {
    e.id !in r.receipts && Relevant(e, r.entries.Keys) && e.kind.Joined? && !SidReused(r, e)
  }

  /** Newer than every processed join. */
  predicate Leads(receipts: map<nat, Receipt>, e: Event) {
    forall k :: k in receipts && IsJoin(receipts[k]) ==>
      receipts[k].event.at < e.at || (receipts[k].event.at == e.at && k < e.id)
  }

  /** The newest join commits without a repair although the SID it read is no longer the
      recorded one, or a preparation records another room than the newest join named. */
  ghost predicate Strays(r: Room, s: Step) {
    match s
    case Receive(e) => FilesJoin(r, e) && Leads(r.receipts, e) && Seen(r, e.id) == Some(e.roomSid) != r.providerRoomSid
    case Prepare(sid) => !r.ended && JoinTimes(r.receipts) != {} && NewestSid(r.receipts) != Some(sid)
    case _ => false
  }

  /** A join repairs, or is the newest and names the recorded room; or a preparation records
      the room that the newest join named. */
  ghost predicate Rights(r: Room, s: Step) {
    match s
    case Receive(e) =>
      FilesJoin(r, e)
      && (Seen(r, e.id) != Some(e.roomSid) || (Leads(r.receipts, e) && r.providerRoomSid == Some(e.roomSid)))
    case Prepare(sid) => !r.ended && JoinTimes(r.receipts) != {} && NewestSid(r.receipts) == Some(sid)
    case _ => false
  }

  ghost predicate EverRighted(r: Room, steps: seq<Step>)
    decreases |steps|
  {
    steps != [] && (Rights(r, steps[0]) || EverRighted(Next(r, steps[0]), steps[1..]))
  }

  /** Some step of the run strays, and none after it puts that right. */
  ghost predicate Strayed(r: Room, steps: seq<Step>)
    decreases |steps|
  {
    steps != []
    && ((Strays(r, steps[0]) && !EverRighted(Next(r, steps[0]), steps[1..])) || Strayed(Next(r, steps[0]), steps[1..]))
  }

  lemma NewJoinIsNewest(receipts: map<nat, Receipt>, e: Event)
    requires e.id !in receipts && e.kind.Joined?
    ensures var after := receipts[e.id := Receipt(e, Processed)];
      && JoinTimes(after) != {}
      && (Leads(receipts, e) ==> NewestSid(after) == Some(e.roomSid))
      && (!Leads(receipts, e) ==> JoinTimes(receipts) != {} && NewestSid(after) == NewestSid(receipts))
  {
    var after := receipts[e.id := Receipt(e, Processed)];
    assert after[e.id].event.at in JoinTimes(after);
    if Leads(receipts, e) {
      assert Newest(after, e.id);
      NewestIsUsed(after, e.id);
    } else {
      var k :| k in receipts && IsJoin(receipts[k])
               && !(receipts[k].event.at < e.at || (receipts[k].event.at == e.at && k < e.id));
      assert receipts[k].event.at in JoinTimes(receipts);
      NewestExists(receipts);
      var id :| Newest(receipts, id);
      NewestIsUsed(receipts, id);
      assert Newest(after, id);
      NewestIsUsed(after, id);
    }
  }

  /** Once a join is processed, or a SID has been read, there is one recorded. */
  ghost predicate SidInv(r: Room) {
    && (JoinTimes(r.receipts) != {} ==> r.providerRoomSid.Some?)
    && (forall id :: id in r.seen && r.seen[id].Some? ==> r.providerRoomSid.Some?)
  }

  lemma JoinNames(r: Room, e: Event)
    requires SidInv(r) && FilesJoin(r, e)
    ensures SidInv(Next(r, Receive(e)))
    ensures Named(Next(r, Receive(e))) <==> !Strays(r, Receive(e)) && (Named(r) || Rights(r, Receive(e)))
  {
    NewJoinIsNewest(r.receipts, e);
    if Seen(r, e.id) != Some(e.roomSid) { NewestOfSome(After(r, e)); }
  }

  lemma NewestOfSome(receipts: map<nat, Receipt>)
    requires JoinTimes(receipts) != {}
    ensures NewestSid(receipts).Some?
  {
    NewestExists(receipts);
    var id :| Newest(receipts, id);
    NewestIsUsed(receipts, id);
  }

  /** Receipts other than joins leave both the newest join and the recorded room. */
  lemma OtherReceiptNames(r: Room, e: Event)
    requires !FilesJoin(r, e)
    ensures var r' := Next(r, Receive(e));
      && r'.providerRoomSid == r.providerRoomSid && NewestSid(r'.receipts) == NewestSid(r.receipts)
      && JoinTimes(r'.receipts) == JoinTimes(r.receipts)
  {
    var after := Next(r, Receive(e)).receipts;
    if after != r.receipts {
      assert after == r.receipts[e.id := after[e.id]] && !IsJoin(after[e.id]);
      OtherReceipt(r.receipts, e.id, after[e.id]);
    }
  }

  lemma OtherReceipt(receipts: map<nat, Receipt>, id: nat, other: Receipt)
    requires id !in receipts && !IsJoin(other)
    ensures NewestSid(receipts[id := other]) == NewestSid(receipts) && JoinTimes(receipts[id := other]) == JoinTimes(receipts)
  {
    SameJoinsSameSid(receipts, receipts[id := other]);
    forall at | at in JoinTimes(receipts) ensures at in JoinTimes(receipts[id := other]) {
      var k :| k in receipts && IsJoin(receipts[k]) && receipts[k].event.at == at;
      assert IsJoin(receipts[id := other][k]);
    }
  }

  lemma NextNames(r: Room, s: Step)
    requires SidInv(r)
    ensures SidInv(Next(r, s))
    ensures Named(Next(r, s)) <==> !Strays(r, s) && (Named(r) || Rights(r, s))
  {
    if s.Receive? {
      if FilesJoin(r, s.event) { JoinNames(r, s.event); } else { OtherReceiptNames(r, s.event); }
    } else if s.Prepare? && JoinTimes(r.receipts) != {} {
      NewestOfSome(r.receipts);
    }
  }

  lemma {:induction false} RunNames(r: Room, steps: seq<Step>)
    requires SidInv(r)
    ensures Named(Run(r, steps)) <==> !Strayed(r, steps) && (Named(r) || EverRighted(r, steps))
    decreases |steps|
  {
    if steps != [] {
      NextNames(r, steps[0]);
      RunNames(Next(r, steps[0]), steps[1..]);
    }
  }

  /** After a run the recorded SID is the one the newest processed join named exactly when
      no step has strayed without a later one putting it right. */
  lemma NewestJoinNamesTheRoomIff(r: Room, steps: seq<Step>)
    requires Start(r)
    ensures Named(Run(r, steps)) <==> !Strayed(r, steps)
  {
    RunNames(r, steps);
  }

  /** A SID that was read stays the recorded one until a preparation or a repair writes
      another. */
  lemma OnlyWritesOvertakeReads(r: Room, s: Step, id: nat)
    requires id in r.seen && id in Next(r, s).seen && r.seen[id] == r.providerRoomSid && r.seen[id].Some?
    requires !(s.Prepare? && !r.ended && Some(s.sid) != r.providerRoomSid)
    requires !(s.Receive? && FilesJoin(r, s.event) && Seen(r, s.event.id) != Some(s.event.roomSid))
    ensures Next(r, s).seen[id] == Next(r, s).providerRoomSid
  {
  }

  /** Receipts and room webhooks alone, each delivery reading the SID as it commits, keep
      the newest join's room recorded. */
  lemma NewestJoinNamesTheRoom(r: Room, steps: seq<Step>)
    requires Start(r) && forall s :: s in steps ==> !s.Read? && !s.Prepare?
    ensures Named(Run(r, steps))
  {
    NothingStrays(r, steps);
    NewestJoinNamesTheRoomIff(r, steps);
  }

  lemma {:induction false} NothingStrays(r: Room, steps: seq<Step>)
    requires r.seen == map[] && forall s :: s in steps ==> !s.Read? && !s.Prepare?
    ensures !Strayed(r, steps)
    decreases |steps|
  {
    if steps != [] {
      assert Next(r, steps[0]).seen == map[];
      NothingStrays(Next(r, steps[0]), steps[1..]);
    }
  }

  // ----- two runs that stray -----

  function JoinOf(id: nat, at: nat, roomSid: nat): Event {
    Event(id, Joined, at, true, roomSid, id, Attendee(0))
  }

  lemma RunThree(r: Room, a: Step, b: Step, c: Step)
    ensures Run(r, [a, b, c]) == Next(Next(Next(r, a), b), c)
  {
    var r1, r2 := Next(r, a), Next(Next(r, a), b);
    assert [a, b, c][1..] == [b, c] && [b, c][1..] == [c] && [c][1..] == [];
    assert Run(Next(r2, c), []) == Next(r2, c);
    assert Run(r2, [c]) == Next(r2, c);
    assert Run(r1, [b, c]) == Run(r2, [c]);
  }

  lemma OneJoin(r: Room, e: Event)
    requires Start(r) && r.entries.Keys == {Attendee(0)} && e == JoinOf(e.id, e.at, e.roomSid)
    ensures FilesJoin(r, e) && Leads(r.receipts, e)
    ensures var r' := Next(r, Receive(e));
      && r'.receipts == map[e.id := Receipt(e, Processed)] && r'.providerRoomSid == Some(e.roomSid)
      && r'.intervals == map[e.id := Interval(Attendee(0), e.at, Webhook, None)]
      && r'.entries.Keys == r.entries.Keys && r'.seen == map[] && r'.ended == r.ended
  {
    FirstJoin(r, e);
    NewJoinIsNewest(r.receipts, e);
    assert After(r, e) == map[e.id := Receipt(e, Processed)];
  }

  lemma AnotherIncarnation(r: Room, sid: nat, other: nat)
    requires !r.ended && sid != other
    ensures Next(r, Prepare(sid)) == r.(providerRoomSid := Some(sid))
    ensures Next(Next(r, Prepare(sid)), RoomFinished(other)) == Next(r, Prepare(sid))
  {
  }

  lemma MisnamedHasStrayed(r: Room, steps: seq<Step>, sid: nat)
    requires Start(r) && NewestSid(Run(r, steps).receipts) == Some(sid) && Run(r, steps).providerRoomSid != Some(sid)
    ensures Strayed(r, steps)
  {
    NewestJoinNamesTheRoomIff(r, steps);
  }

  const NEWER: Step := Receive(JoinOf(2, 2, 7))

  const OLDER: Step := Receive(JoinOf(1, 1, 7))

  /** A preparation that recreates the room writes its SID over the one the newest join
      named, and the late end of that join's room is then unmatched. */
  lemma PreparationRenames(r: Room)
    requires Start(r) && !r.ended && r.entries.Keys == {Attendee(0)}
    ensures var end := Run(r, [NEWER, OLDER, Prepare(8)]);
      && end.providerRoomSid == Some(8) && NewestSid(end.receipts) == Some(7) && Next(end, RoomFinished(7)) == end
    ensures Strayed(r, [NEWER, OLDER, Prepare(8)])
  {
    OneJoin(r, JoinOf(2, 2, 7));
    OlderJoin(Next(r, NEWER));
    AnotherIncarnation(Next(Next(r, NEWER), OLDER), 8, 7);
    RunThree(r, NEWER, OLDER, Prepare(8));
    MisnamedHasStrayed(r, [NEWER, OLDER, Prepare(8)], 7);
  }

  /** The same deliveries with the preparation between them end in the other room. */
  lemma LaterDeliveryRepairs(r: Room)
    requires Start(r) && !r.ended && r.entries.Keys == {Attendee(0)}
    ensures Run(r, [NEWER, Prepare(8), OLDER]).providerRoomSid == Some(7)
    ensures Events([NEWER, Prepare(8), OLDER]) == Events([NEWER, OLDER, Prepare(8)])
  {
    OneJoin(r, JoinOf(2, 2, 7));
    OlderJoin(Next(Next(r, NEWER), Prepare(8)));
    RunThree(r, NEWER, Prepare(8), OLDER);
    EventsOfThree(NEWER, Prepare(8), OLDER);
    EventsOfThree(NEWER, OLDER, Prepare(8));
  }

  lemma EventsOfThree(a: Step, b: Step, c: Step)
    ensures Events([a, b, c]) == EventOf(a) + EventOf(b) + EventOf(c)
  {
    assert [a, b, c][1..] == [b, c] && [b, c][1..] == [c];
    assert Events([c]) == EventOf(c);
  }

  /** Repaired or not, an older join of the newest join's room leaves that room recorded. */
  lemma OlderJoin(r: Room)
    requires r.receipts == map[2 := Receipt(JoinOf(2, 2, 7), Processed)] && 1 !in r.intervals
    requires r.entries.Keys == {Attendee(0)} && r.seen == map[]
    ensures var r' := Next(r, Receive(JoinOf(1, 1, 7)));
      r'.providerRoomSid == Some(7) && r'.ended == r.ended && JoinTimes(r'.receipts) != {} && NewestSid(r'.receipts) == Some(7)
  {
    var e, f := JoinOf(2, 2, 7), JoinOf(1, 1, 7);
    assert !Leads(r.receipts, f) by { assert IsJoin(r.receipts[2]); }
    NewJoinIsNewest(map[], e);
    assert r.receipts == map[][2 := Receipt(e, Processed)];
    NewJoinIsNewest(r.receipts, f);
    assert FilesJoin(r, f) && Next(r, Receive(f)).receipts == After(r, f);
  }

  /** A newer join reads the SID it names, an older one then repairs to another, and the
      newer commits without a repair. */
  lemma StaleReadStrays(r: Room)
    requires Start(r) && r.entries.Keys == {Attendee(0)} && r.providerRoomSid == Some(7)
    ensures var newer, older := JoinOf(2, 2, 7), JoinOf(1, 1, 8);
      var end := Run(r, [Read(2), Receive(older), Receive(newer)]);
      && end.providerRoomSid == Some(8) && NewestSid(end.receipts) == Some(7)
      && Strayed(r, [Read(2), Receive(older), Receive(newer)])
  {
    var newer, older := JoinOf(2, 2, 7), JoinOf(1, 1, 8);
    var r1 := Next(r, Read(2));
    OneJoinRead(r1, older);
    var r2 := Next(r1, Receive(older));
    assert Seen(r2, 2) == Some(7) && FilesJoin(r2, newer) && Leads(r2.receipts, newer);
    NewJoinIsNewest(r2.receipts, newer);
    RunThree(r, Read(2), Receive(older), Receive(newer));
    MisnamedHasStrayed(r, [Read(2), Receive(older), Receive(newer)], 7);
  }

  lemma OneJoinRead(r: Room, e: Event)
    requires r.receipts == map[] && r.intervals == map[] && r.entries.Keys == {Attendee(0)} && e.id !in r.seen
    requires e == JoinOf(e.id, e.at, e.roomSid) && r.providerRoomSid != Some(e.roomSid)
    ensures var r' := Next(r, Receive(e));
      && r'.receipts == map[e.id := Receipt(e, Processed)] && r'.providerRoomSid == Some(e.roomSid)
      && r'.intervals == map[e.id := Interval(Attendee(0), e.at, Webhook, None)]
      && r'.entries.Keys == r.entries.Keys && r'.seen == r.seen
  {
    NewJoinIsNewest(r.receipts, e);
    assert After(r, e) == map[e.id := Receipt(e, Processed)];
    assert LeavesAfter(After(r, e), e) == {};
    NextKeepsKnown(r, Receive(e));
    assert r.seen - {e.id} == r.seen;
  }

  // ----- what a delivery does -----

  predicate Departs(r: Receipt, e: Event) {
    && r.filing == Processed && r.event.kind in {LeftRoom, Aborted}
    && r.event.participant == e.participant && r.event.identity == e.identity && r.event.at >= e.at
  }

  /** The departure a late join pairs with: the earliest processed one of its participant SID
      and identity that is not before it. */
  lemma TerminalIsExact(receipts: map<nat, Receipt>, e: Event)
    ensures var t := FirstLeaveAfter(receipts, e);
      && (t.Some? <==> exists id :: id in receipts && Departs(receipts[id], e))
      && (t.Some? ==>
            (exists id :: id in receipts && Departs(receipts[id], e) && receipts[id].event.at == t.value)
            && forall id :: id in receipts && Departs(receipts[id], e) ==> t.value <= receipts[id].event.at)
  {
    forall id | id in receipts && Departs(receipts[id], e) ensures receipts[id].event.at in LeavesAfter(receipts, e) {}
    if LeavesAfter(receipts, e) != {} {
      var at := MinOf(LeavesAfter(receipts, e));
      var id :| id in receipts && IsLeave(receipts[id]) && receipts[id].event.participant == e.participant
                && receipts[id].event.identity == e.identity && receipts[id].event.at >= e.at && receipts[id].event.at == at;
      assert Departs(receipts[id], e);
    }
  }

  /** A delivery is filed by the room, the kind of participant and the lobby entry it is for; one
      that is processed moves the interval of its SID as signed joins and departures do, and its
      own entry's times and presence, and no other; a SID of another identity is refused. */
  lemma DeliveryIsExact(r: Room, e: Event)
    requires e.id !in r.receipts
    ensures var r' := Next(r, Receive(e));
      var filing := if !e.inRoom then Unmatched else if e.identity.Staff? then Ignored
                    else if e.identity in r.entries then Processed else Unmatched;
      var refused := filing == Processed && e.participant in r.intervals && r.intervals[e.participant].identity != e.identity;
      && r'.seen == r.seen - {e.id} && r'.ended == r.ended
      && r'.receipts == (if refused then r.receipts else r.receipts[e.id := Receipt(e, filing)])
      && (filing != Processed || refused ==>
            r'.intervals == r.intervals && r'.entries == r.entries && r'.providerRoomSid == r.providerRoomSid)
      && (filing == Processed && !refused ==>
            && r'.intervals == (if e.kind == Joined
                                then WithJoin(r.intervals, e.participant, e.identity, e.at, FirstLeaveAfter(r'.receipts, e))
                                else WithLeave(r.intervals, e.participant, e.at))
            && (forall w :: w in r.entries && w != e.identity ==> w in r'.entries && r'.entries[w] == r.entries[w])
            && r'.entries.Keys == r.entries.Keys)
  {
    NextKeepsKnown(r, Receive(e));
  }

  /** The entry of a processed delivery shows what the intervals of its identity say. */
  lemma EntryIsExact(r: Room, e: Event)
    requires e.id !in r.receipts && e.inRoom && e.identity.Attendee? && e.identity in r.entries && !SidReused(r, e)
    ensures var r' := Next(r, Receive(e));
      var was, now := r.entries[e.identity], r'.entries[e.identity];
      var connected := exists s :: s in r'.intervals && r'.intervals[s].identity == e.identity && r'.intervals[s].left.None?;
      var known := exists s :: IsRow(r'.intervals, s, e.identity);
      && (!known ==> now == was)
      && (known ==> now.times == TimesOf(r'.intervals, e.identity))
      && (known && was.state in {TokenIssued, Connected, Left} ==> now.state == if connected then Connected else Left)
      && (was.state !in {TokenIssued, Connected, Left} ==> now.state == was.state)
  {
    var rows := Next(r, Receive(e)).intervals;
    if s :| IsRow(rows, s, e.identity) { assert s in Of(rows, e.identity); }
    if s :| s in Of(rows, e.identity) { assert IsRow(rows, s, e.identity); }
  }

  /** The other steps touch the recorded SID, the end of the room, and reads under way. */
  lemma RoomStepsAreExact(r: Room, id: nat, sid: nat)
    ensures Next(r, Read(id)) == (if id in r.receipts || id in r.seen then r else r.(seen := r.seen[id := r.providerRoomSid]))
    ensures Next(r, Abandon(id)) == r.(seen := r.seen - {id})
    ensures Next(r, Prepare(sid)) == if r.ended then r else r.(providerRoomSid := Some(sid))
    ensures var mine := !r.ended && r.providerRoomSid in {None, Some(sid)};
      && Next(r, RoomStarted(sid)) == (if mine then r.(providerRoomSid := Some(sid)) else r)
      && Next(r, RoomFinished(sid)) == (if mine then r.(providerRoomSid := Some(sid), ended := true) else r)
    ensures Next(r, End) == r.(ended := true)
  {
  }

  lemma AdmissionIsExact(r: Room, who: Identity, state: AdmissionState)
    ensures var r' := Next(r, ChangeAdmission(who, state));
      r' == if who in r.entries then r.(entries := r.entries[who := Entry(state, r.entries[who].times)]) else r
  {
  }

  // ----- admission and repetition -----

  /** A receipt moves an entry only between the presence states, and then to the one its
      intervals show; it never overwrites an admission decision such as a revocation. */
  lemma ReceiptKeepsAdmission(r: Room, e: Event, who: Identity)
    requires who in r.entries
    ensures who in Next(r, Receive(e)).entries
    ensures var was, now := r.entries[who].state, Next(r, Receive(e)).entries[who].state;
      && (!Presence(was) ==> now == was)
      && (Presence(was) ==> Presence(now))
      && (now != was ==> now == if Open(Next(r, Receive(e)).intervals, who) then Connected else Left)
  {
  }

  /** A repeated event changes nothing, whenever it comes. */
  lemma RepeatedEventsChangeNothing(r: Room, e: Event)
    ensures Next(Next(r, Receive(e)), Receive(e)) == Next(r, Receive(e))
  {
  }

  // ----- exactly when the order is irrelevant -----

  ghost predicate OrderIndependent(r: Room, es: set<Event>) {
    forall some, others :: Events(some) == es && Events(others) == es
      ==> Run(r, some).intervals == Run(r, others).intervals
  }

  predicate SignedAt(rows: map<nat, Interval>, s: nat, at: nat) {
    s in rows && rows[s].joinedSource.Webhook? && rows[s].joinedAt == at
  }

  predicate ClosedAt(rows: map<nat, Interval>, s: nat, at: nat) {
    s in rows && rows[s].left == Some(Departure(at, Webhook))
  }

  lemma FirstArrivalStaysStep(r: Room, step: Step, s: nat, at: nat, left: nat)
    requires SignedAt(r.intervals, s, at)
    ensures SignedAt(Next(r, step).intervals, s, at)
    ensures ClosedAt(r.intervals, s, left) ==> ClosedAt(Next(r, step).intervals, s, left)
  {
  }

  lemma {:induction false} FirstArrivalStays(r: Room, steps: seq<Step>, s: nat, at: nat, left: nat)
    requires SignedAt(r.intervals, s, at)
    ensures SignedAt(Run(r, steps).intervals, s, at)
    ensures ClosedAt(r.intervals, s, left) ==> ClosedAt(Run(r, steps).intervals, s, left)
    decreases |steps|
  {
    if steps != [] {
      FirstArrivalStaysStep(r, steps[0], s, at, left);
      FirstArrivalStays(Next(r, steps[0]), steps[1..], s, at, left);
    }
  }

  ghost function Listing(es: set<Event>): (steps: seq<Step>)
    ensures Events(steps) == es
    decreases |es|
  {
    if es == {} then [] else
      var e :| e in es;
      var rest := Listing(es - {e});
      assert ([Receive(e)] + rest)[1..] == rest;
      [Receive(e)] + rest
  }

  lemma RunCons(r: Room, e: Event, steps: seq<Step>)
    ensures Run(r, [Receive(e)] + steps) == Run(Next(r, Receive(e)), steps)
    ensures Events([Receive(e)] + steps) == {e} + Events(steps)
  {
    assert ([Receive(e)] + steps)[1..] == steps;
  }

  lemma FirstJoin(r: Room, j: Event)
    requires Start(r) && Relevant(j, r.entries.Keys) && j.kind.Joined?
    ensures var r' := Next(r, Receive(j));
      r'.intervals == map[j.participant := Interval(j.identity, j.at, Webhook, None)] && r'.entries.Keys == r.entries.Keys
      && r'.receipts.Keys == {j.id}
  {
    assert LeavesAfter(After(r, j), j) == {};
    NextKeepsKnown(r, Receive(j));
  }

  /** Delivered first, a join fixes the interval's start; and the departure delivered next
      fixes its end. */
  lemma FirstDeliveriesDecide(r: Room, es: set<Event>, j: Event, l: Event)
    requires Start(r) && WellFormed(es, r.entries.Keys) && j in es && l in es
    requires Relevant(j, r.entries.Keys) && j.kind.Joined?
    requires l == j || Closes(l, j, r.entries.Keys)
    ensures exists steps :: Events(steps) == es && SignedAt(Run(r, steps).intervals, j.participant, j.at)
                            && (l != j ==> ClosedAt(Run(r, steps).intervals, j.participant, l.at))
  {
    var rest := [Receive(l)] + Listing(es);
    var steps := [Receive(j)] + rest;
    RunCons(r, j, rest);
    var r1 := Next(r, Receive(j));
    RunCons(r1, l, Listing(es));
    var r2 := Next(r1, Receive(l));
    assert {j} + ({l} + es) == es;
    FirstJoin(r, j);
    assert SignedAt(r1.intervals, j.participant, j.at);
    FirstArrivalStaysStep(r1, Receive(l), j.participant, j.at, l.at);
    if l != j {
      assert l.id != j.id && l.id !in r1.receipts;
      assert ClosedAt(r2.intervals, j.participant, l.at);
    }
    FirstArrivalStays(r2, Listing(es), j.participant, j.at, l.at);
  }

  lemma UnsettledEventsRace(r: Room, es: set<Event>, j: Event, l: Event, k: Event, m: Event)
    requires Start(r) && WellFormed(es, r.entries.Keys) && {j, l, k, m} <= es
    requires (l == j && m == k && SameSidJoins(j, k, r.entries.Keys) && j.at != k.at)
             || (k == j && Closes(l, j, r.entries.Keys) && Closes(m, j, r.entries.Keys) && l.at != m.at)
    ensures !OrderIndependent(r, es)
  {
    FirstDeliveriesDecide(r, es, j, l);
    FirstDeliveriesDecide(r, es, k, m);
    var some :| Events(some) == es && SignedAt(Run(r, some).intervals, j.participant, j.at)
                && (l != j ==> ClosedAt(Run(r, some).intervals, j.participant, l.at));
    var others :| Events(others) == es && SignedAt(Run(r, others).intervals, k.participant, k.at)
                  && (m != k ==> ClosedAt(Run(r, others).intervals, k.participant, m.at));
    assert Run(r, some).intervals != Run(r, others).intervals;
  }

  lemma SettledEventsAgree(r: Room, es: set<Event>)
    requires Start(r) && Orderly(es, r.entries.Keys)
    ensures OrderIndependent(r, es)
  {
    forall some, others | Events(some) == es && Events(others) == es
      ensures Run(r, some).intervals == Run(r, others).intervals
    {
      OnlyTheEventsMatter(r, some, others);
    }
  }

  lemma UnsettledEventsDisagree(r: Room, es: set<Event>)
    requires Start(r) && WellFormed(es, r.entries.Keys) && !Settled(es, r.entries.Keys)
    ensures !OrderIndependent(r, es)
  {
    var known := r.entries.Keys;
    if !JoinsAgreeIn(es, known) {
      var j, k :| j in es && k in es && SameSidJoins(j, k, known) && j.at != k.at;
      UnsettledEventsRace(r, es, j, j, k, k);
    } else {
      var j, l, m :| j in es && l in es && m in es && Closes(l, j, known) && Closes(m, j, known) && l.at != m.at;
      UnsettledEventsRace(r, es, j, l, j, m);
    }
  }

  /** For events that an honest provider may send, every order of delivery leads to the
      same intervals exactly when the joins of each SID, and the departures that can close
      it, agree on their times. */
  lemma OrderIsIrrelevantIffSettled(r: Room, es: set<Event>)
    requires Start(r) && WellFormed(es, r.entries.Keys)
    ensures OrderIndependent(r, es) <==> Settled(es, r.entries.Keys)
  {
    if Settled(es, r.entries.Keys) { SettledEventsAgree(r, es); } else { UnsettledEventsDisagree(r, es); }
  }

  // ----- one webhook as the server ingests it -----

  datatype Outcome = Kept(filing: Filing) | Duplicate | IdentityReused

  datatype RoomOutcome = RoomUnmatched | RoomIgnored | RoomProcessed

  class ReceiptLog {
    var receipts: map<nat, Receipt>
    var intervals: map<nat, Interval>
    var entries: map<Identity, Entry>
    var providerRoomSid: Option<nat>
    var ended: bool
    var seen: map<nat, Option<nat>>

    function View(): Room
      reads this
    {
      Room(receipts, intervals, entries, providerRoomSid, ended, seen)
    }

    constructor (entries: map<Identity, AdmissionState>, providerRoomSid: Option<nat>)
      ensures Start(View()) && this.entries.Keys == entries.Keys && this.providerRoomSid == providerRoomSid && !ended
      ensures forall w :: w in entries ==> this.entries[w].state == entries[w]
    {
      receipts, intervals, seen, ended := map[], map[], map[], false;
      this.entries := map w | w in entries :: Entry(entries[w], Times(None, None, None));
      this.providerRoomSid := providerRoomSid;
    }

    /** What a delivery does before it waits for the room's evidence. */
    method ReadRoom(id: nat)
      modifies this`seen
      ensures View() == Next(old(View()), Read(id))
    {
      if id !in receipts && id !in seen { seen := seen[id := providerRoomSid]; }
    }

    /** The end of a preparation whose claim still holds. */
    method RecordPreparation(sid: nat) returns (operational: bool)
      modifies this`providerRoomSid
      ensures View() == Next(old(View()), Prepare(sid)) && (operational <==> !ended)
    {
      operational := !ended;
      if operational { providerRoomSid := Some(sid); }
    }

    method ApplyRoomEvent(finished: bool, sid: nat) returns (outcome: RoomOutcome)
      modifies this`providerRoomSid, this`ended
      ensures View() == Next(old(View()), if finished then RoomFinished(sid) else RoomStarted(sid))
      ensures outcome.RoomUnmatched? <==> old(providerRoomSid).Some? && old(providerRoomSid) != Some(sid)
      ensures outcome.RoomProcessed? <==> Matches(old(View()), sid)
    {
      if providerRoomSid.Some? && providerRoomSid.value != sid { return RoomUnmatched; }
      if ended { return RoomIgnored; }
      if providerRoomSid.None? { providerRoomSid := Some(sid); }
      if finished { ended := true; }
      outcome := RoomProcessed;
    }

    method Ingest(e: Event) returns (outcome: Outcome)
      modifies this
      ensures View() == Next(old(View()), Receive(e))
      ensures outcome.Duplicate? <==> e.id in old(receipts) && old(receipts)[e.id].event == e
      ensures outcome.IdentityReused? ==> View() == old(View()).(seen := old(seen) - {e.id})
      ensures outcome.Kept? ==> e.id !in old(receipts) && e.id in receipts && receipts[e.id] == Receipt(e, outcome.filing)
    {
      var sid := if e.id in seen then seen[e.id] else providerRoomSid;
      seen := seen - {e.id};
      if e.id in receipts {
        return if receipts[e.id].event == e then Duplicate else IdentityReused;
      }
      var filing := if !e.inRoom then Unmatched
                    else if !e.identity.Attendee? then Ignored
                    else if e.identity !in entries then Unmatched
                    else Processed;
      if filing.Processed? && e.participant in intervals && intervals[e.participant].identity != e.identity {
        return IdentityReused;
      }
      receipts := receipts[e.id := Receipt(e, filing)];
      if filing.Processed? {
        ghost var before := old(View());
        if e.kind.Joined? {
          var terminal := FindTerminal(e);
          intervals := WithJoin(intervals, e.participant, e.identity, e.at, terminal);
        } else {
          intervals := WithLeave(intervals, e.participant, e.at);
        }
        assert intervals == Rows(before, e);
        ProjectPresence(e.identity);
        if e.kind.Joined? && sid != Some(e.roomSid) {
          assert receipts[e.id].event.at in JoinTimes(receipts);
          providerRoomSid := LatestJoinSid();
        }
      }
      outcome := Kept(filing);
    }

    /** The earliest processed departure of the join's SID that is not before the join. */
    method FindTerminal(e: Event) returns (terminal: Option<nat>)
      ensures terminal == FirstLeaveAfter(receipts, e)
    {
      var leaves := LeavesAfter(receipts, e);
      if leaves == {} { return None; }
      var at := LeastOf(leaves);
      terminal := Some(at);
    }

    /** The SID named by the newest processed join. */
    method LatestJoinSid() returns (sid: Option<nat>)
      requires JoinTimes(receipts) != {}
      ensures sid == NewestSid(receipts)
    {
      var at := LargestOf(JoinTimes(receipts));
      ghost var some :| some in receipts && IsJoin(receipts[some]) && receipts[some].event.at == at;
      assert some in JoinsAt(receipts, at);
      var id := LargestOf(JoinsAt(receipts, at));
      sid := Some(receipts[id].event.roomSid);
    }

    /** Carries the intervals of one identity over to its lobby entry. */
    method ProjectPresence(who: Identity)
      requires who in entries
      modifies this`entries
      ensures var was := old(entries)[who];
        entries == old(entries)[who := Entry(Projected(was.state, intervals, who),
                                             if Of(intervals, who) == {} then was.times else TimesOf(intervals, who))]
    {
      if Of(intervals, who) == {} { entries := entries[who := entries[who]]; return; }
      JoinsOfSome(intervals, who);
      var joins, leaves := Joins(intervals, who), Leaves(intervals, who);
      var open := Open(intervals, who);
      var first := LeastOf(joins);
      var last := LargestOf(joins + leaves);
      var left := None;
      if !open {
        var latest := LargestOf(leaves);
        left := Some(latest);
      }
      var state := entries[who].state;
      if Presence(state) { state := if open then Connected else Left; }
      entries := entries[who := Entry(state, Times(Some(first), Some(last), left))];
    }
  }
}
