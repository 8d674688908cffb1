/**
 Credential issuance against the places of one LiveKit room.

 A credential reserves a place from the moment it is issued until it expires,
 whatever later happens to the admission that earned it. Issuing runs inside a
 transaction holding the room row, but the provider does not take part in that
 transaction: joins, drops, expiries and admission changes fall between the
 participant listing and the commit. Begin, List and Commit are therefore
 separate steps here, and every other step may happen between them.
 */
module RoomCapacity {
  import opened Prelude
  import opened Lobby

  /** The one transaction that may hold the room row. `full` is what the reservation
      count that follows the listing found. */
  datatype Issuance =
    | Idle
    | Begun(who: Identity, began: nat)
    | Listed(who: Identity, began: nat, at: nat, snapshot: set<Identity>, full: bool)

  /** `expires` joins the credential expiry of the lobby rows and of the presenter
      reservations, each under the identity its row stands for. */
  datatype Room = Room(
    now: nat,
    places: nat,
    attendeePlaces: nat,
    lobby: map<nat, AdmissionState>,
    expires: map<Identity, nat>,
    connected: set<Identity>,
    issuance: Issuance)

  datatype Decision =
    Ready | AccessRevoked | WaitingForAdmission | ProviderUnavailable | CapacityReached

  // ----- what a credential holds -----

  function Reserved(expires: map<Identity, nat>, t: nat): set<Identity> {
    set x | x in expires && expires[x] > t
  }

  /** Connected identities and identities that can still connect. */
  function Held(r: Room): set<Identity> {
    r.connected + Reserved(r.expires, r.now)
  }

  function AttendeesIn(s: set<Identity>): set<Identity> {
    set x | x in s && x.Attendee?
  }

  predicate Fits(r: Room, s: set<Identity>) {
    |s| <= r.places && |AttendeesIn(s)| <= r.attendeePlaces
  }

  // ----- the capacity check -----

  /** Unexpired reservations, other than the requester's, of identities not listed. */
  function Unconnected(r: Room, t: nat, who: Identity, listed: set<Identity>): set<Identity> {
    Reserved(r.expires, t) - {who} - listed
  }

  predicate Full(r: Room, t: nat, who: Identity, listed: set<Identity>) {
    var attendees := |AttendeesIn(Unconnected(r, t, who, listed))|;
    var total := |Unconnected(r, t, who, listed)|;
    || |listed| + total >= r.places
    || (who.Attendee? && |AttendeesIn(listed)| + attendees >= r.attendeePlaces)
  }

  /** The first reason that refuses the request under revalidation, if any does. */
  function Decide(r: Room, expires: nat): Decision
    requires r.issuance.Listed?
  {
    var i := r.issuance;
    if i.who.Attendee? && (i.who.participation !in r.lobby
                           || r.lobby[i.who.participation] in {Declined, Revoked}) then AccessRevoked
    else if i.who.Attendee? && r.lobby[i.who.participation] == Waiting then WaitingForAdmission
    else if expires <= i.began then ProviderUnavailable
    else if i.who !in i.snapshot && i.full then CapacityReached
    else if expires <= r.now then ProviderUnavailable
    else Ready
  }

  // ----- the machine -----

  datatype Step =
    | Advance(ticks: nat)
    | Enter(participation: nat)
    | ChangeAdmission(participation: nat, state: AdmissionState)
    | Join(who: Identity)
    | Drop(who: Identity)
    | Begin(who: Identity)
    | List
    | Commit(expires: nat)
    | Abandon

  function Expiry(expires: map<Identity, nat>, who: Identity): nat {
    if who in expires then expires[who] else 0
  }

  /** A token is recorded under the later of its own and the stored expiry. */
  function Record(expires: map<Identity, nat>, who: Identity, at: nat): map<Identity, nat> {
    expires[who := if Expiry(expires, who) > at then Expiry(expires, who) else at]
  }

  function Marked(lobby: map<nat, AdmissionState>, who: Identity): map<nat, AdmissionState> {
    if who.Attendee? && who.participation in lobby && lobby[who.participation] != Connected
    then lobby[who.participation := TokenIssued] else lobby
  }

  /** A step whose guard fails leaves the room as it is. */
  function Next(r: Room, s: Step): Room {
    match s
    case Advance(ticks) => r.(now := r.now + ticks)
    case Enter(p) => if p in r.lobby then r else r.(lobby := r.lobby[p := Waiting])
    case ChangeAdmission(p, state) => if p in r.lobby then r.(lobby := r.lobby[p := state]) else r
    case Join(who) => if Expiry(r.expires, who) > r.now then r.(connected := r.connected + {who}) else r
    case Drop(who) => r.(connected := r.connected - {who})
    case Begin(who) => if r.issuance.Idle? then r.(issuance := Begun(who, r.now)) else r
    case List =>
      if !r.issuance.Begun? then r else
      var who, began := r.issuance.who, r.issuance.began;
      r.(issuance := Listed(who, began, r.now, r.connected, Full(r, began, who, r.connected)))
    case Commit(expires) =>
      if !r.issuance.Listed? then r
      else if Decide(r, expires) != Ready then r.(issuance := Idle)
      else r.(lobby := Marked(r.lobby, r.issuance.who),
              expires := Record(r.expires, r.issuance.who, expires),
              issuance := Idle)
    case Abandon => r.(issuance := Idle)
  }

  function Run(r: Room, steps: seq<Step>): Room
    decreases |steps|
  {
    if steps == [] then r else Run(Next(r, steps[0]), steps[1..])
  }

  predicate Empty(r: Room) {
    r.connected == {} && r.expires == map[] && r.issuance == Idle
  }

  /** Whoever can be connected while a listing is held was listed, or reserved when the
      listing was taken; and unless the count refused the requester, one more place for
      the requester is covered too. */
  ghost predicate ListingCovers(r: Room) {
    r.issuance.Listed? ==>
      var i := r.issuance;
      var cover := i.snapshot + Reserved(r.expires, i.at);
      && i.at <= r.now
      && r.connected <= cover
      && (i.who in i.snapshot || !i.full ==> Fits(r, cover + {i.who}))
  }

  ghost predicate Inv(r: Room) {
    && Fits(r, Held(r))
    && (r.issuance.Begun? ==> r.issuance.began <= r.now)
    && ListingCovers(r)
  }

  // ----- the counting query finds the places -----

  lemma AttendeesOfUnion(a: set<Identity>, b: set<Identity>)
    ensures AttendeesIn(a + b) == AttendeesIn(a) + AttendeesIn(b)
    ensures a !! b ==> AttendeesIn(a) !! AttendeesIn(b)
  {
  }

  /** The listed participants plus the counted rows are exactly the identities that are
      listed, or reserved by someone other than the requester. */
  lemma CountsArePlaces(r: Room, t: nat, who: Identity, listed: set<Identity>)
    ensures var others := listed + (Reserved(r.expires, t) - {who});
      && |listed| + |Unconnected(r, t, who, listed)| == |others|
      && |AttendeesIn(listed)| + |AttendeesIn(Unconnected(r, t, who, listed))| == |AttendeesIn(others)|
  {
    var extra := Unconnected(r, t, who, listed);
    assert listed + (Reserved(r.expires, t) - {who}) == listed + extra;
    DisjointSize(listed, extra);
    AttendeesOfUnion(listed, extra);
    DisjointSize(AttendeesIn(listed), AttendeesIn(extra));
  }

  lemma FitsSubset(r: Room, a: set<Identity>, b: set<Identity>)
    requires a <= b && Fits(r, b)
    ensures Fits(r, a)
  {
    SubsetSize(a, b);
    SubsetSize(AttendeesIn(a), AttendeesIn(b));
  }

  /** A requester not refused for capacity fits, counted beside everyone who can be
      connected from the listing on. */
  lemma NewcomerFits(r: Room, who: Identity, began: nat)
    requires began <= r.now && Fits(r, Held(r))
    requires who !in r.connected && !Full(r, began, who, r.connected)
    ensures Fits(r, Held(r) + {who})
  {
    var others := r.connected + (Reserved(r.expires, began) - {who});
    CountsArePlaces(r, began, who, r.connected);
    var held := Held(r) + {who};
    assert held <= others + {who};
    SubsetSize(held, others + {who});
    AttendeesOfUnion(others, {who});
    AttendeesOfUnion(Held(r), {who});
    if who.Attendee? {
      assert AttendeesIn({who}) == {who};
      SubsetSize(AttendeesIn(held), AttendeesIn(others) + {who});
    } else {
      assert AttendeesIn({who}) == {};
    }
  }

  /** Recording a credential that has not expired reserves for its holder and nobody else. */
  lemma RecordReserves(expires: map<Identity, nat>, who: Identity, at: nat, t: nat)
    requires at > t
    ensures Reserved(Record(expires, who, at), t) == Reserved(expires, t) + {who}
  {
  }

  lemma CommitHolds(r: Room, expires: nat)
    requires r.issuance.Listed? && Decide(r, expires) == Ready
    ensures Held(Next(r, Commit(expires))) == Held(r) + {r.issuance.who}
  {
    RecordReserves(r.expires, r.issuance.who, expires, r.now);
  }

  // ----- every step keeps the room within its places -----

  lemma CommitKeeps(r: Room, expires: nat)
    requires Inv(r) && r.issuance.Listed?
    ensures Inv(Next(r, Commit(expires)))
  {
    var i := r.issuance;
    var r' := Next(r, Commit(expires));
    if Decide(r, expires) == Ready {
      CommitHolds(r, expires);
      FitsSubset(r, Held(r) + {i.who}, i.snapshot + Reserved(r.expires, i.at) + {i.who});
      assert Fits(r', Held(r'));
    } else {
      assert Held(r') == Held(r);
    }
  }

  lemma ListKeeps(r: Room)
    requires Inv(r) && r.issuance.Begun?
    ensures Inv(Next(r, List))
  {
    var who, began := r.issuance.who, r.issuance.began;
    assert Held(Next(r, List)) == Held(r);
    if who in r.connected {
      assert Held(r) + {who} == Held(r);
    } else if !Full(r, began, who, r.connected) {
      NewcomerFits(r, who, began);
    }
  }

  lemma JoinKeeps(r: Room, who: Identity)
    requires Inv(r) && Expiry(r.expires, who) > r.now
    ensures Inv(Next(r, Join(who)))
  {
    assert Held(Next(r, Join(who))) == Held(r);
  }

  /** A step that reserves nothing, connects nobody and takes no listing. */
  lemma QuietKeeps(r: Room, s: Step)
    requires Inv(r) && (s.Advance? || s.Enter? || s.ChangeAdmission? || s.Drop? || s.Begin? || s.Abandon?)
    ensures Inv(Next(r, s))
  {
    var r' := Next(r, s);
    assert Held(r') <= Held(r);
    FitsSubset(r, Held(r'), Held(r));
  }

  lemma NextKeeps(r: Room, s: Step)
    requires Inv(r)
    ensures Inv(Next(r, s))
  {
    match s
    case Commit(expires) => if r.issuance.Listed? { CommitKeeps(r, expires); }
    case List => if r.issuance.Begun? { ListKeeps(r); }
    case Join(who) => if Expiry(r.expires, who) > r.now { JoinKeeps(r, who); }
    case _ => QuietKeeps(r, s);
  }

  lemma {:induction false} RunKeeps(r: Room, steps: seq<Step>)
    requires Inv(r)
    ensures Inv(Run(r, steps))
    decreases |steps|
  {
    if steps != [] {
      NextKeeps(r, steps[0]);
      RunKeeps(Next(r, steps[0]), steps[1..]);
    }
  }

  lemma {:induction false} RunKeepsPlaces(r: Room, steps: seq<Step>)
    ensures Run(r, steps).places == r.places && Run(r, steps).attendeePlaces == r.attendeePlaces
    decreases |steps|
  {
    if steps != [] { RunKeepsPlaces(Next(r, steps[0]), steps[1..]); }
  }

  // ----- results over whole runs -----

  /** However issuance, joins, drops, admission changes and expiries interleave, the
      connected identities and unexpired credentials together never exceed the room,
      and the attendees among them never exceed the attendee capacity, so the places
      above that capacity are left to staff. */
  lemma NoRunOverfillsTheRoom(r: Room, steps: seq<Step>)
    requires Empty(r)
    ensures var end := Run(r, steps);
      && |Held(end)| <= r.places
      && |AttendeesIn(Held(end))| <= r.attendeePlaces
      && |end.connected| <= r.places
  {
    assert Held(r) == {} && AttendeesIn(Held(r)) == {};
    RunKeeps(r, steps);
    RunKeepsPlaces(r, steps);
    var end := Run(r, steps);
    SubsetSize(end.connected, Held(end));
  }

  /** No step of any run moves a stored expiry earlier. */
  lemma {:induction false} ExpiryNeverMovesEarlier(r: Room, steps: seq<Step>, who: Identity)
    ensures Expiry(Run(r, steps).expires, who) >= Expiry(r.expires, who)
    decreases |steps|
  {
    if steps != [] {
      assert Expiry(Next(r, steps[0]).expires, who) >= Expiry(r.expires, who);
      ExpiryNeverMovesEarlier(Next(r, steps[0]), steps[1..], who);
    }
  }

  /** Nothing frees a place before its credential expires: no declining, revoking, dropping or
      later issuance in any run. */
  lemma PlacesLastUntilExpiry(r: Room, steps: seq<Step>, who: Identity)
    requires Expiry(r.expires, who) > Run(r, steps).now
    ensures who in Held(Run(r, steps))
  {
    ExpiryNeverMovesEarlier(r, steps, who);
  }

  /** A refresh for an identity that already holds a place changes no place; a first
      credential takes exactly one. */
  lemma RefreshTakesNoPlace(r: Room, expires: nat)
    requires r.issuance.Listed? && Decide(r, expires) == Ready
    ensures var r' := Next(r, Commit(expires));
      && Held(r') == Held(r) + {r.issuance.who}
      && |Held(r')| == |Held(r)| + if r.issuance.who in Held(r) then 0 else 1
  {
    CommitHolds(r, expires);
    if r.issuance.who in Held(r) { assert Held(r) + {r.issuance.who} == Held(r); }
  }

  /** Decided on a listing just taken, the capacity check is exact: an admitted requester
      who is not connected is refused just when one more place would overfill the room or
      the attendee capacity. */
  lemma CapacityRefusalIsExact(r: Room, who: Identity, expires: nat)
    requires r.issuance == Listed(who, r.now, r.now, r.connected, Full(r, r.now, who, r.connected))
    requires who !in r.connected && expires > r.now
    requires who.Attendee? ==> who.participation in r.lobby
                               && r.lobby[who.participation] !in {Declined, Revoked, Waiting}
    ensures Decide(r, expires) == CapacityReached
      <==> |Held(r) + {who}| > r.places
           || (who.Attendee? && |AttendeesIn(Held(r) + {who})| > r.attendeePlaces)
  {
    var others := r.connected + (Reserved(r.expires, r.now) - {who});
    CountsArePlaces(r, r.now, who, r.connected);
    assert Held(r) + {who} == others + {who};
    AttendeesOfUnion(others, {who});
    if who.Attendee? { assert AttendeesIn({who}) == {who}; }
  }

  // ----- who is given a credential -----

  predicate MayEnter(lobby: map<nat, AdmissionState>, who: Identity) {
    who.Attendee? ==> who.participation in lobby && Active(lobby[who.participation])
  }

  /** Each outcome of the revalidation by its own condition on entry, clocks and listing. */
  lemma OutcomesAreExact(r: Room, expires: nat)
    requires r.issuance.Listed?
    ensures var i, decision := r.issuance, Decide(r, expires);
      var unlisted := i.full && i.who !in i.snapshot;
      && (decision == Ready <==> MayEnter(r.lobby, i.who) && expires > Max(i.began, r.now) && !unlisted)
      && (decision == WaitingForAdmission
          <==> i.who.Attendee? && i.who.participation in r.lobby && r.lobby[i.who.participation] == Waiting)
      && (decision == AccessRevoked
          <==> i.who.Attendee? && (i.who.participation in r.lobby ==> r.lobby[i.who.participation] in {Declined, Revoked}))
      && (decision == CapacityReached <==> MayEnter(r.lobby, i.who) && expires > i.began && unlisted)
      && (decision == ProviderUnavailable
          <==> MayEnter(r.lobby, i.who) && (expires <= i.began || (expires <= r.now && !unlisted)))
  {
  }

  /** A commit ends the issuance. It stores an expiry, the later of its own and the stored one,
      and marks the attendee, unless connected, exactly when none of the refusals applies; in
      every other case it changes nothing else. */
  lemma CredentialIsStoredIff(r: Room, expires: nat)
    requires r.issuance.Listed?
    ensures var i, r' := r.issuance, Next(r, Commit(expires));
      var ready := MayEnter(r.lobby, i.who) && expires > Max(i.began, r.now) && (i.who in i.snapshot || !i.full);
      && r'.issuance == Idle && r'.connected == r.connected && r'.now == r.now
      && (!ready ==> r'.expires == r.expires && r'.lobby == r.lobby)
      && (ready ==> r'.expires == r.expires[i.who := Max(expires, Expiry(r.expires, i.who))])
      && (ready && i.who.Staff? ==> r'.lobby == r.lobby)
      && (ready && i.who.Attendee? ==>
            var p := i.who.participation;
            r'.lobby == r.lobby[p := if r.lobby[p].Connected? then Connected else TokenIssued])
  {
    OutcomesAreExact(r, expires);
    if Decide(r, expires) == Ready && r.issuance.who.Attendee? {
      var p := r.issuance.who.participation;
      assert r.lobby[p].Connected? ==> r.lobby[p := Connected] == r.lobby;
    }
  }

  /** An entry that no step makes active stays without a new credential, whatever issuance was
      begun for it, before it was declined or revoked or after; and unless its admission is
      changed its state stays too. */
  lemma {:induction false} InactiveGetsNothing(r: Room, steps: seq<Step>, p: nat)
    requires p in r.lobby && !Active(r.lobby[p])
    requires forall state :: ChangeAdmission(p, state) in steps ==> !Active(state)
    ensures var end := Run(r, steps);
      && p in end.lobby && !Active(end.lobby[p])
      && Expiry(end.expires, Attendee(p)) == Expiry(r.expires, Attendee(p))
      && ((forall state :: ChangeAdmission(p, state) !in steps) ==> end.lobby[p] == r.lobby[p])
    decreases |steps|
  {
    if steps != [] {
      assert steps[0].ChangeAdmission? ==> ChangeAdmission(steps[0].participation, steps[0].state) in steps;
      InactiveStays(r, steps[0], p);
      InactiveGetsNothing(Next(r, steps[0]), steps[1..], p);
    }
  }

  lemma InactiveStays(r: Room, s: Step, p: nat)
    requires p in r.lobby && !Active(r.lobby[p])
    requires s.ChangeAdmission? && s.participation == p ==> !Active(s.state)
    ensures var r' := Next(r, s);
      && p in r'.lobby && !Active(r'.lobby[p])
      && Expiry(r'.expires, Attendee(p)) == Expiry(r.expires, Attendee(p))
      && (r'.lobby[p] != r.lobby[p] ==> s.ChangeAdmission? && s.participation == p)
  {
    if s.Commit? && r.issuance.Listed? { CredentialIsStoredIff(r, s.expires); }
  }

  /** A place is held by whoever is connected or has an unexpired credential stored, and only
      by them; a participant gets in exactly with an unexpired credential. */
  lemma PlacesAreHeldIff(r: Room, who: Identity)
    ensures who in Held(r) <==> who in r.connected || (who in r.expires && r.expires[who] > r.now)
    ensures Next(r, Join(who)).connected
            == if who in r.expires && r.expires[who] > r.now then r.connected + {who} else r.connected
  {
  }

  /** What a listing finds: the connected participants, and whether they and the others'
      unexpired credentials leave no place for the requester. */
  lemma ListingIsExact(r: Room, others: set<Identity>)
    requires r.issuance.Begun?
    requires forall x :: x in others <==>
      x in r.connected || (x in r.expires && r.expires[x] > r.issuance.began && x != r.issuance.who)
    ensures var i, r' := r.issuance, Next(r, List);
      && r'.issuance.Listed? && r' == r.(issuance := r'.issuance)
      && r'.issuance.who == i.who && r'.issuance.began == i.began && r'.issuance.at == r.now && r'.issuance.snapshot == r.connected
      && (r'.issuance.full
          <==> |others| >= r.places || (i.who.Attendee? && |AttendeesIn(others)| >= r.attendeePlaces))
  {
    OthersAreCounted(r, r.issuance.began, r.issuance.who, others);
  }

  lemma OthersAreCounted(r: Room, began: nat, who: Identity, others: set<Identity>)
    requires forall x :: x in others <==> x in r.connected || (x in r.expires && r.expires[x] > began && x != who)
    ensures Full(r, began, who, r.connected)
      <==> |others| >= r.places || (who.Attendee? && |AttendeesIn(others)| >= r.attendeePlaces)
  {
    assert others == r.connected + (Reserved(r.expires, began) - {who});
    CountsArePlaces(r, began, who, r.connected);
  }

  /** One issuance at a time is begun, dated by its start; an entry begins by waiting, and staff
      change only one that exists. */
  lemma SurroundingStepsAreExact(r: Room, who: Identity, p: nat, state: AdmissionState)
    ensures Next(r, Begin(who)) == if r.issuance == Idle then r.(issuance := Begun(who, r.now)) else r
    ensures Next(r, Abandon) == r.(issuance := Idle)
    ensures Next(r, Enter(p)) == if p !in r.lobby then r.(lobby := r.lobby[p := Waiting]) else r
    ensures Next(r, ChangeAdmission(p, state)) == if p !in r.lobby then r else r.(lobby := r.lobby[p := state])
    ensures Next(r, Drop(who)) == r.(connected := r.connected - {who})
  {
  }

  // ----- the room as the server updates it -----

  /** The rows of one room, and the provider's participant list, updated in place. */
  class VirtualRoom {
    var now: nat
    const places: nat
    const attendeePlaces: nat
    var lobby: map<nat, AdmissionState>
    var expires: map<Identity, nat>
    var connected: set<Identity>
    var issuance: Issuance

    function View(): Room
      reads this
    {
      Room(now, places, attendeePlaces, lobby, expires, connected, issuance)
    }

    constructor (places: nat, attendeePlaces: nat)
      ensures Empty(View()) && this.places == places && this.attendeePlaces == attendeePlaces
    {
      now := 0;
      this.places := places;
      this.attendeePlaces := attendeePlaces;
      lobby, expires, connected, issuance := map[], map[], {}, Idle;
    }

    method BeginIssuance(who: Identity)
      modifies this`issuance
      ensures View() == Next(old(View()), Begin(who))
    {
      if issuance.Idle? { issuance := Begun(who, now); }
    }

    /** Lists the provider's participants, then counts the other unexpired reservations. */
    method ListParticipants()
      requires issuance.Begun?
      modifies this`issuance
      ensures View() == Next(old(View()), List)
    {
      var who, began := issuance.who, issuance.began;
      var unconnected := (set x | x in expires && expires[x] > began) - {who} - connected;
      var full := |connected| + |unconnected| >= places;
      if who.Attendee? && |AttendeesIn(connected)| + |AttendeesIn(unconnected)| >= attendeePlaces {
        full := true;
      }
      issuance := Listed(who, began, now, connected, full);
    }

    /** The revalidation that ends an issuance: denied for the first reason that holds,
        otherwise recorded under the later of the two expiries. */
    method CommitCredential(at: nat) returns (decision: Decision)
      requires issuance.Listed?
      modifies this`issuance, this`lobby, this`expires
      ensures decision == Decide(old(View()), at)
      ensures View() == Next(old(View()), Commit(at))
    {
      var i := issuance;
      issuance := Idle;
      if i.who.Attendee? {
        if i.who.participation !in lobby || lobby[i.who.participation] in {Declined, Revoked} {
          return AccessRevoked;
        }
        if lobby[i.who.participation] == Waiting { return WaitingForAdmission; }
      }
      if at <= i.began { return ProviderUnavailable; }
      if i.who !in i.snapshot && i.full { return CapacityReached; }
      if at <= now { return ProviderUnavailable; }
      if i.who.Attendee? && lobby[i.who.participation] != Connected {
        lobby := lobby[i.who.participation := TokenIssued];
      }
      var kept := if i.who in expires && expires[i.who] > at then expires[i.who] else at;
      expires := expires[i.who := kept];
      decision := Ready;
    }
  }
}
