/**
 Bulk orders, the access grants they pay for, redemptions and refunds.

 Every operation is one transaction that locks the rows it reads, so it is one step
 here; payment notifications may be replayed and arrive in any order.
 */
module AccessGrants {
  import opened Prelude

  datatype OrderKind = BulkPurchase | CapacityExtension(grant: nat)

  datatype OrderStatus = Pending | Failed | Paid | PartiallyRefunded | Refunded

  datatype Mode = SharedCode | SingleUseCodes

  /** `created` is the grant a bulk purchase has been linked to. */
  datatype Order = Order(
    kind: OrderKind, mode: Mode, course: nat, quantity: nat, totalCents: nat,
    status: OrderStatus, session: Option<nat>, refundedCents: nat, created: Option<nat>)

  /** A code row; a shared code has no ordinal. */
  datatype Code = Code(lookup: nat, ordinal: Option<nat>)

  datatype Grant = Grant(
    course: nat, mode: Mode, quantity: nat, redeemed: nat, expires: Option<nat>, revoked: bool,
    purchased: bool, codes: seq<Code>)

  datatype Redemption = Redemption(grant: nat, user: nat, code: Option<nat>)

  datatype RefundStatus = InProgress | Succeeded | Unsuccessful

  datatype Refund = Refund(id: nat, order: nat, amountCents: nat, status: RefundStatus)

  /** What the audit log says of a grant's quantity: the order that paid for the change,
      or none for a staff edit. */
  datatype Change = Change(grant: nat, order: Option<nat>, delta: int)

  /** Where the unique index on lookup ids finds a code. */
  datatype Place = Place(grant: nat, row: nat)

  datatype Access = Access(
    grants: map<nat, Grant>,
    issued: map<nat, Place>,
    enrolled: set<(nat, nat)>,
    redemptions: set<Redemption>)

  datatype World = World(
    now: nat,
    orders: map<nat, Order>,
    payments: map<nat, nat>,
    access: Access,
    refunds: seq<Refund>,
    audit: seq<Change>)

  datatype Step =
    | Advance(ticks: nat)
    | PlaceOrder(order: nat, kind: OrderKind, mode: Mode, course: nat, quantity: nat, totalCents: nat)
    | FailCheckout(order: nat)
    | Fulfil(order: nat, session: nat, amountCents: nat, payment: nat, grant: nat, codes: seq<nat>)
    | CreateGrant(grant: nat, mode: Mode, course: nat, quantity: nat, expires: Option<nat>, codes: seq<nat>)
    | EditCapacity(grant: nat, quantity: nat, codes: seq<nat>)
    | Revoke(grant: nat)
    | Redeem(code: nat, user: nat)
    | RecordRefund(refund: nat, payment: nat, amountCents: nat, status: RefundStatus)

  predicate Settled(s: OrderStatus) { s.Paid? || s.PartiallyRefunded? || s.Refunded? }

  // ----- issuing codes -----

  /** The issuer never returns a lookup id that is in use, nor the same one twice. */
  predicate FreshCodes(a: Access, codes: seq<nat>, count: nat) {
    && |codes| == count
    && (forall i :: 0 <= i < |codes| ==> codes[i] !in a.issued)
    && (forall i, j :: 0 <= i < j < |codes| ==> codes[i] != codes[j])
  }

  function Numbered(codes: seq<nat>, first: nat): seq<Code> {
    seq(|codes|, i requires 0 <= i < |codes| => Code(codes[i], Some(first + i)))
  }

  function Indexed(issued: map<nat, Place>, codes: seq<nat>, grant: nat, row: nat): map<nat, Place> {
    if codes == [] then issued else Indexed(issued, codes[1..], grant, row + 1)[codes[0] := Place(grant, row)]
  }

  function CodeCount(mode: Mode, quantity: nat): nat {
    if mode.SharedCode? then 1 else quantity
  }

  function FirstCodes(mode: Mode, codes: seq<nat>): seq<Code>
    requires mode.SharedCode? ==> |codes| == 1
  {
    if mode.SharedCode? then [Code(codes[0], None)] else Numbered(codes, 1)
  }

  function NewGrant(a: Access, id: nat, g: Grant, codes: seq<nat>): Access {
    a.(grants := a.grants[id := g], issued := Indexed(a.issued, codes, id, 0))
  }

  function AddedCodes(g: Grant, codes: seq<nat>): seq<nat> {
    if g.mode.SingleUseCodes? then codes else []
  }

  /** A larger batch gets codes numbered on from the last; a shared code needs no more. */
  function Resized(a: Access, id: nat, quantity: nat, codes: seq<nat>): Access
    requires id in a.grants
  {
    var g := a.grants[id];
    var added := AddedCodes(g, codes);
    a.(grants := a.grants[id := g.(quantity := quantity, codes := g.codes + Numbered(added, g.quantity + 1))],
       issued := Indexed(a.issued, added, id, |g.codes|))
  }

  // ----- paying -----

  datatype FulfilOutcome = Fulfilled | AlreadyFulfilled | Ignored | Refused

  /** How a paid checkout session is answered; a refusal rolls everything back. */
  function FulfilOutcomeOf(w: World, s: Step): FulfilOutcome
    requires s.Fulfil?
  {
    if s.order !in w.orders then Refused
    else var o := w.orders[s.order];
      if o.session.Some? && o.session.value != s.session then Refused
      else if s.amountCents != o.totalCents then Refused
      else if Settled(o.status) then AlreadyFulfilled
      else if !o.status.Pending? then Ignored
      else if o.quantity < 1 then Refused
      else if o.kind.CapacityExtension? && !Extends(w, o) then Refused
      else if o.kind.BulkPurchase? && o.created.Some? then Refused
      else if s.payment in w.payments then Refused
      else Fulfilled
  }

  predicate Extends(w: World, o: Order)
    requires o.kind.CapacityExtension?
  {
    o.kind.grant in w.access.grants
    && var g := w.access.grants[o.kind.grant];
       g.purchased && g.course == o.course && g.mode == o.mode
  }

  /** What the new row ids and the code issuer supply. */
  predicate Supplied(w: World, s: Step)
    requires s.Fulfil? && s.order in w.orders
  {
    var o := w.orders[s.order];
    match o.kind
    case BulkPurchase => s.grant !in w.access.grants && FreshCodes(w.access, s.codes, CodeCount(o.mode, o.quantity))
    case CapacityExtension(_) => FreshCodes(w.access, s.codes, if o.mode.SingleUseCodes? then o.quantity else 0)
  }

  function Bought(o: Order, codes: seq<nat>): Grant
    requires o.mode.SharedCode? ==> |codes| == 1
  {
    Grant(o.course, o.mode, o.quantity, 0, None, false, true, FirstCodes(o.mode, codes))
  }

  /** Which grant a payment changes. */
  function Target(o: Order, created: nat): nat {
    if o.kind.BulkPurchase? then created else o.kind.grant
  }

  function Fulfilling(w: World, s: Step): World
    requires s.Fulfil? && FulfilOutcomeOf(w, s) == Fulfilled && Supplied(w, s)
  {
    var o := w.orders[s.order];
    var id := Target(o, s.grant);
    w.(orders := w.orders[s.order := o.(status := Paid, session := Some(s.session),
                                        created := if o.kind.BulkPurchase? then Some(id) else o.created)],
       payments := w.payments[s.payment := s.order],
       access := if o.kind.BulkPurchase? then NewGrant(w.access, id, Bought(o, s.codes), s.codes)
                 else Resized(w.access, id, w.access.grants[id].quantity + o.quantity, s.codes),
       audit := w.audit + [Change(id, Some(s.order), o.quantity)])
  }

  // ----- redeeming -----

  datatype RedeemOutcome = Enrolled | AlreadyEnrolled | Invalid

  function RedeemOutcomeOf(a: Access, code: nat, user: nat, now: nat): RedeemOutcome {
    if code !in a.issued || a.issued[code].grant !in a.grants then Invalid
    else var g := a.grants[a.issued[code].grant];
      if g.mode.SingleUseCodes? && (exists r :: r in a.redemptions && r.code == Some(code)) then Invalid
      else if g.revoked || (g.expires.Some? && g.expires.value <= now) then Invalid
      else if (user, g.course) in a.enrolled then AlreadyEnrolled
      else if g.redeemed >= g.quantity then Invalid
      else Enrolled
  }

  function Redeemed(a: Access, code: nat, user: nat): Access
    requires code in a.issued && a.issued[code].grant in a.grants
  {
    var id := a.issued[code].grant;
    var g := a.grants[id];
    a.(grants := a.grants[id := g.(redeemed := g.redeemed + 1)],
       enrolled := a.enrolled + {(user, g.course)},
       redemptions := a.redemptions + {Redemption(id, user, if g.mode.SingleUseCodes? then Some(code) else None)})
  }

  // ----- refunding -----

  /** A refund already known is updated where it stands, under the order it was filed for. */
  function Upserted(rows: seq<Refund>, r: Refund): seq<Refund> {
    if rows == [] then [r]
    else if rows[0].id == r.id then [rows[0].(amountCents := r.amountCents, status := r.status)] + rows[1..]
    else [rows[0]] + Upserted(rows[1..], r)
  }

  function Contribution(r: Refund): nat {
    if r.status.Succeeded? then r.amountCents else 0
  }

  function RefundedTotal(rows: seq<Refund>, order: nat): nat {
    if rows == [] then 0
    else (if rows[0].order == order then Contribution(rows[0]) else 0) + RefundedTotal(rows[1..], order)
  }

  function StatusFor(refundedCents: nat, totalCents: nat): OrderStatus {
    if refundedCents == 0 then Paid
    else if refundedCents == totalCents then Refunded
    else PartiallyRefunded
  }

  function FiledRefund(rows: seq<Refund>, id: nat): Option<Refund> {
    if rows == [] then None else if rows[0].id == id then Some(rows[0]) else FiledRefund(rows[1..], id)
  }

  datatype RefundOutcome = Recorded | AlreadyRecorded | Unmatched | ExceedsOrder

  function RefundOutcomeOf(w: World, s: Step): RefundOutcome
    requires s.RecordRefund?
  {
    if s.payment !in w.payments || w.payments[s.payment] !in w.orders then Unmatched
    else var id := w.payments[s.payment]; var filed := FiledRefund(w.refunds, s.refund);
      if filed.Some? && filed.value.amountCents == s.amountCents && filed.value.status == s.status then AlreadyRecorded
      else if RefundedTotal(Upserted(w.refunds, Refund(s.refund, id, s.amountCents, s.status)), id) > w.orders[id].totalCents
      then ExceedsOrder
      else Recorded
  }

  function Refunding(w: World, s: Step): World
    requires s.RecordRefund? && RefundOutcomeOf(w, s) == Recorded
  {
    var id := w.payments[s.payment];
    var o := w.orders[id];
    var rows := Upserted(w.refunds, Refund(s.refund, id, s.amountCents, s.status));
    var total := RefundedTotal(rows, id);
    w.(refunds := rows, orders := w.orders[id := o.(refundedCents := total, status := StatusFor(total, o.totalCents))])
  }

  // ----- the machine -----

  datatype CapacityOutcome = CapacityUpdated | Unchanged | NotFound | CapacityBelowRedeemed | BatchCapacityReduction

  function CapacityOutcomeOf(a: Access, id: nat, quantity: nat): CapacityOutcome {
    if id !in a.grants then NotFound
    else var g := a.grants[id];
      if quantity < g.redeemed then CapacityBelowRedeemed
      else if g.mode.SingleUseCodes? && quantity < g.quantity then BatchCapacityReduction
      else if quantity == g.quantity then Unchanged
      else CapacityUpdated
  }

  predicate ResizeSupplied(a: Access, id: nat, quantity: nat, codes: seq<nat>)
    requires id in a.grants
  {
    FreshCodes(a, codes, if a.grants[id].mode.SingleUseCodes? && quantity > a.grants[id].quantity
                         then quantity - a.grants[id].quantity else 0)
  }

  /** A step that is refused, or that does not happen, leaves the world as it is. */
  function Next(w: World, s: Step): World {
    match s
    case Advance(ticks) => w.(now := w.now + ticks)
    case PlaceOrder(order, kind, mode, course, quantity, totalCents) =>
      if order in w.orders then w
      else w.(orders := w.orders[order := Order(kind, mode, course, quantity, totalCents, Pending, None, 0, None)])
    case FailCheckout(order) =>
      if order in w.orders && w.orders[order].status.Pending?
      then w.(orders := w.orders[order := w.orders[order].(status := Failed)]) else w
    case Fulfil(order, _, _, _, _, _) =>
      if FulfilOutcomeOf(w, s) == Fulfilled && Supplied(w, s) then Fulfilling(w, s) else w
    case CreateGrant(id, mode, course, quantity, expires, codes) =>
      if id in w.access.grants || !FreshCodes(w.access, codes, CodeCount(mode, quantity)) then w
      else var g := Grant(course, mode, quantity, 0, expires, false, false, FirstCodes(mode, codes));
           w.(access := NewGrant(w.access, id, g, codes), audit := w.audit + [Change(id, None, quantity)])
    case EditCapacity(id, quantity, codes) =>
      if CapacityOutcomeOf(w.access, id, quantity) == CapacityUpdated && ResizeSupplied(w.access, id, quantity, codes)
      then w.(access := Resized(w.access, id, quantity, codes),
              audit := w.audit + [Change(id, None, quantity - w.access.grants[id].quantity)])
      else w
    case Revoke(id) =>
      if id in w.access.grants
      then w.(access := Revoked(w.access, id)) else w
    case Redeem(code, user) =>
      if RedeemOutcomeOf(w.access, code, user, w.now) == Enrolled
      then w.(access := Redeemed(w.access, code, user)) else w
    case RecordRefund(_, _, _, _) => if RefundOutcomeOf(w, s) == Recorded then Refunding(w, s) else w
  }

  function Run(w: World, steps: seq<Step>): World
    decreases |steps|
  {
    if steps == [] then w else Run(Next(w, steps[0]), steps[1..])
  }

  predicate Empty(w: World) {
    w.orders == map[] && w.payments == map[] && w.refunds == [] && w.audit == []
    && w.access.grants == map[] && w.access.issued == map[] && w.access.redemptions == {}
  }

  // ----- codes and redemptions -----

  function RedeemedOn(rs: set<Redemption>, id: nat): set<Redemption> {
    set r | r in rs && r.grant == id
  }

  ghost predicate GrantInv(a: Access, id: nat)
    requires id in a.grants
  {
    var g := a.grants[id];
    && g.redeemed <= g.quantity
    && g.redeemed == |RedeemedOn(a.redemptions, id)|
    && CodesOk(g)
    && Owns(a.issued, id, g.codes)
  }

  /** The rows of a batch carry exactly the ordinals 1 to its quantity, in order. */
  ghost predicate CodesOk(g: Grant) {
    if g.mode.SingleUseCodes?
    then |g.codes| == g.quantity && forall i :: 0 <= i < |g.codes| ==> g.codes[i].ordinal == Some(i + 1)
    else |g.codes| == 1 && g.codes[0].ordinal == None
  }

  ghost predicate Owns(issued: map<nat, Place>, id: nat, codes: seq<Code>) {
    && (forall i :: 0 <= i < |codes| ==> Found(issued, codes[i].lookup, Place(id, i)))
    && (forall c :: c in issued && issued[c].grant == id ==> issued[c].row < |codes| && codes[issued[c].row].lookup == c)
  }

  predicate Found(issued: map<nat, Place>, lookup: nat, at: Place) {
    lookup in issued && issued[lookup] == at
  }

  /** Each redemption is an enrolment of its user under its grant, on a code of that
      grant that no other redemption used if the grant's codes are single-use. */
  ghost predicate RedemptionInv(a: Access) {
    && (forall r :: r in a.redemptions ==>
          r.grant in a.grants && (r.user, a.grants[r.grant].course) in a.enrolled
          && (a.grants[r.grant].mode.SingleUseCodes? <==> r.code.Some?)
          && (r.code.Some? ==> r.code.value in a.issued && a.issued[r.code.value].grant == r.grant))
    && (forall r, s :: r in a.redemptions && s in a.redemptions && r.code.Some? && r.code == s.code ==> r == s)
  }

  ghost predicate Inv(a: Access) {
    && (forall id :: id in a.grants ==> GrantInv(a, id))
    && (forall c :: c in a.issued ==> a.issued[c].grant in a.grants)
    && RedemptionInv(a)
  }

  lemma {:induction false} IndexedCodes(issued: map<nat, Place>, codes: seq<nat>, grant: nat, row: nat)
    requires forall i, j :: 0 <= i < j < |codes| ==> codes[i] != codes[j]
    ensures var m := Indexed(issued, codes, grant, row);
      && (forall i :: 0 <= i < |codes| ==> codes[i] in m && m[codes[i]] == Place(grant, row + i))
      && (forall c :: c !in codes ==> (c in m <==> c in issued) && (c in issued ==> m[c] == issued[c]))
  {
    if codes != [] {
      var rest := codes[1..];
      assert codes == [codes[0]] + rest;
      IndexedCodes(issued, rest, grant, row + 1);
      forall i | 0 < i < |codes| ensures codes[i] == rest[i - 1] {}
    }
  }

  // ----- every step keeps the grants in order -----

  lemma RowsFound(issued: map<nat, Place>, id: nat, codes: seq<Code>, extra: seq<nat>, added: seq<Code>, i: nat)
    requires Owns(issued, id, codes) && |added| == |extra| && i < |codes + added|
    requires forall k :: 0 <= k < |extra| ==> added[k].lookup == extra[k] && extra[k] !in issued
    requires forall j, k :: 0 <= j < k < |extra| ==> extra[j] != extra[k]
    ensures Found(Indexed(issued, extra, id, |codes|), (codes + added)[i].lookup, Place(id, i))
  {
    IndexedCodes(issued, extra, id, |codes|);
    if i < |codes| {
      assert Found(issued, codes[i].lookup, Place(id, i));
    } else {
      assert (codes + added)[i] == added[i - |codes|];
    }
  }

  lemma PlacesFound(issued: map<nat, Place>, id: nat, codes: seq<Code>, extra: seq<nat>, added: seq<Code>, c: nat)
    requires Owns(issued, id, codes) && |added| == |extra|
    requires forall k :: 0 <= k < |extra| ==> added[k].lookup == extra[k] && extra[k] !in issued
    requires forall j, k :: 0 <= j < k < |extra| ==> extra[j] != extra[k]
    requires var m := Indexed(issued, extra, id, |codes|); c in m && m[c].grant == id
    ensures var row := Indexed(issued, extra, id, |codes|)[c].row;
      row < |codes + added| && (codes + added)[row].lookup == c
  {
    IndexedCodes(issued, extra, id, |codes|);
    if c in extra { var k :| 0 <= k < |extra| && extra[k] == c; } else { assert c in issued; }
  }

  lemma OwnsMore(issued: map<nat, Place>, id: nat, codes: seq<Code>, extra: seq<nat>, added: seq<Code>)
    requires Owns(issued, id, codes) && |added| == |extra|
    requires forall k :: 0 <= k < |extra| ==> added[k].lookup == extra[k] && extra[k] !in issued
    requires forall j, k :: 0 <= j < k < |extra| ==> extra[j] != extra[k]
    ensures Owns(Indexed(issued, extra, id, |codes|), id, codes + added)
  {
    var m := Indexed(issued, extra, id, |codes|);
    forall i | 0 <= i < |codes + added| ensures Found(m, (codes + added)[i].lookup, Place(id, i)) {
      RowsFound(issued, id, codes, extra, added, i);
    }
    forall c | c in m && m[c].grant == id ensures m[c].row < |codes + added| && (codes + added)[m[c].row].lookup == c {
      PlacesFound(issued, id, codes, extra, added, c);
    }
  }

  lemma OthersOwn(issued: map<nat, Place>, id: nat, extra: seq<nat>, row: nat, other: nat, codes: seq<Code>)
    requires Owns(issued, other, codes) && other != id
    requires forall i :: 0 <= i < |extra| ==> extra[i] !in issued
    requires forall i, j :: 0 <= i < j < |extra| ==> extra[i] != extra[j]
    ensures Owns(Indexed(issued, extra, id, row), other, codes)
  {
    IndexedCodes(issued, extra, id, row);
  }

  /** Issuing codes to one grant disturbs nothing else. */
  lemma IssuingKeeps(a: Access, a': Access, id: nat, extra: seq<nat>, row: nat)
    requires Inv(a) && FreshCodes(a, extra, |extra|)
    requires a'.issued == Indexed(a.issued, extra, id, row) && id in a'.grants && GrantInv(a', id)
    requires a'.redemptions == a.redemptions && a'.enrolled == a.enrolled
    requires forall g :: g != id ==> (g in a'.grants <==> g in a.grants) && (g in a.grants ==> a'.grants[g] == a.grants[g])
    requires id in a.grants ==> a'.grants[id].mode == a.grants[id].mode && a'.grants[id].course == a.grants[id].course
    ensures Inv(a')
  {
    IndexedCodes(a.issued, extra, id, row);
    forall g | g in a'.grants ensures GrantInv(a', g) {
      if g != id {
        assert GrantInv(a, g);
        OthersOwn(a.issued, id, extra, row, g, a.grants[g].codes);
      }
    }
    forall c | c in a'.issued ensures a'.issued[c].grant in a'.grants {
      if c in extra { var i :| 0 <= i < |extra| && extra[i] == c; } else { assert c in a.issued; }
    }
    IssuingKeepsRedemptions(a, a', id, extra, row);
  }

  lemma IssuingKeepsRedemptions(a: Access, a': Access, id: nat, extra: seq<nat>, row: nat)
    requires RedemptionInv(a) && FreshCodes(a, extra, |extra|)
    requires a'.issued == Indexed(a.issued, extra, id, row)
    requires a'.redemptions == a.redemptions && a'.enrolled == a.enrolled
    requires forall g :: g in a.grants ==> g in a'.grants && a'.grants[g].mode == a.grants[g].mode
                                                          && a'.grants[g].course == a.grants[g].course
    ensures RedemptionInv(a')
  {
    IndexedCodes(a.issued, extra, id, row);
  }

  lemma FirstCodesOk(g: Grant, codes: seq<nat>)
    requires |codes| == CodeCount(g.mode, g.quantity) && g.codes == FirstCodes(g.mode, codes)
    ensures CodesOk(g) && |g.codes| == |codes| && forall i :: 0 <= i < |codes| ==> g.codes[i].lookup == codes[i]
  {
  }

  lemma NewGrantOk(a: Access, id: nat, g: Grant, codes: seq<nat>)
    requires Inv(a) && id !in a.grants && FreshCodes(a, codes, CodeCount(g.mode, g.quantity))
    requires g.redeemed == 0 && g.codes == FirstCodes(g.mode, codes)
    ensures GrantInv(NewGrant(a, id, g, codes), id)
  {
    FirstCodesOk(g, codes);
    assert RedeemedOn(a.redemptions, id) == {};
    OwnsMore(a.issued, id, [], codes, g.codes);
    assert [] + g.codes == g.codes;
  }

  lemma NewGrantKeeps(a: Access, id: nat, g: Grant, codes: seq<nat>)
    requires Inv(a) && id !in a.grants && FreshCodes(a, codes, CodeCount(g.mode, g.quantity))
    requires g.redeemed == 0 && g.codes == FirstCodes(g.mode, codes)
    ensures Inv(NewGrant(a, id, g, codes))
  {
    NewGrantOk(a, id, g, codes);
    IssuingKeeps(a, NewGrant(a, id, g, codes), id, codes, 0);
  }

  /** What a change of quantity requires of its caller. */
  predicate Resizable(a: Access, id: nat, quantity: nat, codes: seq<nat>) {
    && id in a.grants && quantity >= a.grants[id].redeemed
    && (a.grants[id].mode.SingleUseCodes? ==>
          quantity >= a.grants[id].quantity && FreshCodes(a, codes, quantity - a.grants[id].quantity))
  }

  lemma ResizedOk(a: Access, id: nat, quantity: nat, codes: seq<nat>)
    requires Resizable(a, id, quantity, codes) && GrantInv(a, id)
    ensures GrantInv(Resized(a, id, quantity, codes), id)
  {
    var g := a.grants[id];
    var added := AddedCodes(g, codes);
    OwnsMore(a.issued, id, g.codes, added, Numbered(added, g.quantity + 1));
  }

  lemma ResizedKeeps(a: Access, id: nat, quantity: nat, codes: seq<nat>)
    requires Inv(a) && Resizable(a, id, quantity, codes)
    ensures Inv(Resized(a, id, quantity, codes))
  {
    ResizedOk(a, id, quantity, codes);
    IssuingKeeps(a, Resized(a, id, quantity, codes), id, AddedCodes(a.grants[id], codes), |a.grants[id].codes|);
  }

  lemma RedeemKeepsCounts(a: Access, code: nat, user: nat, id: nat)
    requires code in a.issued && a.issued[code].grant in a.grants && id in a.grants && GrantInv(a, id)
    requires var g := a.grants[a.issued[code].grant]; g.redeemed < g.quantity
    requires forall c :: Redemption(a.issued[code].grant, user, c) !in a.redemptions
    ensures GrantInv(Redeemed(a, code, user), id)
  {
    var a' := Redeemed(a, code, user);
    var g := a.issued[code].grant;
    var r := Redemption(g, user, if a.grants[g].mode.SingleUseCodes? then Some(code) else None);
    assert RedeemedOn(a'.redemptions, id) == RedeemedOn(a.redemptions, id) + if g == id then {r} else {};
  }

  lemma RedeemKeepsRedemptions(a: Access, code: nat, user: nat, now: nat)
    requires RedemptionInv(a) && RedeemOutcomeOf(a, code, user, now) == Enrolled
    ensures RedemptionInv(Redeemed(a, code, user))
  {
  }

  lemma RedeemKeeps(a: Access, code: nat, user: nat, now: nat)
    requires Inv(a) && RedeemOutcomeOf(a, code, user, now) == Enrolled
    ensures Inv(Redeemed(a, code, user))
  {
    forall id | id in a.grants ensures GrantInv(Redeemed(a, code, user), id) {
      assert GrantInv(a, id);
      RedeemKeepsCounts(a, code, user, id);
    }
    RedeemKeepsRedemptions(a, code, user, now);
  }

  lemma ExtensionResizes(w: World, s: Step)
    requires Inv(w.access) && s.Fulfil? && FulfilOutcomeOf(w, s) == Fulfilled && Supplied(w, s)
    requires w.orders[s.order].kind.CapacityExtension?
    ensures var o := w.orders[s.order];
      Resizable(w.access, o.kind.grant, w.access.grants[o.kind.grant].quantity + o.quantity, s.codes)
  {
    assert GrantInv(w.access, w.orders[s.order].kind.grant);
  }

  lemma PurchaseKeeps(w: World, s: Step)
    requires Inv(w.access) && s.Fulfil? && FulfilOutcomeOf(w, s) == Fulfilled && Supplied(w, s)
    requires w.orders[s.order].kind.BulkPurchase?
    ensures Inv(Fulfilling(w, s).access)
  {
    NewGrantKeeps(w.access, s.grant, Bought(w.orders[s.order], s.codes), s.codes);
  }

  lemma ExtensionAccess(w: World, s: Step)
    requires s.Fulfil? && FulfilOutcomeOf(w, s) == Fulfilled && Supplied(w, s)
    requires w.orders[s.order].kind.CapacityExtension?
    ensures var o := w.orders[s.order];
      Fulfilling(w, s).access == Resized(w.access, o.kind.grant, w.access.grants[o.kind.grant].quantity + o.quantity, s.codes)
  {
  }

  lemma ExtensionKeeps(w: World, s: Step)
    requires Inv(w.access) && s.Fulfil? && FulfilOutcomeOf(w, s) == Fulfilled && Supplied(w, s)
    requires w.orders[s.order].kind.CapacityExtension?
    ensures Inv(Fulfilling(w, s).access)
  {
    var o := w.orders[s.order];
    ExtensionResizes(w, s);
    ExtensionAccess(w, s);
    ResizedKeeps(w.access, o.kind.grant, w.access.grants[o.kind.grant].quantity + o.quantity, s.codes);
  }

  function Revoked(a: Access, id: nat): Access
    requires id in a.grants
  {
    a.(grants := a.grants[id := a.grants[id].(revoked := true)])
  }

  lemma RevokeKeeps(a: Access, id: nat)
    requires Inv(a) && id in a.grants
    ensures Inv(Revoked(a, id))
  {
    forall g | g in Revoked(a, id).grants ensures GrantInv(Revoked(a, id), g) {}
    RevokeKeepsRedemptions(a, id);
  }

  lemma RevokeKeepsRedemptions(a: Access, id: nat)
    requires RedemptionInv(a) && id in a.grants
    ensures RedemptionInv(Revoked(a, id))
  {
  }

  lemma NextKeeps(w: World, s: Step)
    requires Inv(w.access)
    ensures Inv(Next(w, s).access)
  {
    match s
    case Fulfil(_, _, _, _, _, _) =>
      if FulfilOutcomeOf(w, s) == Fulfilled && Supplied(w, s) {
        if w.orders[s.order].kind.BulkPurchase? { PurchaseKeeps(w, s); } else { ExtensionKeeps(w, s); }
      }
    case CreateGrant(id, mode, course, quantity, expires, codes) =>
      if id !in w.access.grants && FreshCodes(w.access, codes, CodeCount(mode, quantity)) {
        NewGrantKeeps(w.access, id, Grant(course, mode, quantity, 0, expires, false, false, FirstCodes(mode, codes)), codes);
      }
    case EditCapacity(id, quantity, codes) =>
      if CapacityOutcomeOf(w.access, id, quantity) == CapacityUpdated && ResizeSupplied(w.access, id, quantity, codes) {
        ResizedKeeps(w.access, id, quantity, codes);
      }
    case Redeem(code, user) =>
      if RedeemOutcomeOf(w.access, code, user, w.now) == Enrolled { RedeemKeeps(w.access, code, user, w.now); }
    case Revoke(id) => if id in w.access.grants { RevokeKeeps(w.access, id); }
    case _ =>
  }

  lemma {:induction false} RunKeeps(w: World, steps: seq<Step>)
    requires Inv(w.access)
    ensures Inv(Run(w, steps).access)
    decreases |steps|
  {
    if steps != [] {
      NextKeeps(w, steps[0]);
      RunKeeps(Next(w, steps[0]), steps[1..]);
    }
  }

  /** In every run: no grant is redeemed beyond its quantity; what it counts as redeemed is
      the number of its redemptions; a batch has exactly the codes 1 to its quantity; and no
      single-use code is redeemed twice. */
  lemma NoGrantIsOverRedeemed(w: World, steps: seq<Step>, id: nat)
    requires Empty(w) && id in Run(w, steps).access.grants
    ensures var end := Run(w, steps).access; var g := end.grants[id];
      && g.redeemed == |RedeemedOn(end.redemptions, id)| <= g.quantity
      && (g.mode.SingleUseCodes? ==>
            |g.codes| == g.quantity && forall i :: 0 <= i < g.quantity ==> g.codes[i].ordinal == Some(i + 1))
      && (forall r, s :: r in end.redemptions && s in end.redemptions && r.code.Some? && r.code == s.code ==> r == s)
  {
    RunKeeps(w, steps);
    assert GrantInv(Run(w, steps).access, id);
  }

  // ----- each paid order adds its quantity once -----

  function GrantTotal(audit: seq<Change>, id: nat): int {
    if audit == [] then 0
    else var last := audit[|audit| - 1];
         GrantTotal(audit[..|audit| - 1], id) + if last.grant == id then last.delta else 0
  }

  function OrderCount(audit: seq<Change>, order: nat): nat {
    if audit == [] then 0
    else OrderCount(audit[..|audit| - 1], order) + if audit[|audit| - 1].order == Some(order) then 1 else 0
  }

  function OrderTotal(audit: seq<Change>, order: nat): int {
    if audit == [] then 0
    else var last := audit[|audit| - 1];
         OrderTotal(audit[..|audit| - 1], order) + if last.order == Some(order) then last.delta else 0
  }

  function Quantity(a: Access, id: nat): nat {
    if id in a.grants then a.grants[id].quantity else 0
  }

  predicate Honoured(w: World, order: nat) {
    order in w.orders && Settled(w.orders[order].status)
  }

  /** The grant an order buys or extends, once it has been paid for. */
  function GrantOf(o: Order): Option<nat> {
    if o.kind.BulkPurchase? then o.created else Some(o.kind.grant)
  }

  /** A change that an order paid for is of that order's own grant. */
  predicate LandsOnOwnGrant(w: World, c: Change) {
    c.order.Some? ==> Honoured(w, c.order.value) && GrantOf(w.orders[c.order.value]) == Some(c.grant)
  }

  ghost predicate OwnGrants(w: World) {
    && (forall i :: 0 <= i < |w.audit| ==> LandsOnOwnGrant(w, w.audit[i]))
    && (forall o :: o in w.orders && !Honoured(w, o) ==> w.orders[o].created.None?)
  }

  /** A grant's quantity is the sum of the audited changes, and an order is among their
      causes exactly once, for its own quantity, when it has been paid. */
  ghost predicate AuditInv(w: World) {
    && (forall id: nat :: Quantity(w.access, id) == GrantTotal(w.audit, id))
    && (forall p :: p in w.payments ==> Honoured(w, w.payments[p]))
    && (forall o: nat :: OrderCount(w.audit, o) == if Honoured(w, o) then 1 else 0)
    && (forall o: nat :: OrderTotal(w.audit, o) == if Honoured(w, o) then w.orders[o].quantity else 0)
  }

  lemma Audited(audit: seq<Change>, c: Change)
    ensures forall id: nat :: GrantTotal(audit + [c], id) == GrantTotal(audit, id) + (if c.grant == id then c.delta else 0)
    ensures forall o: nat :: OrderCount(audit + [c], o) == OrderCount(audit, o) + (if c.order == Some(o) then 1 else 0)
    ensures forall o: nat :: OrderTotal(audit + [c], o) == OrderTotal(audit, o) + (if c.order == Some(o) then c.delta else 0)
  {
    assert (audit + [c])[..|audit|] == audit;
  }

  lemma FulfilKeepsAudit(w: World, s: Step)
    requires AuditInv(w) && s.Fulfil? && FulfilOutcomeOf(w, s) == Fulfilled && Supplied(w, s)
    ensures AuditInv(Fulfilling(w, s))
  {
    var o := w.orders[s.order];
    Audited(w.audit, Change(Target(o, s.grant), Some(s.order), o.quantity));
  }

  lemma StaffChangeKeepsAudit(w: World, s: Step)
    requires AuditInv(w) && (s.CreateGrant? || s.EditCapacity?)
    ensures AuditInv(Next(w, s))
  {
    var w' := Next(w, s);
    if w' != w {
      Audited(w.audit, w'.audit[|w.audit|]);
      assert forall o :: Honoured(w', o) == Honoured(w, o);
    }
  }

  lemma OtherKeepsAudit(w: World, s: Step)
    requires AuditInv(w) && !s.Fulfil? && !s.CreateGrant? && !s.EditCapacity?
    ensures AuditInv(Next(w, s))
  {
  }

  lemma NextKeepsAudit(w: World, s: Step)
    requires AuditInv(w)
    ensures AuditInv(Next(w, s))
  {
    if s.Fulfil? {
      if FulfilOutcomeOf(w, s) == Fulfilled && Supplied(w, s) { FulfilKeepsAudit(w, s); }
    } else if s.CreateGrant? || s.EditCapacity? {
      StaffChangeKeepsAudit(w, s);
    } else {
      OtherKeepsAudit(w, s);
    }
  }

  lemma {:induction false} RunKeepsAudit(w: World, steps: seq<Step>)
    requires AuditInv(w)
    ensures AuditInv(Run(w, steps))
    decreases |steps|
  {
    if steps != [] {
      NextKeepsAudit(w, steps[0]);
      RunKeepsAudit(Next(w, steps[0]), steps[1..]);
    }
  }

  lemma FulfilKeepsOwnGrants(w: World, s: Step)
    requires OwnGrants(w) && s.Fulfil? && FulfilOutcomeOf(w, s) == Fulfilled && Supplied(w, s)
    ensures OwnGrants(Fulfilling(w, s))
  {
    var w', o := Fulfilling(w, s), w.orders[s.order];
    forall i | 0 <= i < |w'.audit| ensures LandsOnOwnGrant(w', w'.audit[i]) {
      if i < |w.audit| { assert LandsOnOwnGrant(w, w.audit[i]); }
    }
  }

  lemma NextKeepsOwnGrants(w: World, s: Step)
    requires OwnGrants(w)
    ensures OwnGrants(Next(w, s))
  {
    if s.Fulfil? && FulfilOutcomeOf(w, s) == Fulfilled && Supplied(w, s) {
      FulfilKeepsOwnGrants(w, s);
    } else {
      var w' := Next(w, s);
      HonouredStay(w, s);
      forall i | 0 <= i < |w'.audit| ensures LandsOnOwnGrant(w', w'.audit[i]) {
        if i < |w.audit| { assert w'.audit[..|w.audit|][i] == w.audit[i] && LandsOnOwnGrant(w, w.audit[i]); }
      }
    }
  }

  /** What a step leaves of an honoured order: all but its refunds. */
  lemma HonouredStay(w: World, s: Step)
    ensures forall o :: Honoured(w, o) ==>
      Honoured(Next(w, s), o)
      && Next(w, s).orders[o] == w.orders[o].(refundedCents := Next(w, s).orders[o].refundedCents,
                                               status := Next(w, s).orders[o].status)
  {
  }

  lemma {:induction false} RunKeepsOwnGrants(w: World, steps: seq<Step>)
    requires OwnGrants(w)
    ensures OwnGrants(Run(w, steps))
    decreases |steps|
  {
    if steps != [] {
      NextKeepsOwnGrants(w, steps[0]);
      RunKeepsOwnGrants(Next(w, steps[0]), steps[1..]);
    }
  }

  /** In every run, with payments replayed at will, a grant's quantity is the sum of the
      changes audited for it; an order causes exactly one of them, for its own quantity and
      on its own grant, once it has been paid, and none before. */
  lemma PaidOrdersAddTheirQuantityOnce(w: World, steps: seq<Step>, id: nat, order: nat)
    requires Empty(w) && id in Run(w, steps).access.grants
    ensures var end := Run(w, steps);
      && end.access.grants[id].quantity == GrantTotal(end.audit, id)
      && OrderCount(end.audit, order) == (if Honoured(end, order) then 1 else 0)
      && OrderTotal(end.audit, order) == (if Honoured(end, order) then end.orders[order].quantity else 0)
      && (forall i :: 0 <= i < |end.audit| && end.audit[i].order == Some(order)
            ==> order in end.orders && GrantOf(end.orders[order]) == Some(end.audit[i].grant))
  {
    RunKeepsAudit(w, steps);
    RunKeepsOwnGrants(w, steps);
    var end := Run(w, steps);
    assert forall i :: 0 <= i < |end.audit| ==> LandsOnOwnGrant(end, end.audit[i]);
  }

  /** Once honoured an order stays so in every run, and no later payment for it changes
      anything; its own session is answered as already fulfilled. */
  lemma {:induction false} HonouredOnce(w: World, steps: seq<Step>, replay: Step)
    requires replay.Fulfil? && Honoured(w, replay.order)
    ensures var end, o := Run(w, steps), w.orders[replay.order];
      && Honoured(end, replay.order) && Next(end, replay) == end
      && ((o.session == Some(replay.session) && replay.amountCents == o.totalCents)
            ==> FulfilOutcomeOf(end, replay) == AlreadyFulfilled)
    decreases |steps|
  {
    if steps != [] {
      HonouredStay(w, steps[0]);
      HonouredOnce(Next(w, steps[0]), steps[1..], replay);
    }
  }

  // ----- what payments and staff do -----

  /** The index gains the new codes, at consecutive rows of the grant, and loses none. */
  ghost predicate IndexGains(before: map<nat, Place>, after: map<nat, Place>, id: nat, codes: seq<nat>, row: nat) {
    && (forall i :: 0 <= i < |codes| ==> codes[i] in after && after[codes[i]] == Place(id, row + i))
    && (forall c :: c !in codes ==> (c in after <==> c in before) && (c in before ==> after[c] == before[c]))
  }

  predicate RowsOf(rows: seq<Code>, codes: seq<nat>, first: nat) {
    |rows| == |codes| && forall i :: 0 <= i < |codes| ==> rows[i] == Code(codes[i], Some(first + i))
  }

  /** The payment is for the order: its session, if one has been recorded, and its amount. */
  predicate PaysFor(o: Order, s: Step)
    requires s.Fulfil?
  {
    (o.session == None || o.session == Some(s.session)) && o.totalCents == s.amountCents
  }

  /** A purchase not linked to a grant, or the extension of a purchased grant like it. */
  predicate CanBeHonoured(w: World, o: Order) {
    match o.kind
    case BulkPurchase => o.created == None
    case CapacityExtension(id) =>
      id in w.access.grants && w.access.grants[id].purchased
      && w.access.grants[id].course == o.course && w.access.grants[id].mode == o.mode
  }

  /** Each answer to a paid session by its own condition. */
  lemma FulfilOutcomesAreExact(w: World, s: Step)
    requires s.Fulfil?
    ensures s.order !in w.orders ==> FulfilOutcomeOf(w, s) == Refused
    ensures s.order in w.orders ==>
      var o, outcome := w.orders[s.order], FulfilOutcomeOf(w, s);
      && (outcome == AlreadyFulfilled <==> PaysFor(o, s) && o.status in {Paid, PartiallyRefunded, Refunded})
      && (outcome == Ignored <==> PaysFor(o, s) && o.status == Failed)
      && (outcome == Fulfilled
          <==> PaysFor(o, s) && o.status == Pending && o.quantity > 0 && CanBeHonoured(w, o) && s.payment !in w.payments)
  {
  }

  /** What a fulfilment leaves: the order paid under its session and payment, one audited change
      of the order's quantity, and no other grant, enrolment or redemption moved. */
  lemma FulfilmentIsExact(w: World, s: Step)
    requires s.Fulfil? && FulfilOutcomeOf(w, s) == Fulfilled && Supplied(w, s)
    ensures var o, w' := w.orders[s.order], Next(w, s);
      var id := if o.kind.BulkPurchase? then s.grant else o.kind.grant;
      && w' == w.(orders := w'.orders, payments := w'.payments, access := w'.access, audit := w'.audit)
      && w'.orders == w.orders[s.order := o.(status := Paid, session := Some(s.session),
                                             created := if o.kind.BulkPurchase? then Some(s.grant) else o.created)]
      && w'.payments == w.payments[s.payment := s.order]
      && w'.audit == w.audit + [Change(id, Some(s.order), o.quantity)]
      && w'.access.enrolled == w.access.enrolled && w'.access.redemptions == w.access.redemptions
      && id in w'.access.grants && w'.access.grants == w.access.grants[id := w'.access.grants[id]]
  {
  }

  /** A purchase makes a grant of its own quantity, with a shared code, or single-use ones
      numbered from one. */
  lemma PurchaseIsExact(w: World, s: Step)
    requires s.Fulfil? && FulfilOutcomeOf(w, s) == Fulfilled && Supplied(w, s) && w.orders[s.order].kind.BulkPurchase?
    ensures var o, a, a' := w.orders[s.order], w.access, Next(w, s).access;
      && s.grant in a'.grants
      && var g := a'.grants[s.grant];
         && g == Grant(o.course, o.mode, o.quantity, 0, None, false, true, g.codes)
         && (if o.mode == SharedCode then g.codes == [Code(s.codes[0], None)] else RowsOf(g.codes, s.codes, 1))
         && IndexGains(a.issued, a'.issued, s.grant, s.codes, 0)
  {
    IndexedCodes(w.access.issued, s.codes, s.grant, 0);
  }

  /** An extension adds its quantity to the grant, and to a batch as many codes numbered on from
      the last. */
  lemma ExtensionIsExact(w: World, s: Step)
    requires s.Fulfil? && FulfilOutcomeOf(w, s) == Fulfilled && Supplied(w, s) && w.orders[s.order].kind.CapacityExtension?
    ensures var o, a, a' := w.orders[s.order], w.access, Next(w, s).access;
      var g := a.grants[o.kind.grant];
      && o.kind.grant in a'.grants
      && var g' := a'.grants[o.kind.grant];
         && g' == g.(quantity := g.quantity + o.quantity, codes := g'.codes)
         && (o.mode == SharedCode ==> g'.codes == g.codes && a'.issued == a.issued)
         && (o.mode == SingleUseCodes ==>
               g.codes <= g'.codes && RowsOf(g'.codes[|g.codes|..], s.codes, g.quantity + 1)
               && IndexGains(a.issued, a'.issued, o.kind.grant, s.codes, |g.codes|))
  {
    var o := w.orders[s.order];
    ExtensionAccess(w, s);
    ResizeIsExact(w.access, o.kind.grant, w.access.grants[o.kind.grant].quantity + o.quantity, s.codes);
  }

  lemma ResizeIsExact(a: Access, id: nat, quantity: nat, codes: seq<nat>)
    requires id in a.grants
    requires forall i, j :: 0 <= i < j < |codes| ==> codes[i] != codes[j]
    ensures var g, a' := a.grants[id], Resized(a, id, quantity, codes);
      && id in a'.grants && a'.grants == a.grants[id := g.(quantity := quantity, codes := a'.grants[id].codes)]
      && a'.enrolled == a.enrolled && a'.redemptions == a.redemptions
      && (g.mode == SharedCode ==> a'.grants[id].codes == g.codes && a'.issued == a.issued)
      && (g.mode == SingleUseCodes ==>
            g.codes <= a'.grants[id].codes && RowsOf(a'.grants[id].codes[|g.codes|..], codes, g.quantity + 1)
            && IndexGains(a.issued, a'.issued, id, codes, |g.codes|))
  {
    IndexedCodes(a.issued, codes, id, |a.grants[id].codes|);
    var g, a' := a.grants[id], Resized(a, id, quantity, codes);
    if g.mode.SharedCode? {
      assert a'.grants[id].codes == g.codes;
    } else {
      assert a'.grants[id].codes[|g.codes|..] == Numbered(codes, g.quantity + 1);
    }
  }

  /** An edit of a grant's capacity: never below what is redeemed, nor reducing a batch. */
  lemma CapacityEditIsExact(w: World, id: nat, quantity: nat, codes: seq<nat>)
    requires id in w.access.grants && ResizeSupplied(w.access, id, quantity, codes)
    ensures var g, outcome, w' := w.access.grants[id], CapacityOutcomeOf(w.access, id, quantity), Next(w, EditCapacity(id, quantity, codes));
      && (outcome == CapacityBelowRedeemed <==> quantity < g.redeemed)
      && (outcome == BatchCapacityReduction <==> g.redeemed <= quantity < g.quantity && g.mode == SingleUseCodes)
      && (outcome == Unchanged <==> g.redeemed <= quantity == g.quantity)
      && outcome != NotFound
      && (outcome != CapacityUpdated ==> w' == w)
      && (outcome == CapacityUpdated ==>
            w' == w.(access := Resized(w.access, id, quantity, codes),
                     audit := w.audit + [Change(id, None, quantity as int - g.quantity as int)]))
  {
  }

  lemma UnknownGrantIsNotEdited(w: World, id: nat, quantity: nat, codes: seq<nat>)
    requires id !in w.access.grants
    ensures CapacityOutcomeOf(w.access, id, quantity) == NotFound && Next(w, EditCapacity(id, quantity, codes)) == w
    ensures Next(w, Revoke(id)) == w
  {
  }

  /** A grant given by staff starts unredeemed and not bought; revoking marks it and no more. */
  lemma StaffGrantsAreExact(w: World, id: nat, mode: Mode, course: nat, quantity: nat, expires: Option<nat>, codes: seq<nat>)
    requires FreshCodes(w.access, codes, if mode == SharedCode then 1 else quantity)
    ensures id in w.access.grants ==>
      && Next(w, CreateGrant(id, mode, course, quantity, expires, codes)) == w
      && Next(w, Revoke(id)) == w.(access := w.access.(grants := w.access.grants[id := w.access.grants[id].(revoked := true)]))
    ensures id !in w.access.grants ==>
      var a, w' := w.access, Next(w, CreateGrant(id, mode, course, quantity, expires, codes));
      && id in w'.access.grants
      && var g := w'.access.grants[id];
         && g == Grant(course, mode, quantity, 0, expires, false, false, g.codes)
         && (if mode == SharedCode then g.codes == [Code(codes[0], None)] else RowsOf(g.codes, codes, 1))
         && w' == w.(access := a.(grants := a.grants[id := g], issued := w'.access.issued),
                     audit := w.audit + [Change(id, None, quantity)])
         && IndexGains(a.issued, w'.access.issued, id, codes, 0)
  {
    IndexedCodes(w.access.issued, codes, id, 0);
  }

  lemma OrdersAreExact(w: World, order: nat, kind: OrderKind, mode: Mode, course: nat, quantity: nat, totalCents: nat)
    ensures Next(w, PlaceOrder(order, kind, mode, course, quantity, totalCents))
      == (if order in w.orders then w
          else w.(orders := w.orders[order := Order(kind, mode, course, quantity, totalCents, Pending, None, 0, None)]))
    ensures Next(w, FailCheckout(order))
      == (if order in w.orders && w.orders[order].status == Pending
          then w.(orders := w.orders[order := w.orders[order].(status := Failed)]) else w)
  {
  }

  // ----- what a code is good for -----

  /** The grant a code was issued for. */
  predicate IssuedFor(a: Access, code: nat, id: nat) {
    code in a.issued && a.issued[code].grant == id && id in a.grants
  }

  /** Not revoked, and not past its expiry. */
  predicate Live(w: World, id: nat)
    requires id in w.access.grants
  {
    var g := w.access.grants[id];
    !g.revoked && (g.expires.Some? ==> w.now < g.expires.value)
  }

  /** A redemption takes effect exactly for an issued code, unused if it is for one use, of a
      live grant with a place left, and a user not enrolled in its course; and then it enrols
      the user and counts one redemption of that grant, of the code if it is for one use. */
  lemma RedemptionIsExact(w: World, code: nat, user: nat, id: nat)
    requires IssuedFor(w.access, code, id)
    ensures var a, g, w' := w.access, w.access.grants[id], Next(w, Redeem(code, user));
      var unused := g.mode.SingleUseCodes? ==> forall r :: r in a.redemptions ==> r.code != Some(code);
      && (w' != w <==> unused && Live(w, id) && (user, g.course) !in a.enrolled && g.redeemed < g.quantity)
      && (w' != w ==>
            w'.access == Access(a.grants[id := g.(redeemed := g.redeemed + 1)], a.issued, a.enrolled + {(user, g.course)},
                                a.redemptions + {Redemption(id, user, if g.mode.SharedCode? then None else Some(code))}))
      && w' == w.(access := w'.access)
  {
    var w' := Next(w, Redeem(code, user));
    if w'.access != w.access {
      assert (user, w.access.grants[id].course) in w'.access.enrolled;
    }
  }

  lemma UnknownCodeIsNothing(w: World, code: nat, user: nat)
    requires forall id :: !IssuedFor(w.access, code, id)
    ensures Next(w, Redeem(code, user)) == w
  {
    if code in w.access.issued { assert !IssuedFor(w.access, code, w.access.issued[code].grant); }
  }

  /** A code in use is answered by the first of what forbids it. */
  lemma RedeemOutcomesAreExact(w: World, code: nat, user: nat)
    ensures var a, outcome := w.access, RedeemOutcomeOf(w.access, code, user, w.now);
      && (outcome == Enrolled <==> Next(w, Redeem(code, user)) != w)
      && (outcome == AlreadyEnrolled
          <==> exists id :: IssuedFor(a, code, id) && Live(w, id) && (user, a.grants[id].course) in a.enrolled
                            && (a.grants[id].mode.SingleUseCodes? ==> forall r :: r in a.redemptions ==> r.code != Some(code)))
  {
    if code in w.access.issued && w.access.issued[code].grant in w.access.grants {
      assert IssuedFor(w.access, code, w.access.issued[code].grant);
      RedemptionIsExact(w, code, user, w.access.issued[code].grant);
    }
  }

  /** A grant that is revoked or has expired gives nothing more in any run: it stays so, it is
      not counted as redeemed again, and none of its codes changes anything. */
  lemma {:induction false} DeadGrantGivesNothing(w: World, steps: seq<Step>, id: nat)
    requires id in w.access.grants && !Live(w, id)
    ensures var end := Run(w, steps);
      && id in end.access.grants && !Live(end, id)
      && (w.access.grants[id].revoked ==> end.access.grants[id].revoked)
      && end.access.grants[id].redeemed == w.access.grants[id].redeemed
      && RedeemedOn(end.access.redemptions, id) == RedeemedOn(w.access.redemptions, id)
      && (forall code, user :: IssuedFor(end.access, code, id) ==> Next(end, Redeem(code, user)) == end)
    decreases |steps|
  {
    if steps == [] {
      forall code, user | IssuedFor(w.access, code, id) ensures Next(w, Redeem(code, user)) == w {
        RedemptionIsExact(w, code, user, id);
      }
    } else {
      DeadGrantStays(w, steps[0], id);
      DeadGrantGivesNothing(Next(w, steps[0]), steps[1..], id);
    }
  }

  lemma DeadGrantStays(w: World, s: Step, id: nat)
    requires id in w.access.grants && !Live(w, id)
    ensures var w' := Next(w, s);
      && id in w'.access.grants && !Live(w', id)
      && (w.access.grants[id].revoked ==> w'.access.grants[id].revoked)
      && w'.access.grants[id].redeemed == w.access.grants[id].redeemed
      && RedeemedOn(w'.access.redemptions, id) == RedeemedOn(w.access.redemptions, id)
  {
    if s.Redeem? && IssuedFor(w.access, s.code, id) { RedemptionIsExact(w, s.code, s.user, id); }
  }

  // ----- access once given stays -----

  /** A run without checkouts, staff edits and redemptions takes nothing that was given: it
      leaves every quantity, code, redemption and enrolment, whatever is refunded or revoked. */
  lemma {:induction false} RefundsAndRevocationsTakeNothing(w: World, steps: seq<Step>)
    requires forall s :: s in steps ==> s.RecordRefund? || s.Revoke? || s.FailCheckout? || s.PlaceOrder? || s.Advance?
    ensures var a, a' := w.access, Run(w, steps).access;
      && a'.enrolled == a.enrolled && a'.redemptions == a.redemptions && a'.issued == a.issued
      && a'.grants.Keys == a.grants.Keys
      && forall id :: id in a.grants ==> a'.grants[id] == a.grants[id].(revoked := a'.grants[id].revoked)
    decreases |steps|
  {
    if steps != [] {
      RefundOrRevocation(w, steps[0]);
      RefundsAndRevocationsTakeNothing(Next(w, steps[0]), steps[1..]);
    }
  }

  lemma RefundOrRevocation(w: World, s: Step)
    requires s.RecordRefund? || s.Revoke? || s.FailCheckout? || s.PlaceOrder? || s.Advance?
    ensures var a, a' := w.access, Next(w, s).access;
      && a'.enrolled == a.enrolled && a'.redemptions == a.redemptions && a'.issued == a.issued
      && a'.grants.Keys == a.grants.Keys
      && forall id :: id in a.grants ==> a'.grants[id] == a.grants[id].(revoked := a'.grants[id].revoked)
  {
    if s.Revoke? && s.grant in w.access.grants {
      assert w.access.grants.Keys + {s.grant} == w.access.grants.Keys;
    }
  }

  /** No run ends an enrolment or undoes a redemption. */
  lemma {:induction false} EnrolmentsLast(w: World, steps: seq<Step>)
    ensures w.access.enrolled <= Run(w, steps).access.enrolled
    ensures w.access.redemptions <= Run(w, steps).access.redemptions
    decreases |steps|
  {
    if steps != [] {
      assert w.access.enrolled <= Next(w, steps[0]).access.enrolled;
      assert w.access.redemptions <= Next(w, steps[0]).access.redemptions;
      EnrolmentsLast(Next(w, steps[0]), steps[1..]);
    }
  }

  /** A quantity falls only when staff reduce a shared code's, and a batch's never does. */
  lemma QuantityFallsOnlyByStaff(w: World, s: Step, id: nat)
    requires id in w.access.grants && Next(w, s).access.grants[id].quantity < w.access.grants[id].quantity
    ensures s.EditCapacity? && s.grant == id && w.access.grants[id].mode.SharedCode?
    ensures Next(w, s).access.grants[id].quantity == s.quantity >= w.access.grants[id].redeemed
  {
  }

  // ----- refunds add up -----

  /** What a report adds to an order's refunds: it moves the row where that was filed. */
  function Added(rows: seq<Refund>, r: Refund, order: nat): int {
    var filed := FiledRefund(rows, r.id);
    if filed.None? then (if r.order == order then Contribution(r) else 0)
    else if filed.value.order == order then Contribution(r) - Contribution(filed.value) else 0
  }

  lemma {:induction false} UpsertAdds(rows: seq<Refund>, r: Refund, order: nat)
    ensures RefundedTotal(Upserted(rows, r), order) == RefundedTotal(rows, order) + Added(rows, r, order)
  {
    if rows != [] {
      if rows[0].id == r.id {
        assert Upserted(rows, r)[1..] == rows[1..];
      } else {
        UpsertAdds(rows[1..], r, order);
        assert Upserted(rows, r)[1..] == Upserted(rows[1..], r);
      }
    }
  }

  ghost predicate FiledUnder(rows: seq<Refund>, w: World, paymentOf: map<nat, nat>) {
    forall i :: 0 <= i < |rows| ==>
      rows[i].id in paymentOf && paymentOf[rows[i].id] in w.payments && w.payments[paymentOf[rows[i].id]] == rows[i].order
  }

  lemma {:induction false} UpsertFiles(rows: seq<Refund>, r: Refund, w: World, paymentOf: map<nat, nat>)
    requires FiledUnder(rows, w, paymentOf) && FiledUnder([r], w, paymentOf)
    ensures FiledUnder(Upserted(rows, r), w, paymentOf)
    ensures FiledRefund(rows, r.id).Some? ==> FiledRefund(rows, r.id).value.order == r.order
  {
    if rows != [] {
      assert [r][0] == r;
      if rows[0].id != r.id { UpsertFiles(rows[1..], r, w, paymentOf); }
    }
  }

  lemma {:induction false} NothingFiled(rows: seq<Refund>, order: nat)
    requires forall i :: 0 <= i < |rows| ==> rows[i].order != order
    ensures RefundedTotal(rows, order) == 0
  {
    if rows != [] { NothingFiled(rows[1..], order); }
  }

  /** An order's refunded amount is the sum of its succeeded refunds, never more than its
      total, and once it has been paid for that sum determines its status. */
  predicate Accounted(w: World, order: nat)
    requires order in w.orders
  {
    var o := w.orders[order];
    && o.refundedCents == RefundedTotal(w.refunds, order) <= o.totalCents
    && (Settled(o.status) ==> o.status == StatusFor(o.refundedCents, o.totalCents))
  }

  ghost predicate AllAccounted(w: World) {
    forall o :: o in w.orders ==> Accounted(w, o)
  }

  ghost predicate RefundInv(w: World, paymentOf: map<nat, nat>) {
    && AllAccounted(w)
    && FiledUnder(w.refunds, w, paymentOf)
    && (forall p :: p in w.payments ==> Honoured(w, w.payments[p]))
  }

  /** A report that finds its refund filed under another order, and changes what it adds. */
  predicate MovesRefund(w: World, s: Step)
    requires s.RecordRefund? && s.payment in w.payments
  {
    var filed := FiledRefund(w.refunds, s.refund);
    filed.Some? && filed.value.order != w.payments[s.payment]
    && Contribution(filed.value) != Contribution(Refund(s.refund, 0, s.amountCents, s.status))
  }

  lemma {:induction false} FiledRefundIsRow(rows: seq<Refund>, id: nat)
    requires FiledRefund(rows, id).Some?
    ensures exists i :: 0 <= i < |rows| && rows[i] == FiledRefund(rows, id).value
  {
    if rows[0].id != id {
      FiledRefundIsRow(rows[1..], id);
      var i :| 0 <= i < |rows[1..]| && rows[1..][i] == FiledRefund(rows, id).value;
      assert rows[i + 1] == FiledRefund(rows, id).value;
    }
  }

  /** A recorded refund keeps every order accounted for exactly when it does not change a
      refund that was filed under another order; the row it updates keeps its old order, and
      that order's own total is not recomputed. */
  lemma RefundKeepsAccountsIffNotMoved(w: World, s: Step)
    requires AllAccounted(w) && s.RecordRefund? && RefundOutcomeOf(w, s) == Recorded
    requires forall i :: 0 <= i < |w.refunds| ==> w.refunds[i].order in w.orders
    requires Honoured(w, w.payments[s.payment])
    ensures AllAccounted(Next(w, s)) <==> !MovesRefund(w, s)
  {
    var id := w.payments[s.payment];
    var r := Refund(s.refund, id, s.amountCents, s.status);
    var w' := Next(w, s);
    var filed := FiledRefund(w.refunds, s.refund);
    if MovesRefund(w, s) {
      var other := filed.value.order;
      FiledRefundIsRow(w.refunds, s.refund);
      UpsertAdds(w.refunds, r, other);
      assert Accounted(w, other) && !Accounted(w', other);
    } else {
      forall o | o in w'.orders ensures Accounted(w', o) {
        UpsertAdds(w.refunds, r, o);
        assert Accounted(w, o);
      }
    }
  }

  /** The first row of an id. */
  predicate FirstFiled(rows: seq<Refund>, id: nat, at: nat) {
    at < |rows| && rows[at].id == id && forall j :: 0 <= j < at ==> rows[j].id != id
  }

  /** A known refund gets the reported amount and status, in its place and under its order; a new
      one is added. */
  lemma {:induction false} UpsertIsExact(rows: seq<Refund>, r: Refund)
    ensures FiledRefund(rows, r.id).None? <==> forall j :: 0 <= j < |rows| ==> rows[j].id != r.id
    ensures FiledRefund(rows, r.id).None? ==> Upserted(rows, r) == rows + [r]
    ensures FiledRefund(rows, r.id).Some? ==>
      exists at: nat :: FirstFiled(rows, r.id, at) && FiledRefund(rows, r.id) == Some(rows[at])
                        && Upserted(rows, r) == rows[at := Refund(r.id, rows[at].order, r.amountCents, r.status)]
  {
    if rows != [] && rows[0].id == r.id {
      assert FirstFiled(rows, r.id, 0) && rows == [rows[0]] + rows[1..];
    } else if rows != [] {
      var rest := rows[1..];
      assert rows == [rows[0]] + rest;
      UpsertIsExact(rest, r);
      if FiledRefund(rest, r.id).Some? {
        var at: nat :| FirstFiled(rest, r.id, at) && FiledRefund(rest, r.id) == Some(rest[at])
                       && Upserted(rest, r) == rest[at := Refund(r.id, rest[at].order, r.amountCents, r.status)];
        assert FirstFiled(rows, r.id, at + 1);
      } else {
        assert forall j :: 0 < j < |rows| ==> rows[j] == rest[j - 1];
      }
    }
  }

  /** A total counts the succeeded refunds of its order and no others. */
  lemma {:induction false} TotalIsOfSucceeded(rows: seq<Refund>, r: Refund, order: nat)
    ensures RefundedTotal([], order) == 0
    ensures RefundedTotal(rows + [r], order)
      == RefundedTotal(rows, order) + if r.order == order && r.status == Succeeded then r.amountCents else 0
  {
    if rows != [] {
      TotalIsOfSucceeded(rows[1..], r, order);
      assert (rows + [r])[1..] == rows[1..] + [r];
    } else {
      assert [r][1..] == [] && rows + [r] == [r];
    }
  }

  /** Each outcome of a reported refund, and what a recorded one leaves: the refund filed, and the
      amount and status of the order its payment was for. */
  lemma RefundIsExact(w: World, s: Step)
    requires s.RecordRefund?
    ensures var outcome, w' := RefundOutcomeOf(w, s), Next(w, s);
      && (outcome == Unmatched <==> s.payment !in w.payments || w.payments[s.payment] !in w.orders)
      && (outcome != Recorded ==> w' == w)
      && (outcome != Unmatched ==>
            var id := w.payments[s.payment]; var o := w.orders[id];
            var filed, rows := FiledRefund(w.refunds, s.refund), Upserted(w.refunds, Refund(s.refund, id, s.amountCents, s.status));
            var total := RefundedTotal(rows, id);
            var known := filed.Some? && filed.value.amountCents == s.amountCents && filed.value.status == s.status;
            && (outcome == AlreadyRecorded <==> known)
            && (outcome == ExceedsOrder <==> !known && total > o.totalCents)
            && (outcome == Recorded ==>
                  w' == w.(refunds := rows,
                           orders := w.orders[id := o.(refundedCents := total, status := if total == 0 then Paid
                             else if total < o.totalCents then PartiallyRefunded else Refunded)])))
  {
  }

  // ----- a refund reported under two payments -----

  function Purchase(order: nat): Step {
    PlaceOrder(order, BulkPurchase, SharedCode, 0, 1, 100)
  }

  function Payment(order: nat): Step {
    Fulfil(order, order, 100, order, order, [order])
  }

  function PaidOrder(order: nat): Order {
    Order(BulkPurchase, SharedCode, 0, 1, 100, Paid, Some(order), 0, Some(order))
  }

  lemma Purchased(w: World, order: nat)
    requires order !in w.orders && order !in w.payments && order !in w.access.grants && order !in w.access.issued
    ensures var w' := Next(Next(w, Purchase(order)), Payment(order));
      && w'.orders == w.orders[order := PaidOrder(order)] && w'.payments == w.payments[order := order]
      && w'.refunds == w.refunds
      && w'.access.grants.Keys == w.access.grants.Keys + {order} && w'.access.issued.Keys == w.access.issued.Keys + {order}
  {
    var placed := Next(w, Purchase(order));
    assert [order][1..] == [];
    assert Indexed(w.access.issued, [order], order, 0) == w.access.issued[order := Place(order, 0)];
    assert Supplied(placed, Payment(order)) && FulfilOutcomeOf(placed, Payment(order)) == Fulfilled;
  }

  lemma TwoPurchases(w: World)
    requires Empty(w)
    ensures var w' := Run(w, [Purchase(1), Payment(1), Purchase(2), Payment(2)]);
      w'.orders == map[1 := PaidOrder(1), 2 := PaidOrder(2)] && w'.payments == map[1 := 1, 2 := 2] && w'.refunds == []
  {
    Purchased(w, 1);
    var w1 := Next(w, Purchase(1));
    var w2 := Next(w1, Payment(1));
    Purchased(w2, 2);
    var w3 := Next(w2, Purchase(2));
    var steps := [Purchase(1), Payment(1), Purchase(2), Payment(2)];
    assert steps[1..][1..][1..] == [Payment(2)] && steps[1..][1..] == [Purchase(2), Payment(2)];
    assert Run(w3, [Payment(2)]) == Next(w3, Payment(2));
    assert Run(w2, steps[1..][1..]) == Run(w3, [Payment(2)]);
    assert Run(w1, steps[1..]) == Run(w2, steps[1..][1..]);
  }

  function Reported(payment: nat, amountCents: nat): Step {
    RecordRefund(9, payment, amountCents, Succeeded)
  }

  lemma FirstReport(w: World)
    requires w.orders == map[1 := PaidOrder(1), 2 := PaidOrder(2)] && w.payments == map[1 := 1, 2 := 2] && w.refunds == []
    ensures RefundOutcomeOf(w, Reported(1, 50)) == Recorded
    ensures Next(w, Reported(1, 50))
      == w.(refunds := [Refund(9, 1, 50, Succeeded)],
            orders := w.orders[1 := PaidOrder(1).(refundedCents := 50, status := PartiallyRefunded)])
    ensures AllAccounted(Next(w, Reported(1, 50)))
  {
    var rows := [Refund(9, 1, 50, Succeeded)];
    assert rows[1..] == [] && Upserted(w.refunds, rows[0]) == rows;
    assert RefundedTotal(rows, 1) == 50 && RefundedTotal(rows, 2) == 0;
  }

  lemma SecondReport(w: World)
    requires w.orders == map[1 := PaidOrder(1).(refundedCents := 50, status := PartiallyRefunded), 2 := PaidOrder(2)]
    requires w.payments == map[1 := 1, 2 := 2] && w.refunds == [Refund(9, 1, 50, Succeeded)]
    ensures RefundOutcomeOf(w, Reported(2, 80)) == Recorded && MovesRefund(w, Reported(2, 80))
    ensures Next(w, Reported(2, 80)) == w.(refunds := [Refund(9, 1, 80, Succeeded)])
    ensures RefundedTotal(Next(w, Reported(2, 80)).refunds, 1) == 80
  {
    var rows := [Refund(9, 1, 80, Succeeded)];
    assert w.refunds[1..] == [] && rows[1..] == [];
    assert Upserted(w.refunds, Refund(9, 2, 80, Succeeded)) == rows;
    assert RefundedTotal(rows, 1) == 80 && RefundedTotal(rows, 2) == 0;
    assert w.orders[2 := PaidOrder(2)] == w.orders;
  }

  /** One refund reported first under one payment, then under another with another amount:
      the row stays with the first order, whose total still has the first amount. */
  lemma MovedRefundIsUnaccounted(w: World)
    requires Empty(w)
    ensures var first := Next(Run(w, [Purchase(1), Payment(1), Purchase(2), Payment(2)]), Reported(1, 50));
      && AllAccounted(first)
      && RefundOutcomeOf(first, Reported(2, 80)) == Recorded && MovesRefund(first, Reported(2, 80))
      && !AllAccounted(Next(first, Reported(2, 80)))
  {
    TwoPurchases(w);
    var paid := Run(w, [Purchase(1), Payment(1), Purchase(2), Payment(2)]);
    FirstReport(paid);
    SecondReport(Next(paid, Reported(1, 50)));
    assert !Accounted(Next(Next(paid, Reported(1, 50)), Reported(2, 80)), 1);
  }

  // ----- accounts over whole runs -----

  lemma RefundKeepsAccounts(w: World, s: Step, paymentOf: map<nat, nat>)
    requires RefundInv(w, paymentOf) && s.RecordRefund?
    requires s.refund in paymentOf && paymentOf[s.refund] == s.payment
    ensures RefundInv(Next(w, s), paymentOf)
  {
    if RefundOutcomeOf(w, s) == Recorded {
      var r := Refund(s.refund, w.payments[s.payment], s.amountCents, s.status);
      UpsertFiles(w.refunds, r, w, paymentOf);
      RefundKeepsAccountsIffNotMoved(w, s);
    }
  }

  lemma UnpaidHasNoRefunds(w: World, order: nat, paymentOf: map<nat, nat>)
    requires RefundInv(w, paymentOf) && !Honoured(w, order)
    ensures RefundedTotal(w.refunds, order) == 0
  {
    NothingFiled(w.refunds, order);
  }

  /** Apart from refunds, a step touches only orders not yet paid for. */
  lemma OtherOrders(w: World, s: Step)
    requires !s.RecordRefund?
    ensures var w' := Next(w, s);
      && w'.refunds == w.refunds
      && (forall o :: Honoured(w, o) ==> o in w'.orders && w'.orders[o] == w.orders[o])
      && (forall o :: o in w'.orders && !Honoured(w, o) ==>
            w'.orders[o].refundedCents == (if o in w.orders then w.orders[o].refundedCents else 0)
            && (o in w.orders ==> w'.orders[o].totalCents == w.orders[o].totalCents)
            && (Settled(w'.orders[o].status) ==> w'.orders[o].status.Paid?))
      && (forall p :: p in w.payments ==> p in w'.payments && w'.payments[p] == w.payments[p])
      && (forall p :: p in w'.payments && p !in w.payments ==> Honoured(w', w'.payments[p]))
  {
  }

  lemma OtherKeepsAccounts(w: World, s: Step, paymentOf: map<nat, nat>)
    requires RefundInv(w, paymentOf) && !s.RecordRefund?
    ensures RefundInv(Next(w, s), paymentOf)
  {
    var w' := Next(w, s);
    OtherOrders(w, s);
    forall o | o in w'.orders ensures Accounted(w', o) {
      if o in w.orders { assert Accounted(w, o); }
      if !Honoured(w, o) { UnpaidHasNoRefunds(w, o, paymentOf); }
    }
  }

  /** The provider reports each refund under one payment. */
  ghost predicate Consistent(steps: seq<Step>, paymentOf: map<nat, nat>) {
    forall s :: s in steps && s.RecordRefund? ==> s.refund in paymentOf && paymentOf[s.refund] == s.payment
  }

  lemma {:induction false} RunKeepsAccounts(w: World, steps: seq<Step>, paymentOf: map<nat, nat>)
    requires RefundInv(w, paymentOf) && Consistent(steps, paymentOf)
    ensures RefundInv(Run(w, steps), paymentOf)
    decreases |steps|
  {
    if steps != [] {
      var s := steps[0];
      if s.RecordRefund? { RefundKeepsAccounts(w, s, paymentOf); } else { OtherKeepsAccounts(w, s, paymentOf); }
      RunKeepsAccounts(Next(w, s), steps[1..], paymentOf);
    }
  }

  /** However refunds are repeated, reordered or change their status, in every run each
      order's refunded amount is the sum of its distinct succeeded refunds, is at most the
      order's total, and alone determines the status of a paid order. */
  lemma RefundsAreAccounted(w: World, steps: seq<Step>, paymentOf: map<nat, nat>, order: nat)
    requires Empty(w) && Consistent(steps, paymentOf) && order in Run(w, steps).orders
    ensures Accounted(Run(w, steps), order)
  {
    RunKeepsAccounts(w, steps, paymentOf);
  }

  // ----- the operations as the server runs them -----

  class AccessDesk {
    var now: nat
    var orders: map<nat, Order>
    var payments: map<nat, nat>
    var grants: map<nat, Grant>
    var issued: map<nat, Place>
    var enrolled: set<(nat, nat)>
    var redemptions: set<Redemption>
    var refunds: seq<Refund>
    var audit: seq<Change>

    function View(): World
      reads this
    {
      World(now, orders, payments, Access(grants, issued, enrolled, redemptions), refunds, audit)
    }

    constructor ()
      ensures Empty(View())
    {
      now, orders, payments, grants, issued := 0, map[], map[], map[], map[];
      enrolled, redemptions, refunds, audit := {}, {}, [], [];
    }

    /** Fulfils a paid checkout session; `created` and `codes` are fresh. */
    method FulfilCheckout(order: nat, session: nat, amountCents: nat, payment: nat, created: nat, codes: seq<nat>)
      returns (outcome: FulfilOutcome)
      requires order in orders ==> Supplied(View(), Fulfil(order, session, amountCents, payment, created, codes))
      modifies this
      ensures outcome == FulfilOutcomeOf(old(View()), Fulfil(order, session, amountCents, payment, created, codes))
      ensures View() == Next(old(View()), Fulfil(order, session, amountCents, payment, created, codes))
    {
      if order !in orders { return Refused; }
      var o := orders[order];
      if o.session.Some? && o.session.value != session { return Refused; }
      if amountCents != o.totalCents { return Refused; }
      if Settled(o.status) { return AlreadyFulfilled; }
      if !o.status.Pending? { return Ignored; }
      if o.quantity < 1 { return Refused; }
      var target := created;
      if o.kind.CapacityExtension? {
        target := o.kind.grant;
        if target !in grants { return Refused; }
        var g := grants[target];
        if !g.purchased || g.course != o.course || g.mode != o.mode { return Refused; }
      }
      if o.kind.BulkPurchase? && o.created.Some? { return Refused; }
      if payment in payments { return Refused; }
      if o.kind.CapacityExtension? {
        ChangeQuantity(target, grants[target].quantity + o.quantity, codes);
      } else {
        var rows := FirstCodes(o.mode, codes);
        grants := grants[target := Grant(o.course, o.mode, o.quantity, 0, None, false, true, rows)];
        issued := Indexed(issued, codes, target, 0);
      }
      audit := audit + [Change(target, Some(order), o.quantity)];
      orders := orders[order := o.(status := Paid, session := Some(session),
                                   created := if o.kind.BulkPurchase? then Some(target) else o.created)];
      payments := payments[payment := order];
      outcome := Fulfilled;
    }

    method ChangeQuantity(id: nat, quantity: nat, codes: seq<nat>)
      requires id in grants
      modifies this`grants, this`issued
      ensures Access(grants, issued, enrolled, redemptions) == Resized(old(View()).access, id, quantity, codes)
    {
      var g := grants[id];
      var rows := g.codes;
      if g.mode.SingleUseCodes? {
        rows := rows + Numbered(codes, g.quantity + 1);
        issued := Indexed(issued, codes, id, |g.codes|);
      } else {
        assert rows + Numbered([], g.quantity + 1) == rows;
      }
      grants := grants[id := g.(quantity := quantity, codes := rows)];
    }

    method UpdateCapacity(id: nat, quantity: nat, codes: seq<nat>) returns (outcome: CapacityOutcome)
      requires id in grants ==> ResizeSupplied(View().access, id, quantity, codes)
      modifies this`grants, this`issued, this`audit
      ensures outcome == CapacityOutcomeOf(old(View()).access, id, quantity)
      ensures View() == Next(old(View()), EditCapacity(id, quantity, codes))
    {
      if id !in grants { return NotFound; }
      var g := grants[id];
      if quantity < g.redeemed { return CapacityBelowRedeemed; }
      if g.mode.SingleUseCodes? && quantity < g.quantity { return BatchCapacityReduction; }
      if quantity == g.quantity { return Unchanged; }
      ChangeQuantity(id, quantity, codes);
      audit := audit + [Change(id, None, quantity - g.quantity)];
      outcome := CapacityUpdated;
    }

    method RedeemCode(code: nat, user: nat) returns (outcome: RedeemOutcome)
      modifies this`grants, this`enrolled, this`redemptions
      ensures outcome == RedeemOutcomeOf(old(View()).access, code, user, now)
      ensures View() == Next(old(View()), Redeem(code, user))
    {
      if code !in issued || issued[code].grant !in grants { return Invalid; }
      var id := issued[code].grant;
      var g := grants[id];
      if g.mode.SingleUseCodes? && (exists r :: r in redemptions && r.code == Some(code)) { return Invalid; }
      if g.revoked || (g.expires.Some? && g.expires.value <= now) { return Invalid; }
      if (user, g.course) in enrolled { return AlreadyEnrolled; }
      if g.redeemed >= g.quantity { return Invalid; }
      enrolled := enrolled + {(user, g.course)};
      redemptions := redemptions + {Redemption(id, user, if g.mode.SingleUseCodes? then Some(code) else None)};
      grants := grants[id := g.(redeemed := g.redeemed + 1)];
      outcome := Enrolled;
    }

    method RecordStripeRefund(refund: nat, payment: nat, amountCents: nat, status: RefundStatus) returns (outcome: RefundOutcome)
      modifies this`refunds, this`orders
      ensures outcome == RefundOutcomeOf(old(View()), RecordRefund(refund, payment, amountCents, status))
      ensures View() == Next(old(View()), RecordRefund(refund, payment, amountCents, status))
    {
      if payment !in payments || payments[payment] !in orders { return Unmatched; }
      var id := payments[payment];
      var o := orders[id];
      var filed := FiledRefund(refunds, refund);
      if filed.Some? && filed.value.amountCents == amountCents && filed.value.status == status { return AlreadyRecorded; }
      var rows := Upserted(refunds, Refund(refund, id, amountCents, status));
      var total := RefundedTotal(rows, id);
      if total > o.totalCents { return ExceedsOrder; }
      refunds := rows;
      orders := orders[id := o.(refundedCents := total,
                                status := if total == 0 then Paid else if total == o.totalCents then Refunded
                                          else PartiallyRefunded)];
      outcome := Recorded;
    }
  }
}
