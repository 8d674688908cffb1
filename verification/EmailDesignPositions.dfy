/**
 Placing fixture email designs beside designs the database already has.

 A design that is stored is dropped from the fixture; in every context that has stored
 designs the others move behind them, in the order of a sort whose string comparison is
 left abstract.
 */
module EmailDesignPositions {
  import opened Prelude

  datatype Design = Design(id: nat, context: nat, position: int)

  type Order = (Design, Design) -> bool

  /** A comparison that puts the lower position first within a context. */
  ghost predicate SortsPositions(le: Order) {
    && (forall a, b :: le(a, b) || le(b, a))
    && (forall a, b, c :: le(a, b) && le(b, c) ==> le(a, c))
    && (forall a: Design, b: Design :: a.context == b.context && a.position < b.position ==> !le(b, a))
  }

  // ----- what is stored -----

  /** The greatest stored position of a context, if it has any. */
  function Greatest(stored: seq<Design>, context: nat): Option<int> {
    if stored == [] then None
    else var rest := Greatest(stored[1..], context);
         if stored[0].context != context then rest
         else if rest.Some? && rest.value > stored[0].position then rest
         else Some(stored[0].position)
  }

  lemma {:induction false} GreatestBounds(stored: seq<Design>, context: nat, i: nat)
    requires i < |stored| && stored[i].context == context
    ensures Greatest(stored, context).Some? && stored[i].position <= Greatest(stored, context).value
  {
    if i > 0 { GreatestBounds(stored[1..], context, i - 1); }
  }

  function IdsOf(rows: seq<Design>): set<nat> {
    set r | r in rows :: r.id
  }

  function Remaining(fixture: seq<Design>, ids: set<nat>): seq<Design> {
    if fixture == [] then []
    else (if fixture[0].id in ids then [] else [fixture[0]]) + Remaining(fixture[1..], ids)
  }

  // ----- the order of placing -----

  function Inserted(d: Design, ds: seq<Design>, le: Order): seq<Design> {
    if ds == [] || le(d, ds[0]) then [d] + ds else [ds[0]] + Inserted(d, ds[1..], le)
  }

  /** A stable sort: of equal rows the earlier stays in front. */
  function Sorted(ds: seq<Design>, le: Order): seq<Design> {
    if ds == [] then [] else Inserted(ds[0], Sorted(ds[1..], le), le)
  }

  ghost predicate Ascending(ds: seq<Design>, le: Order) {
    forall i, j :: 0 <= i < j < |ds| ==> le(ds[i], ds[j])
  }

  lemma {:induction false} InsertedSorts(d: Design, ds: seq<Design>, le: Order)
    requires SortsPositions(le) && Ascending(ds, le)
    ensures Ascending(Inserted(d, ds, le), le)
    ensures multiset(Inserted(d, ds, le)) == multiset(ds) + multiset{d}
  {
    if ds != [] {
      assert ds == [ds[0]] + ds[1..];
      if le(d, ds[0]) {
        forall j | 0 <= j < |ds| ensures le(d, ds[j]) { assert j > 0 ==> le(ds[0], ds[j]); }
      } else {
        var tail := Inserted(d, ds[1..], le);
        InsertedSorts(d, ds[1..], le);
        forall j | 0 <= j < |tail| ensures le(ds[0], tail[j]) {
          assert tail[j] in multiset(tail);
          assert tail[j] == d || tail[j] in ds[1..];
        }
      }
    }
  }

  lemma {:induction false} SortedSorts(ds: seq<Design>, le: Order)
    requires SortsPositions(le)
    ensures Ascending(Sorted(ds, le), le) && multiset(Sorted(ds, le)) == multiset(ds)
  {
    if ds != [] {
      SortedSorts(ds[1..], le);
      InsertedSorts(ds[0], Sorted(ds[1..], le), le);
      assert ds == [ds[0]] + ds[1..];
    }
  }

  // ----- the new positions -----

  function CountIn(ds: seq<Design>, context: nat): nat {
    if ds == [] then 0 else CountIn(ds[..|ds| - 1], context) + if ds[|ds| - 1].context == context then 1 else 0
  }

  /** New positions by id: behind the stored ones, one for each row in order. */
  function Positions(ordered: seq<Design>, stored: seq<Design>): map<nat, int> {
    if ordered == [] then map[]
    else
      var init, last := ordered[..|ordered| - 1], ordered[|ordered| - 1];
      var at := Greatest(stored, last.context);
      if at.None? then Positions(init, stored)
      else Positions(init, stored)[last.id := at.value + 1 + CountIn(init, last.context)]
  }

  function Moved(r: Design, positions: map<nat, int>): Design {
    if r.id in positions then r.(position := positions[r.id]) else r
  }

  function Placed(fixture: seq<Design>, stored: seq<Design>, le: Order): seq<Design> {
    var rows := Remaining(fixture, IdsOf(stored));
    var positions := Positions(Sorted(rows, le), stored);
    seq(|rows|, i requires 0 <= i < |rows| => Moved(rows[i], positions))
  }

  ghost predicate UniqueIds(ds: seq<Design>) {
    forall i, j :: 0 <= i < j < |ds| ==> ds[i].id != ds[j].id
  }

  ghost predicate UniquePositions(ds: seq<Design>) {
    forall i, j :: 0 <= i < j < |ds| ==> ds[i].context != ds[j].context || ds[i].position != ds[j].position
  }

  lemma {:induction false} CountMonotone(ds: seq<Design>, context: nat, i: nat, j: nat)
    requires i <= j <= |ds|
    ensures CountIn(ds[..i], context) <= CountIn(ds[..j], context)
    ensures i < j && ds[i].context == context ==> CountIn(ds[..i], context) < CountIn(ds[..j], context)
    decreases j - i
  {
    if i < j {
      assert ds[..j][..j - 1] == ds[..j - 1];
      CountMonotone(ds, context, i, j - 1);
    }
  }

  /** Each row of an occupied context gets the place its number in the order gives it. */
  lemma {:induction false} PositionAt(ordered: seq<Design>, stored: seq<Design>, i: nat)
    requires UniqueIds(ordered) && i < |ordered|
    ensures ordered[i].id in Positions(ordered, stored) <==> Greatest(stored, ordered[i].context).Some?
    ensures Greatest(stored, ordered[i].context).Some? ==>
      Positions(ordered, stored)[ordered[i].id]
      == Greatest(stored, ordered[i].context).value + 1 + CountIn(ordered[..i], ordered[i].context)
  {
    var n := |ordered| - 1;
    if i < n {
      PositionAt(ordered[..n], stored, i);
      assert ordered[..n][..i] == ordered[..i];
    } else if ordered[n].id in Positions(ordered[..n], stored) {
      PositionsAreOf(ordered[..n], stored, ordered[n].id);
    }
  }

  lemma {:induction false} PositionsAreOf(ordered: seq<Design>, stored: seq<Design>, id: nat)
    requires id in Positions(ordered, stored)
    ensures exists k :: 0 <= k < |ordered| && ordered[k].id == id
  {
    var n := |ordered| - 1;
    if ordered[n].id != id {
      PositionsAreOf(ordered[..n], stored, id);
      var k :| 0 <= k < |ordered[..n]| && ordered[..n][k].id == id;
      assert ordered[k].id == id;
    }
  }

  lemma {:induction false} RemainingRows(fixture: seq<Design>, ids: set<nat>)
    ensures forall r :: r in Remaining(fixture, ids) <==> r in fixture && r.id !in ids
  {
    if fixture != [] {
      assert fixture == [fixture[0]] + fixture[1..];
      RemainingRows(fixture[1..], ids);
    }
  }

  lemma {:induction false} RemainingUnique(fixture: seq<Design>, ids: set<nat>)
    ensures UniqueIds(fixture) ==> UniqueIds(Remaining(fixture, ids))
    ensures UniquePositions(fixture) ==> UniquePositions(Remaining(fixture, ids))
  {
    if fixture != [] {
      RemainingUnique(fixture[1..], ids);
      RemainingRows(fixture[1..], ids);
      var tail := Remaining(fixture[1..], ids);
      forall j | 0 <= j < |tail| ensures exists k :: 0 < k < |fixture| && fixture[k] == tail[j] {
        assert tail[j] in fixture[1..];
        var k :| 0 <= k < |fixture[1..]| && fixture[1..][k] == tail[j];
        assert fixture[k + 1] == tail[j];
      }
    }
  }

  lemma {:induction false} InsertedRows(d: Design, ds: seq<Design>, le: Order)
    ensures forall r :: r in Inserted(d, ds, le) <==> r == d || r in ds
    ensures UniqueIds([d] + ds) ==> UniqueIds(Inserted(d, ds, le))
  {
    if ds != [] && !le(d, ds[0]) {
      InsertedRows(d, ds[1..], le);
      assert ds == [ds[0]] + ds[1..];
      if UniqueIds([d] + ds) {
        var all, fewer := [d] + ds, [d] + ds[1..];
        assert forall i :: 0 < i < |fewer| ==> fewer[i] == all[i + 1];
        assert fewer[0] == all[0] && UniqueIds(fewer);
        var tail := Inserted(d, ds[1..], le);
        forall j | 0 <= j < |tail| ensures tail[j].id != ds[0].id {
          assert tail[j] in tail;
          if tail[j] == d { assert all[0].id != all[1].id; }
          else { var k :| 0 <= k < |ds[1..]| && ds[1..][k] == tail[j]; assert all[1].id != all[k + 2].id; }
        }
      }
    }
  }

  lemma {:induction false} SortedRows(ds: seq<Design>, le: Order)
    ensures forall r :: r in Sorted(ds, le) <==> r in ds
    ensures UniqueIds(ds) ==> UniqueIds(Sorted(ds, le))
  {
    if ds != [] {
      assert ds == [ds[0]] + ds[1..];
      var tail := Sorted(ds[1..], le);
      SortedRows(ds[1..], le);
      InsertedRows(ds[0], tail, le);
      if UniqueIds(ds) {
        forall j | 0 <= j < |tail| ensures tail[j].id != ds[0].id {
          assert tail[j] in ds[1..];
        }
      }
    }
  }

  // ----- the placed rows -----

  ghost predicate Given(fixture: seq<Design>, stored: seq<Design>, le: Order) {
    SortsPositions(le) && UniqueIds(fixture) && UniquePositions(fixture) && UniquePositions(stored)
  }

  /** The place in the order of the i-th remaining row. */
  ghost function Rank(fixture: seq<Design>, stored: seq<Design>, le: Order, i: nat): (k: nat)
    requires i < |Remaining(fixture, IdsOf(stored))|
    ensures var rows := Remaining(fixture, IdsOf(stored)); k < |Sorted(rows, le)| && Sorted(rows, le)[k] == rows[i]
  {
    var rows := Remaining(fixture, IdsOf(stored));
    SortedRows(rows, le);
    assert rows[i] in Sorted(rows, le);
    var k :| 0 <= k < |Sorted(rows, le)| && Sorted(rows, le)[k] == rows[i];
    k
  }

  lemma PlacedAt(fixture: seq<Design>, stored: seq<Design>, le: Order, i: nat)
    requires Given(fixture, stored, le) && i < |Placed(fixture, stored, le)|
    ensures var rows := Remaining(fixture, IdsOf(stored)); var r, p := rows[i], Placed(fixture, stored, le)[i];
      && p.id == r.id && p.context == r.context
      && (Greatest(stored, r.context).None? ==> p == r)
      && (Greatest(stored, r.context).Some? ==>
            p.position == Greatest(stored, r.context).value + 1
                          + CountIn(Sorted(rows, le)[..Rank(fixture, stored, le, i)], r.context))
  {
    var rows := Remaining(fixture, IdsOf(stored));
    RemainingUnique(fixture, IdsOf(stored));
    SortedRows(rows, le);
    PositionAt(Sorted(rows, le), stored, Rank(fixture, stored, le, i));
  }

  /** A design in a context without stored designs keeps its position. */
  lemma UnoccupiedContextsAreUntouched(fixture: seq<Design>, stored: seq<Design>, le: Order, i: nat)
    requires Given(fixture, stored, le) && i < |Placed(fixture, stored, le)|
    requires forall k :: 0 <= k < |stored| ==> stored[k].context != Placed(fixture, stored, le)[i].context
    ensures Placed(fixture, stored, le)[i] == Remaining(fixture, IdsOf(stored))[i]
  {
    PlacedAt(fixture, stored, le, i);
    NoneStored(stored, Placed(fixture, stored, le)[i].context);
  }

  lemma {:induction false} NoneStored(stored: seq<Design>, context: nat)
    ensures Greatest(stored, context).None? <==> forall k :: 0 <= k < |stored| ==> stored[k].context != context
  {
    if stored != [] { NoneStored(stored[1..], context); assert stored == [stored[0]] + stored[1..]; }
  }

  lemma RanksDiffer(fixture: seq<Design>, stored: seq<Design>, le: Order, i: nat, j: nat)
    requires Given(fixture, stored, le) && i < j < |Remaining(fixture, IdsOf(stored))|
    ensures Rank(fixture, stored, le, i) != Rank(fixture, stored, le, j)
  {
    RemainingUnique(fixture, IdsOf(stored));
  }

  /** In an occupied context rows keep their relative order. */
  lemma RelativeOrderIsKept(fixture: seq<Design>, stored: seq<Design>, le: Order, i: nat, j: nat)
    requires Given(fixture, stored, le) && i < |Placed(fixture, stored, le)| && j < |Placed(fixture, stored, le)|
    requires var rows := Remaining(fixture, IdsOf(stored));
      rows[i].context == rows[j].context && rows[i].position < rows[j].position
    ensures Placed(fixture, stored, le)[i].position < Placed(fixture, stored, le)[j].position
  {
    var rows := Remaining(fixture, IdsOf(stored));
    var ordered := Sorted(rows, le);
    PlacedAt(fixture, stored, le, i);
    PlacedAt(fixture, stored, le, j);
    SortedSorts(rows, le);
    var a, b := Rank(fixture, stored, le, i), Rank(fixture, stored, le, j);
    assert !le(rows[j], rows[i]);
    CountMonotone(ordered, rows[i].context, a, b);
  }

  /** Positions are unique within each context over the stored designs and those about to be
      inserted, whenever each side was unique before. */
  lemma PositionsStayUnique(fixture: seq<Design>, stored: seq<Design>, le: Order)
    requires Given(fixture, stored, le)
    ensures UniquePositions(stored + Placed(fixture, stored, le))
  {
    var rows := Remaining(fixture, IdsOf(stored));
    var placed := Placed(fixture, stored, le);
    var all := stored + placed;
    RemainingUnique(fixture, IdsOf(stored));
    forall i, j | 0 <= i < j < |all| ensures all[i].context != all[j].context || all[i].position != all[j].position {
      if |stored| <= i {
        PlacedDiffer(fixture, stored, le, i - |stored|, j - |stored|);
      } else if |stored| <= j && all[i].context == all[j].context {
        PlacedAt(fixture, stored, le, j - |stored|);
        GreatestBounds(stored, all[j].context, i);
      }
    }
  }

  lemma PlacedDiffer(fixture: seq<Design>, stored: seq<Design>, le: Order, i: nat, j: nat)
    requires Given(fixture, stored, le) && i < j < |Placed(fixture, stored, le)|
    ensures var placed := Placed(fixture, stored, le);
      placed[i].context != placed[j].context || placed[i].position != placed[j].position
  {
    var rows := Remaining(fixture, IdsOf(stored));
    var ordered := Sorted(rows, le);
    PlacedAt(fixture, stored, le, i);
    PlacedAt(fixture, stored, le, j);
    RemainingUnique(fixture, IdsOf(stored));
    RanksDiffer(fixture, stored, le, i, j);
    var a, b := Rank(fixture, stored, le, i), Rank(fixture, stored, le, j);
    if a < b { CountMonotone(ordered, rows[i].context, a, b); } else { CountMonotone(ordered, rows[j].context, b, a); }
  }

  // ----- contiguity -----

  lemma {:induction false} CountCons(d: Design, ds: seq<Design>, context: nat)
    ensures CountIn([d] + ds, context) == CountIn(ds, context) + if d.context == context then 1 else 0
  {
    if ds == [] {
      assert ([d] + ds)[..0] == [];
    } else {
      var n := |ds| - 1;
      assert ([d] + ds)[..|ds|] == [d] + ds[..n];
      CountCons(d, ds[..n], context);
    }
  }

  lemma {:induction false} InsertedCount(d: Design, ds: seq<Design>, le: Order, context: nat)
    ensures CountIn(Inserted(d, ds, le), context) == CountIn([d] + ds, context)
  {
    CountCons(d, ds, context);
    if ds != [] && !le(d, ds[0]) {
      InsertedCount(d, ds[1..], le, context);
      CountCons(d, ds[1..], context);
      CountCons(ds[0], Inserted(d, ds[1..], le), context);
      CountCons(ds[0], ds[1..], context);
      assert ds == [ds[0]] + ds[1..];
    }
  }

  lemma {:induction false} SortedCount(ds: seq<Design>, le: Order, context: nat)
    ensures CountIn(Sorted(ds, le), context) == CountIn(ds, context)
  {
    if ds != [] {
      SortedCount(ds[1..], le, context);
      InsertedCount(ds[0], Sorted(ds[1..], le), le, context);
      CountCons(ds[0], Sorted(ds[1..], le), context);
      CountCons(ds[0], ds[1..], context);
      assert ds == [ds[0]] + ds[1..];
    }
  }

  lemma {:induction false} EveryCountIsReached(ds: seq<Design>, context: nat, q: nat)
    requires q < CountIn(ds, context)
    ensures exists k :: 0 <= k < |ds| && ds[k].context == context && CountIn(ds[..k], context) == q
  {
    var n := |ds| - 1;
    if q < CountIn(ds[..n], context) {
      EveryCountIsReached(ds[..n], context, q);
      var k :| 0 <= k < n && ds[..n][k].context == context && CountIn(ds[..n][..k], context) == q;
      assert ds[..n][..k] == ds[..k] && ds[k] == ds[..n][k];
    } else {
      assert ds[n].context == context && CountIn(ds[..n], context) == q;
    }
  }

  /** In an occupied context the fixture rows fill the block right behind the greatest stored
      position: none lies outside it, and no position in it is left free. */
  lemma BlockIsContiguous(fixture: seq<Design>, stored: seq<Design>, le: Order, context: nat)
    requires Given(fixture, stored, le) && Greatest(stored, context).Some?
    ensures var first := Greatest(stored, context).value + 1; var n := CountIn(Remaining(fixture, IdsOf(stored)), context);
      var placed := Placed(fixture, stored, le);
      && (forall i :: 0 <= i < |placed| && placed[i].context == context ==> first <= placed[i].position < first + n)
      && (forall p :: first <= p < first + n ==> HasPosition(placed, context, p))
  {
    var rows := Remaining(fixture, IdsOf(stored));
    var ordered := Sorted(rows, le);
    var placed := Placed(fixture, stored, le);
    var first := Greatest(stored, context).value + 1;
    SortedCount(rows, le, context);
    forall i | 0 <= i < |placed| && placed[i].context == context
      ensures first <= placed[i].position < first + CountIn(rows, context)
    {
      PlacedAt(fixture, stored, le, i);
      CountMonotone(ordered, context, Rank(fixture, stored, le, i), |ordered|);
      assert ordered[..|ordered|] == ordered;
    }
    forall p | first <= p < first + CountIn(rows, context) ensures HasPosition(placed, context, p) {
      BlockHas(fixture, stored, le, context, p - first);
    }
  }

  predicate HasPosition(ds: seq<Design>, context: nat, p: int) {
    exists i :: 0 <= i < |ds| && ds[i].context == context && ds[i].position == p
  }

  lemma BlockHas(fixture: seq<Design>, stored: seq<Design>, le: Order, context: nat, q: nat)
    requires Given(fixture, stored, le) && Greatest(stored, context).Some?
    requires q < CountIn(Remaining(fixture, IdsOf(stored)), context)
    ensures HasPosition(Placed(fixture, stored, le), context, Greatest(stored, context).value + 1 + q)
  {
    var rows := Remaining(fixture, IdsOf(stored));
    var ordered := Sorted(rows, le);
    SortedCount(rows, le, context);
    EveryCountIsReached(ordered, context, q);
    var k :| 0 <= k < |ordered| && ordered[k].context == context && CountIn(ordered[..k], context) == q;
    SortedRows(rows, le);
    RemainingUnique(fixture, IdsOf(stored));
    assert ordered[k] in rows;
    var i :| 0 <= i < |rows| && rows[i] == ordered[k];
    PlacedAt(fixture, stored, le, i);
    assert Rank(fixture, stored, le, i) == k;
    assert Placed(fixture, stored, le)[i].position == Greatest(stored, context).value + 1 + q;
  }

  lemma CountNext(ds: seq<Design>, i: nat)
    requires i < |ds|
    ensures ds[..i + 1][..i] == ds[..i]
    ensures forall c: nat :: CountIn(ds[..i + 1], c) == CountIn(ds[..i], c) + if ds[i].context == c then 1 else 0
  {
    assert ds[..i + 1][..i] == ds[..i];
  }

  // ----- the fixture as the seeder updates it -----

  class DesignFixture {
    var designs: seq<Design>

    constructor (designs: seq<Design>)
      ensures this.designs == designs
    {
      this.designs := designs;
    }

    /** Drops stored designs, then hands out positions in order from a counter per context. */
    method PreserveStored(stored: seq<Design>, le: Order)
      modifies this
      ensures designs == Placed(old(designs), stored, le)
    {
      var rows := DropStored(IdsOf(stored));
      var ordered := Sorted(rows, le);
      var positions := HandOut(ordered, stored);
      designs := seq(|rows|, i requires 0 <= i < |rows| => Moved(rows[i], positions));
    }

    method DropStored(ids: set<nat>) returns (rows: seq<Design>)
      ensures rows == Remaining(designs, ids)
    {
      rows := [];
      for i := 0 to |designs|
        invariant rows + Remaining(designs[i..], ids) == Remaining(designs, ids)
      {
        assert designs[i..][1..] == designs[i + 1..];
        if designs[i].id !in ids { rows := rows + [designs[i]]; }
      }
    }

    method HandOut(ordered: seq<Design>, stored: seq<Design>) returns (positions: map<nat, int>)
      ensures positions == Positions(ordered, stored)
    {
      var contexts := set d | d in stored :: d.context;
      var next := map c | c in contexts && Greatest(stored, c).Some? :: Greatest(stored, c).value + 1;
      positions := map[];
      for i := 0 to |ordered|
        invariant forall c: nat :: c in next <==> c in contexts && Greatest(stored, c).Some?
        invariant forall c: nat :: c in next ==> next[c] == Greatest(stored, c).value + 1 + CountIn(ordered[..i], c)
        invariant positions == Positions(ordered[..i], stored)
      {
        var row := ordered[i];
        CountNext(ordered, i);
        NoneStored(stored, row.context);
        if row.context !in next { continue; }
        positions := positions[row.id := next[row.context]];
        next := next[row.context := next[row.context] + 1];
      }
      assert ordered[..|ordered|] == ordered;
    }
  }
}
