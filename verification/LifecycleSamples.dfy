/**
 Sample lifecycle communications added to the fixture: one for each trigger on the event
 template version, and one for each trigger on every occurrence of that version.
 */
module LifecycleSamples {
  import opened Prelude

  const TRIGGERS := ["registration_waitlisted", "registration_not_selected", "registration_cancelled",
                     "event_rescheduled", "event_cancelled", "prework_incomplete", "post_event_incomplete"]

  const SAMPLES := 7

  datatype Item = Item(version: string, position: int)

  datatype Communication = Communication(id: string, version: string, position: int, trigger: string)

  datatype Occurrence = Occurrence(id: string, version: string)

  datatype Revision = Revision(id: string, logicalId: string, occurrence: string, source: string, position: int, trigger: string)

  // ----- identifiers -----

  const PREFIX := "event_occurrence_"

  /** Every occurrence of the prefix removed, scanning from the left. */
  function Without(id: string, prefix: string): string
    requires prefix != ""
    decreases |id|
  {
    if id == "" then ""
    else if prefix <= id then Without(id[|prefix|..], prefix)
    else [id[0]] + Without(id[1..], prefix)
  }

  function Stripped(id: string): string { Without(id, PREFIX) }

  function Trigger(k: nat): string
    requires k < SAMPLES
  {
    TRIGGERS[k]
  }

  function CommunicationId(k: nat): string
    requires k < SAMPLES
  {
    "seed_event_communication_" + Trigger(k)
  }

  function RevisionId(occurrence: string, k: nat): string
    requires k < SAMPLES
  {
    "seed_event_communication_revision_" + (Stripped(occurrence) + "_" + Trigger(k))
  }

  function LogicalId(occurrence: string, k: nat): string
    requires k < SAMPLES
  {
    "seed_event_communication_" + (Stripped(occurrence) + "_" + Trigger(k))
  }

  predicate EndsWith(s: string, suffix: string) {
    |suffix| <= |s| && s[|s| - |suffix|..] == suffix
  }

  /** Both strings end in the shorter of two suffixes of one string. */
  lemma SuffixesNest(x: string, a: string, y: string, b: string)
    requires x + a == y + b && |a| <= |b|
    ensures EndsWith(b, a) && x == y + b[..|b| - |a|]
  {
    var s := x + a;
    assert s[|x|..] == a && s[|y|..] == b;
    assert b[|b| - |a|..] == s[|s| - |a|..];
    assert x == s[..|x|];
  }

  /** The thirteenth character from the end tells the triggers apart. */
  const MARKS := "o_itern"

  lemma TriggerMark(k: nat)
    requires k < SAMPLES
    ensures |Trigger(k)| >= 13 && Trigger(k)[|Trigger(k)| - 13] == MARKS[k]
  {
    assert k == 0 ==> TRIGGERS[k] == "registration_waitlisted";
    assert k == 1 ==> TRIGGERS[k] == "registration_not_selected";
    assert k == 2 ==> TRIGGERS[k] == "registration_cancelled";
    assert k == 3 ==> TRIGGERS[k] == "event_rescheduled";
    assert k == 4 ==> TRIGGERS[k] == "event_cancelled";
    assert k == 5 ==> TRIGGERS[k] == "prework_incomplete";
    assert k == 6 ==> TRIGGERS[k] == "post_event_incomplete";
  }

  lemma MarksDiffer(j: nat, k: nat)
    requires j < SAMPLES && k < SAMPLES && MARKS[j] == MARKS[k]
    ensures j == k
  {
  }

  lemma SuffixSharesMark(s: string, suffix: string)
    requires EndsWith("_" + s, "_" + suffix) && |suffix| >= 13
    ensures |s| >= 13 && s[|s| - 13] == suffix[|suffix| - 13]
  {
    var b, a := "_" + s, "_" + suffix;
    assert a[|a| - 13] == b[|b| - |a|..][|a| - 13] == b[|b| - 13];
  }

  /** No trigger, with its underscore, is a suffix of another. */
  lemma TriggersAreNotSuffixes(j: nat, k: nat)
    requires j < SAMPLES && k < SAMPLES && EndsWith("_" + Trigger(k), "_" + Trigger(j))
    ensures j == k
  {
    TriggerMark(j);
    TriggerMark(k);
    SuffixSharesMark(Trigger(k), Trigger(j));
    MarksDiffer(j, k);
  }

  /** Of two ends of the same string the shorter is a suffix of the longer. */
  lemma EndsNest(x: string, t: string, y: string, u: string)
    requires x + "_" + t == y + "_" + u
    ensures |t| <= |u| ==> EndsWith("_" + u, "_" + t)
    ensures |u| <= |t| ==> EndsWith("_" + t, "_" + u)
    ensures t == u ==> x == y
  {
    assert x + "_" + t == x + ("_" + t) && y + "_" + u == y + ("_" + u);
    if |t| <= |u| { SuffixesNest(x, "_" + t, y, "_" + u); }
    if |u| <= |t| { SuffixesNest(y, "_" + u, x, "_" + t); }
  }

  /** The stripped id and the trigger can be read back from what follows the literal. */
  lemma SamplePartsAreRecovered(x: string, j: nat, y: string, k: nat)
    requires j < SAMPLES && k < SAMPLES && x + "_" + Trigger(j) == y + "_" + Trigger(k)
    ensures x == y && j == k
  {
    EndsNest(x, Trigger(j), y, Trigger(k));
    if |Trigger(j)| <= |Trigger(k)| { TriggersAreNotSuffixes(j, k); } else { TriggersAreNotSuffixes(k, j); }
  }

  // ----- positions -----

  /** One above the greatest position taken, and at least zero. */
  function NextPosition(taken: seq<int>): int {
    Greatest(taken) + 1
  }

  function Greatest(taken: seq<int>): (m: int)
    ensures m >= -1 && forall i :: 0 <= i < |taken| ==> taken[i] <= m
  {
    if taken == [] then -1 else Max(taken[|taken| - 1], Greatest(taken[..|taken| - 1]))
  }

  lemma {:induction false} GreatestIsTaken(taken: seq<int>)
    ensures Greatest(taken) == -1 || Greatest(taken) in taken
  {
    if taken != [] {
      GreatestIsTaken(taken[..|taken| - 1]);
      assert taken[|taken| - 1] in taken;
      assert forall p :: p in taken[..|taken| - 1] ==> p in taken;
    }
  }

  function CommunicationPositions(rows: seq<Communication>, version: string): seq<int> {
    if rows == [] then []
    else CommunicationPositions(rows[..|rows| - 1], version)
         + if rows[|rows| - 1].version == version then [rows[|rows| - 1].position] else []
  }

  function ItemPositions(items: seq<Item>, version: string): seq<int> {
    if items == [] then []
    else ItemPositions(items[..|items| - 1], version)
         + if items[|items| - 1].version == version then [items[|items| - 1].position] else []
  }

  function RevisionPositions(rows: seq<Revision>, occurrence: string): seq<int> {
    if rows == [] then []
    else RevisionPositions(rows[..|rows| - 1], occurrence)
         + if rows[|rows| - 1].occurrence == occurrence then [rows[|rows| - 1].position] else []
  }

  // ----- the rows added -----

  function SampleCommunication(version: string, first: int, k: nat): Communication
    requires k < SAMPLES
  {
    Communication(CommunicationId(k), version, first + k, Trigger(k))
  }

  function SampleRevision(occurrence: string, first: int, k: nat): Revision
    requires k < SAMPLES
  {
    Revision(RevisionId(occurrence, k), LogicalId(occurrence, k), occurrence, CommunicationId(k), first + k, Trigger(k))
  }

  function WithCommunications(rows: seq<Communication>, items: seq<Item>, version: string): seq<Communication> {
    var first := NextPosition(CommunicationPositions(rows, version) + ItemPositions(items, version));
    rows + seq(SAMPLES, k requires 0 <= k < SAMPLES => SampleCommunication(version, first, k))
  }

  function Block(rows: seq<Revision>, occurrence: string): seq<Revision> {
    var first := NextPosition(RevisionPositions(rows, occurrence));
    seq(SAMPLES, k requires 0 <= k < SAMPLES => SampleRevision(occurrence, first, k))
  }

  function WithRevisions(rows: seq<Revision>, occurrences: seq<Occurrence>, version: string): seq<Revision> {
    if occurrences == [] then rows
    else
      var before := WithRevisions(rows, occurrences[..|occurrences| - 1], version);
      var last := occurrences[|occurrences| - 1];
      if last.version != version then before else before + Block(before, last.id)
  }

  /** Rows that are there stay there, in place and unchanged. */
  lemma {:induction false} ExistingRevisionsStay(rows: seq<Revision>, occurrences: seq<Occurrence>, version: string)
    ensures rows <= WithRevisions(rows, occurrences, version)
  {
    if occurrences != [] { ExistingRevisionsStay(rows, occurrences[..|occurrences| - 1], version); }
  }

  lemma {:induction false} CommunicationTaken(rows: seq<Communication>, version: string, p: int)
    ensures p in CommunicationPositions(rows, version)
      <==> exists i :: 0 <= i < |rows| && rows[i].version == version && rows[i].position == p
  {
    if rows != [] {
      var n := |rows| - 1;
      CommunicationTaken(rows[..n], version, p);
      if i :| 0 <= i < n && rows[..n][i].version == version && rows[..n][i].position == p {
        assert rows[i].version == version && rows[i].position == p;
      }
      if i :| 0 <= i < |rows| && rows[i].version == version && rows[i].position == p {
        assert i < n ==> rows[..n][i] == rows[i];
      }
    }
  }

  lemma {:induction false} ItemTaken(items: seq<Item>, version: string, p: int)
    ensures p in ItemPositions(items, version)
      <==> exists i :: 0 <= i < |items| && items[i].version == version && items[i].position == p
  {
    if items != [] {
      var n := |items| - 1;
      ItemTaken(items[..n], version, p);
      if i :| 0 <= i < n && items[..n][i].version == version && items[..n][i].position == p {
        assert items[i].version == version && items[i].position == p;
      }
      if i :| 0 <= i < |items| && items[i].version == version && items[i].position == p {
        assert i < n ==> items[..n][i] == items[i];
      }
    }
  }

  lemma {:induction false} RevisionTaken(rows: seq<Revision>, occurrence: string, p: int)
    ensures p in RevisionPositions(rows, occurrence)
      <==> exists i :: 0 <= i < |rows| && rows[i].occurrence == occurrence && rows[i].position == p
  {
    if rows != [] {
      var n := |rows| - 1;
      RevisionTaken(rows[..n], occurrence, p);
      if i :| 0 <= i < n && rows[..n][i].occurrence == occurrence && rows[..n][i].position == p {
        assert rows[i].occurrence == occurrence && rows[i].position == p;
      }
      if i :| 0 <= i < |rows| && rows[i].occurrence == occurrence && rows[i].position == p {
        assert i < n ==> rows[..n][i] == rows[i];
      }
    }
  }

  lemma Above(taken: seq<int>, p: int)
    requires p in taken
    ensures p < NextPosition(taken)
  {
  }

  /** The template's new communications take consecutive positions above every communication
      and every item of the version, and leave the rows that are there as they are. */
  lemma CommunicationsAreAppended(rows: seq<Communication>, items: seq<Item>, version: string)
    ensures var after := WithCommunications(rows, items, version);
      && rows <= after && |after| == |rows| + SAMPLES
      && (forall i :: |rows| <= i < |after| ==>
            after[i].version == version && after[i].position == after[|rows|].position + i - |rows|)
      && (forall i :: 0 <= i < |rows| && rows[i].version == version ==> rows[i].position < after[|rows|].position)
      && (forall i :: 0 <= i < |items| && items[i].version == version ==> items[i].position < after[|rows|].position)
  {
    var taken := CommunicationPositions(rows, version) + ItemPositions(items, version);
    forall i | 0 <= i < |rows| && rows[i].version == version ensures rows[i].position < NextPosition(taken) {
      CommunicationTaken(rows, version, rows[i].position);
      Above(taken, rows[i].position);
    }
    forall i | 0 <= i < |items| && items[i].version == version ensures items[i].position < NextPosition(taken) {
      ItemTaken(items, version, items[i].position);
      Above(taken, items[i].position);
    }
  }

  /** The first of them is zero, or right above a communication or an item of the version. */
  lemma FirstCommunicationIsTight(rows: seq<Communication>, items: seq<Item>, version: string)
    ensures var first := WithCommunications(rows, items, version)[|rows|].position;
      || first == 0
      || (exists i :: 0 <= i < |rows| && rows[i].version == version && rows[i].position == first - 1)
      || (exists i :: 0 <= i < |items| && items[i].version == version && items[i].position == first - 1)
  {
    var taken := CommunicationPositions(rows, version) + ItemPositions(items, version);
    GreatestIsTaken(taken);
    CommunicationTaken(rows, version, Greatest(taken));
    ItemTaken(items, version, Greatest(taken));
  }

  /** A block starts at zero or right above a row of its occurrence. */
  lemma FirstRevisionIsTight(rows: seq<Revision>, occurrence: string)
    ensures var first := Block(rows, occurrence)[0].position;
      first == 0 || exists i :: 0 <= i < |rows| && rows[i].occurrence == occurrence && rows[i].position == first - 1
  {
    var taken := RevisionPositions(rows, occurrence);
    GreatestIsTaken(taken);
    RevisionTaken(rows, occurrence, Greatest(taken));
  }

  ghost predicate UniqueRevisions(rows: seq<Revision>) {
    forall i, j :: 0 <= i < j < |rows| ==> rows[i].occurrence != rows[j].occurrence || rows[i].position != rows[j].position
  }

  lemma BlockIsAbove(rows: seq<Revision>, occurrence: string)
    ensures forall i, k :: 0 <= i < |rows| && rows[i].occurrence == occurrence && 0 <= k < SAMPLES
                           ==> rows[i].position < Block(rows, occurrence)[k].position
  {
    forall i | 0 <= i < |rows| && rows[i].occurrence == occurrence
      ensures rows[i].position < NextPosition(RevisionPositions(rows, occurrence))
    {
      RevisionTaken(rows, occurrence, rows[i].position);
    }
  }

  /** No occurrence gets two revisions at one position, if none had before. */
  lemma {:induction false} RevisionPositionsStayUnique(rows: seq<Revision>, occurrences: seq<Occurrence>, version: string)
    requires UniqueRevisions(rows)
    ensures UniqueRevisions(WithRevisions(rows, occurrences, version))
  {
    if occurrences != [] {
      var before := WithRevisions(rows, occurrences[..|occurrences| - 1], version);
      RevisionPositionsStayUnique(rows, occurrences[..|occurrences| - 1], version);
      BlockIsAbove(before, occurrences[|occurrences| - 1].id);
    }
  }

  // ----- each occurrence gets its block -----

  predicate HasBlock(after: seq<Revision>, at: nat, occurrence: string, first: int) {
    at + SAMPLES <= |after| && forall k :: 0 <= k < SAMPLES ==> after[at + k] == SampleRevision(occurrence, first, k)
  }

  predicate GetsBlock(after: seq<Revision>, existing: nat, occurrence: string, first: int) {
    exists at :: existing <= at < |after| && HasBlock(after, at, occurrence, first)
  }

  lemma {:induction false} OthersChangeNothing(rows: seq<Revision>, more: seq<Revision>, occurrence: string)
    requires forall i :: 0 <= i < |more| ==> more[i].occurrence != occurrence
    ensures RevisionPositions(rows + more, occurrence) == RevisionPositions(rows, occurrence)
  {
    if more == [] {
      assert rows + more == rows;
    } else {
      var n := |more| - 1;
      assert (rows + more)[..|rows + more| - 1] == rows + more[..n];
      OthersChangeNothing(rows, more[..n], occurrence);
    }
  }

  ghost predicate DistinctIds(occurrences: seq<Occurrence>) {
    forall i, j :: 0 <= i < j < |occurrences| ==> occurrences[i].id != occurrences[j].id
  }

  lemma {:induction false} BlocksBelongToEarlier(rows: seq<Revision>, occurrences: seq<Occurrence>, version: string, occurrence: string)
    requires forall m :: 0 <= m < |occurrences| ==> occurrences[m].id != occurrence
    ensures RevisionPositions(WithRevisions(rows, occurrences, version), occurrence) == RevisionPositions(rows, occurrence)
  {
    if occurrences != [] {
      var n := |occurrences| - 1;
      var before := WithRevisions(rows, occurrences[..n], version);
      BlocksBelongToEarlier(rows, occurrences[..n], version, occurrence);
      OthersChangeNothing(before, Block(before, occurrences[n].id), occurrence);
    }
  }

  /** Every occurrence of the version gets the seven samples at consecutive positions right
      above all the rows it had. */
  lemma {:induction false} EveryOccurrenceGetsItsSamples(rows: seq<Revision>, occurrences: seq<Occurrence>, version: string, m: nat)
    requires DistinctIds(occurrences) && m < |occurrences| && occurrences[m].version == version
    ensures GetsBlock(WithRevisions(rows, occurrences, version), |rows|, occurrences[m].id,
                      NextPosition(RevisionPositions(rows, occurrences[m].id)))
  {
    var n := |occurrences| - 1;
    var init := occurrences[..n];
    var before := WithRevisions(rows, init, version);
    var first := NextPosition(RevisionPositions(rows, occurrences[m].id));
    ExistingRevisionsStay(rows, init, version);
    if m < n {
      EveryOccurrenceGetsItsSamples(rows, init, version, m);
      var at :| |rows| <= at < |before| && HasBlock(before, at, occurrences[m].id, first);
      assert HasBlock(WithRevisions(rows, occurrences, version), at, occurrences[m].id, first);
    } else {
      BlocksBelongToEarlier(rows, init, version, occurrences[n].id);
      assert HasBlock(WithRevisions(rows, occurrences, version), |before|, occurrences[n].id, first);
    }
  }

  /** A sample revision belongs to its occurrence, and comes from the template's communication
      of the same trigger; its ids carry the stripped id of the occurrence. */
  predicate IsLinked(r: Revision, c: Communication, occurrence: string, trigger: string) {
    && r.occurrence == occurrence && r.trigger == trigger && c.trigger == trigger && r.source == c.id
    && c.id == "seed_event_communication_" + trigger
    && r.id == "seed_event_communication_revision_" + (Stripped(occurrence) + "_" + trigger)
    && r.logicalId == "seed_event_communication_" + (Stripped(occurrence) + "_" + trigger)
  }

  predicate LinkedBlock(after: seq<Revision>, at: nat, samples: seq<Communication>, occurrence: string) {
    && |samples| == SAMPLES && at + SAMPLES <= |after|
    && forall k :: 0 <= k < SAMPLES ==> IsLinked(after[at + k], samples[k], occurrence, TRIGGERS[k])
  }

  /** Each occurrence of the version gets, in order, one revision for each trigger, of the
      communication the template version gets for that trigger. */
  lemma SamplesAreLinked(communications: seq<Communication>, items: seq<Item>, rows: seq<Revision>, occurrences: seq<Occurrence>,
                         version: string, m: nat)
    requires DistinctIds(occurrences) && m < |occurrences| && occurrences[m].version == version
    ensures var added := WithCommunications(communications, items, version)[|communications|..];
      exists at :: |rows| <= at && LinkedBlock(WithRevisions(rows, occurrences, version), at, added, occurrences[m].id)
  {
    EveryOccurrenceGetsItsSamples(rows, occurrences, version, m);
    var after := WithRevisions(rows, occurrences, version);
    var first := NextPosition(RevisionPositions(rows, occurrences[m].id));
    var at :| |rows| <= at < |after| && HasBlock(after, at, occurrences[m].id, first);
    var start := NextPosition(CommunicationPositions(communications, version) + ItemPositions(items, version));
    var added := WithCommunications(communications, items, version)[|communications|..];
    forall k | 0 <= k < SAMPLES ensures IsLinked(after[at + k], added[k], occurrences[m].id, TRIGGERS[k]) {
      assert added[k] == SampleCommunication(version, start, k);
      SampleIsLinked(version, occurrences[m].id, start, first, k);
    }
    assert LinkedBlock(after, at, added, occurrences[m].id);
  }

  lemma SampleIsLinked(version: string, occurrence: string, start: int, first: int, k: nat)
    requires k < SAMPLES
    ensures IsLinked(SampleRevision(occurrence, first, k), SampleCommunication(version, start, k), occurrence, TRIGGERS[k])
  {
  }

  /** Nothing is added but seven rows for each occurrence of the version. */
  lemma {:induction false} OnlyItsOccurrencesGetSamples(rows: seq<Revision>, occurrences: seq<Occurrence>, version: string)
    ensures |WithRevisions(rows, occurrences, version)| == |rows| + |TRIGGERS| * CountOf(occurrences, version)
  {
    if occurrences != [] { OnlyItsOccurrencesGetSamples(rows, occurrences[..|occurrences| - 1], version); }
  }

  function CountOf(occurrences: seq<Occurrence>, version: string): nat {
    if occurrences == [] then 0
    else CountOf(occurrences[..|occurrences| - 1], version) + if occurrences[|occurrences| - 1].version == version then 1 else 0
  }

  // ----- generated ids -----

  predicate OccursAt(s: string, prefix: string, i: nat) {
    i + |prefix| <= |s| && s[i..i + |prefix|] == prefix
  }

  lemma WithoutFirst(s: string, prefix: string)
    requires prefix != "" && s != "" && !OccursAt(s, prefix, 0)
    ensures Without(s, prefix) == [s[0]] + Without(s[1..], prefix)
  {
    OccursBehindFirst(s, prefix, 0);
  }

  /** What is left behind the first occurrence, at `i` if that is not the end. */
  function Behind(s: string, prefix: string, i: nat): string
    requires prefix != "" && (i < |s| ==> OccursAt(s, prefix, i))
  {
    if i >= |s| then "" else Without(s[i + |prefix|..], prefix)
  }

  /** Up to the first occurrence of the prefix an id is kept, and so on behind it. */
  lemma {:induction false} WithoutUpTo(s: string, prefix: string, i: nat)
    requires prefix != "" && i <= |s| && forall j :: 0 <= j < i ==> !OccursAt(s, prefix, j)
    requires i < |s| ==> OccursAt(s, prefix, i)
    ensures Without(s, prefix) == s[..i] + Behind(s, prefix, i)
    decreases |s|
  {
    if i > 0 {
      NoneInRest(s, prefix, i);
      WithoutUpTo(s[1..], prefix, i - 1);
      WithoutFirst(s, prefix);
      BehindRest(s, prefix, i);
      Prepended(s, i, Behind(s, prefix, i));
    } else if s != "" {
      FirstIsCut(s, prefix);
    }
  }

  lemma NoneInRest(s: string, prefix: string, i: nat)
    requires prefix != "" && 0 < i <= |s| && forall j :: 0 <= j < i ==> !OccursAt(s, prefix, j)
    ensures forall j :: 0 <= j < i - 1 ==> !OccursAt(s[1..], prefix, j)
    ensures OccursAt(s, prefix, i) <==> OccursAt(s[1..], prefix, i - 1)
  {
    forall j | 0 <= j < i - 1 ensures !OccursAt(s[1..], prefix, j) {
      assert !OccursAt(s, prefix, j + 1);
      OccursBehindFirst(s, prefix, j);
    }
    OccursBehindFirst(s, prefix, i - 1);
  }

  lemma BehindRest(s: string, prefix: string, i: nat)
    requires prefix != "" && 0 < i <= |s| && (i < |s| ==> OccursAt(s, prefix, i) && OccursAt(s[1..], prefix, i - 1))
    ensures Behind(s[1..], prefix, i - 1) == Behind(s, prefix, i)
  {
    OccursBehindFirst(s, prefix, i - 1);
  }

  lemma Prepended(s: string, i: nat, tail: string)
    requires 0 < i <= |s|
    ensures [s[0]] + (s[1..][..i - 1] + tail) == s[..i] + tail
  {
  }

  lemma FirstIsCut(s: string, prefix: string)
    requires prefix != "" && OccursAt(s, prefix, 0)
    ensures Without(s, prefix) == Without(s[|prefix|..], prefix) == s[..0] + Behind(s, prefix, 0)
  {
    assert s[0..0 + |prefix|] == s[..|prefix|];
  }

  lemma OccursBehindFirst(s: string, prefix: string, j: nat)
    requires s != "" && prefix != ""
    ensures OccursAt(s[1..], prefix, j) <==> OccursAt(s, prefix, j + 1)
    ensures OccursAt(s, prefix, j + 1) ==> s[1..][j + |prefix|..] == s[j + 1 + |prefix|..]
    ensures !OccursAt(s, prefix, 0) ==> !(prefix <= s)
  {
    if j + |prefix| <= |s[1..]| { assert s[1..][j..j + |prefix|] == s[j + 1..j + 1 + |prefix|]; }
    if prefix <= s { assert s[0..0 + |prefix|] == s[..|prefix|]; }
  }

  /** The ids of occurrences lose their prefix wherever it occurs, and nothing else. */
  lemma StrippedUpTo(s: string, i: nat)
    requires i <= |s| && forall j :: 0 <= j < i ==> !OccursAt(s, PREFIX, j)
    requires i < |s| ==> OccursAt(s, PREFIX, i)
    ensures Stripped(s) == s[..i] + if i == |s| then "" else Stripped(s[i + |PREFIX|..])
  {
    WithoutUpTo(s, PREFIX, i);
  }

  predicate Generated(r: Revision, occurrences: seq<Occurrence>) {
    exists m, k :: 0 <= m < |occurrences| && 0 <= k < SAMPLES && IsSample(r, occurrences[m].id, k)
  }

  predicate IsSample(r: Revision, occurrence: string, k: nat)
    requires k < SAMPLES
  {
    r.id == RevisionId(occurrence, k) && r.logicalId == LogicalId(occurrence, k)
  }

  lemma {:induction false} AddedAreGenerated(rows: seq<Revision>, occurrences: seq<Occurrence>, version: string, i: nat)
    requires |rows| <= i < |WithRevisions(rows, occurrences, version)|
    ensures Generated(WithRevisions(rows, occurrences, version)[i], occurrences)
  {
    var n := |occurrences| - 1;
    var before := WithRevisions(rows, occurrences[..n], version);
    var r := WithRevisions(rows, occurrences, version)[i];
    if i < |before| {
      AddedAreGenerated(rows, occurrences[..n], version, i);
      var m, k :| 0 <= m < n && 0 <= k < SAMPLES && IsSample(r, occurrences[..n][m].id, k);
      assert IsSample(r, occurrences[m].id, k);
    } else {
      assert IsSample(r, occurrences[n].id, i - |before|);
    }
  }

  /** Equal ids mean the same stripped occurrence and the same trigger. */
  lemma SameIdSameSample(o: string, j: nat, p: string, k: nat)
    requires j < SAMPLES && k < SAMPLES && (RevisionId(o, j) == RevisionId(p, k) || LogicalId(o, j) == LogicalId(p, k))
    ensures Stripped(o) == Stripped(p) && j == k
  {
    var x, y := Stripped(o) + "_" + Trigger(j), Stripped(p) + "_" + Trigger(k);
    SamePrefix("seed_event_communication_revision_", x, y);
    SamePrefix("seed_event_communication_", x, y);
    SamplePartsAreRecovered(Stripped(o), j, Stripped(p), k);
  }

  lemma SamePrefix(prefix: string, x: string, y: string)
    ensures prefix + x == prefix + y ==> x == y
  {
    assert (prefix + x)[|prefix|..] == x && (prefix + y)[|prefix|..] == y;
  }

  /** What two rows of a table may not share. */
  predicate Clash(r: Revision, q: Revision) {
    r.id == q.id || r.logicalId == q.logicalId
  }

  ghost predicate DistinctOccurrences(occurrences: seq<Occurrence>) {
    forall i, j :: 0 <= i < j < |occurrences| ==> Stripped(occurrences[i].id) != Stripped(occurrences[j].id)
  }

  lemma LaterBlockIsNew(rows: seq<Revision>, occurrences: seq<Occurrence>, version: string, i: nat, q: Revision, k: nat)
    requires occurrences != [] && DistinctOccurrences(occurrences) && k < SAMPLES
    requires var n := |occurrences| - 1;
      |rows| <= i < |WithRevisions(rows, occurrences[..n], version)| && IsSample(q, occurrences[n].id, k)
    ensures !Clash(WithRevisions(rows, occurrences[..|occurrences| - 1], version)[i], q)
  {
    var n := |occurrences| - 1;
    var r := WithRevisions(rows, occurrences[..n], version)[i];
    AddedAreGenerated(rows, occurrences[..n], version, i);
    var m, j :| 0 <= m < n && 0 <= j < SAMPLES && IsSample(r, occurrences[..n][m].id, j);
    if Clash(r, q) { SameIdSameSample(occurrences[m].id, j, occurrences[n].id, k); }
  }

  lemma BlockIdsDiffer(occurrence: string, r: Revision, j: nat, q: Revision, k: nat)
    requires j < k < SAMPLES && IsSample(r, occurrence, j) && IsSample(q, occurrence, k)
    ensures !Clash(r, q)
  {
    if Clash(r, q) { SameIdSameSample(occurrence, j, occurrence, k); }
  }

  /** The ids and logical ids of the added revisions are pairwise distinct whenever the
      occurrences' ids are, stripped of their prefix. */
  lemma {:induction false} AddedIdsAreDistinct(rows: seq<Revision>, occurrences: seq<Occurrence>, version: string, i: nat, j: nat)
    requires DistinctOccurrences(occurrences)
    requires |rows| <= i < j < |WithRevisions(rows, occurrences, version)|
    ensures var after := WithRevisions(rows, occurrences, version);
      after[i].id != after[j].id && after[i].logicalId != after[j].logicalId
  {
    var n := |occurrences| - 1;
    var before := WithRevisions(rows, occurrences[..n], version);
    var after := WithRevisions(rows, occurrences, version);
    ExistingRevisionsStay(rows, occurrences[..n], version);
    if j < |before| {
      AddedIdsAreDistinct(rows, occurrences[..n], version, i, j);
    } else {
      assert IsSample(after[j], occurrences[n].id, j - |before|);
      if i < |before| {
        LaterBlockIsNew(rows, occurrences, version, i, after[j], j - |before|);
      } else {
        BlockIdsDiffer(occurrences[n].id, after[i], i - |before|, after[j], j - |before|);
      }
    }
  }

  // ----- the fixture as the seeder updates it -----

  class SampleFixture {
    var communications: seq<Communication>
    var items: seq<Item>
    var occurrences: seq<Occurrence>
    var revisions: seq<Revision>

    constructor (communications: seq<Communication>, items: seq<Item>, occurrences: seq<Occurrence>, revisions: seq<Revision>)
      ensures this.communications == communications && this.items == items
      ensures this.occurrences == occurrences && this.revisions == revisions
    {
      this.communications, this.items, this.occurrences, this.revisions := communications, items, occurrences, revisions;
    }

    method AddSamples(version: string)
      modifies this`communications, this`revisions
      ensures communications == WithCommunications(old(communications), items, version)
      ensures revisions == WithRevisions(old(revisions), occurrences, version)
    {
      var first := NextPosition(CommunicationPositions(communications, version) + ItemPositions(items, version));
      for k := 0 to SAMPLES
        invariant revisions == old(revisions)
        invariant communications == old(communications)
          + seq(k, i requires 0 <= i < k => SampleCommunication(version, first, i))
      {
        communications := communications + [SampleCommunication(version, first, k)];
      }
      for m := 0 to |occurrences|
        invariant communications == WithCommunications(old(communications), items, version)
        invariant revisions == WithRevisions(old(revisions), occurrences[..m], version)
      {
        assert occurrences[..m + 1][..m] == occurrences[..m];
        if occurrences[m].version != version { continue; }
        AddRevisions(occurrences[m].id);
      }
      assert occurrences[..|occurrences|] == occurrences;
    }

    method AddRevisions(occurrence: string)
      modifies this`revisions
      ensures revisions == old(revisions) + Block(old(revisions), occurrence)
    {
      var first := NextPosition(RevisionPositions(revisions, occurrence));
      for k := 0 to SAMPLES
        invariant revisions == old(revisions) + seq(k, i requires 0 <= i < k => SampleRevision(occurrence, first, i))
      {
        revisions := revisions + [SampleRevision(occurrence, first, k)];
      }
    }
  }
}
