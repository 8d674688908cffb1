/**
 Identifiers the seeder generates: access-code lookup ids in base 31, public references
 with a base-36 suffix, and the bounded retry that keeps issued ids distinct.
 */
module LookupIds {
  import opened Prelude

  const ALPHABET := "23456789ABCDEFGHJKMNPQRSTUVWXYZ"
  const BASE36 := "0123456789abcdefghijklmnopqrstuvwxyz"

  // ----- positional notation -----

  function Digits(n: nat, base: nat): seq<nat>
    requires base >= 2
  {
    if n == 0 then [] else Digits(n / base, base) + [n % base]
  }

  function Value(ds: seq<nat>, base: nat): nat {
    if ds == [] then 0 else Value(ds[..|ds| - 1], base) * base + ds[|ds| - 1]
  }

  function Pow(base: nat, k: nat): nat {
    if k == 0 then 1 else base * Pow(base, k - 1)
  }

  function Pad(ds: seq<nat>, k: nat): seq<nat> {
    if |ds| < k then seq(k - |ds|, _ => 0) + ds else ds
  }

  predicate Valid(ds: seq<nat>, base: nat) {
    forall i :: 0 <= i < |ds| ==> ds[i] < base
  }

  lemma ValueAppend(ds: seq<nat>, r: nat, base: nat)
    ensures Value(ds + [r], base) == Value(ds, base) * base + r
  {
    assert (ds + [r])[..|ds|] == ds;
  }

  lemma DivMod(n: nat, base: nat)
    requires base >= 2
    ensures n == (n / base) * base + n % base && n % base < base
  {
  }

  lemma AtLeastTwice(q: nat, base: nat)
    requires base >= 2
    ensures 2 * q <= q * base
  {
  }

  lemma DivSmaller(n: nat, base: nat)
    requires base >= 2 && n > 0
    ensures n / base < n && n % base < base
  {
    DivMod(n, base);
    AtLeastTwice(n / base, base);
  }

  lemma {:induction false} DigitsValid(n: nat, base: nat)
    requires base >= 2
    ensures Valid(Digits(n, base), base)
  {
    if n > 0 {
      DivSmaller(n, base);
      DigitsValid(n / base, base);
    }
  }

  lemma LastDigit(n: nat, base: nat)
    requires base >= 2 && n > 0 && Value(Digits(n / base, base), base) == n / base
    ensures Value(Digits(n, base), base) == n
  {
    ValueAppend(Digits(n / base, base), n % base, base);
    DivMod(n, base);
  }

  /** Reading the digits of a number gives the number back. */
  lemma {:induction false} DigitsValue(n: nat, base: nat)
    requires base >= 2
    ensures Value(Digits(n, base), base) == n
  {
    if n > 0 {
      DivSmaller(n, base);
      DigitsValue(n / base, base);
      LastDigit(n, base);
    }
  }

  lemma ZerosValue(k: nat, base: nat)
    ensures Value(seq(k, _ => 0), base) == 0
  {
    if k > 0 {
      assert seq(k, _ => 0)[..k - 1] == seq(k - 1, _ => 0);
      ZerosValue(k - 1, base);
    }
  }

  lemma {:induction false} LeadingZeros(k: nat, ds: seq<nat>, base: nat)
    ensures Value(seq(k, _ => 0) + ds, base) == Value(ds, base)
  {
    var zs := seq(k, _ => 0);
    if ds == [] {
      assert zs + ds == zs;
      ZerosValue(k, base);
    } else {
      var n := |ds| - 1;
      assert (zs + ds)[..|zs + ds| - 1] == zs + ds[..n];
      LeadingZeros(k, ds[..n], base);
    }
  }

  lemma PadValue(n: nat, k: nat, base: nat)
    requires base >= 2
    ensures var ds := Pad(Digits(n, base), k); Value(ds, base) == n && Valid(ds, base) && |ds| >= k
  {
    DigitsValue(n, base);
    DigitsValid(n, base);
    if |Digits(n, base)| < k { LeadingZeros(k - |Digits(n, base)|, Digits(n, base), base); }
  }

  lemma DivisionBelow(n: nat, base: nat, p: nat)
    requires base >= 2
    ensures n / base < p <==> n < base * p
  {
    var q, r := n / base, n % base;
    assert n == base * q + r;
    if q < p {
      assert base * (q + 1) <= base * p;
    } else {
      assert base * p <= base * q;
    }
  }

  /** A number has at most k digits exactly when it is below the k-th power of the base. */
  lemma {:induction false} LengthIff(n: nat, base: nat, k: nat)
    requires base >= 2
    ensures |Digits(n, base)| <= k <==> n < Pow(base, k)
  {
    if n == 0 {
      PowPositive(base, k);
    } else if k > 0 {
      LengthIff(n / base, base, k - 1);
      DivisionBelow(n, base, Pow(base, k - 1));
    }
  }

  lemma {:induction false} PowPositive(base: nat, k: nat)
    requires base >= 1
    ensures Pow(base, k) >= 1
  {
    if k > 0 { PowPositive(base, k - 1); }
  }

  // ----- order -----

  /** The sequences agree up to `k`, where the first is smaller. */
  predicate LessAt(a: seq<nat>, b: seq<nat>, k: nat) {
    k < |a| && k < |b| && a[..k] == b[..k] && a[k] < b[k]
  }

  lemma LessAtExtends(a: seq<nat>, b: seq<nat>, n: nat, k: nat)
    requires n <= |a| && n <= |b| && LessAt(a[..n], b[..n], k)
    ensures LessAt(a, b, k)
  {
    assert a[..k] == a[..n][..k] && b[..k] == b[..n][..k];
  }

  lemma {:induction false} OrderIsLexicographic(a: seq<nat>, b: seq<nat>, base: nat)
    requires |a| == |b| && Valid(a, base) && Valid(b, base) && Value(a, base) < Value(b, base)
    ensures exists k :: LessAt(a, b, k)
  {
    var n := |a| - 1;
    QuotientsOrdered(Value(a[..n], base), a[n], Value(b[..n], base), b[n], base);
    if Value(a[..n], base) < Value(b[..n], base) {
      OrderIsLexicographic(a[..n], b[..n], base);
      var k :| LessAt(a[..n], b[..n], k);
      LessAtExtends(a, b, n, k);
    } else {
      SameValueSameDigits(a[..n], b[..n], base);
      assert LessAt(a, b, n);
    }
  }

  lemma {:induction false} SameValueSameDigits(a: seq<nat>, b: seq<nat>, base: nat)
    requires |a| == |b| && Valid(a, base) && Valid(b, base) && Value(a, base) == Value(b, base)
    ensures a == b
  {
    if a != [] {
      var n := |a| - 1;
      var x, y := Value(a[..n], base), Value(b[..n], base);
      QuotientsAgree(x, a[n], y, b[n], base);
      SameValueSameDigits(a[..n], b[..n], base);
      assert a == a[..n] + [a[n]] && b == b[..n] + [b[n]];
    }
  }

  lemma QuotientsOrdered(x: nat, d: nat, y: nat, e: nat, base: nat)
    requires d < base && e < base && x * base + d < y * base + e
    ensures x < y || (x == y && d < e)
  {
    QuotientGap(y, e, x, base);
  }

  lemma QuotientsAgree(x: nat, d: nat, y: nat, e: nat, base: nat)
    requires d < base && e < base && x * base + d == y * base + e
    ensures x == y && d == e
  {
    QuotientGap(x, d, y, base);
    QuotientGap(y, e, x, base);
  }

  // ----- characters -----

  function Encode(ds: seq<nat>, alphabet: string): string
    requires Valid(ds, |alphabet|)
  {
    seq(|ds|, i requires 0 <= i < |ds| => alphabet[ds[i]])
  }

  ghost predicate Ascending(alphabet: string) {
    forall i, j :: 0 <= i < j < |alphabet| ==> alphabet[i] < alphabet[j]
  }

  lemma LookupAlphabetAscends()
    ensures |ALPHABET| == 31 && Ascending(ALPHABET) && ALPHABET[0] == '2'
  {
  }

  lemma Base36Ascends()
    ensures |BASE36| == 36 && Ascending(BASE36) && BASE36[0] == '0'
  {
  }

  lemma EncodeInjective(a: seq<nat>, b: seq<nat>, alphabet: string)
    requires Ascending(alphabet) && Valid(a, |alphabet|) && Valid(b, |alphabet|)
    requires Encode(a, alphabet) == Encode(b, alphabet)
    ensures a == b
  {
    assert |a| == |Encode(a, alphabet)| == |b|;
    forall i | 0 <= i < |a| ensures a[i] == b[i] {
      assert Encode(a, alphabet)[i] == alphabet[a[i]] && Encode(b, alphabet)[i] == alphabet[b[i]];
    }
  }

  // ----- access-code lookup ids -----

  const ID_LENGTH := 10

  /** The lookup id of the code at an index of the fixture. */
  function LookupId(index: nat): (id: string)
    ensures |id| >= ID_LENGTH
  {
    LookupAlphabetAscends();
    PadValue(index + 1, ID_LENGTH, 31);
    Encode(Pad(Digits(index + 1, 31), ID_LENGTH), ALPHABET)
  }

  /** Reads a lookup id back. */
  ghost predicate Denotes(id: string, n: nat) {
    exists ds :: Valid(ds, 31) && |ALPHABET| == 31 && id == Encode(ds, ALPHABET) && Value(ds, 31) == n
  }

  lemma LookupIdDenotesItsIndex(index: nat)
    ensures Denotes(LookupId(index), index + 1)
  {
    LookupAlphabetAscends();
    PadValue(index + 1, ID_LENGTH, 31);
    assert LookupId(index) == Encode(Pad(Digits(index + 1, 31), ID_LENGTH), ALPHABET);
  }

  /** Reading back is unambiguous, so the ids of different indexes differ, at any index. */
  lemma LookupIdsDiffer(i: nat, j: nat)
    requires LookupId(i) == LookupId(j)
    ensures i == j
  {
    LookupAlphabetAscends();
    PadValue(i + 1, ID_LENGTH, 31);
    PadValue(j + 1, ID_LENGTH, 31);
    EncodeInjective(Pad(Digits(i + 1, 31), ID_LENGTH), Pad(Digits(j + 1, 31), ID_LENGTH), ALPHABET);
  }

  lemma LookupIdLength(index: nat)
    ensures |LookupId(index)| == ID_LENGTH <==> index + 1 < Pow(31, ID_LENGTH)
  {
    LengthIff(index + 1, 31, ID_LENGTH);
  }

  predicate StringLessAt(a: string, b: string, k: nat) {
    k < |a| && k < |b| && a[..k] == b[..k] && a[k] < b[k]
  }

  lemma EncodeOrdered(a: seq<nat>, b: seq<nat>, alphabet: string, k: nat)
    requires Ascending(alphabet) && Valid(a, |alphabet|) && Valid(b, |alphabet|) && LessAt(a, b, k)
    ensures StringLessAt(Encode(a, alphabet), Encode(b, alphabet), k)
  {
    var x, y := Encode(a, alphabet), Encode(b, alphabet);
    forall i | 0 <= i < k ensures x[i] == y[i] {
      assert a[..k][i] == a[i] && b[..k][i] == b[i];
    }
    assert x[..k] == y[..k];
  }

  /** As long as ids keep to ten characters, they sort as their indexes do. */
  lemma LookupIdsAscend(i: nat, j: nat)
    requires i < j && j + 1 < Pow(31, ID_LENGTH)
    ensures exists k :: StringLessAt(LookupId(i), LookupId(j), k)
  {
    LookupAlphabetAscends();
    LookupIdLength(i);
    LookupIdLength(j);
    PadValue(i + 1, ID_LENGTH, 31);
    PadValue(j + 1, ID_LENGTH, 31);
    var a, b := Pad(Digits(i + 1, 31), ID_LENGTH), Pad(Digits(j + 1, 31), ID_LENGTH);
    OrderIsLexicographic(a, b, 31);
    var k :| LessAt(a, b, k);
    EncodeOrdered(a, b, ALPHABET, k);
  }

  function PadStart(s: string, k: nat, c: char): string {
    if |s| < k then seq(k - |s|, _ => c) + s else s
  }

  lemma EncodePadded(ds: seq<nat>, k: nat, alphabet: string)
    requires Valid(ds, |alphabet|) && alphabet != ""
    ensures Valid(Pad(ds, k), |alphabet|) && Encode(Pad(ds, k), alphabet) == PadStart(Encode(ds, alphabet), k, alphabet[0])
  {
  }

  lemma WriteStep(n: nat, base: nat, written: seq<nat>)
    requires base >= 2 && n > 0
    ensures Digits(n, base) + written == Digits(n / base, base) + ([n % base] + written)
  {
  }

  lemma EncodeCons(d: nat, written: seq<nat>, alphabet: string)
    requires d < |alphabet| && Valid(written, |alphabet|)
    ensures Valid([d] + written, |alphabet|)
    ensures Encode([d] + written, alphabet) == [alphabet[d]] + Encode(written, alphabet)
  {
  }

  /** Writes a number from its last character backwards. */
  method Write(n: nat, alphabet: string) returns (value: string)
    requires |alphabet| == 31
    ensures Valid(Digits(n, 31), 31) && value == Encode(Digits(n, 31), alphabet)
  {
    DigitsValid(n, 31);
    var remaining: nat := n;
    value := "";
    ghost var written: seq<nat> := [];
    assert Digits(n, 31) + [] == Digits(n, 31);
    while remaining > 0
      invariant Digits(n, 31) == Digits(remaining, 31) + written
      invariant Valid(written, 31) && value == Encode(written, alphabet)
    {
      WriteStep(remaining, 31, written);
      EncodeCons(remaining % 31, written, alphabet);
      value := [alphabet[remaining % |alphabet|]] + value;
      written := [remaining % 31] + written;
      remaining := remaining / |alphabet|;
    }
    assert [] + written == written;
  }

  method AccessCodeLookupId(index: nat) returns (id: string)
    ensures id == LookupId(index)
  {
    LookupAlphabetAscends();
    var value := Write(index + 1, ALPHABET);
    EncodePadded(Digits(index + 1, 31), ID_LENGTH, ALPHABET);
    id := PadStart(value, ID_LENGTH, '2');
  }

  // ----- public references -----

  /** `toString(36)`; zero is written as one digit. */
  function Base36(n: nat): seq<nat> {
    if n == 0 then [0] else Digits(n, 36)
  }

  lemma Base36Value(n: nat)
    ensures Value(Pad(Base36(n), 5), 36) == n && Valid(Pad(Base36(n), 5), 36)
  {
    if n == 0 {
      assert Base36(0) == seq(1, _ => 0);
      assert Pad(Base36(0), 5) == seq(5, _ => 0);
      ZerosValue(5, 36);
    } else {
      PadValue(n, 5, 36);
    }
  }

  /** Random characters, then the index in base 36. */
  function PublicReference(random: string, index: nat): string
    requires |random| >= 27
  {
    Base36Ascends();
    Base36Value(index);
    random[..27] + Encode(Pad(Base36(index), 5), BASE36)
  }

  /** The references of different indexes differ whatever the random characters are. */
  lemma PublicReferencesDiffer(r: string, i: nat, s: string, j: nat)
    requires |r| >= 27 && |s| >= 27 && PublicReference(r, i) == PublicReference(s, j)
    ensures i == j
  {
    Base36Ascends();
    Base36Value(i);
    Base36Value(j);
    var a, b := Encode(Pad(Base36(i), 5), BASE36), Encode(Pad(Base36(j), 5), BASE36);
    assert PublicReference(r, i)[27..] == a && PublicReference(s, j)[27..] == b;
    EncodeInjective(Pad(Base36(i), 5), Pad(Base36(j), 5), BASE36);
  }

  // ----- the bounded retry -----

  const ATTEMPTS := 20

  /** The first draw that yields an id not yet used. */
  function FirstUnused(draws: seq<Option<string>>, used: set<string>): Option<string> {
    if draws == [] then None
    else if draws[0].Some? && draws[0].value !in used then draws[0]
    else FirstUnused(draws[1..], used)
  }

  /** What the rows are given: one id each, or nothing once a row's draws run out. */
  function Assigned(draws: seq<seq<Option<string>>>, used: set<string>): Option<seq<string>>
    decreases |draws|
  {
    if draws == [] then Some([])
    else var id := FirstUnused(draws[0], used);
         if id.None? then None
         else var rest := Assigned(draws[1..], used + {id.value});
              if rest.None? then None else Some([id.value] + rest.value)
  }

  ghost predicate Distinct(ids: seq<string>) {
    forall i, j :: 0 <= i < j < |ids| ==> ids[i] != ids[j]
  }

  lemma {:induction false} FirstUnusedIsDrawn(draws: seq<Option<string>>, used: set<string>)
    ensures var id := FirstUnused(draws, used);
      && (id.Some? ==> id in draws && id.value !in used)
      && (id.None? <==> forall i :: 0 <= i < |draws| ==> draws[i].None? || draws[i].value in used)
  {
    if draws != [] {
      FirstUnusedIsDrawn(draws[1..], used);
      assert draws == [draws[0]] + draws[1..];
    }
  }

  /** Ids assigned in a row are new and pairwise distinct, one for each row, from its draws. */
  lemma {:induction false} AssignedAreDistinct(draws: seq<seq<Option<string>>>, used: set<string>)
    requires Assigned(draws, used).Some?
    ensures var ids := Assigned(draws, used).value;
      && |ids| == |draws| && Distinct(ids)
      && forall i :: 0 <= i < |ids| ==> ids[i] !in used && Some(ids[i]) in draws[i]
    decreases |draws|
  {
    if draws != [] {
      var id := FirstUnused(draws[0], used);
      FirstUnusedIsDrawn(draws[0], used);
      AssignedAreDistinct(draws[1..], used + {id.value});
    }
  }

  function SetOf(ids: seq<string>): set<string> {
    set s | s in ids
  }

  /** Every row before has an id, and this one's draws are all missing or used. */
  predicate StuckAt(draws: seq<seq<Option<string>>>, used: set<string>, r: nat)
    requires r < |draws|
  {
    && Assigned(draws[..r], used).Some?
    && FirstUnused(draws[r], used + SetOf(Assigned(draws[..r], used).value)).None?
  }

  lemma FirstRowStuck(draws: seq<seq<Option<string>>>, used: set<string>)
    requires draws != []
    ensures StuckAt(draws, used, 0) <==> FirstUnused(draws[0], used).None?
  {
    assert draws[..0] == [] && used + SetOf([]) == used;
  }

  lemma LaterRowStuck(draws: seq<seq<Option<string>>>, used: set<string>, r: nat)
    requires 0 < r < |draws| && FirstUnused(draws[0], used).Some?
    ensures StuckAt(draws, used, r) <==> StuckAt(draws[1..], used + {FirstUnused(draws[0], used).value}, r - 1)
  {
    var id := FirstUnused(draws[0], used).value;
    assert draws[..r][1..] == draws[1..][..r - 1];
    var rest := Assigned(draws[1..][..r - 1], used + {id});
    if rest.Some? {
      assert Assigned(draws[..r], used).value == [id] + rest.value;
      assert used + SetOf([id] + rest.value) == used + {id} + SetOf(rest.value);
    }
  }

  /** No ids are assigned exactly when some row is stuck. */
  lemma {:induction false} AssignmentFailsIff(draws: seq<seq<Option<string>>>, used: set<string>)
    ensures Assigned(draws, used).None? <==> exists r :: 0 <= r < |draws| && StuckAt(draws, used, r)
    decreases |draws|
  {
    if draws != [] {
      FirstRowStuck(draws, used);
      if FirstUnused(draws[0], used).Some? {
        var used' := used + {FirstUnused(draws[0], used).value};
        AssignmentFailsIff(draws[1..], used');
        forall r | 0 < r < |draws| ensures StuckAt(draws, used, r) <==> StuckAt(draws[1..], used', r - 1) {
          LaterRowStuck(draws, used, r);
        }
        if r :| 0 <= r < |draws[1..]| && StuckAt(draws[1..], used', r) { assert StuckAt(draws, used, r + 1); }
      }
    }
  }

  /** All the lookup ids of a seeding are distinct: those of the grants, generated from their
      indexes, and those of the enterprise contracts, whatever the issuer draws. */
  lemma AllLookupIdsAreDistinct(grants: nat, draws: seq<seq<Option<string>>>)
    requires Assigned(draws, set i | 0 <= i < grants :: LookupId(i)).Some?
    ensures Distinct(seq(grants, i requires 0 <= i < grants => LookupId(i))
                     + Assigned(draws, set i | 0 <= i < grants :: LookupId(i)).value)
  {
    var used := set i | 0 <= i < grants :: LookupId(i);
    AssignedAreDistinct(draws, used);
    var own, issued := seq(grants, i requires 0 <= i < grants => LookupId(i)), Assigned(draws, used).value;
    forall i, j | 0 <= i < j < |own + issued| ensures (own + issued)[i] != (own + issued)[j] {
      if j < grants {
        if LookupId(i) == LookupId(j) { LookupIdsDiffer(i, j); }
      } else if i < grants {
        assert LookupId(i) in used;
      }
    }
  }

  function Prepended(ids: seq<string>, rest: Option<seq<string>>): Option<seq<string>> {
    if rest.None? then None else Some(ids + rest.value)
  }

  /** Issues an id for each enterprise contract code, trying each at most twenty times. */
  method IssueEnterpriseCodes(draws: seq<seq<Option<string>>>, taken: set<string>) returns (ids: Option<seq<string>>)
    requires forall r :: 0 <= r < |draws| ==> |draws[r]| == ATTEMPTS
    ensures ids == Assigned(draws, taken)
  {
    var used := taken;
    var issued: seq<string> := [];
    assert draws[0..] == draws;
    assert Assigned(draws, taken).Some? ==> [] + Assigned(draws, taken).value == Assigned(draws, taken).value;
    for r := 0 to |draws|
      invariant Assigned(draws, taken) == Prepended(issued, Assigned(draws[r..], used))
    {
      var found: Option<string> := None;
      var attempt := 0;
      while attempt < ATTEMPTS && found.None?
        invariant attempt <= ATTEMPTS
        invariant FirstUnused(draws[r], used) == if found.Some? then found else FirstUnused(draws[r][attempt..], used)
      {
        var draw := draws[r][attempt];
        assert draws[r][attempt..][1..] == draws[r][attempt + 1..];
        if draw.Some? && draw.value !in used { found := draw; }
        attempt := attempt + 1;
      }
      assert draws[r..][1..] == draws[r + 1..];
      if found.None? { return None; }
      ghost var rest := Assigned(draws[r + 1..], used + {found.value});
      assert rest.Some? ==> issued + ([found.value] + rest.value) == issued + [found.value] + rest.value;
      used := used + {found.value};
      issued := issued + [found.value];
    }
    assert draws[|draws|..] == [] && issued + [] == issued;
    ids := Some(issued);
  }
}
