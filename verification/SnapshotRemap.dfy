/**
 Letting snapshot rows refer to users the database already has.

 A fixture user whose email is stored under another id takes the stored id: the ids are
 replaced simultaneously wherever they occur as string values, at any depth of any row,
 and the users the database has are then dropped from the fixture.
 */
module SnapshotRemap {
  import opened Prelude

  datatype Field = Field(key: string, value: Json)

  datatype Json = Null | Bool(b: bool) | Number(n: int) | Str(s: string) | Arr(items: seq<Json>) | Obj(fields: seq<Field>)

  type Tables = map<string, seq<Json>>

  /** A user row the query found under an email of the fixture. */
  datatype Stored = Stored(id: string, email: string)

  // ----- simultaneous replacement -----

  function Image(m: map<string, string>, s: string): string {
    if s in m then m[s] else s
  }

  function ReplaceExact(v: Json, m: map<string, string>): Json {
    match v
    case Str(s) => Str(Image(m, s))
    case Arr(items) => Arr(seq(|items|, i requires 0 <= i < |items| => ReplaceExact(items[i], m)))
    case Obj(fields) =>
      Obj(seq(|fields|, i requires 0 <= i < |fields| => Field(fields[i].key, ReplaceExact(fields[i].value, m))))
    case _ => v
  }

  /** Whether the string occurs as a value, not as a key, at any depth. */
  predicate Mentions(v: Json, s: string) {
    match v
    case Str(t) => t == s
    case Arr(items) => exists i :: 0 <= i < |items| && Mentions(items[i], s)
    case Obj(fields) => exists i :: 0 <= i < |fields| && Mentions(fields[i].value, s)
    case _ => false
  }

  lemma {:induction false} MentionsMapped(v: Json, m: map<string, string>, t: string)
    requires Mentions(v, t)
    ensures Mentions(ReplaceExact(v, m), Image(m, t))
  {
    match v
    case Arr(items) =>
      var i :| 0 <= i < |items| && Mentions(items[i], t);
      MentionsMapped(items[i], m, t);
      assert Mentions(ReplaceExact(v, m).items[i], Image(m, t));
    case Obj(fields) =>
      var i :| 0 <= i < |fields| && Mentions(fields[i].value, t);
      MentionsMapped(fields[i].value, m, t);
      assert Mentions(ReplaceExact(v, m).fields[i].value, Image(m, t));
    case _ =>
  }

  lemma {:induction false} MentionedFromSource(v: Json, m: map<string, string>, s: string)
    requires Mentions(ReplaceExact(v, m), s)
    ensures exists t :: Mentions(v, t) && Image(m, t) == s
  {
    match v
    case Str(t) => assert Mentions(v, t);
    case Arr(items) =>
      var i :| 0 <= i < |items| && Mentions(ReplaceExact(items[i], m), s);
      MentionedFromSource(items[i], m, s);
      var t :| Mentions(items[i], t) && Image(m, t) == s;
      assert Mentions(v, t);
    case Obj(fields) =>
      var i :| 0 <= i < |fields| && Mentions(ReplaceExact(fields[i].value, m), s);
      MentionedFromSource(fields[i].value, m, s);
      var t :| Mentions(fields[i].value, t) && Image(m, t) == s;
      assert Mentions(v, t);
    case _ =>
  }

  /** What a value mentions after the replacement is exactly the image of what it mentioned,
      at every depth and all at once: no replacement is applied to another's result. */
  lemma MentionsAreImages(v: Json, m: map<string, string>, s: string)
    ensures Mentions(ReplaceExact(v, m), s) <==> exists t :: Mentions(v, t) && Image(m, t) == s
  {
    if Mentions(ReplaceExact(v, m), s) { MentionedFromSource(v, m, s); }
    if t :| Mentions(v, t) && Image(m, t) == s { MentionsMapped(v, m, t); }
  }

  /** A replaced string survives exactly where a string mentioned is replaced by it. */
  lemma ReplacedSurvivesIff(v: Json, m: map<string, string>, k: string)
    requires k in m
    ensures Mentions(ReplaceExact(v, m), k) <==> exists t :: t in m && m[t] == k && Mentions(v, t)
  {
    MentionsAreImages(v, m, k);
    if t :| Mentions(v, t) && Image(m, t) == k { assert t in m; }
    if t :| t in m && m[t] == k && Mentions(v, t) { assert Image(m, t) == k; }
  }

  // ----- what else survives the replacement -----

  function Children(v: Json): seq<Json> {
    match v
    case Arr(items) => items
    case Obj(fields) => seq(|fields|, i requires 0 <= i < |fields| => fields[i].value)
    case _ => []
  }

  /** The value at the end of a path of positions. */
  function At(v: Json, path: seq<nat>): Option<Json>
    decreases |path|
  {
    if path == [] then Some(v)
    else if path[0] < |Children(v)| then At(Children(v)[path[0]], path[1..])
    else None
  }

  /** A string may be replaced; everything else about a value, its kind, its keys in their
      order and its length, is the same. */
  predicate SameNode(a: Json, b: Json, m: map<string, string>) {
    match a
    case Str(s) => b.Str? && b.s == (if s in m then m[s] else s)
    case Arr(items) => b.Arr? && |b.items| == |items|
    case Obj(fields) => b.Obj? && |b.fields| == |fields| && forall i :: 0 <= i < |fields| ==> b.fields[i].key == fields[i].key
    case _ => b == a
  }

  ghost predicate Copied(a: Json, b: Json, m: map<string, string>) {
    forall path :: At(a, path).Some? == At(b, path).Some?
                   && (At(a, path).Some? ==> SameNode(At(a, path).value, At(b, path).value, m))
  }

  lemma {:induction false} CopiedAt(v: Json, m: map<string, string>, path: seq<nat>)
    ensures var after := ReplaceExact(v, m);
      && At(v, path).Some? == At(after, path).Some?
      && (At(v, path).Some? ==> SameNode(At(v, path).value, At(after, path).value, m))
    decreases |path|
  {
    if path != [] && path[0] < |Children(v)| {
      assert Children(ReplaceExact(v, m))[path[0]] == ReplaceExact(Children(v)[path[0]], m);
      CopiedAt(Children(v)[path[0]], m, path[1..]);
    }
  }

  /** The replacement leaves every value at its place, at every depth, and changes nothing but
      the strings that are replaced. */
  lemma OnlyStringsAreReplaced(v: Json, m: map<string, string>)
    ensures Copied(v, ReplaceExact(v, m), m)
  {
    forall path
      ensures At(v, path).Some? == At(ReplaceExact(v, m), path).Some?
      ensures At(v, path).Some? ==> SameNode(At(v, path).value, At(ReplaceExact(v, m), path).value, m)
    {
      CopiedAt(v, m, path);
    }
  }

  // ----- fields of a row -----

  function TextIn(fields: seq<Field>, key: string): Option<string> {
    if fields == [] then None
    else if fields[0].key == key then (if fields[0].value.Str? then Some(fields[0].value.s) else None)
    else TextIn(fields[1..], key)
  }

  function Text(row: Json, key: string): string {
    if row.Obj? && TextIn(row.fields, key).Some? then TextIn(row.fields, key).value else ""
  }

  predicate HasText(row: Json, key: string) {
    row.Obj? && TextIn(row.fields, key).Some?
  }

  lemma {:induction false} TextInReplaced(fields: seq<Field>, m: map<string, string>, key: string)
    ensures var after := seq(|fields|, i requires 0 <= i < |fields| => Field(fields[i].key, ReplaceExact(fields[i].value, m)));
      TextIn(after, key) == if TextIn(fields, key).Some? then Some(Image(m, TextIn(fields, key).value)) else None
  {
    if fields != [] {
      var after := seq(|fields|, i requires 0 <= i < |fields| => Field(fields[i].key, ReplaceExact(fields[i].value, m)));
      var rest := fields[1..];
      assert after[1..] == seq(|rest|, i requires 0 <= i < |rest| => Field(rest[i].key, ReplaceExact(rest[i].value, m)));
      TextInReplaced(rest, m, key);
    }
  }

  lemma TextReplaced(row: Json, m: map<string, string>, key: string)
    requires HasText(row, key)
    ensures HasText(ReplaceExact(row, m), key) && Text(ReplaceExact(row, m), key) == Image(m, Text(row, key))
  {
    TextInReplaced(row.fields, m, key);
  }

  // ----- the replacements -----

  function Users(tables: Tables): seq<Json> {
    if "user" in tables then tables["user"] else []
  }

  function Admins(tables: Tables): seq<Json> {
    if "platform_admin" in tables then tables["platform_admin"] else []
  }

  /** Fixture ids by email, the last row of an email winning. */
  function IdByEmail(users: seq<Json>, norm: string -> string): map<string, string> {
    if users == [] then map[]
    else var last := users[|users| - 1];
         IdByEmail(users[..|users| - 1], norm)[norm(Text(last, "email")) := Text(last, "id")]
  }

  /** An empty fixture id, or one that is stored already, is not replaced. */
  function Replacements(existing: seq<Stored>, byEmail: map<string, string>, norm: string -> string): map<string, string> {
    if existing == [] then map[]
    else var last := existing[|existing| - 1];
         var others := Replacements(existing[..|existing| - 1], byEmail, norm);
         if norm(last.email) in byEmail && byEmail[norm(last.email)] != "" && byEmail[norm(last.email)] != last.id
         then others[byEmail[norm(last.email)] := last.id] else others
  }

  function IdsOf(existing: seq<Stored>): set<string> {
    set e | e in existing :: e.id
  }

  function ReplaceRows(rows: seq<Json>, m: map<string, string>): seq<Json> {
    seq(|rows|, i requires 0 <= i < |rows| => ReplaceExact(rows[i], m))
  }

  function Without(rows: seq<Json>, key: string, ids: set<string>): seq<Json> {
    if rows == [] then []
    else (if Text(rows[0], key) in ids then [] else [rows[0]]) + Without(rows[1..], key, ids)
  }

  function Remapped(tables: Tables, existing: seq<Stored>, norm: string -> string): Tables {
    var m := Replacements(existing, IdByEmail(Users(tables), norm), norm);
    if m == map[] then tables
    else var replaced := map t | t in tables :: ReplaceRows(tables[t], m);
         replaced["user" := Without(Users(replaced), "id", IdsOf(existing))]
                 ["platform_admin" := Without(Admins(replaced), "userId", IdsOf(existing))]
  }

  // ----- what the query and the fixture guarantee -----

  predicate Typed(tables: Tables) {
    && (forall u :: u in Users(tables) ==> HasText(u, "id") && HasText(u, "email") && Text(u, "id") != "")
    && (forall a :: a in Admins(tables) ==> HasText(a, "userId"))
  }

  /** Every stored row was found under the email of some fixture user. */
  predicate Matched(existing: seq<Stored>, users: seq<Json>, norm: string -> string) {
    forall e :: e in existing ==> norm(e.email) in IdByEmail(users, norm)
  }

  lemma {:induction false} ByEmailIsAUser(users: seq<Json>, norm: string -> string, email: string)
    requires email in IdByEmail(users, norm)
    ensures exists u :: u in users && norm(Text(u, "email")) == email && Text(u, "id") == IdByEmail(users, norm)[email]
  {
    var last := users[|users| - 1];
    if norm(Text(last, "email")) == email {
      assert last in users;
    } else {
      ByEmailIsAUser(users[..|users| - 1], norm, email);
      var u :| u in users[..|users| - 1] && norm(Text(u, "email")) == email && Text(u, "id") == IdByEmail(users, norm)[email];
      assert u in users;
    }
  }

  lemma {:induction false} ReplacementsAreMatches(existing: seq<Stored>, byEmail: map<string, string>, norm: string -> string, k: string)
    requires k in Replacements(existing, byEmail, norm)
    ensures exists e :: e in existing && e.id == Replacements(existing, byEmail, norm)[k] && norm(e.email) in byEmail
                        && byEmail[norm(e.email)] == k && k != e.id
  {
    var last := existing[|existing| - 1];
    var init := existing[..|existing| - 1];
    if norm(last.email) in byEmail && byEmail[norm(last.email)] == k && k != "" && k != last.id {
      assert last in existing;
    } else {
      ReplacementsAreMatches(init, byEmail, norm, k);
      var e :| e in init && e.id == Replacements(init, byEmail, norm)[k] && norm(e.email) in byEmail
               && byEmail[norm(e.email)] == k && k != e.id;
      assert e in existing;
    }
  }

  lemma {:induction false} NoReplacementsMeansSame(existing: seq<Stored>, byEmail: map<string, string>, norm: string -> string, e: Stored)
    requires e in existing && norm(e.email) in byEmail && byEmail[norm(e.email)] != ""
    requires Replacements(existing, byEmail, norm) == map[]
    ensures byEmail[norm(e.email)] == e.id
  {
    var last := existing[|existing| - 1];
    var init := existing[..|existing| - 1];
    if norm(last.email) in byEmail { assert byEmail[norm(last.email)] !in Replacements(existing, byEmail, norm); }
    if e != last {
      assert e in init;
      NoReplacementsMeansSame(init, byEmail, norm, e);
    }
  }

  /** A replaced id belongs to a fixture user whose email is stored under the new id. */
  lemma ReplacementKeepsEmail(users: seq<Json>, existing: seq<Stored>, norm: string -> string, k: string)
    requires k in Replacements(existing, IdByEmail(users, norm), norm)
    ensures exists u, e :: u in users && e in existing && Text(u, "id") == k
                           && norm(Text(u, "email")) == norm(e.email)
                           && e.id == Replacements(existing, IdByEmail(users, norm), norm)[k]
  {
    ReplacementsAreMatches(existing, IdByEmail(users, norm), norm, k);
    var e :| e in existing && e.id == Replacements(existing, IdByEmail(users, norm), norm)[k]
             && norm(e.email) in IdByEmail(users, norm) && IdByEmail(users, norm)[norm(e.email)] == k && k != e.id;
    ByEmailIsAUser(users, norm, norm(e.email));
  }

  // ----- the remapped fixture -----

  lemma {:induction false} WithoutKeeps(rows: seq<Json>, key: string, ids: set<string>)
    ensures forall r :: r in Without(rows, key, ids) <==> r in rows && Text(r, key) !in ids
  {
    if rows != [] {
      WithoutKeeps(rows[1..], key, ids);
      assert rows == [rows[0]] + rows[1..];
    }
  }

  /** Every row left in a table is a row of it with its ids replaced. */
  lemma RemappedRows(tables: Tables, existing: seq<Stored>, norm: string -> string, t: string, row: Json)
    requires var m := Replacements(existing, IdByEmail(Users(tables), norm), norm); m != map[]
    requires t in Remapped(tables, existing, norm) && row in Remapped(tables, existing, norm)[t]
    ensures var m := Replacements(existing, IdByEmail(Users(tables), norm), norm);
      t in tables && exists before :: before in tables[t] && row == ReplaceExact(before, m)
  {
    var m := Replacements(existing, IdByEmail(Users(tables), norm), norm);
    var replaced := map t | t in tables :: ReplaceRows(tables[t], m);
    WithoutKeeps(Users(replaced), "id", IdsOf(existing));
    WithoutKeeps(Admins(replaced), "userId", IdsOf(existing));
    assert t in tables && row in ReplaceRows(tables[t], m);
    var i :| 0 <= i < |tables[t]| && row == ReplaceRows(tables[t], m)[i];
    assert tables[t][i] in tables[t];
  }

  /** Unless a stored id that was matched is itself a fixture id to be replaced, no replaced
      id is left anywhere in the fixture. */
  lemma NoReplacedIdIsLeft(tables: Tables, existing: seq<Stored>, norm: string -> string, k: string, t: string, row: Json)
    requires var m := Replacements(existing, IdByEmail(Users(tables), norm), norm);
      k in m && forall e :: e in existing ==> e.id !in m
    requires t in Remapped(tables, existing, norm) && row in Remapped(tables, existing, norm)[t]
    ensures !Mentions(row, k)
  {
    var m := Replacements(existing, IdByEmail(Users(tables), norm), norm);
    RemappedRows(tables, existing, norm, t, row);
    var before :| before in tables[t] && row == ReplaceExact(before, m);
    ReplacedSurvivesIff(before, m, k);
    if x :| x in m && m[x] == k && Mentions(before, x) {
      ReplacementsAreMatches(existing, IdByEmail(Users(tables), norm), norm, x);
    }
  }

  ghost predicate AllCopied(before: seq<Json>, after: seq<Json>, m: map<string, string>) {
    |after| == |before| && forall i :: 0 <= i < |before| ==> Copied(before[i], after[i], m)
  }

  /** `after` has, in their order, the rows of `before` at the positions `kept`. */
  ghost predicate KeptCopies(before: seq<Json>, after: seq<Json>, kept: seq<nat>, m: map<string, string>) {
    && |kept| == |after|
    && (forall j, k :: 0 <= j < k < |kept| ==> kept[j] < kept[k])
    && (forall j :: 0 <= j < |kept| ==> kept[j] < |before| && Copied(before[kept[j]], after[j], m))
  }

  /** The id a row ends up with. */
  function NewId(row: Json, key: string, m: map<string, string>): string {
    var id := Text(row, key); if id in m then m[id] else id
  }

  ghost predicate KeptUnlessStored(before: seq<Json>, after: seq<Json>, key: string, m: map<string, string>, ids: set<string>) {
    exists kept :: KeptCopies(before, after, kept, m)
                   && forall i :: 0 <= i < |before| ==> (i in kept <==> NewId(before[i], key, m) !in ids)
  }

  lemma {:induction false} WithoutIsExact(before: seq<Json>, key: string, m: map<string, string>, ids: set<string>) returns (kept: seq<nat>)
    requires forall r :: r in before ==> HasText(r, key)
    ensures var after := Without(ReplaceRows(before, m), key, ids);
      KeptCopies(before, after, kept, m)
      && forall i :: 0 <= i < |before| ==> (i in kept <==> NewId(before[i], key, m) !in ids)
  {
    if before == [] {
      kept := [];
    } else {
      var rest := before[1..];
      var later := WithoutIsExact(rest, key, m, ids);
      assert ReplaceRows(before, m)[1..] == ReplaceRows(rest, m);
      OnlyStringsAreReplaced(before[0], m);
      assert before[0] in before;
      TextReplaced(before[0], m, key);
      kept := (if NewId(before[0], key, m) in ids then [] else [0]) + Shift(later);
      FirstIsKeptOrNot(before, Without(ReplaceRows(rest, m), key, ids), later, m, NewId(before[0], key, m) in ids);
      Shifted(later);
      forall i | 0 <= i < |before| ensures i in kept <==> NewId(before[i], key, m) !in ids {
        if i > 0 { assert i in kept <==> i - 1 in later; assert before[i] == rest[i - 1]; }
      }
    }
  }

  function Shift(positions: seq<nat>): seq<nat> {
    seq(|positions|, j requires 0 <= j < |positions| => positions[j] + 1)
  }

  lemma FirstIsKeptOrNot(before: seq<Json>, after: seq<Json>, later: seq<nat>, m: map<string, string>, dropped: bool)
    requires before != [] && KeptCopies(before[1..], after, later, m)
    ensures KeptCopies(before, (if dropped then [] else [ReplaceExact(before[0], m)]) + after,
                       (if dropped then [] else [0]) + Shift(later), m)
  {
    OnlyStringsAreReplaced(before[0], m);
  }

  lemma Shifted(later: seq<nat>)
    ensures 0 !in Shift(later) && forall i: nat :: i + 1 in Shift(later) <==> i in later
  {
    forall i: nat ensures i + 1 in Shift(later) <==> i in later {
      if i in later { var j :| 0 <= j < |later| && later[j] == i; assert Shift(later)[j] == i + 1; }
    }
  }

  /** What is left of each table: the tables of users and administrators lose exactly the rows
      whose user is stored, and all other rows of all tables keep their places, changed in
      nothing but the replaced strings. Without a replacement nothing changes at all. */
  lemma TablesAreCopied(tables: Tables, existing: seq<Stored>, norm: string -> string, t: string)
    requires Typed(tables) && t in tables
    ensures var m := Replacements(existing, IdByEmail(Users(tables), norm), norm);
      var after := Remapped(tables, existing, norm);
      && tables.Keys <= after.Keys <= tables.Keys + {"user", "platform_admin"}
      && (m == map[] ==> after == tables)
      && (m != map[] && t == "user" ==> KeptUnlessStored(tables[t], after[t], "id", m, IdsOf(existing)))
      && (m != map[] && t == "platform_admin" ==> KeptUnlessStored(tables[t], after[t], "userId", m, IdsOf(existing)))
      && (t != "user" && t != "platform_admin" ==> AllCopied(tables[t], after[t], m))
  {
    var m := Replacements(existing, IdByEmail(Users(tables), norm), norm);
    forall row ensures Copied(row, ReplaceExact(row, m), m) { OnlyStringsAreReplaced(row, m); }
    if m == map[] {
      forall row ensures Copied(row, row, m) { CopiedUnchanged(row); }
    } else {
      var replaced := map x | x in tables :: ReplaceRows(tables[x], m);
      if t == "user" {
        assert Users(replaced) == ReplaceRows(tables[t], m);
        var kept := WithoutIsExact(tables[t], "id", m, IdsOf(existing));
      } else if t == "platform_admin" {
        assert Admins(replaced) == ReplaceRows(tables[t], m);
        var kept := WithoutIsExact(tables[t], "userId", m, IdsOf(existing));
      }
    }
  }

  lemma CopiedUnchanged(row: Json)
    ensures Copied(row, row, map[])
  {
  }

  /** A fixture id is replaced exactly when a stored user of its email has another id, and then
      by the id of the last such user. */
  lemma {:induction false} ReplacedIff(existing: seq<Stored>, byEmail: map<string, string>, norm: string -> string, k: string)
    ensures k in Replacements(existing, byEmail, norm)
      <==> k != "" && exists e :: e in existing && norm(e.email) in byEmail && byEmail[norm(e.email)] == k && e.id != k
    ensures k in Replacements(existing, byEmail, norm) ==>
      exists i :: 0 <= i < |existing| && IsLastMatch(existing, byEmail, norm, k, i)
                  && existing[i].id == Replacements(existing, byEmail, norm)[k]
  {
    if existing != [] {
      var n := |existing| - 1;
      var last, init := existing[n], existing[..n];
      ReplacedIff(init, byEmail, norm, k);
      assert last in existing && forall e :: e in existing <==> e in init || e == last;
      if Counts(last, byEmail, norm, k) && k != "" {
        assert IsLastMatch(existing, byEmail, norm, k, n);
      } else if k in Replacements(init, byEmail, norm) {
        var i :| 0 <= i < |init| && IsLastMatch(init, byEmail, norm, k, i) && init[i].id == Replacements(init, byEmail, norm)[k];
        assert IsLastMatch(existing, byEmail, norm, k, i);
      }
    }
  }

  predicate Counts(e: Stored, byEmail: map<string, string>, norm: string -> string, k: string) {
    norm(e.email) in byEmail && byEmail[norm(e.email)] == k && e.id != k
  }

  predicate IsLastMatch(existing: seq<Stored>, byEmail: map<string, string>, norm: string -> string, k: string, i: nat) {
    i < |existing| && Counts(existing[i], byEmail, norm, k)
    && forall j :: i < j < |existing| ==> !Counts(existing[j], byEmail, norm, k)
  }

  predicate IsLastOf(users: seq<Json>, norm: string -> string, email: string, i: nat) {
    i < |users| && norm(Text(users[i], "email")) == email
    && forall j :: i < j < |users| ==> norm(Text(users[j], "email")) != email
  }

  /** An email stands for the last fixture user that has it. */
  lemma {:induction false} LastUserOfEmail(users: seq<Json>, norm: string -> string, email: string)
    ensures email in IdByEmail(users, norm) <==> exists u :: u in users && norm(Text(u, "email")) == email
    ensures email in IdByEmail(users, norm) ==>
      exists i :: 0 <= i < |users| && IsLastOf(users, norm, email, i) && Text(users[i], "id") == IdByEmail(users, norm)[email]
  {
    if users != [] {
      var n := |users| - 1;
      var last, init := users[n], users[..n];
      LastUserOfEmail(init, norm, email);
      assert users == init + [last];
      if norm(Text(last, "email")) == email {
        assert IsLastOf(users, norm, email, n);
      } else if email in IdByEmail(init, norm) {
        var i :| 0 <= i < |init| && IsLastOf(init, norm, email, i) && Text(init[i], "id") == IdByEmail(init, norm)[email];
        assert IsLastOf(users, norm, email, i);
      }
    }
  }

  predicate UsersAreNew(tables: Tables, existing: seq<Stored>) {
    forall u :: u in Users(tables) ==> Text(u, "id") !in IdsOf(existing)
  }

  /** The users left to insert are disjoint from the stored ones exactly when something was
      replaced or nothing was stored: when every match has its stored id already, the early
      return leaves the matched users in the fixture. */
  lemma UsersAreNewIff(tables: Tables, existing: seq<Stored>, norm: string -> string)
    requires Typed(tables) && Matched(existing, Users(tables), norm)
    ensures UsersAreNew(Remapped(tables, existing, norm), existing)
      <==> existing == [] || Replacements(existing, IdByEmail(Users(tables), norm), norm) != map[]
  {
    var byEmail := IdByEmail(Users(tables), norm);
    var m := Replacements(existing, byEmail, norm);
    if m != map[] {
      var replaced := map t | t in tables :: ReplaceRows(tables[t], m);
      WithoutKeeps(Users(replaced), "id", IdsOf(existing));
    } else if existing != [] {
      var e := existing[0];
      ByEmailIsAUser(Users(tables), norm, norm(e.email));
      var u :| u in Users(tables) && norm(Text(u, "email")) == norm(e.email) && Text(u, "id") == byEmail[norm(e.email)];
      NoReplacementsMeansSame(existing, byEmail, norm, e);
      assert Text(u, "id") in IdsOf(existing);
    }
  }

  predicate Resolves(id: string, tables: Tables, existing: seq<Stored>) {
    id in IdsOf(existing) || exists u :: u in Users(tables) && Text(u, "id") == id
  }

  /** Whatever referred to a fixture user refers afterwards to a stored user or to a user
      left in the fixture. */
  lemma EveryReferenceResolves(tables: Tables, existing: seq<Stored>, norm: string -> string, user: Json)
    requires Typed(tables) && user in Users(tables)
    ensures var m := Replacements(existing, IdByEmail(Users(tables), norm), norm);
      Resolves(Image(m, Text(user, "id")), Remapped(tables, existing, norm), existing)
  {
    var m := Replacements(existing, IdByEmail(Users(tables), norm), norm);
    if m != map[] {
      var replaced := map t | t in tables :: ReplaceRows(tables[t], m);
      WithoutKeeps(Users(replaced), "id", IdsOf(existing));
      TextReplaced(user, m, "id");
      var i :| 0 <= i < |Users(tables)| && Users(tables)[i] == user;
      assert Users(replaced)[i] == ReplaceExact(user, m);
      assert Image(m, Text(user, "id")) !in IdsOf(existing)
        ==> ReplaceExact(user, m) in Users(Remapped(tables, existing, norm));
    }
  }

  /** The id names a stored user, or one left in the fixture, of that normalised email. */
  predicate ResolvesTo(id: string, email: string, tables: Tables, existing: seq<Stored>, norm: string -> string) {
    || (exists e :: e in existing && e.id == id && norm(e.email) == email)
    || (exists u :: u in Users(tables) && Text(u, "id") == id && norm(Text(u, "email")) == email)
  }

  /** Ids are primary keys on both sides, and no email is itself a replaced id. */
  predicate Keyed(users: seq<Json>, existing: seq<Stored>, m: map<string, string>) {
    && (forall u, v :: u in users && v in users && Text(u, "id") == Text(v, "id") ==> u == v)
    && (forall e, f :: e in existing && f in existing && e.id == f.id ==> e == f)
    && (forall u :: u in users ==> Text(u, "email") !in m)
  }

  lemma ReplacedResolvesToSameEmail(tables: Tables, existing: seq<Stored>, norm: string -> string, user: Json)
    requires var m := Replacements(existing, IdByEmail(Users(tables), norm), norm);
      user in Users(tables) && Keyed(Users(tables), existing, m) && Text(user, "id") in m
    ensures var m := Replacements(existing, IdByEmail(Users(tables), norm), norm);
      exists e :: e in existing && e.id == m[Text(user, "id")] && norm(e.email) == norm(Text(user, "email"))
  {
    ReplacementKeepsEmail(Users(tables), existing, norm, Text(user, "id"));
  }

  lemma KeptResolvesToSameEmail(tables: Tables, existing: seq<Stored>, norm: string -> string, user: Json)
    requires var m := Replacements(existing, IdByEmail(Users(tables), norm), norm);
      Typed(tables) && user in Users(tables) && Keyed(Users(tables), existing, m) && m != map[] && Text(user, "id") !in m
    ensures ResolvesTo(Text(user, "id"), norm(Text(user, "email")), Remapped(tables, existing, norm), existing, norm)
      <==> forall e :: e in existing && e.id == Text(user, "id") ==> norm(e.email) == norm(Text(user, "email"))
  {
    var m := Replacements(existing, IdByEmail(Users(tables), norm), norm);
    var replaced := map t | t in tables :: ReplaceRows(tables[t], m);
    WithoutKeeps(Users(replaced), "id", IdsOf(existing));
    if Text(user, "id") !in IdsOf(existing) {
      TextReplaced(user, m, "id");
      TextReplaced(user, m, "email");
      var i :| 0 <= i < |Users(tables)| && Users(tables)[i] == user;
      assert Users(replaced)[i] == ReplaceExact(user, m);
      assert ReplaceExact(user, m) in Users(Remapped(tables, existing, norm));
    } else {
      var e :| e in existing && e.id == Text(user, "id");
    }
  }

  /** Whatever referred to a fixture user refers afterwards to a user of the same email
      exactly when something, for that user, was replaced or there was nothing to replace, or
      else no stored user holds the fixture user's id under another email. */
  lemma ReferenceKeepsEmailIff(tables: Tables, existing: seq<Stored>, norm: string -> string, user: Json)
    requires var m := Replacements(existing, IdByEmail(Users(tables), norm), norm);
      Typed(tables) && user in Users(tables) && Keyed(Users(tables), existing, m)
    ensures var m := Replacements(existing, IdByEmail(Users(tables), norm), norm);
      var id, email := Text(user, "id"), norm(Text(user, "email"));
      ResolvesTo(Image(m, id), email, Remapped(tables, existing, norm), existing, norm)
      <==> m == map[] || id in m || forall e :: e in existing && e.id == id ==> norm(e.email) == email
  {
    var m := Replacements(existing, IdByEmail(Users(tables), norm), norm);
    if m != map[] {
      if Text(user, "id") in m {
        ReplacedResolvesToSameEmail(tables, existing, norm, user);
      } else {
        KeptResolvesToSameEmail(tables, existing, norm, user);
      }
    }
  }

  // ----- fixtures on which the promises fail -----

  function UserRow(id: string, email: string): Json {
    Obj([Field("id", Str(id)), Field("email", Str(email))])
  }

  lemma UserRowText(id: string, email: string)
    ensures HasText(UserRow(id, email), "id") && Text(UserRow(id, email), "id") == id
    ensures HasText(UserRow(id, email), "email") && Text(UserRow(id, email), "email") == email
  {
    var fields := UserRow(id, email).fields;
    assert fields[1..] == [Field("email", Str(email))];
  }

  lemma OneEmail(user: Json, norm: string -> string)
    ensures IdByEmail([user], norm) == map[norm(Text(user, "email")) := Text(user, "id")]
  {
    assert [user][..0] == [];
  }

  lemma OneMatch(e: Stored, byEmail: map<string, string>, norm: string -> string)
    requires norm(e.email) in byEmail && byEmail[norm(e.email)] != ""
    ensures Replacements([e], byEmail, norm) == if byEmail[norm(e.email)] == e.id then map[] else map[byEmail[norm(e.email)] := e.id]
  {
    assert [e][..0] == [];
  }

  /** A user stored under the fixture's own id stays in the fixture. */
  lemma StoredUserStays(norm: string -> string)
    ensures var tables, existing := map["user" := [UserRow("1", "a")]], [Stored("1", "a")];
      Typed(tables) && Matched(existing, Users(tables), norm)
      && Remapped(tables, existing, norm) == tables && !UsersAreNew(tables, existing)
  {
    var user, e := UserRow("1", "a"), Stored("1", "a");
    UserRowText("1", "a");
    OneEmail(user, norm);
    OneMatch(e, IdByEmail([user], norm), norm);
    assert user in [user] && e in [e];
  }

  /** A stored user that holds the id of one fixture user under the email of another: the
      fixture user of that id is dropped, and references to it lead to the other. */
  lemma TakenIdMisleads(norm: string -> string)
    requires norm("a") != norm("b")
    ensures var tables, existing := map["user" := [UserRow("1", "a"), UserRow("2", "b")]], [Stored("2", "a")];
      var m := Replacements(existing, IdByEmail(Users(tables), norm), norm);
      && Typed(tables) && Matched(existing, Users(tables), norm) && Keyed(Users(tables), existing, m) && m == map["1" := "2"]
      && !ResolvesTo(Image(m, "2"), norm("b"), Remapped(tables, existing, norm), existing, norm)
  {
    var a, b, e := UserRow("1", "a"), UserRow("2", "b"), Stored("2", "a");
    var tables: Tables, existing := map["user" := [a, b]], [e];
    UserRowText("1", "a");
    UserRowText("2", "b");
    OneEmail(a, norm);
    assert [a, b][..1] == [a];
    assert IdByEmail([a, b], norm) == map[norm("a") := "1", norm("b") := "2"];
    OneMatch(e, IdByEmail([a, b], norm), norm);
    var m := Replacements(existing, IdByEmail(Users(tables), norm), norm);
    assert m == map["1" := "2"] && "1" in m;
    assert Text(a, "email") == "a" && "a" !in m && "b" !in m;
    KeptResolvesToSameEmail(tables, existing, norm, b);
    assert e in existing && e.id == "2" && norm(e.email) != norm("b");
  }

  /** An administrator row left to insert belongs to a user left to insert. */
  lemma AdminsBelongToNewUsers(tables: Tables, existing: seq<Stored>, norm: string -> string, admin: Json)
    requires Typed(tables) && Replacements(existing, IdByEmail(Users(tables), norm), norm) != map[]
    requires forall a :: a in Admins(tables) ==> exists u :: u in Users(tables) && Text(u, "id") == Text(a, "userId")
    requires admin in Admins(Remapped(tables, existing, norm))
    ensures exists u :: u in Users(Remapped(tables, existing, norm)) && Text(u, "id") == Text(admin, "userId")
  {
    var m := Replacements(existing, IdByEmail(Users(tables), norm), norm);
    var replaced := map t | t in tables :: ReplaceRows(tables[t], m);
    WithoutKeeps(Admins(replaced), "userId", IdsOf(existing));
    var i :| 0 <= i < |Admins(replaced)| && Admins(replaced)[i] == admin;
    var before := Admins(tables)[i];
    assert before in Admins(tables);
    TextReplaced(before, m, "userId");
    var u :| u in Users(tables) && Text(u, "id") == Text(before, "userId");
    EveryReferenceResolves(tables, existing, norm, u);
  }

  // ----- the fixture as the seeder updates it -----

  class SnapshotFixture {
    var tables: Tables

    constructor (tables: Tables)
      ensures this.tables == tables
    {
      this.tables := tables;
    }

    method RemapExistingUsers(existing: seq<Stored>, norm: string -> string)
      modifies this
      ensures tables == Remapped(old(tables), existing, norm)
    {
      var users := Users(tables);
      var byEmail: map<string, string> := map[];
      for i := 0 to |users|
        invariant byEmail == IdByEmail(users[..i], norm)
      {
        assert users[..i + 1][..i] == users[..i];
        byEmail := byEmail[norm(Text(users[i], "email")) := Text(users[i], "id")];
      }
      assert users[..|users|] == users;
      var replacements: map<string, string> := map[];
      for i := 0 to |existing|
        invariant replacements == Replacements(existing[..i], byEmail, norm)
      {
        assert existing[..i + 1][..i] == existing[..i];
        var email := norm(existing[i].email);
        if email in byEmail && byEmail[email] != "" && byEmail[email] != existing[i].id {
          replacements := replacements[byEmail[email] := existing[i].id];
        }
      }
      assert existing[..|existing|] == existing;
      if replacements == map[] { return; }
      tables := map t | t in tables :: ReplaceRows(tables[t], replacements);
      var existingIds := IdsOf(existing);
      var newUsers := FilterOut(Users(tables), "id", existingIds);
      var newAdmins := FilterOut(Admins(tables), "userId", existingIds);
      tables := tables["user" := newUsers]["platform_admin" := newAdmins];
    }

    method FilterOut(rows: seq<Json>, key: string, ids: set<string>) returns (kept: seq<Json>)
      ensures kept == Without(rows, key, ids)
    {
      kept := [];
      for i := 0 to |rows|
        invariant kept + Without(rows[i..], key, ids) == Without(rows, key, ids)
      {
        assert rows[i..][1..] == rows[i + 1..];
        if Text(rows[i], key) !in ids { kept := kept + [rows[i]]; }
      }
    }
  }
}
