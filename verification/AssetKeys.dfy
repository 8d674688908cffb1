/**
 Two checks of the same object keys: one on the key's normal form, one on the file path
 the key resolves to. Both are stated on strings, and proved through a stack of segments.
 */
module AssetKeys {

  // ----- segments -----

  function Split(s: string): (segments: seq<string>)
    ensures segments != [] && forall i :: 0 <= i < |segments| ==> '/' !in segments[i]
  {
    if s == "" then [""]
    else
      var rest := Split(s[1..]);
      if s[0] == '/' then [""] + rest else [[s[0]] + rest[0]] + rest[1..]
  }

  function Join(segments: seq<string>): string {
    if segments == [] then ""
    else if |segments| == 1 then segments[0]
    else segments[0] + "/" + Join(segments[1..])
  }

  predicate Skipped(segment: string) { segment == "" || segment == "." }

  /** One segment against the stack; going up from the bottom is kept in a relative path,
      and leads nowhere in an absolute one. */
  function Step(stack: seq<string>, segment: string, relative: bool): seq<string> {
    if Skipped(segment) then stack
    else if segment != ".." then stack + [segment]
    else if stack != [] && stack[|stack| - 1] != ".." then stack[..|stack| - 1]
    else if relative then stack + [".."]
    else stack
  }

  function Walk(start: seq<string>, segments: seq<string>, relative: bool): seq<string> {
    if segments == [] then start
    else Step(Walk(start, segments[..|segments| - 1], relative), segments[|segments| - 1], relative)
  }

  // ----- the two checks -----

  predicate Absolute(key: string) { key != "" && key[0] == '/' }

  predicate Trailing(key: string) { key != "" && key[|key| - 1] == '/' }

  function Stack(key: string): seq<string> { Walk([], Split(key), !Absolute(key)) }

  function Normalize(key: string): string {
    if key == "" then "."
    else if Absolute(key) then "/" + Join(Stack(key)) + if Stack(key) != [] && Trailing(key) then "/" else ""
    else if Stack(key) == [] then (if Trailing(key) then "./" else ".")
    else Join(Stack(key)) + if Trailing(key) then "/" else ""
  }

  predicate StartsWith(s: string, prefix: string) { prefix <= s }

  /** The metadata check. */
  predicate SafeObjectKey(key: string) {
    var normalized := Normalize(key);
    |key| > 0 && !Absolute(key) && normalized != "." && normalized != ".." && !StartsWith(normalized, "../")
  }

  /** A directory as the path library writes it. */
  predicate Root(root: seq<string>) {
    root != [] && forall i :: 0 <= i < |root| ==> root[i] != "" && root[i] != "." && root[i] != ".." && '/' !in root[i]
  }

  function Resolve(root: seq<string>, key: string): seq<string> {
    Walk(if Absolute(key) then [] else root, Split(key), false)
  }

  /** The upload check: the resolved path continues below the root. */
  predicate UploadAccepts(root: seq<string>, key: string) {
    StartsWith("/" + Join(Resolve(root, key)), "/" + Join(root) + "/")
  }

  predicate StrictlyBelow(root: seq<string>, path: seq<string>) {
    |path| > |root| && path[..|root|] == root
  }

  // ----- what a stack looks like -----

  predicate Plain(segment: string) { !Skipped(segment) && '/' !in segment }

  lemma {:induction false} WalkIsPlain(start: seq<string>, segments: seq<string>, relative: bool)
    requires forall i :: 0 <= i < |segments| ==> '/' !in segments[i]
    requires forall i :: 0 <= i < |start| ==> Plain(start[i])
    ensures forall i :: 0 <= i < |Walk(start, segments, relative)| ==> Plain(Walk(start, segments, relative)[i])
  {
    if segments != [] { WalkIsPlain(start, segments[..|segments| - 1], relative); }
  }

  function Tail(segments: seq<string>): string
    requires segments != []
  {
    if |segments| == 1 then "" else "/" + Join(segments[1..])
  }

  lemma JoinIsHeadAndTail(segments: seq<string>)
    requires segments != []
    ensures Join(segments) == segments[0] + Tail(segments)
  {
  }

  /** The first separator, or the end, is at `n`. */
  predicate CutAt(s: string, n: nat) {
    n <= |s| && '/' !in s[..n] && (n == |s| || s[n] == '/')
  }

  lemma CutsAgree(s: string, m: nat, n: nat)
    requires CutAt(s, m) && CutAt(s, n)
    ensures m == n
  {
    assert forall k :: 0 <= k < m ==> s[..m][k] == s[k];
    assert forall k :: 0 <= k < n ==> s[..n][k] == s[k];
  }

  lemma CutAfter(a: string, x: string)
    requires '/' !in a && (x == "" || x[0] == '/')
    ensures CutAt(a + x, |a|)
  {
    assert (a + x)[..|a|] == a;
  }

  /** A name without a separator, followed by a separator or by nothing. */
  lemma FirstSegment(a: string, x: string, b: string, y: string)
    requires '/' !in a && '/' !in b && (x == "" || x[0] == '/') && (y == "" || y[0] == '/')
    requires a + x == b + y
    ensures a == b && x == y
  {
    CutAfter(a, x);
    CutAfter(b, y);
    CutsAgree(a + x, |a|, |b|);
    assert a == (a + x)[..|a|] && b == (b + y)[..|b|];
    assert x == (a + x)[|a|..] && y == (b + y)[|b|..];
  }

  lemma PrefixFirstSegment(a: string, b: string, y: string)
    requires '/' !in a && '/' !in b && (y == "" || y[0] == '/')
    ensures a + "/" <= b + y <==> a == b && y != ""
  {
    if a + "/" <= b + y {
      var x := (b + y)[|a|..];
      assert a + x == b + y && x[0] == '/';
      FirstSegment(a, x, b, y);
    }
  }

  /** With the first names equal, a prefix carries on behind the separator. */
  lemma PrefixSecondSegment(a: string, b: string, u: string, v: string)
    requires '/' !in a && '/' !in b
    ensures a + "/" + u <= b + "/" + v <==> a == b && u <= v
  {
    if a + "/" + u <= b + "/" + v {
      var s := b + "/" + v;
      var x := s[|a|..];
      assert s[..|a|] == (a + "/" + u)[..|a|] == a && s[|a|] == (a + "/" + u)[|a|];
      assert s == s[..|a|] + x && s == b + ("/" + v);
      FirstSegment(a, x, b, "/" + v);
      assert u == (a + "/" + u)[|a| + 1..] && v == (b + "/" + v)[|b| + 1..];
    }
  }

  // ----- the normal form -----

  lemma NormalHead(key: string)
    requires key != "" && !Absolute(key) && Stack(key) != []
    ensures var rest := Tail(Stack(key)) + if Trailing(key) then "/" else "";
      Normalize(key) == Stack(key)[0] + rest && (rest == "" || rest[0] == '/') && Plain(Stack(key)[0])
  {
    WalkIsPlain([], Split(key), true);
    JoinIsHeadAndTail(Stack(key));
  }

  /** The normal form of a relative key goes up exactly when the bottom of its stack does. */
  lemma BeginsUpIff(key: string)
    requires key != "" && !Absolute(key)
    ensures Normalize(key) == ".." || StartsWith(Normalize(key), "../") <==> GoesUp(Stack(key))
  {
    if Stack(key) != [] {
      NormalHead(key);
      var rest := Tail(Stack(key)) + if Trailing(key) then "/" else "";
      if Normalize(key) == ".." { FirstSegment(Stack(key)[0], rest, "..", ""); }
      PrefixFirstSegment("..", Stack(key)[0], rest);
      assert ".." + "/" == "../";
    }
  }

  /** On a relative key the metadata check looks at the bottom of the stack only: it refuses
      going up, and an empty stack unless a trailing separator hides it. */
  lemma SafeIff(key: string)
    requires key != "" && !Absolute(key)
    ensures SafeObjectKey(key) <==> if Stack(key) == [] then Trailing(key) else Stack(key)[0] != ".."
  {
    BeginsUpIff(key);
    if Stack(key) != [] {
      NormalHead(key);
      var rest := Tail(Stack(key)) + if Trailing(key) then "/" else "";
      assert Normalize(key) == "." ==> Stack(key)[0] + rest == "." + "";
      if Stack(key)[0] + rest == "." + "" { FirstSegment(Stack(key)[0], rest, ".", ""); }
    }
  }

  /** Names count one down, going up counts one back. */
  function Depth(segments: seq<string>): int {
    if segments == [] then 0
    else var last := segments[|segments| - 1];
         Depth(segments[..|segments| - 1]) + if Skipped(last) then 0 else if last == ".." then -1 else 1
  }

  predicate GoesUp(stack: seq<string>) { stack != [] && stack[0] == ".." }

  /** Until a prefix goes below depth zero the stack holds names only, one for each level. */
  lemma {:induction false} DepthIsHeight(segments: seq<string>)
    requires forall p :: 0 <= p <= |segments| ==> Depth(segments[..p]) >= 0
    ensures var stack := Walk([], segments, true);
      |stack| == Depth(segments) && forall i :: 0 <= i < |stack| ==> stack[i] != ".."
  {
    if segments != [] {
      var init := segments[..|segments| - 1];
      assert forall p :: 0 <= p <= |init| ==> init[..p] == segments[..p];
      assert segments[..|segments|] == segments;
      DepthIsHeight(init);
    }
  }

  lemma {:induction false} GoingUpStays(segments: seq<string>, p: nat)
    requires p <= |segments| && GoesUp(Walk([], segments[..p], true))
    ensures GoesUp(Walk([], segments, true))
    decreases |segments|
  {
    if p < |segments| {
      assert segments[..|segments| - 1][..p] == segments[..p];
      GoingUpStays(segments[..|segments| - 1], p);
    } else {
      assert segments[..p] == segments;
    }
  }

  lemma {:induction false} GoesUpIff(segments: seq<string>)
    ensures GoesUp(Walk([], segments, true)) <==> exists p :: 0 <= p <= |segments| && Depth(segments[..p]) < 0
  {
    if p :| 0 <= p <= |segments| && Depth(segments[..p]) < 0 {
      FirstBelowZero(segments, p);
    } else {
      DepthIsHeight(segments);
    }
  }

  lemma {:induction false} FirstBelowZero(segments: seq<string>, p: nat)
    requires p <= |segments| && Depth(segments[..p]) < 0
    ensures GoesUp(Walk([], segments, true))
    decreases p
  {
    if q :| 0 <= q < p && Depth(segments[..q]) < 0 {
      FirstBelowZero(segments, q);
    } else {
      var init := segments[..p - 1];
      assert forall q :: 0 <= q <= |init| ==> init[..q] == segments[..q];
      DepthIsHeight(init);
      assert segments[..p][..p - 1] == init;
      GoingUpStays(segments, p);
    }
  }

  /** A normal form begins with ".." exactly when some prefix of the key's segments goes
      below depth zero. */
  lemma NormalFormGoesUpIff(key: string)
    requires key != "" && !Absolute(key)
    ensures Normalize(key) == ".." || StartsWith(Normalize(key), "../")
      <==> exists p :: 0 <= p <= |Split(key)| && Depth(Split(key)[..p]) < 0
  {
    BeginsUpIff(key);
    var segments := Split(key);
    assert Stack(key) == Walk([], segments, true);
    GoesUpIff(segments);
    if p :| 0 <= p <= |segments| && Depth(segments[..p]) < 0 { assert Depth(Split(key)[..p]) < 0; }
  }

  // ----- the resolved path -----

  lemma {:induction false} NoUpInside(segments: seq<string>)
    requires !GoesUp(Walk([], segments, true))
    ensures forall i :: 0 <= i < |Walk([], segments, true)| ==> Walk([], segments, true)[i] != ".."
  {
    if segments != [] { NoUpInside(segments[..|segments| - 1]); }
  }

  /** A key that never goes up resolves to its own stack below the root. */
  lemma {:induction false} ResolvesBelow(root: seq<string>, segments: seq<string>)
    requires Root(root) && !GoesUp(Walk([], segments, true))
    ensures Walk(root, segments, false) == root + Walk([], segments, true)
  {
    if segments != [] {
      var init := segments[..|segments| - 1];
      ResolvesBelow(root, init);
      NoUpInside(init);
      NoUpInside(segments);
      StepBelow(root, Walk([], init, true), segments[|segments| - 1]);
    }
  }

  lemma StepBelow(root: seq<string>, stack: seq<string>, segment: string)
    requires Root(root) && !GoesUp(Step(stack, segment, true))
    requires forall i :: 0 <= i < |stack| ==> stack[i] != ".."
    ensures Step(root + stack, segment, false) == root + Step(stack, segment, true)
  {
    var all := root + stack;
    if stack != [] {
      assert all[|all| - 1] == stack[|stack| - 1];
      assert all[..|all| - 1] == root + stack[..|stack| - 1];
    }
    assert all + [segment] == root + (stack + [segment]);
  }

  /** One path is strictly below another exactly when its string continues the other's
      behind a separator. */
  lemma {:induction false} BelowIsPrefix(root: seq<string>, path: seq<string>)
    requires root != []
    requires forall i :: 0 <= i < |root| ==> '/' !in root[i]
    requires forall i :: 0 <= i < |path| ==> '/' !in path[i]
    ensures Join(root) + "/" <= Join(path) <==> StrictlyBelow(root, path)
  {
    if path == [] {
      assert |Join(root) + "/"| > 0;
    } else {
      JoinIsHeadAndTail(root);
      JoinIsHeadAndTail(path);
      if |root| == 1 {
        PrefixFirstSegment(root[0], path[0], Tail(path));
      } else if |path| == 1 {
        PrefixFirstSegment(root[0], path[0], "");
        assert Join(root) + "/" == root[0] + "/" + (Join(root[1..]) + "/");
      } else {
        BelowIsPrefix(root[1..], path[1..]);
        PrefixSecondSegment(root[0], path[0], Join(root[1..]) + "/", Join(path[1..]));
        assert Join(root) + "/" == root[0] + "/" + (Join(root[1..]) + "/");
        assert Join(path) == path[0] + "/" + Join(path[1..]);
        BelowHeadAndTail(root, path);
      }
    }
  }

  lemma BelowHeadAndTail(root: seq<string>, path: seq<string>)
    requires root != [] && path != []
    ensures StrictlyBelow(root, path) <==> root[0] == path[0] && StrictlyBelow(root[1..], path[1..])
  {
    if |path| > |root| {
      assert path[..|root|] == [path[0]] + path[1..][..|root| - 1];
      assert root == [root[0]] + root[1..];
    }
  }

  lemma UploadAcceptsIff(root: seq<string>, key: string)
    requires Root(root)
    ensures UploadAccepts(root, key) <==> StrictlyBelow(root, Resolve(root, key))
  {
    var start := if Absolute(key) then [] else root;
    WalkIsPlain(start, Split(key), false);
    BelowIsPrefix(root, Resolve(root, key));
    assert "/" + Join(root) + "/" == "/" + (Join(root) + "/");
    PrefixBehind("/", Join(root) + "/", Join(Resolve(root, key)));
  }

  lemma PrefixBehind(a: string, u: string, v: string)
    ensures a + u <= a + v <==> u <= v
  {
    if a + u <= a + v {
      assert u == (a + u)[|a|..] && v == (a + v)[|a|..];
    }
  }

  /** For a key the metadata check accepts, the upload check accepts it too, and it resolves
      strictly below the root, exactly when its normal form is not "./". */
  lemma ChecksAgreeIff(root: seq<string>, key: string)
    requires Root(root) && SafeObjectKey(key)
    ensures UploadAccepts(root, key) <==> Normalize(key) != "./"
    ensures UploadAccepts(root, key) <==> StrictlyBelow(root, Resolve(root, key))
  {
    SafeIff(key);
    ResolvesBelow(root, Split(key));
    UploadAcceptsIff(root, key);
    var stack := Stack(key);
    assert Resolve(root, key) == root + stack;
    assert (root + stack)[..|root|] == root;
    if stack != [] {
      WalkIsPlain([], Split(key), true);
      JoinIsHeadAndTail(stack);
      var rest := Tail(stack) + if Trailing(key) then "/" else "";
      assert Normalize(key) == stack[0] + rest;
    }
  }

  /** A key that only the metadata check accepts, under every root. */
  lemma TrailingSeparatorHidesTheRoot(root: seq<string>)
    requires Root(root)
    ensures SafeObjectKey("./") && !UploadAccepts(root, "./")
  {
    assert "./"[1..] == "/" && "/"[1..] == "";
    assert Split("/") == ["", ""];
    assert ['.'] + "" == ".";
    assert Split("./") == [".", ""];
    assert [".", ""][..1] == ["."] && ["."][..0] == [];
    assert Walk([], ["."], true) == [];
    assert Walk([], [".", ""], true) == [];
    assert Stack("./") == [];
    assert Normalize("./") == "./";
    ChecksAgreeIff(root, "./");
  }

  /** Of the keys the upload check accepts, the metadata check accepts exactly the relative
      ones of which no prefix goes below depth zero. */
  lemma UploadedKeyIsSafeIff(root: seq<string>, key: string)
    requires Root(root) && UploadAccepts(root, key)
    ensures SafeObjectKey(key)
      <==> !Absolute(key) && forall p :: 0 <= p <= |Split(key)| ==> Depth(Split(key)[..p]) >= 0
  {
    UploadAcceptsIff(root, key);
    if !Absolute(key) {
      EmptyKeyIsTheRoot(root);
      SafeIff(key);
      GoesUpIff(Split(key));
      assert Stack(key) == Walk([], Split(key), true);
      if !GoesUp(Stack(key)) {
        ResolvesBelow(root, Split(key));
        assert Resolve(root, key) == root + Stack(key);
      }
    }
  }

  lemma EmptyKeyIsTheRoot(root: seq<string>)
    ensures Resolve(root, "") == root
  {
    assert [""][..0] == [] && Walk(root, [], false) == root;
    assert Walk(root, [""], false) == Step(root, "", false);
  }

  lemma {:induction false} WalkDown(start: seq<string>, names: seq<string>)
    requires forall i :: 0 <= i < |names| ==> !Skipped(names[i]) && names[i] != ".."
    ensures Walk(start, names, false) == start + names
  {
    if names != [] {
      WalkDown(start, names[..|names| - 1]);
      assert names == names[..|names| - 1] + [names[|names| - 1]];
    }
  }

  lemma {:induction false} WalkAppend(start: seq<string>, a: seq<string>, b: seq<string>, relative: bool)
    ensures Walk(start, a + b, relative) == Walk(Walk(start, a, relative), b, relative)
  {
    if b == [] {
      assert a + b == a;
    } else {
      assert (a + b)[..|a + b| - 1] == a + b[..|b| - 1];
      WalkAppend(start, a, b[..|b| - 1], relative);
    }
  }

  /** An absolute key of a file inside the root is accepted by the upload check alone. */
  lemma AbsoluteKeyDisagrees(root: seq<string>, key: string)
    requires Root(root) && Absolute(key) && Split(key) == [""] + root + ["x"]
    ensures !SafeObjectKey(key) && UploadAccepts(root, key)
  {
    assert [""][..0] == [];
    assert Walk([], [""], false) == [];
    WalkDown([], root + ["x"]);
    WalkAppend([], [""], root + ["x"], false);
    assert Split(key) == [""] + (root + ["x"]) && [] + (root + ["x"]) == root + ["x"];
    UploadAcceptsIff(root, key);
    assert (root + ["x"])[..|root|] == root;
  }

  /** A key that only the upload check accepts: up from the root and down into it again. */
  lemma ReturningKeyDisagrees(root: seq<string>, key: string)
    requires Root(root) && Split(key) == ["..", root[|root| - 1], "x"] && key != "" && !Absolute(key)
    ensures !SafeObjectKey(key) && UploadAccepts(root, key)
  {
    var n := |root| - 1;
    var name := root[n];
    var segments := ["..", name, "x"];
    assert segments[..2] == ["..", name] && segments[..1] == [".."] && segments[..0] == [];
    assert ["..", name][..1] == [".."];
    assert Walk([], [".."], true) == [".."];
    assert Walk([], ["..", name], true) == ["..", name];
    assert Walk([], segments, true) == ["..", name, "x"];
    SafeIff(key);
    assert Walk(root, [".."], false) == root[..n];
    assert Walk(root, ["..", name], false) == root[..n] + [name] == root;
    assert Walk(root, segments, false) == root + ["x"];
    UploadAcceptsIff(root, key);
    assert (root + ["x"])[..|root|] == root;
  }
}
