/** Canonical archive member paths and the ancestor relation between them. */
module Paths {
  import opened Wrappers
  import opened Text

  const NUL: CodePoint := 0
  const DOT: CodePoint := 46
  const SLASH: CodePoint := 47
  const BACKSLASH: CodePoint := 92

  datatype Limits = Limits(
    maxArchiveBytes: nat,
    maxWorkspaceBytes: nat,
    maxEntries: nat,
    maxFileBytes: nat,
    maxPathBytes: nat)

  /** Why an artifact is refused, one value per message of the source. */
  datatype Refusal =
    | EmptyPath | UnsafePath | NonCanonicalPath | UnencodablePath | PathTooLong | TraversalPath
    | TooManyEntries | UnsupportedMember | UnsafeMode
    | DuplicatePath | ParentIsFile | FileHasChild
    | FileTooLarge | WorkspaceTooLarge | ArchiveTooLarge
    | TruncatedFile | OverlongFile | DigestChanged | MemberChanged
    | SourceUnreadable | SourceLink | SourceSpecial
    | DestinationNotEmpty | ManifestMismatch | FilesystemError

  // ---------------------------------------------------------------- canonical paths

  predicate HasDoubleSlash(t: Text) {
    exists i | 0 <= i < |t| - 1 :: t[i] == SLASH && t[i + 1] == SLASH
  }

  predicate SpecialPart(part: Text) {
    part == [] || part == [DOT] || part == [DOT, DOT]
  }

  /** What a member name stands for; the checks run in the order of the source. */
  function CanonicalMemberPath(name: Text, limits: Limits): Result<Text, Refusal> {
    if name == [] then Err(EmptyPath)
    else if NUL in name || BACKSLASH in name || name[0] == SLASH then Err(UnsafePath)
    else
      var core := if name[|name| - 1] == SLASH then name[..|name| - 1] else name;
      if core == [] || core[|core| - 1] == SLASH || HasDoubleSlash(core) then Err(NonCanonicalPath)
      else if !Encodable(core) then Err(UnencodablePath)
      else if |Utf8(core)| > limits.maxPathBytes then Err(PathTooLong)
      else if exists part <- Split(core, SLASH) :: SpecialPart(part) then Err(TraversalPath)
      else Ok(core)
  }

  /** A path in the archive namespace, stated on its components alone. */
  predicate Canonical(p: Text, limits: Limits) {
    && NUL !in p && BACKSLASH !in p
    && Encodable(p) && |Utf8(p)| <= limits.maxPathBytes
    && forall part <- Split(p, SLASH) :: !SpecialPart(part)
  }

  lemma EmptyPart(p: Text, i: nat)
    requires i < |p| && p[i] == SLASH
    requires i == 0 || i == |p| - 1 || p[i + 1] == SLASH
    ensures [] in Split(p, SLASH)
  {
    var a, b := p[..i], p[i + 1..];
    assert p == a + [SLASH] + b;
    SplitConcat(a, b, SLASH);
    if i == 0 {
      assert Split(a, SLASH)[0] == [];
    } else {
      assert IndexOf(b, SLASH) == 0;
      assert Split(b, SLASH)[0] == b[..0] == [];
    }
  }

  lemma CanonicalShape(p: Text, limits: Limits)
    requires Canonical(p, limits)
    ensures p != [] && p[0] != SLASH && p[|p| - 1] != SLASH && !HasDoubleSlash(p)
  {
    assert SpecialPart([]);
    assert [] !in Split(p, SLASH);
    assert p != [];
    forall i: nat | i < |p| && p[i] == SLASH ensures 0 < i < |p| - 1 && p[i + 1] != SLASH {
      if i == 0 || i == |p| - 1 || p[i + 1] == SLASH {
        EmptyPart(p, i);
      }
    }
  }

  /**
    A name is accepted exactly when it is a canonical path, with or without one
    trailing slash, and what it stands for is that path.
   */
  lemma MemberNamesDenoteCanonicalPaths(name: Text, p: Text, limits: Limits)
    ensures CanonicalMemberPath(name, limits) == Ok(p)
       <==> Canonical(p, limits) && (name == p || name == p + [SLASH])
  {
    if Canonical(p, limits) && (name == p || name == p + [SLASH]) {
      CanonicalShape(p, limits);
      if name == p + [SLASH] {
        assert name[..|name| - 1] == p;
        assert forall c <- name :: c in p || c == SLASH;
      }
    }
    if CanonicalMemberPath(name, limits) == Ok(p) {
      assert forall c <- p :: c in name;
      if name != p {
        assert name == p + [SLASH];
      }
    }
  }

  // ---------------------------------------------------------------- ancestors

  predicate IsAncestor(a: Text, p: Text) {
    |a| < |p| && p[|a|] == SLASH && p[..|a|] == a
  }

  function Ancestors(p: Text): set<Text> {
    set k | 0 <= k < |p| && p[k] == SLASH :: p[..k]
  }

  /** The source's own spelling: the joins of the proper prefixes of the components. */
  function JoinedPrefixes(p: Text): set<Text> {
    set i | 1 <= i < |Split(p, SLASH)| :: Join(Split(p, SLASH)[..i], SLASH)
  }

  lemma JoinedPrefixesAreAncestors(p: Text)
    ensures JoinedPrefixes(p) == Ancestors(p)
    ensures forall a :: a in Ancestors(p) <==> IsAncestor(a, p)
  {
    var parts := Split(p, SLASH);
    forall i | 1 <= i < |parts| ensures Join(parts[..i], SLASH) in Ancestors(p) {
      var k := CutOfParts(p, SLASH, i);
    }
    forall k | 0 <= k < |p| && p[k] == SLASH ensures p[..k] in JoinedPrefixes(p) {
      var i := PartsOfCut(p, SLASH, k);
      JoinSplit(p[..k], SLASH);
      assert p[..k] == Join(parts[..i], SLASH);
    }
  }

  lemma AncestorOfCanonical(a: Text, p: Text, limits: Limits)
    requires Canonical(p, limits) && IsAncestor(a, p)
    ensures Canonical(a, limits)
  {
    var i := PartsOfCut(p, SLASH, |a|);
    assert forall part <- Split(a, SLASH) :: part in Split(p, SLASH);
    assert forall c <- a :: c in p;
    assert p == a + p[|a|..];
    Utf8Concat(a, p[|a|..]);
  }

  lemma AncestorTransitive(a: Text, b: Text, p: Text)
    requires IsAncestor(a, b) && (IsAncestor(b, p) || b == p)
    ensures IsAncestor(a, p)
  {
    assert b == p[..|b|];
  }

  function Depth(p: Text): nat { Count(p, SLASH) }

  lemma AncestorIsShallower(a: Text, p: Text)
    requires IsAncestor(a, p)
    ensures Depth(a) < Depth(p)
  {
    assert p == a + [SLASH] + p[|a| + 1..];
    CountConcat(a + [SLASH], p[|a| + 1..], SLASH);
    CountConcat(a, [SLASH], SLASH);
  }

  lemma {:induction false} AncestorCount(p: Text)
    ensures |Ancestors(p)| == Depth(p)
  {
    if p != [] {
      var q, last := p[..|p| - 1], p[|p| - 1];
      assert p == q + [last];
      AncestorCount(q);
      CountConcat(q, [last], SLASH);
      var step := if last == SLASH then {q} else {};
      assert forall k | 0 <= k < |q| :: p[..k] == q[..k] && p[k] == q[k];
      assert Ancestors(p) == Ancestors(q) + step;
      assert q !in Ancestors(q);
    }
  }

  /** Every component takes at least one character, so depth is bounded by length. */
  lemma {:induction false} DepthOfSpaced(p: Text)
    requires p != [] && p[|p| - 1] != SLASH && p[0] != SLASH && !HasDoubleSlash(p)
    ensures 2 * Depth(p) + 1 <= |p|
    decreases |p|
  {
    if |p| == 1 {
      assert p[1..] == [];
    } else if p[1] != SLASH {
      forall i | 0 <= i < |p[1..]| - 1 ensures !(p[1..][i] == SLASH && p[1..][i + 1] == SLASH) {
        assert !(p[i + 1] == SLASH && p[i + 1 + 1] == SLASH);
      }
      DepthOfSpaced(p[1..]);
    } else {
      assert !(p[1] == SLASH && p[1 + 1] == SLASH);
      forall i | 0 <= i < |p[2..]| - 1 ensures !(p[2..][i] == SLASH && p[2..][i + 1] == SLASH) {
        assert !(p[i + 2] == SLASH && p[i + 2 + 1] == SLASH);
      }
      DepthOfSpaced(p[2..]);
      assert p[1..][1..] == p[2..];
      assert Depth(p) == Count(p[1..], SLASH);
    }
  }

  /** A canonical path and its ancestors are at most half as many as its bytes, rounded up. */
  lemma LineageBound(p: Text, limits: Limits)
    requires Canonical(p, limits)
    ensures |{p} + Ancestors(p)| <= (limits.maxPathBytes + 1) / 2
  {
    CanonicalShape(p, limits);
    DepthOfSpaced(p);
    AncestorCount(p);
    assert |{p} + Ancestors(p)| <= 1 + |Ancestors(p)|;
  }

  // ---------------------------------------------------------------- parents

  /** The directory a path is created in; the empty text names the workspace root. */
  function Parent(p: Text): (q: Text)
    ensures |q| <= |p| && q == p[..|q|]
  {
    if p == [] then [] else
      if p[|p| - 1] == SLASH then p[..|p| - 1] else
        var q := Parent(p[..|p| - 1]);
        assert p[..|p| - 1][..|q|] == p[..|q|];
        q
  }

  lemma {:induction false} ParentIsLongestAncestor(p: Text)
    ensures Parent(p) == [] || IsAncestor(Parent(p), p)
    ensures forall a | IsAncestor(a, p) :: |a| <= |Parent(p)|
  {
    if p != [] {
      var q := p[..|p| - 1];
      if p[|p| - 1] != SLASH {
        ParentIsLongestAncestor(q);
        forall a | IsAncestor(a, p) ensures |a| <= |Parent(p)| {
          assert q[..|a|] == p[..|a|];
          assert IsAncestor(a, q);
        }
        if Parent(p) != [] {
          assert q[..|Parent(q)|] == p[..|Parent(q)|];
        }
      }
    }
  }
}
