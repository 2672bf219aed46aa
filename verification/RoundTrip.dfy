/** Build then materialise is the identity on source trees, up to the mode bits. */
module RoundTrip {
  import opened Wrappers
  import opened Text
  import opened Paths
  import opened Archive
  import opened Workspace
  import opened SourceTree

  // ---------------------------------------------------------------- the tree a build should deliver

  /** The nodes of a source tree, with the modes of a read-only workspace. */
  function Layout(path: Text, node: Node): Nodes
    decreases node
  {
    match node
    case File(mode, content) => map[path := FsFile(BuiltMode(mode), content)]
    case Folder(es) => LayoutAll(path, es)[path := FsDirectory(READ_ONLY_DIRECTORY)]
    case _ => map[]
  }

  function LayoutAll(relative: Text, es: seq<Entry>): Nodes
    decreases es
  {
    if es == [] then map[] else
      Layout(Child(relative, es[0].name), es[0].node) + LayoutAll(relative, es[1..])
  }

  /** Everything below the root except a top-level `.git`, and the root itself. */
  function Checkout(root: Node): Nodes
    requires root.Folder?
  {
    LayoutAll([], WithoutGit(root.entries))[[] := FsDirectory(READ_ONLY_DIRECTORY)]
  }

  // ---------------------------------------------------------------- members and layout agree

  predicate At(path: Text, q: Text) { q == path || IsAncestor(path, q) }

  function NodeOf(m: Member): FsNode {
    if m.kind == Directory then FsDirectory(READ_ONLY_DIRECTORY) else FsFile(FileMode(m), m.data)
  }

  function Pairs(ms: seq<Member>): set<(Text, FsNode)> { set m <- ms :: (PathOf(m), NodeOf(m)) }

  predicate PathLike(path: Text) { path != [] && path[|path| - 1] != SLASH }

  lemma ChildIsBelow(relative: Text, name: Text)
    requires NameOk(name)
    ensures PathLike(Child(relative, name))
    ensures relative != [] ==> IsAncestor(relative, Child(relative, name))
    ensures Child(relative, name) != relative
  {
    var path := Child(relative, name);
    assert path[|path| - 1] == name[|name| - 1];
    if relative != [] { assert path[..|relative|] == relative; }
  }

  lemma AtTrans(a: Text, b: Text, c: Text)
    requires At(a, b) && At(b, c)
    ensures At(a, c)
  {
    if a != b && b != c { AncestorTransitive(a, b, c); }
  }

  /** The component a path continues with below a directory. */
  function NextComponent(relative: Text, q: Text): Text {
    var k := |relative| + if relative == [] then 0 else 1;
    if k <= |q| then q[k..][..IndexOf(q[k..], SLASH)] else []
  }

  lemma NameIsNextComponent(relative: Text, name: Text, q: Text)
    requires NameOk(name) && At(Child(relative, name), q)
    ensures NextComponent(relative, q) == name
  {
    var p := Child(relative, name);
    var k := |relative| + if relative == [] then 0 else 1;
    var rest := q[k..];
    assert p == q[..|p|];
    assert forall i | 0 <= i < |name| :: rest[i] == p[k + i] == name[i];
    assert |rest| > |name| ==> rest[|name|] == q[|p|] == SLASH;
    var j := IndexOf(rest, SLASH);
    assert forall i | 0 <= i < j :: rest[i] == rest[..j][i];
    assert rest[..|name|] == name;
  }

  /** Distinct names lead to paths with nothing in common below them. */
  lemma SiblingsAreApart(relative: Text, a: Text, b: Text, q: Text)
    requires NameOk(a) && NameOk(b) && a != b
    requires At(Child(relative, a), q)
    ensures !At(Child(relative, b), q)
  {
    NameIsNextComponent(relative, a, q);
    if At(Child(relative, b), q) { NameIsNextComponent(relative, b, q); }
  }

  lemma BuiltModesAreSafe(mode: bv16)
    ensures !HasUnsafeBits(BuiltMode(mode)) && !HasUnsafeBits(READ_ONLY_DIRECTORY)
    ensures Executable(BuiltMode(mode)) == Executable(mode)
  {
  }

  lemma BuiltMember(path: Text, mode: bv16, content: Bytes)
    requires PathLike(path)
    ensures PathOf(FileMember(path, mode, content)) == path == PathOf(DirectoryMember(path))
    ensures NodeOf(FileMember(path, mode, content)) == FsFile(BuiltMode(mode), content)
    ensures NodeOf(DirectoryMember(path)) == FsDirectory(READ_ONLY_DIRECTORY)
    ensures SafeMember(FileMember(path, mode, content)) && SafeMember(DirectoryMember(path))
  {
    BuiltModesAreSafe(mode);
    assert (path + [SLASH])[..|path|] == path;
  }

  lemma NoPairs()
    ensures Pairs([]) == {}
  {
  }

  lemma PairsConcat(a: seq<Member>, b: seq<Member>)
    ensures Pairs(a + b) == Pairs(a) + Pairs(b)
  {
  }

  /** A map of nodes as a set of pairs. */
  function Items(nodes: Nodes): set<(Text, FsNode)> { set q <- nodes :: (q, nodes[q]) }

  lemma AddPair(nodes: Nodes, path: Text, node: FsNode)
    requires path !in nodes
    ensures Items(nodes[path := node]) == Items(nodes) + {(path, node)}
  {
    var more := nodes[path := node];
    assert forall q :: q in more <==> q == path || q in nodes;
    assert forall q <- nodes :: more[q] == nodes[q];
  }

  lemma JoinItems(a: Nodes, b: Nodes)
    requires a.Keys !! b.Keys
    ensures Items(a + b) == Items(a) + Items(b)
  {
    assert forall q :: q in a + b <==> q in a || q in b;
    assert forall q <- a :: (a + b)[q] == a[q];
    assert forall q <- b :: (a + b)[q] == b[q];
  }

  /** What the children of a directory contribute, as a set: the order of the children is gone. */
  ghost function AllItems(relative: Text, es: seq<Entry>): set<(Text, FsNode)> {
    set e <- es, item <- Items(Layout(Child(relative, e.name), e.node)) :: item
  }

  ghost function AllPairs(relative: Text, es: seq<Entry>): set<(Text, FsNode)> {
    set e <- es, pair <- Pairs(NodeMembers(Child(relative, e.name), e.node)) :: pair
  }

  lemma {:induction false} ListPairs(relative: Text, es: seq<Entry>)
    ensures Pairs(ListMembers(relative, es)) == AllPairs(relative, es)
    decreases |es|
  {
    hide NodeMembers, Child, Pairs;
    if es == [] {
      NoPairs();
    } else {
      ListPairs(relative, es[1..]);
      PairsConcat(NodeMembers(Child(relative, es[0].name), es[0].node), ListMembers(relative, es[1..]));
      assert forall e :: e in es <==> e == es[0] || e in es[1..];
    }
  }

  lemma OneMoreEntry(relative: Text, es: seq<Entry>)
    requires es != []
    ensures AllItems(relative, es) == Items(Layout(Child(relative, es[0].name), es[0].node)) + AllItems(relative, es[1..])
    ensures AllPairs(relative, es) == Pairs(NodeMembers(Child(relative, es[0].name), es[0].node)) + AllPairs(relative, es[1..])
  {
    hide Child, Layout, NodeMembers, Pairs;
    assert forall e :: e in es <==> e == es[0] || e in es[1..];
  }

  lemma LaterSibling(relative: Text, es: seq<Entry>, e: Entry, q: Text)
    requires WellFormedAll(es) && es != [] && e in es[1..]
    requires At(Child(relative, es[0].name), q)
    ensures !At(Child(relative, e.name), q)
  {
    hide WellFormed, Child, At;
    var i :| 0 <= i < |es[1..]| && es[1..][i] == e;
    assert es[0].name != es[i + 1].name && es[i + 1] in es;
    SiblingsAreApart(relative, es[0].name, e.name, q);
  }

  lemma TailIsWellFormed(es: seq<Entry>)
    requires WellFormedAll(es) && es != []
    ensures WellFormedAll(es[1..]) && NameOk(es[0].name) && WellFormed(es[0].node)
  {
    hide WellFormed, NameOk;
  }

  lemma {:induction false} ListIsLayout(relative: Text, es: seq<Entry>)
    requires WellFormedAll(es)
    ensures Items(LayoutAll(relative, es)) == AllItems(relative, es) == AllPairs(relative, es)
    ensures forall q <- LayoutAll(relative, es) :: exists e <- es :: At(Child(relative, e.name), q)
    ensures forall q <- LayoutAll(relative, es) :: relative != [] ==> IsAncestor(relative, q)
    decreases WeightAll(es), 0
  {
    hide WellFormed, WellFormedAll, NameOk, Child, Layout, NodeMembers, Pairs, At, IsAncestor, Weight;
    if es != [] {
      var e, rest := es[0], es[1..];
      var p := Child(relative, e.name);
      TailIsWellFormed(es);
      ChildIsBelow(relative, e.name);
      MembersAreLayout(p, e.node);
      ListIsLayout(relative, rest);
      var here, below := Layout(p, e.node), LayoutAll(relative, rest);
      forall q | q in here && q in below ensures false {
        var other :| other in rest && At(Child(relative, other.name), q);
        LaterSibling(relative, es, other, q);
      }
      JoinItems(here, below);
      OneMoreEntry(relative, es);
      forall q <- LayoutAll(relative, es) ensures relative != [] ==> IsAncestor(relative, q) {
        if relative != [] && q in here { AncestorIsAbove(relative, p, q); }
      }
      forall q <- LayoutAll(relative, es) ensures exists x <- es :: At(Child(relative, x.name), q) {
        if q in here {
          assert e in es && At(Child(relative, e.name), q);
        } else {
          var other :| other in rest && At(Child(relative, other.name), q);
          assert other in es;
        }
      }
    }
  }

  lemma AncestorIsAbove(a: Text, p: Text, q: Text)
    requires IsAncestor(a, p) && At(p, q)
    ensures IsAncestor(a, q)
  {
    if p != q { AncestorTransitive(a, p, q); }
  }

  lemma SameEntriesSamePairs(relative: Text, es: seq<Entry>, fs: seq<Entry>)
    requires forall e :: e in es <==> e in fs
    ensures AllPairs(relative, es) == AllPairs(relative, fs)
  {
    hide Child, NodeMembers, Pairs;
  }

  /** Which paths, and what is at each: the members of a node are exactly its layout. */
  lemma {:induction false} MembersAreLayout(path: Text, node: Node)
    requires PathLike(path) && WellFormed(node)
    ensures Items(Layout(path, node)) == Pairs(NodeMembers(path, node))
    ensures forall q <- Layout(path, node) :: At(path, q)
    decreases Weight(node), 1
  {
    match node
    case File(mode, content) =>
      BuiltMember(path, mode, content);
      AddPair(map[], path, FsFile(BuiltMode(mode), content));
    case Folder(es) =>
      FolderIsLayout(path, es);
    case _ =>
  }

  lemma {:induction false} FolderIsLayout(path: Text, es: seq<Entry>)
    requires PathLike(path) && WellFormedAll(es)
    ensures Items(Layout(path, Folder(es))) == Pairs(NodeMembers(path, Folder(es)))
    ensures forall q <- Layout(path, Folder(es)) :: At(path, q)
    decreases WeightAll(es), 2
  {
    hide WellFormed, WeightAll, Pairs, SortEntries, Child, NodeOf, BuiltMode, ListMembers, LayoutAll;
    ListIsLayout(path, es);
    var below := LayoutAll(path, es);
    assert path !in below;
    AddPair(below, path, FsDirectory(READ_ONLY_DIRECTORY));
    SortedIsScanned(es);
    SameEntriesSamePairs(path, es, SortEntries(es));
    ListPairs(path, SortEntries(es));
    DirectoryPairs(path, es);
  }

  lemma DirectoryPairs(path: Text, es: seq<Entry>)
    requires PathLike(path)
    ensures Pairs(NodeMembers(path, Folder(es)))
         == Pairs(ListMembers(path, SortEntries(es))) + {(path, FsDirectory(READ_ONLY_DIRECTORY))}
  {
    hide ListMembers, SortEntries;
    BuiltMember(path, 0, []);
    PairsConcat([DirectoryMember(path)], ListMembers(path, SortEntries(es)));
  }

  // ---------------------------------------------------------------- the members form an acceptable archive

  /** One directory's worth of members: a tree whose paths all lie at or below `path`. */
  predicate MembersOk(ms: seq<Member>, limits: Limits) {
    forall m <- ms ::
      && SafeMember(m)
      && Canonical(PathOf(m), limits)
      && (m.kind == Regular ==> |m.data| == m.size)
  }

  lemma PathsConcat(a: seq<Member>, b: seq<Member>)
    requires DistinctPaths(a) && DistinctPaths(b)
    requires forall x <- a, y <- b :: PathOf(x) != PathOf(y)
    ensures DistinctPaths(a + b)
  {
    hide PathOf;
    var ms := a + b;
    forall i, j | 0 <= i < j < |ms| ensures PathOf(ms[i]) != PathOf(ms[j]) {
      if j < |a| {
        assert ms[i] == a[i] && ms[j] == a[j];
      } else if |a| <= i {
        assert ms[i] == b[i - |a|] && ms[j] == b[j - |a|];
      } else {
        assert ms[i] in a && ms[j] in b;
      }
    }
  }

  lemma FilesConcat(a: seq<Member>, b: seq<Member>)
    requires NoFileAbove(a) && NoFileAbove(b)
    requires forall x <- a, y <- b :: !IsAncestor(PathOf(x), PathOf(y)) && !IsAncestor(PathOf(y), PathOf(x))
    ensures NoFileAbove(a + b)
  {
    hide PathOf, IsAncestor;
  }

  lemma MembersOkConcat(a: seq<Member>, b: seq<Member>, limits: Limits)
    requires MembersOk(a, limits) && MembersOk(b, limits)
    ensures MembersOk(a + b, limits)
  {
    hide SafeMember, Canonical, PathOf;
  }

  /** What is needed of the members of one node, or of one directory. */
  predicate TreeMembers(ms: seq<Member>, limits: Limits) {
    DistinctPaths(ms) && NoFileAbove(ms) && MembersOk(ms, limits)
  }

  lemma {:induction false} NodeIsTree(path: Text, node: Node, limits: Limits)
    requires PathLike(path) && WellFormed(node) && Clean(path, node, limits)
    ensures TreeMembers(NodeMembers(path, node), limits)
    ensures forall m <- NodeMembers(path, node) :: At(path, PathOf(m))
    decreases Weight(node), 1
  {
    match node
    case File(mode, content) =>
      BuiltMember(path, mode, content);
      SingleIsTree(FileMember(path, mode, content), limits);
    case Folder(es) =>
      FolderIsTree(path, es, limits);
  }

  lemma SingleIsTree(m: Member, limits: Limits)
    requires SafeMember(m) && Canonical(PathOf(m), limits) && (m.kind == Regular ==> |m.data| == m.size)
    ensures TreeMembers([m], limits)
  {
    hide SafeMember, Canonical, PathOf;
  }

  lemma SortedIsWellFormed(es: seq<Entry>)
    requires WellFormedAll(es)
    ensures WellFormedAll(SortEntries(es))
  {
    hide WellFormed, NameOk;
    SortedIsScanned(es);
    SortKeepsNamesDistinct(es);
  }

  lemma {:induction false} InsertKeepsNamesDistinct(e: Entry, es: seq<Entry>)
    requires DistinctNames(es) && forall x <- es :: x.name != e.name
    ensures DistinctNames(InsertEntry(e, es))
  {
    hide SortKey, Before, DistinctNames;
    if es == [] || !Before(SortKey(es[0]), SortKey(e)) {
      OneMoreName(e, es);
    } else {
      var rest := InsertEntry(e, es[1..]);
      OtherNames(es);
      InsertKeepsNamesDistinct(e, es[1..]);
      InsertedEntries(e, es[1..]);
      OneMoreName(es[0], rest);
    }
  }

  lemma InsertedEntries(e: Entry, es: seq<Entry>)
    ensures forall x <- InsertEntry(e, es) :: x == e || x in es
    ensures e in InsertEntry(e, es) && forall x <- es :: x in InsertEntry(e, es)
  {
    hide SortKey, Before;
    forall x ensures x in InsertEntry(e, es) <==> x == e || x in es {
      assert x in InsertEntry(e, es) <==> x in multiset(InsertEntry(e, es));
      assert x in es <==> x in multiset(es);
    }
  }

  lemma NamesOfNone()
    ensures DistinctNames([])
  {
  }

  lemma OneMoreName(e: Entry, es: seq<Entry>)
    requires DistinctNames(es) && forall x <- es :: x.name != e.name
    ensures DistinctNames([e] + es)
  {
  }

  lemma OtherNames(es: seq<Entry>)
    requires DistinctNames(es) && es != []
    ensures DistinctNames(es[1..]) && forall x <- es[1..] :: x in es && x.name != es[0].name
  {
    forall x <- es[1..] ensures x in es && x.name != es[0].name {
      var i :| 0 <= i < |es[1..]| && es[1..][i] == x;
      assert es[i + 1] == x;
    }
  }

  lemma {:induction false} SortKeepsNamesDistinct(es: seq<Entry>)
    requires DistinctNames(es)
    ensures DistinctNames(SortEntries(es))
  {
    hide InsertEntry, DistinctNames;
    if es == [] {
      NamesOfNone();
    } else {
      OtherNames(es);
      SortKeepsNamesDistinct(es[1..]);
      SortedIsScanned(es[1..]);
      InsertKeepsNamesDistinct(es[0], SortEntries(es[1..]));
    }
  }

  /** A directory member in front of a tree below it makes a tree. */
  lemma RootedIsTree(path: Text, below: seq<Member>, limits: Limits)
    requires PathLike(path) && Canonical(path, limits) && TreeMembers(below, limits)
    requires forall m <- below :: IsAncestor(path, PathOf(m))
    ensures TreeMembers([DirectoryMember(path)] + below, limits)
    ensures forall m <- [DirectoryMember(path)] + below :: At(path, PathOf(m))
  {
    var root := DirectoryMember(path);
    BuiltMember(path, 0, []);
    hide Canonical, SafeMember;
    SingleIsTree(root, limits);
    hide PathOf, MembersOk, IsAncestor;
    forall m <- below ensures PathOf(m) != path { AncestorIsProper(path); }
    PathsConcat([root], below);
    hide DistinctPaths;
    assert NoFileAbove([root] + below) by { assert forall m <- [root] + below :: m == root || m in below; }
    MembersOkConcat([root], below, limits);
  }

  lemma AncestorIsProper(path: Text)
    ensures !IsAncestor(path, path)
  {
  }

  lemma {:induction false} FolderIsTree(path: Text, es: seq<Entry>, limits: Limits)
    requires PathLike(path) && WellFormedAll(es) && Clean(path, Folder(es), limits)
    ensures TreeMembers(NodeMembers(path, Folder(es)), limits)
    ensures forall m <- NodeMembers(path, Folder(es)) :: At(path, PathOf(m))
    decreases WeightAll(es), 2
  {
    SortedIsWellFormed(es);
    SortedIsScanned(es);
    hide WellFormed, WellFormedAll, WeightAll, ListMembers, SortEntries, Canonical, SafeMember, MembersOk, Child;
    var sorted := SortEntries(es);
    ListIsTree(path, sorted, limits);
    var below := ListMembers(path, sorted);
    forall m <- below ensures IsAncestor(path, PathOf(m)) { assert BelowSome(path, sorted, PathOf(m)); }
    hide PathOf, TreeMembers, PathLike, IsAncestor, At;
    RootedIsTree(path, below, limits);
  }

  predicate BelowSome(relative: Text, es: seq<Entry>, q: Text) {
    && (exists e <- es :: At(Child(relative, e.name), q))
    && (relative != [] ==> IsAncestor(relative, q))
  }

  lemma {:induction false} ListIsTree(relative: Text, es: seq<Entry>, limits: Limits)
    requires WellFormedAll(es) && CleanAll(relative, es, limits)
    ensures TreeMembers(ListMembers(relative, es), limits)
    ensures forall m <- ListMembers(relative, es) :: BelowSome(relative, es, PathOf(m))
    decreases WeightAll(es), 0
  {
    hide WellFormed, WellFormedAll, NameOk, Child, NodeMembers, Clean, At, Weight, PathOf, TreeMembers, BelowSome;
    if es == [] {
      NoMembersAreTree(limits);
    } else {
      var e, rest := es[0], es[1..];
      var p := Child(relative, e.name);
      TailIsWellFormed(es);
      ChildIsBelow(relative, e.name);
      NodeIsTree(p, e.node, limits);
      ListIsTree(relative, rest, limits);
      var here, below := NodeMembers(p, e.node), ListMembers(relative, rest);
      forall x <- here, y <- below ensures Apart(PathOf(x), PathOf(y)) {
        BelowLater(relative, es, PathOf(x), PathOf(y));
      }
      JoinTrees(here, below, limits);
      forall m <- here + below ensures BelowSome(relative, es, PathOf(m)) {
        BelowHere(relative, es, PathOf(m), m in here);
      }
    }
  }

  lemma NoMembersAreTree(limits: Limits)
    ensures TreeMembers([], limits)
  {
  }

  predicate Apart(p: Text, q: Text) { p != q && !IsAncestor(p, q) && !IsAncestor(q, p) }

  lemma JoinTrees(a: seq<Member>, b: seq<Member>, limits: Limits)
    requires TreeMembers(a, limits) && TreeMembers(b, limits)
    requires forall x <- a, y <- b :: Apart(PathOf(x), PathOf(y))
    ensures TreeMembers(a + b, limits)
  {
    hide PathOf, IsAncestor, MembersOk, DistinctPaths, NoFileAbove;
    assert forall x <- a, y <- b :: PathOf(x) != PathOf(y) by {
      forall x <- a, y <- b ensures PathOf(x) != PathOf(y) { assert Apart(PathOf(x), PathOf(y)); }
    }
    assert forall x <- a, y <- b :: !IsAncestor(PathOf(x), PathOf(y)) && !IsAncestor(PathOf(y), PathOf(x)) by {
      forall x <- a, y <- b ensures !IsAncestor(PathOf(x), PathOf(y)) && !IsAncestor(PathOf(y), PathOf(x)) {
        assert Apart(PathOf(x), PathOf(y));
      }
    }
    PathsConcat(a, b);
    FilesConcat(a, b);
    MembersOkConcat(a, b, limits);
  }

  lemma BelowLater(relative: Text, es: seq<Entry>, p: Text, q: Text)
    requires WellFormedAll(es) && es != []
    requires At(Child(relative, es[0].name), p) && BelowSome(relative, es[1..], q)
    ensures Apart(p, q)
  {
    hide WellFormed, WellFormedAll, Child;
    var e :| e in es[1..] && At(Child(relative, e.name), q);
    LaterSibling(relative, es, e, p);
    if p == q || IsAncestor(p, q) { AtTrans(Child(relative, es[0].name), p, q); LaterSibling(relative, es, e, q); }
    if IsAncestor(q, p) { AtTrans(Child(relative, e.name), q, p); }
  }

  lemma BelowHere(relative: Text, es: seq<Entry>, q: Text, here: bool)
    requires es != [] && NameOk(es[0].name)
    requires if here then At(Child(relative, es[0].name), q) else BelowSome(relative, es[1..], q)
    ensures BelowSome(relative, es, q)
  {
    hide NameOk;
    ChildIsBelow(relative, es[0].name);
    if here {
      assert es[0] in es;
      if relative != [] { AncestorIsAbove(relative, Child(relative, es[0].name), q); }
    } else {
      var e :| e in es[1..] && At(Child(relative, e.name), q);
      assert e in es;
    }
  }

  // ---------------------------------------------------------------- every directory is declared

  /** Every ancestor strictly below `relative` of every member is declared as a directory. */
  ghost predicate Declares(ms: seq<Member>, relative: Text) {
    forall m <- ms, a | IsAncestor(a, PathOf(m)) && (|a| > |relative| || relative == []) :: a in DeclaredDirectories(ms)
  }

  lemma ShortAncestor(relative: Text, name: Text, a: Text, q: Text)
    requires NameOk(name) && At(Child(relative, name), q)
    requires IsAncestor(a, q) && (|a| > |relative| || relative == [])
    ensures |Child(relative, name)| <= |a|
  {
    var p := Child(relative, name);
    var k := |relative| + if relative == [] then 0 else 1;
    assert p == q[..|p|];
    assert forall i | k <= i < |p| :: q[i] == p[i] == name[i - k];
  }

  lemma {:induction false} NodeDeclares(path: Text, node: Node)
    requires PathLike(path) && WellFormed(node)
    ensures forall m <- NodeMembers(path, node), a | IsAncestor(a, PathOf(m)) && |a| >= |path| ::
              a in DeclaredDirectories(NodeMembers(path, node))
    ensures forall m <- NodeMembers(path, node) :: At(path, PathOf(m))
    decreases Weight(node), 1
  {
    match node
    case File(mode, content) =>
      BuiltMember(path, mode, content);
    case Folder(es) =>
      FolderDeclares(path, es);
    case _ =>
  }

  lemma {:induction false} FolderDeclares(path: Text, es: seq<Entry>)
    requires PathLike(path) && WellFormedAll(es)
    ensures forall m <- NodeMembers(path, Folder(es)), a | IsAncestor(a, PathOf(m)) && |a| >= |path| ::
              a in DeclaredDirectories(NodeMembers(path, Folder(es)))
    ensures forall m <- NodeMembers(path, Folder(es)) :: At(path, PathOf(m))
    decreases WeightAll(es), 2
  {
    SortedIsWellFormed(es);
    BuiltMember(path, 0, []);
    var sorted := SortEntries(es);
    ListDeclares(path, sorted);
    var below := ListMembers(path, sorted);
    var all := [DirectoryMember(path)] + below;
    assert NodeMembers(path, Folder(es)) == all;
    hide NodeMembers, ListMembers, SortEntries, WellFormedAll, WellFormed, PathOf;
    forall m <- below ensures IsAncestor(path, PathOf(m)) { assert BelowSome(path, sorted, PathOf(m)); }
    assert DirectoryMember(path) in all && path in DeclaredDirectories(all);
    forall m <- all, a | IsAncestor(a, PathOf(m)) && |a| >= |path| ensures a in DeclaredDirectories(all) {
      if m in below {
        if |a| == |path| {
          assert a == path;
        } else {
          assert a in DeclaredDirectories(below);
        }
      }
    }
  }

  lemma {:induction false} ListDeclares(relative: Text, es: seq<Entry>)
    requires WellFormedAll(es)
    ensures Declares(ListMembers(relative, es), relative)
    ensures forall m <- ListMembers(relative, es) :: BelowSome(relative, es, PathOf(m))
    decreases WeightAll(es), 0
  {
    hide WellFormed, WellFormedAll, NameOk, Child, NodeMembers, At, Weight, PathOf, BelowSome, IsAncestor;
    if es != [] {
      var e, rest := es[0], es[1..];
      var p := Child(relative, e.name);
      TailIsWellFormed(es);
      ChildIsBelow(relative, e.name);
      NodeDeclares(p, e.node);
      ListDeclares(relative, rest);
      var here, below := NodeMembers(p, e.node), ListMembers(relative, rest);
      var all := here + below;
      forall m <- all ensures BelowSome(relative, es, PathOf(m)) {
        BelowHere(relative, es, PathOf(m), m in here);
      }
      forall m <- all, a | IsAncestor(a, PathOf(m)) && (|a| > |relative| || relative == [])
        ensures a in DeclaredDirectories(all)
      {
        if m in here {
          ShortAncestor(relative, e.name, a, PathOf(m));
          assert a in DeclaredDirectories(here);
        } else {
          assert a in DeclaredDirectories(below);
        }
      }
    }
  }

  lemma NothingImplied(ms: seq<Member>)
    requires Declares(ms, [])
    ensures Directories(ms) == DeclaredDirectories(ms)
  {
    forall a <- AllAncestors(PathSet(ms)) ensures a in DeclaredDirectories(ms) {
      var q :| q in PathSet(ms) && a in Ancestors(q);
      JoinedPrefixesAreAncestors(q);
      var m :| m in ms && PathOf(m) == q;
    }
  }

  // ---------------------------------------------------------------- the round trip

  /** The entries a build archives from a folder at the root. */
  function RootEntries(root: Node): seq<Entry>
    requires root.Folder?
  {
    WithoutGit(SortEntries(root.entries))
  }

  lemma {:induction false} WithoutGitSelects(es: seq<Entry>)
    ensures forall x <- WithoutGit(es) :: x in es
  {
    if es != [] {
      WithoutGitSelects(es[1..]);
      assert forall x <- es[1..] :: x in es;
    }
  }

  lemma {:induction false} WithoutGitIsDistinct(es: seq<Entry>)
    requires DistinctNames(es)
    ensures DistinctNames(WithoutGit(es))
  {
    hide DistinctNames;
    if es == [] {
      NamesOfNone();
    } else {
      OtherNames(es);
      WithoutGitIsDistinct(es[1..]);
      WithoutGitSelects(es[1..]);
      OneMoreName(es[0], WithoutGit(es[1..]));
    }
  }

  lemma WithoutGitIsWellFormed(es: seq<Entry>)
    requires WellFormedAll(es)
    ensures WellFormedAll(WithoutGit(es))
  {
    WithoutGitSelects(es);
    WithoutGitIsDistinct(es);
    hide WellFormed, NameOk, DistinctNames, WithoutGit;
  }

  lemma SourceIsTree(root: Node, limits: Limits, codec: Codec)
    requires WellFormed(root) && Buildable(root, limits, codec)
    ensures TreeMembers(SourceMembers(root), limits)
    ensures Declares(SourceMembers(root), [])
  {
    SortedIsWellFormed(root.entries);
    WithoutGitIsWellFormed(SortEntries(root.entries));
    ListIsTree([], RootEntries(root), limits);
    ListDeclares([], RootEntries(root));
  }

  lemma AdmittedAt(ms: seq<Member>, m: Member, limits: Limits, codec: Codec)
    requires Admitted(ms, 0, limits, codec) && m in ms
    ensures m.kind == Regular ==> m.size <= limits.maxFileBytes
  {
    var i :| 0 <= i < |ms| && ms[i] == m;
    assert AdmittedLast(ms[..i + 1], limits, codec);
    assert ms[..i + 1][i] == m;
  }

  /** The validator accepts whatever a build writes, so the closing pass of the builder cannot fail. */
  lemma BuiltArchivesAreAcceptable(root: Node, limits: Limits, codec: Codec)
    requires WellFormed(root) && Buildable(root, limits, codec)
    ensures Acceptable(SourceMembers(root), limits)
  {
    SourceIsTree(root, limits, codec);
    hide SourceMembers;
    var ms := SourceMembers(root);
    forall m <- ms ensures MemberOk(m, limits) { AdmittedAt(ms, m, limits, codec); }
    if ms != [] {
      assert ms[..|ms|] == ms;
      assert AdmittedLast(ms, limits, codec);
    }
  }

  lemma WorkspaceIsItems(ms: seq<Member>)
    requires DistinctPaths(ms) && Directories(ms) == DeclaredDirectories(ms) && [] !in PathSet(ms)
    requires PathSet(ms) == DeclaredDirectories(ms) + FilePaths(ms)
    requires DeclaredDirectories(ms) !! FilePaths(ms)
    ensures Items(WorkspaceOf(ms)) == Pairs(ms) + {([], FsDirectory(READ_ONLY_DIRECTORY))}
  {
    FileNodesByPath(ms);
    var w := WorkspaceOf(ms);
    forall q <- w ensures (q, w[q]) in Pairs(ms) + {([], FsDirectory(READ_ONLY_DIRECTORY))} {
      if q in FilePaths(ms) {
        var m :| m in ms && m.kind == Regular && PathOf(m) == q;
        assert w[q] == NodeOf(m);
      } else if q != [] {
        var m :| m in ms && m.kind == Directory && PathOf(m) == q;
        assert w[q] == NodeOf(m);
      }
    }
    forall m <- ms ensures PathOf(m) in w && w[PathOf(m)] == NodeOf(m) {
      assert PathOf(m) in PathSet(ms);
      if m.kind == Directory {
        assert PathOf(m) in DeclaredDirectories(ms);
      } else {
        var n :| n in ms && PathOf(n) == PathOf(m) && (n.kind == Directory || n.kind == Regular);
        PathIdentifies(ms, m, n);
      }
    }
  }

  lemma ItemsDetermine(a: Nodes, b: Nodes)
    requires Items(a) == Items(b)
    ensures a == b
  {
    forall q <- a ensures q in b && b[q] == a[q] { assert (q, a[q]) in Items(b); }
    forall q <- b ensures q in a { assert (q, b[q]) in Items(a); }
  }

  /**
    The round trip: what a successful build archives can be delivered, and
    delivering it gives the source tree back, without a top-level `.git` and
    with every write bit gone.
   */
  lemma BuildThenMaterialize(root: Node, limits: Limits, codec: Codec)
    requires WellFormed(root) && Buildable(root, limits, codec)
    ensures var ms := SourceMembers(root);
            var artifact := SourceArtifact(ms, Some(codec.manifestDigest(ManifestOf(ms, codec.sha))));
            Deliverable(artifact, limits, codec) && WorkspaceOf(ms) == Checkout(root)
  {
    var ms, es, kept := SourceMembers(root), RootEntries(root), WithoutGit(root.entries);
    BuiltArchivesAreAcceptable(root, limits, codec);
    SourceIsTree(root, limits, codec);
    NothingImplied(ms);
    PathsAreDirectoriesOrFiles(ms, limits);
    EmptyIsNoPath(ms, limits);
    forall f <- FilePaths(ms) ensures f !in DeclaredDirectories(ms) { FilesAreNotDirectories(ms, f); }
    WorkspaceIsItems(ms);
    RootItems(root);
    ItemsDetermine(WorkspaceOf(ms), Checkout(root));
  }

  /** Under the manifest digest of a build, nothing but the source tree can be delivered. */
  lemma OnlyTheSourceIsDelivered(root: Node, ns: seq<Member>, limits: Limits, codec: Codec)
    requires WellFormed(root) && Buildable(root, limits, codec)
    requires Injective(codec.sha) && forall a, b | codec.manifestDigest(a) == codec.manifestDigest(b) :: a == b
    requires Deliverable(SourceArtifact(ns, Some(codec.manifestDigest(ManifestOf(SourceMembers(root), codec.sha)))), limits, codec)
    ensures WorkspaceOf(ns) == Checkout(root)
  {
    hide Checkout, Deliverable, ManifestOf, Injective, WorkspaceOf, SourceMembers;
    BuildThenMaterialize(root, limits, codec);
    var digest := codec.manifestDigest(ManifestOf(SourceMembers(root), codec.sha));
    DigestFixesWorkspace(SourceMembers(root), ns, digest, limits, codec);
  }

  lemma RootItems(root: Node)
    requires root.Folder? && WellFormed(root)
    ensures Items(Checkout(root)) == Pairs(SourceMembers(root)) + {([], FsDirectory(READ_ONLY_DIRECTORY))}
  {
    var es, kept := RootEntries(root), WithoutGit(root.entries);
    assert WellFormedAll(root.entries);
    WithoutGitIsWellFormed(root.entries);
    ListIsLayout([], kept);
    SortedIsScanned(root.entries);
    hide WellFormed, WellFormedAll, SortEntries, WithoutGit, ListMembers, LayoutAll, Pairs, AllPairs, Child;
    SameEntriesSamePairs([], es, kept);
    ListPairs([], es);
    RootIsNowhere(kept);
    AddPair(LayoutAll([], kept), [], FsDirectory(READ_ONLY_DIRECTORY));
  }

  lemma RootIsNowhere(es: seq<Entry>)
    requires WellFormedAll(es)
    ensures [] !in LayoutAll([], es)
  {
    ListIsLayout([], es);
    hide WellFormed, LayoutAll, Child;
    forall e <- es ensures !At(Child([], e.name), []) { ChildIsBelow([], e.name); }
  }

  // ---------------------------------------------------------------- scan order

  /** A source tree with the order of its scans forgotten. */
  datatype View = FileView(mode: bv16, content: Bytes) | FolderView(children: map<Text, View>) | LinkView | DeviceView

  function ViewOf(node: Node): View {
    match node
    case File(mode, content) => FileView(mode, content)
    case Folder(es) => FolderView(ViewAll(es))
    case Link => LinkView
    case Device => DeviceView
  }

  function ViewAll(es: seq<Entry>): map<Text, View> {
    if es == [] then map[] else ViewAll(es[1..])[es[0].name := ViewOf(es[0].node)]
  }

  predicate StrictlySorted(es: seq<Entry>) {
    forall i, j :: 0 <= i < j < |es| ==> Before(SortKey(es[i]), SortKey(es[j]))
  }

  lemma {:induction false} InsertSorts(e: Entry, es: seq<Entry>)
    requires StrictlySorted(es) && forall x <- es :: x.name != e.name
    ensures StrictlySorted(InsertEntry(e, es))
    ensures forall x :: x in InsertEntry(e, es) <==> x == e || x in es
  {
    hide SortKey;
    var r := InsertEntry(e, es);
    if es != [] {
      KeysDiffer(es[0], e);
      if !Before(SortKey(es[0]), SortKey(e)) {
        assert Before(SortKey(e), SortKey(es[0]));
        forall j | 0 < j < |es| ensures Before(SortKey(e), SortKey(es[j])) {
          BeforeTransitive(SortKey(e), SortKey(es[0]), SortKey(es[j]));
        }
        assert r == [e] + es;
      } else {
        assert StrictlySorted(es[1..]);
        InsertSorts(e, es[1..]);
        var rest := InsertEntry(e, es[1..]);
        assert r == [es[0]] + rest;
        forall x <- rest ensures Before(SortKey(es[0]), SortKey(x)) {
          if x != e {
            var i :| 0 <= i < |es[1..]| && es[1..][i] == x;
            assert Before(SortKey(es[0]), SortKey(es[i + 1]));
          }
        }
        forall i, j | 0 <= i < j < |r| ensures Before(SortKey(r[i]), SortKey(r[j])) {
          assert r[j] == rest[j - 1] && r[j] in rest;
          if i > 0 { assert r[i] == rest[i - 1]; }
        }
      }
    }
  }

  lemma KeysDiffer(a: Entry, b: Entry)
    requires a.name != b.name
    ensures Before(SortKey(a), SortKey(b)) || Before(SortKey(b), SortKey(a))
  {
    BeforeTotal(SortKey(a), SortKey(b));
    if SortKey(a) == SortKey(b) { Utf8Injective(a.name, b.name); }
  }

  lemma {:induction false} SortSorts(es: seq<Entry>)
    requires DistinctNames(es)
    ensures StrictlySorted(SortEntries(es))
    ensures ViewAll(SortEntries(es)) == ViewAll(es)
  {
    if es != [] {
      assert DistinctNames(es[1..]);
      SortSorts(es[1..]);
      SortedIsScanned(es[1..]);
      forall x <- es[1..] ensures x.name != es[0].name {
        var i :| 0 <= i < |es[1..]| && es[1..][i] == x;
        assert es[0].name != es[i + 1].name;
      }
      hide SortKey, StrictlySorted, SortEntries;
      InsertSorts(es[0], SortEntries(es[1..]));
      InsertViews(es[0], SortEntries(es[1..]));
      SortStep(es);
    }
  }

  lemma SortStep(es: seq<Entry>)
    requires es != []
    ensures SortEntries(es) == InsertEntry(es[0], SortEntries(es[1..]))
  {
  }

  lemma UpdatesCommute<K, V>(m: map<K, V>, a: K, x: V, b: K, y: V)
    requires a != b
    ensures m[a := x][b := y] == m[b := y][a := x]
  {
  }

  lemma ViewStep(e: Entry, es: seq<Entry>)
    ensures ViewAll([e] + es) == ViewAll(es)[e.name := ViewOf(e.node)]
  {
    hide ViewOf;
    assert ([e] + es)[1..] == es;
  }

  lemma {:induction false} InsertViews(e: Entry, es: seq<Entry>)
    requires forall x <- es :: x.name != e.name
    ensures ViewAll(InsertEntry(e, es)) == ViewAll(es)[e.name := ViewOf(e.node)]
  {
    if es == [] || !Before(SortKey(es[0]), SortKey(e)) {
      hide ViewAll, ViewOf;
      ViewStep(e, es);
    } else {
      assert InsertEntry(e, es) == [es[0]] + InsertEntry(e, es[1..]);
      assert es == [es[0]] + es[1..];
      hide ViewAll, ViewOf, SortKey, Before, InsertEntry;
      InsertViews(e, es[1..]);
      ViewStep(es[0], InsertEntry(e, es[1..]));
      ViewStep(es[0], es[1..]);
      UpdatesCommute(ViewAll(es[1..]), e.name, ViewOf(e.node), es[0].name, ViewOf(es[0].node));
    }
  }

  lemma {:induction false} ViewedNames(es: seq<Entry>, name: Text)
    ensures name in ViewAll(es) <==> exists e <- es :: e.name == name
  {
    hide ViewOf;
    if es != [] {
      ViewedNames(es[1..], name);
      assert forall e :: e in es <==> e == es[0] || e in es[1..];
    }
  }

  /** Two sorted directories with the same view start with the same child. */
  lemma SameFirstChild(es: seq<Entry>, fs: seq<Entry>)
    requires StrictlySorted(es) && StrictlySorted(fs) && es != [] && ViewAll(es) == ViewAll(fs)
    ensures fs != [] && es[0].name == fs[0].name && ViewOf(es[0].node) == ViewOf(fs[0].node)
    ensures ViewAll(es[1..]) == ViewAll(fs[1..])
  {
    hide ViewOf;
    ViewedNames(es, es[0].name);
    ViewedNames(fs, es[0].name);
    assert fs != [];
    ViewedNames(fs, fs[0].name);
    ViewedNames(es, fs[0].name);
    var i: nat :| i < |fs| && fs[i].name == es[0].name;
    var j: nat :| j < |es| && es[j].name == fs[0].name;
    if i > 0 && j > 0 {
      assert Before(SortKey(fs[0]), SortKey(fs[i])) && Before(SortKey(es[0]), SortKey(es[j]));
      BeforeTotal(SortKey(es[0]), SortKey(fs[0]));
    }
    assert es[0].name == fs[0].name;
    FirstIsGone(es);
    FirstIsGone(fs);
  }

  lemma FirstNameIsUnique(es: seq<Entry>)
    requires StrictlySorted(es) && es != []
    ensures forall x <- es[1..] :: x.name != es[0].name
  {
    hide Before;
    forall x <- es[1..] ensures x.name != es[0].name {
      var i :| 0 <= i < |es[1..]| && es[1..][i] == x;
      assert Before(SortKey(es[0]), SortKey(es[i + 1]));
      BeforeTotal(SortKey(es[0]), SortKey(es[0]));
    }
  }

  lemma RemoveAdded<K, V>(m: map<K, V>, k: K, v: V)
    requires k !in m
    ensures m[k := v] - {k} == m
  {
  }

  lemma FirstIsGone(es: seq<Entry>)
    requires StrictlySorted(es) && es != []
    ensures es[0].name in ViewAll(es) && ViewAll(es)[es[0].name] == ViewOf(es[0].node)
    ensures ViewAll(es[1..]) == ViewAll(es) - {es[0].name}
  {
    FirstNameIsUnique(es);
    ViewedNames(es[1..], es[0].name);
    assert es == [es[0]] + es[1..];
    ViewStep(es[0], es[1..]);
    hide ViewAll, ViewOf, StrictlySorted;
    RemoveAdded(ViewAll(es[1..]), es[0].name, ViewOf(es[0].node));
  }

  lemma {:induction false} SameViewSameMembers(path: Text, a: Node, b: Node)
    requires WellFormed(a) && WellFormed(b) && ViewOf(a) == ViewOf(b)
    ensures NodeMembers(path, a) == NodeMembers(path, b)
    decreases Weight(a), 1
  {
    if a.Folder? {
      SortSorts(a.entries);
      SortSorts(b.entries);
      SortedIsWellFormed(a.entries);
      SortedIsWellFormed(b.entries);
      SameViewSameList(path, SortEntries(a.entries), SortEntries(b.entries));
    }
  }

  lemma {:induction false} SameViewSameList(relative: Text, es: seq<Entry>, fs: seq<Entry>)
    requires WellFormedAll(es) && WellFormedAll(fs)
    requires StrictlySorted(es) && StrictlySorted(fs) && ViewAll(es) == ViewAll(fs)
    ensures ListMembers(relative, es) == ListMembers(relative, fs)
    decreases WeightAll(es), 0
  {
    hide WellFormed, WellFormedAll, NodeMembers, ViewOf, SortKey, Child, Before, ViewAll;
    if es == [] {
      if fs != [] { SameFirstChild(fs, es); }
    } else {
      SameFirstChild(es, fs);
      TailIsWellFormed(es);
      TailIsWellFormed(fs);
      SameViewSameMembers(Child(relative, es[0].name), es[0].node, fs[0].node);
      SameViewSameList(relative, es[1..], fs[1..]);
    }
  }

  /** The archive of a tree does not depend on the order its directories are scanned in. */
  lemma ScanOrderIsIrrelevant(a: Node, b: Node)
    requires a.Folder? && WellFormed(a) && WellFormed(b) && ViewOf(a) == ViewOf(b)
    ensures SourceMembers(a) == SourceMembers(b)
  {
    var es, fs := SortEntries(a.entries), SortEntries(b.entries);
    SortSorts(a.entries);
    SortSorts(b.entries);
    SortedIsWellFormed(a.entries);
    SortedIsWellFormed(b.entries);
    WithoutGitIsWellFormed(es);
    WithoutGitIsWellFormed(fs);
    WithoutGitIsSorted(es);
    WithoutGitIsSorted(fs);
    WithoutGitViews(es);
    WithoutGitViews(fs);
    SameViewSameList([], WithoutGit(es), WithoutGit(fs));
  }

  lemma {:induction false} WithoutGitIsSorted(es: seq<Entry>)
    requires StrictlySorted(es)
    ensures StrictlySorted(WithoutGit(es))
  {
    hide SortKey, Before;
    if es != [] {
      assert StrictlySorted(es[1..]);
      WithoutGitIsSorted(es[1..]);
      var rest := WithoutGit(es[1..]);
      if es[0].name != GIT_CONTROL_FILE {
        var r := [es[0]] + rest;
        forall x <- rest ensures Before(SortKey(es[0]), SortKey(x)) {
          var i :| 0 <= i < |es[1..]| && es[1..][i] == x;
          assert Before(SortKey(es[0]), SortKey(es[i + 1]));
        }
        assert forall i | 0 < i < |r| :: r[i] == rest[i - 1] && r[i] in rest;
      }
    }
  }

  lemma WithAndWithout<V>(m: map<Text, V>, name: Text, v: V, gone: Text)
    ensures m[name := v] - {gone} == if name == gone then m - {gone} else (m - {gone})[name := v]
  {
  }

  lemma {:induction false} WithoutGitViews(es: seq<Entry>)
    ensures ViewAll(WithoutGit(es)) == ViewAll(es) - {GIT_CONTROL_FILE}
  {
    if es != [] {
      var rest := WithoutGit(es[1..]);
      assert es == [es[0]] + es[1..];
      ViewStep(es[0], es[1..]);
      ViewStep(es[0], rest);
      assert WithoutGit(es) == if es[0].name == GIT_CONTROL_FILE then rest else [es[0]] + rest;
      WithoutGitViews(es[1..]);
      hide ViewAll, ViewOf, WithoutGit;
      WithAndWithout(ViewAll(es[1..]), es[0].name, ViewOf(es[0].node), GIT_CONTROL_FILE);
    }
  }

  // ---------------------------------------------------------------- the two operations

  /** Builds an artifact exactly when the tree is clean and within bounds; the closing validation agrees. */
  method BuildSourceArtifact(root: Node, limits: Limits, codec: Codec) returns (r: Result<SourceArtifact, Refusal>)
    requires WellFormed(root)
    ensures r.Ok? <==> Buildable(root, limits, codec)
    ensures r.Ok? ==> r.value == SourceArtifact(SourceMembers(root),
                        Some(codec.manifestDigest(ManifestOf(SourceMembers(root), codec.sha))))
    ensures r.Ok? ==> codec.writtenBytes(r.value.members) <= limits.maxArchiveBytes && codec.tarBytes(r.value.members) <= limits.maxArchiveBytes
  {
    if !root.Folder? { return Err(SourceUnreadable); }
    var builder := new Builder(limits, codec);
    var added := builder.AddSourceDirectory([], root.entries);
    assert [] + SourceMembers(root) == SourceMembers(root);
    if added.Err? { return Err(added.error); }
    var ms := builder.members;
    if codec.writtenBytes(ms) > limits.maxArchiveBytes { return Err(ArchiveTooLarge); }
    if codec.tarBytes(ms) > limits.maxArchiveBytes { return Err(ArchiveTooLarge); }
    BuiltArchivesAreAcceptable(root, limits, codec);
    var validation := ValidateArchive(ms, limits, codec.sha);
    return Ok(SourceArtifact(ms, Some(codec.manifestDigest(validation.value.manifest))));
  }

  /** A build followed by its delivery into a fresh workspace leaves the source tree there. */
  method Deliver(root: Node, limits: Limits, codec: Codec) returns (r: Result<Filesystem, Refusal>)
    requires WellFormed(root)
    ensures r.Ok? <==> Buildable(root, limits, codec)
    ensures r.Ok? ==> fresh(r.value) && r.value.nodes == Checkout(root)
  {
    var built := BuildSourceArtifact(root, limits, codec);
    if built.Err? { return Err(built.error); }
    assert Deliverable(built.value, limits, codec) && WorkspaceOf(built.value.members) == Checkout(root) by {
      BuildThenMaterialize(root, limits, codec);
    }
    PrivateDirectoriesAreWritable();
    hide *;
    var fs := new Filesystem(PRIVATE_DIRECTORY);
    var manifest := Materialize(built.value, fs, limits, codec);
    return Ok(fs);
  }
}
