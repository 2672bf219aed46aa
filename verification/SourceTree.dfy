/**
  Building an artifact from a source tree, and the round trip through the
  isolated workspace.
 */
module SourceTree {
  import opened Wrappers
  import opened Text
  import opened Paths
  import opened Archive
  import opened Workspace

  datatype Node = File(mode: bv16, content: Bytes) | Folder(entries: seq<Entry>) | Link | Device

  /** A directory entry; the entries of a folder are in the order a scan returns them. */
  datatype Entry = Entry(name: Text, node: Node)

  const GIT_CONTROL_FILE: Text := [46, 103, 105, 116]  // ".git"

  // ---------------------------------------------------------------- what an operating system stores

  predicate NameOk(name: Text) { SLASH !in name && NUL !in name && !SpecialPart(name) }

  predicate DistinctNames(es: seq<Entry>) {
    forall i, j :: 0 <= i < j < |es| ==> es[i].name != es[j].name
  }

  predicate WellFormed(node: Node) {
    node.Folder? ==>
      DistinctNames(node.entries) && forall e <- node.entries :: NameOk(e.name) && WellFormed(e.node)
  }

  predicate WellFormedAll(es: seq<Entry>) {
    DistinctNames(es) && forall e <- es :: NameOk(e.name) && WellFormed(e.node)
  }

  function Weight(node: Node): nat {
    if node.Folder? then 1 + WeightAll(node.entries) else 1
  }

  function WeightAll(es: seq<Entry>): nat {
    if es == [] then 0 else 1 + Weight(es[0].node) + WeightAll(es[1..])
  }

  // ---------------------------------------------------------------- sorting a scan

  function SortKey(e: Entry): seq<nat> { Utf8(e.name) }

  function InsertEntry(e: Entry, es: seq<Entry>): (r: seq<Entry>)
    ensures WeightAll(r) == 1 + Weight(e.node) + WeightAll(es)
    ensures multiset(r) == multiset{e} + multiset(es)
  {
    if es == [] || !Before(SortKey(es[0]), SortKey(e)) then
      assert ([e] + es)[1..] == es;
      [e] + es
    else
      var rest := InsertEntry(e, es[1..]);
      assert ([es[0]] + rest)[1..] == rest && es == [es[0]] + es[1..];
      [es[0]] + rest
  }

  function SortEntries(es: seq<Entry>): (r: seq<Entry>)
    ensures WeightAll(r) == WeightAll(es)
    ensures multiset(r) == multiset(es)
  {
    if es == [] then [] else
      assert es == [es[0]] + es[1..];
      InsertEntry(es[0], SortEntries(es[1..]))
  }

  // ---------------------------------------------------------------- the members of a tree

  function Child(relative: Text, name: Text): Text {
    if relative == [] then name else relative + [SLASH] + name
  }

  function BuiltMode(mode: bv16): bv16 {
    if Executable(mode) then READ_ONLY_DIRECTORY else READ_ONLY_FILE
  }

  function DirectoryMember(path: Text): Member {
    Member(path + [SLASH], Directory, READ_ONLY_DIRECTORY, 0, [])
  }

  function FileMember(path: Text, mode: bv16, content: Bytes): Member {
    Member(path, Regular, BuiltMode(mode), |content|, content)
  }

  function NodeMembers(path: Text, node: Node): seq<Member>
    decreases Weight(node), 1
  {
    match node
    case File(mode, content) => [FileMember(path, mode, content)]
    case Folder(es) => [DirectoryMember(path)] + ListMembers(path, SortEntries(es))
    case _ => []
  }

  function ListMembers(relative: Text, es: seq<Entry>): seq<Member>
    decreases WeightAll(es), 0
  {
    if es == [] then [] else
      NodeMembers(Child(relative, es[0].name), es[0].node) + ListMembers(relative, es[1..])
  }

  /** A checkout's control file at the root is not source. */
  function WithoutGit(es: seq<Entry>): (r: seq<Entry>)
    ensures forall e :: e in r <==> e in es && e.name != GIT_CONTROL_FILE
    ensures WeightAll(r) <= WeightAll(es)
  {
    if es == [] then [] else
      var rest := WithoutGit(es[1..]);
      assert ([es[0]] + rest)[1..] == rest;
      if es[0].name == GIT_CONTROL_FILE then rest else [es[0]] + rest
  }

  function SourceMembers(root: Node): seq<Member>
    requires root.Folder?
  {
    ListMembers([], WithoutGit(SortEntries(root.entries)))
  }

  // ---------------------------------------------------------------- when a build succeeds

  /** Ordinary files and folders with canonical paths, all the way down. */
  predicate Clean(path: Text, node: Node, limits: Limits)
    decreases node
  {
    && Canonical(path, limits)
    && !node.Link? && !node.Device?
    && (node.Folder? ==> forall e <- node.entries :: Clean(Child(path, e.name), e.node, limits))
  }

  predicate CleanAll(relative: Text, es: seq<Entry>, limits: Limits) {
    forall e <- es :: Clean(Child(relative, e.name), e.node, limits)
  }

  /** What is checked once the last of these members has been written. */
  predicate AdmittedLast(ms: seq<Member>, limits: Limits, codec: Codec) {
    && ms != []
    && |ms| <= limits.maxEntries
    && (ms[|ms| - 1].kind == Regular ==> ms[|ms| - 1].size <= limits.maxFileBytes)
    && TotalBytes(ms) <= limits.maxWorkspaceBytes
    && codec.writtenBytes(ms) <= limits.maxArchiveBytes
  }

  /** The running bounds hold after every member past the first `from`. */
  predicate Admitted(all: seq<Member>, from: nat, limits: Limits, codec: Codec) {
    forall k | from < k <= |all| :: AdmittedLast(all[..k], limits, codec)
  }

  predicate Buildable(root: Node, limits: Limits, codec: Codec) {
    && root.Folder?
    && CleanAll([], WithoutGit(SortEntries(root.entries)), limits)
    && Admitted(SourceMembers(root), 0, limits, codec)
    && codec.writtenBytes(SourceMembers(root)) <= limits.maxArchiveBytes
    && codec.tarBytes(SourceMembers(root)) <= limits.maxArchiveBytes
  }

  lemma {:induction false} ListMembersConcat(relative: Text, a: seq<Entry>, b: seq<Entry>)
    ensures ListMembers(relative, a + b) == ListMembers(relative, a) + ListMembers(relative, b)
    decreases |a|
  {
    if a == [] {
      assert a + b == b;
    } else {
      assert (a + b)[1..] == a[1..] + b;
      ListMembersConcat(relative, a[1..], b);
    }
  }

  lemma AdmittedSplits(all: seq<Member>, from: nat, mid: nat, limits: Limits, codec: Codec)
    requires from <= mid <= |all|
    ensures Admitted(all, from, limits, codec)
       <==> Admitted(all[..mid], from, limits, codec) && Admitted(all, mid, limits, codec)
  {
    assert forall k | 0 <= k <= mid :: all[..mid][..k] == all[..k];
  }

  lemma ChildIsCanonicalName(relative: Text, name: Text, limits: Limits)
    requires NameOk(name)
    ensures CanonicalMemberPath(Child(relative, name), limits).Ok? <==> Canonical(Child(relative, name), limits)
    ensures CanonicalMemberPath(Child(relative, name), limits).Ok? ==>
              CanonicalMemberPath(Child(relative, name), limits).value == Child(relative, name)
  {
    var path := Child(relative, name);
    assert path[|path| - 1] == name[|name| - 1];
    MemberNamesDenoteCanonicalPaths(path, path, limits);
    var r := CanonicalMemberPath(path, limits);
    if r.Ok? { MemberNamesDenoteCanonicalPaths(path, r.value, limits); }
  }

  function Kept(relative: Text, es: seq<Entry>): seq<Entry> { if relative == [] then WithoutGit(es) else es }

  function Children(relative: Text, scanned: seq<Entry>): seq<Entry> { Kept(relative, SortEntries(scanned)) }

  lemma {:induction false} EntryIsLighter(es: seq<Entry>, e: Entry)
    requires e in es
    ensures Weight(e.node) < WeightAll(es)
  {
    if e != es[0] {
      assert e in es[1..];
      EntryIsLighter(es[1..], e);
    }
  }

  lemma SortedIsScanned(es: seq<Entry>)
    ensures forall e :: e in SortEntries(es) <==> e in es
  {
    assert forall e :: e in SortEntries(es) <==> e in multiset(SortEntries(es));
    assert forall e :: e in es <==> e in multiset(es);
  }

  lemma UnencodableIsNotClean(relative: Text, scanned: seq<Entry>, limits: Limits)
    requires exists e <- scanned :: !Encodable(e.name)
    ensures !CleanAll(relative, Children(relative, scanned), limits)
  {
    var e :| e in scanned && !Encodable(e.name);
    SortedIsScanned(scanned);
    assert e in Children(relative, scanned);
    var c :| c in e.name && 0xD800 <= c <= 0xDFFF;
    assert c in Child(relative, e.name);
  }

  lemma NextMembers(relative: Text, children: seq<Entry>, k: nat)
    requires k < |children|
    ensures ListMembers(relative, children[..k + 1])
         == ListMembers(relative, children[..k]) + NodeMembers(Child(relative, children[k].name), children[k].node)
    ensures ListMembers(relative, children)
         == ListMembers(relative, children[..k + 1]) + ListMembers(relative, children[k + 1..])
  {
    hide NodeMembers;
    SingleMembers(relative, children[k]);
    assert children[..k + 1] == children[..k] + [children[k]];
    ListMembersConcat(relative, children[..k], [children[k]]);
    assert children == children[..k + 1] + children[k + 1..];
    ListMembersConcat(relative, children[..k + 1], children[k + 1..]);
  }

  lemma SingleMembers(relative: Text, e: Entry)
    ensures ListMembers(relative, [e]) == NodeMembers(Child(relative, e.name), e.node)
  {
    hide NodeMembers;
    assert [e][1..] == [];
  }

  /** What adding child k contributes to adding them all. */
  lemma ChildFits(relative: Text, children: seq<Entry>, k: nat, base: seq<Member>, limits: Limits, codec: Codec)
    requires k < |children|
    requires CleanAll(relative, children[..k], limits)
    requires Admitted(base + ListMembers(relative, children[..k]), |base|, limits, codec)
    ensures var path := Child(relative, children[k].name);
            var before := base + ListMembers(relative, children[..k]);
            var after := before + NodeMembers(path, children[k].node);
            var all := base + ListMembers(relative, children);
            var fits := Clean(path, children[k].node, limits) && Admitted(after, |before|, limits, codec);
            && after == base + ListMembers(relative, children[..k + 1])
            && (fits ==> CleanAll(relative, children[..k + 1], limits) && Admitted(after, |base|, limits, codec))
            && (CleanAll(relative, children, limits) && Admitted(all, |base|, limits, codec) ==> fits)
  {
    hide ListMembers, NodeMembers, Child, Clean, Admitted;
    var before := base + ListMembers(relative, children[..k]);
    var after := base + ListMembers(relative, children[..k + 1]);
    var all := base + ListMembers(relative, children);
    NextMembers(relative, children, k);
    assert after == before + NodeMembers(Child(relative, children[k].name), children[k].node);
    assert after[..|before|] == before && all[..|after|] == after;
    AdmittedSplits(after, |base|, |before|, limits, codec);
    AdmittedSplits(all, |base|, |after|, limits, codec);
    AdmittedSplits(all, |base|, |before|, limits, codec);
    AdmittedSplits(all, |before|, |after|, limits, codec);
    assert forall e <- children[..k + 1] :: e == children[k] || e in children[..k];
  }

  lemma NothingYet(relative: Text, children: seq<Entry>, base: seq<Member>, limits: Limits, codec: Codec)
    ensures base == base + ListMembers(relative, children[..0])
    ensures CleanAll(relative, children[..0], limits)
    ensures Admitted(base, |base|, limits, codec)
  {
  }

  lemma LastAdmitted(base: seq<Member>, m: Member, limits: Limits, codec: Codec)
    ensures Admitted(base + [m], |base|, limits, codec) <==> AdmittedLast(base + [m], limits, codec)
  {
    hide AdmittedLast;
    assert (base + [m])[..|base| + 1] == base + [m];
  }

  lemma MemberFits(base: seq<Member>, m: Member, limits: Limits, codec: Codec)
    ensures Admitted(base + [m], |base|, limits, codec) <==>
              && |base| + 1 <= limits.maxEntries
              && (m.kind == Regular ==> m.size <= limits.maxFileBytes)
              && TotalBytes(base) + (if m.kind == Regular then m.size else 0) <= limits.maxWorkspaceBytes
              && codec.writtenBytes(base + [m]) <= limits.maxArchiveBytes
    ensures TotalBytes(base + [m]) == TotalBytes(base) + if m.kind == Regular then m.size else 0
  {
    TotalOfOneMore(base, m);
    LastAdmitted(base, m, limits, codec);
    hide TotalBytes, Admitted;
    assert (base + [m])[|base|] == m;
  }

  lemma FileFits(base: seq<Member>, path: Text, mode: bv16, content: Bytes, limits: Limits, codec: Codec)
    ensures var node, m := File(mode, content), FileMember(path, mode, content);
            && NodeMembers(path, node) == [m]
            && (Clean(path, node, limits) <==> Canonical(path, limits))
            && (Admitted(base + [m], |base|, limits, codec) <==>
                  && |base| + 1 <= limits.maxEntries
                  && |content| <= limits.maxFileBytes
                  && TotalBytes(base) + |content| <= limits.maxWorkspaceBytes
                  && codec.writtenBytes(base + [m]) <= limits.maxArchiveBytes)
            && TotalBytes(base + [m]) == TotalBytes(base) + |content|
  {
    hide Canonical, TotalBytes, Admitted;
    MemberFits(base, FileMember(path, mode, content), limits, codec);
  }

  lemma FolderFits(base: seq<Member>, m: Member, below: seq<Member>, limits: Limits, codec: Codec)
    requires m.kind == Directory && TotalBytes(base) <= limits.maxWorkspaceBytes
    ensures Admitted(base + ([m] + below), |base|, limits, codec) <==>
              && |base| + 1 <= limits.maxEntries
              && codec.writtenBytes(base + [m]) <= limits.maxArchiveBytes
              && Admitted(base + [m] + below, |base + [m]|, limits, codec)
    ensures base + ([m] + below) == base + [m] + below
    ensures TotalBytes(base + [m]) == TotalBytes(base)
  {
    hide *;
    var all := base + ([m] + below);
    MemberFits(base, m, limits, codec);
    assert all == base + [m] + below && all[..|base| + 1] == base + [m];
    AdmittedSplits(all, |base|, |base| + 1, limits, codec);
  }

  lemma FolderMembers(path: Text, es: seq<Entry>)
    requires path != []
    ensures NodeMembers(path, Folder(es)) == [DirectoryMember(path)] + ListMembers(path, Children(path, es))
  {
    hide ListMembers, SortEntries;
  }

  /** Scanning past one entry of a sorted directory. */
  lemma NextKept(relative: Text, sorted: seq<Entry>, i: nat)
    requires i < |sorted|
    ensures Kept(relative, sorted[i..])
         == if relative == [] && sorted[i].name == GIT_CONTROL_FILE then Kept(relative, sorted[i + 1..])
            else [sorted[i]] + Kept(relative, sorted[i + 1..])
  {
    assert sorted[i..][1..] == sorted[i + 1..];
  }

  lemma ScannedEntry(scanned: seq<Entry>, i: nat)
    requires WellFormedAll(scanned) && i < |SortEntries(scanned)|
    ensures var child := SortEntries(scanned)[i];
            NameOk(child.name) && WellFormed(child.node) && Weight(child.node) < WeightAll(scanned)
  {
    SortedIsScanned(scanned);
    EntryIsLighter(scanned, SortEntries(scanned)[i]);
    hide WellFormed;
  }

  lemma CanonicalIsNotRoot(path: Text, limits: Limits)
    requires Canonical(path, limits)
    ensures path != []
  {
    CanonicalShape(path, limits);
  }

  lemma CleanIsOrdinary(path: Text, node: Node, limits: Limits)
    ensures Clean(path, node, limits) ==> Canonical(path, limits) && !node.Link? && !node.Device?
  {
  }

  lemma FolderIsClean(path: Text, es: seq<Entry>, limits: Limits)
    requires Canonical(path, limits) && path != []
    ensures Clean(path, Folder(es), limits) <==> CleanAll(path, Children(path, es), limits)
  {
    hide Canonical, SortEntries;
    SortedIsScanned(es);
    var children := Children(path, es);
    assert forall e :: e in children <==> e in es;
  }

  /** The first `i` entries in order have been gone through, and `kept` of them are in the archive. */
  ghost predicate Scanned(relative: Text, scanned: seq<Entry>, i: nat, kept: nat, base: seq<Member>, members: seq<Member>,
                          limits: Limits, codec: Codec)
  {
    var sorted, children := SortEntries(scanned), Children(relative, scanned);
    && i <= |sorted| && kept <= |children| && children[kept..] == Kept(relative, sorted[i..])
    && members == base + ListMembers(relative, children[..kept])
    && CleanAll(relative, children[..kept], limits) && Admitted(members, |base|, limits, codec)
  }

  lemma ScanStarts(relative: Text, scanned: seq<Entry>, base: seq<Member>, limits: Limits, codec: Codec)
    ensures Scanned(relative, scanned, 0, 0, base, base, limits, codec)
  {
    NothingYet(relative, Children(relative, scanned), base, limits, codec);
    hide ListMembers, CleanAll, Admitted, SortEntries;
    assert SortEntries(scanned)[0..] == SortEntries(scanned);
    assert Children(relative, scanned)[0..] == Children(relative, scanned);
  }

  lemma ScanSkips(relative: Text, scanned: seq<Entry>, i: nat, kept: nat, base: seq<Member>, members: seq<Member>,
                  limits: Limits, codec: Codec)
    requires Scanned(relative, scanned, i, kept, base, members, limits, codec) && i < |SortEntries(scanned)|
    requires relative == [] && SortEntries(scanned)[i].name == GIT_CONTROL_FILE
    ensures Scanned(relative, scanned, i + 1, kept, base, members, limits, codec)
  {
    NextKept(relative, SortEntries(scanned), i);
    hide ListMembers, CleanAll, Admitted, SortEntries, Kept, Children;
  }

  lemma ScanAdds(relative: Text, scanned: seq<Entry>, i: nat, kept: nat, base: seq<Member>, members: seq<Member>,
                 limits: Limits, codec: Codec)
    requires Scanned(relative, scanned, i, kept, base, members, limits, codec) && i < |SortEntries(scanned)|
    requires relative != [] || SortEntries(scanned)[i].name != GIT_CONTROL_FILE
    ensures var child, children := SortEntries(scanned)[i], Children(relative, scanned);
            var path := Child(relative, child.name);
            var after := members + NodeMembers(path, child.node);
            var fits := Clean(path, child.node, limits) && Admitted(after, |members|, limits, codec);
            && (fits ==> Scanned(relative, scanned, i + 1, kept + 1, base, after, limits, codec))
            && ((CleanAll(relative, children, limits)
                 && Admitted(base + ListMembers(relative, children), |base|, limits, codec)) ==> fits)
  {
    var sorted, children := SortEntries(scanned), Children(relative, scanned);
    NextKept(relative, sorted, i);
    hide ListMembers, NodeMembers, Clean, CleanAll, Admitted, SortEntries, Kept, Children, Child;
    assert children[kept..][0] == sorted[i] && children[kept] == sorted[i];
    assert children[kept + 1..] == children[kept..][1..];
    ChildFits(relative, children, kept, base, limits, codec);
  }

  lemma ScanEnds(relative: Text, scanned: seq<Entry>, kept: nat, base: seq<Member>, members: seq<Member>, limits: Limits,
                 codec: Codec)
    requires Scanned(relative, scanned, |SortEntries(scanned)|, kept, base, members, limits, codec)
    ensures var children := Children(relative, scanned);
            members == base + ListMembers(relative, children) && CleanAll(relative, children, limits)
            && Admitted(members, |base|, limits, codec)
  {
    var sorted, children := SortEntries(scanned), Children(relative, scanned);
    hide ListMembers, CleanAll, Admitted, SortEntries;
    assert sorted[|sorted|..] == [];
    assert children[..kept] == children;
  }

  // ---------------------------------------------------------------- the builder

  /** The archive under construction and its counters. */
  class Builder {
    const limits: Limits
    const codec: Codec
    var members: seq<Member>
    var entries: nat
    var totalBytes: nat

    ghost predicate Valid()
      reads this
    {
      entries == |members| && totalBytes == TotalBytes(members)
    }

    constructor (limits: Limits, codec: Codec)
      ensures Valid() && members == [] && this.limits == limits && this.codec == codec
    {
      this.limits, this.codec := limits, codec;
      members, entries, totalBytes := [], 0, 0;
    }

    method AddEntry(path: Text) returns (r: Result<(), Refusal>)
      modifies this`entries
      ensures entries == old(entries) + 1
      ensures r.Ok? <==> entries <= limits.maxEntries && CanonicalMemberPath(path, limits).Ok?
    {
      entries := entries + 1;
      if entries > limits.maxEntries { return Err(TooManyEntries); }
      var canonical := CanonicalMemberPath(path, limits);
      return if canonical.Ok? then Ok(()) else Err(canonical.error);
    }

    method AddFile(size: nat) returns (r: Result<(), Refusal>)
      modifies this`totalBytes
      ensures r.Ok? <==> size <= limits.maxFileBytes && old(totalBytes) + size <= limits.maxWorkspaceBytes
      ensures r.Ok? ==> totalBytes == old(totalBytes) + size
    {
      if size > limits.maxFileBytes { return Err(FileTooLarge); }
      totalBytes := totalBytes + size;
      if totalBytes > limits.maxWorkspaceBytes { return Err(WorkspaceTooLarge); }
      return Ok(());
    }

    method AddRegularFile(path: Text, mode: bv16, content: Bytes) returns (r: Result<(), Refusal>)
      requires Valid() && CanonicalMemberPath(path, limits).Ok?
      modifies this
      ensures var m := FileMember(path, mode, content);
              && (r.Ok? <==> Admitted(old(members) + [m], |old(members)|, limits, codec))
              && (r.Ok? ==> Valid() && totalBytes <= limits.maxWorkspaceBytes && members == old(members) + [m])
    {
      FileFits(members, path, mode, content, limits, codec);
      hide Canonical, CanonicalMemberPath, TotalBytes, Admitted;
      r := AddEntry(path);
      if r.Err? { return; }
      r := AddFile(|content|);
      if r.Err? { return; }
      members := members + [FileMember(path, mode, content)];
      if codec.writtenBytes(members) > limits.maxArchiveBytes { return Err(ArchiveTooLarge); }
    }

    /** One child, with everything below it. */
    method AddChild(path: Text, node: Node) returns (r: Result<(), Refusal>)
      requires Valid() && totalBytes <= limits.maxWorkspaceBytes && WellFormed(node)
      requires CanonicalMemberPath(path, limits).Ok? <==> Canonical(path, limits)
      requires CanonicalMemberPath(path, limits).Ok? ==> CanonicalMemberPath(path, limits).value == path
      modifies this
      ensures r.Ok? <==> (Clean(path, node, limits)
                          && Admitted(old(members) + NodeMembers(path, node), |old(members)|, limits, codec))
      ensures r.Ok? ==> Valid() && totalBytes <= limits.maxWorkspaceBytes
                        && members == old(members) + NodeMembers(path, node)
      decreases Weight(node), 1
    {
      var canonical := CanonicalMemberPath(path, limits);
      CleanIsOrdinary(path, node, limits);
      hide Canonical, CanonicalMemberPath, TotalBytes, Children, ListMembers, NodeMembers, Admitted, Clean, CleanAll;
      if canonical.Err? { return Err(canonical.error); }
      match node
      case Link => return Err(SourceLink);
      case Device => return Err(SourceSpecial);
      case File(mode, content) =>
        FileFits(members, path, mode, content, limits, codec);
        r := AddRegularFile(path, mode, content);
      case Folder(es) =>
        CanonicalIsNotRoot(path, limits);
        FolderIsClean(path, es, limits);
        FolderMembers(path, es);
        FolderFits(members, DirectoryMember(path), ListMembers(path, Children(path, es)), limits, codec);
        r := AddEntry(path);
        if r.Err? { return; }
        members := members + [DirectoryMember(path)];
        if codec.writtenBytes(members) > limits.maxArchiveBytes { return Err(ArchiveTooLarge); }
        r := AddSourceDirectory(path, es);
    }

    /** A scanned directory, its children in the byte order of their names. */
    method AddSourceDirectory(relative: Text, scanned: seq<Entry>) returns (r: Result<(), Refusal>)
      requires Valid() && totalBytes <= limits.maxWorkspaceBytes && WellFormedAll(scanned)
      modifies this
      ensures var children := Children(relative, scanned);
              r.Ok? <==> (CleanAll(relative, children, limits)
                          && Admitted(old(members) + ListMembers(relative, children), |old(members)|, limits, codec))
      ensures r.Ok? ==> Valid() && totalBytes <= limits.maxWorkspaceBytes
                        && members == old(members) + ListMembers(relative, Children(relative, scanned))
      decreases WeightAll(scanned), 2
    {
      if exists e <- scanned :: !Encodable(e.name) {
        UnencodableIsNotClean(relative, scanned, limits);
        return Err(SourceUnreadable);
      }
      var sorted := SortEntries(scanned);
      ghost var base, kept := members, 0;
      ScanStarts(relative, scanned, members, limits, codec);
      for i := 0 to |sorted|
        invariant Valid() && totalBytes <= limits.maxWorkspaceBytes
        invariant Scanned(relative, scanned, i, kept, base, members, limits, codec)
      {
        hide *;
        ScannedEntry(scanned, i);
        var child := sorted[i];
        if relative == [] && child.name == GIT_CONTROL_FILE {
          ScanSkips(relative, scanned, i, kept, base, members, limits, codec);
          continue;
        }
        ScanAdds(relative, scanned, i, kept, base, members, limits, codec);
        ChildIsCanonicalName(relative, child.name, limits);
        var added := AddChild(Child(relative, child.name), child.node);
        if added.Err? { return added; }
        kept := kept + 1;
      }
      ScanEnds(relative, scanned, kept, base, members, limits, codec);
      return Ok(());
    }
  }

}
