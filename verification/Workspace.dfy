/** The isolated workspace: a small filesystem and the extraction of an archive into it. */
module Workspace {
  import opened Wrappers
  import opened Text
  import opened Paths
  import opened Archive

  const OWNER_WRITE_SEARCH: bv16 := 0x0C0  // 0o300
  const PRIVATE_DIRECTORY: bv16 := 0x1C0   // 0o700
  const CREATED_FILE: bv16 := 0x1A4        // 0o644

  datatype FsNode = FsDirectory(mode: bv16) | FsFile(mode: bv16, content: Bytes)

  type Nodes = map<Text, FsNode>

  predicate Writable(node: FsNode) {
    node.FsDirectory? && node.mode & OWNER_WRITE_SEARCH == OWNER_WRITE_SEARCH
  }

  predicate CanCreate(nodes: Nodes, path: Text) {
    && path !in nodes
    && Parent(path) in nodes
    && Writable(nodes[Parent(path)])
  }

  /** A directory tree by path; the empty path is the workspace root itself. */
  class Filesystem {
    var nodes: Nodes

    constructor (rootMode: bv16)
      ensures nodes == map[[] := FsDirectory(rootMode)]
    {
      nodes := map[[] := FsDirectory(rootMode)];
    }

    method MakeDirectory(path: Text, mode: bv16) returns (ok: bool)
      modifies this
      ensures ok <==> CanCreate(old(nodes), path)
      ensures nodes == if ok then old(nodes)[path := FsDirectory(mode)] else old(nodes)
      ensures ok ==> path !in old(nodes) && Parent(path) in old(nodes) && old(nodes)[Parent(path)].FsDirectory?
    {
      ok := CanCreate(nodes, path);
      if ok { nodes := nodes[path := FsDirectory(mode)]; }
    }

    method CreateExclusively(path: Text) returns (ok: bool)
      modifies this
      ensures ok <==> CanCreate(old(nodes), path)
      ensures nodes == if ok then old(nodes)[path := FsFile(CREATED_FILE, [])] else old(nodes)
      ensures ok ==> path !in old(nodes) && Parent(path) in old(nodes) && old(nodes)[Parent(path)].FsDirectory?
    {
      ok := CanCreate(nodes, path);
      if ok { nodes := nodes[path := FsFile(CREATED_FILE, [])]; }
    }

    method Append(path: Text, chunk: Bytes)
      requires path in nodes && nodes[path].FsFile?
      modifies this
      ensures nodes == old(nodes)[path := old(nodes)[path].(content := old(nodes)[path].content + chunk)]
    {
      nodes := nodes[path := nodes[path].(content := nodes[path].content + chunk)];
    }

    method ChangeMode(path: Text, mode: bv16)
      requires path in nodes
      modifies this
      ensures nodes == old(nodes)[path := old(nodes)[path].(mode := mode)]
    {
      nodes := nodes[path := nodes[path].(mode := mode)];
    }
  }

  // ---------------------------------------------------------------- what extraction leaves behind

  function FileMode(m: Member): bv16 { if Executable(m.mode) then READ_ONLY_DIRECTORY else READ_ONLY_FILE }

  function FileNodes(ms: seq<Member>): Nodes {
    if ms == [] then map[] else
      var m := ms[|ms| - 1];
      var before := FileNodes(ms[..|ms| - 1]);
      if m.kind == Regular then before[PathOf(m) := FsFile(FileMode(m), m.data)] else before
  }

  function DirectoryNodes(paths: set<Text>, mode: bv16): Nodes {
    map p <- paths :: FsDirectory(mode)
  }

  /** The extracted tree: read-only directories, the root among them, and the files' contents. */
  function WorkspaceOf(ms: seq<Member>): Nodes {
    DirectoryNodes(Directories(ms) + {[]}, READ_ONLY_DIRECTORY) + FileNodes(ms)
  }

  lemma {:induction false} FileNodesByPath(ms: seq<Member>)
    requires DistinctPaths(ms)
    ensures FileNodes(ms).Keys == FilePaths(ms)
    ensures forall m <- ms | m.kind == Regular :: FileNodes(ms)[PathOf(m)] == FsFile(FileMode(m), m.data)
  {
    if ms != [] {
      var init, last := ms[..|ms| - 1], ms[|ms| - 1];
      assert ms == init + [last];
      LastPathIsNew(init, last);
      FileNodesByPath(init);
      assert forall m <- init :: PathOf(m) in PathSet(init);
    }
  }

  // ---------------------------------------------------------------- why no creation fails

  function ToSet(order: seq<Text>): set<Text> { set p <- order }

  lemma ParentComesFirst(order: seq<Text>, i: nat)
    requires i < |order|
    requires forall j, k | 0 <= j < k < |order| :: Before(Key(order[j], ByDepth), Key(order[k], ByDepth))
    requires forall a | IsAncestor(a, order[i]) :: a in order
    ensures Parent(order[i]) == [] || Parent(order[i]) in order[..i]
    ensures order[i] !in order[..i]
  {
    var p, q := order[i], Parent(order[i]);
    ParentIsLongestAncestor(p);
    forall j | 0 <= j < i ensures order[j] != p { BeforeTotal(Key(p, ByDepth), Key(p, ByDepth)); }
    if q != [] {
      AncestorIsShallower(q, p);
      var j :| 0 <= j < |order| && order[j] == q;
      assert Key(q, ByDepth)[0] == Depth(q) && Key(p, ByDepth)[0] == Depth(p);
      assert Before(Key(q, ByDepth), Key(p, ByDepth));
      BeforeTotal(Key(q, ByDepth), Key(p, ByDepth));
      assert j < i;
      assert order[..i][j] == q;
    }
  }

  lemma ParentIsDirectory(ms: seq<Member>, p: Text)
    requires p in Directories(ms) + FilePaths(ms)
    ensures Parent(p) == [] || Parent(p) in Directories(ms)
  {
    ParentIsLongestAncestor(p);
    if Parent(p) != [] { AncestorsAreDirectories(ms, p, Parent(p)); }
  }

  lemma EmptyIsNoPath(ms: seq<Member>, limits: Limits)
    requires Acceptable(ms, limits)
    ensures [] !in Directories(ms) + FilePaths(ms)
  {
    AcceptedArchivesAreTrees(ms, limits);
    if [] in Directories(ms) + FilePaths(ms) {
      CanonicalShape([], limits);
    }
  }

  // ---------------------------------------------------------------- the extraction

  /** Copies one member into a new file, in bounded chunks, and checks its digest again. */
  method CopyMember(m: Member, fs: Filesystem, path: Text, expected: ValidatedFile, sha: Bytes -> Bytes)
    returns (r: Result<(), Refusal>)
    modifies fs
    ensures r.Ok? <==> CanCreate(old(fs.nodes), path) && |m.data| == expected.size && sha(m.data) == expected.digest
    ensures r.Ok? ==> fs.nodes == old(fs.nodes)[path := FsFile(
                        if expected.executable then READ_ONLY_DIRECTORY else READ_ONLY_FILE, m.data)]
    ensures !CanCreate(old(fs.nodes), path) ==> fs.nodes == old(fs.nodes)
  {
    var created := fs.CreateExclusively(path);
    if !created { return Err(FilesystemError); }
    var remaining: nat, position: nat := expected.size, 0;
    while remaining != 0
      invariant position + remaining == expected.size && position <= |m.data|
      invariant fs.nodes == old(fs.nodes)[path := FsFile(CREATED_FILE, m.data[..position])]
    {
      var wanted := if COPY_CHUNK_BYTES < remaining then COPY_CHUNK_BYTES else remaining;
      var upto := if position + wanted < |m.data| then position + wanted else |m.data|;
      var chunk := m.data[position..upto];
      if chunk == [] { return Err(TruncatedFile); }
      fs.Append(path, chunk);
      assert m.data[..position] + chunk == m.data[..upto];
      remaining := remaining - |chunk|;
      position := upto;
    }
    if position < |m.data| { return Err(OverlongFile); }
    assert m.data[..position] == m.data;
    if sha(fs.nodes[path].content) != expected.digest { return Err(DigestChanged); }
    fs.ChangeMode(path, if expected.executable then READ_ONLY_DIRECTORY else READ_ONLY_FILE);
    return Ok(());
  }

  lemma PrivateDirectoriesAreWritable()
    ensures Writable(FsDirectory(PRIVATE_DIRECTORY))
  {
  }

  lemma OneMoreDirectory(base: Nodes, paths: set<Text>, p: Text, mode: bv16)
    ensures (base + DirectoryNodes(paths, mode))[p := FsDirectory(mode)] == base + DirectoryNodes(paths + {p}, mode)
  {
  }

  lemma OneMoreFile(base: Nodes, added: Nodes, p: Text, node: FsNode)
    ensures (base + added)[p := node] == base + added[p := node]
  {
  }

  lemma OneMorePath(order: seq<Text>, i: nat)
    requires i < |order|
    ensures ToSet(order[..i + 1]) == ToSet(order[..i]) + {order[i]}
    ensures ToSet(order[i..]) == ToSet(order[i + 1..]) + {order[i]}
  {
    assert order[..i + 1] == order[..i] + [order[i]];
    assert order[i..] == [order[i]] + order[i + 1..];
  }

  lemma NextDirectoryCanBeCreated(ms: seq<Member>, limits: Limits, i: nat, base: Nodes)
    requires Acceptable(ms, limits)
    requires i < |SortPaths(Directories(ms), ByDepth)|
    requires base.Keys == {[]}
    ensures var order := SortPaths(Directories(ms), ByDepth);
            var nodes := base + DirectoryNodes(ToSet(order[..i]), PRIVATE_DIRECTORY);
            && order[i] !in nodes
            && Parent(order[i]) in nodes
            && (Writable(base[[]]) ==> CanCreate(nodes, order[i]))
            && (i == 0 && !Writable(base[[]]) ==> !CanCreate(nodes, order[i]))
  {
    hide Acceptable, Directories, Key, Before, Parent;
    var order := SortPaths(Directories(ms), ByDepth);
    assert order[i] in Directories(ms);
    SortPathsSorts(Directories(ms), ByDepth);
    forall a | IsAncestor(a, order[i]) ensures a in order { AncestorsAreDirectories(ms, order[i], a); }
    ParentComesFirst(order, i);
    EmptyIsNoPath(ms, limits);
    PrivateDirectoriesAreWritable();
  }

  /** The directories of an accepted archive, parents first, and every creation succeeds. */
  method MakeDirectories(ms: seq<Member>, directories: set<Text>, fs: Filesystem, limits: Limits)
    returns (r: Result<(), Refusal>)
    requires Acceptable(ms, limits) && directories == Directories(ms)
    requires fs.nodes.Keys == {[]}
    modifies fs
    ensures r.Ok? ==> fs.nodes == old(fs.nodes) + DirectoryNodes(directories, PRIVATE_DIRECTORY)
    ensures Writable(old(fs.nodes)[[]]) || directories == {} <==> r.Ok?
    ensures r.Err? ==> fs.nodes == old(fs.nodes)
  {
    ghost var base := fs.nodes;
    var order := SortPaths(directories, ByDepth);
    for i := 0 to |order|
      invariant fs.nodes == base + DirectoryNodes(ToSet(order[..i]), PRIVATE_DIRECTORY)
      invariant i > 0 ==> Writable(base[[]])
    {
      NextDirectoryCanBeCreated(ms, limits, i, base);
      var ok := fs.MakeDirectory(order[i], PRIVATE_DIRECTORY);
      if !ok { return Err(FilesystemError); }
      OneMoreDirectory(base, ToSet(order[..i]), order[i], PRIVATE_DIRECTORY);
      OneMorePath(order, i);
    }
    assert order[..|order|] == order;
    assert ToSet(order) == directories;
    return Ok(());
  }

  lemma FilesKeepOffDirectories(ms: seq<Member>, limits: Limits)
    requires Acceptable(ms, limits)
    ensures forall p <- Directories(ms) + {[]} :: p !in FilePaths(ms)
  {
    EmptyIsNoPath(ms, limits);
    forall f <- FilePaths(ms) ensures f !in Directories(ms) { FilesAreNotDirectories(ms, f); }
  }

  lemma NextFileCanBeCreated(ms: seq<Member>, limits: Limits, i: nat, base: Nodes)
    requires Acceptable(ms, limits) && i < |ms| && ms[i].kind == Regular
    requires base.Keys == Directories(ms) + {[]}
    requires forall p <- base :: p != [] ==> Writable(base[p])
    ensures Writable(base[[]]) ==> CanCreate(base + FileNodes(ms[..i]), PathOf(ms[i]))
    ensures Directories(ms) == {} && !Writable(base[[]]) ==> !CanCreate(base + FileNodes(ms[..i]), PathOf(ms[i]))
    ensures PathOf(ms[i]) in FilePaths(ms)
    ensures FileNodes(ms[..i + 1]) == FileNodes(ms[..i])[PathOf(ms[i]) := FsFile(FileMode(ms[i]), ms[i].data)]
  {
    var path := PathOf(ms[i]);
    assert path in FilePaths(ms);
    NextFileNode(ms, i);
    NextFileIsNew(ms, i);
    ParentIsDirectory(ms, path);
    FilesKeepOffDirectories(ms, limits);
    hide Acceptable, Directories, FilePaths, FileNodes, Parent, PathOf, Writable;
    var parent := Parent(path);
    assert parent in base && parent !in FileNodes(ms[..i]);
    assert path !in base;
  }

  lemma NextFileNode(ms: seq<Member>, i: nat)
    requires i < |ms| && ms[i].kind == Regular
    ensures FileNodes(ms[..i + 1]) == FileNodes(ms[..i])[PathOf(ms[i]) := FsFile(FileMode(ms[i]), ms[i].data)]
  {
    assert ms[..i + 1][..i] == ms[..i];
  }

  lemma MemberIsValidated(ms: seq<Member>, limits: Limits, i: nat, sha: Bytes -> Bytes)
    requires Acceptable(ms, limits) && i < |ms| && ms[i].kind == Regular
    ensures var canonical := CanonicalMemberPath(ms[i].name, limits);
            canonical.Ok? && canonical.value == PathOf(ms[i]) && PathOf(ms[i]) in Files(ms, sha)
            && Files(ms, sha)[PathOf(ms[i])] == ValidatedFile(|ms[i].data|, sha(ms[i].data), Executable(ms[i].mode))
  {
    FilesByPath(ms, sha);
    assert ms[i] in ms && MemberOk(ms[i], limits);
    CanonicalIsPathOf(ms[i], limits);
    hide Files, Acceptable, MemberOk;
  }

  lemma AcceptedKinds(ms: seq<Member>, limits: Limits)
    requires Acceptable(ms, limits)
    ensures forall i | 0 <= i < |ms| :: ms[i].kind == Directory || ms[i].kind == Regular
  {
    assert forall i | 0 <= i < |ms| :: ms[i] in ms && MemberOk(ms[i], limits);
  }

  lemma DirectoryAddsNoFile(ms: seq<Member>, i: nat)
    requires i < |ms| && ms[i].kind == Directory
    ensures FileNodes(ms[..i + 1]) == FileNodes(ms[..i])
  {
    assert ms[..i + 1][..i] == ms[..i];
  }

  method WriteMember(ms: seq<Member>, i: nat, validated: Validated, fs: Filesystem, limits: Limits, sha: Bytes -> Bytes,
                     ghost base: Nodes)
    returns (r: Result<(), Refusal>)
    requires Acceptable(ms, limits) && i < |ms| && ms[i].kind == Regular && validated.files == Files(ms, sha)
    requires base.Keys == Directories(ms) + {[]} && forall p <- base :: p != [] ==> Writable(base[p])
    requires fs.nodes == base + FileNodes(ms[..i])
    modifies fs
    ensures r.Ok? ==> fs.nodes == base + FileNodes(ms[..i + 1])
    ensures Writable(base[[]]) ==> r.Ok?
    ensures Directories(ms) == {} && !Writable(base[[]]) ==> r.Err? && fs.nodes == old(fs.nodes)
  {
    MemberIsValidated(ms, limits, i, sha);
    NextFileCanBeCreated(ms, limits, i, base);
    hide Acceptable, CanonicalMemberPath, Files, FileNodes, Directories, CanCreate;
    var member := ms[i];
    var canonical := CanonicalMemberPath(member.name, limits);
    var path := canonical.value;
    if path !in validated.files { return Err(MemberChanged); }
    r := CopyMember(member, fs, path, validated.files[path], sha);
    OneMoreFile(base, FileNodes(ms[..i]), path, FsFile(FileMode(member), member.data));
  }

  /** The files of an accepted archive; each is created once, in a directory that exists. */
  method WriteFiles(ms: seq<Member>, validated: Validated, fs: Filesystem, limits: Limits, sha: Bytes -> Bytes)
    returns (r: Result<(), Refusal>)
    requires Acceptable(ms, limits) && validated.files == Files(ms, sha)
    requires fs.nodes.Keys == Directories(ms) + {[]}
    requires forall p <- fs.nodes :: p != [] ==> Writable(fs.nodes[p])
    modifies fs
    ensures r.Ok? ==> fs.nodes == old(fs.nodes) + FileNodes(ms)
    ensures Writable(old(fs.nodes)[[]]) || ms == [] ==> r.Ok?
    ensures Directories(ms) == {} && !Writable(old(fs.nodes)[[]]) && ms != [] ==> r.Err? && fs.nodes == old(fs.nodes)
  {
    ghost var base := fs.nodes;
    assert base.Keys == Directories(ms) + {[]} && forall p <- base :: p != [] ==> Writable(base[p]);
    assert FileNodes(ms[..0]) == map[] && base + map[] == base;
    AcceptedKinds(ms, limits);
    NoDirectoryDeclared(ms);
    hide Acceptable, Directories, FileNodes, Files, Writable;
    for i := 0 to |ms|
      invariant fs.nodes == base + FileNodes(ms[..i])
      invariant i > 0 ==> Directories(ms) != {} || Writable(base[[]])
    {
      if ms[i].kind == Directory {
        DirectoryAddsNoFile(ms, i);
        continue;
      }
      r := WriteMember(ms, i, validated, fs, limits, sha, base);
      if r.Err? { return; }
    }
    assert ms[..|ms|] == ms;
    return Ok(());
  }

  lemma NoDirectoryDeclared(ms: seq<Member>)
    ensures Directories(ms) == {} ==> forall m <- ms :: m.kind != Directory
  {
    forall m <- ms | m.kind == Directory ensures PathOf(m) in Directories(ms) {}
  }

  lemma NextFileIsNew(ms: seq<Member>, i: nat)
    requires i < |ms| && DistinctPaths(ms)
    ensures DistinctPaths(ms[..i]) && FileNodes(ms[..i]).Keys <= FilePaths(ms) && PathOf(ms[i]) !in FileNodes(ms[..i])
  {
    assert DistinctPaths(ms[..i + 1]);
    assert ms[..i + 1] == ms[..i] + [ms[i]];
    LastPathIsNew(ms[..i], ms[i]);
    FileNodesByPath(ms[..i]);
    FilePathsAreSome(ms[..i]);
  }

  lemma OneLessWritable(base: Nodes, paths: set<Text>, p: Text)
    requires p in base && base[p].FsDirectory?
    ensures p in base + DirectoryNodes(paths, READ_ONLY_DIRECTORY)
    ensures (base + DirectoryNodes(paths, READ_ONLY_DIRECTORY))[p].(mode := READ_ONLY_DIRECTORY) == FsDirectory(READ_ONLY_DIRECTORY)
  {
  }

  /** Removes every write bit, the deepest directories first and the root last. */
  method MakeTreeReadOnly(directories: set<Text>, fs: Filesystem)
    requires directories + {[]} <= fs.nodes.Keys
    requires forall p <- directories + {[]} :: fs.nodes[p].FsDirectory?
    modifies fs
    ensures fs.nodes == old(fs.nodes) + DirectoryNodes(directories + {[]}, READ_ONLY_DIRECTORY)
  {
    ghost var base := fs.nodes;
    var order := SortPaths(directories, ByDepth);
    var i := |order|;
    while i > 0
      invariant 0 <= i <= |order|
      invariant fs.nodes == base + DirectoryNodes(ToSet(order[i..]), READ_ONLY_DIRECTORY)
    {
      i := i - 1;
      assert order[i] in directories;
      OneLessWritable(base, ToSet(order[i + 1..]), order[i]);
      fs.ChangeMode(order[i], READ_ONLY_DIRECTORY);
      OneMoreDirectory(base, ToSet(order[i + 1..]), order[i], READ_ONLY_DIRECTORY);
      OneMorePath(order, i);
    }
    assert order[0..] == order;
    assert ToSet(order) == directories;
    OneLessWritable(base, directories, []);
    fs.ChangeMode([], READ_ONLY_DIRECTORY);
    OneMoreDirectory(base, directories, [], READ_ONLY_DIRECTORY);
  }

  lemma LayersMakeTheWorkspace(ms: seq<Member>, limits: Limits, base: Nodes)
    requires Acceptable(ms, limits) && base.Keys == {[]}
    ensures var directories := Directories(ms);
            base + DirectoryNodes(directories, PRIVATE_DIRECTORY) + FileNodes(ms)
              + DirectoryNodes(directories + {[]}, READ_ONLY_DIRECTORY) == WorkspaceOf(ms)
    ensures forall p <- Directories(ms) + {[]} :: p !in FileNodes(ms)
  {
    FileNodesByPath(ms);
    FilesKeepOffDirectories(ms, limits);
    var all := Directories(ms) + {[]};
    SealLayers(base, Directories(ms), all, FileNodes(ms));
  }

  lemma SealLayers(base: Nodes, directories: set<Text>, all: set<Text>, files: Nodes)
    requires base.Keys == {[]} && all == directories + {[]}
    requires forall p <- all :: p !in files
    ensures base + DirectoryNodes(directories, PRIVATE_DIRECTORY) + files + DirectoryNodes(all, READ_ONLY_DIRECTORY)
         == DirectoryNodes(all, READ_ONLY_DIRECTORY) + files
  {
  }

  // ---------------------------------------------------------------- materialising an artifact

  /** A transported archive and the manifest digest its builder bound to it, if any. */
  datatype SourceArtifact = SourceArtifact(members: seq<Member>, manifestDigest: Option<Bytes>)

  /** The parts of the environment whose internals do not matter here. */
  datatype Codec = Codec(
    sha: Bytes -> Bytes,
    writtenBytes: seq<Member> -> nat,
    tarBytes: seq<Member> -> nat,
    manifestDigest: Manifest -> Bytes)

  predicate Deliverable(artifact: SourceArtifact, limits: Limits, codec: Codec) {
    && codec.tarBytes(artifact.members) <= limits.maxArchiveBytes
    && Acceptable(artifact.members, limits)
    && (artifact.manifestDigest.Some? ==>
          artifact.manifestDigest.value == codec.manifestDigest(ManifestOf(artifact.members, codec.sha)))
  }

  lemma SameFilesSameNodes(ms: seq<Member>, ns: seq<Member>)
    requires DistinctPaths(ms) && DistinctPaths(ns) && FilesAmong(ms, ns)
    ensures forall p <- FileNodes(ms) :: p in FileNodes(ns) && FileNodes(ns)[p] == FileNodes(ms)[p]
  {
    FileNodesByPath(ms);
    FileNodesByPath(ns);
    hide FileNodes, DistinctPaths, Executable, PathOf;
    forall p <- FileNodes(ms) ensures p in FileNodes(ns) && FileNodes(ns)[p] == FileNodes(ms)[p] {
      var m :| m in ms && m.kind == Regular && PathOf(m) == p;
      var n :| n in ns && SameFile(m, n);
    }
  }

  /**
   * Archives that pass under one manifest digest extract to one workspace: neither contents, nor paths, nor
   * executability can differ, if neither digest is shared by two values.
   */
  lemma DigestFixesWorkspace(ms: seq<Member>, ns: seq<Member>, digest: Bytes, limits: Limits, codec: Codec)
    requires Injective(codec.sha) && forall a, b | codec.manifestDigest(a) == codec.manifestDigest(b) :: a == b
    requires Deliverable(SourceArtifact(ms, Some(digest)), limits, codec) && Deliverable(SourceArtifact(ns, Some(digest)), limits, codec)
    ensures WorkspaceOf(ms) == WorkspaceOf(ns)
  {
    hide Injective, ManifestOf, FileNodes, FilesAmong, Directories, MemberOk, NoFileAbove, TotalBytes, DistinctPaths;
    ManifestIdentifiesTree(ms, ns, limits, codec.sha);
    SameFilesSameNodes(ms, ns);
    SameFilesSameNodes(ns, ms);
    assert FileNodes(ms) == FileNodes(ns);
  }

  /** Directories, files and then the permissions, into an empty workspace. */
  method WriteValidatedArchive(ms: seq<Member>, validated: Validated, fs: Filesystem, limits: Limits, sha: Bytes -> Bytes)
    returns (r: Result<(), Refusal>)
    requires Acceptable(ms, limits) && validated.files == Files(ms, sha) && validated.directories == Directories(ms)
    requires fs.nodes.Keys == {[]} && fs.nodes[[]].FsDirectory?
    modifies fs
    ensures Writable(old(fs.nodes)[[]]) || ms == [] ==> r.Ok? && fs.nodes == WorkspaceOf(ms)
    ensures !Writable(old(fs.nodes)[[]]) && ms != [] ==> r.Err? && fs.nodes == old(fs.nodes)
  {
    ghost var base := fs.nodes;
    LayersMakeTheWorkspace(ms, limits, base);
    PrivateDirectoriesAreWritable();
    assert ms == [] ==> Directories(ms) == {};
    assert Directories(ms) == {} ==> base + DirectoryNodes(Directories(ms), PRIVATE_DIRECTORY) == base;
    var made := MakeDirectories(ms, validated.directories, fs, limits);
    if made.Err? { return Err(made.error); }
    var wrote := WriteFiles(ms, validated, fs, limits, sha);
    if wrote.Err? { return Err(wrote.error); }
    MakeTreeReadOnly(validated.directories, fs);
    return Ok(());
  }

  /**
    Extracts a deliverable artifact completely, whatever the order of its
    members; anything else is refused before a byte is written, and so is an
    artifact with members when nothing can be created in the workspace root.
   */
  method Materialize(artifact: SourceArtifact, fs: Filesystem, limits: Limits, codec: Codec)
    returns (r: Result<Manifest, Refusal>)
    requires [] in fs.nodes && fs.nodes[[]].FsDirectory?
    modifies fs
    ensures !(Deliverable(artifact, limits, codec) && old(fs.nodes).Keys == {[]}) ==> r.Err? && fs.nodes == old(fs.nodes)
    ensures Deliverable(artifact, limits, codec) && old(fs.nodes).Keys == {[]} ==>
              if Writable(old(fs.nodes)[[]]) || artifact.members == [] then
                r == Ok(ManifestOf(artifact.members, codec.sha)) && fs.nodes == WorkspaceOf(artifact.members)
              else r.Err? && fs.nodes == old(fs.nodes)
    ensures limits.maxArchiveBytes < codec.tarBytes(artifact.members) ==> r == Err(ArchiveTooLarge)
    ensures r.Ok? && artifact.manifestDigest.Some? ==>
              artifact.manifestDigest.value == codec.manifestDigest(ManifestOf(artifact.members, codec.sha))
  {
    var ms := artifact.members;
    if codec.tarBytes(ms) > limits.maxArchiveBytes { return Err(ArchiveTooLarge); }
    if fs.nodes.Keys != {[]} { return Err(DestinationNotEmpty); }
    var validation := ValidateArchive(ms, limits, codec.sha);
    if validation.Err? { return Err(validation.error); }
    var validated := validation.value;
    if artifact.manifestDigest.Some? && artifact.manifestDigest.value != codec.manifestDigest(validated.manifest) {
      return Err(ManifestMismatch);
    }
    hide Acceptable, Files, WorkspaceOf, ManifestOf, Deliverable;
    var wrote := WriteValidatedArchive(ms, validated, fs, limits, codec.sha);
    if wrote.Err? { return Err(wrote.error); }
    return Ok(validated.manifest);
  }
}
