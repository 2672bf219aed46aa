/**
  Validation of an archive: the loop over its members with its collision sets,
  against an order-free description of the archives it accepts.
 */
module Archive {
  import opened Wrappers
  import opened Text
  import opened Paths

  const COPY_CHUNK_BYTES: nat := 128 * 1024
  const EXECUTE_BITS: bv16 := 0x049       // 0o111
  const WRITE_BITS: bv16 := 0x092         // 0o222
  const SPECIAL_BITS: bv16 := 0xE00       // set-user-id, set-group-id and sticky
  const PERMISSION_BITS: bv16 := 0xFFF    // what S_IMODE keeps
  const READ_ONLY_DIRECTORY: bv16 := 0x16D // 0o555
  const READ_ONLY_FILE: bv16 := 0x124      // 0o444

  datatype Kind = Regular | Directory | Sparse | Other

  /** One tar member; `data` is what reading it yields, which need not match `size`. */
  datatype Member = Member(name: Text, kind: Kind, mode: bv16, size: nat, data: Bytes)

  datatype ValidatedFile = ValidatedFile(size: nat, digest: Bytes, executable: bool)

  datatype ManifestEntry = ManifestEntry(path: Text, isFile: bool, mode: bv16, size: nat, digest: Option<Bytes>)

  datatype Manifest = Manifest(entries: seq<ManifestEntry>, fileCount: nat, totalBytes: nat)

  datatype Validated = Validated(files: map<Text, ValidatedFile>, directories: set<Text>, manifest: Manifest)

  // ---------------------------------------------------------------- what is accepted

  predicate EndsWithSlash(name: Text) { name != [] && name[|name| - 1] == SLASH }

  function PathOf(m: Member): Text {
    if EndsWithSlash(m.name) then m.name[..|m.name| - 1] else m.name
  }

  predicate Executable(mode: bv16) { mode & EXECUTE_BITS != 0 }

  predicate HasUnsafeBits(mode: bv16) { (mode & PERMISSION_BITS) & (WRITE_BITS | SPECIAL_BITS) != 0 }

  predicate SafeMember(m: Member) {
    && (m.kind == Directory || (m.kind == Regular && !EndsWithSlash(m.name)))
    && !HasUnsafeBits(m.mode)
  }

  predicate WholeFile(m: Member, limits: Limits) {
    m.size <= limits.maxFileBytes && |m.data| == m.size
  }

  predicate MemberOk(m: Member, limits: Limits) {
    && Canonical(PathOf(m), limits)
    && SafeMember(m)
    && (m.kind == Regular ==> WholeFile(m, limits))
  }

  function TotalBytes(ms: seq<Member>): nat {
    if ms == [] then 0 else
      var m := ms[|ms| - 1];
      TotalBytes(ms[..|ms| - 1]) + if m.kind == Regular then m.size else 0
  }

  predicate DistinctPaths(ms: seq<Member>) {
    forall i, j :: 0 <= i < j < |ms| ==> PathOf(ms[i]) != PathOf(ms[j])
  }

  predicate NoFileAbove(ms: seq<Member>) {
    forall f <- ms, m <- ms :: f.kind == Regular ==> !IsAncestor(PathOf(f), PathOf(m))
  }

  /** The archives that describe a bounded tree; nothing here depends on member order. */
  predicate Acceptable(ms: seq<Member>, limits: Limits) {
    && |ms| <= limits.maxEntries
    && (forall m <- ms :: MemberOk(m, limits))
    && DistinctPaths(ms)
    && NoFileAbove(ms)
    && TotalBytes(ms) <= limits.maxWorkspaceBytes
  }

  // ---------------------------------------------------------------- what it describes

  function PathSet(ms: seq<Member>): set<Text> { set m <- ms :: PathOf(m) }

  function FilePaths(ms: seq<Member>): set<Text> { set m <- ms | m.kind == Regular :: PathOf(m) }

  function DeclaredDirectories(ms: seq<Member>): set<Text> { set m <- ms | m.kind == Directory :: PathOf(m) }

  function AllAncestors(paths: set<Text>): set<Text> { set p <- paths, a <- Ancestors(p) :: a }

  function Directories(ms: seq<Member>): set<Text> { DeclaredDirectories(ms) + AllAncestors(PathSet(ms)) }

  function Files(ms: seq<Member>, sha: Bytes -> Bytes): map<Text, ValidatedFile> {
    if ms == [] then map[] else
      var m := ms[|ms| - 1];
      var before := Files(ms[..|ms| - 1], sha);
      if m.kind == Regular then before[PathOf(m) := ValidatedFile(m.size, sha(m.data), Executable(m.mode))]
      else before
  }

  lemma PathIdentifies(ms: seq<Member>, a: Member, b: Member)
    requires DistinctPaths(ms) && a in ms && b in ms && PathOf(a) == PathOf(b)
    ensures a == b
  {
    var i :| 0 <= i < |ms| && ms[i] == a;
    var j :| 0 <= j < |ms| && ms[j] == b;
    var pathOfA, pathOfB := PathOf(ms[i]), PathOf(ms[j]);
  }

  lemma LastPathIsNew(ms: seq<Member>, m: Member)
    requires DistinctPaths(ms + [m])
    ensures DistinctPaths(ms) && PathOf(m) !in PathSet(ms)
  {
    var all := ms + [m];
    assert forall i | 0 <= i < |ms| :: all[i] == ms[i];
    forall x <- ms ensures PathOf(x) != PathOf(m) {
      var i :| 0 <= i < |ms| && ms[i] == x;
      assert PathOf(all[i]) != PathOf(all[|ms|]);
    }
  }

  lemma {:induction false} FilesByPath(ms: seq<Member>, sha: Bytes -> Bytes)
    requires DistinctPaths(ms)
    ensures Files(ms, sha).Keys == FilePaths(ms)
    ensures forall m <- ms | m.kind == Regular ::
              Files(ms, sha)[PathOf(m)] == ValidatedFile(m.size, sha(m.data), Executable(m.mode))
  {
    if ms != [] {
      var init, last := ms[..|ms| - 1], ms[|ms| - 1];
      assert ms == init + [last];
      LastPathIsNew(init, last);
      FilesByPath(init, sha);
      assert forall m <- init :: PathOf(m) in PathSet(init);
    }
  }

  // ---------------------------------------------------------------- sorted paths

  /** Paths are sorted by code points, or first by depth and then by code points. */
  datatype Order = ByPath | ByDepth

  function Key(p: Text, order: Order): seq<nat> {
    if order.ByPath? then p else [Depth(p)] + p
  }

  predicate IsFirst(p: Text, s: set<Text>, order: Order) {
    p in s && forall q <- s :: q == p || Before(Key(p, order), Key(q, order))
  }

  lemma KeyInjective(p: Text, q: Text, order: Order)
    requires Key(p, order) == Key(q, order)
    ensures p == q
  {
    if order.ByDepth? {
      assert Key(p, order)[1..] == p && Key(q, order)[1..] == q;
    }
  }

  /** A path outside a set comes before all of it or after its first. */
  lemma FirstOfTwo(p: Text, q: Text, rest: set<Text>, order: Order)
    requires IsFirst(q, rest, order) && p !in rest
    ensures !Before(Key(q, order), Key(p, order)) ==> forall r <- rest :: Before(Key(p, order), Key(r, order))
  {
    BeforeTotal(Key(p, order), Key(q, order));
    if Key(p, order) == Key(q, order) { KeyInjective(p, q, order); }
    hide Before, Key;
    forall r <- rest | Before(Key(p, order), Key(q, order)) ensures Before(Key(p, order), Key(r, order)) {
      if r != q { BeforeTransitive(Key(p, order), Key(q, order), Key(r, order)); }
    }
  }

  lemma {:induction false} FirstPathExists(s: set<Text>, order: Order) returns (p: Text)
    requires s != {}
    ensures IsFirst(p, s, order)
    decreases |s|
  {
    p :| p in s;
    var one, rest := p, s - {p};
    if rest != {} {
      var q := FirstPathExists(rest, order);
      FirstOfTwo(one, q, rest, order);
      hide Before, Key;
      p := if Before(Key(q, order), Key(one, order)) then q else one;
      forall r <- s ensures r == p || Before(Key(p, order), Key(r, order)) { assert r == one || r in rest; }
    } else {
      assert forall r <- s :: r == p || r in rest;
    }
  }

  lemma BeforeAsymmetric()
    ensures forall a: seq<nat>, b: seq<nat> :: !(Before(a, b) && Before(b, a))
  {
    forall a: seq<nat>, b: seq<nat> ensures !(Before(a, b) && Before(b, a)) { BeforeTotal(a, b); }
  }

  function FirstPath(s: set<Text>, order: Order): (p: Text)
    requires s != {}
    ensures IsFirst(p, s, order)
  {
    assert exists p :: IsFirst(p, s, order) by { var p := FirstPathExists(s, order); }
    BeforeAsymmetric();
    var p :| IsFirst(p, s, order);
    p
  }

  function SortPaths(s: set<Text>, order: Order): (sorted: seq<Text>)
    ensures forall p :: p in sorted <==> p in s
    decreases |s|
  {
    if s == {} then [] else [FirstPath(s, order)] + SortPaths(s - {FirstPath(s, order)}, order)
  }

  lemma {:induction false} SortPathsSorts(s: set<Text>, order: Order)
    ensures forall i, j | 0 <= i < j < |SortPaths(s, order)| ::
              Before(Key(SortPaths(s, order)[i], order), Key(SortPaths(s, order)[j], order))
    decreases |s|
  {
    if s != {} {
      var sorted, p := SortPaths(s, order), FirstPath(s, order);
      assert sorted[1..] == SortPaths(s - {p}, order);
      SortPathsSorts(s - {p}, order);
      forall i, j | 0 <= i < j < |sorted| ensures Before(Key(sorted[i], order), Key(sorted[j], order)) {
        assert sorted[j] == sorted[1..][j - 1];
        if i == 0 {
          assert sorted[j] in SortPaths(s - {p}, order);
        } else {
          assert sorted[i] == sorted[1..][i - 1];
        }
      }
    }
  }

  predicate PathSorted(entries: seq<ManifestEntry>) {
    forall i, j :: 0 <= i < j < |entries| ==> Before(entries[i].path, entries[j].path)
  }

  // ---------------------------------------------------------------- the manifest

  function EntryFor(p: Text, files: map<Text, ValidatedFile>): ManifestEntry {
    if p in files then
      ManifestEntry(p, true, if files[p].executable then READ_ONLY_DIRECTORY else READ_ONLY_FILE,
                    files[p].size, Some(files[p].digest))
    else ManifestEntry(p, false, READ_ONLY_DIRECTORY, 0, None)
  }

  function EntriesFor(order: seq<Text>, files: map<Text, ValidatedFile>): (entries: seq<ManifestEntry>)
    ensures |entries| == |order|
    ensures forall i | 0 <= i < |order| :: entries[i] == EntryFor(order[i], files)
  {
    if order == [] then [] else [EntryFor(order[0], files)] + EntriesFor(order[1..], files)
  }

  function FileEntryCount(entries: seq<ManifestEntry>): nat {
    if entries == [] then 0 else (if entries[0].isFile then 1 else 0) + FileEntryCount(entries[1..])
  }

  function FileEntryBytes(entries: seq<ManifestEntry>): nat {
    if entries == [] then 0 else (if entries[0].isFile then entries[0].size else 0) + FileEntryBytes(entries[1..])
  }

  /** The consistency checks every manifest makes of itself when it is constructed. */
  predicate ConsistentManifest(manifest: Manifest) {
    && manifest.fileCount == FileEntryCount(manifest.entries)
    && manifest.totalBytes == FileEntryBytes(manifest.entries)
    && PathSorted(manifest.entries)
  }

  function ManifestOf(ms: seq<Member>, sha: Bytes -> Bytes): Manifest {
    var files := Files(ms, sha);
    Manifest(EntriesFor(SortPaths(Directories(ms) + files.Keys, ByPath), files), |files|, TotalBytes(ms))
  }

  ghost function SumSizes(files: map<Text, ValidatedFile>): nat
    decreases |files|
  {
    if files == map[] then 0 else
      var p :| p in files;
      files[p].size + SumSizes(files - {p})
  }

  lemma {:induction false} SumWithout(files: map<Text, ValidatedFile>, p: Text)
    requires p in files
    ensures SumSizes(files) == files[p].size + SumSizes(files - {p})
    decreases |files|
  {
    var q :| q in files && SumSizes(files) == files[q].size + SumSizes(files - {q});
    if q != p {
      SumWithout(files - {q}, p);
      SumWithout(files - {p}, q);
      assert files - {q} - {p} == files - {p} - {q};
    }
  }

  lemma AddedFile(files: map<Text, ValidatedFile>, p: Text, file: ValidatedFile)
    requires p !in files
    ensures SumSizes(files[p := file]) == SumSizes(files) + file.size
  {
    SumWithout(files[p := file], p);
    assert files[p := file] - {p} == files;
  }

  lemma {:induction false} TotalIsSumOfFiles(ms: seq<Member>, sha: Bytes -> Bytes)
    requires DistinctPaths(ms)
    ensures TotalBytes(ms) == SumSizes(Files(ms, sha))
  {
    if ms != [] {
      var init, last := ms[..|ms| - 1], ms[|ms| - 1];
      assert ms == init + [last];
      LastPathIsNew(init, last);
      TotalIsSumOfFiles(init, sha);
      FilesByPath(init, sha);
      FilePathsAreSome(init);
      var files, before := Files(ms, sha), Files(init, sha);
      assert TotalBytes(ms) == TotalBytes(init) + if last.kind == Regular then last.size else 0;
      assert PathOf(last) !in before;
      assert last.kind == Regular ==> files == before[PathOf(last) := ValidatedFile(last.size, sha(last.data), Executable(last.mode))];
      assert last.kind != Regular ==> files == before;
      hide *;
      if last.kind == Regular {
        AddedFile(before, PathOf(last), ValidatedFile(last.size, sha(last.data), Executable(last.mode)));
      }
    }
  }

  lemma FilePathsAreSome(ms: seq<Member>)
    ensures FilePaths(ms) <= PathSet(ms) && DeclaredDirectories(ms) <= PathSet(ms)
  {
  }

  lemma EntriesOfOneMore(order: seq<Text>, files: map<Text, ValidatedFile>)
    requires order != [] && order[0] !in order[1..]
    ensures var entry, rest := EntryFor(order[0], files), EntriesFor(order[1..], files - {order[0]});
            && FileEntryCount(EntriesFor(order, files)) == (if entry.isFile then 1 else 0) + FileEntryCount(rest)
            && FileEntryBytes(EntriesFor(order, files)) == (if entry.isFile then entry.size else 0) + FileEntryBytes(rest)
  {
    SameEntries(order[1..], files, files - {order[0]});
    var entries := [EntryFor(order[0], files)] + EntriesFor(order[1..], files);
    assert EntriesFor(order, files) == entries;
    assert entries[1..] == EntriesFor(order[1..], files);
  }

  lemma CountWithout<K, V>(m: map<K, V>, k: K)
    requires k in m
    ensures |m| == |m - {k}| + 1
  {
    assert m.Keys == (m - {k}).Keys + {k};
  }

  lemma SumRest(files: map<Text, ValidatedFile>, p: Text, rest: map<Text, ValidatedFile>)
    requires rest == files - {p}
    ensures |files| == |rest| + if p in files then 1 else 0
    ensures SumSizes(files) == SumSizes(rest) + if p in files then files[p].size else 0
  {
    if p in files {
      SumWithout(files, p);
      CountWithout(files, p);
    } else {
      assert rest == files;
    }
  }

  lemma NoEntries(files: map<Text, ValidatedFile>)
    requires files.Keys == {}
    ensures FileEntryCount(EntriesFor([], files)) == |files| == 0 && FileEntryBytes(EntriesFor([], files)) == SumSizes(files)
  {
    assert files == map[];
  }

  lemma RestInOrder(order: seq<Text>, files: map<Text, ValidatedFile>)
    requires order != [] && forall i, j | 0 <= i < j < |order| :: order[i] != order[j]
    requires forall p <- files :: p in order
    ensures order[0] !in order[1..] && forall q <- files - {order[0]} :: q in order[1..]
    ensures EntryFor(order[0], files).isFile <==> order[0] in files
    ensures order[0] in files ==> EntryFor(order[0], files).size == files[order[0]].size
  {
    assert order == [order[0]] + order[1..];
  }

  lemma {:induction false} EntriesCountFiles(order: seq<Text>, files: map<Text, ValidatedFile>)
    requires forall i, j | 0 <= i < j < |order| :: order[i] != order[j]
    requires forall p <- files :: p in order
    ensures FileEntryCount(EntriesFor(order, files)) == |files|
    ensures FileEntryBytes(EntriesFor(order, files)) == SumSizes(files)
  {
    hide *;
    if order == [] {
      NoEntries(files);
    } else {
      var p, others := order[0], files - {order[0]};
      RestInOrder(order, files);
      EntriesOfOneMore(order, files);
      SumRest(files, p, others);
      EntriesCountFiles(order[1..], others);
    }
  }

  lemma SameEntries(order: seq<Text>, f: map<Text, ValidatedFile>, g: map<Text, ValidatedFile>)
    requires forall p <- order :: (p in f <==> p in g) && (p in f ==> f[p] == g[p])
    ensures EntriesFor(order, f) == EntriesFor(order, g)
  {
    forall i | 0 <= i < |order| ensures EntriesFor(order, f)[i] == EntriesFor(order, g)[i] {
      assert order[i] in order;
    }
  }

  lemma SortedIsDistinct(order: seq<Text>)
    requires forall i, j | 0 <= i < j < |order| :: Before(order[i], order[j])
    ensures forall i, j | 0 <= i < j < |order| :: order[i] != order[j]
  {
    forall i, j | 0 <= i < j < |order| ensures order[i] != order[j] { BeforeTotal(order[i], order[j]); }
  }

  /** The manifest the validator builds always passes the checks of its constructor. */
  lemma ManifestIsConsistent(ms: seq<Member>, sha: Bytes -> Bytes)
    requires DistinctPaths(ms)
    ensures ConsistentManifest(ManifestOf(ms, sha))
  {
    var files := Files(ms, sha);
    var nodes := Directories(ms) + files.Keys;
    SortPathsSorts(nodes, ByPath);
    SortedIsDistinct(SortPaths(nodes, ByPath));
    hide Files, Directories, EntriesFor, FileEntryCount, FileEntryBytes, SortPaths, TotalBytes, SumSizes, EntryFor, Key;
    EntriesCountFiles(SortPaths(nodes, ByPath), files);
    TotalIsSumOfFiles(ms, sha);
  }

  // ---------------------------------------------------------------- the collision checks

  predicate StartsWith(t: Text, prefix: Text) { |prefix| <= |t| && t[..|prefix|] == prefix }

  function RejectCollision(path: Text, isDirectory: bool, declared: set<Text>, files: set<Text>): Option<Refusal> {
    if path in declared then Some(DuplicatePath)
    else if exists a <- JoinedPrefixes(path) :: a in files then Some(ParentIsFile)
    else if !isDirectory && exists e <- declared :: StartsWith(e, path + [SLASH]) then Some(FileHasChild)
    else None
  }

  lemma StartsWithSlashIsAncestor(e: Text, path: Text)
    ensures StartsWith(e, path + [SLASH]) <==> IsAncestor(path, e)
  {
    if StartsWith(e, path + [SLASH]) {
      assert e[..|path| + 1][|path|] == e[|path|];
      assert e[..|path| + 1][..|path|] == e[..|path|];
    }
    if IsAncestor(path, e) {
      assert e[..|path| + 1] == e[..|path|] + [e[|path|]];
    }
  }

  lemma CollisionFreeExtends(ms: seq<Member>, m: Member)
    requires DistinctPaths(ms) && NoFileAbove(ms)
    requires m.kind == Directory || m.kind == Regular
    requires RejectCollision(PathOf(m), m.kind == Directory, PathSet(ms), FilePaths(ms)).None?
    ensures DistinctPaths(ms + [m]) && NoFileAbove(ms + [m])
  {
    var path, all := PathOf(m), ms + [m];
    JoinedPrefixesAreAncestors(path);
    forall i, j | 0 <= i < j < |all| ensures PathOf(all[i]) != PathOf(all[j]) {
      assert all[i] in ms && PathOf(all[i]) in PathSet(ms);
    }
    forall f <- all, x <- all | f.kind == Regular ensures !IsAncestor(PathOf(f), PathOf(x)) {
      if f in ms && x !in ms {
        assert PathOf(f) in FilePaths(ms);
      } else if f !in ms && x in ms {
        StartsWithSlashIsAncestor(PathOf(x), path);
        assert PathOf(x) in PathSet(ms);
      }
    }
  }

  lemma CollisionsSpoil(ms: seq<Member>, m: Member)
    requires m.kind == Directory || m.kind == Regular
    requires DistinctPaths(ms + [m]) && NoFileAbove(ms + [m])
    ensures RejectCollision(PathOf(m), m.kind == Directory, PathSet(ms), FilePaths(ms)).None?
  {
    var path, all := PathOf(m), ms + [m];
    JoinedPrefixesAreAncestors(path);
    LastPathIsNew(ms, m);
    assert m in all && forall x <- ms :: x in all;
    forall a <- JoinedPrefixes(path) ensures a !in FilePaths(ms) {
      assert IsAncestor(a, path);
    }
    forall e <- PathSet(ms) | m.kind == Regular ensures !StartsWith(e, path + [SLASH]) {
      StartsWithSlashIsAncestor(e, path);
    }
  }

  lemma {:induction false} TotalGrows(ms: seq<Member>, i: nat)
    requires i <= |ms|
    ensures TotalBytes(ms[..i]) <= TotalBytes(ms)
    decreases |ms|
  {
    if i < |ms| {
      TotalGrows(ms[..|ms| - 1], i);
      assert ms[..|ms| - 1][..i] == ms[..i];
    } else {
      assert ms[..i] == ms;
    }
  }

  lemma PrefixAcceptable(ms: seq<Member>, i: nat, limits: Limits)
    requires i <= |ms| && Acceptable(ms, limits)
    ensures Acceptable(ms[..i], limits)
  {
    TotalGrows(ms, i);
    assert forall m <- ms[..i] :: m in ms;
  }

  /** What the validator checks of one more member, given what it has already seen. */
  predicate Fits(seen: seq<Member>, m: Member, limits: Limits) {
    && |seen| < limits.maxEntries
    && MemberOk(m, limits)
    && RejectCollision(PathOf(m), m.kind == Directory, PathSet(seen), FilePaths(seen)).None?
    && TotalBytes(seen) + (if m.kind == Regular then m.size else 0) <= limits.maxWorkspaceBytes
  }

  lemma TotalOfOneMore(seen: seq<Member>, m: Member)
    ensures TotalBytes(seen + [m]) == TotalBytes(seen) + if m.kind == Regular then m.size else 0
  {
    assert (seen + [m])[..|seen|] == seen;
  }

  /** One more member keeps the prefix acceptable exactly when the running checks pass. */
  lemma RunningChecksAreExact(seen: seq<Member>, m: Member, limits: Limits)
    requires Acceptable(seen, limits)
    ensures Acceptable(seen + [m], limits) <==> Fits(seen, m, limits)
  {
    TotalOfOneMore(seen, m);
    assert m in seen + [m] && forall x <- seen + [m] :: x == m || x in seen;
    if Fits(seen, m, limits) {
      CollisionFreeExtends(seen, m);
    }
    if Acceptable(seen + [m], limits) {
      CollisionsSpoil(seen, m);
    }
  }

  lemma SetsOfOneMore(seen: seq<Member>, m: Member, sha: Bytes -> Bytes)
    ensures PathSet(seen + [m]) == PathSet(seen) + {PathOf(m)}
    ensures FilePaths(seen + [m]) == FilePaths(seen) + if m.kind == Regular then {PathOf(m)} else {}
    ensures DeclaredDirectories(seen + [m]) == DeclaredDirectories(seen) + if m.kind == Directory then {PathOf(m)} else {}
    ensures Files(seen + [m], sha)
         == if m.kind == Regular then Files(seen, sha)[PathOf(m) := ValidatedFile(m.size, sha(m.data), Executable(m.mode))]
            else Files(seen, sha)
  {
    assert forall x :: x in seen + [m] <==> x == m || x in seen;
    assert (seen + [m])[..|seen|] == seen;
  }

  /** The same, for the next member of an archive being scanned. */
  lemma ScanStep(ms: seq<Member>, i: nat, limits: Limits, sha: Bytes -> Bytes)
    requires i < |ms| && Acceptable(ms[..i], limits)
    ensures Acceptable(ms[..i + 1], limits) <==> Fits(ms[..i], ms[i], limits)
    ensures Acceptable(ms, limits) ==> Fits(ms[..i], ms[i], limits)
    ensures PathSet(ms[..i + 1]) == PathSet(ms[..i]) + {PathOf(ms[i])}
    ensures FilePaths(ms[..i + 1]) == FilePaths(ms[..i]) + if ms[i].kind == Regular then {PathOf(ms[i])} else {}
    ensures DeclaredDirectories(ms[..i + 1])
         == DeclaredDirectories(ms[..i]) + if ms[i].kind == Directory then {PathOf(ms[i])} else {}
    ensures Files(ms[..i + 1], sha)
         == if ms[i].kind == Regular
            then Files(ms[..i], sha)[PathOf(ms[i]) := ValidatedFile(ms[i].size, sha(ms[i].data), Executable(ms[i].mode))]
            else Files(ms[..i], sha)
    ensures TotalBytes(ms[..i + 1]) == TotalBytes(ms[..i]) + if ms[i].kind == Regular then ms[i].size else 0
  {
    assert ms[..i + 1] == ms[..i] + [ms[i]];
    RunningChecksAreExact(ms[..i], ms[i], limits);
    SetsOfOneMore(ms[..i], ms[i], sha);
    TotalOfOneMore(ms[..i], ms[i]);
    if Acceptable(ms, limits) { PrefixAcceptable(ms, i + 1, limits); }
  }

  // ---------------------------------------------------------------- the loops

  /** Reads a member in bounded chunks and digests what it read. */
  method HashMember(m: Member, sha: Bytes -> Bytes) returns (r: Result<Bytes, Refusal>)
    ensures r == if |m.data| < m.size then Err(TruncatedFile)
                 else if |m.data| > m.size then Err(OverlongFile)
                 else Ok(sha(m.data))
  {
    var remaining: nat, position: nat := m.size, 0;
    var hashed: Bytes := [];
    while remaining != 0
      invariant position + remaining == m.size && position <= |m.data|
      invariant hashed == m.data[..position]
    {
      var wanted := if COPY_CHUNK_BYTES < remaining then COPY_CHUNK_BYTES else remaining;
      var upto := if position + wanted < |m.data| then position + wanted else |m.data|;
      var chunk := m.data[position..upto];
      if chunk == [] { return Err(TruncatedFile); }
      hashed := hashed + chunk;
      remaining := remaining - |chunk|;
      position := upto;
    }
    if position < |m.data| { return Err(OverlongFile); }
    assert m.data[..position] == m.data;
    return Ok(sha(hashed));
  }

  /** The declared directories together with every ancestor of every path. */
  method AllDirectories(declared: set<Text>, files: set<Text>) returns (directories: set<Text>)
    ensures directories == declared + AllAncestors(declared + files)
  {
    directories := declared;
    var todo := declared + files;
    while todo != {}
      invariant todo <= declared + files
      invariant directories == declared + AllAncestors(declared + files - todo)
      decreases todo
    {
      var path :| path in todo;
      ghost var done := declared + files - todo;
      directories := directories + JoinedPrefixes(path);
      JoinedPrefixesAreAncestors(path);
      todo := todo - {path};
      assert declared + files - todo == done + {path};
      assert AllAncestors(done + {path}) == AllAncestors(done) + Ancestors(path);
    }
    assert declared + files - {} == declared + files;
  }

  /**
    Accepts exactly the acceptable archives and describes them by their files,
    their directory closure and their manifest.
   */
  method ValidateArchive(ms: seq<Member>, limits: Limits, sha: Bytes -> Bytes)
    returns (r: Result<Validated, Refusal>)
    ensures r.Ok? <==> Acceptable(ms, limits)
    ensures r.Ok? ==> r.value == Validated(Files(ms, sha), Directories(ms), ManifestOf(ms, sha))
  {
    var files: map<Text, ValidatedFile> := map[];
    var declaredDirectories: set<Text>, declaredPaths: set<Text>, filePaths: set<Text> := {}, {}, {};
    var entries, totalBytes := 0, 0;
    for i := 0 to |ms|
      invariant Acceptable(ms[..i], limits)
      invariant entries == i && totalBytes == TotalBytes(ms[..i])
      invariant declaredPaths == PathSet(ms[..i]) && filePaths == FilePaths(ms[..i])
      invariant declaredDirectories == DeclaredDirectories(ms[..i])
      invariant files == Files(ms[..i], sha)
    {
      var member := ms[i];
      ScanStep(ms, i, limits, sha);
      var canonical := CanonicalMemberPath(member.name, limits);
      CanonicalIsPathOf(member, limits);
      if canonical.Err? { return Err(canonical.error); }
      var path := canonical.value;
      entries := entries + 1;
      if entries > limits.maxEntries { return Err(TooManyEntries); }
      if !SafeMember(member) { return Err(if HasUnsafeBits(member.mode) then UnsafeMode else UnsupportedMember); }
      var collision := RejectCollision(path, member.kind == Directory, declaredPaths, filePaths);
      if collision.Some? { return Err(collision.value); }
      declaredPaths := declaredPaths + {path};
      if member.kind == Directory {
        declaredDirectories := declaredDirectories + {path};
        continue;
      }
      if member.size > limits.maxFileBytes { return Err(FileTooLarge); }
      totalBytes := totalBytes + member.size;
      if totalBytes > limits.maxWorkspaceBytes { return Err(WorkspaceTooLarge); }
      var digest := HashMember(member, sha);
      if digest.Err? { return Err(digest.error); }
      files := files[path := ValidatedFile(member.size, digest.value, Executable(member.mode))];
      filePaths := filePaths + {path};
    }
    assert ms[..|ms|] == ms;
    FilesByPath(ms, sha);
    var directories := AllDirectories(declaredDirectories, filePaths);
    PathsAreDirectoriesOrFiles(ms, limits);
    ManifestIsConsistent(ms, sha);
    var manifest := Manifest(EntriesFor(SortPaths(directories + files.Keys, ByPath), files), |files|, totalBytes);
    return Ok(Validated(files, directories, manifest));
  }

  lemma CanonicalIsPathOf(m: Member, limits: Limits)
    ensures CanonicalMemberPath(m.name, limits).Ok? <==> Canonical(PathOf(m), limits)
    ensures CanonicalMemberPath(m.name, limits).Ok? ==> CanonicalMemberPath(m.name, limits).value == PathOf(m)
  {
    hide CanonicalMemberPath, Canonical;
    var canonical := CanonicalMemberPath(m.name, limits);
    if canonical.Ok? {
      MemberNamesDenoteCanonicalPaths(m.name, canonical.value, limits);
      CanonicalShape(canonical.value, limits);
    }
    if Canonical(PathOf(m), limits) {
      MemberNamesDenoteCanonicalPaths(m.name, PathOf(m), limits);
      assert EndsWithSlash(m.name) ==> m.name == PathOf(m) + [SLASH];
    }
  }

  lemma PathsAreDirectoriesOrFiles(ms: seq<Member>, limits: Limits)
    requires forall m <- ms :: MemberOk(m, limits)
    ensures PathSet(ms) == DeclaredDirectories(ms) + FilePaths(ms)
  {
    forall p <- PathSet(ms) ensures p in DeclaredDirectories(ms) || p in FilePaths(ms) {
      var m :| m in ms && PathOf(m) == p;
      assert MemberOk(m, limits);
    }
  }

  // ---------------------------------------------------------------- consequences

  lemma NodeHasMember(ms: seq<Member>, p: Text) returns (m: Member)
    requires p in Directories(ms) + FilePaths(ms)
    ensures m in ms && (p == PathOf(m) || IsAncestor(p, PathOf(m)))
  {
    if p in PathSet(ms) {
      m :| m in ms && PathOf(m) == p;
    } else {
      FilePathsAreSome(ms);
      var q :| q in PathSet(ms) && p in Ancestors(q);
      JoinedPrefixesAreAncestors(q);
      m :| m in ms && PathOf(m) == q;
    }
  }

  lemma AncestorsAreDirectories(ms: seq<Member>, p: Text, a: Text)
    requires p in Directories(ms) + FilePaths(ms) && IsAncestor(a, p)
    ensures a in Directories(ms)
  {
    var m := NodeHasMember(ms, p);
    if p != PathOf(m) { AncestorTransitive(a, p, PathOf(m)); }
    JoinedPrefixesAreAncestors(PathOf(m));
    assert PathOf(m) in PathSet(ms);
  }

  lemma NothingBelowFiles(ms: seq<Member>, f: Text, p: Text)
    requires NoFileAbove(ms) && f in FilePaths(ms) && p in Directories(ms) + FilePaths(ms)
    ensures !IsAncestor(f, p)
  {
    var m := NodeHasMember(ms, p);
    var g :| g in ms && g.kind == Regular && f == PathOf(g);
    if IsAncestor(f, p) && p != PathOf(m) { AncestorTransitive(f, p, PathOf(m)); }
  }

  lemma FilesAreNotDirectories(ms: seq<Member>, f: Text)
    requires DistinctPaths(ms) && NoFileAbove(ms) && f in FilePaths(ms)
    ensures f !in Directories(ms)
  {
    var g :| g in ms && g.kind == Regular && f == PathOf(g);
    forall m <- ms ensures m.kind == Directory ==> PathOf(m) != f {
      if PathOf(m) == f { PathIdentifies(ms, m, g); }
    }
    forall q <- PathSet(ms) ensures f !in Ancestors(q) {
      JoinedPrefixesAreAncestors(q);
      var m :| m in ms && PathOf(m) == q;
      assert !IsAncestor(PathOf(g), PathOf(m));
    }
  }

  /**
    Whatever the order of its members, an accepted archive describes a tree:
    every ancestor of every path is a directory, files and directories are
    disjoint, and no file is above any other path.
   */
  lemma AcceptedArchivesAreTrees(ms: seq<Member>, limits: Limits)
    requires Acceptable(ms, limits)
    ensures Directories(ms) !! FilePaths(ms)
    ensures forall p <- Directories(ms) + FilePaths(ms) :: Canonical(p, limits)
    ensures forall p <- Directories(ms) + FilePaths(ms), a | IsAncestor(a, p) :: a in Directories(ms)
    ensures forall f <- FilePaths(ms), p <- Directories(ms) + FilePaths(ms) :: !IsAncestor(f, p)
  {
    var nodes := Directories(ms) + FilePaths(ms);
    forall p <- nodes ensures Canonical(p, limits) {
      var m := NodeHasMember(ms, p);
      assert MemberOk(m, limits);
      if p != PathOf(m) { AncestorOfCanonical(p, PathOf(m), limits); }
    }
    forall p <- nodes, a | IsAncestor(a, p) ensures a in Directories(ms) { AncestorsAreDirectories(ms, p, a); }
    forall f <- FilePaths(ms), p <- nodes ensures !IsAncestor(f, p) { NothingBelowFiles(ms, f, p); }
    forall f <- FilePaths(ms) ensures f !in Directories(ms) { FilesAreNotDirectories(ms, f); }
  }

  lemma OccursOnce(ms: seq<Member>, m: Member)
    requires DistinctPaths(ms) && m in ms
    ensures multiset(ms)[m] == 1
  {
    hide PathOf;
    var k :| 0 <= k < |ms| && ms[k] == m;
    var a, b := ms[..k], ms[k + 1..];
    assert ms == a + [m] + b;
    assert forall i | 0 <= i < |a| :: PathOf(a[i]) == PathOf(ms[i]) != PathOf(ms[k]);
    assert forall i | 0 <= i < |b| :: PathOf(ms[k]) != PathOf(ms[k + 1 + i]) == PathOf(b[i]);
    hide DistinctPaths;
    assert m !in a && m !in b;
    assert multiset(ms) == multiset(a) + multiset([m]) + multiset(b);
  }

  lemma OccursTwice<T>(s: seq<T>, i: nat, j: nat)
    requires i < j < |s| && s[i] == s[j]
    ensures multiset(s)[s[j]] >= 2
  {
    assert s == s[..j] + [s[j]] + s[j + 1..];
    assert s[..j][i] == s[i];
    assert s[j] in multiset(s[..j]);
  }

  lemma DistinctPathsShuffle(ms: seq<Member>, shuffled: seq<Member>)
    requires multiset(ms) == multiset(shuffled) && DistinctPaths(ms)
    ensures DistinctPaths(shuffled)
  {
    forall i, j | 0 <= i < j < |shuffled| ensures PathOf(shuffled[i]) != PathOf(shuffled[j]) {
      var a, b := shuffled[i], shuffled[j];
      assert a in multiset(ms) && b in multiset(ms);
      OccursOnce(ms, b);
      if PathOf(a) == PathOf(b) {
        PathIdentifies(ms, a, b);
        OccursTwice(shuffled, i, j);
      }
    }
  }

  lemma SameMembers(ms: seq<Member>, shuffled: seq<Member>)
    requires multiset(ms) == multiset(shuffled)
    ensures forall m :: m in ms <==> m in shuffled
    ensures |ms| == |shuffled|
    ensures PathSet(ms) == PathSet(shuffled) && FilePaths(ms) == FilePaths(shuffled)
    ensures Directories(ms) == Directories(shuffled)
  {
    assert |ms| == |multiset(ms)| && |shuffled| == |multiset(shuffled)|;
    assert forall m :: m in ms <==> m in multiset(ms);
    assert forall m :: m in shuffled <==> m in multiset(shuffled);
  }

  lemma FilesShuffle(ms: seq<Member>, shuffled: seq<Member>, sha: Bytes -> Bytes)
    requires multiset(ms) == multiset(shuffled) && DistinctPaths(ms) && DistinctPaths(shuffled)
    ensures Files(ms, sha) == Files(shuffled, sha) && TotalBytes(ms) == TotalBytes(shuffled)
  {
    SameMembers(ms, shuffled);
    FilesByPath(ms, sha);
    FilesByPath(shuffled, sha);
    forall p | p in Files(ms, sha) ensures Files(ms, sha)[p] == Files(shuffled, sha)[p] {
      var m :| m in ms && m.kind == Regular && PathOf(m) == p;
    }
    TotalIsSumOfFiles(ms, sha);
    TotalIsSumOfFiles(shuffled, sha);
  }

  /** Acceptance, and everything derived from the archive, ignore the order of its members. */
  lemma MemberOrderIsIrrelevant(ms: seq<Member>, shuffled: seq<Member>, limits: Limits, sha: Bytes -> Bytes)
    requires multiset(ms) == multiset(shuffled) && Acceptable(ms, limits)
    ensures Acceptable(shuffled, limits)
    ensures Files(shuffled, sha) == Files(ms, sha)
    ensures Directories(shuffled) == Directories(ms)
    ensures ManifestOf(shuffled, sha) == ManifestOf(ms, sha)
  {
    SameMembers(ms, shuffled);
    DistinctPathsShuffle(ms, shuffled);
    FilesShuffle(ms, shuffled, sha);
  }

  lemma UnionCardinality<T>(a: set<T>, b: set<T>)
    ensures |a + b| <= |a| + |b|
  {
    assert a + b == a + (b - a);
  }

  function Nodes(paths: set<Text>): set<Text> { paths + AllAncestors(paths) }

  lemma NodesOfOneMore(ms: seq<Member>)
    requires ms != []
    ensures var init, p := ms[..|ms| - 1], PathOf(ms[|ms| - 1]);
            Nodes(PathSet(ms)) == Nodes(PathSet(init)) + ({p} + Ancestors(p))
  {
    assert ms == ms[..|ms| - 1] + [ms[|ms| - 1]];
    assert PathSet(ms) == PathSet(ms[..|ms| - 1]) + {PathOf(ms[|ms| - 1])};
  }

  function LineageSize(p: Text): nat { |{p} + Ancestors(p)| }

  function Times(a: nat, b: nat): int { a * b }

  lemma TimesSuccessor(a: nat, b: nat)
    ensures Times(a + 1, b) == Times(a, b) + b && Times(0, b) == 0
  {
  }

  lemma {:induction false} NodesPerMember(ms: seq<Member>, half: nat)
    requires forall p <- PathSet(ms) :: LineageSize(p) <= half
    ensures |Nodes(PathSet(ms))| <= Times(|ms|, half)
  {
    if ms != [] {
      var init, p := ms[..|ms| - 1], PathOf(ms[|ms| - 1]);
      assert p in PathSet(ms) && PathSet(init) <= PathSet(ms);
      NodesPerMember(init, half);
      NodesOfOneMore(ms);
      UnionCardinality(Nodes(PathSet(init)), {p} + Ancestors(p));
      TimesSuccessor(|init|, half);
    } else {
      assert Nodes(PathSet(ms)) == {};
      TimesSuccessor(0, half);
    }
  }

  lemma TimesMonotone(a: nat, b: nat, c: nat)
    requires a <= b
    ensures Times(a, c) <= b * c
  {
  }

  /** Extraction is bounded in nodes, implied directories included, and in bytes. */
  lemma ExtractionIsBounded(ms: seq<Member>, limits: Limits, sha: Bytes -> Bytes)
    requires Acceptable(ms, limits)
    ensures |Directories(ms) + FilePaths(ms)| <= limits.maxEntries * ((limits.maxPathBytes + 1) / 2)
    ensures SumSizes(Files(ms, sha)) <= limits.maxWorkspaceBytes
  {
    var half := (limits.maxPathBytes + 1) / 2;
    forall p <- PathSet(ms) ensures LineageSize(p) <= half {
      var m :| m in ms && PathOf(m) == p;
      assert MemberOk(m, limits);
      LineageBound(p, limits);
    }
    NodesPerMember(ms, half);
    PathsAreDirectoriesOrFiles(ms, limits);
    assert Directories(ms) + FilePaths(ms) == Nodes(PathSet(ms));
    TimesMonotone(|ms|, limits.maxEntries, half);
    TotalIsSumOfFiles(ms, sha);
  }

  // ---------------------------------------------------------------- the entries of the manifest

  /** Directories that no member declares. */
  function Implied(ms: seq<Member>): set<Text> { Directories(ms) - DeclaredDirectories(ms) }

  lemma {:induction false} SortPathsLength(s: set<Text>, order: Order)
    ensures |SortPaths(s, order)| == |s|
    decreases |s|
  {
    if s != {} { SortPathsLength(s - {FirstPath(s, order)}, order); }
  }

  lemma {:induction false} AsManyPaths(ms: seq<Member>)
    requires DistinctPaths(ms)
    ensures |PathSet(ms)| == |ms|
  {
    if ms != [] {
      var init, last := ms[..|ms| - 1], ms[|ms| - 1];
      assert ms == init + [last];
      LastPathIsNew(init, last);
      AsManyPaths(init);
      assert PathSet(ms) == PathSet(init) + {PathOf(last)};
    }
  }

  /**
   * The manifest has an entry for every member and every implied directory, so it keeps within `maxEntries`
   * exactly when the members leave room for the directories they imply.
   */
  lemma ManifestCountsImpliedDirectories(ms: seq<Member>, limits: Limits, sha: Bytes -> Bytes)
    requires Acceptable(ms, limits)
    ensures |ManifestOf(ms, sha).entries| == |ms| + |Implied(ms)|
    ensures |ManifestOf(ms, sha).entries| <= limits.maxEntries <==> |Implied(ms)| <= limits.maxEntries - |ms|
  {
    hide Files, FilePaths, PathSet, SortPaths, Canonical, SafeMember, NoFileAbove, TotalBytes, AllAncestors;
    var nodes := Directories(ms) + FilePaths(ms);
    FilesByPath(ms, sha);
    SortPathsLength(nodes, ByPath);
    assert |ManifestOf(ms, sha).entries| == |nodes|;
    AcceptedArchivesAreTrees(ms, limits);
    PathsAreDirectoriesOrFiles(ms, limits);
    AsManyPaths(ms);
    hide Directories, DeclaredDirectories, ManifestOf, DistinctPaths, Acceptable;
    PathsAndImplied(ms, limits);
  }

  lemma PathsAndImplied(ms: seq<Member>, limits: Limits)
    requires Directories(ms) !! FilePaths(ms) && PathSet(ms) == DeclaredDirectories(ms) + FilePaths(ms)
    ensures |Directories(ms) + FilePaths(ms)| == |PathSet(ms)| + |Implied(ms)|
  {
    hide FilePaths, PathSet, AllAncestors, DeclaredDirectories;
    assert Directories(ms) + FilePaths(ms) == PathSet(ms) + Implied(ms) && PathSet(ms) !! Implied(ms);
  }

  lemma NestedPath(limits: Limits)
    requires limits.maxPathBytes >= 3
    ensures Canonical([97, SLASH, 98], limits) && Ancestors([97, SLASH, 98]) == {[97]}
  {
    var path: Text := [97, SLASH, 98];
    assert path == [97] + [SLASH] + [98];
    SplitOnce([97], [98], SLASH);
    assert IndexOf([98], SLASH) == 1 && Split([98], SLASH) == [[98]];
    assert Utf8([98]) == [98] && Utf8(path[1..]) == [SLASH, 98];
    assert path[..1] == [97];
    hide Split;
  }

  /** One file in a directory of its own makes two entries where one is allowed. */
  lemma ManifestCanExceedMaxEntries(sha: Bytes -> Bytes)
    ensures var limits := Limits(0, 0, 1, 0, 3);
            var ms := [Member([97, SLASH, 98], Regular, READ_ONLY_FILE, 0, [])];
            Acceptable(ms, limits) && |ManifestOf(ms, sha).entries| == limits.maxEntries + 1
  {
    var limits, path := Limits(0, 0, 1, 0, 3), [97, SLASH, 98];
    var m := Member(path, Regular, READ_ONLY_FILE, 0, []);
    NestedPath(limits);
    hide Canonical, ManifestOf, Ancestors;
    assert MemberOk(m, limits);
    OneFileImplies(m, [97], limits);
    ManifestCountsImpliedDirectories([m], limits, sha);
  }

  lemma OneFileImplies(m: Member, a: Text, limits: Limits)
    requires MemberOk(m, limits) && m.kind == Regular && m.size == 0 && limits.maxEntries == 1
    requires Ancestors(PathOf(m)) == {a}
    ensures Acceptable([m], limits) && Implied([m]) == {a}
  {
    hide MemberOk, PathOf, Ancestors;
    assert PathSet([m]) == {PathOf(m)} && DeclaredDirectories([m]) == {};
    assert TotalBytes([m]) == TotalBytes([]);
    assert !IsAncestor(PathOf(m), PathOf(m));
  }

  // ---------------------------------------------------------------- which members and modes

  /** Executable is: an execute bit for the owner, the group or anybody. */
  lemma ExecutableMeans(mode: bv16)
    ensures Executable(mode) <==> mode & 0x040 != 0 || mode & 0x008 != 0 || mode & 0x001 != 0
  {
  }

  /** Unsafe is: a write bit for anybody, or one of set-user-id, set-group-id and sticky. */
  lemma UnsafeMeans(mode: bv16)
    ensures HasUnsafeBits(mode)
            <==> || mode & 0x080 != 0 || mode & 0x010 != 0 || mode & 0x002 != 0
                 || mode & 0x800 != 0 || mode & 0x400 != 0 || mode & 0x200 != 0
  {
  }

  /** An archive with a member that is neither a file nor a directory, or with an unsafe mode, is not accepted. */
  lemma UnsafeMembersAreRefused(ms: seq<Member>, limits: Limits, m: Member)
    requires m in ms
    requires (m.kind != Regular && m.kind != Directory) || m.mode & 0x092 != 0 || m.mode & 0xE00 != 0
             || (m.kind == Regular && (|m.data| != m.size || limits.maxFileBytes < m.size))
             || (m.kind == Regular && m.name != [] && m.name[|m.name| - 1] == SLASH)
    ensures !Acceptable(ms, limits)
  {
    if Acceptable(ms, limits) {
      assert MemberOk(m, limits);
      hide DistinctPaths, NoFileAbove, Canonical;
      SafeModeIsReadOnly(m.mode);
    }
  }

  lemma SafeModeIsReadOnly(mode: bv16)
    ensures HasUnsafeBits(mode) <==> mode & 0x092 != 0 || mode & 0xE00 != 0
  {
  }

  // ---------------------------------------------------------------- what a manifest says

  /** The entry of a file: its path, read-only mode, size and the digest of its content. */
  predicate DescribesFile(entry: ManifestEntry, m: Member, sha: Bytes -> Bytes) {
    && m.kind == Regular && entry.path == PathOf(m) && entry.isFile
    && entry.mode == (if Executable(m.mode) then READ_ONLY_DIRECTORY else READ_ONLY_FILE)
    && entry.size == |m.data| && entry.digest == Some(sha(m.data))
  }

  predicate DescribesDirectory(entry: ManifestEntry, path: Text) {
    entry == ManifestEntry(path, false, READ_ONLY_DIRECTORY, 0, None)
  }

  predicate FilesHaveEntries(entries: seq<ManifestEntry>, ms: seq<Member>, sha: Bytes -> Bytes) {
    forall m <- ms | m.kind == Regular :: exists entry <- entries :: DescribesFile(entry, m, sha)
  }

  predicate DirectoriesHaveEntries(entries: seq<ManifestEntry>, ms: seq<Member>) {
    forall d <- Directories(ms) :: exists entry <- entries :: DescribesDirectory(entry, d)
  }

  predicate NoOtherEntries(entries: seq<ManifestEntry>, ms: seq<Member>, sha: Bytes -> Bytes) {
    forall entry <- entries ::
      (exists m <- ms :: DescribesFile(entry, m, sha)) || exists d <- Directories(ms) :: DescribesDirectory(entry, d)
  }

  /** No path has two entries. */
  predicate OneEntryEach(entries: seq<ManifestEntry>) {
    forall i, j | 0 <= i < j < |entries| :: entries[i].path != entries[j].path
  }

  lemma EntryOfFile(ms: seq<Member>, limits: Limits, sha: Bytes -> Bytes, m: Member)
    requires Acceptable(ms, limits) && m in ms && m.kind == Regular
    ensures DescribesFile(EntryFor(PathOf(m), Files(ms, sha)), m, sha)
  {
    assert MemberOk(m, limits);
    FilesByPath(ms, sha);
    hide Files, MemberOk, Executable, DistinctPaths, NoFileAbove;
  }

  lemma EntryAt(ms: seq<Member>, sha: Bytes -> Bytes, p: Text) returns (i: nat)
    requires p in Directories(ms) + Files(ms, sha).Keys
    ensures var entries := ManifestOf(ms, sha).entries; i < |entries| && entries[i] == EntryFor(p, Files(ms, sha))
  {
    var order := SortPaths(Directories(ms) + Files(ms, sha).Keys, ByPath);
    i :| 0 <= i < |order| && order[i] == p;
    hide EntryFor, Files, Directories, SortPaths;
  }

  lemma EntriesAreSome(ms: seq<Member>, sha: Bytes -> Bytes, entry: ManifestEntry)
    requires entry in ManifestOf(ms, sha).entries
    ensures entry.path in Directories(ms) + Files(ms, sha).Keys && entry == EntryFor(entry.path, Files(ms, sha))
  {
    var order := SortPaths(Directories(ms) + Files(ms, sha).Keys, ByPath);
    var i :| 0 <= i < |order| && ManifestOf(ms, sha).entries[i] == entry;
    assert order[i] in order;
    hide Files, Directories, SortPaths;
  }

  lemma EntriesAreDistinct(ms: seq<Member>, sha: Bytes -> Bytes)
    requires DistinctPaths(ms)
    ensures OneEntryEach(ManifestOf(ms, sha).entries)
  {
    ManifestIsConsistent(ms, sha);
    hide ManifestOf, Before, DistinctPaths;
    var entries := ManifestOf(ms, sha).entries;
    forall i, j | 0 <= i < j < |entries| ensures entries[i].path != entries[j].path {
      BeforeTotal(entries[i].path, entries[j].path);
    }
  }

  /**
   * The manifest of an accepted archive has one entry for each file, with its content's digest, one for each
   * directory, and no other.
   */
  lemma ManifestDescribesMembers(ms: seq<Member>, limits: Limits, sha: Bytes -> Bytes)
    requires Acceptable(ms, limits)
    ensures var entries := ManifestOf(ms, sha).entries;
            && OneEntryEach(entries) && FilesHaveEntries(entries, ms, sha) && DirectoriesHaveEntries(entries, ms)
            && NoOtherEntries(entries, ms, sha)
  {
    EntriesAreDistinct(ms, sha);
    hide OneEntryEach, FilesHaveEntries, DirectoriesHaveEntries, NoOtherEntries, ManifestOf, DistinctPaths, NoFileAbove, MemberOk;
    EachFileHasEntry(ms, limits, sha);
    EachDirectoryHasEntry(ms, limits, sha);
    EachEntryIsOfMember(ms, limits, sha);
  }

  lemma EachFileHasEntry(ms: seq<Member>, limits: Limits, sha: Bytes -> Bytes)
    requires Acceptable(ms, limits)
    ensures FilesHaveEntries(ManifestOf(ms, sha).entries, ms, sha)
  {
    hide ManifestOf, DescribesFile, Acceptable;
    forall m <- ms | m.kind == Regular ensures exists entry <- ManifestOf(ms, sha).entries :: DescribesFile(entry, m, sha) {
      var entry := FileHasEntry(ms, limits, sha, m);
    }
  }

  lemma EachDirectoryHasEntry(ms: seq<Member>, limits: Limits, sha: Bytes -> Bytes)
    requires Acceptable(ms, limits)
    ensures DirectoriesHaveEntries(ManifestOf(ms, sha).entries, ms)
  {
    hide ManifestOf, Directories, DescribesDirectory, Acceptable, EntryFor, Files;
    forall d <- Directories(ms) ensures exists entry <- ManifestOf(ms, sha).entries :: DescribesDirectory(entry, d) {
      EntryOfDirectory(ms, limits, sha, d);
      var i := EntryAt(ms, sha, d);
    }
  }

  lemma EachEntryIsOfMember(ms: seq<Member>, limits: Limits, sha: Bytes -> Bytes)
    requires Acceptable(ms, limits)
    ensures NoOtherEntries(ManifestOf(ms, sha).entries, ms, sha)
  {
    hide ManifestOf, Directories, DescribesFile, DescribesDirectory, Acceptable;
    forall entry <- ManifestOf(ms, sha).entries
      ensures (exists m <- ms :: DescribesFile(entry, m, sha)) || exists d <- Directories(ms) :: DescribesDirectory(entry, d)
    {
      EntryIsOfMember(ms, limits, sha, entry);
    }
  }

  lemma FileHasEntry(ms: seq<Member>, limits: Limits, sha: Bytes -> Bytes, m: Member) returns (entry: ManifestEntry)
    requires Acceptable(ms, limits) && m in ms && m.kind == Regular
    ensures entry in ManifestOf(ms, sha).entries && DescribesFile(entry, m, sha)
  {
    FilesByPath(ms, sha);
    EntryOfFile(ms, limits, sha, m);
    hide ManifestOf, Files, Directories, DescribesFile, DistinctPaths, EntryFor;
    var i := EntryAt(ms, sha, PathOf(m));
    entry := ManifestOf(ms, sha).entries[i];
  }

  lemma EntryIsOfMember(ms: seq<Member>, limits: Limits, sha: Bytes -> Bytes, entry: ManifestEntry)
    requires Acceptable(ms, limits) && entry in ManifestOf(ms, sha).entries
    ensures (exists m <- ms :: DescribesFile(entry, m, sha)) || exists d <- Directories(ms) :: DescribesDirectory(entry, d)
  {
    FilesByPath(ms, sha);
    EntriesAreSome(ms, sha, entry);
    hide ManifestOf, Files, Directories, DescribesFile, DescribesDirectory, DistinctPaths, EntryFor;
    if entry.path in Directories(ms) {
      EntryOfDirectory(ms, limits, sha, entry.path);
    } else {
      var m :| m in ms && m.kind == Regular && PathOf(m) == entry.path;
      EntryOfFile(ms, limits, sha, m);
    }
  }

  lemma EntryOfDirectory(ms: seq<Member>, limits: Limits, sha: Bytes -> Bytes, d: Text)
    requires Acceptable(ms, limits) && d in Directories(ms)
    ensures DescribesDirectory(EntryFor(d, Files(ms, sha)), d)
  {
    FilesByPath(ms, sha);
    hide Directories, Files, FilePaths;
    if d in FilePaths(ms) { FilesAreNotDirectories(ms, d); }
  }

  /** A digest no two contents share. */
  ghost predicate Injective(sha: Bytes -> Bytes) { forall a, b | sha(a) == sha(b) :: a == b }

  predicate SameFile(m: Member, n: Member) {
    m.kind == Regular && n.kind == Regular && PathOf(m) == PathOf(n) && Executable(m.mode) == Executable(n.mode) && m.data == n.data
  }

  predicate FilesAmong(ms: seq<Member>, ns: seq<Member>) {
    forall m <- ms | m.kind == Regular :: exists n <- ns :: SameFile(m, n)
  }

  /** Two archives hold the same directories, and files with the same paths, contents and executability. */
  predicate SameTree(ms: seq<Member>, ns: seq<Member>) {
    Directories(ms) == Directories(ns) && FilesAmong(ms, ns) && FilesAmong(ns, ms)
  }

  lemma DescribedAlike(entry: ManifestEntry, m: Member, n: Member, sha: Bytes -> Bytes)
    requires Injective(sha) && DescribesFile(entry, m, sha) && DescribesFile(entry, n, sha)
    ensures SameFile(m, n)
  {
    assert READ_ONLY_DIRECTORY != READ_ONLY_FILE;
    hide Executable, PathOf;
  }

  lemma DescribedFileIsAmong(entry: ManifestEntry, m: Member, ns: seq<Member>, entries: seq<ManifestEntry>, sha: Bytes -> Bytes)
    requires Injective(sha) && NoOtherEntries(entries, ns, sha) && entry in entries && DescribesFile(entry, m, sha)
    ensures exists n <- ns :: SameFile(m, n)
  {
    FileIsNoDirectory(entry, m, sha);
    hide Injective, Directories, DescribesFile, DescribesDirectory, SameFile;
    var n :| n in ns && DescribesFile(entry, n, sha);
    DescribedAlike(entry, m, n, sha);
  }

  lemma DescribedDirectoryIsAmong(entry: ManifestEntry, d: Text, ns: seq<Member>, entries: seq<ManifestEntry>, sha: Bytes -> Bytes)
    requires NoOtherEntries(entries, ns, sha) && entry in entries && DescribesDirectory(entry, d)
    ensures d in Directories(ns)
  {
    hide Directories;
    forall n <- ns ensures !DescribesFile(entry, n, sha) { FileIsNoDirectory(entry, n, sha); }
    hide DescribesFile;
    var c :| c in Directories(ns) && DescribesDirectory(entry, c);
  }

  lemma SameManifestHasItsFiles(ms: seq<Member>, ns: seq<Member>, entries: seq<ManifestEntry>, sha: Bytes -> Bytes)
    requires Injective(sha) && FilesHaveEntries(entries, ms, sha) && DirectoriesHaveEntries(entries, ms)
    requires NoOtherEntries(entries, ns, sha)
    ensures FilesAmong(ms, ns) && Directories(ms) <= Directories(ns)
  {
    hide Injective, Directories, DescribesFile, DescribesDirectory, SameFile, NoOtherEntries;
    forall m <- ms | m.kind == Regular ensures exists n <- ns :: SameFile(m, n) {
      var entry :| entry in entries && DescribesFile(entry, m, sha);
      DescribedFileIsAmong(entry, m, ns, entries, sha);
    }
    forall d <- Directories(ms) ensures d in Directories(ns) {
      var entry :| entry in entries && DescribesDirectory(entry, d);
      DescribedDirectoryIsAmong(entry, d, ns, entries, sha);
    }
  }

  lemma FileIsNoDirectory(entry: ManifestEntry, m: Member, sha: Bytes -> Bytes)
    ensures DescribesFile(entry, m, sha) ==> forall d :: !DescribesDirectory(entry, d)
  {
  }

  lemma SameTreeHasItsFiles(ms: seq<Member>, ns: seq<Member>, limits: Limits, sha: Bytes -> Bytes)
    requires Acceptable(ms, limits) && Acceptable(ns, limits) && FilesAmong(ms, ns)
    ensures forall p <- Files(ms, sha) :: p in Files(ns, sha) && Files(ns, sha)[p] == Files(ms, sha)[p]
  {
    FilesByPath(ms, sha);
    FilesByPath(ns, sha);
    hide Files, Executable, DistinctPaths, NoFileAbove;
    forall p <- Files(ms, sha) ensures p in Files(ns, sha) && Files(ns, sha)[p] == Files(ms, sha)[p] {
      var m :| m in ms && m.kind == Regular && PathOf(m) == p;
      var n :| n in ns && SameFile(m, n);
      assert MemberOk(m, limits) && MemberOk(n, limits);
    }
  }

  /** With an injective digest, accepted archives share a manifest exactly when they hold the same tree. */
  lemma ManifestIdentifiesTree(ms: seq<Member>, ns: seq<Member>, limits: Limits, sha: Bytes -> Bytes)
    requires Acceptable(ms, limits) && Acceptable(ns, limits) && Injective(sha)
    ensures ManifestOf(ms, sha) == ManifestOf(ns, sha) <==> SameTree(ms, ns)
  {
    if ManifestOf(ms, sha) == ManifestOf(ns, sha) {
      hide *;
      ManifestDescribesMembers(ms, limits, sha);
      ManifestDescribesMembers(ns, limits, sha);
      SameManifestHasItsFiles(ms, ns, ManifestOf(ms, sha).entries, sha);
      SameManifestHasItsFiles(ns, ms, ManifestOf(ms, sha).entries, sha);
    }
    if SameTree(ms, ns) { SameTreeHasItsManifest(ms, ns, limits, sha); }
  }

  lemma SameTreeHasItsManifest(ms: seq<Member>, ns: seq<Member>, limits: Limits, sha: Bytes -> Bytes)
    requires Acceptable(ms, limits) && Acceptable(ns, limits) && SameTree(ms, ns)
    ensures ManifestOf(ms, sha) == ManifestOf(ns, sha)
  {
    hide Files, Directories, FilesAmong, EntriesFor, SortPaths, TotalBytes, SumSizes, MemberOk, NoFileAbove, DistinctPaths;
    SameTreeHasItsFiles(ms, ns, limits, sha);
    SameTreeHasItsFiles(ns, ms, limits, sha);
    TotalIsSumOfFiles(ms, sha);
    TotalIsSumOfFiles(ns, sha);
    assert Files(ms, sha) == Files(ns, sha);
  }
}
