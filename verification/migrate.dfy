/** The decisions of the migration script: which paths it skips, which
    directories it collects and in what order it renames them, what it does
    to one file, and which configured methods it runs. The filesystem is
    replaced by its answers: a directory tree, a file's size and content,
    and whether a rename target already exists. */
module Migrate {
  import opened Paths
  import opened CaseReplace

  /** One configured refactoring method. */
  datatype Method = Method(name: string, pairs: seq<Pair>, ignoredDirs: seq<string>, enabled: bool)

  /** The global settings the decisions read. */
  datatype Settings = Settings(dryRun: bool, maxFileSize: int, backupBeforeRefactor: bool)

  /** The settings as shipped: no dry run, a 10 MiB size limit, no backups. */
  const DefaultSettings: Settings := Settings(false, 10 * 1024 * 1024, false)

  /** Directory collection does not descend below this depth. */
  const MaxCollectDepth: nat := 20

  // ---------------------------------------------------------------------
  // Ignored paths
  // ---------------------------------------------------------------------

  /** Some segment is one of the listed names. */
  predicate SomeSegmentListed(segs: seq<string>, dirs: seq<string>)
  {
    exists j :: 0 <= j < |segs| && segs[j] in dirs
  }

  /** `isIgnored`: some listed directory is one of the path's segments. */
  function IsIgnored(path: string, dirs: seq<string>): (r: bool)
    ensures r <==> SomeSegmentListed(Split(path), dirs)
  {
    if dirs == [] then false
    else if dirs[0] in Split(path) then ListedSegment(Split(path), dirs); true
    else IsIgnored(path, dirs[1..])
  }

  lemma ListedSegment(segs: seq<string>, dirs: seq<string>)
    requires dirs != [] && dirs[0] in segs
    ensures SomeSegmentListed(segs, dirs)
  {
    var j :| 0 <= j < |segs| && segs[j] == dirs[0];
    assert segs[j] in dirs;
  }

  /** A listed entry that itself contains a separator, such as "doc/api",
      never equals a segment, so listing it ignores nothing. */
  lemma {:induction false} SeparatorEntryIgnoresNothing(path: string, dirs: seq<string>, entry: string)
    requires Sep in entry
    ensures IsIgnored(path, dirs + [entry]) <==> IsIgnored(path, dirs)
  {
    var segs := Split(path);
    if IsIgnored(path, dirs + [entry]) {
      var j :| 0 <= j < |segs| && segs[j] in dirs + [entry];
      assert segs[j] != entry;
    }
    if IsIgnored(path, dirs) {
      var j :| 0 <= j < |segs| && segs[j] in dirs;
      assert segs[j] in dirs + [entry];
    }
  }

  /** A path under an ignored directory is ignored too. */
  lemma {:induction false} IgnoredBelow(dir: string, name: string, dirs: seq<string>)
    requires Sep !in name
    requires IsIgnored(dir, dirs)
    ensures IsIgnored(PathJoin(dir, name), dirs)
  {
    PathJoinParts(dir, name);
    var j :| 0 <= j < |Split(dir)| && Split(dir)[j] in dirs;
    assert Split(PathJoin(dir, name))[j] == Split(dir)[j];
  }

  // ---------------------------------------------------------------------
  // Directory collection
  // ---------------------------------------------------------------------

  /** What `readdir` lists: files and directories with their contents. */
  datatype Entry = FileEntry(name: string) | DirEntry(name: string, children: seq<Entry>)

  /** Entry names as a filesystem gives them: no separator inside. */
  predicate WellNamed(entries: seq<Entry>)
  {
    forall k :: 0 <= k < |entries| ==>
      Sep !in entries[k].name && (entries[k].DirEntry? ==> WellNamed(entries[k].children))
  }

  /** `collectDirectories`: the path of every directory below `current`, in
      pre-order, pushed before its own contents are read. An ignored path or
      one deeper than the bound is not read. */
  function Collect(current: string, depth: nat, entries: seq<Entry>, dirs: seq<string>): (r: seq<string>)
    ensures forall p :: p in r ==> Depth(p) > Depth(current)
    ensures |r| > 0 ==> !IsIgnored(current, dirs) && depth <= MaxCollectDepth
    decreases entries, 1
  {
    if IsIgnored(current, dirs) || depth > MaxCollectDepth then []
    else CollectEntries(current, depth, entries, dirs)
  }

  function CollectEntries(current: string, depth: nat, entries: seq<Entry>, dirs: seq<string>): (r: seq<string>)
    ensures forall p :: p in r ==> Depth(p) > Depth(current)
    ensures (forall k :: 0 <= k < |entries| ==> entries[k].FileEntry?) ==> r == []
    decreases entries, 0
  {
    if entries == [] then []
    else
      var here := match entries[0]
        case FileEntry(_) => []
        case DirEntry(n, children) =>
          [PathJoin(current, n)] + Collect(PathJoin(current, n), depth + 1, children, dirs);
      var rest := CollectEntries(current, depth, entries[1..], dirs);
      assert forall p :: p in here + rest ==> p in here || p in rest;
      here + rest
  }

  /** Every collected directory lies directly in a directory that was read:
      one that is not ignored and at most `MaxCollectDepth` levels below the
      starting point. So no directory more than `MaxCollectDepth + 1` levels
      down is collected. */
  lemma {:induction false} CollectBounded(current: string, depth: nat, entries: seq<Entry>, dirs: seq<string>)
    requires WellNamed(entries)
    ensures forall p :: p in Collect(current, depth, entries, dirs) ==>
              !IsIgnored(Dirname(p), dirs)
              && depth <= MaxCollectDepth
              && Depth(p) + depth <= Depth(current) + MaxCollectDepth + 1
    decreases entries, 1
  {
    if !(IsIgnored(current, dirs) || depth > MaxCollectDepth) {
      CollectEntriesBounded(current, depth, entries, dirs);
    }
  }

  lemma {:induction false} CollectEntriesBounded(current: string, depth: nat, entries: seq<Entry>, dirs: seq<string>)
    requires WellNamed(entries)
    requires !IsIgnored(current, dirs) && depth <= MaxCollectDepth
    ensures forall p :: p in CollectEntries(current, depth, entries, dirs) ==>
              !IsIgnored(Dirname(p), dirs)
              && Depth(p) + depth <= Depth(current) + MaxCollectDepth + 1
    decreases entries, 0
  {
    if entries != [] {
      assert WellNamed(entries[1..]) by {
        forall k | 0 <= k < |entries[1..]| ensures Sep !in entries[1..][k].name {
          assert entries[1..][k] == entries[k + 1];
        }
      }
      CollectEntriesBounded(current, depth, entries[1..], dirs);
      if entries[0].DirEntry? {
        var n := entries[0].name;
        var child := PathJoin(current, n);
        PathJoinParts(current, n);
        CollectBounded(child, depth + 1, entries[0].children, dirs);
      }
    }
  }

  /** Each directory directly inside a directory that is read is collected. */
  lemma {:induction false} CollectFindsChildren(current: string, depth: nat, entries: seq<Entry>, dirs: seq<string>)
    requires !IsIgnored(current, dirs) && depth <= MaxCollectDepth
    ensures forall k :: 0 <= k < |entries| && entries[k].DirEntry? ==>
              PathJoin(current, entries[k].name) in Collect(current, depth, entries, dirs)
    decreases entries
  {
    if entries != [] {
      CollectFindsChildren(current, depth, entries[1..], dirs);
      forall k | 0 <= k < |entries| && entries[k].DirEntry?
        ensures PathJoin(current, entries[k].name) in CollectEntries(current, depth, entries, dirs)
      {
        if k > 0 {
          assert entries[k] == entries[1..][k - 1];
        }
      }
    }
  }

  /** Nothing is collected below the depth bound. */
  lemma CollectStopsBelowBound(current: string, depth: nat, entries: seq<Entry>, dirs: seq<string>)
    requires depth > MaxCollectDepth
    ensures Collect(current, depth, entries, dirs) == []
  {
  }

  // ---------------------------------------------------------------------
  // Deepest-first ordering
  // ---------------------------------------------------------------------

  /** Paths in non-increasing order of segment count. */
  predicate DeepestFirst(s: seq<string>)
  {
    forall i, j :: 0 <= i < j < |s| ==> Depth(s[i]) >= Depth(s[j])
  }

  /** The paths of `s` with exactly `d` segments, in their order in `s`. */
  function AtDepth(s: seq<string>, d: nat): seq<string>
  {
    if s == [] then []
    else (if Depth(s[0]) == d then [s[0]] else []) + AtDepth(s[1..], d)
  }

  /** Inserts `x` before the first path that is not deeper than it. */
  function Insert(x: string, t: seq<string>): (r: seq<string>)
    ensures multiset(r) == multiset(t) + multiset{x}
  {
    if t == [] || Depth(x) >= Depth(t[0]) then [x] + t
    else
      assert t == [t[0]] + t[1..];
      [t[0]] + Insert(x, t[1..])
  }

  /** The directory sort: the comparator puts deeper paths first, and the
      sort is stable, so paths of equal depth keep their collection order. */
  function SortDeepestFirst(s: seq<string>): (r: seq<string>)
    ensures multiset(r) == multiset(s)
  {
    if s == [] then []
    else
      assert s == [s[0]] + s[1..];
      Insert(s[0], SortDeepestFirst(s[1..]))
  }

  /** No path of `s` is deeper than `b`. */
  predicate AllAtMost(s: seq<string>, b: nat)
  {
    forall k :: 0 <= k < |s| ==> Depth(s[k]) <= b
  }

  lemma {:induction false} InsertAtMost(x: string, t: seq<string>, b: nat)
    requires AllAtMost(t, b) && Depth(x) <= b
    ensures AllAtMost(Insert(x, t), b)
  {
    if !(t == [] || Depth(x) >= Depth(t[0])) {
      InsertAtMost(x, t[1..], b);
    }
  }

  lemma ConsDeepestFirst(a: string, s: seq<string>)
    requires AllAtMost(s, Depth(a)) && DeepestFirst(s)
    ensures DeepestFirst([a] + s)
  {
    forall i, j | 0 <= i < j < |[a] + s| ensures Depth(([a] + s)[i]) >= Depth(([a] + s)[j]) {
      assert ([a] + s)[j] == s[j - 1];
      if i > 0 {
        assert ([a] + s)[i] == s[i - 1];
      }
    }
  }

  lemma {:induction false} InsertKeepsOrder(x: string, t: seq<string>)
    requires DeepestFirst(t)
    ensures DeepestFirst(Insert(x, t))
  {
    if t != [] {
      assert AllAtMost(t[1..], Depth(t[0])) by {
        forall k | 0 <= k < |t[1..]| ensures Depth(t[1..][k]) <= Depth(t[0]) {
          assert t[1..][k] == t[k + 1];
        }
      }
      assert DeepestFirst(t[1..]) by {
        forall i, j | 0 <= i < j < |t[1..]| ensures Depth(t[1..][i]) >= Depth(t[1..][j]) {
          assert t[1..][i] == t[i + 1] && t[1..][j] == t[j + 1];
        }
      }
      if Depth(x) >= Depth(t[0]) {
        assert AllAtMost(t, Depth(x)) by {
          forall k | 0 <= k < |t| ensures Depth(t[k]) <= Depth(x) {
            if k > 0 {
              assert t[k] == t[1..][k - 1];
            }
          }
        }
        ConsDeepestFirst(x, t);
      } else {
        InsertKeepsOrder(x, t[1..]);
        InsertAtMost(x, t[1..], Depth(t[0]));
        ConsDeepestFirst(t[0], Insert(x, t[1..]));
      }
    }
  }

  lemma {:induction false} InsertAtDepth(x: string, t: seq<string>, d: nat)
    ensures AtDepth(Insert(x, t), d) == (if Depth(x) == d then [x] else []) + AtDepth(t, d)
  {
    if t == [] || Depth(x) >= Depth(t[0]) {
      assert ([x] + t)[1..] == t;
    } else {
      InsertAtDepth(x, t[1..], d);
      assert ([t[0]] + Insert(x, t[1..]))[1..] == Insert(x, t[1..]);
    }
  }

  /** The sort orders deepest first, keeps every path exactly as often as it
      was collected, and, being stable, keeps the collection order among
      paths of the same depth. */
  lemma {:induction false} SortSound(s: seq<string>)
    ensures DeepestFirst(SortDeepestFirst(s))
    ensures multiset(SortDeepestFirst(s)) == multiset(s)
    ensures forall d: nat :: AtDepth(SortDeepestFirst(s), d) == AtDepth(s, d)
  {
    if s != [] {
      SortSound(s[1..]);
      InsertKeepsOrder(s[0], SortDeepestFirst(s[1..]));
      forall d: nat ensures AtDepth(SortDeepestFirst(s), d) == AtDepth(s, d) {
        InsertAtDepth(s[0], SortDeepestFirst(s[1..]), d);
      }
    }
  }

  // ---------------------------------------------------------------------
  // One file
  // ---------------------------------------------------------------------

  /** The filesystem changes `processFile` makes. */
  datatype FileOp = Backup(path: string) | WriteFile(path: string, content: string) | RenameFile(from: string, to: string)

  /** `processFile`: an ignored or oversized file is left alone. Changed
      content is written back, after a backup when backups are on; a dry run
      stops there without writing. Then a file whose name the replacement
      changes is renamed, unless the new path is taken. */
  function ProcessFile(settings: Settings, m: Method, filePath: string, size: int, content: string, targetExists: bool): (ops: seq<FileOp>)
    ensures IsIgnored(filePath, m.ignoredDirs) || size > settings.maxFileSize || settings.dryRun ==> ops == []
  {
    if IsIgnored(filePath, m.ignoredDirs) || size > settings.maxFileSize then []
    else
      var newContent := CasePreservingReplace(content, m.pairs);
      if newContent != content && settings.dryRun then []
      else
        var written :=
          if newContent == content then []
          else (if settings.backupBeforeRefactor then [Backup(filePath)] else []) + [WriteFile(filePath, newContent)];
        var fileName := Basename(filePath);
        var newFileName := CasePreservingReplace(fileName, m.pairs);
        if fileName != newFileName && !targetExists && !settings.dryRun then
          written + [RenameFile(filePath, PathJoin(Dirname(filePath), newFileName))]
        else written
  }

  /** A change `processFile` may make: a write is of the replaced content
      and only when it differs, a rename only when the name changes and the
      new path is free, and it goes to the new name in the same directory,
      and a backup only when backups are on. */
  predicate CalledFor(op: FileOp, settings: Settings, m: Method, filePath: string, content: string, targetExists: bool)
  {
    match op
    case WriteFile(path, newContent) =>
      path == filePath && newContent == CasePreservingReplace(content, m.pairs) && newContent != content
    case RenameFile(from, to) =>
      var newName := CasePreservingReplace(Basename(filePath), m.pairs);
      !targetExists && from == filePath && Basename(filePath) != newName && to == PathJoin(Dirname(filePath), newName)
    case Backup(path) => settings.backupBeforeRefactor && path == filePath
  }

  /** Every change `processFile` makes is called for. */
  lemma ProcessFileSound(settings: Settings, m: Method, filePath: string, size: int, content: string, targetExists: bool)
    ensures var ops := ProcessFile(settings, m, filePath, size, content, targetExists);
            forall k :: 0 <= k < |ops| ==> CalledFor(ops[k], settings, m, filePath, content, targetExists)
  {
    var ops := ProcessFile(settings, m, filePath, size, content, targetExists);
    var newContent := CasePreservingReplace(content, m.pairs);
    var newFileName := CasePreservingReplace(Basename(filePath), m.pairs);
    if IsIgnored(filePath, m.ignoredDirs) || size > settings.maxFileSize || (newContent != content && settings.dryRun) {
      assert ops == [];
    } else {
      var written :=
        if newContent == content then []
        else (if settings.backupBeforeRefactor then [Backup(filePath)] else []) + [WriteFile(filePath, newContent)];
      forall k | 0 <= k < |written| ensures CalledFor(written[k], settings, m, filePath, content, targetExists) {
        assert written[k] == Backup(filePath) || written[k] == WriteFile(filePath, newContent);
      }
      if Basename(filePath) != newFileName && !targetExists && !settings.dryRun {
        var rename := RenameFile(filePath, PathJoin(Dirname(filePath), newFileName));
        assert ops == written + [rename];
        assert CalledFor(rename, settings, m, filePath, content, targetExists);
        forall k | 0 <= k < |ops| ensures CalledFor(ops[k], settings, m, filePath, content, targetExists) {
          if k < |written| {
            assert ops[k] == written[k];
          } else {
            assert ops[k] == rename;
          }
        }
      } else {
        assert ops == written;
      }
    }
  }

  /** A file that is processed at all (not ignored, not too large, no dry
      run) gets exactly the changes its content and name call for: a write
      exactly when the content changes and a rename exactly when the name
      changes and the target is free, the write first. */
  lemma {:induction false} ProcessFileComplete(settings: Settings, m: Method, filePath: string, size: int, content: string, targetExists: bool)
    requires !IsIgnored(filePath, m.ignoredDirs) && size <= settings.maxFileSize && !settings.dryRun
    ensures var ops := ProcessFile(settings, m, filePath, size, content, targetExists);
            var newName := CasePreservingReplace(Basename(filePath), m.pairs);
            (WriteFile(filePath, CasePreservingReplace(content, m.pairs)) in ops <==>
               CasePreservingReplace(content, m.pairs) != content)
            && (RenameFile(filePath, PathJoin(Dirname(filePath), newName)) in ops <==>
                  newName != Basename(filePath) && !targetExists)
            && (|ops| > 0 && ops[|ops| - 1].WriteFile? ==> newName == Basename(filePath) || targetExists)
  {
    var newContent := CasePreservingReplace(content, m.pairs);
    var newName := CasePreservingReplace(Basename(filePath), m.pairs);
    var renamed := newName != Basename(filePath) && !targetExists;
    var newPath := PathJoin(Dirname(filePath), newName);
    assert ProcessFile(settings, m, filePath, size, content, targetExists)
           == ProcessedOps(settings.backupBeforeRefactor, filePath, content, newContent, renamed, newPath);
    ProcessedOpsFacts(settings.backupBeforeRefactor, filePath, content, newContent, renamed, newPath);
  }

  /** The changes to a processed file, its new content and new path given. */
  function ProcessedOps(backup: bool, filePath: string, content: string, newContent: string,
                        renamed: bool, newPath: string): seq<FileOp>
  {
    (if newContent == content then []
     else (if backup then [Backup(filePath)] else []) + [WriteFile(filePath, newContent)])
    + (if renamed then [RenameFile(filePath, newPath)] else [])
  }

  lemma ProcessedOpsFacts(backup: bool, filePath: string, content: string, newContent: string,
                          renamed: bool, newPath: string)
    ensures var ops := ProcessedOps(backup, filePath, content, newContent, renamed, newPath);
            (WriteFile(filePath, newContent) in ops <==> newContent != content)
            && (RenameFile(filePath, newPath) in ops <==> renamed)
            && (|ops| > 0 && ops[|ops| - 1].WriteFile? ==> !renamed)
            && (Backup(filePath) in ops <==> backup && newContent != content)
            && (backup && newContent != content ==> ops[0] == Backup(filePath) && ops[1] == WriteFile(filePath, newContent))
  {
  }

  /** With backups on, a processed file is backed up exactly when its content
      changes, right before the write. */
  lemma {:induction false} ProcessFileBackup(settings: Settings, m: Method, filePath: string, size: int, content: string, targetExists: bool)
    requires !IsIgnored(filePath, m.ignoredDirs) && size <= settings.maxFileSize && !settings.dryRun
    ensures var ops := ProcessFile(settings, m, filePath, size, content, targetExists);
            var newContent := CasePreservingReplace(content, m.pairs);
            (Backup(filePath) in ops <==> settings.backupBeforeRefactor && newContent != content)
            && (settings.backupBeforeRefactor && newContent != content ==>
                  ops[0] == Backup(filePath) && ops[1] == WriteFile(filePath, newContent))
  {
    var newContent := CasePreservingReplace(content, m.pairs);
    var newName := CasePreservingReplace(Basename(filePath), m.pairs);
    var renamed := newName != Basename(filePath) && !targetExists;
    var newPath := PathJoin(Dirname(filePath), newName);
    assert ProcessFile(settings, m, filePath, size, content, targetExists)
           == ProcessedOps(settings.backupBeforeRefactor, filePath, content, newContent, renamed, newPath);
    ProcessedOpsFacts(settings.backupBeforeRefactor, filePath, content, newContent, renamed, newPath);
  }

  /** The shipped settings never back up and never stop at a dry run, so a
      changed, unignored file of at most 10 MiB is written in place. */
  lemma DefaultSettingsWrite(m: Method, filePath: string, size: int, content: string, targetExists: bool)
    requires !IsIgnored(filePath, m.ignoredDirs) && size <= 10 * 1024 * 1024
    requires CasePreservingReplace(content, m.pairs) != content
    ensures ProcessFile(DefaultSettings, m, filePath, size, content, targetExists)[0]
              == WriteFile(filePath, CasePreservingReplace(content, m.pairs))
  {
  }

  // ---------------------------------------------------------------------
  // One folder
  // ---------------------------------------------------------------------

  /** `renameFolderIfNeeded`: the path the folder has afterwards. It is
      renamed when it is not ignored, the replacement changes its name, the
      new path is free, the folder is readable and this is no dry run. */
  function RenameFolder(settings: Settings, m: Method, dirPath: string, targetExists: bool, readable: bool): (r: string)
    ensures r != dirPath <==>
              !IsIgnored(dirPath, m.ignoredDirs)
              && CasePreservingReplace(Basename(dirPath), m.pairs) != Basename(dirPath)
              && !targetExists && readable && !settings.dryRun
  {
    if IsIgnored(dirPath, m.ignoredDirs) then dirPath
    else
      var currentFolder := Basename(dirPath);
      var newFolder := CasePreservingReplace(currentFolder, m.pairs);
      if currentFolder == newFolder || targetExists || !readable || settings.dryRun then dirPath
      else
        var newPath := PathJoin(Dirname(dirPath), newFolder);
        assert newPath != dirPath by { RenamedPathDiffers(dirPath, newFolder); }
        newPath
  }

  lemma {:induction false} RenamedPathDiffers(dirPath: string, newFolder: string)
    requires newFolder != Basename(dirPath)
    ensures PathJoin(Dirname(dirPath), newFolder) != dirPath
  {
    var segs := Split(dirPath);
    if |segs| > 1 {
      DirnameBasename(dirPath);
      var d := Dirname(dirPath);
      assert PathJoin(d, newFolder)[|d| + 1..] == newFolder;
      assert dirPath[|d| + 1..] == Basename(dirPath);
    } else {
      assert PathJoin(Dirname(dirPath), newFolder)[1] == Sep;
      SplitHasNoSep(dirPath);
    }
  }

  lemma {:induction false} SplitHasNoSep(p: string)
    requires Depth(p) == 1
    ensures Sep !in p
  {
    JoinSplit(p);
    assert p == Split(p)[0];
  }

  /** A renamed folder stays in the same parent under its new name, so its
      depth, and the order of the remaining deeper-first work, is unchanged. */
  lemma {:induction false} RenameKeepsParent(settings: Settings, m: Method, dirPath: string, targetExists: bool, readable: bool)
    requires Depth(dirPath) > 1
    requires Sep !in CasePreservingReplace(Basename(dirPath), m.pairs)
    ensures var r := RenameFolder(settings, m, dirPath, targetExists, readable);
            Dirname(r) == Dirname(dirPath) && Depth(r) == Depth(dirPath)
  {
    var r := RenameFolder(settings, m, dirPath, targetExists, readable);
    if r != dirPath {
      var d := Dirname(dirPath);
      PathJoinParts(d, CasePreservingReplace(Basename(dirPath), m.pairs));
      DirnameBasename(dirPath);
      PathJoinParts(d, Basename(dirPath));
    }
  }

  // ---------------------------------------------------------------------
  // Methods
  // ---------------------------------------------------------------------

  /** `REFACTOR_METHODS.filter(method => method.enabled)`. */
  function EnabledMethods(ms: seq<Method>): (r: seq<Method>)
    ensures forall k :: 0 <= k < |r| ==> r[k].enabled
    ensures |r| <= |ms|
  {
    if ms == [] then []
    else (if ms[0].enabled then [ms[0]] else []) + EnabledMethods(ms[1..])
  }

  /** Exactly the enabled methods run, each as often as it is configured,
      in configuration order. */
  lemma {:induction false} EnabledMethodsFilter(a: seq<Method>, b: seq<Method>, m: Method)
    ensures m in EnabledMethods(a) <==> m in a && m.enabled
    ensures EnabledMethods(a + b) == EnabledMethods(a) + EnabledMethods(b)
  {
    if a != [] {
      EnabledMethodsFilter(a[1..], b, m);
      assert (a + b)[1..] == a[1..] + b;
      assert a == [a[0]] + a[1..];
    } else {
      assert a + b == b;
    }
  }

  /** `executeMethod` on the files its walk selected: a disabled method
      changes nothing, an enabled one processes each file in turn. Each file
      comes with the filesystem's answers for it. */
  datatype FileInput = FileInput(path: string, size: int, content: string, targetExists: bool)

  function ExecuteMethod(settings: Settings, m: Method, files: seq<FileInput>): (ops: seq<FileOp>)
    ensures !m.enabled ==> ops == []
  {
    if !m.enabled || files == [] then []
    else
      var f := files[0];
      ProcessFile(settings, m, f.path, f.size, f.content, f.targetExists) + ExecuteMethod(settings, m, files[1..])
  }

  /** Running a method on a file list is running it on each part in turn. */
  lemma {:induction false} ExecuteMethodAppend(settings: Settings, m: Method, a: seq<FileInput>, b: seq<FileInput>)
    ensures ExecuteMethod(settings, m, a + b) == ExecuteMethod(settings, m, a) + ExecuteMethod(settings, m, b)
  {
    if m.enabled && a != [] {
      assert (a + b)[0] == a[0];
      assert (a + b)[1..] == a[1..] + b;
      ExecuteMethodAppend(settings, m, a[1..], b);
    } else if a == [] {
      assert a + b == b;
    }
  }
}
