/**
 What a crash can leave behind: the temp-file, fsync, rename sequences of writeFileSync
 (internal/config/save.go) and copyFileAtomic / MigrateLegacyPath (internal/calibrate/migrate.go)
 over a disk with volatile and durable state.
 */
module CrashSafe {
  import opened Common

  type Bytes = seq<bv8>

  type Dir = map<Path, nat>

  /**
   `cur` is the directory as running programs see it. A crash may bring back any version in
   `older` (a rename is one version) and any content for a file that is not in `stable`.
   */
  datatype Disk = Disk(older: seq<Dir>, cur: Dir, data: map<nat, Bytes>, stable: set<nat>, next: nat)

  datatype DiskOp =
    | OpenTrunc(path: Path)
    | Append(path: Path, bytes: Bytes)
    | Fsync(path: Path)
    | Rename(path: Path, to: Path)
    | Remove(path: Path)
    | SyncDir

  function Version(d: Disk, k: nat): Dir
    requires k <= |d.older|
  {
    if k < |d.older| then d.older[k] else d.cur
  }

  ghost predicate Wf(d: Disk) {
    && (forall k, p | 0 <= k <= |d.older| && p in Version(d, k) :: Version(d, k)[p] in d.data)
    && (forall i :: i in d.data ==> i < d.next)
  }

  function Read(d: Disk, p: Path): Option<Bytes> {
    if p in d.cur && d.cur[p] in d.data then Some(d.data[d.cur[p]]) else None
  }

  function Apply(d: Disk, op: DiskOp): Disk {
    match op
    case OpenTrunc(p) =>
      if p in d.cur then d.(data := d.data[d.cur[p] := []], stable := d.stable - {d.cur[p]})
      else d.(older := d.older + [d.cur], cur := d.cur[p := d.next], data := d.data[d.next := []],
             stable := d.stable - {d.next}, next := d.next + 1)
    case Append(p, b) =>
      if p in d.cur && d.cur[p] in d.data
      then d.(data := d.data[d.cur[p] := d.data[d.cur[p]] + b], stable := d.stable - {d.cur[p]})
      else d
    case Fsync(p) => if p in d.cur then d.(stable := d.stable + {d.cur[p]}) else d
    case Rename(p, q) =>
      if p in d.cur then d.(older := d.older + [d.cur], cur := (d.cur - {p})[q := d.cur[p]]) else d
    case Remove(p) => if p in d.cur then d.(older := d.older + [d.cur], cur := d.cur - {p}) else d
    case SyncDir => d.(older := [])
  }

  function After(d: Disk, ops: seq<DiskOp>): Disk {
    if ops == [] then d else Apply(After(d, ops[..|ops| - 1]), ops[|ops| - 1])
  }

  ghost predicate CrashesTo(d: Disk, e: Disk) {
    && (exists k :: 0 <= k <= |d.older| && e.cur == Version(d, k))
    && e.older == [] && e.next == d.next && e.data.Keys == d.data.Keys && e.stable == d.data.Keys
    && forall i :: i in d.stable && i in d.data ==> e.data[i] == d.data[i]
  }

  // ---------------------------------------------------------------- writeFileSync

  datatype Fault = NoFault | OpenFails | WriteFails(wrote: Bytes) | SyncFails | CloseFails | RenameFails

  function Cleanup(tmp: Path, removes: bool): seq<DiskOp> { if removes then [Remove(tmp)] else [] }

  /** The operations that reach the disk; `removes` says whether the best-effort Remove works. */
  function ReplaceOps(path: Path, tmp: Path, data: Bytes, fault: Fault, removes: bool): seq<DiskOp> {
    match fault
    case NoFault => [OpenTrunc(tmp), Append(tmp, data), Fsync(tmp), Rename(tmp, path)]
    case OpenFails => []
    case WriteFails(wrote) => [OpenTrunc(tmp), Append(tmp, wrote)] + Cleanup(tmp, removes)
    case SyncFails => [OpenTrunc(tmp), Append(tmp, data)] + Cleanup(tmp, removes)
    case CloseFails => [OpenTrunc(tmp), Append(tmp, data), Fsync(tmp)] + Cleanup(tmp, removes)
    case RenameFails => [OpenTrunc(tmp), Append(tmp, data), Fsync(tmp)] + Cleanup(tmp, removes)
  }

  function WriteOps(path: Path, data: Bytes, fault: Fault, removes: bool, dirSyncs: bool): seq<DiskOp> {
    ReplaceOps(path, path + ".tmp", data, fault, removes) + if fault.NoFault? && dirSyncs then [SyncDir] else []
  }

  /** The running system: the disk, and every operation done since `start`. */
  class Machine {
    var disk: Disk
    ghost const start: Disk
    ghost var done: seq<DiskOp>

    ghost predicate Valid()
      reads this
    {
      disk == After(start, done)
    }

    constructor (d: Disk)
      ensures Valid() && disk == d && done == []
    {
      disk, start, done := d, d, [];
    }

    method Do(op: DiskOp)
      requires Valid()
      modifies this
      ensures Valid() && disk == Apply(old(disk), op) && done == old(done) + [op]
    {
      disk := Apply(disk, op);
      AfterLast(start, done, op);
      done := done + [op];
    }

    /** `fault` decides which system call fails. */
    method WriteFileSync(path: Path, data: Bytes, fault: Fault, removes: bool, dirSyncs: bool) returns (ok: bool)
      requires Valid()
      modifies this
      ensures Valid() && (ok <==> fault.NoFault?)
      ensures done == old(done) + WriteOps(path, data, fault, removes, dirSyncs)
    {
      ok := Replace(path, path + ".tmp", data, fault, removes);
      if ok && dirSyncs {
        Do(SyncDir);
      }
    }

    method RemoveTemp(tmp: Path, removes: bool)
      requires Valid()
      modifies this
      ensures Valid() && done == old(done) + Cleanup(tmp, removes)
    {
      if removes {
        Do(Remove(tmp));
      }
    }

    /** The sequence both writers share: write the temp file, sync it, close it, rename it. */
    method Replace(path: Path, tmp: Path, data: Bytes, fault: Fault, removes: bool) returns (ok: bool)
      requires Valid()
      modifies this
      ensures Valid() && (ok <==> fault.NoFault?)
      ensures done == old(done) + ReplaceOps(path, tmp, data, fault, removes)
    {
      if fault.OpenFails? {
        return false;
      }
      ghost var before := done;
      var body := if fault.WriteFails? then fault.wrote else data;
      OpenAndWrite(tmp, body);
      if fault.WriteFails? || fault.SyncFails? {
        RemoveTemp(tmp, removes);
        assert done == before + ([OpenTrunc(tmp), Append(tmp, body)] + Cleanup(tmp, removes));
        return false;
      }
      Do(Fsync(tmp));
      assert done == before + [OpenTrunc(tmp), Append(tmp, data), Fsync(tmp)];
      if fault.CloseFails? || fault.RenameFails? {
        RemoveTemp(tmp, removes);
        assert done == before + ([OpenTrunc(tmp), Append(tmp, data), Fsync(tmp)] + Cleanup(tmp, removes));
        return false;
      }
      Do(Rename(tmp, path));
      assert done == before + [OpenTrunc(tmp), Append(tmp, data), Fsync(tmp), Rename(tmp, path)];
      return true;
    }

    method OpenAndWrite(tmp: Path, body: Bytes)
      requires Valid()
      modifies this
      ensures Valid() && done == old(done) + [OpenTrunc(tmp), Append(tmp, body)]
    {
      Do(OpenTrunc(tmp));
      Do(Append(tmp, body));
    }

    /** `bytes` is what reading the source delivers. */
    method CopyFileAtomic(bytes: Bytes, dst: Path, fault: Fault, removes: bool) returns (ok: bool)
      requires Valid()
      modifies this
      ensures Valid() && (ok <==> fault.NoFault?)
      ensures done == old(done) + ReplaceOps(dst, dst + ".tmp", bytes, fault, removes)
    {
      ok := Replace(dst, dst + ".tmp", bytes, fault, removes);
    }

    /** Copies the legacy file once, then leaves a note beside it. */
    method MigrateLegacyPath(paths: Paths, how: Conditions) returns (ok: bool)
      requires Valid()
      modifies this
      ensures Valid() && done == old(done) + MigrateOps(old(disk), paths, how)
      ensures ok <==> MigrateSucceeds(old(disk), paths, how)
    {
      if how.statNewFails {
        return false;
      }
      if Read(disk, paths.new_).Some? {
        return true;
      }
      if how.statLegacyFails {
        return false;
      }
      var legacy := Read(disk, paths.legacy);
      if legacy.None? || how.legacyIsDir {
        return true;
      }
      if how.mkdirFails {
        return false;
      }
      ok := CopyFileAtomic(legacy.value, paths.new_, how.fault, how.removes);
      if ok && how.tombstoneOpens {
        Do(OpenTrunc(paths.Tombstone()));
        Do(Append(paths.Tombstone(), how.note));
      }
    }
  }

  lemma AfterLast(d: Disk, ops: seq<DiskOp>, op: DiskOp)
    ensures After(d, ops + [op]) == Apply(After(d, ops), op)
  {
    assert (ops + [op])[..|ops|] == ops;
  }

  lemma AfterFew(d: Disk, a: DiskOp, b: DiskOp, c: DiskOp, e: DiskOp)
    ensures After(d, [a]) == Apply(d, a)
    ensures After(d, [a, b]) == Apply(Apply(d, a), b)
    ensures After(d, [a, b, c]) == Apply(Apply(Apply(d, a), b), c)
    ensures After(d, [a, b, c, e]) == Apply(Apply(Apply(Apply(d, a), b), c), e)
  {
    AfterLast(d, [], a);
    AfterLast(d, [a], b);
    AfterLast(d, [a, b], c);
    AfterLast(d, [a, b, c], e);
    assert [] + [a] == [a] && [a] + [b] == [a, b] && [a, b] + [c] == [a, b, c] && [a, b, c] + [e] == [a, b, c, e];
  }

  /** The states the replace sequence passes through. */
  function Opened(d: Disk, tmp: Path): Disk { Apply(d, OpenTrunc(tmp)) }

  function Written(d: Disk, tmp: Path, data: Bytes): Disk { Apply(Opened(d, tmp), Append(tmp, data)) }

  function Synced(d: Disk, tmp: Path, data: Bytes): Disk { Apply(Written(d, tmp, data), Fsync(tmp)) }

  function Renamed(d: Disk, path: Path, tmp: Path, data: Bytes): Disk { Apply(Synced(d, tmp, data), Rename(tmp, path)) }

  /** Every prefix of a replace leads to one of these states. */
  lemma ReplaceStates(d: Disk, path: Path, tmp: Path, data: Bytes, fault: Fault, removes: bool, n: nat)
    requires n <= |ReplaceOps(path, tmp, data, fault, removes)|
    ensures var body := if fault.WriteFails? then fault.wrote else data;
            var s := After(d, ReplaceOps(path, tmp, data, fault, removes)[..n]);
            || (n == 0 && s == d)
            || s == Opened(d, tmp)
            || s == Written(d, tmp, body)
            || s == Synced(d, tmp, body)
            || s == Apply(Written(d, tmp, body), Remove(tmp))
            || s == Apply(Synced(d, tmp, body), Remove(tmp))
            || (n == 4 && fault.NoFault? && s == Renamed(d, path, tmp, data))
  {
    var ops := ReplaceOps(path, tmp, data, fault, removes);
    var body := if fault.WriteFails? then fault.wrote else data;
    AfterFew(d, OpenTrunc(tmp), Append(tmp, body), Fsync(tmp), Rename(tmp, path));
    AfterFew(d, OpenTrunc(tmp), Append(tmp, body), Fsync(tmp), Remove(tmp));
    AfterFew(d, OpenTrunc(tmp), Append(tmp, body), Remove(tmp), Remove(tmp));
    assert ops[..n] == [] || ops[..n] == [OpenTrunc(tmp)] || ops[..n] == [OpenTrunc(tmp), Append(tmp, body)]
        || ops[..n] == [OpenTrunc(tmp), Append(tmp, body), Fsync(tmp)] || ops[..n] == [OpenTrunc(tmp), Append(tmp, body), Remove(tmp)]
        || ops[..n] == [OpenTrunc(tmp), Append(tmp, body), Fsync(tmp), Remove(tmp)]
        || ops[..n] == [OpenTrunc(tmp), Append(tmp, body), Fsync(tmp), Rename(tmp, path)];
  }

  // ---------------------------------------------------------------- old or new, at every crash point

  /** Directory version `b` of `d` shows `path` as version `a` of `d0` did. */
  ghost predicate SameSlot(d0: Disk, a: Dir, d: Disk, b: Dir, path: Path) {
    && (path in a <==> path in b)
    && (path in a ==>
          && a[path] == b[path] && a[path] in d0.data && a[path] in d.data
          && (a[path] in d0.stable ==> a[path] in d.stable && d.data[a[path]] == d0.data[a[path]]))
  }

  ghost predicate ShowsNew(d: Disk, b: Dir, path: Path, data: Bytes) {
    path in b && b[path] in d.stable && b[path] in d.data && d.data[b[path]] == data
  }

  /** Whatever version a crash brings back, `path` is as `d0` might have shown it, or holds `data`. */
  ghost predicate Keeps(d0: Disk, d: Disk, path: Path, data: Bytes) {
    forall k | 0 <= k <= |d.older| ::
      || ShowsNew(d, Version(d, k), path, data)
      || exists j :: 0 <= j <= |d0.older| && SameSlot(d0, Version(d0, j), d, Version(d, k), path)
  }

  /** No directory version lets `path` name the file that `tmp` names now. */
  ghost predicate NoAlias(d: Disk, path: Path, tmp: Path) {
    forall k | 0 <= k <= |d.older| && path in Version(d, k) && tmp in d.cur :: Version(d, k)[path] != d.cur[tmp]
  }

  lemma KeepsMeansOldOrNew(d0: Disk, d: Disk, path: Path, data: Bytes, e: Disk)
    requires Keeps(d0, d, path, data) && CrashesTo(d, e)
    ensures Read(e, path) == Some(data) || exists e0 :: CrashesTo(d0, e0) && Read(e0, path) == Read(e, path)
  {
    var k :| 0 <= k <= |d.older| && e.cur == Version(d, k);
    if !ShowsNew(d, Version(d, k), path, data) {
      var j :| 0 <= j <= |d0.older| && SameSlot(d0, Version(d0, j), d, Version(d, k), path);
      var content := map i | i in d0.data :: if i in d0.stable || i !in e.data then d0.data[i] else e.data[i];
      var e0 := Disk([], Version(d0, j), content, d0.data.Keys, d0.next);
      assert CrashesTo(d0, e0);
      assert Read(e0, path) == Read(e, path);
    }
  }

  lemma OpenedKeeps(d: Disk, path: Path, tmp: Path, data: Bytes)
    requires Wf(d) && NoAlias(d, path, tmp) && path != tmp
    ensures var e := Opened(d, tmp);
            Wf(e) && NoAlias(e, path, tmp) && Keeps(d, e, path, data) && tmp in e.cur && e.data[e.cur[tmp]] == []
  {
    var e := Opened(d, tmp);
    assert Version(d, |d.older|) == d.cur && Version(e, |e.older|) == e.cur;
    assert forall k | 0 <= k <= |d.older| :: Version(e, k) == Version(d, k) || k == |e.older|;
    forall k | 0 <= k <= |e.older| ensures exists j :: 0 <= j <= |d.older| && SameSlot(d, Version(d, j), e, Version(e, k), path) {
      var j := if k <= |d.older| then k else |d.older|;
      assert SameSlot(d, Version(d, j), e, Version(e, k), path);
    }
  }

  lemma AppendKeeps(d0: Disk, d: Disk, path: Path, tmp: Path, b: Bytes, data: Bytes)
    requires Wf(d) && NoAlias(d, path, tmp) && Keeps(d0, d, path, data) && tmp in d.cur
    ensures var e := Apply(d, Append(tmp, b));
            Wf(e) && NoAlias(e, path, tmp) && Keeps(d0, e, path, data) && e.cur == d.cur
            && d.cur[tmp] in d.data && e.data[e.cur[tmp]] == d.data[d.cur[tmp]] + b
  {
    var e := Apply(d, Append(tmp, b));
    assert Version(d, |d.older|) == d.cur;
    assert forall k | 0 <= k <= |d.older| :: Version(e, k) == Version(d, k);
    forall k | 0 <= k <= |e.older| && !ShowsNew(e, Version(e, k), path, data)
      ensures exists j :: 0 <= j <= |d0.older| && SameSlot(d0, Version(d0, j), e, Version(e, k), path)
    {
      var j :| 0 <= j <= |d0.older| && SameSlot(d0, Version(d0, j), d, Version(d, k), path);
      assert SameSlot(d0, Version(d0, j), e, Version(e, k), path);
    }
  }

  lemma FsyncKeeps(d0: Disk, d: Disk, path: Path, tmp: Path, data: Bytes)
    requires Wf(d) && NoAlias(d, path, tmp) && Keeps(d0, d, path, data) && tmp in d.cur
    ensures var e := Apply(d, Fsync(tmp));
            Wf(e) && NoAlias(e, path, tmp) && Keeps(d0, e, path, data) && e.cur == d.cur && e.data == d.data && e.cur[tmp] in e.stable
  {
    var e := Apply(d, Fsync(tmp));
    assert forall k | 0 <= k <= |d.older| :: Version(e, k) == Version(d, k);
    forall k | 0 <= k <= |e.older| && !ShowsNew(e, Version(e, k), path, data)
      ensures exists j :: 0 <= j <= |d0.older| && SameSlot(d0, Version(d0, j), e, Version(e, k), path)
    {
      var j :| 0 <= j <= |d0.older| && SameSlot(d0, Version(d0, j), d, Version(d, k), path);
      assert SameSlot(d0, Version(d0, j), e, Version(e, k), path);
    }
  }

  /** A new directory version that shows `path` well keeps the promise. */
  lemma NewVersionKeeps(d0: Disk, d: Disk, e: Disk, path: Path, data: Bytes)
    requires Keeps(d0, d, path, data)
    requires e == d.(older := d.older + [d.cur], cur := e.cur)
    requires ShowsNew(e, e.cur, path, data) || ((path in e.cur <==> path in d.cur) && (path in d.cur ==> e.cur[path] == d.cur[path]))
    ensures Keeps(d0, e, path, data)
  {
    assert Version(d, |d.older|) == d.cur;
    forall k | 0 <= k <= |e.older| && !ShowsNew(e, Version(e, k), path, data)
      ensures exists j :: 0 <= j <= |d0.older| && SameSlot(d0, Version(d0, j), e, Version(e, k), path)
    {
      var i := if k <= |d.older| then k else |d.older|;
      assert !ShowsNew(d, Version(d, i), path, data);
      var j :| 0 <= j <= |d0.older| && SameSlot(d0, Version(d0, j), d, Version(d, i), path);
      assert SameSlot(d0, Version(d0, j), e, Version(e, k), path);
    }
  }

  lemma SyncDirKeeps(d0: Disk, d: Disk, path: Path, data: Bytes)
    requires Keeps(d0, d, path, data)
    ensures Keeps(d0, Apply(d, SyncDir), path, data)
  {
    var e := Apply(d, SyncDir);
    assert Version(d, |d.older|) == d.cur == Version(e, 0);
    if !ShowsNew(e, e.cur, path, data) {
      var j :| 0 <= j <= |d0.older| && SameSlot(d0, Version(d0, j), d, d.cur, path);
      assert SameSlot(d0, Version(d0, j), e, Version(e, 0), path);
    }
  }

  lemma RemoveKeeps(d0: Disk, d: Disk, path: Path, tmp: Path, data: Bytes)
    requires Keeps(d0, d, path, data) && path != tmp
    ensures Keeps(d0, Apply(d, Remove(tmp)), path, data)
  {
    if tmp in d.cur { NewVersionKeeps(d0, d, Apply(d, Remove(tmp)), path, data); }
  }

  lemma SameKeeps(d: Disk, path: Path, data: Bytes)
    requires Wf(d)
    ensures Keeps(d, d, path, data)
  {
    forall k | 0 <= k <= |d.older| ensures SameSlot(d, Version(d, k), d, Version(d, k), path) { }
  }

  lemma RenamedShowsNew(d: Disk, path: Path, tmp: Path, data: Bytes)
    requires Wf(d) && NoAlias(d, path, tmp) && path != tmp
    ensures Keeps(d, Renamed(d, path, tmp, data), path, data)
    ensures ShowsNew(Renamed(d, path, tmp, data), Renamed(d, path, tmp, data).cur, path, data)
  {
    OpenedKeeps(d, path, tmp, data);
    AppendKeeps(d, Opened(d, tmp), path, tmp, data, data);
    FsyncKeeps(d, Written(d, tmp, data), path, tmp, data);
    NewVersionKeeps(d, Synced(d, tmp, data), Renamed(d, path, tmp, data), path, data);
  }

  /** Each state of a replace, whichever call fails, keeps the promise. */
  lemma {:induction false} ReplaceKeeps(d: Disk, path: Path, tmp: Path, data: Bytes, fault: Fault, removes: bool, n: nat)
    requires Wf(d) && NoAlias(d, path, tmp) && path != tmp
    requires n <= |ReplaceOps(path, tmp, data, fault, removes)|
    ensures Keeps(d, After(d, ReplaceOps(path, tmp, data, fault, removes)[..n]), path, data)
  {
    var body := if fault.WriteFails? then fault.wrote else data;
    ReplaceStates(d, path, tmp, data, fault, removes, n);
    SameKeeps(d, path, data);
    OpenedKeeps(d, path, tmp, data);
    AppendKeeps(d, Opened(d, tmp), path, tmp, body, data);
    FsyncKeeps(d, Written(d, tmp, body), path, tmp, data);
    RemoveKeeps(d, Written(d, tmp, body), path, tmp, data);
    RemoveKeeps(d, Synced(d, tmp, body), path, tmp, data);
    RenamedShowsNew(d, path, tmp, data);
  }

  lemma TmpDiffers(path: Path)
    ensures path + ".tmp" != path
  {
    assert |path + ".tmp"| == |path| + 4;
  }

  /**
   writeFileSync at any crash point, with any system call failing: after the crash the file is
   what it could have been before the call, or it is the complete new content.
   */
  lemma {:induction false} WriteIsAtomic(
    d: Disk, path: Path, data: Bytes, fault: Fault, removes: bool, dirSyncs: bool, n: nat, e: Disk)
    requires Wf(d) && NoAlias(d, path, path + ".tmp")
    requires n <= |WriteOps(path, data, fault, removes, dirSyncs)|
    requires CrashesTo(After(d, WriteOps(path, data, fault, removes, dirSyncs)[..n]), e)
    ensures Read(e, path) == Some(data) || exists e0 :: CrashesTo(d, e0) && Read(e0, path) == Read(e, path)
  {
    WriteKeeps(d, path, data, fault, removes, dirSyncs, n);
    KeepsMeansOldOrNew(d, After(d, WriteOps(path, data, fault, removes, dirSyncs)[..n]), path, data, e);
  }

  lemma WriteKeeps(d: Disk, path: Path, data: Bytes, fault: Fault, removes: bool, dirSyncs: bool, n: nat)
    requires Wf(d) && NoAlias(d, path, path + ".tmp")
    requires n <= |WriteOps(path, data, fault, removes, dirSyncs)|
    ensures Keeps(d, After(d, WriteOps(path, data, fault, removes, dirSyncs)[..n]), path, data)
  {
    TmpDiffers(path);
    var ops, all := ReplaceOps(path, path + ".tmp", data, fault, removes), WriteOps(path, data, fault, removes, dirSyncs);
    if n <= |ops| {
      ReplaceKeeps(d, path, path + ".tmp", data, fault, removes, n);
      assert all[..n] == ops[..n];
    } else {
      ReplaceKeeps(d, path, path + ".tmp", data, fault, removes, |ops|);
      assert ops[..|ops|] == ops && all[..n] == ops + [SyncDir];
      AfterLast(d, ops, SyncDir);
      SyncDirKeeps(d, After(d, ops), path, data);
    }
  }

  /** When the call succeeds and the directory could be synced, no crash takes the new content back. */
  lemma {:induction false} SyncedWriteSurvivesCrash(d: Disk, path: Path, data: Bytes, removes: bool, e: Disk)
    requires Wf(d) && NoAlias(d, path, path + ".tmp")
    requires CrashesTo(After(d, WriteOps(path, data, NoFault, removes, true)), e)
    ensures Read(e, path) == Some(data)
  {
    TmpDiffers(path);
    var tmp := path + ".tmp";
    AfterFew(d, OpenTrunc(tmp), Append(tmp, data), Fsync(tmp), Rename(tmp, path));
    AfterLast(d, ReplaceOps(path, tmp, data, NoFault, removes), SyncDir);
    RenamedShowsNew(d, path, tmp, data);
    var f := Apply(Renamed(d, path, tmp, data), SyncDir);
    assert Version(f, 0) == f.cur;
  }

  /** No other path names the file that `tmp` names. */
  ghost predicate OwnFile(d: Disk, tmp: Path, q: Path) { q in d.cur && tmp in d.cur ==> d.cur[q] != d.cur[tmp] }

  /** `e` differs from `d` in the file of `tmp` only, which exists. */
  ghost predicate OnlyTmp(d: Disk, e: Disk, tmp: Path, q: Path) {
    && tmp in e.cur && e.cur[tmp] in e.data && e.cur - {tmp} == d.cur - {tmp}
    && Read(e, q) == Read(d, q) && OwnFile(e, tmp, q)
  }

  lemma OpenTouchesOnly(d: Disk, tmp: Path, q: Path)
    requires Wf(d) && q != tmp && OwnFile(d, tmp, q)
    ensures OnlyTmp(d, Opened(d, tmp), tmp, q) && Opened(d, tmp).data[Opened(d, tmp).cur[tmp]] == []
  {
    assert Version(d, |d.older|) == d.cur;
  }

  lemma AppendTouchesOnly(d: Disk, e: Disk, tmp: Path, b: Bytes, q: Path)
    requires q != tmp && OnlyTmp(d, e, tmp, q)
    ensures OnlyTmp(d, Apply(e, Append(tmp, b)), tmp, q) && OnlyTmp(d, Apply(e, Fsync(tmp)), tmp, q)
  {
  }

  lemma RemoveLeavesRest(d: Disk, e: Disk, tmp: Path, q: Path)
    requires q != tmp && OnlyTmp(d, e, tmp, q)
    ensures var f := Apply(e, Remove(tmp)); tmp !in f.cur && f.cur == d.cur - {tmp} && Read(f, q) == Read(d, q)
  {
  }

  /** A replace that fails, with the temp file removed, leaves every other file as it was and no temp file. */
  lemma FailedReplaceLeavesNothing(d: Disk, path: Path, tmp: Path, data: Bytes, fault: Fault, q: Path)
    requires Wf(d) && !fault.NoFault? && q != tmp && OwnFile(d, tmp, q)
    ensures var e := After(d, ReplaceOps(path, tmp, data, fault, true));
            && Read(e, q) == Read(d, q)
            && (fault.OpenFails? ==> e == d)
            && (!fault.OpenFails? ==> tmp !in e.cur && e.cur == d.cur - {tmp})
  {
    var body := if fault.WriteFails? then fault.wrote else data;
    FailedStates(d, path, tmp, data, fault);
    OpenTouchesOnly(d, tmp, q);
    AppendTouchesOnly(d, Opened(d, tmp), tmp, body, q);
    AppendTouchesOnly(d, Written(d, tmp, body), tmp, [], q);
    RemoveLeavesRest(d, Written(d, tmp, body), tmp, q);
    RemoveLeavesRest(d, Synced(d, tmp, body), tmp, q);
  }

  lemma FailedStates(d: Disk, path: Path, tmp: Path, data: Bytes, fault: Fault)
    requires !fault.NoFault?
    ensures var body, e := if fault.WriteFails? then fault.wrote else data, After(d, ReplaceOps(path, tmp, data, fault, true));
            if fault.OpenFails? then e == d
            else e == Apply(Written(d, tmp, body), Remove(tmp)) || e == Apply(Synced(d, tmp, body), Remove(tmp))
  {
    var body := if fault.WriteFails? then fault.wrote else data;
    AfterFew(d, OpenTrunc(tmp), Append(tmp, body), Remove(tmp), Remove(tmp));
    AfterFew(d, OpenTrunc(tmp), Append(tmp, body), Fsync(tmp), Remove(tmp));
  }

  /** A replace that succeeds puts the content at `path`, removes the temp file and touches no other file. */
  lemma ReplaceTouchesOnlyPath(d: Disk, path: Path, tmp: Path, data: Bytes, removes: bool, q: Path)
    requires Wf(d) && path != tmp && q != tmp && q != path && OwnFile(d, tmp, q)
    ensures var e := After(d, ReplaceOps(path, tmp, data, NoFault, removes));
            Read(e, path) == Some(data) && Read(e, q) == Read(d, q) && tmp !in e.cur
  {
    AfterFew(d, OpenTrunc(tmp), Append(tmp, data), Fsync(tmp), Rename(tmp, path));
    OpenTouchesOnly(d, tmp, q);
    AppendTouchesOnly(d, Opened(d, tmp), tmp, data, q);
    AppendTouchesOnly(d, Written(d, tmp, data), tmp, [], q);
    assert [] + data == data;
  }

  // ---------------------------------------------------------------- MigrateLegacyPath

  datatype Paths = Paths(new_: Path, legacy: Path) {
    function Tmp(): Path { new_ + ".tmp" }

    function Tombstone(): Path { legacy + ".moved-to-var-lib" }

    /** The four files are different files; so they are for the built-in locations. */
    predicate Apart() {
      legacy != new_ && legacy != Tmp() && Tombstone() != new_ && Tombstone() != Tmp()
    }
  }

  const DEFAULT_PATHS := Paths("/var/lib/ventd/setup/calibration.json", "/etc/ventd/calibration.json")

  lemma DefaultPathsAreApart()
    ensures DEFAULT_PATHS.Apart()
  {
    assert DEFAULT_PATHS.new_[1] == 'v' && DEFAULT_PATHS.legacy[1] == 'e';
    assert DEFAULT_PATHS.Tmp()[1] == 'v' && DEFAULT_PATHS.Tombstone()[1] == 'e';
  }

  /** How the environment behaves during one run. */
  datatype Conditions = Conditions(
    statNewFails: bool, statLegacyFails: bool, legacyIsDir: bool, mkdirFails: bool,
    fault: Fault, removes: bool, tombstoneOpens: bool, note: Bytes)

  function MigrateOps(d: Disk, paths: Paths, how: Conditions): seq<DiskOp> {
    if how.statNewFails || Read(d, paths.new_).Some? || how.statLegacyFails then []
    else
      var legacy := Read(d, paths.legacy);
      if legacy.None? || how.legacyIsDir || how.mkdirFails then []
      else
        ReplaceOps(paths.new_, paths.Tmp(), legacy.value, how.fault, how.removes) +
        if how.fault.NoFault? && how.tombstoneOpens
        then [OpenTrunc(paths.Tombstone()), Append(paths.Tombstone(), how.note)] else []
  }

  /** A migrated file, nothing to migrate, and a copy that went through are successes; the note does not matter. */
  predicate MigrateSucceeds(d: Disk, paths: Paths, how: Conditions) {
    && !how.statNewFails
    && (|| Read(d, paths.new_).Some?
        || (!how.statLegacyFails && (Read(d, paths.legacy).None? || how.legacyIsDir))
        || (!how.statLegacyFails && !how.mkdirFails && how.fault.NoFault?))
  }

  /**
   The migration writes if and only if the new file is known to be missing, the legacy path is a
   readable file, its target directory can be made and the temp file opened; the note follows
   exactly a complete copy.
   */
  lemma MigrateActsIff(d: Disk, paths: Paths, how: Conditions)
    ensures MigrateOps(d, paths, how) != [] <==>
            && !how.statNewFails && Read(d, paths.new_).None?
            && !how.statLegacyFails && Read(d, paths.legacy).Some? && !how.legacyIsDir
            && !how.mkdirFails && !how.fault.OpenFails?
    ensures OpenTrunc(paths.Tombstone()) in MigrateOps(d, paths, how) && paths.Tombstone() != paths.Tmp() <==>
            && !how.statNewFails && Read(d, paths.new_).None?
            && !how.statLegacyFails && Read(d, paths.legacy).Some? && !how.legacyIsDir
            && !how.mkdirFails && how.fault.NoFault? && how.tombstoneOpens && paths.Tombstone() != paths.Tmp()
  {
    var copy := ReplaceOps(paths.new_, paths.Tmp(), if Read(d, paths.legacy).Some? then Read(d, paths.legacy).value else [], how.fault, how.removes);
    assert forall p | OpenTrunc(p) in copy :: p == paths.Tmp();
  }

  /**
   `legacy` holds `bytes` in every version a crash could bring back, `new_` holds them or does not
   exist, and the scratch files are not the files that matter.
   */
  ghost predicate Migratable(d: Disk, paths: Paths, bytes: Bytes) {
    Wf(d) && forall k | 0 <= k <= |d.older| :: VersionOk(d, Version(d, k), paths, bytes)
  }

  ghost predicate VersionOk(d: Disk, v: Dir, paths: Paths, bytes: Bytes) {
    && ShowsNew(d, v, paths.legacy, bytes)
    && (paths.new_ in v ==> ShowsNew(d, v, paths.new_, bytes))
    && Scratch(v, v, paths, paths.Tmp()) && Scratch(v, v, paths, paths.Tombstone())
    && Scratch(d.cur, v, paths, paths.Tmp()) && Scratch(d.cur, v, paths, paths.Tombstone())
    && (paths.Tmp() in v && paths.Tombstone() in v ==> v[paths.Tmp()] != v[paths.Tombstone()])
  }

  /** What `p` names in `w` is neither the legacy nor the new file of `v`. */
  ghost predicate Scratch(w: Dir, v: Dir, paths: Paths, p: Path) {
    && (p in w && paths.legacy in v ==> w[p] != v[paths.legacy])
    && (p in w && paths.new_ in v ==> w[p] != v[paths.new_])
  }

  lemma CrashStaysMigratable(d: Disk, paths: Paths, bytes: Bytes, e: Disk)
    requires Migratable(d, paths, bytes) && CrashesTo(d, e)
    ensures Migratable(e, paths, bytes)
  {
    var k :| 0 <= k <= |d.older| && e.cur == Version(d, k);
    assert VersionOk(d, Version(d, k), paths, bytes);
    assert Version(e, 0) == e.cur;
  }

  /** Truncating or creating a scratch file. */
  lemma OpenScratch(d: Disk, paths: Paths, bytes: Bytes, p: Path)
    requires Migratable(d, paths, bytes) && paths.Apart() && (p == paths.Tmp() || p == paths.Tombstone())
    ensures var e := Apply(d, OpenTrunc(p)); Migratable(e, paths, bytes) && p in e.cur && e.cur[p] in e.data && e.data[e.cur[p]] == []
    ensures forall q :: q != p && q !in d.cur ==> q !in Apply(d, OpenTrunc(p)).cur
  {
    var e := Apply(d, OpenTrunc(p));
    TmpDiffers(paths.new_);
    assert p != paths.new_ && p != paths.legacy by { assert |paths.Tombstone()| > |paths.legacy|; }
    assert Version(d, |d.older|) == d.cur && Version(e, |e.older|) == e.cur;
    forall k | 0 <= k <= |e.older| ensures VersionOk(e, Version(e, k), paths, bytes) {
      var j := if k <= |d.older| then k else |d.older|;
      assert VersionOk(d, Version(d, j), paths, bytes) && VersionOk(d, d.cur, paths, bytes);
      assert Version(e, k) == Version(d, j) || Version(e, k) == e.cur;
    }
    assert forall k | 0 <= k <= |d.older| :: Version(e, k) == Version(d, k) || k == |e.older|;
  }

  lemma AppendScratch(d: Disk, paths: Paths, bytes: Bytes, p: Path, b: Bytes)
    requires Migratable(d, paths, bytes) && (p == paths.Tmp() || p == paths.Tombstone())
    ensures Migratable(Apply(d, Append(p, b)), paths, bytes)
  {
    var e := Apply(d, Append(p, b));
    assert forall k | 0 <= k <= |d.older| :: Version(e, k) == Version(d, k);
    forall k | 0 <= k <= |e.older| ensures VersionOk(e, Version(e, k), paths, bytes) {
      assert VersionOk(d, Version(d, k), paths, bytes);
    }
  }

  lemma FsyncScratch(d: Disk, paths: Paths, bytes: Bytes, p: Path)
    requires Migratable(d, paths, bytes)
    ensures Migratable(Apply(d, Fsync(p)), paths, bytes)
  {
    var e := Apply(d, Fsync(p));
    assert forall k | 0 <= k <= |d.older| :: Version(e, k) == Version(d, k);
    forall k | 0 <= k <= |e.older| ensures VersionOk(e, Version(e, k), paths, bytes) {
      assert VersionOk(d, Version(d, k), paths, bytes);
    }
  }

  lemma VersionsGrow(d: Disk, e: Disk, paths: Paths, bytes: Bytes)
    requires Migratable(d, paths, bytes)
    requires e == d.(older := d.older + [d.cur], cur := e.cur)
    requires forall p :: p in e.cur ==> e.cur[p] in e.data
    requires forall p :: p in e.cur && (p == paths.Tmp() || p == paths.Tombstone()) ==> p in d.cur && e.cur[p] == d.cur[p]
    requires VersionOk(e, e.cur, paths, bytes)
    ensures Migratable(e, paths, bytes)
  {
    assert Version(d, |d.older|) == d.cur && Version(e, |e.older|) == e.cur;
    assert forall k | 0 <= k <= |d.older| :: Version(e, k) == Version(d, k);
    forall k | 0 <= k <= |e.older| ensures VersionOk(e, Version(e, k), paths, bytes) {
      if k <= |d.older| { assert VersionOk(d, Version(d, k), paths, bytes); }
    }
  }

  lemma RemoveScratch(d: Disk, paths: Paths, bytes: Bytes)
    requires Migratable(d, paths, bytes) && paths.Apart()
    ensures Migratable(Apply(d, Remove(paths.Tmp())), paths, bytes)
  {
    assert Version(d, |d.older|) == d.cur && VersionOk(d, d.cur, paths, bytes);
    TmpDiffers(paths.new_);
    if paths.Tmp() in d.cur { VersionsGrow(d, Apply(d, Remove(paths.Tmp())), paths, bytes); }
  }

  lemma RenameIntoPlace(d: Disk, paths: Paths, bytes: Bytes)
    requires Migratable(d, paths, bytes) && paths.Apart()
    requires ShowsNew(d, d.cur, paths.Tmp(), bytes)
    ensures var e := Apply(d, Rename(paths.Tmp(), paths.new_));
            Migratable(e, paths, bytes) && Read(e, paths.new_) == Some(bytes) && paths.Tmp() !in e.cur
  {
    assert Version(d, |d.older|) == d.cur && VersionOk(d, d.cur, paths, bytes);
    TmpDiffers(paths.new_);
    VersionsGrow(d, Apply(d, Rename(paths.Tmp(), paths.new_)), paths, bytes);
  }

  /** Any prefix of the copy, whichever call fails, leaves the invariant. */
  lemma {:induction false} CopyStaysMigratable(d: Disk, paths: Paths, bytes: Bytes, fault: Fault, removes: bool, n: nat)
    requires Migratable(d, paths, bytes) && paths.Apart()
    requires n <= |ReplaceOps(paths.new_, paths.Tmp(), bytes, fault, removes)|
    ensures Migratable(After(d, ReplaceOps(paths.new_, paths.Tmp(), bytes, fault, removes)[..n]), paths, bytes)
    ensures Migratable(Renamed(d, paths.new_, paths.Tmp(), bytes), paths, bytes)
    ensures Read(Renamed(d, paths.new_, paths.Tmp(), bytes), paths.new_) == Some(bytes)
  {
    var tmp := paths.Tmp();
    var body := if fault.WriteFails? then fault.wrote else bytes;
    ReplaceStates(d, paths.new_, tmp, bytes, fault, removes, n);
    OpenScratch(d, paths, bytes, tmp);
    AppendScratch(Opened(d, tmp), paths, bytes, tmp, body);
    AppendScratch(Opened(d, tmp), paths, bytes, tmp, bytes);
    FsyncScratch(Written(d, tmp, body), paths, bytes, tmp);
    FsyncScratch(Written(d, tmp, bytes), paths, bytes, tmp);
    RemoveScratch(Written(d, tmp, body), paths, bytes);
    RemoveScratch(Synced(d, tmp, body), paths, bytes);
    assert [] + bytes == bytes;
    RenameIntoPlace(Synced(d, tmp, bytes), paths, bytes);
  }

  lemma LegacyIsReadable(d: Disk, paths: Paths, bytes: Bytes)
    requires Migratable(d, paths, bytes)
    ensures Read(d, paths.legacy) == Some(bytes)
    ensures Read(d, paths.new_) == None || Read(d, paths.new_) == Some(bytes)
  {
    assert Version(d, |d.older|) == d.cur;
    assert VersionOk(d, d.cur, paths, bytes);
  }

  /** A run of MigrateLegacyPath under any conditions, stopped at any point. */
  lemma {:induction false} MigrateStaysMigratable(d: Disk, paths: Paths, bytes: Bytes, how: Conditions, n: nat)
    requires Migratable(d, paths, bytes) && paths.Apart() && n <= |MigrateOps(d, paths, how)|
    ensures Migratable(After(d, MigrateOps(d, paths, how)[..n]), paths, bytes)
  {
    LegacyIsReadable(d, paths, bytes);
    var all := MigrateOps(d, paths, how);
    if all == [] || n == 0 {
      assert all[..n] == [];
    } else {
      var copy := ReplaceOps(paths.new_, paths.Tmp(), bytes, how.fault, how.removes);
      var tombstone := paths.Tombstone();
      if n <= |copy| {
        CopyStaysMigratable(d, paths, bytes, how.fault, how.removes, n);
        assert all[..n] == copy[..n];
      } else {
        CopyStaysMigratable(d, paths, bytes, how.fault, how.removes, |copy|);
        assert copy[..|copy|] == copy;
        OpenScratch(After(d, copy), paths, bytes, tombstone);
        AppendScratch(Apply(After(d, copy), OpenTrunc(tombstone)), paths, bytes, tombstone, how.note);
        AfterLast(d, copy, OpenTrunc(tombstone));
        AfterLast(d, copy + [OpenTrunc(tombstone)], Append(tombstone, how.note));
        assert all[..n] == copy + [OpenTrunc(tombstone)]
            || all[..n] == copy + [OpenTrunc(tombstone)] + [Append(tombstone, how.note)];
      }
    }
  }

  /** One daemon start that dies in or after the migration. */
  ghost predicate Attempt(d: Disk, paths: Paths, e: Disk) {
    exists how, n: nat :: n <= |MigrateOps(d, paths, how)| && CrashesTo(After(d, MigrateOps(d, paths, how)[..n]), e)
  }

  ghost predicate Attempts(ds: seq<Disk>, paths: Paths) {
    forall j | 0 <= j < |ds| - 1 :: Attempt(ds[j], paths, ds[j + 1])
  }

  lemma {:induction false} AttemptsStayMigratable(ds: seq<Disk>, paths: Paths, bytes: Bytes)
    requires ds != [] && Migratable(ds[0], paths, bytes) && paths.Apart() && Attempts(ds, paths)
    ensures Migratable(ds[|ds| - 1], paths, bytes)
  {
    if |ds| > 1 {
      var init := ds[..|ds| - 1];
      var d := init[|init| - 1];
      assert forall j | 0 <= j < |init| :: init[j] == ds[j];
      AttemptsStayMigratable(init, paths, bytes);
      assert Attempt(ds[|ds| - 2], paths, ds[|ds| - 1]);
      var how, n: nat :| n <= |MigrateOps(d, paths, how)|
        && CrashesTo(After(d, MigrateOps(d, paths, how)[..n]), ds[|ds| - 1]);
      MigrateStaysMigratable(d, paths, bytes, how, n);
      CrashStaysMigratable(After(d, MigrateOps(d, paths, how)[..n]), paths, bytes, ds[|ds| - 1]);
    }
  }

  predicate Healthy(how: Conditions) {
    !how.statNewFails && !how.statLegacyFails && !how.legacyIsDir && !how.mkdirFails && how.fault.NoFault?
  }

  /**
   After any number of crashed starts, one start in which nothing fails leaves the new path
   holding exactly the legacy bytes, and the legacy file as it was.
   */
  lemma {:induction false} MigrationConverges(ds: seq<Disk>, paths: Paths, bytes: Bytes, how: Conditions)
    requires ds != [] && Migratable(ds[0], paths, bytes) && paths.Apart() && Attempts(ds, paths) && Healthy(how)
    ensures var d := ds[|ds| - 1];
            var e := After(d, MigrateOps(d, paths, how));
            Read(e, paths.new_) == Some(bytes) && Read(e, paths.legacy) == Some(bytes)
  {
    AttemptsStayMigratable(ds, paths, bytes);
    var d := ds[|ds| - 1];
    var all := MigrateOps(d, paths, how);
    LegacyIsReadable(d, paths, bytes);
    MigrateStaysMigratable(d, paths, bytes, how, |all|);
    assert all[..|all|] == all;
    LegacyIsReadable(After(d, all), paths, bytes);
    if Read(d, paths.new_).None? {
      var copy := ReplaceOps(paths.new_, paths.Tmp(), bytes, NoFault, how.removes);
      CopyStaysMigratable(d, paths, bytes, NoFault, how.removes, |copy|);
      AfterFew(d, OpenTrunc(paths.Tmp()), Append(paths.Tmp(), bytes), Fsync(paths.Tmp()), Rename(paths.Tmp(), paths.new_));
      assert After(d, copy) == Renamed(d, paths.new_, paths.Tmp(), bytes);
      if how.tombstoneOpens {
        var tombstone := paths.Tombstone();
        AfterLast(d, copy, OpenTrunc(tombstone));
        AfterLast(d, copy + [OpenTrunc(tombstone)], Append(tombstone, how.note));
        assert all == copy + [OpenTrunc(tombstone)] + [Append(tombstone, how.note)];
        assert paths.new_ in After(d, all).cur;
      } else {
        assert all == copy;
      }
    }
  }
}
