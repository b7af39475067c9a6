/**
 logportmap.c: the process-wide table of pmlogger ports and the three
 operations that refill it. The table's abstract value is a Table; the
 functions Resize, FindLocal, RemoteQuery and FindPortSpec say what each
 operation makes of it, and the class LogPortTable holds the statics
 (logport, nlogports, szlogport and the match buffer) and updates them in
 place, proved to agree with those functions.
 */
module LogPortMap {
  import opened LibC
  import opened PortFile
  import opened Localhost
  import opened Remote

  /** The statics: the entries of the logport array (szlogport of them), nlogports, and the match buffer. */
  datatype Table = Table(slots: seq<LogPort>, count: int, matchName: string) {
    /** At most count entries are in use, and no slot beyond them holds a PMCD host or archive string. */
    ghost predicate Valid()
    {
      0 <= count <= |slots|
      && forall k :: count <= k < |slots| ==> slots[k].pmcdHost.None? && slots[k].archive.None?
    }
  }

  /** The slots after freeing the strings of the first n and zeroing them. */
  function Released(slots: seq<LogPort>, n: int): seq<LogPort>
  {
    seq(|slots|, k requires 0 <= k < |slots| => if k < n then Unused else slots[k])
  }

  datatype Resized = Resized(sts: int, table: Table)

  /**
   resize_logports: the entries in use are released and zeroed and none is
   in use any more; an array of at least newsize entries is kept, otherwise
   a zeroed array of newsize entries replaces it, or, when malloc fails,
   there is no array and -1 is returned.
   */
  function Resize(t: Table, newsize: nat, mallocOk: bool): (r: Resized)
    requires t.Valid()
    ensures r.table.Valid() && r.table.count == 0 && r.table.matchName == t.matchName
    ensures r.sts == 0 || r.sts == -1
    ensures r.sts == 0 <==> |t.slots| >= newsize || mallocOk
    ensures r.sts == 0 ==> |r.table.slots| >= newsize
    ensures r.sts == -1 ==> r.table.slots == []
    ensures |t.slots| >= newsize ==> |r.table.slots| == |t.slots| && r.table.slots[t.count..] == t.slots[t.count..]
    ensures |t.slots| < newsize && mallocOk ==>
      |r.table.slots| == newsize && forall k :: 0 <= k < newsize ==> r.table.slots[k] == Unused
    ensures forall k :: 0 <= k < t.count && k < |r.table.slots| ==> r.table.slots[k] == Unused
  {
    if |t.slots| >= newsize then Resized(0, Table(Released(t.slots, t.count), 0, t.matchName))
    else if mallocOk then Resized(0, Table(seq(newsize, _ => Unused), 0, t.matchName))
    else Resized(-1, Table([], 0, t.matchName))
  }

  /** The port directory: scandir fails with an errno, or lists its entries in alphasort order. */
  datatype Directory = Unreadable(errno: Errno) | Listing(entries: seq<DirEntry>)

  /**
   What the local scan sees of the machine: the pids of the processes that
   exist, the port directory, whether the resize's malloc succeeds, and
   whether the k-th strdup of the scan succeeds.
   */
  datatype LocalEnv = LocalEnv(live: set<int>, dir: Directory, mallocOk: bool, dupOk: nat -> bool)

  /** What the result parameter holds afterwards: what it held before, NULL, or the table. */
  datatype ResultPtr = Untouched | NullPtr | SharedTable

  datatype Reply = Reply(sts: int, result: ResultPtr, table: Table)

  /** The size of the static match buffer. */
  const PROCFS_ENTRY_SIZE: int := 40

  /**
   What the match buffer holds for a request: the primary link, unchanged for
   all loggers, or the pid. The name it holds is that of the port file whose
   recorded pid is the one asked for, and a pid always fits the buffer.
   */
  function MatchBuffer(pid: int32, previous: string): (m: string)
    ensures pid == PM_LOG_PRIMARY_PID ==> m == PM_LOG_PRIMARY_LINK
    ensures pid == PM_LOG_ALL_PIDS ==> m == previous
    ensures pid != PM_LOG_ALL_PIDS ==> NamePid(m) == Some(pid)
    ensures pid != PM_LOG_PRIMARY_PID && pid != PM_LOG_ALL_PIDS ==> |m| < PROCFS_ENTRY_SIZE
  {
    NamePidOfDecimal(pid);
    IntToDecimalFits(pid);
    if pid == PM_LOG_PRIMARY_PID then PM_LOG_PRIMARY_LINK
    else if pid == PM_LOG_ALL_PIDS then previous
    else IntToDecimal(pid)
  }

  /** The request survives the process check: the primary logger, every logger, or a pid that exists. */
  predicate Requested(pid: int32, live: set<int>)
  {
    pid == PM_LOG_PRIMARY_PID || pid == PM_LOG_ALL_PIDS || pid in live
  }

  function ScanFnFor(pid: int32): ScanFn
  {
    if pid == PM_LOG_ALL_PIDS then IsPortFileFn else IsMatchFn
  }

  /**
   __pmLogFindLocalPorts on table t; haveResult is false when the result
   parameter is NULL. The counted entries are those of the scan of the
   candidate files; a failed strdup of a name gives NULL and -ENOMEM.
   */
  function FindLocal(t: Table, pid: int32, haveResult: bool, env: LocalEnv): (r: Reply)
    requires t.Valid()
    ensures r.table.Valid()
    ensures r.result == SharedTable ==> 0 <= r.sts == r.table.count
    ensures r.sts > 0 ==> r.result == SharedTable
    ensures r.result == Untouched ==> r.sts < 0
    ensures !haveResult ==> r == Reply(-EINVAL, Untouched, t)
    ensures haveResult && !Requested(pid, env.live) ==> r == Reply(0, NullPtr, t)
    ensures haveResult && Requested(pid, env.live) && env.dir.Unreadable? ==>
      r.sts == -(env.dir.errno as int) && r.result == Untouched
    ensures haveResult && Requested(pid, env.live) && env.dir.Listing? ==>
      var files := ScanDir(env.dir.entries, ScanFnFor(pid), MatchBuffer(pid, t.matchName), env.live);
      var s := ScanFiles(files, env.dupOk);
      (|files| == 0 ==> r.sts == 0 && r.result == NullPtr)
      && (|files| > 0 && !env.mallocOk && |t.slots| < |files| ==> r.sts == -ENOMEM && r.result == Untouched)
      && (|files| > 0 && (env.mallocOk || |t.slots| >= |files|) && s.aborted ==> r.sts == -ENOMEM && r.result == NullPtr)
      && (|files| > 0 && (env.mallocOk || |t.slots| >= |files|) && !s.aborted ==>
            r.result == SharedTable && r.sts == |s.ports| && r.table.slots[..r.sts] == s.ports)
  {
    if !haveResult then Reply(-EINVAL, Untouched, t)
    else if !Requested(pid, env.live) then Reply(0, NullPtr, t)
    else
      var t1 := t.(matchName := MatchBuffer(pid, t.matchName));
      match env.dir
      case Unreadable(e) => Reply(-(e as int), Untouched, t1)
      case Listing(entries) =>
        LoadPortFiles(t1, ScanDir(entries, ScanFnFor(pid), t1.matchName, env.live), env.mallocOk, env.dupOk)
  }

  /**
   The table sized for the candidate files and filled from them; a failed
   malloc gives -ENOMEM and leaves the result parameter as it was, and a
   failed strdup of a name gives -ENOMEM and NULL.
   */
  function LoadPortFiles(t: Table, files: seq<DirEntry>, mallocOk: bool, dupOk: nat -> bool): (r: Reply)
    requires t.Valid()
    ensures r.table.Valid() && r.table.matchName == t.matchName
    ensures r.result == SharedTable ==> 0 <= r.sts == r.table.count
    ensures r.sts > 0 ==> r.result == SharedTable
    ensures r.result == Untouched ==> r.sts < 0
    ensures |files| == 0 ==> r.sts == 0 && r.result == NullPtr
    ensures |files| > 0 && !mallocOk && |t.slots| < |files| ==> r.sts == -ENOMEM && r.result == Untouched
    ensures var s := ScanFiles(files, dupOk);
      |files| > 0 && (mallocOk || |t.slots| >= |files|) ==>
        (s.aborted ==> r.sts == -ENOMEM && r.result == NullPtr)
        && (!s.aborted ==> r.result == SharedTable && r.sts == |s.ports| && r.table.slots[..r.sts] == s.ports)
  {
    var rs := Resize(t, |files|, mallocOk);
    if rs.sts < 0 then Reply(-ENOMEM, Untouched, rs.table)
    else if |files| == 0 then Reply(0, NullPtr, rs.table)
    else
      var s := ScanFiles(files, dupOk);
      var t3 := rs.table.(slots := s.ports + rs.table.slots[|s.ports|..], count := |s.ports|);
      if s.aborted then Reply(-ENOMEM, NullPtr, t3) else Reply(|s.ports|, SharedTable, t3)
  }

  datatype PortReply = PortReply(sts: int, result: ResultPtr, table: Table, cleanup: seq<PmCall>)

  /** Restoring the previous context, when there was one, and destroying the new one. */
  function ContextCleanup(env: RemoteEnv): seq<PmCall>
  {
    (if env.oldctx >= 0 then [UseContext(env.oldctx)] else []) + [DestroyContext(env.newContext)]
  }

  /**
   The remote path of __pmLogFindPort: fetch pmcd.pmlogger.port from the
   host's pmcd and copy the wanted (instance, value) pairs into the table.
   As written, a failed fetch gives 1 (the result of the comparison with 0),
   and nlogports stays 0 after the copy.
   */
  function RemoteQuery(t: Table, pid: int32, env: RemoteEnv): (r: PortReply)
    requires t.Valid()
    ensures r.table.Valid()
    ensures r.result != Untouched
    ensures r.result == SharedTable ==> r.sts >= 0
    ensures env.newContext < 0 ==> r == PortReply(env.newContext, NullPtr, t, [])
    ensures env.newContext >= 0 && env.lookupName < 0 ==> r.sts == env.lookupName && r.result == NullPtr && r.table == t
    ensures env.newContext >= 0 && env.lookupName >= 0 && env.lookupDesc < 0 ==>
      r.sts == env.lookupDesc && r.result == NullPtr && r.table == t
    ensures ReachesFetch(env) && env.fetch.BadValueSet? ==> r.sts == env.fetch.numval && r.result == NullPtr && r.table == t
    ensures ReachesFetch(env) && env.fetch.Values? ==>
      var vl := env.fetch.vlist;
      var findone := pid != PM_LOG_ALL_PIDS;
      (|vl| == 0 ==> r.sts == 0 && r.result == NullPtr && r.table == t)
      && (|vl| > 0 && !env.mallocOk && |t.slots| < (if findone then 1 else |vl|) ==> r.sts == -ENOMEM && r.result == NullPtr)
      && (|vl| > 0 && (env.mallocOk || |t.slots| >= (if findone then 1 else |vl|)) ==>
            (UnnamedWanted(vl, pid, findone, env.names) ==> r.sts == env.nameErr && r.result == NullPtr)
            && (!UnnamedWanted(vl, pid, findone, env.names) ==> r.result == SharedTable))
  {
    var findone := pid != PM_LOG_ALL_PIDS;
    if env.newContext < 0 then PortReply(env.newContext, NullPtr, t, [])
    else if env.lookupName < 0 then PortReply(env.lookupName, NullPtr, t, ContextCleanup(env))
    else if env.lookupDesc < 0 then PortReply(env.lookupDesc, NullPtr, t, ContextCleanup(env))
    else
      match env.fetch
      case FetchFailed(_) => PortReply(1, NullPtr, t, ContextCleanup(env))
      case BadValueSet(numval) => PortReply(numval, NullPtr, t, [FreeResult] + ContextCleanup(env))
      case Values(vl) =>
        LoadValuesOutcomes(t, vl, pid, env);
        var l := LoadValues(t, vl, pid, env);
        PortReply(l.sts, l.result, l.table, [FreeResult] + ContextCleanup(env))
  }

  /**
   The fetched values copied into the table: nothing to do when there are
   none; otherwise the table is sized for them (one slot for a single pid)
   and the wanted values are copied in. An instance without a name gives
   pmNameInDom's error and NULL.
   */
  function LoadValues(t: Table, vl: seq<PmValue>, pid: int32, env: RemoteEnv): (r: Reply)
    requires t.Valid()
    ensures r.table.Valid() && r.table.matchName == t.matchName
    ensures r.result != Untouched
    ensures r.result == SharedTable ==> r.sts >= 0
    ensures |vl| == 0 ==> r == Reply(0, NullPtr, t)
  {
    var findone := pid != PM_LOG_ALL_PIDS;
    if |vl| == 0 then Reply(0, NullPtr, t)
    else
      var rs := Resize(t, if findone then 1 else |vl|, env.mallocOk);
      if rs.sts < 0 then Reply(-ENOMEM, NullPtr, rs.table)
      else
        var f := FillValues(vl, pid, findone, env.names);
        FillValuesConsistent(vl, pid, findone, env.names);
        var w := Written(f);
        var t2 := rs.table.(slots := w + rs.table.slots[|w|..]);
        if f.stop.NoName? then Reply(env.nameErr, NullPtr, t2)
        else Reply(|f.filled|, SharedTable, t2)
  }

  /**
   The outcomes of copying a non-empty value set: a failed resize gives
   -ENOMEM and NULL; after a resize, a wanted instance without a name gives
   pmNameInDom's error and NULL, and otherwise the table holds one entry per
   copied value.
   */
  lemma LoadValuesOutcomes(t: Table, vl: seq<PmValue>, pid: int32, env: RemoteEnv)
    requires t.Valid()
    ensures var findone := pid != PM_LOG_ALL_PIDS; var r := LoadValues(t, vl, pid, env);
      |vl| > 0 && !env.mallocOk && |t.slots| < (if findone then 1 else |vl|) ==> r.sts == -ENOMEM && r.result == NullPtr
    ensures var findone := pid != PM_LOG_ALL_PIDS; var r := LoadValues(t, vl, pid, env);
      |vl| > 0 && (env.mallocOk || |t.slots| >= (if findone then 1 else |vl|)) ==>
        (UnnamedWanted(vl, pid, findone, env.names) ==> r.sts == env.nameErr && r.result == NullPtr)
        && (!UnnamedWanted(vl, pid, findone, env.names) ==> r.result == SharedTable && r.sts == |FillValues(vl, pid, findone, env.names).filled|)
  {
    var findone := pid != PM_LOG_ALL_PIDS;
    FillValuesConsistent(vl, pid, findone, env.names);
    FillStopsAtUnnamed(Fill([], Scanning), vl, pid, findone, env.names);
  }

  /** pmNewContext, pmLookupName and pmLookupDesc succeed, so pmFetch is called. */
  predicate ReachesFetch(env: RemoteEnv)
  {
    env.newContext >= 0 && env.lookupName >= 0 && env.lookupDesc >= 0
  }

  /** Everything __pmLogFindPort consults: the resolver, the local machine and the remote pmcd. */
  datatype Env = Env(host: HostEnv, local: LocalEnv, remote: RemoteEnv)

  /**
   __pmLogFindPort: a local host is answered by the local scan, an error of
   the resolver is passed back, any other host is queried remotely; the
   result parameter is NULL unless it is the table.
   */
  function FindPortSpec(t: Table, host: string, pid: int32, env: Env): (r: PortReply)
    requires t.Valid()
    ensures r.table.Valid()
    ensures r.result != Untouched
    ensures r.result == SharedTable ==> r.sts >= 0
  {
    var localcon := LocalhostVerdict(host, env.host);
    if localcon > 0 then
      var l := FindLocal(t, pid, true, env.local);
      PortReply(l.sts, if l.result == SharedTable then SharedTable else NullPtr, l.table, [])
    else if localcon < 0 then PortReply(localcon, NullPtr, t, [])
    else RemoteQuery(t, pid, env.remote)
  }

  /** A pid that names no process gives an empty answer without scanning the directory or touching the table. */
  lemma DeadPidSkipsDirectory(t: Table, pid: int32, env: LocalEnv, other: Directory)
    requires t.Valid()
    requires pid != PM_LOG_PRIMARY_PID && pid != PM_LOG_ALL_PIDS && pid !in env.live
    ensures FindLocal(t, pid, true, env) == Reply(0, NullPtr, t)
    ensures FindLocal(t, pid, true, env.(dir := other)) == Reply(0, NullPtr, t)
  {
  }

  /** The pid an entry read from a candidate file carries, by the filter that selected the file. */
  lemma CandidatePid(fn: ScanFn, matchName: string, live: set<int>, f: DirEntry, p: LogPort)
    requires Selects(fn, matchName, live, f.name) && ReadFrom(f, p)
    ensures fn == IsPortFileFn ==>
      (p.pid > 1 && p.pid in live) || (p.name == Some(PM_LOG_PRIMARY_LINK) && p.pid == PM_LOG_PRIMARY_PORT)
    ensures fn == IsMatchFn && matchName == PM_LOG_PRIMARY_LINK ==>
      p.name == Some(PM_LOG_PRIMARY_LINK) && p.pid == PM_LOG_PRIMARY_PORT
    ensures forall pid: int32 :: fn == IsMatchFn && matchName == IntToDecimal(pid) ==>
      p.name == Some(IntToDecimal(pid)) && p.pid == pid
  {
    ParsedPid(f);
    PrimaryLinkValue();
    forall pid: int32 | fn == IsMatchFn && matchName == IntToDecimal(pid)
      ensures p.name == Some(IntToDecimal(pid)) && p.pid == pid
    {
      NamePidOfDecimal(pid);
    }
  }

  /**
   A successful local scan counts at most one entry per directory entry;
   every counted entry names the file it was read from, carries that file's
   port, and its pid is the requested one: the pid asked for, the primary
   logger's, or, for all loggers, a live pid above 1 or the primary's.
   */
  lemma LocalScanEntries(t: Table, pid: int32, env: LocalEnv)
    requires t.Valid() && env.dir.Listing?
    requires FindLocal(t, pid, true, env).result == SharedTable
    ensures var r := FindLocal(t, pid, true, env);
      r.sts <= |env.dir.entries|
      && forall k :: 0 <= k < r.sts ==>
        var p := r.table.slots[k];
        (exists f :: f in env.dir.entries && ReadFrom(f, p))
        && (pid == PM_LOG_PRIMARY_PID ==> p.name == Some(PM_LOG_PRIMARY_LINK) && p.pid == PM_LOG_PRIMARY_PORT)
        && (pid == PM_LOG_ALL_PIDS ==>
              (p.pid > 1 && p.pid in env.live) || (p.name == Some(PM_LOG_PRIMARY_LINK) && p.pid == PM_LOG_PRIMARY_PORT))
        && (pid != PM_LOG_PRIMARY_PID && pid != PM_LOG_ALL_PIDS ==> p.name == Some(IntToDecimal(pid)) && p.pid == pid)
  {
    var r := FindLocal(t, pid, true, env);
    var m := MatchBuffer(pid, t.matchName);
    var files := ScanDir(env.dir.entries, ScanFnFor(pid), m, env.live);
    var s := ScanFiles(files, env.dupOk);
    var cs := Candidates(files);
    assert s == ScanFrom(Scan([], 0, false), cs, env.dupOk);
    assert r.table.slots[..r.sts] == s.ports;
    forall k | 0 <= k < r.sts
      ensures var p := r.table.slots[k];
        (exists f :: f in env.dir.entries && ReadFrom(f, p))
        && (pid == PM_LOG_PRIMARY_PID ==> p.name == Some(PM_LOG_PRIMARY_LINK) && p.pid == PM_LOG_PRIMARY_PORT)
        && (pid == PM_LOG_ALL_PIDS ==>
              (p.pid > 1 && p.pid in env.live) || (p.name == Some(PM_LOG_PRIMARY_LINK) && p.pid == PM_LOG_PRIMARY_PORT))
        && (pid != PM_LOG_PRIMARY_PID && pid != PM_LOG_ALL_PIDS ==> p.name == Some(IntToDecimal(pid)) && p.pid == pid)
    {
      var p := r.table.slots[k];
      assert p == s.ports[k];
      var i := ScanSource(Scan([], 0, false), cs, env.dupOk, k);
      var f := files[i];
      assert ReadFrom(f, p) && f in files;
      CandidatePid(ScanFnFor(pid), m, env.live, f, p);
    }
  }

  /**
   When the resize and every strdup succeed, a local scan with candidate
   files counts every one of them that parses, in directory order, with its
   PMCD host and archive.
   */
  lemma LocalScanComplete(t: Table, pid: int32, env: LocalEnv)
    requires t.Valid() && env.dir.Listing? && env.mallocOk && forall k :: env.dupOk(k)
    requires pid == PM_LOG_PRIMARY_PID || pid == PM_LOG_ALL_PIDS || pid in env.live
    ensures var files := ScanDir(env.dir.entries, ScanFnFor(pid), MatchBuffer(pid, t.matchName), env.live);
      var r := FindLocal(t, pid, true, env);
      |files| > 0 ==> r.result == SharedTable && r.table.slots[..r.sts] == Parsed(Candidates(files))
  {
    var files := ScanDir(env.dir.entries, ScanFnFor(pid), MatchBuffer(pid, t.matchName), env.live);
    ScanWithoutAllocationFailure(Scan([], 0, false), Candidates(files), env.dupOk);
    assert [] + Parsed(Candidates(files)) == Parsed(Candidates(files));
  }

  /** The scandir filter of the all-loggers scan does not look at the match buffer. */
  lemma {:induction false} PortFileScanIgnoresMatch(entries: seq<DirEntry>, m1: string, m2: string, live: set<int>)
    ensures ScanDir(entries, IsPortFileFn, m1, live) == ScanDir(entries, IsPortFileFn, m2, live)
    decreases |entries|
  {
    if entries != [] {
      PortFileScanIgnoresMatch(entries[1..], m1, m2, live);
    }
  }

  /**
   Each call replaces the previous answer: two successful scans of the same
   machine give the same entries whatever the table held before.
   */
  lemma LocalScanOverwrites(t1: Table, t2: Table, pid: int32, env: LocalEnv)
    requires t1.Valid() && t2.Valid()
    requires FindLocal(t1, pid, true, env).result == SharedTable
    requires FindLocal(t2, pid, true, env).result == SharedTable
    ensures var r1 := FindLocal(t1, pid, true, env);
      var r2 := FindLocal(t2, pid, true, env);
      r1.sts == r2.sts && r1.table.slots[..r1.sts] == r2.table.slots[..r2.sts]
  {
    if pid == PM_LOG_ALL_PIDS {
      PortFileScanIgnoresMatch(env.dir.entries, t1.matchName, t2.matchName, env.live);
    }
  }

  /**
   A successful remote answer has at most one entry per fetched value and
   at most one for a single pid; no entry is the legacy instance, each has
   its instance's name, and for a single pid its pid is the one asked for.
   nlogports is left at 0.
   */
  lemma RemoteEntries(t: Table, pid: int32, env: RemoteEnv)
    requires t.Valid()
    requires RemoteQuery(t, pid, env).result == SharedTable
    ensures env.fetch.Values?
    ensures var r := RemoteQuery(t, pid, env);
      r.table.count == 0
      && r.sts <= |env.fetch.vlist|
      && (pid != PM_LOG_ALL_PIDS ==> r.sts <= 1)
      && forall k :: 0 <= k < r.sts ==>
        var p := r.table.slots[k];
        p.pid != LEGACY_INST && p.pid in env.names && p.name == Some(env.names[p.pid])
        && (pid != PM_LOG_ALL_PIDS ==> p.pid == pid)
  {
    var r := RemoteQuery(t, pid, env);
    var f := FillValues(env.fetch.vlist, pid, pid != PM_LOG_ALL_PIDS, env.names);
    FillValuesConsistent(env.fetch.vlist, pid, pid != PM_LOG_ALL_PIDS, env.names);
    assert r.table.slots[..r.sts] == f.filled;
    forall k | 0 <= k < r.sts
      ensures var p := r.table.slots[k];
        p.pid != LEGACY_INST && p.pid in env.names && p.name == Some(env.names[p.pid])
        && (pid != PM_LOG_ALL_PIDS ==> p.pid == pid)
    {
      assert r.table.slots[k] == f.filled[k] && f.filled[k] in f.filled;
    }
  }

  /**
   Asking a remote pmcd for every logger, when the query goes through and
   every instance has a name, gives one entry per fetched value other than
   the legacy instance.
   */
  lemma RemoteAllLoggers(t: Table, env: RemoteEnv)
    requires t.Valid()
    requires env.newContext >= 0 && env.lookupName >= 0 && env.lookupDesc >= 0
    requires env.fetch.Values? && |env.fetch.vlist| > 0
    requires env.mallocOk || |t.slots| >= |env.fetch.vlist|
    requires forall v :: v in env.fetch.vlist ==> v.inst in env.names
    ensures var r := RemoteQuery(t, PM_LOG_ALL_PIDS, env);
      var wanted := NonLegacy(env.fetch.vlist);
      r.result == SharedTable && r.sts == |wanted|
      && r.table.slots[..r.sts] == Entries(wanted, env.names)
  {
    var vl := env.fetch.vlist;
    FillAllInstances([], vl, env.names);
    assert [] + Entries(NonLegacy(vl), env.names) == Entries(NonLegacy(vl), env.names);
  }

  /** Asking a remote pmcd for one named logger that it reports gives exactly one entry, for that pid. */
  lemma RemoteOneLogger(t: Table, pid: int32, env: RemoteEnv)
    requires t.Valid()
    requires pid != PM_LOG_ALL_PIDS && pid != LEGACY_INST && pid in env.names
    requires env.newContext >= 0 && env.lookupName >= 0 && env.lookupDesc >= 0
    requires env.fetch.Values? && exists v :: v in env.fetch.vlist && v.inst == pid
    requires env.mallocOk || |t.slots| >= 1
    ensures var r := RemoteQuery(t, pid, env);
      r.result == SharedTable && r.sts == 1 && r.table.slots[0].pid == pid
      && r.table.slots[0].name == Some(env.names[pid])
  {
    FillFindsRequestedPid(env.fetch.vlist, pid, env.names);
  }

  /**
   Once the new context exists, every exit restores the previous context
   when there was one and then destroys the new one, and the fetched result
   is freed exactly when the fetch succeeded; before it exists, nothing is
   released and pmNewContext's error is returned.
   */
  lemma RemoteReleasesContext(t: Table, pid: int32, env: RemoteEnv)
    requires t.Valid()
    ensures var r := RemoteQuery(t, pid, env);
      (env.newContext < 0 ==> r.sts == env.newContext && r.cleanup == [] && r.table == t)
      && (env.newContext >= 0 ==>
            |r.cleanup| > 0 && r.cleanup[|r.cleanup| - 1] == DestroyContext(env.newContext)
            && (UseContext(env.oldctx) in r.cleanup <==> env.oldctx >= 0)
            && (FreeResult in r.cleanup <==>
                  env.lookupName >= 0 && env.lookupDesc >= 0 && !env.fetch.FetchFailed?))
  {
    var r := RemoteQuery(t, pid, env);
    if env.newContext >= 0 {
      var c := ContextCleanup(env);
      assert FreeResult !in c;
      assert r.cleanup == c || r.cleanup == [FreeResult] + c;
    }
  }

  /** As written, a failed fetch is reported as one port found, with a NULL result and the table untouched. */
  lemma FetchFailureReportsOne(t: Table, pid: int32, env: RemoteEnv)
    requires t.Valid()
    requires env.newContext >= 0 && env.lookupName >= 0 && env.lookupDesc >= 0 && env.fetch.FetchFailed?
    ensures var r := RemoteQuery(t, pid, env);
      r.sts == 1 && r.result == NullPtr && r.table == t
  {
  }

  /**
   "localhost" in any case is answered by the local scan, whatever the
   resolver and the remote pmcd would say, and no metrics-library call is made.
   */
  lemma LocalhostAnsweredLocally(t: Table, host: string, pid: int32, env: Env, otherHost: HostEnv, otherRemote: RemoteEnv)
    requires t.Valid() && StrCaseEq(host, "localhost")
    ensures FindPortSpec(t, host, pid, env) == FindPortSpec(t, host, pid, Env(otherHost, env.local, otherRemote))
    ensures FindPortSpec(t, host, pid, env).cleanup == []
    ensures FindPortSpec(t, host, pid, env).sts == FindLocal(t, pid, true, env.local).sts
  {
  }

  /**
   __pmLogFindPort routes on __pmIsLocalhost's verdict: an error is returned
   as it is, with NULL and the table untouched; "not local" is the remote
   query; "local" is the local scan, with no metrics-library call.
   */
  lemma FindPortRoutes(t: Table, host: string, pid: int32, env: Env)
    requires t.Valid()
    ensures var v := LocalhostVerdict(host, env.host);
      var r := FindPortSpec(t, host, pid, env);
      (v < 0 ==> r == PortReply(v, NullPtr, t, []))
      && (v == 0 ==> r == RemoteQuery(t, pid, env.remote))
      && (v > 0 ==>
            var l := FindLocal(t, pid, true, env.local);
            r.sts == l.sts && r.table == l.table && r.cleanup == []
            && (r.result == SharedTable <==> l.result == SharedTable))
  {
  }

  /** A table whose first slots were overwritten with w and whose other slots are those of b. */
  lemma Spliced(a: seq<LogPort>, b: seq<LogPort>, w: seq<LogPort>)
    requires |a| == |b| && |w| <= |a| && a[..|w|] == w
    requires forall k :: |w| <= k < |a| ==> a[k] == b[k]
    ensures a == w + b[|w|..]
  {
  }

  /**
   The loop of __pmLogFindPort over the fetched values, into the table's
   array a (logport), just resized for them: each wanted value gets the next slot, pid and port
   first and then the instance's name; an instance without a name leaves
   its slot with a NULL name and stops the loop, as does the first match
   when only one pid is wanted.
   */
  method CopyValues(a: array<LogPort>, vl: seq<PmValue>, pid: int32, findone: bool, names: map<int32, string>)
    returns (j: int, noName: bool)
    requires (if findone then 1 else |vl|) <= a.Length
    requires forall k :: 0 <= k < a.Length ==> a[k].pmcdHost.None? && a[k].archive.None?
    modifies a
    ensures var f := FillValues(vl, pid, findone, names);
      j == |f.filled| && noName == f.stop.NoName?
      && Used(f) <= a.Length && a[..Used(f)] == Written(f)
      && forall k :: Used(f) <= k < a.Length ==> a[k] == old(a[k])
  {
    j := 0;
    noName := false;
    ghost var target := FillValues(vl, pid, findone, names);
    var i := 0;
    while i < |vl|
      invariant 0 <= j <= i <= |vl| && (findone ==> j == 0)
      invariant FillFrom(Fill(a[..j], Scanning), vl[i..], pid, findone, names) == target
      invariant forall k :: j <= k < a.Length ==> a[k] == old(a[k])
    {
      ghost var next := Step(Fill(a[..j], Scanning), vl[i], pid, findone, names);
      assert vl[i..][0] == vl[i] && vl[i..][1..] == vl[i + 1..];
      assert FillFrom(next, vl[i + 1..], pid, findone, names) == target;
      var stop;
      j, stop := CopyValue(a, vl[i], j, pid, findone, names);
      if stop != Scanning {
        assert next == target;
        assert Used(target) <= a.Length;
        noName := stop.NoName?;
        return;
      }
      assert next == Fill(a[..j], Scanning);
      i := i + 1;
    }
    assert vl[i..] == [];
    assert target == Fill(a[..j], Scanning);
  }

  /**
   One fetched value: when wanted, the slot at j gets its pid and port and
   then the instance's name, or a NULL name when it has none.
   */
  method CopyValue(a: array<LogPort>, v: PmValue, j: int, pid: int32, findone: bool, names: map<int32, string>)
    returns (j': int, stop: Stop)
    requires 0 <= j < a.Length
    requires a[j].pmcdHost.None? && a[j].archive.None?
    modifies a
    ensures var f := Step(Fill(old(a[..j]), Scanning), v, pid, findone, names);
      j' == |f.filled| && stop == f.stop && a[..Used(f)] == Written(f)
      && forall k :: Used(f) <= k < a.Length ==> a[k] == old(a[k])
  {
    if v.inst == LEGACY_INST || (findone && v.inst != pid) {
      return j, Scanning;
    }
    ghost var copied := a[..j];
    a[j] := a[j].(pid := v.inst, port := v.lval);
    if v.inst !in names {
      a[j] := a[j].(name := None);
      assert a[..j + 1] == copied + [LogPort(v.inst, v.lval, None, None, None)];
      return j, NoName(v.inst, v.lval);
    }
    a[j] := a[j].(name := Some(names[v.inst]));
    assert a[..j + 1] == copied + [Entry(v, names)];
    return j + 1, if findone then FoundOne else Scanning;
  }

  /** The table of the pmlogger ports found by the last call, as the statics of logportmap.c. */
  class LogPortTable {
    var logport: array<LogPort>
    var nlogports: int
    var szlogport: int
    var matchName: string

    ghost function State(): Table
      reads this, logport
    {
      Table(logport[..], nlogports, matchName)
    }

    ghost predicate Valid()
      reads this, logport
    {
      szlogport == logport.Length && State().Valid()
    }

    /** The statics as the program starts: no array, nothing in use, an empty match buffer. */
    constructor ()
      ensures Valid() && State() == Table([], 0, "")
    {
      logport := new LogPort[0](_ => Unused);
      nlogports := 0;
      szlogport := 0;
      matchName := "";
    }

    /** resize_logports */
    method ResizeLogports(newsize: int, mallocOk: bool) returns (sts: int)
      requires Valid() && newsize >= 0
      modifies this, logport
      ensures Valid() && (logport == old(logport) || fresh(logport))
      ensures old(szlogport) >= newsize ==> logport == old(logport)
      ensures Resize(old(State()), newsize, mallocOk) == Resized(sts, State())
    {
      if nlogports != 0 {
        var i := 0;
        while i < nlogports
          invariant 0 <= i <= nlogports
          invariant logport[..] == Released(old(logport[..]), i)
          modifies logport
        {
          logport[i] := Unused;
          i := i + 1;
        }
      }
      nlogports := 0;
      if szlogport >= newsize {
        return 0;
      }
      if !mallocOk {
        logport := new LogPort[0](_ => Unused);
        szlogport := 0;
        return -1;
      }
      logport := new LogPort[newsize](_ => Unused);
      szlogport := newsize;
      return 0;
    }

    /**
     One candidate file: when it parses, its host and archive are duplicated
     (a failure leaves that field NULL) and then its name; the entry is
     written to the next slot and counted unless the name's strdup fails.
     dups counts the strdup calls made so far.
     */
    method RecordPortFile(name: string, parsed: Option<PortFileText>, dups: nat, dupOk: nat -> bool) returns (dups': nat, aborted: bool)
      requires 0 <= nlogports < logport.Length
      modifies this, logport
      ensures logport == old(logport) && szlogport == old(szlogport) && matchName == old(matchName)
      ensures old(nlogports) <= nlogports <= old(nlogports) + 1
      ensures Record(Scan(old(logport[..nlogports]), dups, false), Candidate(name, parsed), dupOk)
        == Scan(logport[..nlogports], dups', aborted)
      ensures forall k :: nlogports <= k < logport.Length ==> logport[k] == old(logport[k])
    {
      ghost var s := Scan(logport[..nlogports], dups, false);
      dups' := dups;
      if parsed.None? {
        return dups', false;
      }
      var text := parsed.value;
      var host: Option<string> := None;
      if text.host.Some? {
        if dupOk(dups') {
          host := text.host;
        }
        dups' := dups' + 1;
      }
      var archive: Option<string> := None;
      if text.archive.Some? {
        if dupOk(dups') {
          archive := text.archive;
        }
        dups' := dups' + 1;
      }
      var nameOk := dupOk(dups');
      dups' := dups' + 1;
      if !nameOk {
        return dups', true;
      }
      var entry := LogPort(text.pid, text.port, host, archive, Some(name));
      logport[nlogports] := entry;
      nlogports := nlogports + 1;
      assert logport[..nlogports] == s.ports + [entry];
      return dups', false;
    }

    /**
     The loop over the candidate files of __pmLogFindLocalPorts, into a table
     just resized for them: each file that parses is recorded in the next
     slot, and a failed strdup of a name stops the loop.
     */
    method ScanPortFiles(files: seq<DirEntry>, dupOk: nat -> bool) returns (aborted: bool)
      requires nlogports == 0 && |files| <= logport.Length
      modifies this, logport
      ensures logport == old(logport) && szlogport == old(szlogport) && matchName == old(matchName)
      ensures var s := ScanFiles(files, dupOk);
        aborted == s.aborted && nlogports == |s.ports| && logport[..nlogports] == s.ports
        && forall k :: nlogports <= k < logport.Length ==> logport[k] == old(logport[k])
    {
      ghost var cs := Candidates(files);
      aborted := false;
      var i := 0;
      var dups := 0;
      while i < |files|
        invariant 0 <= i <= |files|
        invariant logport == old(logport) && szlogport == old(szlogport) && matchName == old(matchName)
        invariant 0 <= nlogports <= i
        invariant ScanFrom(Scan(logport[..nlogports], dups, false), cs[i..], dupOk) == ScanFiles(files, dupOk)
        invariant forall k :: nlogports <= k < logport.Length ==> logport[k] == old(logport[k])
      {
        assert cs[i..][0] == cs[i] && cs[i..][1..] == cs[i + 1..];
        var parsed := ParseEntry(files[i]);
        assert cs[i] == Candidate(files[i].name, parsed);
        var stop;
        dups, stop := RecordPortFile(files[i].name, parsed, dups, dupOk);
        if stop {
          aborted := true;
          break;
        }
        i := i + 1;
      }
    }

    /**
     __pmLogFindLocalPorts; haveResult is false for a NULL result parameter,
     prior is what the result parameter held, and result what it holds after.
     */
    method FindLocalPorts(pid: int32, haveResult: bool, prior: array?<LogPort>, env: LocalEnv)
      returns (n: int, result: array?<LogPort>)
      requires Valid()
      modifies this, logport
      ensures Valid() && (logport == old(logport) || fresh(logport))
      ensures var r := FindLocal(old(State()), pid, haveResult, env);
        n == r.sts && State() == r.table
        && result == (if r.result == Untouched then prior else if r.result == NullPtr then null else logport)
    {
      if !haveResult {
        return -EINVAL, prior;
      }
      var scanfn := IsMatchFn;
      if pid == PM_LOG_PRIMARY_PID {
        matchName := PM_LOG_PRIMARY_LINK;
      } else if pid == PM_LOG_ALL_PIDS {
        scanfn := IsPortFileFn;
      } else {
        if pid !in env.live {
          return 0, null;
        }
        matchName := IntToDecimal(pid);
      }
      match env.dir {
        case Unreadable(e) =>
          return -(e as int), prior;
        case Listing(entries) =>
          var files := ScanDir(entries, scanfn, matchName, env.live);
          n, result := LoadPorts(files, prior, env.mallocOk, env.dupOk);
      }
    }

    /** The part of __pmLogFindLocalPorts after scandir: resize the table, then read the candidate files into it. */
    method LoadPorts(files: seq<DirEntry>, prior: array?<LogPort>, mallocOk: bool, dupOk: nat -> bool)
      returns (n: int, result: array?<LogPort>)
      requires Valid()
      modifies this, logport
      ensures Valid() && (logport == old(logport) || fresh(logport))
      ensures var r := LoadPortFiles(old(State()), files, mallocOk, dupOk);
        n == r.sts && State() == r.table
        && result == (if r.result == Untouched then prior else if r.result == NullPtr then null else logport)
    {
      var nf := |files|;
      var rs := ResizeLogports(nf, mallocOk);
      if rs < 0 {
        return -ENOMEM, prior;
      }
      if nf == 0 {
        return 0, null;
      }
      ghost var resized := logport[..];
      var aborted := ScanPortFiles(files, dupOk);
      Spliced(logport[..], resized, ScanFiles(files, dupOk).ports);
      if aborted {
        n := -ENOMEM;
        result := null;
      } else {
        n := nlogports;
        result := logport;
      }
    }

    /**
     The remote path of __pmLogFindPort; lpp is what the result parameter
     holds afterwards and cleanup the library calls that release the query.
     */
    method FindRemotePorts(pid: int32, env: RemoteEnv) returns (sts: int, lpp: array?<LogPort>, cleanup: seq<PmCall>)
      requires Valid()
      modifies this, logport
      ensures Valid() && (logport == old(logport) || fresh(logport))
      ensures var r := RemoteQuery(old(State()), pid, env);
        sts == r.sts && State() == r.table && cleanup == r.cleanup
        && lpp == (if r.result == SharedTable then logport else null)
    {
      lpp := null;
      cleanup := [];
      if env.newContext < 0 {
        return env.newContext, null, [];
      }
      var ctxErr := ContextCleanup(env);
      if env.lookupName < 0 {
        return env.lookupName, null, ctxErr;
      }
      if env.lookupDesc < 0 {
        return env.lookupDesc, null, ctxErr;
      }
      match env.fetch {
        case FetchFailed(_) =>
          return 1, null, ctxErr;
        case BadValueSet(numval) =>
          return numval, null, [FreeResult] + ctxErr;
        case Values(vl) =>
          sts, lpp := LoadFetched(vl, pid, env);
          cleanup := [FreeResult] + ctxErr;
      }
    }

    /** The copy of the fetched values of __pmLogFindPort, from the resize on. */
    method LoadFetched(vl: seq<PmValue>, pid: int32, env: RemoteEnv) returns (sts: int, lpp: array?<LogPort>)
      requires Valid()
      modifies this, logport
      ensures Valid() && (logport == old(logport) || fresh(logport))
      ensures var r := LoadValues(old(State()), vl, pid, env);
        sts == r.sts && State() == r.table && lpp == (if r.result == SharedTable then logport else null)
    {
      ghost var t := State();
      var findone := pid != PM_LOG_ALL_PIDS;
      if |vl| == 0 {
        return 0, null;
      }
      var rs := ResizeLogports(if findone then 1 else |vl|, env.mallocOk);
      if rs < 0 {
        return -ENOMEM, null;
      }
      ghost var resized := State();
      assert resized == Resize(t, if findone then 1 else |vl|, env.mallocOk).table;
      var j, noName := CopyValues(logport, vl, pid, findone, env.names);
      ghost var f := FillValues(vl, pid, findone, env.names);
      Spliced(logport[..], resized.slots, Written(f));
      FillValuesConsistent(vl, pid, findone, env.names);
      assert State() == resized.(slots := Written(f) + resized.slots[|Written(f)|..]);
      if noName {
        assert LoadValues(t, vl, pid, env) == Reply(env.nameErr, NullPtr, State());
        return env.nameErr, null;
      }
      assert LoadValues(t, vl, pid, env) == Reply(j, SharedTable, State());
      return j, logport;
    }

    /** __pmLogFindPort: lpp is what the result parameter holds afterwards. */
    method FindPort(host: string, pid: int32, env: Env) returns (sts: int, lpp: array?<LogPort>, cleanup: seq<PmCall>)
      requires Valid()
      modifies this, logport
      ensures Valid() && (logport == old(logport) || fresh(logport))
      ensures var r := FindPortSpec(old(State()), host, pid, env);
        sts == r.sts && State() == r.table && cleanup == r.cleanup
        && lpp == (if r.result == SharedTable then logport else null)
    {
      lpp := null;
      cleanup := [];
      var localcon := IsLocalhost(host, env.host);
      if localcon > 0 {
        sts, lpp := FindLocalPorts(pid, true, lpp, env.local);
        return;
      } else if localcon < 0 {
        return localcon, null, [];
      }
      sts, lpp, cleanup := FindRemotePorts(pid, env.remote);
    }
  }
}
