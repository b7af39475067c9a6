/**
 The remote half of __pmLogFindPort: what the metrics library answers
 (context, name and descriptor lookups, the fetch of pmcd.pmlogger.port and
 the instance names), and the scan of the fetched (instance, value) pairs
 into port entries.
 */
module Remote {
  import opened LibC
  import opened PortFile

  type NegStatus = x: int | x < 0 witness -1

  /** One value of the fetched metric: the instance (a pmlogger pid) and its port. */
  datatype PmValue = PmValue(inst: int32, lval: int32)

  /**
   pmFetch's outcome: a failure status, a value set whose numval is
   negative, or the values themselves (numval is their count).
   */
  datatype FetchReply = FetchFailed(sts: NegStatus) | BadValueSet(numval: NegStatus) | Values(vlist: seq<PmValue>)

  /**
   The library's answers for one remote query: pmWhichContext, pmNewContext
   (a handle, or a negative error), the status of pmLookupName and of
   pmLookupDesc, the fetch, pmNameInDom as a partial map with the status it
   returns for an instance it cannot name, and whether the resize's malloc
   succeeds.
   */
  datatype RemoteEnv = RemoteEnv(
    oldctx: int,
    newContext: int,
    lookupName: int,
    lookupDesc: int,
    fetch: FetchReply,
    names: map<int32, string>,
    nameErr: NegStatus,
    mallocOk: bool)

  /** The library calls made to release what the query acquired. */
  datatype PmCall = FreeResult | UseContext(ctx: int) | DestroyContext(ctx: int)

  /** The legacy pseudo-instance of old pmcd versions, never a logger. */
  const LEGACY_INST: int32 := 1

  /** A fetched value is copied: not the legacy instance, and the requested pid when only one is wanted. */
  predicate Keep(v: PmValue, pid: int32, findone: bool)
  {
    v.inst != LEGACY_INST && (!findone || v.inst == pid)
  }

  /**
   Every logger but the legacy instance is copied when all are wanted; when
   one pid is wanted only that pid is, so asking for the legacy instance by
   pid copies nothing.
   */
  lemma KeptValues(v: PmValue, pid: int32, findone: bool)
    ensures !findone ==> (Keep(v, pid, findone) <==> v.inst != LEGACY_INST)
    ensures findone ==> (Keep(v, pid, findone) <==> v.inst == pid && pid != LEGACY_INST)
  {
  }

  /** Why the scan of the values stopped: it did not, it found the one wanted, or an instance had no name. */
  datatype Stop = Scanning | FoundOne | NoName(inst: int32, lval: int32)

  /** The entries counted so far and whether the scan has stopped. */
  datatype Fill = Fill(filled: seq<LogPort>, stop: Stop)

  /** The number of slots the scan wrote: the counted ones and the one left without a name. */
  function Used(f: Fill): nat
  {
    |f.filled| + if f.stop.NoName? then 1 else 0
  }

  /** The entry of a named value: the instance as pid, the value as port, the instance's name. */
  function Entry(v: PmValue, names: map<int32, string>): LogPort
    requires v.inst in names
  {
    LogPort(v.inst, v.lval, None, None, Some(names[v.inst]))
  }

  /**
   What the scan promises at every point: each counted entry is a wanted
   instance with its name and no host or archive; at most one slot is used
   when one pid is wanted, and the scan has found it exactly when it holds
   one entry; an unnamed stop is at a wanted instance that has no name.
   */
  ghost predicate Consistent(f: Fill, pid: int32, findone: bool, names: map<int32, string>)
  {
    (forall p :: p in f.filled ==>
      p.pid != LEGACY_INST && (findone ==> p.pid == pid)
      && p.pid in names && p.name == Some(names[p.pid])
      && p.pmcdHost.None? && p.archive.None?)
    && (findone ==> Used(f) <= 1)
    && (f.stop == FoundOne <==> findone && |f.filled| == 1)
    && (f.stop.NoName? ==> f.stop.inst !in names && f.stop.inst != LEGACY_INST && (findone ==> f.stop.inst == pid))
  }

  /** One value: copied when the scan is still going and the value is wanted. */
  function Step(f: Fill, v: PmValue, pid: int32, findone: bool, names: map<int32, string>): (r: Fill)
    ensures Used(f) <= Used(r) <= Used(f) + 1
  {
    if f.stop != Scanning || !Keep(v, pid, findone) then f
    else if v.inst in names then Fill(f.filled + [Entry(v, names)], if findone then FoundOne else Scanning)
    else Fill(f.filled, NoName(v.inst, v.lval))
  }

  lemma StepConsistent(f: Fill, v: PmValue, pid: int32, findone: bool, names: map<int32, string>)
    requires Consistent(f, pid, findone, names)
    ensures Consistent(Step(f, v, pid, findone, names), pid, findone, names)
  {
  }

  /** The scan of the values in order from f0; once stopped, later values are not looked at. */
  function FillFrom(f0: Fill, vl: seq<PmValue>, pid: int32, findone: bool, names: map<int32, string>): (f: Fill)
    ensures Used(f0) <= Used(f) <= Used(f0) + |vl|
    ensures f0.stop != Scanning ==> f == f0
    decreases |vl|
  {
    if f0.stop != Scanning || vl == [] then f0
    else FillFrom(Step(f0, vl[0], pid, findone, names), vl[1..], pid, findone, names)
  }

  /** The scan keeps what it promises, value after value. */
  lemma {:induction false} FillConsistent(f0: Fill, vl: seq<PmValue>, pid: int32, findone: bool, names: map<int32, string>)
    requires Consistent(f0, pid, findone, names)
    ensures Consistent(FillFrom(f0, vl, pid, findone, names), pid, findone, names)
    decreases |vl|
  {
    if f0.stop == Scanning && vl != [] {
      StepConsistent(f0, vl[0], pid, findone, names);
      FillConsistent(Step(f0, vl[0], pid, findone, names), vl[1..], pid, findone, names);
    }
  }

  /** The scan of all the fetched values: it uses no more slots than were allocated for it. */
  function FillValues(vl: seq<PmValue>, pid: int32, findone: bool, names: map<int32, string>): (f: Fill)
    ensures Used(f) <= (if findone then 1 else |vl|) && Used(f) <= |vl|
  {
    FillConsistent(Fill([], Scanning), vl, pid, findone, names);
    FillFrom(Fill([], Scanning), vl, pid, findone, names)
  }

  /** The scan of all the fetched values keeps what the scan promises. */
  lemma FillValuesConsistent(vl: seq<PmValue>, pid: int32, findone: bool, names: map<int32, string>)
    ensures Consistent(FillValues(vl, pid, findone, names), pid, findone, names)
  {
    FillConsistent(Fill([], Scanning), vl, pid, findone, names);
  }

  /** The slots the scan wrote, in order: counted entries, then the unnamed one with a NULL name. */
  function Written(f: Fill): (w: seq<LogPort>)
    ensures |w| == Used(f)
  {
    match f.stop
    case NoName(inst, lval) => f.filled + [LogPort(inst, lval, None, None, None)]
    case _ => f.filled
  }

  /** The values other than the legacy instance, in order. */
  function NonLegacy(vl: seq<PmValue>): (r: seq<PmValue>)
    ensures |r| <= |vl|
    ensures forall i :: 0 <= i < |r| ==> r[i] in vl && r[i].inst != LEGACY_INST
    decreases |vl|
  {
    if vl == [] then []
    else (if vl[0].inst == LEGACY_INST then [] else [vl[0]]) + NonLegacy(vl[1..])
  }

  /** The entries of named values, in order. */
  function Entries(vl: seq<PmValue>, names: map<int32, string>): (r: seq<LogPort>)
    requires forall v :: v in vl ==> v.inst in names
    ensures |r| == |vl|
    decreases |vl|
  {
    if vl == [] then [] else [Entry(vl[0], names)] + Entries(vl[1..], names)
  }

  lemma {:induction false} EntriesAppend(a: seq<PmValue>, b: seq<PmValue>, names: map<int32, string>)
    requires forall v :: v in a ==> v.inst in names
    requires forall v :: v in b ==> v.inst in names
    ensures Entries(a + b, names) == Entries(a, names) + Entries(b, names)
    decreases |a|
  {
    if a == [] {
      assert a + b == b;
    } else {
      assert (a + b)[0] == a[0] && (a + b)[1..] == a[1..] + b;
      assert forall v :: v in a[1..] ==> v in a;
      EntriesAppend(a[1..], b, names);
    }
  }

  /** One named value of a scan for every logger: its entry is added unless it is the legacy instance. */
  lemma StepAllLoggers(ps: seq<LogPort>, v: PmValue, names: map<int32, string>)
    requires v.inst in names
    ensures Step(Fill(ps, Scanning), v, PM_LOG_ALL_PIDS, false, names)
      == Fill(ps + Entries(if v.inst == LEGACY_INST then [] else [v], names), Scanning)
  {
    if v.inst != LEGACY_INST {
      assert [v][1..] == [];
    }
  }

  /**
   Asking for every logger when every instance has a name gives the entries
   of the values other than the legacy instance, in the order fetched.
   */
  lemma {:induction false} FillAllInstances(ps: seq<LogPort>, vl: seq<PmValue>, names: map<int32, string>)
    requires forall v :: v in vl ==> v.inst in names
    ensures FillFrom(Fill(ps, Scanning), vl, PM_LOG_ALL_PIDS, false, names) == Fill(ps + Entries(NonLegacy(vl), names), Scanning)
    decreases |vl|
  {
    if vl == [] {
      assert ps + [] == ps;
    } else {
      var v, tail := vl[0], vl[1..];
      assert v in vl;
      assert forall w :: w in tail ==> w.inst in names by {
        forall w | w in tail
          ensures w.inst in names
        {
          assert w in vl;
        }
      }
      var first := if v.inst == LEGACY_INST then [] else [v];
      StepAllLoggers(ps, v, names);
      var ps1 := ps + Entries(first, names);
      FillAllInstances(ps1, tail, names);
      NonLegacyEntries(ps, vl, names);
    }
  }

  /** The values kept are exactly the fetched values other than the legacy instance. */
  lemma {:induction false} NonLegacyMembers(vl: seq<PmValue>)
    ensures forall v :: v in NonLegacy(vl) <==> v in vl && v.inst != LEGACY_INST
    decreases |vl|
  {
    if vl != [] {
      NonLegacyMembers(vl[1..]);
      assert forall v :: v in vl <==> v == vl[0] || v in vl[1..];
    }
  }

  /** The values are kept in fetch order: filtering splits over concatenation. */
  lemma {:induction false} NonLegacyAppend(a: seq<PmValue>, b: seq<PmValue>)
    ensures NonLegacy(a + b) == NonLegacy(a) + NonLegacy(b)
    decreases |a|
  {
    if a == [] {
      assert a + b == b;
    } else {
      assert (a + b)[0] == a[0] && (a + b)[1..] == a[1..] + b;
      NonLegacyAppend(a[1..], b);
      if a[0].inst == LEGACY_INST {
        assert NonLegacy(a + b) == NonLegacy(a[1..] + b);
      } else {
        assert NonLegacy(a + b) == [a[0]] + NonLegacy(a[1..] + b);
        assert [a[0]] + (NonLegacy(a[1..]) + NonLegacy(b)) == ([a[0]] + NonLegacy(a[1..])) + NonLegacy(b);
      }
    }
  }

  lemma NonLegacyEntries(ps: seq<LogPort>, vl: seq<PmValue>, names: map<int32, string>)
    requires vl != [] && forall v :: v in vl ==> v.inst in names
    ensures var first := if vl[0].inst == LEGACY_INST then [] else [vl[0]];
      (forall v :: v in NonLegacy(vl[1..]) ==> v.inst in names)
      && ps + Entries(NonLegacy(vl), names) == ps + Entries(first, names) + Entries(NonLegacy(vl[1..]), names)
  {
    var first := if vl[0].inst == LEGACY_INST then [] else [vl[0]];
    var rest := NonLegacy(vl[1..]);
    assert NonLegacy(vl) == first + rest;
    assert vl[0] in vl;
    EntriesAppend(first, rest, names);
  }

  /** With no value for pid, a single-pid scan finds nothing. */
  lemma {:induction false} FillNoneYet(vl: seq<PmValue>, pid: int32, names: map<int32, string>)
    requires forall v :: v in vl ==> v.inst != pid
    ensures FillFrom(Fill([], Scanning), vl, pid, true, names) == Fill([], Scanning)
    decreases |vl|
  {
    if vl != [] {
      assert vl[0] in vl;
      assert forall v :: v in vl[1..] ==> v in vl;
      FillNoneYet(vl[1..], pid, names);
    }
  }

  /**
   Asking for one named pid other than the legacy instance that appears among
   the values gives exactly one entry: that pid, with the port of its first value.
   */
  lemma {:induction false} FillFindsRequestedPid(vl: seq<PmValue>, pid: int32, names: map<int32, string>)
    requires pid != LEGACY_INST && pid in names
    requires exists v :: v in vl && v.inst == pid
    ensures var f := FillFrom(Fill([], Scanning), vl, pid, true, names);
      f.stop == FoundOne && |f.filled| == 1 && f.filled[0].pid == pid
      && (exists i :: 0 <= i < |vl| && vl[i].inst == pid && (forall x :: 0 <= x < i ==> vl[x].inst != pid)
            && f.filled[0] == Entry(vl[i], names))
    decreases |vl|
  {
    var v := vl[0];
    if v.inst != pid {
      var w :| w in vl && w.inst == pid;
      assert w in vl[1..];
      FillFindsRequestedPid(vl[1..], pid, names);
      var f := FillFrom(Fill([], Scanning), vl[1..], pid, true, names);
      var j :| 0 <= j < |vl[1..]| && vl[1..][j].inst == pid && (forall x :: 0 <= x < j ==> vl[1..][x].inst != pid)
        && f.filled[0] == Entry(vl[1..][j], names);
      assert vl[j + 1] == vl[1..][j];
      assert forall x :: 0 < x < j + 1 ==> vl[x] == vl[1..][x - 1];
    }
  }

  /** Some value the scan wants has an instance that pmNameInDom cannot name. */
  predicate UnnamedWanted(vl: seq<PmValue>, pid: int32, findone: bool, names: map<int32, string>)
  {
    exists v :: v in vl && Keep(v, pid, findone) && v.inst !in names
  }

  /**
   The scan stops without a name exactly when some wanted value has an
   instance that pmNameInDom cannot name, whatever values come before it.
   */
  lemma {:induction false} FillStopsAtUnnamed(f0: Fill, vl: seq<PmValue>, pid: int32, findone: bool, names: map<int32, string>)
    requires f0.stop == Scanning
    ensures FillFrom(f0, vl, pid, findone, names).stop.NoName? <==> UnnamedWanted(vl, pid, findone, names)
    decreases |vl|
  {
    if vl != [] {
      var w := vl[0];
      var f1 := Step(f0, w, pid, findone, names);
      if Keep(w, pid, findone) && w.inst !in names {
        assert w in vl;
      } else if f1.stop == Scanning {
        FillStopsAtUnnamed(f1, vl[1..], pid, findone, names);
        assert forall v :: v in vl ==> v == w || v in vl[1..];
        assert forall v :: v in vl[1..] ==> v in vl;
      } else {
        assert f1.stop == FoundOne && findone && w.inst == pid && pid in names;
        assert forall v :: v in vl && Keep(v, pid, findone) ==> v.inst == pid;
      }
    }
  }
}
