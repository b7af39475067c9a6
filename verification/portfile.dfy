/**
 The pmlogger control-port files of the local scan: which directory entries
 are candidates (is_portfile and is_match), how one port file is read into a
 port record, and the scan over the candidates in directory order.
 */
module PortFile {
  import opened LibC

  /** Symbolic pid asking for the primary logger. */
  const PM_LOG_PRIMARY_PID: int32 := 0
  /** Symbolic pid asking for every logger. */
  const PM_LOG_ALL_PIDS: int32 := -1
  /** The pid recorded for the primary logger's port file. */
  const PM_LOG_PRIMARY_PORT: int32 := 0
  /** The fixed name of the primary logger's port file. */
  const PM_LOG_PRIMARY_LINK: string := "primary"

  /** One __pmLogPort entry; a NULL string is None. */
  datatype LogPort = LogPort(
    pid: int32,
    port: int32,
    pmcdHost: Option<string>,
    archive: Option<string>,
    name: Option<string>)

  /** The all-zero entry that memset leaves. */
  const Unused := LogPort(0, 0, None, None, None)

  /** A directory entry and the text of the file, None when fopen fails. */
  datatype DirEntry = DirEntry(name: string, content: Option<string>)

  /** Which scandir filter the scan uses. */
  datatype ScanFn = IsMatchFn | IsPortFileFn

  /** The pid a file name denotes: (int)strtol(name, &endp, 10). */
  function NameValue(name: string): int32
  {
    ToCInt(StrToL(name).0)
  }

  /**
   is_portfile: a name whose leading number is a pid above 1 is a candidate
   when that process exists; any other name only when it is the primary
   logger's name. The end pointer is not checked.
   */
  function IsPortFile(name: string, live: set<int>): (b: bool)
    ensures b <==> (NameValue(name) > 1 && NameValue(name) in live) || name == PM_LOG_PRIMARY_LINK
  {
    PrimaryLinkHasNoNumber();
    var pid := NameValue(name);
    if pid > 1 then pid in live else name == PM_LOG_PRIMARY_LINK
  }

  /** is_match: strcmp finds the name equal, character by character, to the contents of the static match buffer. */
  function IsMatch(matchName: string, name: string): (b: bool)
    ensures b <==> |name| == |matchName| && forall i :: 0 <= i < |name| ==> name[i] == matchName[i]
  {
    matchName == name
  }

  predicate Selects(fn: ScanFn, matchName: string, live: set<int>, name: string)
  {
    match fn
    case IsMatchFn => IsMatch(matchName, name)
    case IsPortFileFn => IsPortFile(name, live)
  }

  /** scandir's filtering of a listing that is already in alphasort order. */
  function ScanDir(entries: seq<DirEntry>, fn: ScanFn, matchName: string, live: set<int>): (files: seq<DirEntry>)
    ensures |files| <= |entries|
    ensures forall i :: 0 <= i < |files| ==> files[i] in entries && Selects(fn, matchName, live, files[i].name)
  {
    if entries == [] then []
    else
      var rest := ScanDir(entries[1..], fn, matchName, live);
      if Selects(fn, matchName, live, entries[0].name) then [entries[0]] + rest else rest
  }

  /** scandir keeps exactly the listed entries that the filter selects. */
  lemma {:induction false} ScanDirSelects(entries: seq<DirEntry>, fn: ScanFn, matchName: string, live: set<int>)
    ensures var files := ScanDir(entries, fn, matchName, live);
      (forall f :: f in files ==> f in entries && Selects(fn, matchName, live, f.name))
      && (forall e :: e in entries && Selects(fn, matchName, live, e.name) ==> e in files)
    decreases |entries|
  {
    if entries != [] {
      ScanDirSelects(entries[1..], fn, matchName, live);
      assert forall e :: e in entries ==> e == entries[0] || e in entries[1..];
    }
  }

  /** scandir filters a listing piece by piece: the selected entries keep the listing's order. */
  lemma {:induction false} ScanDirAppend(a: seq<DirEntry>, b: seq<DirEntry>, fn: ScanFn, matchName: string, live: set<int>)
    ensures ScanDir(a + b, fn, matchName, live) == ScanDir(a, fn, matchName, live) + ScanDir(b, fn, matchName, live)
    decreases |a|
  {
    if a == [] {
      assert a + b == b;
    } else {
      assert a + b != [] && (a + b)[0] == a[0] && (a + b)[1..] == a[1..] + b;
      ScanDirAppend(a[1..], b, fn, matchName, live);
      var x, y := ScanDir(a[1..], fn, matchName, live), ScanDir(b, fn, matchName, live);
      if Selects(fn, matchName, live, a[0].name) {
        calc {
          ScanDir(a + b, fn, matchName, live);
          [a[0]] + ScanDir(a[1..] + b, fn, matchName, live);
          [a[0]] + (x + y);
          ([a[0]] + x) + y;
        }
      } else {
        calc {
          ScanDir(a + b, fn, matchName, live);
          ScanDir(a[1..] + b, fn, matchName, live);
        }
      }
    }
  }

  /** One listed entry is kept exactly when the filter selects it. */
  lemma ScanDirOne(e: DirEntry, fn: ScanFn, matchName: string, live: set<int>)
    ensures ScanDir([e], fn, matchName, live) == if Selects(fn, matchName, live, e.name) then [e] else []
  {
  }

  /**
   The port on a first line: strtol's value when its end pointer stops at
   the line's '\n', None otherwise.
   */
  function PortLine(line: string): (r: Option<int32>)
    ensures r.Some? <==> StrToL(line).1 < |line| && line[StrToL(line).1] == '\n'
    ensures r.Some? ==> r.value == ToCInt(StrToL(line).0)
    ensures (forall i :: 0 <= i < |line| - 1 ==> line[i] != '\n') && r.Some? ==>
      StrToL(line).1 == |line| - 1 && line[|line| - 1] == '\n'
  {
    var (v, e) := StrToL(line);
    if e < |line| && line[e] == '\n' then Some(ToCInt(v)) else None
  }

  /**
   The pid of a port file: the file name's value when the whole name is a
   number, PM_LOG_PRIMARY_PORT for the primary logger's name, None otherwise.
   */
  function NamePid(name: string): (r: Option<int32>)
    ensures r.Some? <==> StrToL(name).1 == |name| || name == PM_LOG_PRIMARY_LINK
    ensures StrToL(name).1 == |name| ==> r == Some(ToCInt(StrToL(name).0))
    ensures name == PM_LOG_PRIMARY_LINK ==> r == Some(PM_LOG_PRIMARY_PORT)
  {
    PrimaryLinkHasNoNumber();
    var (v, e) := StrToL(name);
    if e == |name| then Some(ToCInt(v))
    else if name == PM_LOG_PRIMARY_LINK then Some(PM_LOG_PRIMARY_PORT)
    else None
  }

  /** What one port file yields before its strings are duplicated. */
  datatype PortFileText = PortFileText(pid: int32, port: int32, host: Option<string>, archive: Option<string>)

  /**
   Reading one port file: line 1 is the port, line 2 the PMCD host and
   line 3 the archive base name, each optional line cut at its '\n'.
   None when the file is empty, has no port number, or has an
   unrecognised name.
   */
  function ReadPortFile(name: string, content: string): (r: Option<PortFileText>)
    ensures r.Some? ==> content != []
    ensures r.Some? && r.value.host.Some? ==> '\n' !in r.value.host.value
    ensures r.Some? && r.value.archive.Some? ==> r.value.host.Some? && '\n' !in r.value.archive.value
  {
    match FGets(content, 0)
    case None => None
    case Some((line1, e1)) =>
      match PortLine(line1)
      case None => None
      case Some(port) =>
        match NamePid(name)
        case None => None
        case Some(pid) =>
          match FGets(content, e1)
          case None => Some(PortFileText(pid, port, None, None))
          case Some((line2, e2)) =>
            var archive := match FGets(content, e2)
              case None => None
              case Some((line3, _)) => Some(CutAtNewline(line3));
            Some(PortFileText(pid, port, Some(CutAtNewline(line2)), archive))
  }

  /**
   An accepted file has a first line, and its port is what that line gives;
   its pid is what its name gives; its host and archive are its second and
   third lines, cut at their '\n', when those lines exist.
   */
  lemma ReadPortFileFields(name: string, content: string)
    requires ReadPortFile(name, content).Some?
    ensures var r := ReadPortFile(name, content).value;
      FGets(content, 0).Some?
      && PortLine(FGets(content, 0).value.0) == Some(r.port)
      && NamePid(name) == Some(r.pid)
      && var e1 := FGets(content, 0).value.1;
      (r.host.Some? <==> FGets(content, e1).Some?)
      && (r.host.Some? ==>
            r.host.value == CutAtNewline(FGets(content, e1).value.0)
            && var e2 := FGets(content, e1).value.1;
            (r.archive.Some? <==> FGets(content, e2).Some?)
            && (r.archive.Some? ==> r.archive.value == CutAtNewline(FGets(content, e2).value.0)))
  {
  }

  /** The pid of an entry is the one its file name denotes. */
  lemma ParsedPid(f: DirEntry)
    requires ParseEntry(f).Some?
    ensures NamePid(f.name) == Some(ParseEntry(f).value.pid)
  {
  }

  function ParseEntry(f: DirEntry): Option<PortFileText>
  {
    match f.content
    case None => None
    case Some(text) => ReadPortFile(f.name, text)
  }

  /** A candidate file as the scan sees it: its name and what reading it yields. */
  datatype Candidate = Candidate(name: string, parsed: Option<PortFileText>)

  /** Entry p was read from directory entry f. */
  predicate ReadFrom(f: DirEntry, p: LogPort)
  {
    Recorded(Candidate(f.name, ParseEntry(f)), p)
  }

  /** The candidate files, each read in turn. */
  function Candidates(files: seq<DirEntry>): (cs: seq<Candidate>)
    ensures |cs| == |files|
    ensures forall i :: 0 <= i < |files| ==> cs[i] == Candidate(files[i].name, ParseEntry(files[i]))
  {
    seq(|files|, i requires 0 <= i < |files| => Candidate(files[i].name, ParseEntry(files[i])))
  }

  /**
   The scan so far: the entries counted, how many strdup calls were made,
   and whether a failed strdup of a name stopped it.
   */
  datatype Scan = Scan(ports: seq<LogPort>, dups: nat, aborted: bool)

  /**
   One candidate file: skipped when it does not parse; otherwise its host
   and archive are duplicated (a failure leaves that field NULL) and then
   its name, whose failure stops the scan without counting the entry.
   dupOk(k) is whether the k-th strdup succeeds.
   */
  function Record(s: Scan, c: Candidate, dupOk: nat -> bool): (r: Scan)
    ensures |s.ports| <= |r.ports| <= |s.ports| + 1 && r.ports[..|s.ports|] == s.ports
    ensures |r.ports| > |s.ports| ==> Recorded(c, r.ports[|s.ports|])
    ensures c.parsed.None? ==> r == s
  {
    match c.parsed
    case None => s
    case Some(t) =>
      var k0 := s.dups;
      var host := if t.host.Some? && dupOk(k0) then t.host else None;
      var k1 := if t.host.Some? then k0 + 1 else k0;
      var archive := if t.archive.Some? && dupOk(k1) then t.archive else None;
      var k2 := if t.archive.Some? then k1 + 1 else k1;
      if dupOk(k2) then Scan(s.ports + [LogPort(t.pid, t.port, host, archive, Some(c.name))], k2 + 1, false)
      else Scan(s.ports, k2 + 1, true)
  }

  /** Entry p was read from candidate c: the parsed pid and port, its own name, and the file's strings or NULL. */
  predicate Recorded(c: Candidate, p: LogPort)
  {
    match c.parsed
    case None => false
    case Some(t) =>
      p.pid == t.pid && p.port == t.port && p.name == Some(c.name)
      && (p.pmcdHost == t.host || p.pmcdHost.None?)
      && (p.archive == t.archive || p.archive.None?)
  }

  /** The scan of the candidates, in order, starting from s0; it stops at the first abort. */
  function ScanFrom(s0: Scan, cs: seq<Candidate>, dupOk: nat -> bool): (s: Scan)
    ensures |s0.ports| <= |s.ports| <= |s0.ports| + |cs|
    ensures s0.aborted ==> s == s0
    decreases |cs|
  {
    if s0.aborted || cs == [] then s0
    else ScanFrom(Record(s0, cs[0], dupOk), cs[1..], dupOk)
  }

  /** The scan of the candidate files of the local directory. */
  function ScanFiles(files: seq<DirEntry>, dupOk: nat -> bool): Scan
  {
    ScanFrom(Scan([], 0, false), Candidates(files), dupOk)
  }

  /** Every entry the scan adds was read from one of the candidates. */
  lemma ScanRecords(s0: Scan, cs: seq<Candidate>, dupOk: nat -> bool)
    ensures var s := ScanFrom(s0, cs, dupOk);
      forall p :: p in s.ports[|s0.ports|..] ==> exists c :: c in cs && Recorded(c, p)
  {
    var s := ScanFrom(s0, cs, dupOk);
    var added := s.ports[|s0.ports|..];
    forall p | p in added
      ensures exists c :: c in cs && Recorded(c, p)
    {
      var j :| 0 <= j < |added| && added[j] == p;
      var i := ScanSource(s0, cs, dupOk, |s0.ports| + j);
      assert cs[i] in cs && Recorded(cs[i], p);
    }
  }

  /** The scan never changes the entries already counted. */
  lemma {:induction false} ScanKeepsPrefix(s0: Scan, cs: seq<Candidate>, dupOk: nat -> bool)
    ensures ScanFrom(s0, cs, dupOk).ports[..|s0.ports|] == s0.ports
    decreases |cs|
  {
    if !s0.aborted && cs != [] {
      var s1 := Record(s0, cs[0], dupOk);
      ScanKeepsPrefix(s1, cs[1..], dupOk);
      var s := ScanFrom(s1, cs[1..], dupOk);
      assert s.ports[..|s0.ports|] == s.ports[..|s1.ports|][..|s0.ports|];
    }
  }

  /** The index of the candidate that the k-th entry of a scan was read from. */
  lemma {:induction false} ScanSource(s0: Scan, cs: seq<Candidate>, dupOk: nat -> bool, k: int) returns (i: int)
    requires |s0.ports| <= k < |ScanFrom(s0, cs, dupOk).ports|
    ensures 0 <= i < |cs| && Recorded(cs[i], ScanFrom(s0, cs, dupOk).ports[k])
    decreases |cs|
  {
    var s1 := Record(s0, cs[0], dupOk);
    var s := ScanFrom(s1, cs[1..], dupOk);
    assert ScanFrom(s0, cs, dupOk) == s;
    if k < |s1.ports| {
      ScanKeepsPrefix(s1, cs[1..], dupOk);
      assert s.ports[k] == s.ports[..|s1.ports|][k] == s1.ports[k];
      i := 0;
    } else {
      var j := ScanSource(s1, cs[1..], dupOk, k);
      i := j + 1;
    }
  }

  /** Scanning a + b is scanning a and then b from where a left off. */
  lemma {:induction false} ScanAppend(s0: Scan, a: seq<Candidate>, b: seq<Candidate>, dupOk: nat -> bool)
    ensures ScanFrom(s0, a + b, dupOk) == ScanFrom(ScanFrom(s0, a, dupOk), b, dupOk)
    decreases |a|
  {
    if a == [] {
      assert a + b == b;
    } else if !s0.aborted {
      assert (a + b)[0] == a[0] && (a + b)[1..] == a[1..] + b;
      ScanAppend(Record(s0, a[0], dupOk), a[1..], b, dupOk);
    }
  }

  /** A file that does not parse is skipped: the scan is as if it were not there. */
  lemma MalformedFileSkipped(a: seq<Candidate>, c: Candidate, b: seq<Candidate>, s0: Scan, dupOk: nat -> bool)
    requires c.parsed.None?
    ensures ScanFrom(s0, a + [c] + b, dupOk) == ScanFrom(s0, a + b, dupOk)
  {
    ScanAppend(s0, a + [c], b, dupOk);
    ScanAppend(s0, a, [c], dupOk);
    ScanAppend(s0, a, b, dupOk);
    assert [c][1..] == [];
  }

  /** The candidates of a + b are those of a followed by those of b. */
  lemma CandidatesAppend(a: seq<DirEntry>, b: seq<DirEntry>)
    ensures Candidates(a + b) == Candidates(a) + Candidates(b)
  {
    var l, r := Candidates(a + b), Candidates(a) + Candidates(b);
    forall i | 0 <= i < |a + b|
      ensures l[i] == r[i]
    {
      if i < |a| {
        assert (a + b)[i] == a[i];
      } else {
        assert (a + b)[i] == b[i - |a|];
      }
    }
  }

  /** A directory entry that cannot be opened or parsed is skipped: the scan is as if it were not listed. */
  lemma UnreadableFileSkipped(a: seq<DirEntry>, f: DirEntry, b: seq<DirEntry>, dupOk: nat -> bool)
    requires ParseEntry(f).None?
    ensures ScanFiles(a + [f] + b, dupOk) == ScanFiles(a + b, dupOk)
  {
    CandidatesAppend(a + [f], b);
    CandidatesAppend(a, [f]);
    CandidatesAppend(a, b);
    var c := Candidate(f.name, ParseEntry(f));
    assert Candidates([f]) == [c];
    MalformedFileSkipped(Candidates(a), c, Candidates(b), Scan([], 0, false), dupOk);
  }

  /** The entry of a candidate that parses, with all its strings duplicated; nothing for one that does not. */
  function FullEntry(c: Candidate): seq<LogPort>
  {
    match c.parsed
    case None => []
    case Some(t) => [LogPort(t.pid, t.port, t.host, t.archive, Some(c.name))]
  }

  /** The entries of every candidate that parses, in order, with all strings duplicated. */
  function Parsed(cs: seq<Candidate>): seq<LogPort>
    decreases |cs|
  {
    if cs == [] then [] else FullEntry(cs[0]) + Parsed(cs[1..])
  }

  /** When no strdup fails, a candidate adds its full entry. */
  lemma RecordWithoutAllocationFailure(s: Scan, c: Candidate, dupOk: nat -> bool)
    requires forall k :: dupOk(k)
    requires !s.aborted
    ensures var r := Record(s, c, dupOk); r == Scan(s.ports + FullEntry(c), r.dups, false)
  {
  }

  /**
   The strdup of a parsed file's name is the one after those of its host
   and archive: when it fails the scan stops and the entry is not counted,
   otherwise exactly one entry is counted.
   */
  lemma NameDupFailureAborts(s: Scan, c: Candidate, dupOk: nat -> bool)
    requires c.parsed.Some?
    ensures var t := c.parsed.value;
      var k := s.dups + (if t.host.Some? then 1 else 0) + (if t.archive.Some? then 1 else 0);
      var r := Record(s, c, dupOk);
      (r.aborted <==> !dupOk(k))
      && (r.aborted ==> r.ports == s.ports)
      && (!r.aborted ==> |r.ports| == |s.ports| + 1)
  {
  }

  /** One step of the scan, unfolded. */
  lemma ScanStep(s0: Scan, cs: seq<Candidate>, dupOk: nat -> bool)
    requires !s0.aborted && cs != []
    ensures ScanFrom(s0, cs, dupOk) == ScanFrom(Record(s0, cs[0], dupOk), cs[1..], dupOk)
  {
  }

  lemma ParsedStep(cs: seq<Candidate>)
    requires cs != []
    ensures Parsed(cs) == FullEntry(cs[0]) + Parsed(cs[1..])
  {
  }

  /** When no strdup fails, every candidate that parses is counted, in directory order, with its host and archive. */
  lemma {:induction false} ScanWithoutAllocationFailure(s0: Scan, cs: seq<Candidate>, dupOk: nat -> bool)
    requires forall k :: dupOk(k)
    requires !s0.aborted
    ensures ScanFrom(s0, cs, dupOk).ports == s0.ports + Parsed(cs)
    ensures !ScanFrom(s0, cs, dupOk).aborted
    decreases |cs|
  {
    if cs == [] {
      assert s0.ports + [] == s0.ports;
    } else {
      var s1 := Record(s0, cs[0], dupOk);
      RecordWithoutAllocationFailure(s0, cs[0], dupOk);
      ScanWithoutAllocationFailure(s1, cs[1..], dupOk);
      ScanStep(s0, cs, dupOk);
      ParsedStep(cs);
      assert s0.ports + (FullEntry(cs[0]) + Parsed(cs[1..])) == (s0.ports + FullEntry(cs[0])) + Parsed(cs[1..]);
    }
  }

  /** The primary logger's name has no leading number: strtol stops at its first character with 0. */
  lemma PrimaryLinkHasNoNumber()
    ensures StrToL(PM_LOG_PRIMARY_LINK) == (0, 0)
  {
    assert SkipSpace(PM_LOG_PRIMARY_LINK, 0) == 0;
    assert DigitRun(PM_LOG_PRIMARY_LINK, 0) == 0;
  }

  /** The primary logger's file records PM_LOG_PRIMARY_PORT as its pid. */
  lemma PrimaryLinkValue()
    ensures NameValue(PM_LOG_PRIMARY_LINK) == 0
    ensures NamePid(PM_LOG_PRIMARY_LINK) == Some(PM_LOG_PRIMARY_PORT)
  {
    PrimaryLinkHasNoNumber();
  }

  /** The file of a pid above 1 is a candidate of the all-loggers scan exactly when that process exists. */
  lemma StalePortFileExcluded(pid: int32, live: set<int>)
    requires pid > 1
    ensures IsPortFile(IntToDecimal(pid), live) <==> pid in live
  {
    IntToDecimalRoundTrip(pid, []);
    assert IntToDecimal(pid) + [] == IntToDecimal(pid);
  }

  /** A file named by a pid's decimal rendering records that pid. */
  lemma NamePidOfDecimal(pid: int32)
    ensures NamePid(IntToDecimal(pid)) == Some(pid)
  {
    IntToDecimalRoundTrip(pid, []);
    assert IntToDecimal(pid) + [] == IntToDecimal(pid);
  }

  /** A first line that is a port's decimal rendering and its newline gives that port. */
  lemma PortLineOfDecimal(port: int32)
    ensures PortLine(IntToDecimal(port) + "\n") == Some(port)
  {
    IntToDecimalRoundTrip(port, "\n");
  }

  /**
   Writing a port file as pmlogger does (port, PMCD host and archive, one
   per line) and reading it back gives the same fields.
   */
  lemma PortFileRoundTrip(pid: int32, port: int32, host: string, archive: string)
    requires '\n' !in host && '\n' !in archive
    ensures ReadPortFile(IntToDecimal(pid), IntToDecimal(port) + "\n" + host + "\n" + archive + "\n")
            == Some(PortFileText(pid, port, Some(host), Some(archive)))
  {
    var p := IntToDecimal(port);
    var c := p + "\n" + host + "\n" + archive + "\n";
    FGetsLine(p, host + "\n" + archive + "\n", []);
    assert [] + p + "\n" + (host + "\n" + archive + "\n") == c;
    FGetsLine(host, archive + "\n", p + "\n");
    assert p + "\n" + host + "\n" + (archive + "\n") == c;
    FGetsLine(archive, [], p + "\n" + host + "\n");
    assert p + "\n" + host + "\n" + archive + "\n" + [] == c;
    PortLineOfDecimal(port);
    NamePidOfDecimal(pid);
    CutAtNewlineOfLine(host);
    CutAtNewlineOfLine(archive);
  }

  /** A file holding only its port line gives an entry with no PMCD host and no archive. */
  lemma PortOnlyFile(pid: int32, port: int32)
    ensures ReadPortFile(IntToDecimal(pid), IntToDecimal(port) + "\n") == Some(PortFileText(pid, port, None, None))
  {
    var p := IntToDecimal(port);
    FGetsLine(p, [], []);
    assert [] + p + "\n" + [] == p + "\n";
    PortLineOfDecimal(port);
    NamePidOfDecimal(pid);
  }

  /**
   The optional lines never drop an entry: a file accepted on its port line
   alone is accepted with the same pid and port whatever follows that line,
   and it has a PMCD host exactly when something follows.
   */
  lemma OptionalLinesKeepEntry(name: string, line: string, rest: string)
    requires '\n' !in line
    requires ReadPortFile(name, line + "\n").Some?
    ensures var r := ReadPortFile(name, line + "\n" + rest);
      var t := ReadPortFile(name, line + "\n").value;
      r.Some? && r.value.pid == t.pid && r.value.port == t.port
      && (r.value.host.Some? <==> rest != [])
  {
    FGetsLine(line, rest, []);
    FGetsLine(line, [], []);
    assert [] + line + "\n" + rest == line + "\n" + rest;
    assert [] + line + "\n" + [] == line + "\n";
  }

  /**
   A name with trailing garbage after a live pid passes is_portfile, yet the
   file is then rejected as unrecognised.
   */
  lemma TrailingGarbageNameRejected()
    ensures IsPortFile("123x", {123})
    ensures ReadPortFile("123x", "4330\n") == None
  {
    assert "123x"[0..3] == "123";
    DigitRunOver("123x", 0, 3);
    assert DecimalValue("123") == 123 by {
      assert "123"[..2] == "12";
      assert "12"[..1] == "1";
      assert "1"[..0] == "";
    }
    assert StrToL("123x") == (123, 3);
  }

  /** A first line holding only '\n' is read as port 0 and accepted. */
  lemma EmptyPortLineAccepted()
    ensures ReadPortFile(PM_LOG_PRIMARY_LINK, "\n") == Some(PortFileText(PM_LOG_PRIMARY_PORT, 0, None, None))
  {
    PrimaryLinkValue();
    assert SkipSpace("\n", 0) == 1;
    assert StrToL("\n") == (0, 0);
    assert LineEnd("\n", 0) == 1;
    assert "\n"[0..1] == "\n";
    assert FGets("\n", 0) == Some(("\n", 1));
  }

  /** A port number followed by anything but a digit or '\n' leaves no port number. */
  lemma TrailingGarbagePortRejected(port: int32, c: char, rest: string)
    requires c != '\n' && !IsDigit(c)
    ensures PortLine(IntToDecimal(port) + [c] + rest) == None
  {
    IntToDecimalRoundTrip(port, [c] + rest);
    assert IntToDecimal(port) + [c] + rest == IntToDecimal(port) + ([c] + rest);
  }

  /** A port number that reaches the end of the file without a '\n' leaves no port number. */
  lemma UnterminatedPortRejected(port: int32)
    ensures PortLine(IntToDecimal(port)) == None
  {
    IntToDecimalRoundTrip(port, []);
    assert IntToDecimal(port) + [] == IntToDecimal(port);
  }
}
