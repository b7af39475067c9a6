# pmlogger control-port discovery (logportmap.c)

This project models in Dafny how libpcp finds the control ports of running
pmlogger processes (`src/libpcp/src/logportmap.c`).

## What the library does

The library keeps one process-wide table of `__pmLogPort` entries. The table is made of these statics:
- `logport`, the array;
- `nlogports`, the number of entries in use;
- `szlogport`, the array's size;
- `match`, the buffer that the `is_match` filter compares against.

Three operations refill the table:
- `resize_logports` releases the entries in use and makes room for the new ones.
- `__pmLogFindLocalPorts` reads the port files of the local port directory.
  - Each port file holds the port, then the PMCD host name, then the archive base name, one per line.
  - The file's name is either a pmlogger pid or the primary logger's link name.
- `__pmLogFindPort` decides with `__pmIsLocalhost` whether the host is local.
  - A local host goes to the local scan.
  - Any other host is asked for the metric `pmcd.pmlogger.port` through the metrics library.

## How the model is built

The model has five modules:
- `LibC` states the C library calls on values:
  - `strtol` with its end pointer;
  - the `(int)` conversion of a `long`, as a reduction modulo 2^32;
  - `snprintf("%d")`;
  - `fgets`;
  - cutting a line at its `'\n'`;
  - `strcasecmp`.
- `PortFile` holds the scandir filters and the reading of one port file. It also holds the scan over the candidate files, as a fold.
- `Localhost` holds `__pmIsLocalhost`: a verdict function and a method with the source's nested loops.
- `Remote` holds the library's answers for one remote query and the scan of the fetched values, as a fold.
- `LogPortMap` holds the following:
  - the abstract table (`Table`);
  - one function per operation, saying what the operation makes of the table;
  - the class `LogPortTable`, whose fields are the statics and whose methods update them in place. Each method is proved to agree with its function.

Several outcomes are parameters of the model:
- the process list (`__pmProcessExists`);
- the directory listing;
- the outcome of each `malloc`, `calloc` and `strdup`;
- `gethostname`;
- the resolver;
- the metrics library (`pmNewContext`, `pmLookupName`, `pmLookupDesc`, `pmFetch`, `pmNameInDom`).

The code is modelled as written, including the following behaviours:
- A failed `pmFetch` is reported as 1. The comparison `pmFetch(...) < 0` is what gets assigned to `sts`.
- The remote path leaves `nlogports` at 0, so the next resize does not release the names it copied.
- With a positive `numval`, the remote path returns the table once the copy loop has run, even when no value was copied. A failed resize or a failed `pmNameInDom` gives NULL instead.
- A file name with trailing garbage after a live pid passes `is_portfile`. The file is then rejected as unrecognised.

The constants come from `impl.h`, which is not part of this model. Their values are taken as follows:
- `PM_LOG_PRIMARY_PID` = 0
- `PM_LOG_ALL_PIDS` = -1
- `PM_LOG_PRIMARY_PORT` = 0
- `PM_LOG_PRIMARY_LINK` = `"primary"`

`EINVAL`, `ENOMEM` and `EHOSTUNREACH` take their Linux values.

## Model

| member | source | states |
|---|---|---|
| LibC.StrToL | src/libpcp/src/logportmap.c:225-226 | strtol base 10: after the leading white space and one optional sign, the digits read are the whole run that starts there; the end index is 0 exactly when that run is empty, and the value is then 0; otherwise the end follows the run and the value is the run's decimal value, negated after '-', clamped to the range of `long` |
| LibC.NoNumberReadsNothing | src/libpcp/src/logportmap.c:225-226 | a string starting with neither white space, a sign nor a digit reads as 0 with the end pointer at its start |
| LibC.ToCInt | src/libpcp/src/logportmap.c:74 | the `(int)` cast is congruent to its argument modulo 2^32 and is the identity on the int range |
| LibC.IntToDecimal | src/libpcp/src/logportmap.c:149 | `snprintf("%d")` gives a non-empty string that starts with a digit or '-' and holds no newline |
| LibC.FGets | src/libpcp/src/logportmap.c:211 | fgets gives NULL exactly at end of file; otherwise it gives the non-empty text from the position to LineEnd, the index just after the next '\n' or the end of the file |
| LibC.LineEnd | src/libpcp/src/logportmap.c:211 | the end of a line lies past its start; no '\n' comes before it, and unless it is the end of the file the character just before it is a '\n' |
| LibC.FGetsStopsAtNewline | src/libpcp/src/logportmap.c:211 | a line from fgets holds no '\n' before its last character, and ends with '\n' unless it reaches the end of the file |
| LibC.CutAtNewline | src/libpcp/src/logportmap.c:255-257 | the line cut at its first '\n' is a prefix of the line, holds no '\n', and is either the whole line or stops at a '\n' |
| LibC.IntToDecimalRoundTrip | src/libpcp/src/logportmap.c:149 | strtol reads back exactly what `snprintf("%d")` wrote, whatever non-digit follows |
| LibC.CutAtNewlineOfLine | src/libpcp/src/logportmap.c:255-257 | cutting a line and its '\n' gives back the line |
| LibC.StrCaseEq | src/libpcp/src/logportmap.c:312 | strcasecmp is 0 if and only if the two strings are equal once lowered |
| LibC.IntToDecimalFits | src/libpcp/src/logportmap.c:84-85 | the `%d` rendering of any int has at most 11 characters, so it fits the 40-byte match buffer |
| LibC.FGetsLine | src/libpcp/src/logportmap.c:249 | fgets reads a whole line with its '\n' |
| Localhost.LocalhostVerdict | src/libpcp/src/logportmap.c:307-352 | the verdict is 1, 0 or negative; any case of "localhost" is 1 |
| Localhost.IsLocalhost | src/libpcp/src/logportmap.c:307-352 | the copy of the local addresses and the nested search return exactly the verdict |
| Localhost.LocalhostNeedsNoLookup | src/libpcp/src/logportmap.c:312-313 | every case variant of "localhost" is local, whatever the resolver says |
| Localhost.SharedAddressLocalBothWays | src/libpcp/src/logportmap.c:336-344 | two names with a common address are each local on the machine named by the other |
| Localhost.LocalExactlyOnSharedAddress | src/libpcp/src/logportmap.c:318-351 | other names are local if and only if both names resolve, calloc succeeds and the address lists share an address |
| Localhost.LocalResolutionFailureIsNotLocal | src/libpcp/src/logportmap.c:321 | when the machine's own name does not resolve, the answer is 0 (not an error) |
| Localhost.UnresolvableHostUnreachable | src/libpcp/src/logportmap.c:333-334 | an unresolvable host name gives -EHOSTUNREACH once the local addresses are copied |
| PortFile.ScanDir | src/libpcp/src/logportmap.c:153 | scandir returns no more entries than were listed, each a listed entry that the filter selects |
| PortFile.ScanDirSelects | src/libpcp/src/logportmap.c:153 | scandir keeps exactly the listed entries that the filter selects |
| PortFile.ScanDirAppend | src/libpcp/src/logportmap.c:153 | filtering a listing a + b gives the selection from a followed by the selection from b, so the listing's order is kept |
| PortFile.ScanDirOne | src/libpcp/src/logportmap.c:153 | a one-entry listing is kept exactly when the filter selects its name |
| PortFile.PortLine | src/libpcp/src/logportmap.c:225-230 | a port line is accepted if and only if strtol stops at a '\n', and then gives strtol's value cast to int; on a line from fgets, that '\n' is the last character |
| PortFile.ReadPortFile | src/libpcp/src/logportmap.c:211-270 | an accepted file is non-empty; its host and archive lines hold no '\n'; an archive is only read after a host |
| PortFile.ReadPortFileFields | src/libpcp/src/logportmap.c:211-270 | an accepted file has a first line and its port is what PortLine gives for it; its pid is what NamePid gives for its name; its host is its second line cut at '\n' exactly when a second line exists, and its archive likewise from the third line |
| PortFile.ParsedPid | src/libpcp/src/logportmap.c:232-241 | an accepted file's pid is the one its name denotes |
| PortFile.Record | src/libpcp/src/logportmap.c:244-285 | one file keeps the entries counted so far and adds at most one, read from that file; a file that does not parse changes nothing |
| PortFile.ScanFrom | src/libpcp/src/logportmap.c:198-287 | the scan adds at most one entry per file; after an abort nothing changes |
| PortFile.ScanRecords | src/libpcp/src/logportmap.c:198-287 | every entry the scan adds was read from one of the candidate files |
| PortFile.ScanAppend | src/libpcp/src/logportmap.c:198 | scanning a + b is scanning b from where the scan of a stopped |
| PortFile.MalformedFileSkipped | src/libpcp/src/logportmap.c:244-247 | a candidate that does not parse is skipped as if it were not there |
| PortFile.UnreadableFileSkipped | src/libpcp/src/logportmap.c:204-210 | a directory entry that cannot be opened or parsed leaves the scan as if it were not listed |
| PortFile.NameDupFailureAborts | src/libpcp/src/logportmap.c:258-284 | for a parsed file the name's strdup comes after those of its host and archive; the scan aborts exactly when that strdup fails, and then counts nothing; otherwise it counts exactly one entry |
| PortFile.RecordWithoutAllocationFailure | src/libpcp/src/logportmap.c:258-273 | when no strdup fails, a file adds its full entry and the scan goes on |
| PortFile.ScanKeepsPrefix | src/libpcp/src/logportmap.c:198-287 | the scan never changes or drops an entry already counted; it only appends |
| PortFile.ScanSource | src/libpcp/src/logportmap.c:198-287 | every entry the scan adds was recorded from one particular candidate file, whose index it names |
| PortFile.ScanWithoutAllocationFailure | src/libpcp/src/logportmap.c:198-287 | when no strdup fails, every file that parses is counted in directory order, with its host and archive |
| PortFile.IsPortFile | src/libpcp/src/logportmap.c:68-78 | is_portfile accepts a name if and only if its leading value is a live pid above 1, or the name is the primary link |
| PortFile.IsMatch | src/libpcp/src/logportmap.c:87-91 | is_match accepts a name if and only if it equals the match buffer character by character |
| PortFile.NamePid | src/libpcp/src/logportmap.c:232-241 | a file name gives a pid if and only if strtol reads all of it or it is the primary link; a number gives its value cast to int, the primary link gives PM_LOG_PRIMARY_PORT |
| PortFile.PrimaryLinkHasNoNumber | src/libpcp/src/logportmap.c:74-77 | strtol reads no number from the primary link name, so is_portfile falls back to the name comparison |
| PortFile.PrimaryLinkValue | src/libpcp/src/logportmap.c:232-235 | the primary link name has no leading number, and its file records PM_LOG_PRIMARY_PORT as its pid |
| PortFile.StalePortFileExcluded | src/libpcp/src/logportmap.c:74-76 | the file of a pid above 1 is a candidate if and only if that process exists |
| PortFile.NamePidOfDecimal | src/libpcp/src/logportmap.c:232-233 | a file named by a pid's decimal rendering records that pid |
| PortFile.PortLineOfDecimal | src/libpcp/src/logportmap.c:225-226 | a first line that is a port's rendering followed by '\n' gives that port |
| PortFile.PortFileRoundTrip | src/libpcp/src/logportmap.c:211-270 | a file written as port, host and archive lines reads back as the same fields |
| PortFile.PortOnlyFile | src/libpcp/src/logportmap.c:249-253 | a file with only its port line gives no host and no archive |
| PortFile.OptionalLinesKeepEntry | src/libpcp/src/logportmap.c:249-270 | a file accepted on its port line keeps its pid and port whatever follows, and has a PMCD host exactly when a second line exists |
| PortFile.TrailingGarbageNameRejected | src/libpcp/src/logportmap.c:232-240 | "123x" passes is_portfile for live pid 123, but its file is then rejected as unrecognised |
| PortFile.EmptyPortLineAccepted | src/libpcp/src/logportmap.c:225-226 | a first line holding only '\n' is read as port 0 and accepted |
| PortFile.TrailingGarbagePortRejected | src/libpcp/src/logportmap.c:226-230 | a port followed by anything but a digit or '\n' is rejected |
| PortFile.UnterminatedPortRejected | src/libpcp/src/logportmap.c:226-230 | a port line without '\n' is rejected |
| Remote.Step | src/libpcp/src/logportmap.c:402-420 | one value uses at most one more slot |
| Remote.StepConsistent | src/libpcp/src/logportmap.c:406-419 | one value keeps the scan's invariant: entries are wanted, named instances; at most one slot is used for a single pid; FoundOne exactly when one entry is found for a single pid; an unnamed stop is at a wanted instance without a name |
| Remote.FillFrom | src/libpcp/src/logportmap.c:402-420 | the scan uses at most one slot per value, and a stopped scan looks at nothing more |
| Remote.FillConsistent | src/libpcp/src/logportmap.c:402-420 | the scan's invariant holds value after value |
| Remote.FillValues | src/libpcp/src/logportmap.c:397-420 | the scan uses no more slots than the resize allocated: 1 for a single pid, numval otherwise |
| Remote.FillValuesConsistent | src/libpcp/src/logportmap.c:402-420 | the whole scan ends in a state satisfying the invariant |
| Remote.Written | src/libpcp/src/logportmap.c:410-416 | the slots written are the counted ones plus the one whose name lookup failed |
| Remote.NonLegacy | src/libpcp/src/logportmap.c:406-407 | the values kept come from the fetched ones and are never the legacy instance 1 |
| Remote.NonLegacyMembers | src/libpcp/src/logportmap.c:406-407 | a value is kept if and only if it was fetched and is not instance 1 |
| Remote.NonLegacyAppend | src/libpcp/src/logportmap.c:402-407 | the kept values of a + b are those of a followed by those of b, so fetch order is kept |
| Remote.Entries | src/libpcp/src/logportmap.c:410-412 | one entry per value |
| Remote.StepAllLoggers | src/libpcp/src/logportmap.c:406-417 | in an all-loggers scan, a named value adds its entry unless it is instance 1 |
| Remote.FillAllInstances | src/libpcp/src/logportmap.c:402-420 | asking for all loggers when every instance is named gives the entries of every value except instance 1, in fetch order |
| Remote.FillNoneYet | src/libpcp/src/logportmap.c:408-409 | a single-pid scan skips every value of another instance |
| Remote.FillFindsRequestedPid | src/libpcp/src/logportmap.c:408-419 | a single-pid scan finds exactly one entry when the pid is named and present, and that entry is made from the pid's first value in the fetch |
| Remote.KeptValues | src/libpcp/src/logportmap.c:406-409 | for all loggers every value but instance 1 is copied; for one pid only that pid is, and never when the pid is 1 |
| Remote.FillStopsAtUnnamed | src/libpcp/src/logportmap.c:412-416 | the scan stops on a failed name lookup if and only if some value it would copy has an instance without a name |
| LogPortMap.Resize | src/libpcp/src/logportmap.c:34-63 | resize_logports: entries in use are zeroed and nlogports is 0. The array is kept when it is large enough; otherwise it becomes a zeroed array of newsize, or no array and -1 when malloc fails. It succeeds if and only if the array was large enough or malloc succeeded |
| LogPortMap.MatchBuffer | src/libpcp/src/logportmap.c:128-150 | the match buffer holds the primary link for the primary pid, is unchanged for all loggers, and otherwise names the file whose recorded pid is the one asked for, in fewer than 40 characters |
| LogPortMap.FindLocal | src/libpcp/src/logportmap.c:99-301 | a NULL result gives -EINVAL and no change; a pid with no process gives 0 and NULL; a failed scandir gives -errno with the result untouched; no candidate gives 0 and NULL; a failed resize gives -ENOMEM with the result untouched; a failed strdup of a name gives -ENOMEM and NULL; otherwise the table is the result and holds the scan's entries, which the count counts |
| LogPortMap.LoadPortFiles | src/libpcp/src/logportmap.c:158-300 | after scandir: no candidate gives 0 and NULL; a failed resize gives -ENOMEM with the result untouched; a failed strdup of a name gives -ENOMEM and NULL; otherwise the table is the result and holds the scan's entries, which the count counts |
| LogPortMap.RemoteQuery | src/libpcp/src/logportmap.c:381-431 | the remote path never leaves the result unset; a failed pmNewContext, pmLookupName or pmLookupDesc, and a negative numval, are returned as they are with NULL and the table untouched; no value gives 0 and NULL; a failed resize gives -ENOMEM and NULL; after a resize, an unnamed wanted instance gives pmNameInDom's error and NULL, and otherwise the table is the result |
| LogPortMap.LoadValues | src/libpcp/src/logportmap.c:393-423 | copying the fetched values keeps the table valid and returns it only with a non-negative count; no value gives 0, NULL and the table untouched |
| LogPortMap.LoadValuesOutcomes | src/libpcp/src/logportmap.c:396-423 | a failed resize gives -ENOMEM and NULL; after a resize, an unnamed wanted instance gives pmNameInDom's error and NULL, and otherwise the table is the result with the number of values copied |
| LogPortMap.FindPortSpec | src/libpcp/src/logportmap.c:360-431 | __pmLogFindPort keeps the table valid and returns it only with a non-negative status |
| LogPortMap.FindPortRoutes | src/libpcp/src/logportmap.c:373-379 | an error of __pmIsLocalhost is returned with NULL, the table untouched and no library call; a remote host gets exactly the remote query; a local one gets the local scan's status and table, with the table as result exactly when the scan gives it, and no library call |
| LogPortMap.DeadPidSkipsDirectory | src/libpcp/src/logportmap.c:138-148 | a pid with no process gives 0 and NULL without reading the directory or touching the table |
| LogPortMap.CandidatePid | src/libpcp/src/logportmap.c:128-151 | an entry read from a selected file carries the requested pid: that pid, the primary's, or for all loggers a live pid above 1 or the primary's |
| LogPortMap.LocalScanEntries | src/libpcp/src/logportmap.c:198-292 | a successful scan counts at most one entry per directory entry; each is read from a listed file and carries the requested pid |
| LogPortMap.LocalScanComplete | src/libpcp/src/logportmap.c:198-292 | when malloc and every strdup succeed, every candidate file that parses is counted, in directory order |
| LogPortMap.PortFileScanIgnoresMatch | src/libpcp/src/logportmap.c:134-136 | the all-loggers filter does not depend on the match buffer |
| LogPortMap.LocalScanOverwrites | src/libpcp/src/logportmap.c:93-98 | each call replaces the previous answer: two successful scans of the same machine give the same entries |
| LogPortMap.RemoteEntries | src/libpcp/src/logportmap.c:395-423 | a successful remote answer has at most numval entries, at most one for a single pid; none is instance 1; each has its instance's name; nlogports stays 0 |
| LogPortMap.RemoteAllLoggers | src/libpcp/src/logportmap.c:395-423 | all loggers with every instance named gives exactly the entries of the values except instance 1 |
| LogPortMap.RemoteOneLogger | src/libpcp/src/logportmap.c:408-421 | one named, reported pid gives exactly one entry, for that pid, with its name |
| LogPortMap.RemoteReleasesContext | src/libpcp/src/logportmap.c:384-431 | after pmNewContext succeeds, every exit restores the old context if there was one and destroys the new one; the result is freed if and only if the fetch succeeded |
| LogPortMap.FetchFailureReportsOne | src/libpcp/src/logportmap.c:391-392 | a failed fetch is reported as 1, with NULL and the table untouched |
| LogPortMap.LocalhostAnsweredLocally | src/libpcp/src/logportmap.c:373-377 | "localhost" is answered by the local scan, whatever the resolver and pmcd say, with no library call |
| LogPortMap.LogPortTable.constructor | src/libpcp/src/logportmap.c:26-29 | the statics start with no array, nothing in use and an empty match buffer |
| LogPortMap.LogPortTable.ResizeLogports | src/libpcp/src/logportmap.c:34-63 | the in-place resize leaves exactly the table Resize describes, and keeps the same array when it was already large enough |
| LogPortMap.LogPortTable.RecordPortFile | src/libpcp/src/logportmap.c:244-285 | one parsed file updates nlogports and the next slot as Record says, and changes no other slot |
| LogPortMap.LogPortTable.ScanPortFiles | src/libpcp/src/logportmap.c:198-287 | the loop leaves exactly the scan's entries in the first slots and their count in nlogports, changes no other slot, and reports the abort |
| LogPortMap.LogPortTable.FindLocalPorts | src/libpcp/src/logportmap.c:99-301 | the in-place operation returns what FindLocal says and leaves its table |
| LogPortMap.LogPortTable.LoadPorts | src/libpcp/src/logportmap.c:158-300 | resize and scan in place give what LoadPortFiles says |
| LogPortMap.CopyValues | src/libpcp/src/logportmap.c:402-420 | the copy loop leaves exactly the slots the fill writes, changes no other slot, and returns j and whether a name lookup failed |
| LogPortMap.CopyValue | src/libpcp/src/logportmap.c:403-419 | one value writes slot j as one step of the fill says |
| LogPortMap.LogPortTable.FindRemotePorts | src/libpcp/src/logportmap.c:381-431 | the remote path in place gives RemoteQuery's status, table, result and release calls |
| LogPortMap.LogPortTable.LoadFetched | src/libpcp/src/logportmap.c:393-423 | the resize and copy in place give what LoadValues says |
| LogPortMap.LogPortTable.FindPort | src/libpcp/src/logportmap.c:360-431 | __pmLogFindPort in place gives FindPortSpec's status, table, result and release calls |

## Left out

- The port directory (`PM_LOG_PORT_DIR`) and the order of its listing are inputs. The listing is taken as already in alphasort order.
- Path building is not modelled:
  - the `namebuf` allocation, and its failure path that returns `-errno`;
  - `MAXPATHLEN` truncation of a line by `fgets`.
- Freeing memory is not modelled: the `free` of dirents and of the strings of released entries, and `fclose`.
  - Released entries are zeroed.
  - The remote path's names are never released by the model either, so the model matches the leak.
- LogPortMap.LogPortTable.RecordPortFile: when a file is rejected, the source has already written its port (and perhaps its pid) into the next, uncounted slot. The model leaves that slot unchanged. When the name's strdup fails, the source likewise leaves the pid and port in the uncounted slot and sets its name, host and archive to NULL. The model leaves that slot as it was.
- PortFile.ScanFrom: its own contract bounds the number of entries only. That the entries already counted are kept is stated by PortFile.ScanKeepsPrefix.
- LogPortMap.FindPortSpec: its own contract states only that the table stays valid and is returned with a non-negative status. How it routes on the localhost verdict is stated by LogPortMap.FindPortRoutes.
- LogPortMap.LoadValues: its own contract covers only the empty value set. The resize, name-lookup and copy outcomes are stated by LogPortMap.LoadValuesOutcomes, which keeps them out of the contracts of every caller.
- LogPortMap.RemoteQuery: its contract does not give the status of a failed pmFetch. That status, 1, is stated by LogPortMap.FetchFailureReportsOne.
- LibC.StrToL: `long` is taken as 64 bits (LP64), so an out-of-range number clamps at -2^63 or 2^63 - 1. Where `long` has 32 bits it would clamp at -2^31 or 2^31 - 1.
- PortFile.ScanDir: its own contract gives only soundness. Completeness is stated by PortFile.ScanDirSelects, and the kept order by PortFile.ScanDirAppend and PortFile.ScanDirOne.
- PortFile.ReadPortFile: its own contract gives only the shape of an accepted entry. How each field comes from the file's lines is stated by PortFile.ReadPortFileFields.
- PortFile.Record: its own contract does not say when the scan aborts. That is stated by PortFile.NameDupFailureAborts.
- Remote.NonLegacy: its own contract gives only soundness. Completeness is stated by Remote.NonLegacyMembers, and order by Remote.NonLegacyAppend.
- NUL bytes inside a port file or a file name are not modelled: strings are sequences of characters.
- `gethostname` truncation at `MAXHOSTNAMELEN` is not modelled: the machine's name is an input.
- IPv6 is not modelled: the resolver gives IPv4 addresses only.
- The metrics library (`pmWhichContext`, `pmNewContext`, `pmLookupName`, `pmLookupDesc`, `pmFetch`, `pmNameInDom`) is an input.
  - Its release calls are recorded as a list, not performed.
  - The pmResult is a single value set of (instance, value) pairs.
- A failed `malloc` or `strdup` is taken to set `errno` to `ENOMEM`, so those paths return `-ENOMEM`.
- Diagnostics are not modelled: `pmprintf`, `pmflush`, `__pmNoMem`, and the `PCP_DEBUG` traces.
- `impl.h` and the system's `errno.h` are not part of this model. The values of PM_LOG_PRIMARY_PID, PM_LOG_ALL_PIDS, PM_LOG_PRIMARY_PORT, PM_LOG_PRIMARY_LINK and the errno constants are taken to be those of PCP's headers and of Linux, as listed above; the code's use of them does not fix them.
