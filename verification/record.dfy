/**
 * ProcReader (lpm/src/process.cpp): how Process::readFromProc fills a record from the two
 * /proc files of one process, how ProcessManager::getAllProcesses collects the records of
 * every process, and the helpers beside them (calculateCPU, getTotalCPUTime, killProcess,
 * setProcessPriority).
 *
 * The file system, getpwuid and the system calls are inputs here: a file is `Some(contents)`
 * when it could be opened and `None` otherwise, the /proc listing is a sequence of entries in
 * the order the directory iterator yields them, the password database is a map from uid to
 * user name, and kill(2) and setpriority(2) are functions from their arguments to their
 * return value. readFromProc changes the Process it is called on; here it takes the record
 * as it was and returns the record as it leaves it.
 */
module ProcReader {
  import opened Wrappers
  import opened Text
  import opened Streams
  import opened ProcessModel
  import ProcessControl

  /** How readFromProc ends: it returns its flag with the record as left, or it throws. */
  datatype ReadOutcome = Returned(ok: bool, p: Process) | Threw

  /** The first line of the stat file cut at the parentheses around the command name. */
  datatype StatSplit =
    | NoParens                              // find('(') or rfind(')') is npos
    | Truncated                             // the ')' is the last character: substr(end + 2) throws
    | Split(name: string, after: string)   // the name, and what follows ") "

  /**
   * The name runs from after the first '(' to before the last ')'. When the last ')' comes
   * before the first '(' the length end - start - 1 wraps around as a size_t, and substr
   * takes everything after the '('.
   */
  function SplitStatLine(line: string): (r: StatSplit)
    ensures r.NoParens? <==> '(' !in line || ')' !in line
    ensures r.Truncated? <==> '(' in line && ')' in line && line[|line| - 1] == ')'
  {
    var start := IndexOf(line, '(');
    var end := LastIndexOf(line, ')');
    if start < 0 || end < 0 then NoParens
    else if end + 2 > |line| then
      Truncated
    else
      assert line[|line| - 1] != ')' by {
        assert line[|line| - 1] == line[end + 1..][|line| - 2 - end];
      }
      Split(if end > start then line[start + 1..end] else line[start + 1..], line[end + 2..])
  }

  /**
   * The command name is recovered whatever it holds, parentheses and blanks included, as long
   * as nothing before it holds a '(' and nothing after it a ')'.
   */
  lemma SplitRecoversName(prefix: string, name: string, after: string)
    requires '(' !in prefix && ')' !in after
    ensures SplitStatLine(prefix + "(" + name + ") " + after) == Split(name, after)
  {
    var line := prefix + "(" + name + ") " + after;
    var a := |prefix|;
    var b := |prefix| + 1 + |name|;
    assert IndexOf(line, '(') == a by {
      assert line[..a] == prefix;
      IndexOfIs(line, '(', a);
    }
    assert LastIndexOf(line, ')') == b by {
      assert line[b + 1..] == " " + after;
      LastIndexOfIs(line, ')', b);
    }
    assert line[a + 1..b] == name && line[b + 2..] == after;
  }

  /**
   * `iss >> state >> ppid`, nine skipped numbers, `>> utime >> stime`, four skipped, `>>
   * numThreads`, one skipped, `>> starttime`: only those six fields change.
   */
  function ReadStatFields(after: string, p: Process): (q: Process)
    ensures q == p.(state := q.state, ppid := q.ppid, utime := q.utime, stime := q.stime,
                    numThreads := q.numThreads, starttime := q.starttime)
  {
    var state := ReadWord(Stream(after, false), p.state);
    ReadParent(state.stream, p.(state := state.value))
  }

  /** `>> ppid`, then the rest of the line after nine skipped numbers. */
  function ReadParent(st: Stream, p: Process): Process {
    var ppid := ReadNumber(st, p.ppid);
    ReadTimes(SkipNumbers(ppid.stream, 9), p.(ppid := ppid.value))
  }

  /** `>> utime >> stime`, then the rest of the line after four skipped numbers. */
  function ReadTimes(st: Stream, p: Process): Process {
    var utime := ReadNumber(st, p.utime);
    var stime := ReadNumber(utime.stream, p.stime);
    ReadThreads(SkipNumbers(stime.stream, 4), p.(utime := utime.value, stime := stime.value))
  }

  /** `>> numThreads`, one skipped number, `>> starttime`. */
  function ReadThreads(st: Stream, p: Process): Process {
    var threads := ReadNumber(st, p.numThreads);
    var start := ReadNumber(SkipNumbers(threads.stream, 1), p.starttime);
    p.(numThreads := threads.value, starttime := start.value)
  }

  /** Reading the k-th of a run of blank-separated numerals. */
  lemma ReadAt(ws: seq<string>, k: nat, target: int)
    requires k < |ws| && AllNumerals(ws)
    ensures ReadNumber(Stream(Spaced(ws[k..]), false), target)
         == Extracted(Stream(Spaced(ws[k + 1..]), false), NumeralValue(ws[k]))
  {
    ReadSpacedHead(ws[k..], target);
    assert ws[k..][1..] == ws[k + 1..];
  }

  /** Skipping n numerals of a run of blank-separated numerals. */
  lemma SkipAt(ws: seq<string>, k: nat, n: nat)
    requires k + n <= |ws| && AllNumerals(ws)
    ensures SkipNumbers(Stream(Spaced(ws[k..]), false), n) == Stream(Spaced(ws[k + n..]), false)
  {
    SkipSpacedPrefix(ws[k..], n);
    assert ws[k..][n..] == ws[k + n..];
  }

  lemma ReadThreadsAt(ws: seq<string>, k: nat, p: Process)
    requires k + 3 <= |ws| && AllNumerals(ws)
    ensures ReadThreads(Stream(Spaced(ws[k..]), false), p)
         == p.(numThreads := NumeralValue(ws[k]), starttime := NumeralValue(ws[k + 2]))
  {
    var threads := ReadNumber(Stream(Spaced(ws[k..]), false), p.numThreads);
    assert threads == Extracted(Stream(Spaced(ws[k + 1..]), false), NumeralValue(ws[k])) by {
      ReadAt(ws, k, p.numThreads);
    }
    assert SkipNumbers(threads.stream, 1) == Stream(Spaced(ws[k + 2..]), false) by {
      SkipAt(ws, k + 1, 1);
    }
    ReadAt(ws, k + 2, p.starttime);
  }

  lemma ReadTimesAt(ws: seq<string>, k: nat, p: Process)
    requires k + 9 <= |ws| && AllNumerals(ws)
    ensures ReadTimes(Stream(Spaced(ws[k..]), false), p)
         == p.(utime := NumeralValue(ws[k]), stime := NumeralValue(ws[k + 1]),
               numThreads := NumeralValue(ws[k + 6]), starttime := NumeralValue(ws[k + 8]))
  {
    var utime := ReadNumber(Stream(Spaced(ws[k..]), false), p.utime);
    assert utime == Extracted(Stream(Spaced(ws[k + 1..]), false), NumeralValue(ws[k])) by {
      ReadAt(ws, k, p.utime);
    }
    var stime := ReadNumber(utime.stream, p.stime);
    assert stime == Extracted(Stream(Spaced(ws[k + 2..]), false), NumeralValue(ws[k + 1])) by {
      ReadAt(ws, k + 1, p.stime);
    }
    assert SkipNumbers(stime.stream, 4) == Stream(Spaced(ws[k + 6..]), false) by {
      SkipAt(ws, k + 2, 4);
    }
    ReadThreadsAt(ws, k + 6, p.(utime := NumeralValue(ws[k]), stime := NumeralValue(ws[k + 1])));
  }

  lemma ReadParentAt(ws: seq<string>, p: Process)
    requires 19 <= |ws| && AllNumerals(ws)
    ensures ReadParent(Stream(Spaced(ws), false), p)
         == p.(ppid := NumeralValue(ws[0]), utime := NumeralValue(ws[10]), stime := NumeralValue(ws[11]),
               numThreads := NumeralValue(ws[16]), starttime := NumeralValue(ws[18]))
  {
    var ppid := ReadNumber(Stream(Spaced(ws), false), p.ppid);
    assert ppid == Extracted(Stream(Spaced(ws[1..]), false), NumeralValue(ws[0])) by {
      ReadSpacedHead(ws, p.ppid);
    }
    assert SkipNumbers(ppid.stream, 9) == Stream(Spaced(ws[10..]), false) by {
      SkipAt(ws, 1, 9);
    }
    ReadTimesAt(ws, 10, p.(ppid := NumeralValue(ws[0])));
  }

  /**
   * The fields after the command name, as the kernel writes them (state, then numbers each
   * after one blank), land in the record at their positions in proc(5): ppid is the 4th
   * field of the line, utime the 14th, stime the 15th, num_threads the 20th, starttime the 22nd.
   */
  lemma ReadStatFieldsPositions(state: string, ws: seq<string>, p: Process)
    requires state != [] && forall i :: 0 <= i < |state| ==> !IsSpace(state[i])
    requires 19 <= |ws| && AllNumerals(ws)
    ensures ReadStatFields(state + Spaced(ws), p)
         == p.(state := state, ppid := NumeralValue(ws[0]), utime := NumeralValue(ws[10]),
               stime := NumeralValue(ws[11]), numThreads := NumeralValue(ws[16]),
               starttime := NumeralValue(ws[18]))
  {
    ReadWrittenWord(state, Spaced(ws), p.state);
    ReadParentAt(ws, p.(state := state));
  }

  /** The three status lines readFromProc looks for. */
  datatype StatusKey = VmSizeKey | VmRssKey | UidKey

  function KeyPrefix(k: StatusKey): string {
    match k
    case VmSizeKey => "VmSize:"
    case VmRssKey => "VmRSS:"
    case UidKey => "Uid:"
  }

  /** vmSize, vmRSS and the local uid while the status lines are scanned. */
  datatype StatusFields = StatusFields(vmSize: int, vmRSS: int, uid: int)

  function FieldOf(f: StatusFields, k: StatusKey): int {
    match k
    case VmSizeKey => f.vmSize
    case VmRssKey => f.vmRSS
    case UidKey => f.uid
  }

  /** One status line: a fresh istringstream over what follows the key reads one number. */
  function StatusStep(f: StatusFields, line: string): StatusFields {
    if StartsWith(line, "VmSize:") then f.(vmSize := ReadNumber(Stream(line[7..], false), f.vmSize).value)
    else if StartsWith(line, "VmRSS:") then f.(vmRSS := ReadNumber(Stream(line[6..], false), f.vmRSS).value)
    else if StartsWith(line, "Uid:") then f.(uid := ReadNumber(Stream(line[4..], false), f.uid).value)
    else f
  }

  /** The getline loop over the status file. */
  function ScanStatus(lines: seq<string>, f: StatusFields): StatusFields {
    if lines == [] then f else StatusStep(ScanStatus(lines[..|lines| - 1], f), lines[|lines| - 1])
  }

  /** A line without the key leaves that key's value alone. */
  lemma StatusStepOther(f: StatusFields, line: string, k: StatusKey)
    requires !StartsWith(line, KeyPrefix(k))
    ensures FieldOf(StatusStep(f, line), k) == FieldOf(f, k)
  {
  }

  /** Two prefixes that differ at a position cannot both start the same line. */
  lemma PrefixesClash(line: string, a: string, b: string, i: nat)
    requires StartsWith(line, a) && i < |a| && i < |b| && a[i] != b[i]
    ensures !StartsWith(line, b)
  {
    assert line[..|a|][i] == line[i];
  }

  /** No two keys start the same line, so a line with the key always reaches its branch. */
  lemma StatusStepKey(f: StatusFields, line: string, k: StatusKey)
    requires StartsWith(line, KeyPrefix(k))
    ensures FieldOf(StatusStep(f, line), k)
         == ReadNumber(Stream(line[|KeyPrefix(k)|..], false), FieldOf(f, k)).value
  {
    match k
    case VmSizeKey =>
    case VmRssKey =>
      PrefixesClash(line, "VmRSS:", "VmSize:", 2);
    case UidKey =>
      PrefixesClash(line, "Uid:", "VmSize:", 0);
      PrefixesClash(line, "Uid:", "VmRSS:", 0);
  }

  /** A status file without the key leaves the value readFromProc started with. */
  lemma {:induction false} ScanStatusNoKey(lines: seq<string>, f: StatusFields, k: StatusKey)
    requires forall j :: 0 <= j < |lines| ==> !StartsWith(lines[j], KeyPrefix(k))
    ensures FieldOf(ScanStatus(lines, f), k) == FieldOf(f, k)
  {
    if lines != [] {
      var front := lines[..|lines| - 1];
      ScanStatusNoKey(front, f, k);
      StatusStepOther(ScanStatus(front, f), lines[|lines| - 1], k);
    }
  }

  /**
   * The last line with the key decides its value: when that line carries a number, the value
   * is what it reads to, whatever came before.
   */
  lemma {:induction false} ScanStatusLastWins(lines: seq<string>, f: StatusFields, k: StatusKey, i: int)
    requires 0 <= i < |lines| && StartsWith(lines[i], KeyPrefix(k))
    requires forall j :: i < j < |lines| ==> !StartsWith(lines[j], KeyPrefix(k))
    requires SkipSpace(lines[i][|KeyPrefix(k)|..]) != []
    ensures FieldOf(ScanStatus(lines, f), k) == ReadNumber(Stream(lines[i][|KeyPrefix(k)|..], false), 0).value
  {
    var front := lines[..|lines| - 1];
    if i == |lines| - 1 {
      StatusStepKey(ScanStatus(front, f), lines[i], k);
      ReadNumberTargetFree(Stream(lines[i][|KeyPrefix(k)|..], false), FieldOf(ScanStatus(front, f), k), 0);
    } else {
      assert front[i] == lines[i];
      ScanStatusLastWins(front, f, k, i);
      StatusStepOther(ScanStatus(front, f), lines[|lines| - 1], k);
    }
  }

  /** The user name for a uid: unchanged before any Uid line, else getpwuid, else the number. */
  function ResolveUser(uid: int, users: map<int, string>, user: string): (r: string)
    ensures uid < 0 ==> r == user
    ensures 0 <= uid && uid in users ==> r == users[uid]
    ensures 0 <= uid && uid !in users ==> IsNumeral(r) && NumeralValue(r) == uid
  {
    if uid < 0 then user
    else if uid in users then users[uid]
    else
      RenderedIsNumeral(uid);
      IntToString(uid)
  }

  /** The part of readFromProc that reads the status file, when it opened. */
  function ApplyStatus(p: Process, statusFile: Option<string>, users: map<int, string>): (q: Process)
    ensures q == p.(vmSize := q.vmSize, vmRSS := q.vmRSS, user := q.user)
  {
    match statusFile
    case None => p
    case Some(c) =>
      var f := ScanStatus(Lines(c), StatusFields(p.vmSize, p.vmRSS, -1));
      p.(vmSize := f.vmSize, vmRSS := f.vmRSS, user := ResolveUser(f.uid, users, p.user))
  }

  /** Without a Uid line the local uid stays -1 and the user field is left as it was. */
  lemma ApplyStatusWithoutUid(p: Process, c: string, users: map<int, string>)
    requires forall j :: 0 <= j < |Lines(c)| ==> !StartsWith(Lines(c)[j], "Uid:")
    ensures ApplyStatus(p, Some(c), users).user == p.user
  {
    ScanStatusNoKey(Lines(c), StatusFields(p.vmSize, p.vmRSS, -1), UidKey);
  }

  /** The first line of the stat file, when the file opened and getline found one. */
  function StatLine(statFile: Option<string>): (r: Option<string>)
    ensures r.None? <==> statFile.None? || statFile.value == []
  {
    match statFile
    case None => None
    case Some(c) => FirstLine(c)
  }

  /** What Process::readFromProc(pid) does to the record `p0`. */
  function ReadProc(p0: Process, pid: int, statFile: Option<string>, statusFile: Option<string>,
                    users: map<int, string>): (r: ReadOutcome)
    ensures r.Returned? ==> r.p.pid == pid
  {
    var p := p0.(pid := pid);
    match StatLine(statFile)
    case None => Returned(false, p)
    case Some(line) =>
      match SplitStatLine(line)
      case NoParens => Returned(false, p)
      case Truncated => Threw
      case Split(name, after) => Returned(true, ApplyStatus(ReadStatFields(after, p.(name := name)), statusFile, users))
  }

  /**
   * readFromProc returns false exactly when the stat file is missing or empty or its first
   * line lacks a parenthesis, and then only the pid has been set; it throws exactly when the
   * first line ends in the ')'.
   */
  lemma ReadProcOutcome(p0: Process, pid: int, statFile: Option<string>, statusFile: Option<string>,
                        users: map<int, string>)
    ensures var r := ReadProc(p0, pid, statFile, statusFile, users);
      (r.Returned? && !r.ok) <==> StatLine(statFile).None? || '(' !in StatLine(statFile).value || ')' !in StatLine(statFile).value
    ensures var r := ReadProc(p0, pid, statFile, statusFile, users);
      r.Returned? && !r.ok ==> r.p == p0.(pid := pid)
    ensures var r := ReadProc(p0, pid, statFile, statusFile, users);
      r.Threw? <==> StatLine(statFile).Some? && var line := StatLine(statFile).value;
        '(' in line && ')' in line && line[|line| - 1] == ')'
  {
  }

  /**
   * A stat file as the kernel writes it, "pid (name) state n1 n2 ..." on its first line, fills
   * name, state, ppid, utime, stime, numThreads and starttime, whatever the name holds apart
   * from a newline; the pid is the one asked for, not the one written, and without a status
   * file nothing else changes.
   */
  lemma ReadProcStatFile(p0: Process, pid: int, prefix: string, name: string, state: string,
                         ws: seq<string>, more: string, users: map<int, string>)
    requires '(' !in prefix && '\n' !in prefix && '\n' !in name && ')' !in state
    requires state != [] && forall i :: 0 <= i < |state| ==> !IsSpace(state[i])
    requires 19 <= |ws| && AllNumerals(ws)
    ensures ReadProc(p0, pid, Some(prefix + "(" + name + ") " + (state + Spaced(ws)) + "\n" + more), None, users)
         == Returned(true, p0.(pid := pid, name := name, state := state, ppid := NumeralValue(ws[0]),
                               utime := NumeralValue(ws[10]), stime := NumeralValue(ws[11]),
                               numThreads := NumeralValue(ws[16]), starttime := NumeralValue(ws[18])))
  {
    StatLineOfFile(prefix, name, state, ws, more);
    ReadStatFieldsPositions(state, ws, p0.(pid := pid, name := name));
  }

  lemma StatLineOfFile(prefix: string, name: string, state: string, ws: seq<string>, more: string)
    requires '(' !in prefix && '\n' !in prefix && '\n' !in name && ')' !in state
    requires forall i :: 0 <= i < |state| ==> !IsSpace(state[i])
    requires AllNumerals(ws)
    ensures var line := prefix + "(" + name + ") " + (state + Spaced(ws));
      StatLine(Some(line + "\n" + more)) == Some(line) && SplitStatLine(line) == Split(name, state + Spaced(ws))
  {
    var line := prefix + "(" + name + ") " + (state + Spaced(ws));
    SpacedLacks(ws, ')');
    SplitRecoversName(prefix, name, state + Spaced(ws));
    SpacedLacks(ws, '\n');
    assert '\n' !in state;
    FirstLineOf(line, more);
  }

  /** Process::readFromProc, step by step as the C++ reads its two files. */
  method ReadFromProc(p0: Process, processId: int, statFile: Option<string>,
                      statusFile: Option<string>, users: map<int, string>)
    returns (outcome: ReadOutcome)
    ensures outcome == ReadProc(p0, processId, statFile, statusFile, users)
  {
    var p := p0.(pid := processId);
    var firstLine := StatLine(statFile);
    if firstLine.None? {
      return Returned(false, p);
    }
    var line := firstLine.value;
    var start := IndexOf(line, '(');
    var end := LastIndexOf(line, ')');
    if start < 0 || end < 0 {
      assert SplitStatLine(line) == NoParens;
      return Returned(false, p);
    }
    p := p.(name := if end > start then line[start + 1..end] else line[start + 1..]);
    if end + 2 > |line| {
      assert SplitStatLine(line) == Truncated;
      return Threw;
    }
    assert SplitStatLine(line) == Split(p.name, line[end + 2..]);
    p := ReadStatStream(line[end + 2..], p);
    ghost var stat := p;
    if statusFile.Some? {
      p := ReadStatusFile(p, statusFile.value, users);
    }
    assert p == ApplyStatus(stat, statusFile, users);
    return Returned(true, p);
  }

  /** The istringstream over the stat line after ") ", with its three skip loops. */
  method ReadStatStream(after: string, p0: Process) returns (p: Process)
    ensures p == ReadStatFields(after, p0)
  {
    var state := ReadWord(Stream(after, false), p0.state);
    var ppid := ReadNumber(state.stream, p0.ppid);
    p := p0.(state := state.value, ppid := ppid.value);
    var iss := ppid.stream;
    for i := 0 to 9
      invariant SkipNumbers(iss, 9 - i) == SkipNumbers(ppid.stream, 9)
    {
      iss := ReadNumber(iss, 0).stream;
    }
    var utime := ReadNumber(iss, p.utime);
    var stime := ReadNumber(utime.stream, p.stime);
    p := p.(utime := utime.value, stime := stime.value);
    iss := stime.stream;
    for i := 0 to 4
      invariant SkipNumbers(iss, 4 - i) == SkipNumbers(stime.stream, 4)
    {
      iss := ReadNumber(iss, 0).stream;
    }
    var threads := ReadNumber(iss, p.numThreads);
    p := p.(numThreads := threads.value);
    iss := ReadNumber(threads.stream, 0).stream;
    var starttime := ReadNumber(iss, p.starttime);
    p := p.(starttime := starttime.value);
  }

  /** The getline loop over the status file and the uid lookup after it. */
  method ReadStatusFile(p0: Process, contents: string, users: map<int, string>) returns (p: Process)
    ensures p == ApplyStatus(p0, Some(contents), users)
  {
    p := p0;
    var lines := Lines(contents);
    var uid := -1;
    for i := 0 to |lines|
      invariant StatusFields(p.vmSize, p.vmRSS, uid) == ScanStatus(lines[..i], StatusFields(p0.vmSize, p0.vmRSS, -1))
      invariant p == p0.(vmSize := p.vmSize, vmRSS := p.vmRSS)
    {
      assert lines[..i + 1][..i] == lines[..i];
      var statusLine := lines[i];
      if StartsWith(statusLine, "VmSize:") {
        p := p.(vmSize := ReadNumber(Stream(statusLine[7..], false), p.vmSize).value);
      } else if StartsWith(statusLine, "VmRSS:") {
        p := p.(vmRSS := ReadNumber(Stream(statusLine[6..], false), p.vmRSS).value);
      } else if StartsWith(statusLine, "Uid:") {
        uid := ReadNumber(Stream(statusLine[4..], false), uid).value;
      }
    }
    assert lines[..|lines|] == lines;
    if uid >= 0 {
      if uid in users {
        p := p.(user := users[uid]);
      } else {
        p := p.(user := IntToString(uid));
      }
    }
  }

  /** One entry of the /proc directory. */
  datatype DirEntry = DirEntry(name: string, isDirectory: bool)

  /** The stat and status files under /proc/<pid>. */
  datatype ProcFiles = ProcFiles(stat: Option<string>, status: Option<string>)

  function FilesOf(files: map<int, ProcFiles>, pid: int): ProcFiles {
    if pid in files then files[pid] else ProcFiles(None, None)
  }

  /** INT_MAX, past which std::stoi throws out_of_range. */
  const IntMax := 0x7fff_ffff

  /** A directory whose name is all digits (the empty name passes the digit loop). */
  predicate IsPidDirectory(e: DirEntry) {
    e.isDirectory && AllDigits(e.name)
  }

  /** The processes collected so far, and whether an exception has ended the loop. */
  datatype Scan = Scan(found: seq<Process>, aborted: bool)

  /**
   * One pass of the directory loop. std::stoi throws on the empty name and past INT_MAX,
   * readFromProc may throw; the catch sits outside the loop, so either ends the scan and
   * keeps what was collected.
   */
  function ScanEntry(s: Scan, e: DirEntry, files: map<int, ProcFiles>, users: map<int, string>): Scan {
    if s.aborted || !IsPidDirectory(e) then s
    else if e.name == [] || DecimalValue(e.name) > IntMax then Scan(s.found, true)
    else
      var pid := DecimalValue(e.name);
      match ReadProc(Blank, pid, FilesOf(files, pid).stat, FilesOf(files, pid).status, users)
      case Threw => Scan(s.found, true)
      case Returned(ok, q) => if ok then Scan(s.found + [q], false) else s
  }

  function Collect(es: seq<DirEntry>, files: map<int, ProcFiles>, users: map<int, string>): Scan {
    if es == [] then Scan([], false)
    else ScanEntry(Collect(es[..|es| - 1], files, users), es[|es| - 1], files, users)
  }

  /** Once an exception has ended the scan, later entries change nothing. */
  lemma {:induction false} CollectAbortPersists(es: seq<DirEntry>, n: nat, files: map<int, ProcFiles>,
                                                users: map<int, string>)
    requires n <= |es| && Collect(es[..n], files, users).aborted
    ensures Collect(es, files, users) == Collect(es[..n], files, users)
  {
    if n < |es| {
      var front := es[..|es| - 1];
      assert front[..n] == es[..n];
      CollectAbortPersists(front, n, files, users);
    } else {
      assert es[..n] == es;
    }
  }

  /** Every record comes from a numeric directory and carries the pid its name spells. */
  lemma {:induction false} CollectKeepsPidDirectories(es: seq<DirEntry>, files: map<int, ProcFiles>,
                                                      users: map<int, string>)
    ensures forall q :: q in Collect(es, files, users).found ==>
      exists e :: e in es && IsPidDirectory(e) && e.name != [] && DecimalValue(e.name) == q.pid <= IntMax
  {
    if es != [] {
      var front := es[..|es| - 1];
      var last := es[|es| - 1];
      CollectKeepsPidDirectories(front, files, users);
      forall q | q in Collect(es, files, users).found
        ensures exists e :: e in es && IsPidDirectory(e) && e.name != [] && DecimalValue(e.name) == q.pid <= IntMax
      {
        if q in Collect(front, files, users).found {
          var e :| e in front && IsPidDirectory(e) && e.name != [] && DecimalValue(e.name) == q.pid <= IntMax;
          assert e in es;
        } else {
          assert last in es;
        }
      }
    }
  }

  /** At most one record per directory entry. */
  lemma {:induction false} CollectLength(es: seq<DirEntry>, files: map<int, ProcFiles>, users: map<int, string>)
    ensures |Collect(es, files, users).found| <= |es|
  {
    if es != [] {
      CollectLength(es[..|es| - 1], files, users);
    }
  }

  /**
   * An entry that ends the scan: a numeric directory whose name std::stoi rejects (empty or
   * past INT_MAX), or one whose readFromProc throws.
   */
  predicate Throws(e: DirEntry, files: map<int, ProcFiles>, users: map<int, string>) {
    IsPidDirectory(e) &&
    (e.name == [] || DecimalValue(e.name) > IntMax ||
     ReadProc(Blank, DecimalValue(e.name), FilesOf(files, DecimalValue(e.name)).stat,
              FilesOf(files, DecimalValue(e.name)).status, users).Threw?)
  }

  /** Some entry of the listing ends the scan. */
  predicate AnyThrows(es: seq<DirEntry>, files: map<int, ProcFiles>, users: map<int, string>) {
    es != [] && (AnyThrows(es[..|es| - 1], files, users) || Throws(es[|es| - 1], files, users))
  }

  /**
   * What one entry contributes when it does not throw: the record readFromProc filled, for a
   * numeric directory whose read returned true; nothing otherwise.
   */
  function KeptFrom(e: DirEntry, files: map<int, ProcFiles>, users: map<int, string>): seq<Process> {
    if !IsPidDirectory(e) || e.name == [] || DecimalValue(e.name) > IntMax then []
    else
      var pid := DecimalValue(e.name);
      var r := ReadProc(Blank, pid, FilesOf(files, pid).stat, FilesOf(files, pid).status, users);
      if r.Returned? && r.ok then [r.p] else []
  }

  /** The successful reads of the entries, in listing order. */
  function Kept(es: seq<DirEntry>, files: map<int, ProcFiles>, users: map<int, string>): seq<Process> {
    if es == [] then [] else KeptFrom(es[0], files, users) + Kept(es[1..], files, users)
  }

  lemma {:induction false} KeptSnoc(es: seq<DirEntry>, e: DirEntry, files: map<int, ProcFiles>,
                                    users: map<int, string>)
    ensures Kept(es + [e], files, users) == Kept(es, files, users) + KeptFrom(e, files, users)
  {
    if es != [] {
      assert (es + [e])[1..] == es[1..] + [e];
      KeptSnoc(es[1..], e, files, users);
    }
  }

  /** One pass of the loop, said with Throws and KeptFrom. */
  lemma ScanEntryStep(s: Scan, e: DirEntry, files: map<int, ProcFiles>, users: map<int, string>)
    requires !s.aborted
    ensures ScanEntry(s, e, files, users)
         == if Throws(e, files, users) then Scan(s.found, true) else Scan(s.found + KeptFrom(e, files, users), false)
  {
  }

  /** When no entry throws, the scan returns every successful read, in listing order. */
  lemma {:induction false} CollectIsKept(es: seq<DirEntry>, files: map<int, ProcFiles>, users: map<int, string>)
    ensures Collect(es, files, users).aborted <==> AnyThrows(es, files, users)
    ensures !AnyThrows(es, files, users) ==> Collect(es, files, users).found == Kept(es, files, users)
  {
    if es != [] {
      var front, last := es[..|es| - 1], es[|es| - 1];
      CollectIsKept(front, files, users);
      if !AnyThrows(front, files, users) {
        ScanEntryStep(Collect(front, files, users), last, files, users);
        assert es == front + [last];
        KeptSnoc(front, last, files, users);
      }
    }
  }

  /**
   * When the entry at k is the first to throw, the scan ends there and returns the successful
   * reads of the entries before it, in listing order.
   */
  lemma CollectStopsAtFirstThrow(es: seq<DirEntry>, k: nat, files: map<int, ProcFiles>, users: map<int, string>)
    requires k < |es| && !AnyThrows(es[..k], files, users) && Throws(es[k], files, users)
    ensures Collect(es, files, users) == Scan(Kept(es[..k], files, users), true)
  {
    var upto := es[..k + 1];
    assert upto[..k] == es[..k];
    CollectIsKept(es[..k], files, users);
    ScanEntryStep(Collect(es[..k], files, users), es[k], files, users);
    CollectAbortPersists(es, k + 1, files, users);
  }

  /** ProcessManager::getAllProcesses over a /proc listing and the files under it. */
  method GetAllProcesses(entries: seq<DirEntry>, files: map<int, ProcFiles>, users: map<int, string>)
    returns (processes: seq<Process>)
    ensures processes == Collect(entries, files, users).found
  {
    processes := [];
    for i := 0 to |entries|
      invariant Collect(entries[..i], files, users) == Scan(processes, false)
    {
      assert entries[..i + 1][..i] == entries[..i];
      var entry := entries[i];
      if !entry.isDirectory {
        continue;
      }
      var dirName := entry.name;
      var isNumeric := IsNumericName(dirName);
      if !isNumeric {
        continue;
      }
      if dirName == [] || DecimalValue(dirName) > IntMax {
        CollectAbortPersists(entries, i + 1, files, users);
        return;
      }
      var pid := DecimalValue(dirName);
      var outcome := ReadFromProc(Blank, pid, FilesOf(files, pid).stat, FilesOf(files, pid).status, users);
      if outcome.Threw? {
        CollectAbortPersists(entries, i + 1, files, users);
        return;
      }
      if outcome.ok {
        processes := processes + [outcome.p];
      }
    }
    assert entries[..|entries|] == entries;
  }

  /** The digit loop of getAllProcesses: it stops at the first character that is not a digit. */
  method IsNumericName(dirName: string) returns (isNumeric: bool)
    ensures isNumeric <==> AllDigits(dirName)
  {
    isNumeric := true;
    var j := 0;
    while j < |dirName|
      invariant 0 <= j <= |dirName|
      invariant isNumeric && forall m :: 0 <= m < j ==> IsDigit(dirName[m])
    {
      if !IsDigit(dirName[j]) {
        isNumeric := false;
        break;
      }
      j := j + 1;
    }
  }

  /** 2^64: unsigned long arithmetic wraps modulo this. */
  const U64: nat := 0x1_0000_0000_0000_0000

  /**
   * ProcessManager::getTotalCPUTime: the first seven numbers after the label on the first
   * line of /proc/stat, summed as unsigned long. A number that is not there leaves its
   * uninitialised variable; that value is taken to be 0 here.
   */
  function GetTotalCpuTime(statFile: Option<string>): (total: nat)
    ensures total < U64
    ensures statFile.None? ==> total == 0
  {
    match statFile
    case None => 0
    case Some(c) =>
      var line := if FirstLine(c).Some? then FirstLine(c).value else "";
      var cpu := ReadWord(Stream(line, false), "");
      SumCounters(cpu.stream, 7) % U64
  }

  /** `iss >> user >> nice >> ...`: the sum of the next n numbers read from the stream. */
  function SumCounters(st: Stream, n: nat): int
    decreases n
  {
    if n == 0 then 0
    else
      var e := ReadNumber(st, 0);
      e.value + SumCounters(e.stream, n - 1)
  }

  /** The sum of the values of the numerals. */
  function SumOf(ws: seq<string>): int
    requires AllNumerals(ws)
  {
    if ws == [] then 0 else NumeralValue(ws[0]) + SumOf(ws[1..])
  }

  /** Summing n counters written one after another sums their values. */
  lemma {:induction false} SumCountersOf(ws: seq<string>, n: nat)
    requires n <= |ws| && AllNumerals(ws)
    ensures SumCounters(Stream(Spaced(ws), false), n) == SumOf(ws[..n])
    decreases n
  {
    if n > 0 {
      var e := ReadNumber(Stream(Spaced(ws), false), 0);
      assert e == Extracted(Stream(Spaced(ws[1..]), false), NumeralValue(ws[0])) by {
        ReadSpacedHead(ws, 0);
      }
      SumCountersOf(ws[1..], n - 1);
      assert ws[..n][1..] == ws[1..][..n - 1];
    }
  }

  /** Blanks and tabs between the label and the counters do not change the sum. */
  lemma SumCountersAfterBlanks(sep: string, x: string, n: nat)
    requires forall i :: 0 <= i < |sep| ==> sep[i] == ' ' || sep[i] == '\t'
    ensures SumCounters(Stream(sep + x, false), n) == SumCounters(Stream(x, false), n)
  {
    if n > 0 {
      ReadAfterBlanks(sep, x, 0);
    }
  }

  /** The first line of the file, when it is the label, blanks, then blank-separated numerals. */
  lemma CpuLineFirst(tag: string, sep: string, ws: seq<string>, more: string)
    requires forall i :: 0 <= i < |tag| ==> !IsSpace(tag[i])
    requires forall i :: 0 <= i < |sep| ==> sep[i] == ' ' || sep[i] == '\t'
    requires AllNumerals(ws)
    ensures FirstLine(tag + sep + Spaced(ws) + "\n" + more) == Some(tag + sep + Spaced(ws))
  {
    SpacedLacks(ws, '\n');
    assert '\n' !in tag;
    assert '\n' !in sep;
    FirstLineOf(tag + sep + Spaced(ws), more);
  }

  /** Once the first line is the label followed by a blank, the total is the sum read after it. */
  lemma TotalAfterLabel(c: string, tag: string, rest: string)
    requires tag != [] && forall i :: 0 <= i < |tag| ==> !IsSpace(tag[i])
    requires rest == [] || IsSpace(rest[0])
    requires FirstLine(c) == Some(tag + rest)
    ensures GetTotalCpuTime(Some(c)) == SumCounters(Stream(rest, false), 7) % U64
  {
    ReadWrittenWord(tag, rest, "");
  }

  /** Seven counters after a run of blanks sum to the first seven values. */
  lemma SevenCountersAfterBlanks(sep: string, ws: seq<string>)
    requires forall i :: 0 <= i < |sep| ==> sep[i] == ' ' || sep[i] == '\t'
    requires 7 <= |ws| && AllNumerals(ws)
    ensures SumCounters(Stream(sep + Spaced(ws), false), 7) == SumOf(ws[..7])
  {
    SumCountersAfterBlanks(sep, Spaced(ws), 7);
    SumCountersOf(ws, 7);
  }

  lemma LabelThenRest(tag: string, sep: string, x: string)
    ensures tag + sep + x == tag + (sep + x)
  {
  }

  /**
   * A "cpu" line as the kernel writes it (the label, any run of blanks, then the counters
   * each after one blank) yields the sum of its first seven counters.
   */
  lemma TotalCpuTimeOfLine(tag: string, sep: string, ws: seq<string>, more: string)
    requires tag != [] && forall i :: 0 <= i < |tag| ==> !IsSpace(tag[i])
    requires forall i :: 0 <= i < |sep| ==> sep[i] == ' ' || sep[i] == '\t'
    requires 7 <= |ws| && forall i :: 0 <= i < |ws| ==> ws[i] != [] && AllDigits(ws[i])
    ensures GetTotalCpuTime(Some(tag + sep + Spaced(ws) + "\n" + more)) == SumOf(ws[..7]) % U64
  {
    assert AllNumerals(ws);
    var counters := Spaced(ws);
    var rest := sep + counters;
    var c := tag + sep + counters + "\n" + more;
    CpuLineFirst(tag, sep, ws, more);
    LabelThenRest(tag, sep, counters);
    assert IsSpace(rest[0]) by {
      if sep == [] {
        assert rest == counters;
      } else {
        assert rest[0] == sep[0];
      }
    }
    TotalAfterLabel(c, tag, rest);
    SevenCountersAfterBlanks(sep, ws);
  }

  /**
   * Process::calculateCPU: 0 when no CPU time passed in total, otherwise the process's share
   * of it in percent, with the process's own difference taken as unsigned long. Only
   * cpuPercent changes.
   */
  function CalculateCpu(p: Process, prevUtime: nat, prevStime: nat, totalTimeDiff: nat): (q: Process)
    ensures q == p.(cpuPercent := q.cpuPercent)
    ensures totalTimeDiff == 0 ==> q.cpuPercent == 0.0
    ensures 0.0 <= q.cpuPercent
    ensures 0 < totalTimeDiff && prevUtime + prevStime <= p.utime + p.stime < U64 ==>
      q.cpuPercent * (totalTimeDiff as real) == 100.0 * ((p.utime + p.stime - prevUtime - prevStime) as real)
  {
    if totalTimeDiff == 0 then p.(cpuPercent := 0.0)
    else
      var processTimeDiff := ((p.utime + p.stime) - (prevUtime + prevStime)) % U64;
      p.(cpuPercent := (100.0 * (processTimeDiff as real)) / (totalTimeDiff as real))
  }

  /** ProcessManager::killProcess: refused for pid <= 0, otherwise kill(2) returning 0. */
  function KillProcess(pid: int, signal: int, kill: (int, int) -> int): (ok: bool)
    ensures pid <= 0 ==> !ok
    ensures 0 < pid ==> (ok <==> kill(pid, signal) == 0)
  {
    pid > 0 && kill(pid, signal) == 0
  }

  /** ProcessManager::setProcessPriority: refused for pid <= 0, otherwise setpriority(2) returning 0. */
  function SetProcessPriority(pid: int, priority: int, setpriority: (int, int) -> int): (ok: bool)
    ensures pid <= 0 ==> !ok
    ensures 0 < pid ==> (ok <==> setpriority(pid, priority) == 0)
  {
    pid > 0 && setpriority(pid, priority) == 0
  }

  /** Neither call reaches the kernel for a pid that is not positive: the answer is false whatever the call would do. */
  lemma ManagerRefusesWithoutCall(pid: int, signal: int, priority: int, kill1: (int, int) -> int,
                                  kill2: (int, int) -> int, set1: (int, int) -> int, set2: (int, int) -> int)
    requires pid <= 0
    ensures KillProcess(pid, signal, kill1) == KillProcess(pid, signal, kill2) == false
    ensures SetProcessPriority(pid, priority, set1) == SetProcessPriority(pid, priority, set2) == false
  {
  }

  /**
   * Unlike ProcessController::setPriority, setProcessPriority does not check the nice range:
   * a value outside -20..19 is passed to setpriority(2), and succeeds when the kernel accepts it.
   */
  lemma PriorityRangeUnchecked(pid: int, priority: int, setpriority: (int, int) -> int)
    requires 0 < pid && (priority < ProcessControl.MinNice || ProcessControl.MaxNice < priority)
    requires setpriority(pid, priority) == 0
    ensures SetProcessPriority(pid, priority, setpriority)
    ensures !ProcessControl.SetPriority(pid, priority, setpriority)
  {
  }
}
