# lpm: a verified model of the Linux Process Manager core

lpm is a terminal process manager written in C++. It reads every process from `/proc` and shows them
in an ncurses list, which can be filtered, sorted and drawn as a parent/child tree. From that list it
sends signals and changes priorities. This project models its core in Dafny and proves properties of
that model. The core has five parts:

- **Record parsing** (`ProcReader`, `record.dfy`, with `Streams`, `stream.dfy`, and `Text`, `text.dfy`).
  - `Process::readFromProc` cuts the first line of `/proc/<pid>/stat` at the first `(` and the last `)`.
    It reads the positional fields with `operator>>` and scans the `status` lines for `VmSize:`, `VmRSS:`
    and `Uid:`.
  - `getAllProcesses` walks the `/proc` listing. `getTotalCPUTime` and `calculateCPU` work on CPU times.
  - The pid guards of `killProcess` and `setProcessPriority` are modelled too.
  - The files, the password database and the system calls are parameters.
  - `Streams` models the part of the C++ stream library these functions rely on: formatted extraction
    and `getline`.
- **Filter and sort pipeline** (`ProcessFilter`, `filter.dfy`; `ProcessSorter`, `sorter.dfy`).
  - Every `filterBy*`, `getChildren`, `filterCustom` and `search` is one loop, `FilterWhere`, proved
    equal to the specification `Filtered`.
  - `ProcessSorter::sort` is proved to return a sorted permutation. The top-N views are modelled too.
- **Process tree** (`ProcessTree`, `tree.dfy`, with `PidOrder`, `pids.dfy`).
  - `buildTree`'s passes run over a map from pid to node. The model proves:
    - the child lists and roots it builds;
    - the depth of every node;
    - that each node is placed exactly once.
  - `getDescendants` is proved to return the nodes below a pid, in pre-order, each once.
  - `getTreeLines` is proved to draw every node reachable from a root, each on its own line.
- **Process control** (`ProcessControl`, `control.dfy`). These are the guards in front of `kill(2)`,
  `setpriority(2)` and `getpriority(2)`, the signal-name table and the list of common signals.
- **Interactive session** (`Tui`, `tui.dfy`). The class `ProcessTUI` holds the session fields. It has:
  - one method per handler: navigation, actions, sorting, refresh, kill with confirmation, and the toggle
    and stub actions;
  - `HandleInput`, which runs the handlers on one key;
  - `Turn` and `Run` for the event loop.

  The screen height, the clock, the key read, the answer to the kill prompt and each refresh's process
  list are inputs, bundled per loop turn in a `Tick`.

Behaviour of the code worth noting:

- `readFromProc` returns true even when the fields after the name are short or not numeric. Missing
  fields keep their old values, and a non-numeric one reads as 0. It does not report a malformed
  record.
- An exception inside `getAllProcesses` ends the whole scan, because the `try` surrounds the loop. It
  does not skip one process. The exceptions are `std::stoi` past `INT_MAX` and `substr` past the end of
  a stat line that ends in `)`.
- `buildTree` has no cycle detection.
  - A node on a ppid cycle, or hanging below one, is never a root, so it keeps depth 0.
  - `getDescendants` is modelled only for a pid that is not on such a cycle. On a cycle the C++ does
    not terminate.
- A refresh clamps the selection by index. It does not follow the selected pid.
- Every sort key flips the direction, including the first press on a new field.
- Page-Down is not clamped to the list. It can leave a negative scroll offset, and on an empty list a
  selection of -1.

## Model

| member | source | states |
|---|---|---|
| `Text.NatToStringFacts` | lpm/src/process.cpp:97 | `std::to_string` of a natural number is a non-empty digit string whose decimal value is the number |
| `Text.IntToStringFacts` | lpm/src/process.cpp:97 | the rendering of a negative number is a minus sign and digits; of any other number, digits only |
| `Text.IndexOf` | lpm/src/process.cpp:36 | `find('(')`: the first position of the character, or npos (-1) exactly when it is absent |
| `Text.LastIndexOf` | lpm/src/process.cpp:37 | `rfind(')')`: the last position of the character, or npos exactly when it is absent |
| `Text.StrLessIrreflexive` | lpm/src/process_filter.cpp:158-160 | `std::string`'s `<` is irreflexive |
| `Text.StrLessTransitive` | lpm/src/process_filter.cpp:158-160 | `std::string`'s `<` is transitive |
| `Text.StrLessTotal` | lpm/src/process_filter.cpp:158-160 | two different strings are ordered one way or the other |
| `Streams.ReadWord` | lpm/src/process.cpp:47 | `>> state`: a failed stream leaves the target; success gives a non-empty blank-free word, stopping at a blank |
| `Streams.ReadNumber` | lpm/src/process.cpp:47 | `>> ppid`: a failed stream leaves the target; at the end it fails and leaves the target; a conversion failure stores 0 |
| `Streams.ReadNumeral` | lpm/src/process.cpp:47 | reading a numeral after a blank gives its value and stops after it |
| `Streams.ReadWrittenWord` | lpm/src/process.cpp:47 | reading a blank-free word gives the word back |
| `Streams.SkipSpacedPrefix` | lpm/src/process.cpp:50-53 | the skip loops drop exactly k of a run of blank-separated numerals |
| `Streams.LinesUnlines` | lpm/src/process.cpp:78 | successive `getline` calls give back the lines written one per newline |
| `Streams.FirstLineOf` | lpm/src/process.cpp:31 | the first `getline` stops at the first newline |
| `ProcReader.SplitStatLine` | lpm/src/process.cpp:36-43 | no name exactly when a parenthesis is missing; the `substr` throws exactly when the line ends in `)` |
| `ProcReader.SplitRecoversName` | lpm/src/process.cpp:36-43 | a name holding parentheses and blanks is recovered intact when nothing before it holds `(` and nothing after it `)` |
| `ProcReader.ReadStatFields` | lpm/src/process.cpp:46-69 | the stat fields change only state, ppid, utime, stime, numThreads and starttime |
| `ProcReader.ReadStatFieldsPositions` | lpm/src/process.cpp:46-69 | on kernel-shaped fields, ppid, utime, stime, numThreads and starttime come from positions 1, 11, 12, 17 and 19 after the state |
| `ProcReader.ReadStatStream` | lpm/src/process.cpp:46-69 | the extraction and skip loops, step by step, give `ReadStatFields` |
| `ProcReader.StatusStepOther` | lpm/src/process.cpp:78-89 | a status line without a key leaves that key's value alone |
| `ProcReader.StatusStepKey` | lpm/src/process.cpp:78-89 | a line starting with a key reaches that key's branch: the value is the number read after the key |
| `ProcReader.ScanStatusNoKey` | lpm/src/process.cpp:76-89 | without a line for a key the value stays as it started (uid stays -1) |
| `ProcReader.ScanStatusLastWins` | lpm/src/process.cpp:78-89 | the last line with a key decides its value |
| `ProcReader.ResolveUser` | lpm/src/process.cpp:92-99 | no uid seen: user unchanged; a known uid: its name; an unknown uid: the decimal numeral of the uid |
| `ProcReader.ApplyStatusWithoutUid` | lpm/src/process.cpp:76-99 | without a `Uid:` line the user field keeps the value it had (empty after `Process()`) |
| `ProcReader.ReadStatusFile` | lpm/src/process.cpp:72-100 | the getline loop and the uid lookup give `ApplyStatus` |
| `ProcReader.StatLine` | lpm/src/process.cpp:24-33 | no line exactly when the stat file is missing or empty |
| `ProcReader.ReadProcOutcome` | lpm/src/process.cpp:20-103 | false exactly when the stat file is missing or empty or a parenthesis is missing, and then only pid is set; it throws exactly when the line ends in `)` |
| `ProcReader.ReadProcStatFile` | lpm/src/process.cpp:20-69 | a kernel-written stat line fills name, state, ppid, utime, stime, numThreads and starttime, and pid is the one asked for |
| `ProcReader.ReadFromProc` | lpm/src/process.cpp:20-103 | the method, reading its two files step by step, gives `ReadProc` |
| `ProcReader.IsNumericName` | lpm/src/process.cpp:136-142 | the digit loop accepts a name exactly when every character is a digit |
| `ProcReader.CollectAbortPersists` | lpm/src/process.cpp:127-157 | after an exception no later entry changes the result |
| `ProcReader.CollectKeepsPidDirectories` | lpm/src/process.cpp:128-153 | every process kept comes from a non-empty all-digit directory whose value is its pid and fits an int |
| `ProcReader.CollectLength` | lpm/src/process.cpp:128-153 | at most one process per directory entry |
| `ProcReader.GetAllProcesses` | lpm/src/process.cpp:123-160 | the loop with `continue`s and `push_back` gives `Collect`, in enumeration order |
| `ProcReader.CollectIsKept` | lpm/src/process.cpp:127-157 | the scan ends early exactly when some listed entry throws; if none throws, the result is exactly the filter-map `Kept`: one process per pid directory whose `readFromProc` returned true, in listing order |
| `ProcReader.CollectStopsAtFirstThrow` | lpm/src/process.cpp:127-157 | when entry k is the first to throw, the scan aborts holding exactly the successful reads of the entries before k |
| `ProcReader.KeptSnoc` | lpm/src/process.cpp:128-153 | appending one entry to the listing appends that entry's contribution (zero or one process) to `Kept` |
| `ProcReader.GetTotalCpuTime` | lpm/src/process.cpp:200-218 | the sum is below 2^64; an unreadable file gives 0 |
| `ProcReader.TotalCpuTimeOfLine` | lpm/src/process.cpp:206-217 | a first line made of the `cpu` label, any run of blanks or tabs (the kernel writes two), then the counters each after one blank, gives the sum of its first seven counters, modulo 2^64 |
| `Streams.ReadAfterBlanks` | lpm/src/process.cpp:215 | integer extraction skips any run of blanks and tabs before the number, so they do not change what is read |
| `ProcReader.CalculateCpu` | lpm/src/process.cpp:106-115 | only cpuPercent changes; 0 when no total time passed; otherwise percent times total equals 100 times the process's own time |
| `ProcReader.KillProcess` | lpm/src/process.cpp:170-176 | false for pid <= 0; otherwise true exactly when `kill` returns 0 |
| `ProcReader.SetProcessPriority` | lpm/src/process.cpp:179-185 | false for pid <= 0; otherwise true exactly when `setpriority` returns 0 |
| `ProcReader.ManagerRefusesWithoutCall` | lpm/src/process.cpp:170-185 | for pid <= 0 both manager calls return false whatever the system call would have answered, so the system is never asked |
| `ProcReader.PriorityRangeUnchecked` | lpm/src/process.cpp:179-185 | unlike `ProcessControl::setPriority`, the manager passes a nice value outside -20..19 to the system and reports success when the call succeeds |
| `ProcessFilter.ToLower` | lpm/src/process_filter.cpp:6-11 | same length; a character changes exactly when it is `A`-`Z`, and then to the letter 32 above; no upper-case letter remains |
| `ProcessFilter.ToLowerIdempotent` | lpm/src/process_filter.cpp:6-11 | lowering twice is lowering once |
| `ProcessFilter.FilteredCounts` | lpm/src/process_filter.cpp:19-24 | a passing process occurs in the result as often as in the input; a failing one not at all |
| `ProcessFilter.FilteredIsSubsequence` | lpm/src/process_filter.cpp:19-24 | the result keeps the input order |
| `ProcessFilter.FilteredSpec` | lpm/src/process_filter.cpp:19-24 | subsequence; membership exactly the passing input elements; no longer than the input |
| `ProcessFilter.FilteredKeepsAll` | lpm/src/process_filter.cpp:19-24 | when every process passes, the result is the input |
| `ProcessFilter.FilteredMonotone` | lpm/src/process_filter.cpp:19-24 | a stricter test keeps a subsequence of what a weaker one keeps |
| `ProcessFilter.EmptyNamePatternKeepsAll` | lpm/src/process_filter.cpp:14-27 | an empty name pattern keeps every process |
| `ProcessFilter.NamePatternCaseInsensitive` | lpm/src/process_filter.cpp:14-27 | the name filter gives the same result for a pattern and its lower-case form |
| `ProcessFilter.EmptyQueryKeepsAll` | lpm/src/process_filter.cpp:134-150 | an empty search query keeps every process |
| `ProcessFilter.NameMatchesAreSearchMatches` | lpm/src/process_filter.cpp:134-150 | what the name filter keeps, search keeps too, in the same order |
| `ProcessFilter.FilterWhere` | lpm/src/process_filter.cpp:120-131 | the push_back loop gives `Filtered`: a subsequence holding exactly the passing elements |
| `ProcessFilter.FilterByName` | lpm/src/process_filter.cpp:14-27 | kept exactly when the lowered name contains the lowered pattern, in input order |
| `ProcessFilter.FilterByUser` | lpm/src/process_filter.cpp:30-41 | kept exactly when the user equals the argument, in input order |
| `ProcessFilter.FilterByState` | lpm/src/process_filter.cpp:44-55 | kept exactly when the state equals the argument, in input order |
| `ProcessFilter.FilterByPidRange` | lpm/src/process_filter.cpp:58-69 | kept exactly when min <= pid <= max, both bounds included |
| `ProcessFilter.FilterByMemory` | lpm/src/process_filter.cpp:72-83 | kept exactly when min <= vmRSS <= max, both bounds included |
| `ProcessFilter.FilterByCpu` | lpm/src/process_filter.cpp:86-97 | kept exactly when min <= cpuPercent <= max |
| `ProcessFilter.FilterByParent` | lpm/src/process_filter.cpp:100-111 | kept exactly when ppid equals the argument, in input order |
| `ProcessFilter.GetChildren` | lpm/src/process_filter.cpp:114-117 | the same list as `filterByParent` |
| `ProcessFilter.FilterCustom` | lpm/src/process_filter.cpp:120-131 | kept exactly when the predicate holds, in input order |
| `ProcessFilter.Search` | lpm/src/process_filter.cpp:134-150 | kept exactly when the lowered name or the lowered user contains the lowered query, in input order |
| `ProcessSorter.KeyLessIrreflexive` | lpm/src/process_filter.cpp:154-180 | no field value compares below itself |
| `ProcessSorter.KeyLessTransitive` | lpm/src/process_filter.cpp:154-180 | each field's order is transitive |
| `ProcessSorter.KeyLessTotal` | lpm/src/process_filter.cpp:154-180 | two processes either compare on a field or agree on it |
| `ProcessSorter.CompareIrreflexive` | lpm/src/process_filter.cpp:154-180 | the `compare*` functions, either direction, are irreflexive |
| `ProcessSorter.CompareTransitive` | lpm/src/process_filter.cpp:154-180 | the `compare*` functions, either direction, are transitive (a strict weak order for `std::sort`) |
| `ProcessSorter.SortedMeansMonotone` | lpm/src/process_filter.cpp:183-227 | sorted ascending is non-decreasing in the field; sorted descending is non-increasing |
| `ProcessSorter.InsertSorted` | lpm/src/process_filter.cpp:183-227 | inserting into a sorted list keeps it sorted and adds exactly the element |
| `ProcessSorter.Sort` | lpm/src/process_filter.cpp:183-227 | a permutation of the input, sorted on the field in the direction |
| `ProcessSorter.SortedPrefixBeatsRest` | lpm/src/process_filter.cpp:249-251 | cutting a sorted list: nothing cut off compares before anything kept |
| `ProcessSorter.TopByMemory` | lpm/src/process_filter.cpp:244-254 | min(count, n) elements drawn from the input, non-increasing in vmRSS, none left out with more vmRSS than one kept |
| `ProcessSorter.TopByCpu` | lpm/src/process_filter.cpp:231-241 | the same for cpuPercent |
| `PidOrder.AscendingKeys` | lpm/src/process_tree.cpp:44 | a `std::map`'s keys are visited in strictly ascending order, each once |
| `PidOrder.AscendingSameSet` | lpm/src/process_tree.cpp:44 | two ascending lists with the same elements are equal |
| `PidOrder.AscendingCard` | lpm/src/process_tree.cpp:44 | an ascending list of a set's elements is as long as the set |
| `PidOrder.InsertPid` | lpm/src/process_tree.cpp:66-70 | an insertion step keeps a pid list non-decreasing and adds exactly the pid |
| `PidOrder.SortPids` | lpm/src/process_tree.cpp:66-70 | sorting a child list gives a non-decreasing permutation |
| `PidOrder.SortedUnique` | lpm/src/process_tree.cpp:66-70 | a strictly ascending list is the only sorted arrangement of its pids, so sorting it changes nothing |
| `ProcessTree.ProcessTree.constructor` | lpm/src/process_tree.cpp:6-7 | an empty tree: no nodes, no roots |
| `ProcessTree.ProcessTree.Clear` | lpm/src/process_tree.cpp:14-20 | no roots and no nodes afterwards |
| `ProcessTree.ProcessTree.BuildTree` | lpm/src/process_tree.cpp:33-72 | any previous tree is discarded; one node per pid holding the last process with it; child lists, roots and depths right |
| `ProcessTree.BuildPasses` | lpm/src/process_tree.cpp:34-71 | the four passes give a `Built` forest over the processes indexed by pid |
| `ProcessTree.CreateNodes` | lpm/src/process_tree.cpp:37-41 | one node per pid, no children, depth 0, a later process replacing an earlier one with its pid |
| `ProcessTree.IndexLast` | lpm/src/process_tree.cpp:37-41 | the node for a pid holds the last process of the list with that pid |
| `ProcessTree.IndexHas` | lpm/src/process_tree.cpp:37-41 | every pid of the list gets a node |
| `ProcessTree.LinkNodes` | lpm/src/process_tree.cpp:44-57 | each node's children are the pids whose ppid names it; the roots the ones whose ppid names no node |
| `ProcessTree.WithParentHas` | lpm/src/process_tree.cpp:44-57 | a pid is appended to a list exactly when it is in the map and its parent is that list's owner (none for the roots) |
| `ProcessTree.LinksRight` | lpm/src/process_tree.cpp:44-57 | after the second pass, c is a child of n exactly when c's ppid is n, and child lists are ascending |
| `ProcessTree.RootsRight` | lpm/src/process_tree.cpp:44-57 | the roots are exactly the nodes whose ppid names no node, in ascending pid order |
| `ProcessTree.PlacedOnceLinks` | lpm/src/process_tree.cpp:44-57 | each pid visited is appended once: roots plus all child lists count the pids |
| `ProcessTree.PlacedOnce` | lpm/src/process_tree.cpp:44-57 | in a built tree, roots plus all child lists are as many as the nodes |
| `ProcessTree.RootNotOnCycle` | lpm/src/process_tree.cpp:49-55 | a root is never on a ppid cycle |
| `ProcessTree.ChainBound` | lpm/src/process_tree.cpp:75-82 | below a node not on a cycle every ancestor chain is shorter than the node count, so the depth recursion ends |
| `ProcessTree.SetDepthsAt` | lpm/src/process_tree.cpp:75-82 | `buildTreeRecursive(x, d)` gives the node j steps below x the depth d + j |
| `ProcessTree.SetDepthsOff` | lpm/src/process_tree.cpp:75-82 | `buildTreeRecursive(x, d)` leaves every node not under x as it was |
| `ProcessTree.SetChildDepthsAt` | lpm/src/process_tree.cpp:79-81 | the loop over the children from the i-th on sets the depths below each later child |
| `ProcessTree.SetChildDepthsOff` | lpm/src/process_tree.cpp:79-81 | the loop over the children leaves nodes under none of them as they were |
| `ProcessTree.SetRootDepths` | lpm/src/process_tree.cpp:60-62 | the loop over the roots gives `RootDepths` over all roots |
| `ProcessTree.RootDepthsAt` | lpm/src/process_tree.cpp:60-62 | a node j steps below one of the first i roots has depth j |
| `ProcessTree.RootDepthsOff` | lpm/src/process_tree.cpp:60-62 | a node below none of the first i roots keeps its depth |
| `ProcessTree.RootDepthsRight` | lpm/src/process_tree.cpp:60-62 | after the depth pass a node d steps below a root has depth d; a node below no root keeps depth 0 |
| `ProcessTree.DepthsPassRight` | lpm/src/process_tree.cpp:59-62 | the depth pass completes a `Built` forest and changes no process |
| `ProcessTree.SortChildren` | lpm/src/process_tree.cpp:65-71 | sorting the already ascending child lists changes nothing |
| `ProcessTree.ProcessTree.FindProcess` | lpm/src/process_tree.cpp:164-170 | a node exactly for a present pid, holding that pid's process; none for an absent one |
| `ProcessTree.ProcessTree.GetDescendants` | lpm/src/process_tree.cpp:173-182 | empty for an unknown pid; otherwise exactly the nodes strictly below pid, in pre-order, each once |
| `ProcessTree.GetDescendantsRecursive` | lpm/src/process_tree.cpp:185-193 | appends `Desc`: each child, then what lies below it, child by child |
| `ProcessTree.DescHas` | lpm/src/process_tree.cpp:185-193 | the collected pids are exactly the nodes strictly below x |
| `ProcessTree.DescDistinct` | lpm/src/process_tree.cpp:185-193 | no pid is collected twice |
| `ProcessTree.LabelParts` | lpm/src/process_tree.cpp:142-152 | a label starts with pid and name; has the thread count exactly when asked for and above 1; ends in `kB` exactly when vmRSS > 0, else in `)` |
| `ProcessTree.PartsShape` | lpm/src/process_tree.cpp:144-152 | the thread part is shown exactly when asked for and numThreads > 1; the memory part, `" <vmRSS>kB"`, exactly when vmRSS > 0 |
| `ProcessTree.GetNodeLines` | lpm/src/process_tree.cpp:134-161 | appends `NodeLines`: the node's own line, then each child's lines under the extended prefix |
| `ProcessTree.NodeLinesDraw` | lpm/src/process_tree.cpp:134-161 | a node's lines draw it and then its descendants in pre-order, one line per node, each line ending with its node's label |
| `ProcessTree.ChildLinesDraw` | lpm/src/process_tree.cpp:156-160 | the loop over the children draws the nodes it collects, in that order |
| `ProcessTree.ProcessTree.GetTreeLines` | lpm/src/process_tree.cpp:123-131 | each root's lines in turn from the empty prefix, the last root drawn as last |
| `ProcessTree.TreeLinesDraw` | lpm/src/process_tree.cpp:123-131 | the tree's lines draw the pre-order of the forest one for one |
| `ProcessTree.ForestHas` | lpm/src/process_tree.cpp:123-131 | the nodes drawn are exactly the nodes some root leads down to |
| `ProcessTree.ForestDistinct` | lpm/src/process_tree.cpp:123-131 | no node is drawn twice |
| `ProcessControl.SendSignal` | lpm/src/process_control.cpp:8-13 | false for pid <= 0; otherwise true exactly when `kill` returns 0 |
| `ProcessControl.RefusedWithoutCall` | lpm/src/process_control.cpp:8-13 | for pid <= 0 the answer does not depend on `kill` at all |
| `ProcessControl.Terminate` | lpm/src/process_control.cpp:16-18 | true exactly when pid > 0 and `kill(pid, 15)` returns 0 |
| `ProcessControl.Kill` | lpm/src/process_control.cpp:21-23 | true exactly when pid > 0 and `kill(pid, 9)` returns 0 |
| `ProcessControl.Stop` | lpm/src/process_control.cpp:26-28 | true exactly when pid > 0 and `kill(pid, 19)` returns 0 |
| `ProcessControl.Resume` | lpm/src/process_control.cpp:31-33 | true exactly when pid > 0 and `kill(pid, 18)` returns 0 |
| `ProcessControl.Interrupt` | lpm/src/process_control.cpp:36-38 | true exactly when pid > 0 and `kill(pid, 2)` returns 0 |
| `ProcessControl.SetPriority` | lpm/src/process_control.cpp:41-46 | success needs pid > 0 and -20 <= nice <= 19; with both, true exactly when `setpriority` returns 0 |
| `ProcessControl.GetPriority` | lpm/src/process_control.cpp:49-62 | 0 for pid <= 0 or when errno was set; otherwise the kernel's value |
| `ProcessControl.SignalNameKnown` | lpm/src/process_control.cpp:65-89 | the name is not `UNKNOWN` exactly for 1..22 except 16 |
| `ProcessControl.SignalNameRoundTrip` | lpm/src/process_control.cpp:65-89 | every listed name starts with `SIG` and reads back to its number |
| `ProcessControl.SignalNamesDistinct` | lpm/src/process_control.cpp:65-89 | no two signals share a known name |
| `ProcessControl.GetCommonSignals` | lpm/src/process_control.cpp:93-103 | eight pairs, the first SIGTERM and the last SIGUSR2 |
| `ProcessControl.CommonSignalsListed` | lpm/src/process_control.cpp:93-103 | every offered signal has a name, and none is offered twice |
| `Tui.NavigatedInRange` | lpm/src/process_tui.cpp:187-223 | with room for one row, every key keeps a selection in -1..max(rows - 1, 0) within that range |
| `Tui.NavigatedVisible` | lpm/src/process_tui.cpp:187-223 | with room for one row, a visible selection stays visible |
| `Tui.UpDownInverse` | lpm/src/process_tui.cpp:191-209 | Up after an unblocked Down, and Down after an unblocked Up, return to the same row |
| `Tui.PageDownShortList` | lpm/src/process_tui.cpp:216-221 | Page-Down on a list shorter than the screen leaves the negative offset rows - listHeight |
| `Tui.ShownIsSearch` | lpm/src/process_tui.cpp:400-405 | the empty-query shortcut gives what `search` would give |
| `Tui.ClampedInRange` | lpm/src/process_tui.cpp:306-308 | a selection still on the list is not moved, and the result is in range |
| `Tui.SortKeyOnly` | lpm/src/process_tui.cpp:180-184 | a sort key does not move the cursor and runs no action other than the priority stub (`N`) |
| `Tui.StateDescriptionKnown` | lpm/src/process_tui.cpp:416-425 | a description other than `Unknown` exactly for the one-letter states R, S, D, Z, T, t, X |
| `Tui.StateDescriptionsDistinct` | lpm/src/process_tui.cpp:416-425 | no two states share a description |
| `Tui.TurnsRun` | lpm/src/process_tui.cpp:58-81 | the loop runs up to and including the first quit key: no earlier key quits; if ticks remain, the last key read was `q` or `Q` |
| `Tui.TurnsRunFrom` | lpm/src/process_tui.cpp:58-81 | one turn of the loop counted from the middle of the ticks |
| `Tui.ProcessTUI.constructor` | lpm/src/process_tui.cpp:9-14 | selection and offset 0, pid ascending, empty query and status, list view, never refreshed; the selection is valid |
| `Tui.ProcessTUI.Init` | lpm/src/process_tui.cpp:21-45 | the screen height read, the list refreshed from the snapshot, the start-up status |
| `Tui.ProcessTUI.HandleNavigation` | lpm/src/process_tui.cpp:187-223 | the cursor moves as `Navigated` says; with room for one row a valid selection stays valid |
| `Tui.ProcessTUI.UpdateFilter` | lpm/src/process_tui.cpp:400-408 | the list is a permutation of all processes (empty query) or of search's result, sorted by the current field and direction |
| `Tui.ProcessTUI.RefreshProcesses` | lpm/src/process_tui.cpp:301-309 | the snapshot is stored and refiltered; the selection clamped to max(0, size - 1) only when past the end; then valid |
| `Tui.ProcessTUI.KillSelectedProcess` | lpm/src/process_tui.cpp:312-335 | nothing off the list; `y`/`Y` asks terminate for the selected pid, then "terminated" and a refresh on success, "Failed to kill" otherwise; any other answer "Cancelled" |
| `Tui.ProcessTUI.ToggleTreeView` | lpm/src/process_tui.cpp:359-362 | the flag flips and the status names the new view |
| `Tui.ProcessTUI.ChangeSelectedPriority` | lpm/src/process_tui.cpp:338-345 | the not-implemented notice only when a row is selected |
| `Tui.ProcessTUI.ShowProcessDetails` | lpm/src/process_tui.cpp:348-351 | only the not-implemented notice |
| `Tui.ProcessTUI.PromptSearch` | lpm/src/process_tui.cpp:354-356 | only the not-implemented notice; the query never changes |
| `Tui.ProcessTUI.HandleActions` | lpm/src/process_tui.cpp:226-264 | each key's handler runs and nothing else changes; a valid selection stays valid |
| `Tui.ProcessTUI.HandleSorting` | lpm/src/process_tui.cpp:267-298 | `P`/`N`/`M`/`C`/`U` set the field, always flip the direction, re-sort the list as a permutation, and report; other keys change nothing |
| `Tui.ProcessTUI.HandleInput` | lpm/src/process_tui.cpp:180-184 | for `k` or `K` terminate is asked for exactly the pid of the row the cursor lands on (`k` first moves up), and only when that row exists and the answer is y or Y, otherwise for no pid; no other key asks for one; a sort key only re-sorts; navigation keys only move; a valid selection stays valid |
| `Tui.ProcessTUI.Turn` | lpm/src/process_tui.cpp:58-81 | a turn runs on exactly when the key is not `q`/`Q`; refresh after 2 seconds; no key or a quit key: nothing but the timer refresh; terminate is asked only for a kill key answered with y or Y |
| `Tui.ProcessTUI.Run` | lpm/src/process_tui.cpp:55-82 | turns are taken until the first quit key; a valid selection stays valid while the screen leaves a list row; terminate is asked at most once per turn whose key opened the kill prompt |

## Left out

- Drawing and the terminal are not modelled: `init`'s ncurses set-up, `cleanup`, every `draw*`, the help screen's text, and `usleep`. `showHelp` also waits for a key and throws it away; the model only notes that no field changes.
- `getch`, `time(nullptr)` and `getmaxyx` become fields of a `Tick`. The loop in `run` is unbounded; `Run` takes a finite sequence of ticks and stops when they run out.
- The kill prompt is drawn before its answer is read; the answer is an input.
- main.cpp is not part of this model. Neither are `ProcessTree::printTree`/`printNode` (they write to stdout; `getTreeLines` is the same logic), `ProcessManager::getProcess` or `getSystemUptime`.
- `/proc` reads, `getpwuid` and the system calls become parameters.
- Integers are unbounded except where the source's width is written out: the `unsigned long` sum in `getTotalCPUTime` and the `unsigned long` difference in `calculateCPU`. The overflow behaviour of `operator>>` and of `int` fields is not modelled.
- `ProcReader.GetTotalCpuTime`: a counter missing from a short `cpu` line is read into an uninitialised C++ variable, whose value is undefined; the model takes it as 0.
- `cpuPercent` is a `real`, so the floating-point rounding of `calculateCPU` is not modelled.
- `std::sort` works in place on a vector; `Sort` returns a new sequence built by insertion sort. Only the permutation and sortedness `std::sort` promises are stated.
- Tree nodes live in a map from pid to node, with child pids instead of links between heap objects; in-place updates through shared node objects are not modelled.
- `ProcessTree.ProcessTree.Clear`: the C++ frees only the nodes reachable from the roots, so nodes on a ppid cycle leak; memory is not modelled.
- `ProcessTree.ProcessTree.GetDescendants` requires that the pid is absent or not on a ppid cycle. For a pid on a cycle the C++ recursion does not end, so no result is modelled for it.
- `ProcessTree.GetNodeLines` and `ProcessTree.GetDescendantsRecursive` are modelled only for nodes not on a ppid cycle, which covers every node `getTreeLines` and `getDescendants` reach.
- The box-drawing connectors are single characters here, not their UTF-8 byte sequences.
- `ProcessControl.GetCommonSignals`: the descriptions are the source's literal strings; the model does not relate them to the signal names.
- `Tui.ProcessTUI.HandleInput` does not restate every handler's effect on the session fields. It states, for every key, which pid terminate is asked for (if any), and the selection invariant; the rest of each action's effect is stated on `HandleActions`.
- `Tui.ProcessTUI.Turn` does not restate `HandleInput`'s effect for a key that is handled; it states the quit check, the timer refresh, that terminate is asked only after a kill key answered with y or Y, and the selection invariant.
