/**
 * ProcessTUI (lpm/src/process_tui.cpp): the state of an interactive session and how each
 * key press changes it. Drawing, the terminal and the clock are not part of the model:
 * the screen height, the current time, the key read by getch(), the answer to the kill
 * prompt, the process list a refresh reads and kill(2) are all inputs.
 */
module Tui {
  import opened Wrappers
  import opened Text
  import opened ProcessModel
  import opened ProcessFilter
  import opened ProcessSorter
  import ProcessControl

  // The key codes ncurses reports (octal 0402, 0403, 0411, 0522, 0523, 0527) and getch()'s ERR.
  const ERR := -1
  const KEY_DOWN := 258
  const KEY_UP := 259
  const KEY_F1 := 265
  const KEY_NPAGE := 338
  const KEY_PPAGE := 339
  const KEY_ENTER := 343

  /** Seconds between two automatic refreshes (refreshInterval). */
  const RefreshInterval := 2

  function Max(a: int, b: int): int {
    if a < b then b else a
  }

  function Min(a: int, b: int): int {
    if a < b then a else b
  }

  /** The rows left for the process list: the screen less the header, column titles, status and help bars. */
  function ListHeight(screenHeight: int): int {
    screenHeight - 5
  }

  /** The selected row and the first row shown. */
  datatype Cursor = Cursor(selected: int, offset: int)

  // ---------------------------------------------------------------------------------------
  // handleNavigation

  predicate IsUpKey(ch: int) {
    ch == KEY_UP || ch == 'k' as int
  }

  predicate IsDownKey(ch: int) {
    ch == KEY_DOWN || ch == 'j' as int
  }

  /** What handleNavigation does to the cursor, for a list of `rows` rows. */
  function Navigated(c: Cursor, ch: int, rows: int, listHeight: int): Cursor {
    if IsUpKey(ch) then
      if c.selected > 0 then
        var s := c.selected - 1;
        Cursor(s, if s < c.offset then s else c.offset)
      else c
    else if IsDownKey(ch) then
      if c.selected < rows - 1 then
        var s := c.selected + 1;
        Cursor(s, if s >= c.offset + listHeight then s - listHeight + 1 else c.offset)
      else c
    else if ch == KEY_PPAGE then
      Cursor(Max(0, c.selected - listHeight), Max(0, c.offset - listHeight))
    else if ch == KEY_NPAGE then
      Cursor(Min(rows - 1, c.selected + listHeight), Min(rows - listHeight, c.offset + listHeight))
    else c
  }

  /**
   * The selection is a row of the list or -1; on an empty list it may also be 0. The value -1
   * is what Page-Down leaves on an empty list, and Down moves it back onto the first row.
   */
  predicate InRange(c: Cursor, rows: int) {
    -1 <= c.selected <= Max(rows - 1, 0)
  }

  /** The selected row is one of the listHeight rows shown from the offset on. */
  predicate Visible(c: Cursor, listHeight: int) {
    c.offset <= c.selected < c.offset + listHeight
  }

  /** On a screen with room for at least one row, every navigation key keeps the selection in range. */
  lemma NavigatedInRange(c: Cursor, ch: int, rows: nat, listHeight: int)
    requires 1 <= listHeight && InRange(c, rows)
    ensures InRange(Navigated(c, ch, rows, listHeight), rows)
  {
  }

  /** ... and keeps a visible selection visible. */
  lemma NavigatedVisible(c: Cursor, ch: int, rows: int, listHeight: int)
    requires 1 <= listHeight && Visible(c, listHeight)
    ensures Visible(Navigated(c, ch, rows, listHeight), listHeight)
  {
  }

  /** Up after Down, and Down after Up, come back to the same row when neither was blocked. */
  lemma UpDownInverse(c: Cursor, rows: int, listHeight: int)
    ensures 0 <= c.selected < rows - 1 ==>
      Navigated(Navigated(c, KEY_DOWN, rows, listHeight), KEY_UP, rows, listHeight).selected == c.selected
    ensures 0 < c.selected < rows ==>
      Navigated(Navigated(c, KEY_UP, rows, listHeight), KEY_DOWN, rows, listHeight).selected == c.selected
  {
  }

  /** Page-Down on a list shorter than the screen scrolls to a negative offset, as written. */
  lemma PageDownShortList(c: Cursor, rows: nat, listHeight: int)
    requires 0 <= c.offset && rows < listHeight
    ensures Navigated(c, KEY_NPAGE, rows, listHeight).offset == rows - listHeight < 0
  {
  }

  // ---------------------------------------------------------------------------------------
  // updateFilter / refreshProcesses

  /** The processes updateFilter keeps: all of them for an empty query, otherwise search's result. */
  function Shown(ps: seq<Process>, query: string): seq<Process> {
    if query == [] then ps else Filtered(ps, NameOrUserLike(query))
  }

  /** The empty-query shortcut gives what search would give, so the list is always search's result. */
  lemma ShownIsSearch(ps: seq<Process>, query: string)
    ensures Shown(ps, query) == Filtered(ps, NameOrUserLike(query))
  {
    if query == [] {
      EmptyQueryKeepsAll(ps);
    }
  }

  /** What updateFilter leaves in filteredProcesses: the shown processes, sorted. */
  predicate ListingOf(listed: seq<Process>, ps: seq<Process>, query: string, field: SortField, ascending: bool) {
    multiset(listed) == multiset(Shown(ps, query)) && SortedBy(listed, field, ascending)
  }

  /** The selection after a refresh: pulled back onto the last row when it fell off the end. */
  function Clamped(selected: int, rows: int): int {
    if selected >= rows then Max(0, rows - 1) else selected
  }

  /** A refresh never moves a selection that is still on the list, and leaves it in range. */
  lemma ClampedInRange(c: Cursor, rows: nat)
    requires -1 <= c.selected
    ensures c.selected < rows ==> Clamped(c.selected, rows) == c.selected
    ensures InRange(Cursor(Clamped(c.selected, rows), c.offset), rows)
  {
  }

  // ---------------------------------------------------------------------------------------
  // handleSorting

  /** The field a sort key selects: P, N, M, C and U. */
  function SortKey(ch: int): Option<SortField> {
    if ch == 'P' as int then Some(ByPid)
    else if ch == 'N' as int then Some(ByName)
    else if ch == 'M' as int then Some(ByMemory)
    else if ch == 'C' as int then Some(ByCpu)
    else if ch == 'U' as int then Some(ByUser)
    else None
  }

  /** A sort key neither moves the cursor nor runs an action other than the priority stub ('N'). */
  lemma SortKeyOnly(ch: int, c: Cursor, rows: int, listHeight: int)
    requires SortKey(ch).Some?
    ensures Navigated(c, ch, rows, listHeight) == c && ActionOf(ch) in {PriorityStub, NoAction}
  {
  }

  // ---------------------------------------------------------------------------------------
  // handleActions

  /** The handler handleActions runs for a key. */
  datatype Action = RefreshList | KillPrompt | PriorityStub | SearchStub | TreeToggle | HelpScreen | DetailsStub | NoAction

  function ActionOf(ch: int): Action {
    if ch == 'r' as int || ch == 'R' as int then RefreshList
    else if ch == 'k' as int || ch == 'K' as int then KillPrompt
    else if ch == 'n' as int || ch == 'N' as int then PriorityStub
    else if ch == '/' as int then SearchStub
    else if ch == 't' as int || ch == 'T' as int then TreeToggle
    else if ch == 'h' as int || ch == 'H' as int || ch == KEY_F1 then HelpScreen
    else if ch == '\n' as int || ch == KEY_ENTER then DetailsStub
    else NoAction
  }

  /** The status toggleTreeView leaves. */
  function TreeStatus(showTree: bool): string {
    if showTree then "Tree view enabled" else "List view enabled"
  }

  /** The status changeSelectedPriority leaves: its notice when a row is selected, else the old one. */
  function PriorityStatus(selected: int, rows: int, status: string): string {
    if 0 <= selected < rows then "Priority change not implemented in this demo" else status
  }

  // ---------------------------------------------------------------------------------------
  // getStateDescription

  /** The words shown for a one-letter process state. */
  function StateDescription(state: string): string {
    if state == "R" then "Running"
    else if state == "S" then "Sleeping"
    else if state == "D" then "Disk Sleep"
    else if state == "Z" then "Zombie"
    else if state == "T" then "Stopped"
    else if state == "t" then "Tracing"
    else if state == "X" then "Dead"
    else "Unknown"
  }

  /** Exactly the seven kernel states R, S, D, Z, T, t and X have a description. */
  lemma StateDescriptionKnown(state: string)
    ensures StateDescription(state) != "Unknown" <==>
      |state| == 1 && state[0] in {'R', 'S', 'D', 'Z', 'T', 't', 'X'}
  {
    if |state| == 1 {
      assert state == [state[0]];
    }
  }

  /** No two states share a description. */
  lemma StateDescriptionsDistinct(a: string, b: string)
    requires StateDescription(a) == StateDescription(b) != "Unknown"
    ensures a == b
  {
    StateDescriptionKnown(a);
    StateDescriptionKnown(b);
    assert a == [a[0]] && b == [b[0]];
  }

  // ---------------------------------------------------------------------------------------
  // the session

  /** One turn of run's loop: what the terminal, the clock and /proc give it. */
  datatype Tick = Tick(
    screenHeight: int,           // getmaxyx
    now: int,                    // time(nullptr)
    timerSnapshot: seq<Process>, // getAllProcesses at the automatic refresh
    key: int,                    // getch, ERR when no key was pressed
    confirmKey: int,             // the key answering the kill prompt
    keySnapshot: seq<Process>)   // getAllProcesses at a refresh the key causes

  predicate IsQuitKey(ch: int) {
    ch == 'q' as int || ch == 'Q' as int
  }

  predicate IsYes(ch: int) {
    ch == 'y' as int || ch == 'Y' as int
  }

  /** The number of turns run's loop takes: up to and including the first quit key. */
  function TurnsRun(ticks: seq<Tick>): (n: nat)
    ensures n <= |ticks| && (ticks != [] ==> 0 < n)
    ensures forall i | 0 <= i < n - 1 :: !IsQuitKey(ticks[i].key)
    ensures n < |ticks| ==> IsQuitKey(ticks[n - 1].key)
  {
    if ticks == [] then 0
    else if IsQuitKey(ticks[0].key) then 1
    else 1 + TurnsRun(ticks[1..])
  }
  /** One step of TurnsRun taken from the middle of the sequence. */
  lemma TurnsRunFrom(ticks: seq<Tick>, k: int)
    requires 0 <= k < |ticks|
    ensures TurnsRun(ticks[k..]) == if IsQuitKey(ticks[k].key) then 1 else 1 + TurnsRun(ticks[k + 1..])
  {
    assert ticks[k..][1..] == ticks[k + 1..];
  }

  /** The number of ticks whose key opens the kill prompt ('k' or 'K'). */
  function KillKeys(ticks: seq<Tick>): nat {
    if ticks == [] then 0
    else KillKeys(ticks[..|ticks| - 1]) + (if ActionOf(ticks[|ticks| - 1].key) == KillPrompt then 1 else 0)
  }

  /** Every screen height leaves at least one row for the process list. */
  predicate TallEnough(ticks: seq<Tick>) {
    forall i | 0 <= i < |ticks| :: 1 <= ListHeight(ticks[i].screenHeight)
  }


  class ProcessTUI {
    var processes: seq<Process>
    var filteredProcesses: seq<Process>
    var selectedIndex: int
    var scrollOffset: int
    var screenHeight: int
    var sortField: SortField
    var sortAscending: bool
    var searchQuery: string
    var statusMessage: string
    var showTree: bool
    var lastRefresh: int

    function CursorOf(): Cursor
      reads this
    {
      Cursor(selectedIndex, scrollOffset)
    }

    /** The selection is in range for the filtered list (see InRange). */
    predicate SelectionValid()
      reads this
    {
      InRange(CursorOf(), |filteredProcesses|)
    }

    constructor()
      ensures selectedIndex == 0 && scrollOffset == 0 && screenHeight == 0
      ensures sortField == ByPid && sortAscending
      ensures searchQuery == "" && statusMessage == "" && !showTree && lastRefresh == 0
      ensures processes == [] && filteredProcesses == []
      ensures SelectionValid()
    {
      processes := [];
      filteredProcesses := [];
      selectedIndex := 0;
      scrollOffset := 0;
      screenHeight := 0;
      sortField := ByPid;
      sortAscending := true;
      searchQuery := "";
      statusMessage := "";
      showTree := false;
      lastRefresh := 0;
    }

    method HandleNavigation(ch: int)
      modifies this`selectedIndex, this`scrollOffset
      ensures CursorOf() == Navigated(old(CursorOf()), ch, |filteredProcesses|, ListHeight(screenHeight))
      ensures old(SelectionValid()) && 1 <= ListHeight(screenHeight) ==> SelectionValid()
    {
      ghost var before := CursorOf();
      if InRange(before, |filteredProcesses|) && 1 <= ListHeight(screenHeight) {
        NavigatedInRange(before, ch, |filteredProcesses|, ListHeight(screenHeight));
      }
      var listHeight := screenHeight - 5;
      if ch == KEY_UP || ch == 'k' as int {
        if selectedIndex > 0 {
          selectedIndex := selectedIndex - 1;
          if selectedIndex < scrollOffset {
            scrollOffset := selectedIndex;
          }
        }
      } else if ch == KEY_DOWN || ch == 'j' as int {
        if selectedIndex < |filteredProcesses| - 1 {
          selectedIndex := selectedIndex + 1;
          if selectedIndex >= scrollOffset + listHeight {
            scrollOffset := selectedIndex - listHeight + 1;
          }
        }
      } else if ch == KEY_PPAGE {
        selectedIndex := Max(0, selectedIndex - listHeight);
        scrollOffset := Max(0, scrollOffset - listHeight);
      } else if ch == KEY_NPAGE {
        selectedIndex := Min(|filteredProcesses| - 1, selectedIndex + listHeight);
        scrollOffset := Min(|filteredProcesses| - listHeight, scrollOffset + listHeight);
      }
    }

    method UpdateFilter()
      modifies this`filteredProcesses
      ensures ListingOf(filteredProcesses, processes, searchQuery, sortField, sortAscending)
    {
      if searchQuery == [] {
        filteredProcesses := processes;
      } else {
        filteredProcesses := Search(processes, searchQuery);
      }
      filteredProcesses := Sort(filteredProcesses, sortField, sortAscending);
    }

    method RefreshProcesses(snapshot: seq<Process>)
      modifies this`processes, this`filteredProcesses, this`selectedIndex
      ensures processes == snapshot
      ensures ListingOf(filteredProcesses, snapshot, searchQuery, sortField, sortAscending)
      ensures selectedIndex == Clamped(old(selectedIndex), |filteredProcesses|)
      ensures -1 <= old(selectedIndex) ==> SelectionValid()
    {
      processes := snapshot;
      UpdateFilter();
      if selectedIndex >= |filteredProcesses| {
        selectedIndex := Max(0, |filteredProcesses| - 1);
      }
      if -1 <= old(selectedIndex) {
        ClampedInRange(Cursor(old(selectedIndex), scrollOffset), |filteredProcesses|);
      }
    }

    /**
     * init, past the terminal set-up: the screen size is read, the list is loaded and the
     * start-up message is shown.
     */
    method Init(height: int, snapshot: seq<Process>) returns (ok: bool)
      modifies this`screenHeight, this`processes, this`filteredProcesses, this`selectedIndex, this`statusMessage
      ensures ok && screenHeight == height
      ensures RefreshedFrom(old(selectedIndex), snapshot)
      ensures statusMessage == "LPM Started - Press 'h' for help"
      ensures -1 <= old(selectedIndex) ==> SelectionValid()
    {
      screenHeight := height;
      RefreshProcesses(snapshot);
      statusMessage := "LPM Started - Press 'h' for help";
      ok := true;
    }

    /** Every field but the status message, the tree flag and the sort settings is as before. */
    twostate predicate ListKept()
      reads this
    {
      processes == old(processes) && filteredProcesses == old(filteredProcesses) &&
      selectedIndex == old(selectedIndex)
    }

    /** refreshProcesses ran on `snapshot` with the selection at `at`. */
    twostate predicate RefreshedFrom(at: int, snapshot: seq<Process>)
      reads this
    {
      processes == snapshot && ListingOf(filteredProcesses, snapshot, searchQuery, sortField, sortAscending) &&
      selectedIndex == Clamped(at, |filteredProcesses|)
    }

    /**
     * killSelectedProcess ran with the selection at `at`: nothing happens unless `at` is a row
     * of the list; otherwise terminate is asked for that row's pid exactly when the prompt is
     * answered y or Y, the status says what came of it, and only a successful kill refreshes.
     */
    twostate predicate Killed(at: int, confirmKey: int, kill: ProcessControl.KillCall, snapshot: seq<Process>,
      new asked: Option<int>)
      reads this
    {
      if !(0 <= at < |old(filteredProcesses)|) then
        asked.None? && statusMessage == old(statusMessage) &&
        processes == old(processes) && filteredProcesses == old(filteredProcesses) && selectedIndex == at
      else
        var pid := old(filteredProcesses)[at].pid;
        if !IsYes(confirmKey) then
          asked.None? && statusMessage == "Cancelled" &&
          processes == old(processes) && filteredProcesses == old(filteredProcesses) && selectedIndex == at
        else if ProcessControl.Terminate(pid, kill) then
          asked == Some(pid) && statusMessage == "Process " + IntToString(pid) + " terminated" &&
          RefreshedFrom(at, snapshot)
        else
          asked == Some(pid) && statusMessage == "Failed to kill process " + IntToString(pid) &&
          processes == old(processes) && filteredProcesses == old(filteredProcesses) && selectedIndex == at
    }

    /**
     * killSelectedProcess, with the answer to the prompt given as `confirmKey` and kill(2) as
     * `kill`; `asked` is the pid ProcessController::terminate was called with, if any.
     */
    method KillSelectedProcess(confirmKey: int, kill: ProcessControl.KillCall, snapshot: seq<Process>)
      returns (asked: Option<int>)
      modifies this`statusMessage, this`processes, this`filteredProcesses, this`selectedIndex
      ensures Killed(old(selectedIndex), confirmKey, kill, snapshot, asked)
    {
      asked := None;
      if selectedIndex >= 0 && selectedIndex < |filteredProcesses| {
        var pid := filteredProcesses[selectedIndex].pid;
        statusMessage := "Kill process " + IntToString(pid) + "? (y/n)";
        if confirmKey == 'y' as int || confirmKey == 'Y' as int {
          asked := Some(pid);
          if ProcessControl.Terminate(pid, kill) {
            statusMessage := "Process " + IntToString(pid) + " terminated";
            RefreshProcesses(snapshot);
          } else {
            statusMessage := "Failed to kill process " + IntToString(pid);
          }
        } else {
          statusMessage := "Cancelled";
        }
      }
    }

    method ToggleTreeView()
      modifies this`showTree, this`statusMessage
      ensures showTree == !old(showTree) && statusMessage == TreeStatus(showTree)
    {
      showTree := !showTree;
      statusMessage := if showTree then "Tree view enabled" else "List view enabled";
    }

    /** changeSelectedPriority: a stub that only reports, and only when a row is selected. */
    method ChangeSelectedPriority()
      modifies this`statusMessage
      ensures statusMessage == PriorityStatus(selectedIndex, |filteredProcesses|, old(statusMessage))
    {
      if selectedIndex >= 0 && selectedIndex < |filteredProcesses| {
        statusMessage := "Enter new nice value (-20 to 19): ";
        statusMessage := "Priority change not implemented in this demo";
      }
    }

    /** showProcessDetails: a stub that only reports. */
    method ShowProcessDetails()
      modifies this`statusMessage
      ensures statusMessage == "Details view not implemented"
    {
      statusMessage := "Details view not implemented";
    }

    /** promptSearch: a stub that only reports; the search query never changes. */
    method PromptSearch()
      modifies this`statusMessage
      ensures statusMessage == "Search not fully implemented"
    {
      statusMessage := "Search not fully implemented";
    }

    /** What handleActions did for key `ch`; `asked` is the pid terminate was called with, if any. */
    twostate predicate ActionDone(ch: int, confirmKey: int, kill: ProcessControl.KillCall, snapshot: seq<Process>,
      new asked: Option<int>)
      reads this
    {
      match ActionOf(ch)
      case KillPrompt => showTree == old(showTree) && Killed(old(selectedIndex), confirmKey, kill, snapshot, asked)
      case RefreshList =>
        asked.None? && showTree == old(showTree) &&
        RefreshedFrom(old(selectedIndex), snapshot) && statusMessage == "Processes refreshed"
      case PriorityStub =>
        asked.None? && showTree == old(showTree) &&
        ListKept() && statusMessage == PriorityStatus(selectedIndex, |filteredProcesses|, old(statusMessage))
      case SearchStub =>
        asked.None? && showTree == old(showTree) && ListKept() && statusMessage == "Search not fully implemented"
      case TreeToggle =>
        asked.None? && ListKept() && showTree == !old(showTree) && statusMessage == TreeStatus(showTree)
      case DetailsStub =>
        asked.None? && showTree == old(showTree) && ListKept() && statusMessage == "Details view not implemented"
      case HelpScreen =>
        asked.None? && showTree == old(showTree) && ListKept() && statusMessage == old(statusMessage)
      case NoAction =>
        asked.None? && showTree == old(showTree) && ListKept() && statusMessage == old(statusMessage)
    }

    /**
     * handleActions. The priority, search and details handlers only set a status message;
     * the help screen changes nothing but the terminal.
     */
    method HandleActions(ch: int, confirmKey: int, kill: ProcessControl.KillCall, snapshot: seq<Process>)
      returns (asked: Option<int>)
      modifies this`statusMessage, this`processes, this`filteredProcesses, this`selectedIndex, this`showTree
      ensures old(SelectionValid()) ==> SelectionValid()
      ensures ActionDone(ch, confirmKey, kill, snapshot, asked)
    {
      asked := None;
      match ActionOf(ch)
      case RefreshList =>
        RefreshProcesses(snapshot);
        statusMessage := "Processes refreshed";
      case KillPrompt =>
        asked := KillSelectedProcess(confirmKey, kill, snapshot);
      case PriorityStub =>
        ChangeSelectedPriority();
      case SearchStub =>
        PromptSearch();
      case TreeToggle =>
        ToggleTreeView();
      case HelpScreen =>
        // showHelp draws a screen and waits for a key; no field changes.
      case DetailsStub =>
        ShowProcessDetails();
      case NoAction =>
    }

    method HandleSorting(ch: int)
      modifies this`sortField, this`sortAscending, this`filteredProcesses, this`statusMessage
      ensures SortKey(ch).None? ==>
        sortField == old(sortField) && sortAscending == old(sortAscending) &&
        filteredProcesses == old(filteredProcesses) && statusMessage == old(statusMessage)
      ensures SortKey(ch).Some? ==>
        sortField == SortKey(ch).value && sortAscending == !old(sortAscending) &&
        multiset(filteredProcesses) == multiset(old(filteredProcesses)) &&
        SortedBy(filteredProcesses, sortField, sortAscending) && statusMessage == "Sorted by field"
      ensures |filteredProcesses| == |old(filteredProcesses)|
    {
      var needSort := false;
      if ch == 'P' as int {
        sortField := ByPid;
        needSort := true;
      } else if ch == 'N' as int {
        sortField := ByName;
        needSort := true;
      } else if ch == 'M' as int {
        sortField := ByMemory;
        needSort := true;
      } else if ch == 'C' as int {
        sortField := ByCpu;
        needSort := true;
      } else if ch == 'U' as int {
        sortField := ByUser;
        needSort := true;
      }
      if needSort {
        sortAscending := !sortAscending;
        filteredProcesses := Sort(filteredProcesses, sortField, sortAscending);
        statusMessage := "Sorted by field";
      }
    }

    /**
     * handleInput: navigation, then actions, then sorting, all on the same key. So 'k' moves
     * up and then offers to kill the row it moved to, and 'N' runs the priority stub and then
     * sorts by name.
     */
    method HandleInput(ch: int, confirmKey: int, kill: ProcessControl.KillCall, snapshot: seq<Process>)
      returns (asked: Option<int>)
      modifies this`selectedIndex, this`scrollOffset, this`statusMessage, this`processes, this`filteredProcesses,
        this`showTree, this`sortField, this`sortAscending
      ensures old(SelectionValid()) && 1 <= ListHeight(screenHeight) ==> SelectionValid()
      ensures ActionOf(ch) != KillPrompt ==> asked.None?
      ensures ActionOf(ch) == KillPrompt ==>
        var at := Navigated(old(CursorOf()), ch, |old(filteredProcesses)|, ListHeight(screenHeight)).selected;
        asked == if 0 <= at < |old(filteredProcesses)| && IsYes(confirmKey) then Some(old(filteredProcesses)[at].pid) else None
      ensures SortKey(ch).Some? ==>
        CursorOf() == old(CursorOf()) && processes == old(processes) && showTree == old(showTree) &&
        sortField == SortKey(ch).value && sortAscending == !old(sortAscending) &&
        multiset(filteredProcesses) == multiset(old(filteredProcesses)) &&
        SortedBy(filteredProcesses, sortField, sortAscending) && statusMessage == "Sorted by field"
      ensures ActionOf(ch) in {HelpScreen, NoAction} && SortKey(ch).None? ==>
        CursorOf() == Navigated(old(CursorOf()), ch, |old(filteredProcesses)|, ListHeight(screenHeight)) &&
        processes == old(processes) && filteredProcesses == old(filteredProcesses) &&
        statusMessage == old(statusMessage) && showTree == old(showTree) &&
        sortField == old(sortField) && sortAscending == old(sortAscending)
    {
      if SortKey(ch).Some? {
        SortKeyOnly(ch, CursorOf(), |filteredProcesses|, ListHeight(screenHeight));
      }
      HandleNavigation(ch);
      asked := HandleActions(ch, confirmKey, kill, snapshot);
      HandleSorting(ch);
    }

    /** The automatic refresh at the top of a turn of run(), after the screen size was read. */
    twostate predicate Timed(tick: Tick)
      reads this
    {
      screenHeight == tick.screenHeight &&
      if tick.now - old(lastRefresh) >= RefreshInterval then
        lastRefresh == tick.now && RefreshedFrom(old(selectedIndex), tick.timerSnapshot)
      else
        lastRefresh == old(lastRefresh) && processes == old(processes) &&
        filteredProcesses == old(filteredProcesses) && selectedIndex == old(selectedIndex)
    }

    /**
     * One turn of run(): read the screen size, refresh when the interval has passed, then
     * act on the key read, if any. `running` is false exactly when the key was q or Q.
     */
    method Turn(tick: Tick, kill: ProcessControl.KillCall) returns (running: bool, asked: Option<int>)
      modifies this
      ensures running <==> !IsQuitKey(tick.key)
      ensures searchQuery == old(searchQuery)
      ensures tick.key == ERR || IsQuitKey(tick.key) ==>
        Timed(tick) && asked.None? && scrollOffset == old(scrollOffset) && statusMessage == old(statusMessage) &&
        showTree == old(showTree) && sortField == old(sortField) && sortAscending == old(sortAscending)
      ensures lastRefresh == if tick.now - old(lastRefresh) >= RefreshInterval then tick.now else old(lastRefresh)
      ensures asked.Some? ==> ActionOf(tick.key) == KillPrompt && IsYes(tick.confirmKey)
      ensures old(SelectionValid()) && 1 <= ListHeight(tick.screenHeight) ==> SelectionValid()
    {
      screenHeight := tick.screenHeight;
      if tick.now - lastRefresh >= RefreshInterval {
        RefreshProcesses(tick.timerSnapshot);
        lastRefresh := tick.now;
      }
      running := true;
      asked := None;
      if tick.key != ERR {
        if tick.key == 'q' as int || tick.key == 'Q' as int {
          running := false;
        } else {
          asked := HandleInput(tick.key, tick.confirmKey, kill, tick.keySnapshot);
        }
      }
    }

    /**
     * run(), driven by a finite sequence of ticks: turns are taken until a quit key is read or
     * the ticks run out. `asked` collects the pids terminate was called with: at most one for
     * each turn whose key opened the kill prompt.
     */
    method Run(ticks: seq<Tick>, kill: ProcessControl.KillCall) returns (turns: nat, asked: seq<int>)
      modifies this
      ensures turns == TurnsRun(ticks)
      ensures searchQuery == old(searchQuery)
      ensures |asked| <= KillKeys(ticks[..turns]) && |asked| <= turns
      ensures old(SelectionValid()) && TallEnough(ticks) ==> SelectionValid()
    {
      var running := true;
      turns := 0;
      asked := [];
      while running && turns < |ticks|
        invariant turns <= |ticks| && |asked| <= turns && |asked| <= KillKeys(ticks[..turns])
        invariant running ==> TurnsRun(ticks) == turns + TurnsRun(ticks[turns..])
        invariant !running ==> turns == TurnsRun(ticks)
        invariant searchQuery == old(searchQuery)
        invariant old(SelectionValid()) && TallEnough(ticks) ==> SelectionValid()
        decreases |ticks| - turns
      {
        TurnsRunFrom(ticks, turns);
        var more, pid := Turn(ticks[turns], kill);
        if pid.Some? {
          asked := asked + [pid.value];
        }
        assert ticks[..turns + 1][..turns] == ticks[..turns];
        running := more;
        turns := turns + 1;
      }
    }
  }
}
