/**
 * ProcessController: the argument checks that run before a signal or a priority change
 * reaches the operating system, the fixed table of signal names, and the list of signals
 * offered to the user. The system calls kill(2), setpriority(2) and getpriority(2) are
 * parameters: functions from their arguments to what the kernel answers.
 */
module ProcessControl {
  import opened Text

  // Signal numbers as Linux defines them on x86 and ARM.
  const SIGHUP := 1
  const SIGINT := 2
  const SIGQUIT := 3
  const SIGILL := 4
  const SIGTRAP := 5
  const SIGABRT := 6
  const SIGBUS := 7
  const SIGFPE := 8
  const SIGKILL := 9
  const SIGUSR1 := 10
  const SIGSEGV := 11
  const SIGUSR2 := 12
  const SIGPIPE := 13
  const SIGALRM := 14
  const SIGTERM := 15
  const SIGCHLD := 17
  const SIGCONT := 18
  const SIGSTOP := 19
  const SIGTSTP := 20
  const SIGTTIN := 21
  const SIGTTOU := 22

  /** The lowest and highest nice value setPriority passes on. */
  const MinNice := -20
  const MaxNice := 19

  /** kill(2): 0 when the signal was delivered. */
  type KillCall = (int, int) -> int

  /** What getpriority(2) leaves behind: its return value and errno, which was cleared before the call. */
  datatype PriorityReply = PriorityReply(value: int, errno: int)

  /** sendSignal: refused for a pid that is not positive, otherwise kill(2) succeeding. */
  function SendSignal(pid: int, signal: int, kill: KillCall): (ok: bool)
    ensures pid <= 0 ==> !ok
    ensures 0 < pid ==> (ok <==> kill(pid, signal) == 0)
  {
    if pid <= 0 then false else kill(pid, signal) == 0
  }

  /** A refused pid never reaches the kernel: the answer is the same whatever kill(2) would do. */
  lemma RefusedWithoutCall(pid: int, signal: int, kill1: KillCall, kill2: KillCall)
    requires pid <= 0
    ensures SendSignal(pid, signal, kill1) == SendSignal(pid, signal, kill2) == false
  {
  }

  function Terminate(pid: int, kill: KillCall): (ok: bool)
    ensures ok <==> 0 < pid && kill(pid, 15) == 0
  {
    SendSignal(pid, SIGTERM, kill)
  }

  function Kill(pid: int, kill: KillCall): (ok: bool)
    ensures ok <==> 0 < pid && kill(pid, 9) == 0
  {
    SendSignal(pid, SIGKILL, kill)
  }

  function Stop(pid: int, kill: KillCall): (ok: bool)
    ensures ok <==> 0 < pid && kill(pid, 19) == 0
  {
    SendSignal(pid, SIGSTOP, kill)
  }

  function Resume(pid: int, kill: KillCall): (ok: bool)
    ensures ok <==> 0 < pid && kill(pid, 18) == 0
  {
    SendSignal(pid, SIGCONT, kill)
  }

  function Interrupt(pid: int, kill: KillCall): (ok: bool)
    ensures ok <==> 0 < pid && kill(pid, 2) == 0
  {
    SendSignal(pid, SIGINT, kill)
  }

  /**
   * setPriority: refused for a pid that is not positive or a nice value outside [-20, 19];
   * otherwise setpriority(2) returning 0.
   */
  function SetPriority(pid: int, niceness: int, setpriority: (int, int) -> int): (ok: bool)
    ensures ok ==> 0 < pid && -20 <= niceness <= 19
    ensures 0 < pid && -20 <= niceness <= 19 ==> (ok <==> setpriority(pid, niceness) == 0)
  {
    if pid <= 0 || niceness < MinNice || niceness > MaxNice then false
    else setpriority(pid, niceness) == 0
  }

  /** getPriority: 0 for a pid that is not positive or when errno was set, otherwise what the kernel said. */
  function GetPriority(pid: int, getpriority: int -> PriorityReply): (priority: int)
    ensures pid <= 0 ==> priority == 0
    ensures 0 < pid && getpriority(pid).errno != 0 ==> priority == 0
    ensures 0 < pid && getpriority(pid).errno == 0 ==> priority == getpriority(pid).value
  {
    if pid <= 0 then 0
    else
      var reply := getpriority(pid);
      if reply.errno != 0 then 0 else reply.value
  }

  /** getSignalName: the name of each of the 21 listed signals, "UNKNOWN" for any other number. */
  function GetSignalName(signal: int): string {
    if signal == SIGHUP then "SIGHUP"
    else if signal == SIGINT then "SIGINT"
    else if signal == SIGQUIT then "SIGQUIT"
    else if signal == SIGILL then "SIGILL"
    else if signal == SIGTRAP then "SIGTRAP"
    else if signal == SIGABRT then "SIGABRT"
    else if signal == SIGBUS then "SIGBUS"
    else if signal == SIGFPE then "SIGFPE"
    else if signal == SIGKILL then "SIGKILL"
    else if signal == SIGUSR1 then "SIGUSR1"
    else if signal == SIGSEGV then "SIGSEGV"
    else if signal == SIGUSR2 then "SIGUSR2"
    else if signal == SIGPIPE then "SIGPIPE"
    else if signal == SIGALRM then "SIGALRM"
    else if signal == SIGTERM then "SIGTERM"
    else if signal == SIGCHLD then "SIGCHLD"
    else if signal == SIGCONT then "SIGCONT"
    else if signal == SIGSTOP then "SIGSTOP"
    else if signal == SIGTSTP then "SIGTSTP"
    else if signal == SIGTTIN then "SIGTTIN"
    else if signal == SIGTTOU then "SIGTTOU"
    else "UNKNOWN"
  }

  /** The numbers getSignalName knows: 1 to 22 except 16 (SIGSTKFLT). */
  predicate Listed(signal: int) {
    1 <= signal <= 22 && signal != 16
  }

  /** The number a signal name stands for, read back from the name itself. */
  function SignalNumber(name: string): (r: int) {
    if name == "SIGHUP" then 1
    else if name == "SIGINT" then 2
    else if name == "SIGQUIT" then 3
    else if name == "SIGILL" then 4
    else if name == "SIGTRAP" then 5
    else if name == "SIGABRT" then 6
    else if name == "SIGBUS" then 7
    else if name == "SIGFPE" then 8
    else if name == "SIGKILL" then 9
    else if name == "SIGUSR1" then 10
    else if name == "SIGSEGV" then 11
    else if name == "SIGUSR2" then 12
    else if name == "SIGPIPE" then 13
    else if name == "SIGALRM" then 14
    else if name == "SIGTERM" then 15
    else if name == "SIGCHLD" then 17
    else if name == "SIGCONT" then 18
    else if name == "SIGSTOP" then 19
    else if name == "SIGTSTP" then 20
    else if name == "SIGTTIN" then 21
    else if name == "SIGTTOU" then 22
    else 0
  }

  /** A number gets a name other than "UNKNOWN" exactly when it is listed. */
  lemma SignalNameKnown(signal: int)
    ensures GetSignalName(signal) != "UNKNOWN" <==> Listed(signal)
  {
  }

  /** Every listed signal's name starts with "SIG", and reading it back gives the number. */
  lemma SignalNameRoundTrip(signal: int)
    requires Listed(signal)
    ensures StartsWith(GetSignalName(signal), "SIG")
    ensures SignalNumber(GetSignalName(signal)) == signal
  {
    if signal <= 11 {
      assert signal in {1, 2, 3, 4, 5, 6, 7, 8, 9, 10, 11};
    } else {
      assert signal in {12, 13, 14, 15, 17, 18, 19, 20, 21, 22};
    }
  }

  /** So no two signals share a name. */
  lemma SignalNamesDistinct(a: int, b: int)
    requires GetSignalName(a) == GetSignalName(b) != "UNKNOWN"
    ensures a == b
  {
    SignalNameKnown(a);
    SignalNameKnown(b);
    SignalNameRoundTrip(a);
    SignalNameRoundTrip(b);
  }

  /** getCommonSignals: the eight signals offered to the user, each with its description. */
  function GetCommonSignals(): (r: seq<(int, string)>)
    ensures |r| == 8 && r[0].0 == SIGTERM && r[7].0 == SIGUSR2
  {
    [(SIGTERM, "SIGTERM (15) - Terminate gracefully"),
     (SIGKILL, "SIGKILL (9) - Force kill"),
     (SIGINT, "SIGINT (2) - Interrupt"),
     (SIGHUP, "SIGHUP (1) - Hangup"),
     (SIGSTOP, "SIGSTOP (19) - Stop process"),
     (SIGCONT, "SIGCONT (18) - Continue process"),
     (SIGUSR1, "SIGUSR1 (10) - User signal 1"),
     (SIGUSR2, "SIGUSR2 (12) - User signal 2")]
  }

  /** Every offered signal is a listed one, and no signal is offered twice. */
  lemma CommonSignalsListed()
    ensures forall i | 0 <= i < |GetCommonSignals()| :: Listed(GetCommonSignals()[i].0)
    ensures forall i, j | 0 <= i < j < |GetCommonSignals()| :: GetCommonSignals()[i].0 != GetCommonSignals()[j].0
  {
  }
}
