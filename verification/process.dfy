/**
 * The Process record of lpm/src/process.hpp: one snapshot of one operating-system process.
 * Integer fields are unbounded here; the C++ widths (int, long, unsigned long) are not modelled.
 * cpuPercent is a double in C++ and a real here, used only as an ordered key.
 */
module ProcessModel {

  datatype Process = Process(
    pid: int,
    ppid: int,
    name: string,
    state: string,
    user: string,
    vmSize: int,
    vmRSS: int,
    utime: int,
    stime: int,
    cpuPercent: real,
    numThreads: int,
    starttime: int)

  /** The value Process::Process() leaves in every field. */
  const Blank := Process(0, 0, "", "", "", 0, 0, 0, 0, 0.0, 0, 0)
}
