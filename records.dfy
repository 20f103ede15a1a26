/** The three row shapes of the data stream and the builders that turn the
    operating system's readings into rows (`SysInfo::new`, `ProcInfo::new`,
    `MountInfo::new` in src/lib.rs). Every reading is an input: a failed
    read is `None`. */
module Records {
  import opened Primitives
  import opened Text
  import opened FilesystemUsage
  import opened Emission

  /** A 32-bit float by its bit pattern; load averages are only passed on. */
  datatype F32 = F32(bits: bv32)

  /** The four counters read from the kernel's memory statistics, in kilobytes. */
  datatype MemInfo = MemInfo(memTotal: u64, memFree: u64, buffers: u64, cached: u64)

  /** The 1, 5 and 15 minute load averages. */
  datatype LoadAverage = LoadAverage(one: F32, five: F32, fifteen: F32)

  /** One row of the system collector. */
  datatype SysInfo = SysInfo(
    id: string,
    timeMs: Option<u128>,
    memTotal: Option<u64>,
    memFree: Option<u64>,
    memBuffers: Option<u64>,
    memCached: Option<u64>,
    loadAvg1: Option<F32>,
    loadAvg5: Option<F32>,
    loadAvg15: Option<F32>)

  /** The memory fields are all present or all absent. */
  predicate MemoryGroupWhole(r: SysInfo)
  {
    r.memTotal.Some? == r.memFree.Some? == r.memBuffers.Some? == r.memCached.Some?
  }

  /** The load-average fields are all present or all absent. */
  predicate LoadGroupWhole(r: SysInfo)
  {
    r.loadAvg1.Some? == r.loadAvg5.Some? == r.loadAvg15.Some?
  }

  /** The diagnostic printed when the clock reads earlier than the epoch. */
  function TimeLog(timeMs: Option<u128>): seq<Diagnostic>
  {
    if timeMs.None? then [TimeError] else []
  }

  /** `SysInfo::new`: `mem` and `load` are the outcomes of the two reads and
      `timeMs` that of `timestamp()`. The builder never fails: each group
      is whole, present exactly when its read succeeded and carrying what
      was read, independently of the other group. */
  function SysInfoNew(id: string, mem: Option<MemInfo>, load: Option<LoadAverage>, timeMs: Option<u128>): (r: SysInfo)
    ensures r.id == id && r.timeMs == timeMs
    ensures MemoryGroupWhole(r) && LoadGroupWhole(r)
    ensures r.memTotal.Some? <==> mem.Some?
    ensures r.loadAvg1.Some? <==> load.Some?
    ensures mem.Some? ==> r.memTotal.value == mem.value.memTotal && r.memFree.value == mem.value.memFree
                          && r.memBuffers.value == mem.value.buffers && r.memCached.value == mem.value.cached
    ensures load.Some? ==> r.loadAvg1.value == load.value.one && r.loadAvg5.value == load.value.five
                           && r.loadAvg15.value == load.value.fifteen
  {
    var (memTotal, memFree, memBuffers, memCached) :=
      match mem
      case Some(mi) => (Some(mi.memTotal), Some(mi.memFree), Some(mi.buffers), Some(mi.cached))
      case None => (None, None, None, None);
    var (loadAvg1, loadAvg5, loadAvg15) :=
      match load
      case Some(la) => (Some(la.one), Some(la.five), Some(la.fifteen))
      case None => (None, None, None);
    SysInfo(id, timeMs, memTotal, memFree, memBuffers, memCached, loadAvg1, loadAvg5, loadAvg15)
  }

  /** The diagnostics `SysInfo::new` prints, in order: one per failed read. */
  function SysInfoLog(mem: Option<MemInfo>, load: Option<LoadAverage>, timeMs: Option<u128>): seq<Diagnostic>
  {
    (if mem.None? then [MeminfoError] else [])
    + (if load.None? then [LoadAverageError] else [])
    + TimeLog(timeMs)
  }

  /** A failed memory read does not disturb the load averages, and the
      other way round. */
  lemma {:induction false} SysGroupsIndependent(id: string, mem: Option<MemInfo>, mem': Option<MemInfo>,
                                                load: Option<LoadAverage>, load': Option<LoadAverage>,
                                                timeMs: Option<u128>)
    ensures var r, r' := SysInfoNew(id, mem, load, timeMs), SysInfoNew(id, mem, load', timeMs);
            (r.memTotal, r.memFree, r.memBuffers, r.memCached) == (r'.memTotal, r'.memFree, r'.memBuffers, r'.memCached)
    ensures var r, r' := SysInfoNew(id, mem, load, timeMs), SysInfoNew(id, mem', load, timeMs);
            (r.loadAvg1, r.loadAvg5, r.loadAvg15) == (r'.loadAvg1, r'.loadAvg5, r'.loadAvg15)
  {
  }

  /** A failing read is absent from the row, not zero, and is reported on
      the diagnostic stream; a read that succeeds reports nothing. */
  lemma SysFailuresAreLogged(id: string, mem: Option<MemInfo>, load: Option<LoadAverage>, timeMs: Option<u128>)
    ensures MeminfoError in SysInfoLog(mem, load, timeMs) <==> SysInfoNew(id, mem, load, timeMs).memTotal.None?
    ensures LoadAverageError in SysInfoLog(mem, load, timeMs) <==> SysInfoNew(id, mem, load, timeMs).loadAvg1.None?
    ensures TimeError in SysInfoLog(mem, load, timeMs) <==> SysInfoNew(id, mem, load, timeMs).timeMs.None?
  {
  }

  /** The per-process statistics copied into a row. */
  datatype ProcStat = ProcStat(pid: i32, numThreads: i64, starttime: i64, utime: u64, stime: u64)

  /** The open descriptors of a process; a Rust vector never holds more
      than `isize::MAX` elements, so the count fits `i64`. */
  type FdList = s: seq<nat> | |s| <= I64_MAX

  /** One entry of the process listing: its statistics and owner, and the
      outcomes of the descriptor and command-line reads. */
  datatype Process = Process(stat: ProcStat, owner: u32, fds: Option<FdList>, cmdline: Option<seq<string>>)

  /** One row of the process collector. */
  datatype ProcInfo = ProcInfo(
    timeMs: Option<u128>,
    pid: i32,
    owner: u32,
    openFdCount: i64,
    numThreads: i64,
    starttime: i64,
    utime: u64,
    stime: u64,
    cmdline: string)

  /** The placeholder for a command line that cannot be read or is empty. */
  const UNKNOWN_CMDLINE: string := "?"

  /** The command line column: the arguments joined by single spaces, or
      the placeholder when the read fails or yields no arguments. The
      placeholder is also what a process whose one argument is "?" shows,
      and no other command line shows it. */
  function CommandLine(items: Option<seq<string>>): (r: string)
    ensures items.Some? && |items.value| > 0 ==> r == Join(items.value, " ")
    ensures r == UNKNOWN_CMDLINE <==> items.None? || items == Some([]) || items == Some([UNKNOWN_CMDLINE])
  {
    match items
    case Some(args) =>
      if |args| == 0 then UNKNOWN_CMDLINE
      else
        assert |args| > 1 ==> Join(args, " ")[|args[0]|] == ' ' && |Join(args, " ")| > |args[0]|;
        assert |args| == 1 ==> args == [args[0]];
        Join(args, " ")
    case None => UNKNOWN_CMDLINE
  }

  /** The open descriptor column: their number, or -1 when they cannot be listed. */
  function OpenFdCount(fds: Option<FdList>): (r: i64)
    ensures r == -1 <==> fds.None?
    ensures fds.Some? ==> r == |fds.value|
  {
    match fds
    case Some(list) => |list|
    case None => -1
  }

  /** `ProcInfo::new`. The statistics and the owner are copied whatever the
      two reads give; the descriptor column is -1 exactly when the listing
      fails, and the command line is the placeholder when it cannot be
      read or is empty and otherwise the arguments joined by spaces. */
  function ProcInfoNew(timeMs: Option<u128>, p: Process): (r: ProcInfo)
    ensures r.timeMs == timeMs && r.pid == p.stat.pid && r.owner == p.owner
    ensures r.numThreads == p.stat.numThreads && r.starttime == p.stat.starttime
    ensures r.utime == p.stat.utime && r.stime == p.stat.stime
    ensures r.openFdCount == -1 <==> p.fds.None?
    ensures p.fds.Some? ==> r.openFdCount == |p.fds.value|
    ensures (p.cmdline.None? || p.cmdline == Some([])) ==> r.cmdline == UNKNOWN_CMDLINE
    ensures p.cmdline.Some? && |p.cmdline.value| > 0 ==> r.cmdline == Join(p.cmdline.value, " ")
  {
    ProcInfo(timeMs, p.stat.pid, p.owner, OpenFdCount(p.fds), p.stat.numThreads,
             p.stat.starttime, p.stat.utime, p.stat.stime, CommandLine(p.cmdline))
  }

  /** A command line whose arguments hold no space is recovered from the
      column by splitting at spaces. */
  lemma CommandLineRoundTrip(args: seq<string>)
    requires |args| > 0
    requires forall i :: 0 <= i < |args| ==> ' ' !in args[i]
    ensures Split(CommandLine(Some(args)), ' ') == args
  {
    SplitJoin(args, ' ');
  }

  /** Only the descriptor and command-line columns depend on those two
      reads: every other column is the same whatever they return. */
  lemma ProcReadsIsolated(timeMs: Option<u128>, p: Process, fds: Option<FdList>, cmdline: Option<seq<string>>)
    ensures ProcInfoNew(timeMs, p).(openFdCount := 0, cmdline := "")
         == ProcInfoNew(timeMs, p.(fds := fds, cmdline := cmdline)).(openFdCount := 0, cmdline := "")
  {
  }

  /** One entry of the mount table, its options still a list. */
  datatype MountEntry = MountEntry(source: string, dest: string, fstype: string,
                                   options: seq<string>, dump: i32, pass: i32)

  /** One row of the mount collector. */
  datatype MountInfo = MountInfo(
    timeMs: Option<u128>,
    source: string,
    dest: string,
    fstype: string,
    options: string,
    dump: i32,
    pass: i32,
    used: u64,
    available: u64,
    total: u64,
    usePc: u32)

  /** `MountInfo::new`: `query` is the outcome of `statvfs` on the entry's
      mount point. The table columns are copied, the options are joined by
      ";", and the usage columns are the fail-safe tuple when the query
      fails and the exact figures when it succeeds without wrapping. */
  function MountInfoNew(timeMs: Option<u128>, e: MountEntry, query: Option<StatVfs>): (r: MountInfo)
    ensures r.timeMs == timeMs && r.source == e.source && r.dest == e.dest && r.fstype == e.fstype
    ensures r.dump == e.dump && r.pass == e.pass
    ensures r.options == Join(e.options, ";")
    ensures Usage(r.used, r.available, r.total, r.usePc) == FsUsage(query)
    ensures query.None? ==> r.used == 0 && r.available == 0 && r.total == 0 && r.usePc == 100
    ensures query.Some? && NoWrap(query.value) ==>
              Consistent(query.value, Usage(r.used, r.available, r.total, r.usePc))
  {
    var u := FsUsage(query);
    assert query.Some? && NoWrap(query.value) ==> Consistent(query.value, u) by {
      if query.Some? && NoWrap(query.value) {
        FsUsageExact(query.value);
      }
    }
    Build(timeMs, e, u)
  }

  /** The row with the usage columns `u`. */
  function Build(timeMs: Option<u128>, e: MountEntry, u: Usage): MountInfo
  {
    MountInfo(timeMs, e.source, e.dest, e.fstype, Join(e.options, ";"),
              e.dump, e.pass, u.used, u.available, u.total, u.usePc)
  }

  /** Options free of ";" are recovered from the column by splitting at ";". */
  lemma MountOptionsRoundTrip(timeMs: Option<u128>, e: MountEntry, query: Option<StatVfs>)
    requires |e.options| > 0
    requires forall i :: 0 <= i < |e.options| ==> ';' !in e.options[i]
    ensures Split(MountInfoNew(timeMs, e, query).options, ';') == e.options
  {
    SplitJoin(e.options, ';');
  }
}
