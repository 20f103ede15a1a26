/** The three sampling loops of src/lib.rs (`sys_stats_loop`,
    `fd_stats_loop`, `mount_stats_loop`), each run over a finite sequence
    of ticks. A tick's readings are inputs; what a tick hands to its CSV
    writer is a `Batch`, and the loops return the batches in order
    together with the lines printed on the diagnostic stream. */
module Collectors {
  import opened Primitives
  import opened FilesystemUsage
  import opened Records
  import opened Emission

  // ---------------------------------------------------------------------
  // System collector
  // ---------------------------------------------------------------------

  /** What one tick of the system loop finds: the memory and load reads,
      the clock, and whether writing the row succeeded. */
  datatype SysReading = SysReading(mem: Option<MemInfo>, load: Option<LoadAverage>,
                                   clock: Option<u128>, written: bool)

  /** The row of one tick. */
  function SysRow(id: string, t: SysReading): SysInfo
  {
    SysInfoNew(id, t.mem, t.load, t.clock)
  }

  /** The diagnostics of one tick: those of the builder, then a failed write. */
  function SysTickLog(t: SysReading): seq<Diagnostic>
  {
    SysInfoLog(t.mem, t.load, t.clock) + (if t.written then [] else [StatsWriteError])
  }

  function SysLoopLog(ticks: seq<SysReading>): seq<Diagnostic>
  {
    if |ticks| == 0 then [] else SysLoopLog(ticks[..|ticks| - 1]) + SysTickLog(ticks[|ticks| - 1])
  }

  /** `out` is what the system loop hands its writers over `ticks`: one
      batch per tick, whatever the writes return, each holding that tick's
      row, with headers requested on the first tick and on no other. */
  ghost predicate SysTrace(id: string, ticks: seq<SysReading>, out: seq<Batch<SysInfo>>)
  {
    && |out| == |ticks|
    && forall k :: 0 <= k < |out| ==> out[k] == Batch(k == 0, [SysRow(id, ticks[k])])
  }

  /** One tick of `sys_stats_loop`: the row built by `SysInfo::new`,
      written by a writer with the given header flag; a failed write is
      only logged. */
  method SysStatsTick(id: string, t: SysReading, hasHeaders: bool) returns (batch: Batch<SysInfo>, log: seq<Diagnostic>)
    ensures batch == Batch(hasHeaders, [SysRow(id, t)])
    ensures log == SysTickLog(t)
  {
    var sysInfo := SysInfoNew(id, t.mem, t.load, t.clock);
    log := SysInfoLog(t.mem, t.load, t.clock);
    batch := Batch(hasHeaders, [sysInfo]);
    if !t.written {
      log := log + [StatsWriteError];
    }
  }

  /** `sys_stats_loop` over `ticks`: the header flag starts true and is
      cleared after every tick, whether or not the write succeeded. */
  method SysStatsLoop(id: string, ticks: seq<SysReading>) returns (out: seq<Batch<SysInfo>>, log: seq<Diagnostic>)
    ensures SysTrace(id, ticks, out)
    ensures log == SysLoopLog(ticks)
  {
    var hasHeaders := true;
    out, log := [], [];
    var i := 0;
    while i < |ticks|
      invariant 0 <= i <= |ticks|
      invariant hasHeaders == (i == 0)
      invariant SysTrace(id, ticks[..i], out)
      invariant log == SysLoopLog(ticks[..i])
    {
      var batch, tickLog := SysStatsTick(id, ticks[i], hasHeaders);
      SysLoopStep(id, ticks, out, i);
      out := out + [batch];
      log := log + tickLog;
      hasHeaders := false;
      i := i + 1;
    }
    assert ticks[..|ticks|] == ticks;
  }

  /** One more tick extends the trace by that tick's batch and the log by
      that tick's diagnostics. */
  lemma SysLoopStep(id: string, ticks: seq<SysReading>, out: seq<Batch<SysInfo>>, i: nat)
    requires i < |ticks| && SysTrace(id, ticks[..i], out)
    ensures SysTrace(id, ticks[..i + 1], out + [Batch(i == 0, [SysRow(id, ticks[i])])])
    ensures SysLoopLog(ticks[..i + 1]) == SysLoopLog(ticks[..i]) + SysTickLog(ticks[i])
  {
    assert ticks[..i + 1][..i] == ticks[..i];
  }

  /** The rows of the system loop, one per tick, in tick order. */
  function SysRows(id: string, ticks: seq<SysReading>): seq<SysInfo>
  {
    seq(|ticks|, k requires 0 <= k < |ticks| => SysRow(id, ticks[k]))
  }

  /** However many ticks run, the system stream holds one header line, and
      then one record per tick in tick order. */
  lemma SysHeaderOnce(id: string, ticks: seq<SysReading>, out: seq<Batch<SysInfo>>)
    requires |ticks| >= 1 && SysTrace(id, ticks, out)
    ensures HeaderCount(Stream(out)) == 1
    ensures RecordsOf(Stream(out)) == SysRows(id, ticks)
    ensures |RecordsOf(Stream(out))| == |ticks|
  {
    HeaderOnce(out);
    StreamContents(out);
    SysRowsOnePerTick(id, ticks, out);
  }

  /** The system loop hands its writers one row per tick, in tick order. */
  lemma {:induction false} SysRowsOnePerTick(id: string, ticks: seq<SysReading>, out: seq<Batch<SysInfo>>)
    requires SysTrace(id, ticks, out)
    ensures AllRows(out) == SysRows(id, ticks)
    ensures |AllRows(out)| == |ticks|
  {
    if |ticks| > 0 {
      var n := |ticks|;
      SysRowsOnePerTick(id, ticks[..n - 1], out[..n - 1]);
      assert SysRows(id, ticks) == SysRows(id, ticks[..n - 1]) + [SysRow(id, ticks[n - 1])];
    }
  }

  /** The diagnostic stream stays silent exactly when every read and every
      write of every tick succeeds. */
  lemma {:induction false} SysLogSilent(ticks: seq<SysReading>)
    ensures SysLoopLog(ticks) == [] <==>
            forall k :: 0 <= k < |ticks| ==>
              ticks[k].mem.Some? && ticks[k].load.Some? && ticks[k].clock.Some? && ticks[k].written
  {
    if |ticks| > 0 {
      var init := ticks[..|ticks| - 1];
      SysLogSilent(init);
      assert forall k :: 0 <= k < |init| ==> init[k] == ticks[k];
    }
  }

  // ---------------------------------------------------------------------
  // Process collector
  // ---------------------------------------------------------------------

  /** One listed process and whether serialising its row succeeded. */
  datatype ProcEntry = ProcEntry(process: Process, written: bool)

  /** What one tick of the process loop finds: the clock read at the start
      of the tick and the process listing, in the order it is given. */
  datatype ProcReading = ProcReading(clock: Option<u128>, processes: seq<ProcEntry>)

  /** The rows of one tick: one per listed process, all with the tick's time. */
  function ProcRows(t: ProcReading): seq<ProcInfo>
  {
    seq(|t.processes|, k requires 0 <= k < |t.processes| => ProcInfoNew(t.clock, t.processes[k].process))
  }

  function SerializeLog(ps: seq<ProcEntry>): seq<Diagnostic>
  {
    if |ps| == 0 then []
    else SerializeLog(ps[..|ps| - 1]) + (if ps[|ps| - 1].written then [] else [ProcSerializeError])
  }

  function ProcTickLog(t: ProcReading): seq<Diagnostic>
  {
    TimeLog(t.clock) + SerializeLog(t.processes)
  }

  /** One tick of `fd_stats_loop`: a fresh writer with headers, and one row
      per process, in listing order, all stamped with the single time taken
      at the start of the tick. A process whose reads fail still has its
      row; a failed serialisation is only logged. */
  method FdStatsTick(t: ProcReading) returns (batch: Batch<ProcInfo>, log: seq<Diagnostic>)
    ensures batch.hasHeaders
    ensures |batch.rows| == |t.processes|
    ensures forall k :: 0 <= k < |batch.rows| ==> batch.rows[k] == ProcInfoNew(t.clock, t.processes[k].process)
    ensures forall row :: row in batch.rows ==> row.timeMs == t.clock
    ensures log == ProcTickLog(t)
  {
    var timeMs := t.clock;
    log := TimeLog(timeMs);
    var rows: seq<ProcInfo> := [];
    for i := 0 to |t.processes|
      invariant |rows| == i
      invariant forall k :: 0 <= k < i ==> rows[k] == ProcInfoNew(timeMs, t.processes[k].process)
      invariant log == TimeLog(timeMs) + SerializeLog(t.processes[..i])
    {
      var entry := t.processes[i];
      rows := rows + [ProcInfoNew(timeMs, entry.process)];
      if !entry.written {
        log := log + [ProcSerializeError];
      }
      assert t.processes[..i + 1][..i] == t.processes[..i];
    }
    assert t.processes[..|t.processes|] == t.processes;
    batch := Batch(true, rows);
  }

  /** `out` is what the process loop hands its writers over `ticks`: one
      batch per tick, each with headers and that tick's rows. */
  ghost predicate ProcTrace(ticks: seq<ProcReading>, out: seq<Batch<ProcInfo>>)
  {
    && |out| == |ticks|
    && forall k :: 0 <= k < |out| ==> out[k] == Batch(true, ProcRows(ticks[k]))
  }

  function ProcLoopLog(ticks: seq<ProcReading>): seq<Diagnostic>
  {
    if |ticks| == 0 then [] else ProcLoopLog(ticks[..|ticks| - 1]) + ProcTickLog(ticks[|ticks| - 1])
  }

  /** `fd_stats_loop` over `ticks`. */
  method FdStatsLoop(ticks: seq<ProcReading>) returns (out: seq<Batch<ProcInfo>>, log: seq<Diagnostic>)
    ensures ProcTrace(ticks, out)
    ensures log == ProcLoopLog(ticks)
  {
    out, log := [], [];
    for i := 0 to |ticks|
      invariant ProcTrace(ticks[..i], out)
      invariant log == ProcLoopLog(ticks[..i])
    {
      var batch, tickLog := FdStatsTick(ticks[i]);
      assert batch.rows == ProcRows(ticks[i]);
      out := out + [batch];
      log := log + tickLog;
      assert ticks[..i + 1][..i] == ticks[..i];
    }
    assert ticks[..|ticks|] == ticks;
  }

  /** Number of ticks that list at least one process. */
  function BusyProcTicks(ticks: seq<ProcReading>): nat
  {
    if |ticks| == 0 then 0
    else BusyProcTicks(ticks[..|ticks| - 1]) + (if |ticks[|ticks| - 1].processes| > 0 then 1 else 0)
  }

  /** Every tick that lists a process puts out a header line and then its
      records; a tick that lists none puts out nothing. The stream thus
      holds one header line per such tick, whatever the other ticks find. */
  lemma ProcHeaderEveryTick(ticks: seq<ProcReading>, out: seq<Batch<ProcInfo>>)
    requires ProcTrace(ticks, out)
    ensures forall k :: 0 <= k < |out| ==>
              Lines(out[k]) == (if |ticks[k].processes| > 0 then [Header] else []) + RecordLines(ProcRows(ticks[k]))
    ensures HeaderCount(Stream(out)) == BusyProcTicks(ticks)
    ensures (forall k :: 0 <= k < |ticks| ==> |ticks[k].processes| > 0) ==> HeaderCount(Stream(out)) == |ticks|
  {
    StreamContents(out);
    ProcHeadedTicks(ticks, out);
    if forall k :: 0 <= k < |ticks| ==> |ticks[k].processes| > 0 {
      HeaderEveryBatch(out);
    }
  }

  lemma {:induction false} ProcHeadedTicks(ticks: seq<ProcReading>, out: seq<Batch<ProcInfo>>)
    requires ProcTrace(ticks, out)
    ensures HeadedBatches(out) == BusyProcTicks(ticks)
  {
    if |ticks| > 0 {
      var n := |ticks|;
      ProcHeadedTicks(ticks[..n - 1], out[..n - 1]);
    }
  }

  /** Two ticks over the same processes differ only in their timestamps. */
  lemma ProcRowsClockOnly(c: Option<u128>, c': Option<u128>, ps: seq<ProcEntry>)
    ensures |ProcRows(ProcReading(c, ps))| == |ProcRows(ProcReading(c', ps))|
    ensures forall k :: 0 <= k < |ps| ==>
              ProcRows(ProcReading(c, ps))[k].(timeMs := None) == ProcRows(ProcReading(c', ps))[k].(timeMs := None)
  {
  }

  // ---------------------------------------------------------------------
  // Mount collector
  // ---------------------------------------------------------------------

  /** One item of the mount table iterator: an entry that was read, with
      the outcome of `statvfs` on its mount point and whether writing its
      row succeeded, or an entry that could not be read. */
  datatype MountItem = Readable(entry: MountEntry, query: Option<StatVfs>, written: bool) | Unreadable

  /** What one tick of the mount loop finds: the clock read at the start of
      the tick, and the mount table, absent when it cannot be opened. */
  datatype MountReading = MountReading(clock: Option<u128>, table: Option<seq<MountItem>>)

  /** The rows for the items of an opened table: one per readable entry,
      in table order. Every row is built from a readable entry. */
  function MountRows(timeMs: Option<u128>, items: seq<MountItem>): (r: seq<MountInfo>)
    ensures |r| <= |items|
    ensures forall row :: row in r ==>
              exists i :: 0 <= i < |items| && items[i].Readable? && row == MountInfoNew(timeMs, items[i].entry, items[i].query)
  {
    if |items| == 0 then []
    else
      var last := items[|items| - 1];
      MountRows(timeMs, items[..|items| - 1])
      + (match last
         case Readable(e, q, _) => [MountInfoNew(timeMs, e, q)]
         case Unreadable => [])
  }

  function MountItemsLog(items: seq<MountItem>): seq<Diagnostic>
  {
    if |items| == 0 then []
    else
      var last := items[|items| - 1];
      MountItemsLog(items[..|items| - 1])
      + (match last
         case Readable(_, _, written) => if written then [] else [MountWriteError]
         case Unreadable => [MountReadError])
  }

  /** The rows of one tick: none when the table cannot be opened. */
  function MountTickRows(t: MountReading): seq<MountInfo>
  {
    match t.table
    case Some(items) => MountRows(t.clock, items)
    case None => []
  }

  function MountTickLog(t: MountReading): seq<Diagnostic>
  {
    TimeLog(t.clock)
    + (match t.table
       case Some(items) => MountItemsLog(items)
       case None => [MountReadError])
  }

  /** One tick of `mount_stats_loop`: a fresh writer with headers; an
      unreadable table gives no rows and one diagnostic, otherwise each
      readable entry gives a row and each unreadable entry a diagnostic. */
  method MountStatsTick(t: MountReading) returns (batch: Batch<MountInfo>, log: seq<Diagnostic>)
    ensures batch == Batch(true, MountTickRows(t))
    ensures log == MountTickLog(t)
  {
    var timeMs := t.clock;
    log := TimeLog(timeMs);
    var rows: seq<MountInfo> := [];
    match t.table {
      case Some(items) =>
        for i := 0 to |items|
          invariant rows == MountRows(timeMs, items[..i])
          invariant log == TimeLog(timeMs) + MountItemsLog(items[..i])
        {
          assert items[..i + 1][..i] == items[..i];
          match items[i] {
            case Readable(e, q, written) =>
              var mountInfo := MountInfoNew(timeMs, e, q);
              rows := rows + [mountInfo];
              if !written {
                log := log + [MountWriteError];
              }
            case Unreadable =>
              log := log + [MountReadError];
          }
        }
        assert items[..|items|] == items;
      case None =>
        log := log + [MountReadError];
    }
    batch := Batch(true, rows);
  }

  /** `out` is what the mount loop hands its writers over `ticks`: one
      batch per tick, each with headers and that tick's rows. */
  ghost predicate MountTrace(ticks: seq<MountReading>, out: seq<Batch<MountInfo>>)
  {
    && |out| == |ticks|
    && forall k :: 0 <= k < |out| ==> out[k] == Batch(true, MountTickRows(ticks[k]))
  }

  function MountLoopLog(ticks: seq<MountReading>): seq<Diagnostic>
  {
    if |ticks| == 0 then [] else MountLoopLog(ticks[..|ticks| - 1]) + MountTickLog(ticks[|ticks| - 1])
  }

  /** `mount_stats_loop` over `ticks`. */
  method MountStatsLoop(ticks: seq<MountReading>) returns (out: seq<Batch<MountInfo>>, log: seq<Diagnostic>)
    ensures MountTrace(ticks, out)
    ensures log == MountLoopLog(ticks)
  {
    out, log := [], [];
    for i := 0 to |ticks|
      invariant MountTrace(ticks[..i], out)
      invariant log == MountLoopLog(ticks[..i])
    {
      var batch, tickLog := MountStatsTick(ticks[i]);
      MountLoopStep(ticks, out, i);
      out := out + [batch];
      log := log + tickLog;
    }
    assert ticks[..|ticks|] == ticks;
  }

  /** One more tick extends the trace by that tick's batch and the log by
      that tick's diagnostics. */
  lemma MountLoopStep(ticks: seq<MountReading>, out: seq<Batch<MountInfo>>, i: nat)
    requires i < |ticks| && MountTrace(ticks[..i], out)
    ensures MountTrace(ticks[..i + 1], out + [Batch(true, MountTickRows(ticks[i]))])
    ensures MountLoopLog(ticks[..i + 1]) == MountLoopLog(ticks[..i]) + MountTickLog(ticks[i])
  {
    assert ticks[..i + 1][..i] == ticks[..i];
  }

  /** The rows of a table split in two are the rows of the first part
      followed by those of the second: the table order is kept. */
  lemma {:induction false} MountRowsAppend(timeMs: Option<u128>, a: seq<MountItem>, b: seq<MountItem>)
    ensures MountRows(timeMs, a + b) == MountRows(timeMs, a) + MountRows(timeMs, b)
  {
    if |b| == 0 {
      assert a + b == a;
    } else {
      assert (a + b)[..|a + b| - 1] == a + b[..|b| - 1];
      MountRowsAppend(timeMs, a, b[..|b| - 1]);
    }
  }

  /** An unreadable entry contributes nothing and disturbs nothing around it. */
  lemma UnreadableSkipped(timeMs: Option<u128>, a: seq<MountItem>, b: seq<MountItem>)
    ensures MountRows(timeMs, a + [Unreadable] + b) == MountRows(timeMs, a + b)
  {
    MountRowsAppend(timeMs, a + [Unreadable], b);
    MountRowsAppend(timeMs, a, [Unreadable]);
    MountRowsAppend(timeMs, a, b);
    assert [Unreadable][..0] == [];
  }

  /** All rows of a tick carry the one time taken at its start. */
  lemma {:induction false} MountRowsShareTime(timeMs: Option<u128>, items: seq<MountItem>)
    ensures forall row :: row in MountRows(timeMs, items) ==> row.timeMs == timeMs
  {
    if |items| > 0 {
      MountRowsShareTime(timeMs, items[..|items| - 1]);
    }
  }

  /** There are never more rows than items, and as many exactly when every
      item was readable. */
  lemma {:induction false} MountRowsCount(timeMs: Option<u128>, items: seq<MountItem>)
    ensures |MountRows(timeMs, items)| <= |items|
    ensures |MountRows(timeMs, items)| == |items| <==> forall i :: 0 <= i < |items| ==> items[i].Readable?
  {
    if |items| > 0 {
      var init := items[..|items| - 1];
      MountRowsCount(timeMs, init);
      assert forall i :: 0 <= i < |init| ==> init[i] == items[i];
    }
  }

  /** When every item was readable, row `k` is built from entry `k`. */
  lemma {:induction false} MountRowsOfReadable(timeMs: Option<u128>, items: seq<MountItem>)
    requires forall i :: 0 <= i < |items| ==> items[i].Readable?
    ensures |MountRows(timeMs, items)| == |items|
    ensures forall k :: 0 <= k < |items| ==>
              MountRows(timeMs, items)[k] == MountInfoNew(timeMs, items[k].entry, items[k].query)
  {
    if |items| > 0 {
      var init := items[..|items| - 1];
      MountRowsOfReadable(timeMs, init);
    }
  }

  /** Two ticks over the same table differ only in their timestamps. */
  lemma {:induction false} MountRowsClockOnly(c: Option<u128>, c': Option<u128>, items: seq<MountItem>)
    ensures |MountRows(c, items)| == |MountRows(c', items)|
    ensures forall k :: 0 <= k < |MountRows(c, items)| ==>
              MountRows(c, items)[k].(timeMs := None) == MountRows(c', items)[k].(timeMs := None)
  {
    if |items| > 0 {
      MountRowsClockOnly(c, c', items[..|items| - 1]);
    }
  }

  /** Number of ticks that produce at least one row. */
  function BusyMountTicks(ticks: seq<MountReading>): nat
  {
    if |ticks| == 0 then 0
    else BusyMountTicks(ticks[..|ticks| - 1]) + (if |MountTickRows(ticks[|ticks| - 1])| > 0 then 1 else 0)
  }

  /** Every tick with at least one row puts out a header line and then its
      records; a tick whose table cannot be opened, or holds no readable
      entry, puts out nothing. The stream thus holds one header line per
      tick with a row, whatever the other ticks find. */
  lemma MountHeaderEveryTick(ticks: seq<MountReading>, out: seq<Batch<MountInfo>>)
    requires MountTrace(ticks, out)
    ensures forall k :: 0 <= k < |out| ==>
              Lines(out[k]) == (if |MountTickRows(ticks[k])| > 0 then [Header] else []) + RecordLines(MountTickRows(ticks[k]))
    ensures forall k :: 0 <= k < |out| && ticks[k].table.None? ==> Lines(out[k]) == []
    ensures HeaderCount(Stream(out)) == BusyMountTicks(ticks)
    ensures (forall k :: 0 <= k < |ticks| ==> |MountTickRows(ticks[k])| > 0) ==> HeaderCount(Stream(out)) == |ticks|
  {
    StreamContents(out);
    MountHeadedTicks(ticks, out);
    if forall k :: 0 <= k < |ticks| ==> |MountTickRows(ticks[k])| > 0 {
      HeaderEveryBatch(out);
    }
  }

  lemma {:induction false} MountHeadedTicks(ticks: seq<MountReading>, out: seq<Batch<MountInfo>>)
    requires MountTrace(ticks, out)
    ensures HeadedBatches(out) == BusyMountTicks(ticks)
  {
    if |ticks| > 0 {
      var n := |ticks|;
      MountHeadedTicks(ticks[..n - 1], out[..n - 1]);
    }
  }
}
