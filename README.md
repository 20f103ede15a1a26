# statsdump, modelled in Dafny

statsdump is a periodic telemetry collector. One invocation selects one
domain with a subcommand: `sys` (memory counters and load averages),
`proc` (one row per process: descriptors, threads, CPU times, command line)
or `mount` (one row per mounted filesystem, with its usage from `statvfs`).
It then samples that domain forever at a fixed interval and writes each
sample as CSV rows on standard output. Failed reads never stop it. They
become absent fields, sentinels (`-1`, `"?"`) or a fail-safe usage tuple.
Only the failures of the memory, load-average, clock and mount-table
reads, and failed `serialize` calls, are also reported by a line on
standard error. A failed `flush` prints nothing: both outcomes are
ignored (src/lib.rs:163-166, 351-354).
A failed descriptor, command-line or `statvfs` read is reported by the
sentinel alone.

This project models the logic of `src/lib.rs` that turns readings into
rows. Every operating-system reading is an input value:

- `Primitives`: `Option`, the Rust integer widths, and u64 arithmetic that wraps modulo 2^64 as an optimised build does.
- `Text`: `join` as Rust defines it, and a `Split` that undoes it.
- `FilesystemUsage`: `fs_usage` over an abstract `statvfs` outcome.
- `Records`: the row types and the builders `SysInfo::new`, `ProcInfo::new` and `MountInfo::new`.
- `Emission`: what a tick hands to its CSV writer (a `Batch`: header flag plus rows), the lines such a writer produces, and the diagnostic messages.
- `Collectors`: the three loops as methods with loops over a finite sequence of ticks. Each returns the batches and the diagnostic lines.
- `Cli`: the defaulting and dispatch of `parse_args` after matching, `str::parse::<u64>`, and `AppOptions::run`.

Details of the code that the model keeps as written:

- `use_pc` is rounded down by integer division, not rounded to nearest. `FilesystemUsage.ExampleRoundsDown` shows 2 KB used and 1 KB available giving 66.
- The system loop asks for headers on its first tick whether or not that write succeeds. It does not wait for the first successful write.
- `--interval-secs 0` is accepted and gives a zero interval. Only a value that does not parse falls back to 5.
- A command line read as n >= 1 empty strings gives n - 1 spaces (`""` for one), never `"?"`.
- The placeholder `"?"` is also the column of a process whose only argument is `"?"`; `Records.CommandLine` proves no other command line shows it.

## Model

| member | source | states |
|---|---|---|
| `FilesystemUsage.FsUsage` | src/lib.rs:228-247 | a failed `statvfs` query gives exactly the fail-safe tuple (0, 0, 0, 100) |
| `FilesystemUsage.FsUsageExact` | src/lib.rs:231-243 | if no u64 operation wraps: total and available are the fragment counts times the fragment size divided by 1024; used = total - free; use_pc is the rounded-down percentage used*100/(used+available), 0 when that sum is 0, and at most 100 |
| `FilesystemUsage.FailSafeIsDistinct` | src/lib.rs:228-247 | no successful query reports the fail-safe tuple, wrapping or not, so a failure cannot be mistaken for a measurement |
| `FilesystemUsage.NoWrapForStatvfs` | src/lib.rs:231-236 | free and available counts at most the total, and a total byte count that fits in a u64, are enough for no operation of `fs_usage` to wrap |
| `FilesystemUsage.ExampleSixtyThreePercent` | src/lib.rs:231-243 | 1000 KB total, 400 KB free and 350 KB available give used 600 and 63 percent |
| `FilesystemUsage.ExampleRoundsDown` | src/lib.rs:240 | the percentage is rounded down (200/3 gives 66) |
| `FilesystemUsage.ExampleEmptyFilesystem` | src/lib.rs:237-238 | used + available = 0 gives 0 percent, not a division fault |
| `Primitives.WrappingMul` | src/lib.rs:231-235 | u64 multiplication is the true product modulo 2^64, which is the product itself when it fits in 64 bits |
| `Primitives.WrappingSub` | src/lib.rs:234 | u64 subtraction is exact when free <= total and otherwise wraps by 2^64 |
| `Primitives.WrappingAdd` | src/lib.rs:236 | u64 addition is exact when the sum fits and otherwise wraps by 2^64 |
| `Primitives.Quotient` | src/lib.rs:240 | u64 division is the rounded-down quotient |
| `Primitives.TruncateToU32` | src/lib.rs:243 | the `as u32` cast keeps the value modulo 2^32, so values below 2^32 pass unchanged |
| `Text.Join` | src/lib.rs:127 | Rust `join`: no items give `""`, one item gives itself, and with more the first item and the separator start the result; `Text.SplitJoin` proves `Split` undoes it |
| `Text.Split` | src/lib.rs:127 | the reference inverse of `join`: at least one piece, and no piece contains the separator |
| `Text.SplitJoin` | src/lib.rs:127 | joining a non-empty list with a one-character separator that no item contains is undone by splitting at that character |
| `Records.SysInfoNew` | src/lib.rs:28-63 | never fails; id and time are passed through; the four memory fields are all present or all absent, present exactly when meminfo was read, and carry what was read; the same holds for the three load-average fields, independently |
| `Records.SysGroupsIndependent` | src/lib.rs:29-48 | the outcome of the load-average read does not change the memory fields, and the other way round |
| `Records.SysFailuresAreLogged` | src/lib.rs:36-79 | each failed read (meminfo, load average, clock) is reported on the diagnostic stream exactly when its fields are absent |
| `Records.OpenFdCount` | src/lib.rs:117-120 | -1 exactly when listing the descriptors fails, otherwise their number |
| `Records.CommandLine` | src/lib.rs:122-131 | a command line with arguments is their join by single spaces; the column is "?" exactly when the read fails, yields no argument, or yields the single argument "?" |
| `Records.ProcInfoNew` | src/lib.rs:116-144 | pid, owner, threads, start time, utime and stime are copied whatever the two reads return; open_fd_count is -1 exactly when the descriptor read fails; cmdline is "?" when the read fails or is empty, otherwise the arguments joined by single spaces |
| `Records.CommandLineRoundTrip` | src/lib.rs:122-131 | a non-empty command line whose arguments hold no space is recovered from the column |
| `Records.ProcReadsIsolated` | src/lib.rs:116-144 | changing the outcome of the descriptor or command-line read changes no other column of the row |
| `Records.MountInfoNew` | src/lib.rs:250-274 | table columns copied; options joined by ";"; usage columns are always those `fs_usage` computes for the query: (0, 0, 0, 100) when `statvfs` on the mount point fails and the exact figures when it succeeds without wrapping |
| `Records.MountOptionsRoundTrip` | src/lib.rs:266 | non-empty options free of ";" are recovered from the options column |
| `Emission.Lines` | src/lib.rs:152-161 | the lines of one writer (the CSV library's header rule, assumed): a header line can only come first, it comes first exactly when the writer has headers, and a writer given no record writes no line |
| `Emission.LinesOfBatch` | src/lib.rs:152-161 | a writer puts out one header line exactly when it was built with headers and gets at least one record, and then its records in order |
| `Emission.StreamContents` | src/lib.rs:147-169 | the data stream carries every row handed to the writers, in order, and one header line per batch whose writer writes one |
| `Emission.HeaderOnce` | src/lib.rs:86-98 | headers on the first batch only, and a first batch with a row: exactly one header line in the whole stream |
| `Emission.HeaderEveryBatch` | src/lib.rs:152 | headers on every batch, and no batch empty: one header line per batch |
| `Collectors.SysStatsTick` | src/lib.rs:88-95 | one tick: the row `SysInfo::new` builds, handed to a writer with the given header flag; the builder's diagnostics, then "Error writing stats" exactly when the write fails |
| `Collectors.SysStatsLoop` | src/lib.rs:85-100 | one batch per tick, whatever the writes return; each holds that tick's row; headers are requested on tick 0 and on no later tick; the diagnostics are those of each tick in order |
| `Collectors.SysHeaderOnce` | src/lib.rs:86-98 | over any number of ticks (at least one), the system stream has exactly one header line, and its records are the rows of the ticks, one per tick, in tick order |
| `Collectors.SysRowsOnePerTick` | src/lib.rs:88-99 | the system loop hands its writers exactly the row of each tick, in tick order |
| `Collectors.SysLogSilent` | src/lib.rs:36-98 | the diagnostic stream of the system loop is empty exactly when every read and every write succeeded |
| `Collectors.FdStatsTick` | src/lib.rs:148-161 | a writer with headers; one row per listed process, in listing order, built by `ProcInfo::new`; every row carries the single time taken at the start of the tick; failed serialisations are only logged |
| `Collectors.FdStatsLoop` | src/lib.rs:147-169 | one batch per tick, each with headers and that tick's rows |
| `Collectors.ProcHeaderEveryTick` | src/lib.rs:150-152 | in any run, every tick that lists a process puts out a header line and then its records, a tick that lists none puts out nothing, and the stream holds one header line per tick that lists a process (one per tick when every tick lists one) |
| `Collectors.ProcRowsClockOnly` | src/lib.rs:149-154 | two ticks over the same processes give rows that differ only in their timestamp |
| `Collectors.MountStatsTick` | src/lib.rs:278-315 | a writer with headers; the rows are those of the readable entries in table order, none when the table cannot be opened; the diagnostics are the clock failure, the table failure, and each unreadable entry or failed `serialize` in order |
| `Collectors.MountStatsLoop` | src/lib.rs:277-357 | one batch per tick, each with headers and that tick's rows |
| `Collectors.MountRows` | src/lib.rs:285-310 | never more rows than table entries, and every row is `MountInfo::new` of a readable entry of the table |
| `Collectors.MountRowsAppend` | src/lib.rs:285-310 | the rows of a table read in two parts are the rows of the first part followed by those of the second, so table order is kept |
| `Collectors.UnreadableSkipped` | src/lib.rs:306-308 | an unreadable entry contributes no row and does not disturb the rows around it |
| `Collectors.MountRowsShareTime` | src/lib.rs:279-297 | every row of a tick carries the time taken at the start of that tick |
| `Collectors.MountRowsCount` | src/lib.rs:285-310 | never more rows than entries, and exactly as many exactly when every entry was readable |
| `Collectors.MountRowsOfReadable` | src/lib.rs:287-297 | when every entry was readable, row k is `MountInfo::new` of entry k |
| `Collectors.MountRowsClockOnly` | src/lib.rs:279-297 | two ticks over the same table give rows that differ only in their timestamp |
| `Collectors.MountHeaderEveryTick` | src/lib.rs:280-314 | in any run, every tick with a row puts out a header line and then its records, a tick whose table cannot be opened puts out nothing, and the stream holds one header line per tick with a row (one per tick when every tick has one) |
| `Cli.ParseU64` | src/lib.rs:437 | `str::parse::<u64>`: the empty string is rejected, and an accepted string is a digit or a '+' before more characters, followed by digits only; the value and the rejections are given by `Cli.ParseDecimal`, `Cli.ParseLeadingZeros`, `Cli.ParseRejectsNonDigit` and `Cli.ParseRejectsOverflow` |
| `Cli.Decimal` | src/lib.rs:437 | the decimal rendering is non-empty and all digits |
| `Cli.ParseDecimal` | src/lib.rs:437 | every u64 written in decimal, with or without a leading '+', parses back to itself |
| `Cli.ParseRejectsNonDigit` | src/lib.rs:437 | any character other than a digit, apart from a leading '+' before more characters, makes the value unparsable |
| `Cli.ParseLeadingZeros` | src/lib.rs:437 | a u64 written with any number of leading zeros, with or without a leading '+', parses to itself |
| `Cli.ExampleLeadingZeros` | src/lib.rs:437 | "007" parses to 7 and "+05" to 5 |
| `Cli.ParseRejectsOverflow` | src/lib.rs:437 | a value of 2^64 or more is unparsable, with or without a leading '+' |
| `Cli.IntervalSecs` | src/lib.rs:437-443 | the interval is 5 when the option is missing, the value the option parses to whenever it parses, and otherwise 5 (the same code is repeated at src/lib.rs:452-458 and 465-471) |
| `Cli.IntervalMissing` | src/lib.rs:437 | a missing interval becomes "5", that is 5 seconds, with no warning |
| `Cli.IntervalInvalid` | src/lib.rs:437-443 | an unparsable interval becomes 5 seconds, with a warning |
| `Cli.IntervalGiven` | src/lib.rs:437-438 | any u64 given in decimal, 0 included, is taken as the interval |
| `Cli.IntervalExampleSeven` | src/lib.rs:437-438 | "+7" and "007" both give 7 seconds |
| `Cli.IntervalExampleAbc` | src/lib.rs:437-443 | "abc" gives 5 seconds and a warning |
| `Cli.ParseArgs` | src/lib.rs:433-478 | "sys", "proc" and "mount" select their collector, and each selects it only by that name; the id defaults to "localhost"; the interval is defaulted as above; anything else gives `Stop` |
| `Cli.ParseArgsWarning` | src/lib.rs:437-471 | a warning is printed exactly when a collector is selected and its interval does not parse, and the interval is then 5 |
| `Cli.ExampleSysDefaults` | src/lib.rs:434-448 | `sys` with no options samples "localhost" every 5 seconds |
| `Cli.Run` | src/lib.rs:373-382 | exactly the selected domain's loop runs (with the options' id); `Stop` runs nothing and logs "nothing to do" |

## Left out

- procfs reads (`procfs::meminfo`, `LoadAverage::new`, `all_processes`, `fd()`, `cmdline()`) are file-system I/O through a library. Their outcomes are inputs, `None` for a failed read.
- `proc_mounts::MountIter` (src/lib.rs:283-310) is a foreign iterator over the mount table. Its outcome is an input: `None` when it cannot be created, otherwise a finite sequence of items. An iterator that never ends is not modelled.
- `statvfs` (src/lib.rs:216-226) is a foreign call. Its outcome is an input: an optional record of the four fields `fs_usage` reads.
- CSV serialisation, quoting, stdout locking and `flush` belong to a library. A tick is modelled as the batch it hands to a writer. The rule that a writer with headers writes the header line just before its first record is assumed of that library, not proved.
- What a failed write leaves on standard output is not modelled. The `written` flag of a reading is the outcome of `serialize` alone. A failed `serialize` only adds a diagnostic, so the header line of a failed first system write is still counted. `flush` (src/lib.rs:163-166, 351-354) is not modelled: its outcome is discarded and prints nothing. `write_stdout` (src/lib.rs:65-72) never flushes explicitly.
- The error details printed inside diagnostics are not modelled. Only which message is printed, and in what order, is kept.
- `thread::sleep` and the infinite `loop`: each loop runs over a finite sequence of ticks. The interval is carried in `AppOptions` but no sleep is modelled.
- `SystemTime` is clock I/O. Each tick's `timestamp()` outcome is an input.
- Load averages are `f32`. They are kept as bit patterns and only passed on.
- `to_string_lossy` on paths: paths are strings already.
- `setup_signals` (SIGPIPE disposition) is process-wide signal plumbing.
- `clap` parsing itself: the model starts from the matched subcommand name and option values.
- `SwapInfo`: its only use is commented out (src/lib.rs:317-349).
- `FilesystemUsage.FsUsageExact`: exactness and `use_pc <= 100` are proved only for queries where no u64 operation wraps. The code does not guard against wrapping. A debug build would panic on overflow; that panic is not modelled.
- `Records.OpenFdCount`: the `as i64` cast is exact because a descriptor list is limited to `isize::MAX` entries, as a Rust vector is. A wrapping cast is not modelled.
