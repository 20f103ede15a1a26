/** The decisions `parse_args` takes once the command line has been matched
    (the subcommand name and the option values it carries), and the
    dispatch of `AppOptions::run` to one collector loop (src/lib.rs). */
module Cli {
  import opened Primitives
  import opened Emission
  import opened Records
  import opened Collectors

  // ---------------------------------------------------------------------
  // Decimal numbers: `str::parse::<u64>` and the rendering it inverts
  // ---------------------------------------------------------------------

  predicate IsDigit(c: char)
  {
    '0' <= c <= '9'
  }

  predicate AllDigits(s: string)
  {
    forall i :: 0 <= i < |s| ==> IsDigit(s[i])
  }

  function DigitValue(c: char): nat
    requires IsDigit(c)
  {
    c as int - '0' as int
  }

  function DigitChar(d: nat): (c: char)
    requires d < 10
    ensures IsDigit(c) && DigitValue(c) == d
  {
    ('0' as int + d) as char
  }

  /** The number a string of decimal digits denotes (leading zeros allowed). */
  function DecimalValue(s: string): nat
    requires AllDigits(s)
  {
    if |s| == 0 then 0 else DecimalValue(s[..|s| - 1]) * 10 + DigitValue(s[|s| - 1])
  }

  /** `s.parse::<u64>()`: an optional leading '+', then one or more ASCII
      digits whose value fits in 64 bits. Anything else (the empty string,
      a lone sign, a '-', spaces, any other character, an overflow) is an
      error. */
  function ParseU64(s: string): (r: Option<u64>)
    ensures |s| == 0 ==> r.None?
    ensures r.Some? ==> IsDigit(s[0]) || (s[0] == '+' && |s| > 1)
    ensures r.Some? ==> forall i :: 0 < i < |s| ==> IsDigit(s[i])
  {
    if |s| == 0 then None
    else if (s[0] == '+' || s[0] == '-') && |s| == 1 then None
    else
      var digits := if s[0] == '+' then s[1..] else s;
      if AllDigits(digits) && DecimalValue(digits) < U64_LIMIT then Some(DecimalValue(digits)) else None
  }

  /** The decimal rendering of `n`, without leading zeros. */
  function Decimal(n: nat): (s: string)
    ensures |s| >= 1 && AllDigits(s)
  {
    if n < 10 then [DigitChar(n)] else Decimal(n / 10) + [DigitChar(n % 10)]
  }

  lemma {:induction false} DecimalValueOfDecimal(n: nat)
    ensures DecimalValue(Decimal(n)) == n
  {
    if n >= 10 {
      var s := Decimal(n);
      assert s[..|s| - 1] == Decimal(n / 10);
      DecimalValueOfDecimal(n / 10);
    }
  }

  /** Parsing undoes rendering: every u64 written in decimal, with or
      without a leading '+', parses back to itself. */
  lemma ParseDecimal(n: u64)
    ensures ParseU64(Decimal(n)) == Some(n)
    ensures ParseU64("+" + Decimal(n)) == Some(n)
  {
    DecimalValueOfDecimal(n);
    assert ("+" + Decimal(n))[1..] == Decimal(n);
  }

  /** A character other than a digit, except a '+' in front of further
      characters, makes the string unparsable. */
  lemma ParseRejectsNonDigit(s: string, i: nat)
    requires i < |s| && !IsDigit(s[i])
    requires !(i == 0 && s[0] == '+' && |s| > 1)
    ensures ParseU64(s) == None
  {
    if |s| > 1 && s[0] == '+' {
      assert s[1..][i - 1] == s[i];
    }
  }

  /** A value of 2^64 or more is an error even when written in digits,
      with or without a leading '+'. */
  lemma ParseRejectsOverflow(s: string)
    requires |s| > 0 && AllDigits(s) && DecimalValue(s) >= U64_LIMIT
    ensures ParseU64(s) == None
    ensures ParseU64("+" + s) == None
  {
    assert ("+" + s)[1..] == s;
  }

  /** `z` zero digits. */
  function Zeros(z: nat): (s: string)
    ensures |s| == z && AllDigits(s)
  {
    seq(z, _ => '0')
  }

  /** Leading zeros do not change the value of a string of digits. */
  lemma {:induction false} DecimalValueLeadingZeros(z: nat, s: string)
    requires AllDigits(s)
    ensures AllDigits(Zeros(z) + s)
    ensures DecimalValue(Zeros(z) + s) == DecimalValue(s)
  {
    var t := Zeros(z) + s;
    if |s| == 0 {
      assert t == Zeros(z);
      if z > 0 {
        assert Zeros(z)[..z - 1] == Zeros(z - 1) + [];
        DecimalValueLeadingZeros(z - 1, []);
      }
    } else {
      assert t[..|t| - 1] == Zeros(z) + s[..|s| - 1];
      DecimalValueLeadingZeros(z, s[..|s| - 1]);
    }
  }

  /** A u64 written with any number of leading zeros, with or without a
      leading '+', parses to itself ("007" gives 7, "+05" gives 5). */
  lemma ParseLeadingZeros(z: nat, n: u64)
    ensures ParseU64(Zeros(z) + Decimal(n)) == Some(n)
    ensures ParseU64("+" + (Zeros(z) + Decimal(n))) == Some(n)
  {
    PaddedDecimal(z, n);
    ParseDigits(Zeros(z) + Decimal(n));
  }

  /** `n` written with `z` leading zeros is a non-empty string of digits
      whose value is `n`. */
  lemma PaddedDecimal(z: nat, n: nat)
    ensures |Zeros(z) + Decimal(n)| > 0 && AllDigits(Zeros(z) + Decimal(n))
    ensures DecimalValue(Zeros(z) + Decimal(n)) == n
  {
    DecimalValueOfDecimal(n);
    DecimalValueLeadingZeros(z, Decimal(n));
  }

  /** A non-empty string of digits below 2^64, with or without a leading
      '+', parses to its value. */
  lemma ParseDigits(d: string)
    requires |d| > 0 && AllDigits(d) && DecimalValue(d) < U64_LIMIT
    ensures ParseU64(d) == Some(DecimalValue(d))
    ensures ParseU64("+" + d) == Some(DecimalValue(d))
  {
    assert ("+" + d)[1..] == d;
  }

  /** "007" parses to 7 and "+05" to 5, as Rust's parser does. */
  lemma ExampleLeadingZeros()
    ensures ParseU64("007") == Some(7)
    ensures ParseU64("+05") == Some(5)
  {
    ParseLeadingZeros(2, 7);
    assert Zeros(2) + Decimal(7) == "007";
    ParseLeadingZeros(1, 5);
    assert "+" + (Zeros(1) + Decimal(5)) == "+05";
  }

  // ---------------------------------------------------------------------
  // Option defaulting and dispatch
  // ---------------------------------------------------------------------

  const DEFAULT_ID: string := "localhost"
  const DEFAULT_INTERVAL_ARG: string := "5"
  const DEFAULT_INTERVAL_SECS: u64 := 5

  /** The seconds between ticks: the `--interval-secs` value, "5" when the
      option is missing, and 5 when the value does not parse as a u64. */
  function IntervalSecs(arg: Option<string>): (r: u64)
    ensures arg.None? ==> r == DEFAULT_INTERVAL_SECS
    ensures ParseU64(arg.GetOr(DEFAULT_INTERVAL_ARG)).Some? ==> r == ParseU64(arg.GetOr(DEFAULT_INTERVAL_ARG)).value
    ensures ParseU64(arg.GetOr(DEFAULT_INTERVAL_ARG)).None? ==> r == DEFAULT_INTERVAL_SECS
  {
    assert DEFAULT_INTERVAL_ARG == Decimal(5);
    ParseDecimal(5);
    match ParseU64(arg.GetOr(DEFAULT_INTERVAL_ARG))
    case Some(n) => n
    case None => DEFAULT_INTERVAL_SECS
  }

  /** The warning printed when the interval does not parse. */
  function IntervalLog(arg: Option<string>): seq<Diagnostic>
  {
    if ParseU64(arg.GetOr(DEFAULT_INTERVAL_ARG)).None? then [InvalidInterval] else []
  }

  /** A missing interval means 5 seconds, silently. */
  lemma IntervalMissing()
    ensures IntervalSecs(None) == 5 && IntervalLog(None) == []
  {
    assert DEFAULT_INTERVAL_ARG == Decimal(5);
    ParseDecimal(5);
  }

  /** An interval that does not parse means 5 seconds, with a warning. */
  lemma IntervalInvalid(s: string)
    requires ParseU64(s).None?
    ensures IntervalSecs(Some(s)) == 5 && IntervalLog(Some(s)) == [InvalidInterval]
  {
  }

  /** Any u64 written in decimal is taken as given, 0 included. */
  lemma IntervalGiven(n: u64)
    ensures IntervalSecs(Some(Decimal(n))) == n && IntervalLog(Some(Decimal(n))) == []
  {
    ParseDecimal(n);
  }

  /** `--interval-secs +7` and `--interval-secs 007` both mean 7 seconds. */
  lemma IntervalExampleSeven()
    ensures IntervalSecs(Some("+7")) == 7 && IntervalSecs(Some("007")) == 7
  {
    ParseLeadingZeros(0, 7);
    assert "+" + (Zeros(0) + Decimal(7)) == "+7";
    ParseLeadingZeros(2, 7);
    assert Zeros(2) + Decimal(7) == "007";
  }

  /** `--interval-secs abc` falls back to 5 seconds. */
  lemma IntervalExampleAbc()
    ensures IntervalSecs(Some("abc")) == 5 && IntervalLog(Some("abc")) == [InvalidInterval]
  {
    ParseRejectsNonDigit("abc", 0);
  }

  /** What the argument parser matched: the subcommand name, if any, and
      the values of `--id` and `--interval-secs` given to it. */
  datatype Matches = Matches(subcommand: Option<string>, id: Option<string>, interval: Option<string>)

  /** The configuration `parse_args` returns; intervals in whole seconds. */
  datatype AppOptions =
    | SysStats(id: string, interval: u64)
    | FdStats(interval: u64)
    | MountStats(interval: u64)
    | Stop

  /** `parse_args` after matching: "sys", "proc" and "mount" select their
      collector with the interval defaulted, "sys" also gets the id
      defaulted to "localhost", and anything else (no subcommand or an
      unknown one) selects `Stop`. */
  function ParseArgs(m: Matches): (r: AppOptions)
    ensures r.SysStats? <==> m.subcommand == Some("sys")
    ensures r.FdStats? <==> m.subcommand == Some("proc")
    ensures r.MountStats? <==> m.subcommand == Some("mount")
    ensures r.SysStats? ==> r.id == m.id.GetOr(DEFAULT_ID)
    ensures !r.Stop? ==> r.interval == IntervalSecs(m.interval)
  {
    match m.subcommand
    case Some("sys") => SysStats(m.id.GetOr(DEFAULT_ID), IntervalSecs(m.interval))
    case Some("proc") => FdStats(IntervalSecs(m.interval))
    case Some("mount") => MountStats(IntervalSecs(m.interval))
    case _ => Stop
  }

  /** The warnings `parse_args` prints. */
  function ParseArgsLog(m: Matches): seq<Diagnostic>
  {
    if m.subcommand in {Some("sys"), Some("proc"), Some("mount")} then IntervalLog(m.interval) else []
  }

  /** A warning is printed exactly when a collector was selected and its
      interval value does not parse; the interval is then 5 seconds. */
  lemma ParseArgsWarning(m: Matches)
    ensures ParseArgsLog(m) == [InvalidInterval] <==>
              !ParseArgs(m).Stop? && ParseU64(m.interval.GetOr(DEFAULT_INTERVAL_ARG)).None?
    ensures ParseArgsLog(m) == [InvalidInterval] ==> ParseArgs(m).interval == 5
    ensures ParseArgsLog(m) == [] || ParseArgsLog(m) == [InvalidInterval]
  {
  }

  /** `statsdump sys` alone samples "localhost" every 5 seconds. */
  lemma ExampleSysDefaults()
    ensures ParseArgs(Matches(Some("sys"), None, None)) == SysStats("localhost", 5)
  {
    IntervalMissing();
  }

  /** The readings every domain would see over a bounded run. */
  datatype Environment = Environment(sys: seq<SysReading>, procs: seq<ProcReading>, mounts: seq<MountReading>)

  /** What one invocation produces: the batches of the one loop it runs,
      or nothing. */
  datatype Session =
    | SysSession(sysOut: seq<Batch<SysInfo>>)
    | ProcSession(procOut: seq<Batch<ProcInfo>>)
    | MountSession(mountOut: seq<Batch<MountInfo>>)
    | Idle

  /** `AppOptions::run`: exactly one domain's loop runs, with the options'
      id; `Stop` runs nothing and prints "nothing to do". */
  method Run(opts: AppOptions, env: Environment) returns (s: Session, log: seq<Diagnostic>)
    ensures opts.SysStats? ==> s.SysSession? && SysTrace(opts.id, env.sys, s.sysOut) && log == SysLoopLog(env.sys)
    ensures opts.FdStats? ==> s.ProcSession? && ProcTrace(env.procs, s.procOut) && log == ProcLoopLog(env.procs)
    ensures opts.MountStats? ==> s.MountSession? && MountTrace(env.mounts, s.mountOut) && log == MountLoopLog(env.mounts)
    ensures opts.Stop? ==> s == Idle && log == [NothingToDo]
  {
    match opts {
      case SysStats(id, _) =>
        var out;
        out, log := SysStatsLoop(id, env.sys);
        s := SysSession(out);
      case FdStats(_) =>
        var out;
        out, log := FdStatsLoop(env.procs);
        s := ProcSession(out);
      case MountStats(_) =>
        var out;
        out, log := MountStatsLoop(env.mounts);
        s := MountSession(out);
      case Stop =>
        s, log := Idle, [NothingToDo];
    }
  }
}
