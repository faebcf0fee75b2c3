/** NCPkgPopupDiskspace: disk-space warnings.  Two notifiers with hysteresis watch the
    partitions; the properties are about whole sequences of checks. */
module DiskSpace {

  const MIN_FREE_MB_WARN := 400
  const MIN_FREE_MB_PROXIMITY := 700
  const MIN_PERCENT_WARN := 90
  const MIN_PERCENT_PROXIMITY := 80
  const OVERFLOW_MB_WARN := 0
  const OVERFLOW_MB_PROXIMITY := 300
  const INT_MAX := 0x7fff_ffff

  // ---------------------------------------------------------------- one partition

  /** Sizes in KiB; the packages may need more than there is. */
  datatype Partition = Partition(readonly: bool, pkg_size: nat, total_size: nat)

  /** Integer division rounding toward zero, by a positive number. */
  function TruncDiv(a: int, b: int): int
    requires b > 0
  {
    if a >= 0 then a / b else -((-a) / b)
  }

  /** A percentage that does not fit an int is the greatest int. */
  function UsedPercent(p: Partition): int {
    if p.total_size == 0 then 0
    else
      var percent := TruncDiv(100 * p.pkg_size, p.total_size);
      if percent > INT_MAX then INT_MAX else percent
  }

  /** Free space in MiB, negative when the partition overflows by at least one. */
  function FreeMB(p: Partition): int {
    TruncDiv(1024 * (p.total_size - p.pkg_size), 1024 * 1024)
  }

  /** The free space is below n MiB, and it counts as overflow only from a whole MiB on. */
  lemma FreeBelow(p: Partition, n: int)
    ensures n > 0 ==> (FreeMB(p) < n <==> p.total_size - p.pkg_size < 1024 * n)
    ensures n <= 0 ==> (FreeMB(p) < n <==> p.total_size - p.pkg_size <= 1024 * (n - 1))
  {
  }

  /** The percentage is rounded down, as long as it fits an int. */
  lemma PercentIsFloor(p: Partition)
    requires p.total_size > 0
    ensures var percent := UsedPercent(p);
      percent * p.total_size <= 100 * p.pkg_size && (percent < INT_MAX ==> 100 * p.pkg_size < (percent + 1) * p.total_size)
  {
    var a, b := 100 * p.pkg_size, p.total_size;
    var q := a / b;
    assert a == q * b + a % b && (q + 1) * b == q * b + b;
    MulMonotone(UsedPercent(p), q, b);
  }

  predicate RunningOutRange(p: Partition) { UsedPercent(p) > MIN_PERCENT_WARN && FreeMB(p) < MIN_FREE_MB_WARN }
  predicate RunningOutClose(p: Partition) { UsedPercent(p) > MIN_PERCENT_PROXIMITY && FreeMB(p) < MIN_FREE_MB_PROXIMITY }
  predicate OverflowRange(p: Partition) { FreeMB(p) < OVERFLOW_MB_WARN }
  predicate OverflowClose(p: Partition) { FreeMB(p) < OVERFLOW_MB_PROXIMITY }

  lemma MulMonotone(x: int, y: int, b: int)
    requires b > 0
    ensures x <= y ==> x * b <= y * b
  {
    if x <= y {
      assert (y - x) * b >= 0;
    }
  }

  lemma QuotientAtLeast(a: int, b: int, k: int)
    requires b > 0 && a >= k * b
    ensures a / b >= k
  {
    var q := a / b;
    assert a == q * b + a % b;
    MulMonotone(q + 1, k, b);
    assert (q + 1) * b == q * b + b;
  }

  /** A partition that overflows is also running out of space, except one of size zero, whose
      used percentage counts as zero. */
  lemma OverflowMeansRunningOut(p: Partition)
    ensures OverflowRange(p) && !RunningOutRange(p) <==> OverflowRange(p) && p.total_size == 0
    ensures RunningOutRange(p) ==> RunningOutClose(p)
    ensures OverflowRange(p) ==> OverflowClose(p)
  {
    if OverflowRange(p) && p.total_size != 0 {
      assert p.pkg_size > p.total_size;
      QuotientAtLeast(100 * p.pkg_size, p.total_size, 100);
    }
  }

  lemma PercentAbove(p: Partition, k: nat)
    requires k < 100
    ensures UsedPercent(p) > k <==> p.total_size > 0 && 100 * p.pkg_size >= (k + 1) * p.total_size
  {
    if p.total_size > 0 {
      PercentIsFloor(p);
      var u, t := UsedPercent(p), p.total_size;
      MulMonotone(k + 1, u, t);
      MulMonotone(u + 1, k + 1, t);
    }
  }

  /** The four tests in KiB.  A partition is running out of space when at least 91 % of it are used and
      less than 400 MiB are free, and close to that from 81 % and below 700 MiB; it overflows when a
      whole MiB is missing, and is close to that below 300 MiB. */
  lemma RangesInKiB(p: Partition)
    ensures RunningOutRange(p) <==>
      p.total_size > 0 && 100 * p.pkg_size >= 91 * p.total_size && p.total_size - p.pkg_size < 400 * 1024
    ensures RunningOutClose(p) <==>
      p.total_size > 0 && 100 * p.pkg_size >= 81 * p.total_size && p.total_size - p.pkg_size < 700 * 1024
    ensures OverflowRange(p) <==> p.total_size - p.pkg_size <= -1024
    ensures OverflowClose(p) <==> p.total_size - p.pkg_size < 300 * 1024
  {
    PercentAbove(p, 90);
    PercentAbove(p, 80);
    FreeBelow(p, 400);
    FreeBelow(p, 700);
    FreeBelow(p, 0);
    FreeBelow(p, 300);
  }

  // ---------------------------------------------------------------- one notifier

  datatype Note = Note(inRange: bool, isClose: bool, hasBeenClose: bool, warningPosted: bool)

  predicate Needs(n: Note) { n.inRange && !n.warningPosted }
  predicate Leaves(n: Note) { !n.isClose && !n.hasBeenClose }

  class Notifier {
    var inRange: bool
    var isClose: bool
    var hasBeenClose: bool
    var warningPosted: bool

    ghost function View(): Note
      reads this
    {
      Note(inRange, isClose, hasBeenClose, warningPosted)
    }

    predicate NeedWarning()
      reads this
    {
      inRange && !warningPosted
    }

    predicate LeavingProximity()
      reads this
    {
      !isClose && !hasBeenClose
    }

    constructor ()
      ensures View() == Note(false, false, false, false)
    {
      inRange, isClose, hasBeenClose, warningPosted := false, false, false, false;
    }

    method Clear()
      modifies this
      ensures View() == Note(false, false, old(isClose), old(warningPosted))
    {
      inRange := false;
      hasBeenClose := isClose;
      isClose := false;
    }

    method ClearHistory()
      modifies this
      ensures View() == Note(false, false, false, false)
    {
      Clear();
      hasBeenClose := false;
      warningPosted := false;
    }

    method EnterProximity()
      modifies this
      ensures View() == Note(old(inRange), true, true, old(warningPosted))
    {
      isClose := true;
      hasBeenClose := true;
    }

    method EnterRange()
      modifies this
      ensures View() == Note(true, true, true, old(warningPosted))
    {
      inRange := true;
      EnterProximity();
    }

    method WarningPostedNotify()
      modifies this
      ensures View() == old(View()).(warningPosted := true)
    {
      warningPosted := true;
    }
  }

  // ---------------------------------------------------------------- one round of checks

  /** What a notifier hears in a round: some partition is in its range, some is close. */
  datatype Signals = Signals(inRange: bool, close: bool)
  datatype Round = Round(over: Signals, run: Signals)

  ghost predicate Possible(r: Round) { (r.over.inRange ==> r.over.close) && (r.run.inRange ==> r.run.close) }

  ghost predicate SomeWritable(parts: seq<Partition>, n: nat, test: Partition -> bool)
    requires n <= |parts|
  {
    exists i :: 0 <= i < n && !parts[i].readonly && test(parts[i])
  }

  ghost function Heard(parts: seq<Partition>, n: nat): Round
    requires n <= |parts|
  {
    Round(Signals(SomeWritable(parts, n, OverflowRange), SomeWritable(parts, n, OverflowClose)),
          Signals(SomeWritable(parts, n, RunningOutRange), SomeWritable(parts, n, RunningOutClose)))
  }

  lemma HeardIsPossible(parts: seq<Partition>, n: nat)
    requires n <= |parts|
    ensures Possible(Heard(parts, n))
    ensures (forall i :: 0 <= i < n && !parts[i].readonly ==> parts[i].total_size > 0) ==>
              (Heard(parts, n).over.inRange ==> Heard(parts, n).run.inRange)
  {
    forall i | 0 <= i < n
      ensures OverflowRange(parts[i]) ==> OverflowClose(parts[i])
      ensures RunningOutRange(parts[i]) ==> RunningOutClose(parts[i])
      ensures OverflowRange(parts[i]) && parts[i].total_size > 0 ==> RunningOutRange(parts[i])
    {
      OverflowMeansRunningOut(parts[i]);
    }
  }

  datatype Monitor = Monitor(over: Note, run: Note)

  /** A notifier that has been cleared and has heard its signals. */
  function Hear(n: Note, s: Signals): Note {
    Note(s.inRange, s.close, s.close || n.isClose, n.warningPosted)
  }

  function Settle(n: Note): Note {
    if Leaves(n) then Note(false, false, false, false) else n
  }

  function OverPopup(m: Monitor, r: Round): bool { Needs(Hear(m.over, r.over)) }

  /** An overflow popup makes the other one redundant. */
  function RunPopup(m: Monitor, r: Round): bool { !OverPopup(m, r) && Needs(Hear(m.run, r.run)) }

  function After(m: Monitor, r: Round): Monitor {
    Posted(Monitor(Hear(m.over, r.over), Hear(m.run, r.run)))
  }

  /** The end of a round: due popups are remembered, quiet notifiers forget. */
  function Posted(m: Monitor): Monitor {
    var over, run := Needs(m.over), Needs(m.run);
    Monitor(Settle(m.over.(warningPosted := m.over.warningPosted || over)),
            Settle(m.run.(warningPosted := m.run.warningPosted || over || run)))
  }

  class Checker {
    const runningOut: Notifier
    const overflow: Notifier

    ghost predicate Valid() { runningOut != overflow }

    ghost function State(): Monitor
      reads runningOut, overflow
    {
      Monitor(overflow.View(), runningOut.View())
    }

    constructor ()
      ensures Valid() && fresh(runningOut) && fresh(overflow)
      ensures State() == Monitor(Note(false, false, false, false), Note(false, false, false, false))
    {
      runningOut := new Notifier();
      overflow := new Notifier();
    }

    method CheckRemaining(p: Partition)
      requires Valid()
      modifies runningOut, overflow
      ensures var o, s := old(State()), State();
        s == if p.readonly then o
             else Monitor(Told(o.over, OverflowRange(p), OverflowClose(p)),
                          Told(o.run, RunningOutRange(p), RunningOutClose(p)))
    {
      if p.readonly {
        return;
      }
      var percent := UsedPercent(p);
      var free := FreeMB(p);
      if percent > MIN_PERCENT_WARN {
        if free < MIN_FREE_MB_PROXIMITY {
          runningOut.EnterProximity();
        }
        if free < MIN_FREE_MB_WARN {
          runningOut.EnterRange();
        }
      }
      if free < MIN_FREE_MB_PROXIMITY {
        if percent > MIN_PERCENT_PROXIMITY {
          runningOut.EnterProximity();
        }
      }
      if free < OVERFLOW_MB_WARN {
        overflow.EnterRange();
      }
      if free < OVERFLOW_MB_PROXIMITY {
        overflow.EnterProximity();
      }
    }

    /** A round of checks over all partitions, with the popups it shows. */
    method CheckRange(parts: seq<Partition>) returns (overPopup: bool, runPopup: bool)
      requires Valid()
      modifies runningOut, overflow
      ensures var r := Heard(parts, |parts|);
        && overPopup == OverPopup(old(State()), r)
        && runPopup == RunPopup(old(State()), r)
        && State() == After(old(State()), r)
    {
      runningOut.Clear();
      overflow.Clear();
      for i := 0 to |parts|
        invariant var r := Heard(parts, i);
          State() == Monitor(Hear(old(State()).over, r.over), Hear(old(State()).run, r.run))
      {
        HeardStep(parts, i);
        if !parts[i].readonly {
          CheckRemaining(parts[i]);
        }
      }
      overPopup, runPopup := PostPending();
    }

    method PostPending() returns (overPopup: bool, runPopup: bool)
      requires Valid()
      modifies runningOut, overflow
      ensures overPopup == Needs(old(State()).over)
      ensures runPopup == (!overPopup && Needs(old(State()).run))
      ensures State() == Posted(old(State()))
    {
      overPopup, runPopup := false, false;
      if overflow.NeedWarning() {
        overPopup := true;
        overflow.WarningPostedNotify();
        runningOut.WarningPostedNotify();
      }
      if runningOut.NeedWarning() {
        runPopup := true;
        runningOut.WarningPostedNotify();
      }
      if overflow.LeavingProximity() {
        overflow.ClearHistory();
      }
      if runningOut.LeavingProximity() {
        runningOut.ClearHistory();
      }
    }
  }

  function Told(n: Note, range: bool, close: bool): Note {
    Note(n.inRange || range, n.isClose || close, n.hasBeenClose || close, n.warningPosted)
  }

  lemma HeardStep(parts: seq<Partition>, i: nat)
    requires i < |parts|
    ensures var p, r, s := parts[i], Heard(parts, i), Heard(parts, i + 1);
      if p.readonly then s == r
      else
        && s.over == Signals(r.over.inRange || OverflowRange(p), r.over.close || OverflowClose(p))
        && s.run == Signals(r.run.inRange || RunningOutRange(p), r.run.close || RunningOutClose(p))
  {
    SomeStep(parts, i, OverflowRange);
    SomeStep(parts, i, OverflowClose);
    SomeStep(parts, i, RunningOutRange);
    SomeStep(parts, i, RunningOutClose);
  }

  lemma SomeStep(parts: seq<Partition>, i: nat, test: Partition -> bool)
    requires i < |parts|
    ensures SomeWritable(parts, i + 1, test) == (SomeWritable(parts, i, test) || (!parts[i].readonly && test(parts[i])))
  {
  }

  // ---------------------------------------------------------------- sequences of rounds

  function StateAt(rounds: seq<Round>, k: nat): Monitor
    requires k <= |rounds|
  {
    if k == 0 then Monitor(Note(false, false, false, false), Note(false, false, false, false))
    else After(StateAt(rounds, k - 1), rounds[k - 1])
  }

  predicate OverPopupAt(rounds: seq<Round>, k: nat)
    requires k < |rounds|
  {
    OverPopup(StateAt(rounds, k), rounds[k])
  }

  predicate RunPopupAt(rounds: seq<Round>, k: nat)
    requires k < |rounds|
  {
    RunPopup(StateAt(rounds, k), rounds[k])
  }

  /** Round m and the one before it found nothing close. */
  predicate OverQuiet(rounds: seq<Round>, m: nat)
    requires m < |rounds|
  {
    !rounds[m].over.close && (m == 0 || !rounds[m - 1].over.close)
  }

  predicate RunQuiet(rounds: seq<Round>, m: nat)
    requires m < |rounds|
  {
    !rounds[m].run.close && (m == 0 || !rounds[m - 1].run.close)
  }

  ghost predicate OverSilenced(rounds: seq<Round>, i: nat, k: nat)
    requires i < k <= |rounds|
  {
    OverPopupAt(rounds, i) && forall m :: i <= m < k ==> !OverQuiet(rounds, m)
  }

  ghost predicate RunSilenced(rounds: seq<Round>, i: nat, k: nat)
    requires i < k <= |rounds|
  {
    (OverPopupAt(rounds, i) || RunPopupAt(rounds, i)) && forall m :: i <= m < k ==> !RunQuiet(rounds, m)
  }

  ghost predicate OverMemory(rounds: seq<Round>, k: nat)
    requires k <= |rounds|
  {
    exists i :: 0 <= i < k && OverSilenced(rounds, i, k)
  }

  ghost predicate RunMemory(rounds: seq<Round>, k: nat)
    requires k <= |rounds|
  {
    exists i :: 0 <= i < k && RunSilenced(rounds, i, k)
  }

  lemma OverMemoryStep(rounds: seq<Round>, k: nat)
    requires 0 < k <= |rounds|
    ensures OverMemory(rounds, k) <==> !OverQuiet(rounds, k - 1) && (OverPopupAt(rounds, k - 1) || OverMemory(rounds, k - 1))
  {
    if OverMemory(rounds, k) {
      var i :| 0 <= i < k && OverSilenced(rounds, i, k);
      assert i < k - 1 ==> OverSilenced(rounds, i, k - 1);
    }
    if !OverQuiet(rounds, k - 1) && OverPopupAt(rounds, k - 1) {
      assert OverSilenced(rounds, k - 1, k);
    }
    if !OverQuiet(rounds, k - 1) && OverMemory(rounds, k - 1) {
      var i :| 0 <= i < k - 1 && OverSilenced(rounds, i, k - 1);
      assert OverSilenced(rounds, i, k);
    }
  }

  lemma RunMemoryStep(rounds: seq<Round>, k: nat)
    requires 0 < k <= |rounds|
    ensures RunMemory(rounds, k) <==>
      !RunQuiet(rounds, k - 1) && (OverPopupAt(rounds, k - 1) || RunPopupAt(rounds, k - 1) || RunMemory(rounds, k - 1))
  {
    if RunMemory(rounds, k) {
      var i :| 0 <= i < k && RunSilenced(rounds, i, k);
      assert i < k - 1 ==> RunSilenced(rounds, i, k - 1);
    }
    if !RunQuiet(rounds, k - 1) && (OverPopupAt(rounds, k - 1) || RunPopupAt(rounds, k - 1)) {
      assert RunSilenced(rounds, k - 1, k);
    }
    if !RunQuiet(rounds, k - 1) && RunMemory(rounds, k - 1) {
      var i :| 0 <= i < k - 1 && RunSilenced(rounds, i, k - 1);
      assert RunSilenced(rounds, i, k);
    }
  }

  /** What the flags remember of the rounds so far. */
  lemma {:induction false} Memory(rounds: seq<Round>, k: nat)
    requires k <= |rounds|
    ensures var s := StateAt(rounds, k);
      && s.over.isClose == (k > 0 && rounds[k - 1].over.close)
      && s.run.isClose == (k > 0 && rounds[k - 1].run.close)
      && s.over.warningPosted == OverMemory(rounds, k)
      && s.run.warningPosted == RunMemory(rounds, k)
  {
    if k > 0 {
      Memory(rounds, k - 1);
      OverMemoryStep(rounds, k);
      RunMemoryStep(rounds, k);
    }
  }

  /** An overflow popup is shown exactly when a partition overflows and every earlier overflow
      popup lies behind two rounds in a row without anything close. */
  lemma OverPopupExactly(rounds: seq<Round>, k: nat)
    requires k < |rounds|
    ensures OverPopupAt(rounds, k) <==>
      rounds[k].over.inRange && forall i :: 0 <= i < k ==> !OverSilenced(rounds, i, k)
  {
    Memory(rounds, k);
  }

  /** A running-out popup is shown exactly when a partition is running out, no overflow popup is
      shown in the same round, and every earlier popup of either kind lies behind two rounds in a
      row without anything close to running out. */
  lemma RunPopupExactly(rounds: seq<Round>, k: nat)
    requires k < |rounds|
    ensures RunPopupAt(rounds, k) <==>
      rounds[k].run.inRange && !OverPopupAt(rounds, k) && forall i :: 0 <= i < k ==> !RunSilenced(rounds, i, k)
  {
    Memory(rounds, k);
  }

  /** The second of two rounds in a row, after round i, that find nothing close to overflowing. */
  lemma OverQuietBetween(rounds: seq<Round>, i: nat, k: nat) returns (m: nat)
    requires i < k < |rounds| && rounds[i].over.close && OverPopupAt(rounds, i) && OverPopupAt(rounds, k)
    ensures i + 2 <= m < k && !rounds[m].over.close && !rounds[m - 1].over.close
  {
    OverPopupExactly(rounds, k);
    assert !OverSilenced(rounds, i, k);
    m :| i <= m < k && OverQuiet(rounds, m);
  }

  lemma RunQuietBetween(rounds: seq<Round>, i: nat, k: nat) returns (m: nat)
    requires i < k < |rounds| && rounds[i].run.close
    requires (OverPopupAt(rounds, i) || RunPopupAt(rounds, i)) && RunPopupAt(rounds, k)
    ensures i + 2 <= m < k && !rounds[m].run.close && !rounds[m - 1].run.close
  {
    RunPopupExactly(rounds, k);
    assert !RunSilenced(rounds, i, k);
    m :| i <= m < k && RunQuiet(rounds, m);
  }

  /** Two popups of one kind are separated by two consecutive rounds out of proximity. */
  lemma PopupsAreSeparated(rounds: seq<Round>, i: nat, k: nat)
    requires i < k < |rounds| && Possible(rounds[i])
    ensures OverPopupAt(rounds, i) && OverPopupAt(rounds, k) ==>
      exists m :: i + 2 <= m < k && !rounds[m].over.close && !rounds[m - 1].over.close
    ensures RunPopupAt(rounds, i) && RunPopupAt(rounds, k) ==>
      exists m :: i + 2 <= m < k && !rounds[m].run.close && !rounds[m - 1].run.close
  {
    if OverPopupAt(rounds, i) && OverPopupAt(rounds, k) {
      var _ := OverQuietBetween(rounds, i, k);
    }
    if RunPopupAt(rounds, i) && RunPopupAt(rounds, k) {
      var _ := RunQuietBetween(rounds, i, k);
    }
  }

  /** After an overflow popup on partitions of non-zero size, a running-out popup also has to
      wait for two rounds in a row without anything close to running out. */
  lemma OverflowSuppressesRunningOut(rounds: seq<Round>, i: nat, k: nat)
    requires i < k < |rounds| && Possible(rounds[i])
    requires rounds[i].over.inRange ==> rounds[i].run.inRange
    requires OverPopupAt(rounds, i) && RunPopupAt(rounds, k)
    ensures exists m :: i + 2 <= m < k && !rounds[m].run.close && !rounds[m - 1].run.close
  {
    var _ := RunQuietBetween(rounds, i, k);
  }

  // ---------------------------------------------------------------- sequences of checks

  /** The rounds of a sequence of checks, each over the partitions as they are then. */
  ghost function RoundsOf(checks: seq<seq<Partition>>): (rounds: seq<Round>)
    ensures |rounds| == |checks|
  {
    if checks == [] then []
    else
      var last := checks[|checks| - 1];
      RoundsOf(checks[..|checks| - 1]) + [Heard(last, |last|)]
  }

  lemma {:induction false} RoundAt(checks: seq<seq<Partition>>, k: nat)
    requires k < |checks|
    ensures RoundsOf(checks)[k] == Heard(checks[k], |checks[k]|)
  {
    if k < |checks| - 1 {
      RoundAt(checks[..|checks| - 1], k);
    }
  }

  /** A round heard from partitions, with nothing assumed about them. */
  lemma RoundIsPossible(checks: seq<seq<Partition>>, k: nat)
    requires k < |checks|
    ensures Possible(RoundsOf(checks)[k])
    ensures Sized(checks[k]) && RoundsOf(checks)[k].over.inRange ==> RoundsOf(checks)[k].run.inRange
  {
    RoundAt(checks, k);
    HeardIsPossible(checks[k], |checks[k]|);
  }

  /** No writable partition has size zero. */
  ghost predicate Sized(parts: seq<Partition>) {
    forall i :: 0 <= i < |parts| && !parts[i].readonly ==> parts[i].total_size > 0
  }

  /** No writable partition is close to overflowing in check m nor in the one before it. */
  ghost predicate QuietOver(checks: seq<seq<Partition>>, m: nat)
    requires 1 <= m < |checks|
  {
    !SomeWritable(checks[m], |checks[m]|, OverflowClose) && !SomeWritable(checks[m - 1], |checks[m - 1]|, OverflowClose)
  }

  ghost predicate QuietRun(checks: seq<seq<Partition>>, m: nat)
    requires 1 <= m < |checks|
  {
    !SomeWritable(checks[m], |checks[m]|, RunningOutClose) && !SomeWritable(checks[m - 1], |checks[m - 1]|, RunningOutClose)
  }

  lemma QuietRounds(checks: seq<seq<Partition>>, m: nat)
    requires 1 <= m < |checks|
    ensures var r, q := RoundsOf(checks)[m], RoundsOf(checks)[m - 1];
      (!r.over.close && !q.over.close <==> QuietOver(checks, m)) && (!r.run.close && !q.run.close <==> QuietRun(checks, m))
  {
    RoundAt(checks, m);
    RoundAt(checks, m - 1);
  }

  /** Whatever the partitions are at each check: two overflow popups have two checks in a row strictly
      between them that find nothing close. */
  lemma CheckOverSeparated(checks: seq<seq<Partition>>, i: nat, k: nat)
    requires i < k < |checks| && OverPopupAt(RoundsOf(checks), i) && OverPopupAt(RoundsOf(checks), k)
    ensures exists m :: i + 2 <= m < k && QuietOver(checks, m)
  {
    RoundIsPossible(checks, i);
    var m := OverQuietBetween(RoundsOf(checks), i, k);
    QuietRounds(checks, m);
  }

  /** So have two running-out popups; and an overflow popup and a later running-out popup, if no
      writable partition had size zero at the first. */
  lemma CheckRunSeparated(checks: seq<seq<Partition>>, i: nat, k: nat)
    requires i < k < |checks| && RunPopupAt(RoundsOf(checks), k)
    requires RunPopupAt(RoundsOf(checks), i) || (OverPopupAt(RoundsOf(checks), i) && Sized(checks[i]))
    ensures exists m :: i + 2 <= m < k && QuietRun(checks, m)
  {
    RoundIsPossible(checks, i);
    var m := RunQuietBetween(RoundsOf(checks), i, k);
    QuietRounds(checks, m);
  }

  /** The first check, in KiB: an overflow popup exactly if a whole MiB is missing on some writable
      partition, otherwise a running-out popup exactly if some writable one is at least 91 % used with
      less than 400 MiB free. */
  lemma FirstCheckWarns(checks: seq<seq<Partition>>)
    requires checks != []
    ensures OverPopupAt(RoundsOf(checks), 0) <==>
      exists i :: 0 <= i < |checks[0]| && !checks[0][i].readonly && checks[0][i].total_size - checks[0][i].pkg_size <= -1024
    ensures RunPopupAt(RoundsOf(checks), 0) <==>
      && !OverPopupAt(RoundsOf(checks), 0)
      && exists i :: 0 <= i < |checks[0]| && !checks[0][i].readonly && checks[0][i].total_size > 0 &&
           100 * checks[0][i].pkg_size >= 91 * checks[0][i].total_size &&
           checks[0][i].total_size - checks[0][i].pkg_size < 400 * 1024
  {
    RoundAt(checks, 0);
    forall i | 0 <= i < |checks[0]|
      ensures OverflowRange(checks[0][i]) <==> checks[0][i].total_size - checks[0][i].pkg_size <= -1024
      ensures RunningOutRange(checks[0][i]) <==>
        checks[0][i].total_size > 0 && 100 * checks[0][i].pkg_size >= 91 * checks[0][i].total_size &&
        checks[0][i].total_size - checks[0][i].pkg_size < 400 * 1024
    {
      RangesInKiB(checks[0][i]);
    }
  }

  /** A later check stays silent about a range exactly because of an earlier popup; here the exact
      conditions of OverPopupExactly and RunPopupExactly, for checks of partitions. */
  lemma PopupsExactly(checks: seq<seq<Partition>>, k: nat)
    requires k < |checks|
    ensures OverPopupAt(RoundsOf(checks), k) <==>
      && SomeWritable(checks[k], |checks[k]|, OverflowRange)
      && forall i :: 0 <= i < k ==> !OverSilenced(RoundsOf(checks), i, k)
    ensures RunPopupAt(RoundsOf(checks), k) <==>
      && SomeWritable(checks[k], |checks[k]|, RunningOutRange) && !OverPopupAt(RoundsOf(checks), k)
      && forall i :: 0 <= i < k ==> !RunSilenced(RoundsOf(checks), i, k)
  {
    RoundAt(checks, k);
    OverPopupExactly(RoundsOf(checks), k);
    RunPopupExactly(RoundsOf(checks), k);
  }
}
