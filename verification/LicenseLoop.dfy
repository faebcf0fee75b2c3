/** NCPackageSelector: the OK button.  Dependencies are solved and licences shown, again and
    again, until every licence of what is going to be installed is confirmed or the user
    cancels.  The solver and the user are parameters. */
module LicenseLoop {

  datatype Status =
    | Protected | Taboo | Del | Update | Install | AutoDel | AutoUpdate | AutoInstall | KeepInstalled | NoInst

  datatype Selectable = Selectable(status: Status, hasCandidate: bool, license: string, confirmed: bool)

  predicate Marked(s: Status) { s in {Install, AutoInstall, Update, AutoUpdate} }
  predicate Locked(s: Status) { s in {Taboo, Protected} }
  predicate HasLicense(s: Selectable) { s.hasCandidate && s.license != "" }

  /** Going to be installed or updated under a licence nobody has agreed to. */
  predicate Pending(s: Selectable) { Marked(s.status) && HasLicense(s) && !s.confirmed }

  /** Agreeing confirms the licence.  Refusing locks what would have been installed: what is not
      installed becomes taboo, what is installed is protected from the update. */
  function Agreement(s: Selectable, agrees: bool): Selectable {
    if agrees then s.(confirmed := true)
    else if s.status == Install || s.status == AutoInstall then s.(status := Taboo)
    else if s.status == Update || s.status == AutoUpdate then s.(status := Protected)
    else s
  }

  method ShowLicenseAgreement(sel: Selectable, agrees: bool) returns (after: Selectable, ok: bool)
    ensures after == Agreement(sel, agrees) && ok == agrees
    ensures agrees ==> after == sel.(confirmed := true)
    ensures !agrees && sel.status in {Install, AutoInstall} ==> after == sel.(status := Taboo)
    ensures !agrees && sel.status in {Update, AutoUpdate} ==> after == sel.(status := Protected)
    ensures !agrees && !(sel.status in {Install, AutoInstall, Update, AutoUpdate}) ==> after == sel
    ensures Marked(sel.status) && HasLicense(sel) ==> !Pending(after) && (ok <==> after.status == sel.status)
  {
    after := sel;
    if !agrees {
      match sel.status {
        case Install => after := after.(status := Taboo);
        case AutoInstall => after := after.(status := Taboo);
        case Update => after := after.(status := Protected);
        case AutoUpdate => after := after.(status := Protected);
        case _ =>
      }
      ok := false;
    } else {
      after := after.(confirmed := true);
      ok := true;
    }
  }

  /** One pass over a list: pending items are answered, all others left alone. */
  ghost predicate Answered(before: seq<Selectable>, after: seq<Selectable>, agrees: nat -> bool) {
    && |after| == |before|
    && forall i :: 0 <= i < |before| ==>
         after[i] == if Pending(before[i]) then Agreement(before[i], agrees(i)) else before[i]
  }

  ghost predicate NonePending(list: seq<Selectable>) {
    forall i :: 0 <= i < |list| ==> !Pending(list[i])
  }

  ghost predicate SameStatus(a: seq<Selectable>, b: seq<Selectable>) {
    |a| == |b| && forall i :: 0 <= i < |a| ==> a[i].status == b[i].status
  }

  method ShowPending(list: seq<Selectable>, agrees: nat -> bool) returns (after: seq<Selectable>, allConfirmed: bool)
    ensures Answered(list, after, agrees)
    ensures allConfirmed <==> forall i :: 0 <= i < |list| && Pending(list[i]) ==> agrees(i)
  {
    after, allConfirmed := list, true;
    for i := 0 to |list|
      invariant |after| == |list|
      invariant forall k :: 0 <= k < |list| ==>
        after[k] == if k < i && Pending(list[k]) then Agreement(list[k], agrees(k)) else list[k]
      invariant allConfirmed <==> forall k :: 0 <= k < i && Pending(list[k]) ==> agrees(k)
    {
      var sel := after[i];
      if sel.status in {Install, AutoInstall, Update, AutoUpdate} {
        if sel.hasCandidate {
          if sel.license != "" {
            if !sel.confirmed {
              var answered, ok := ShowLicenseAgreement(sel, agrees(i));
              after := after[i := answered];
              allConfirmed := ok && allConfirmed;
            }
          }
        }
      }
    }
  }

  /** What a pass does to an item.  One that is going to be installed or updated under a licence not
      yet confirmed is confirmed, or refused: then a new one is taboo and an installed one protected,
      and nothing else about it changes.  Any other item is left as it is. */
  lemma AnswerMeans(before: seq<Selectable>, after: seq<Selectable>, agrees: nat -> bool, i: nat)
    requires Answered(before, after, agrees) && i < |before|
    ensures var a, b := before[i], after[i];
      if a.status in {Install, AutoInstall, Update, AutoUpdate} && a.hasCandidate && a.license != "" && !a.confirmed then
        if agrees(i) then b == a.(confirmed := true)
        else if a.status in {Install, AutoInstall} then b == a.(status := Taboo)
        else b == a.(status := Protected)
      else b == a
  {
  }

  /** Everything that is going to be installed or updated, and has a licence, has it confirmed. */
  lemma NonePendingMeans(list: seq<Selectable>)
    ensures NonePending(list) <==>
      forall i :: 0 <= i < |list| ==>
        (list[i].status in {Install, AutoInstall, Update, AutoUpdate} && list[i].hasCandidate && list[i].license != "" ==>
           list[i].confirmed)
  {
  }

  /** A pass leaves nothing pending; and only a refusal changes what will be installed. */
  lemma PassSettles(list: seq<Selectable>, after: seq<Selectable>, agrees: nat -> bool)
    requires Answered(list, after, agrees)
    ensures NonePending(after)
    ensures (forall i :: 0 <= i < |list| && Pending(list[i]) ==> agrees(i)) <==> SameStatus(list, after)
  {
    forall i | 0 <= i < |list| && list[i].status == after[i].status ensures Pending(list[i]) ==> agrees(i) {
    }
    if SameStatus(list, after) {
      forall i | 0 <= i < |list| && Pending(list[i]) ensures agrees(i) {
        assert list[i].status == after[i].status;
      }
    }
  }

  // ---------------------------------------------------------------- counting

  /** Items whose licence may still have to be shown. */
  predicate Open(s: Selectable) { !Locked(s.status) && HasLicense(s) && !s.confirmed }
  predicate Unlocked(s: Selectable) { !Locked(s.status) }

  /** How many of the first n items pass a test. */
  function Count(list: seq<Selectable>, n: nat, test: Selectable -> bool): nat
    requires n <= |list|
  {
    if n == 0 then 0 else Count(list, n - 1, test) + if test(list[n - 1]) then 1 else 0
  }

  lemma {:induction false} CountMonotone(list: seq<Selectable>, m: nat, n: nat, test: Selectable -> bool)
    requires m <= n <= |list|
    ensures Count(list, m, test) <= Count(list, n, test)
    decreases n
  {
    if m < n {
      CountMonotone(list, m, n - 1, test);
    }
  }

  lemma {:induction false} CountShrinks(a: seq<Selectable>, b: seq<Selectable>, n: nat, test: Selectable -> bool)
    requires n <= |a| == |b| && forall i :: 0 <= i < n ==> test(b[i]) ==> test(a[i])
    ensures Count(b, n, test) <= Count(a, n, test)
    ensures (exists i :: 0 <= i < n && test(a[i]) && !test(b[i])) ==> Count(b, n, test) < Count(a, n, test)
  {
    if n > 0 {
      CountShrinks(a, b, n - 1, test);
    }
  }

  /** A pass closes what was pending. */
  lemma PassCloses(list: seq<Selectable>, after: seq<Selectable>, agrees: nat -> bool)
    requires Answered(list, after, agrees)
    ensures Count(after, |after|, Open) <= Count(list, |list|, Open)
    ensures !NonePending(list) ==> Count(after, |after|, Open) < Count(list, |list|, Open)
  {
    CountShrinks(list, after, |list|, Open);
    if !NonePending(list) {
      var i :| 0 <= i < |list| && Pending(list[i]);
      assert Open(list[i]) && !Open(after[i]);
    }
  }

  /** A pass frees nothing and locks what was refused. */
  lemma PassLocks(list: seq<Selectable>, after: seq<Selectable>, agrees: nat -> bool)
    requires Answered(list, after, agrees)
    ensures Count(after, |after|, Unlocked) <= Count(list, |list|, Unlocked)
    ensures (exists i :: 0 <= i < |list| && Pending(list[i]) && !agrees(i)) ==>
      Count(after, |after|, Unlocked) < Count(list, |list|, Unlocked)
  {
    CountShrinks(list, after, |list|, Unlocked);
    if i :| 0 <= i < |list| && Pending(list[i]) && !agrees(i) {
      assert Unlocked(list[i]) && !Unlocked(after[i]);
    }
  }

  /** b has item i free, and a has it locked or does not have it. */
  predicate Frees(a: seq<Selectable>, b: seq<Selectable>, i: nat)
    requires i < |b|
  {
    Unlocked(b[i]) && !(i < |a| && Unlocked(a[i]))
  }

  function CountFreed(a: seq<Selectable>, b: seq<Selectable>, n: nat): nat
    requires n <= |b|
  {
    if n == 0 then 0 else CountFreed(a, b, n - 1) + if Frees(a, b, n - 1) then 1 else 0
  }

  lemma {:induction false} FreedOnTop(a: seq<Selectable>, b: seq<Selectable>, n: nat)
    requires n <= |b|
    ensures Count(b, n, Unlocked) <= Count(a, if n < |a| then n else |a|, Unlocked) + CountFreed(a, b, n)
  {
    if n > 0 {
      FreedOnTop(a, b, n - 1);
    }
  }

  lemma {:induction false} NoneFreed(a: seq<Selectable>, b: seq<Selectable>, n: nat)
    requires n <= |b| && forall i :: 0 <= i < n ==> !Frees(a, b, i)
    ensures CountFreed(a, b, n) == 0
  {
    if n > 0 {
      NoneFreed(a, b, n - 1);
    }
  }

  // ---------------------------------------------------------------- rounds

  datatype Pool = Pool(patches: seq<Selectable>, packages: seq<Selectable>)

  /** The world around the dialog: what the solver makes of the pool in each round, whether the
      user cancels its popup, and which licences the user agrees to. */
  datatype World = World(
    solve: (nat, Pool) -> Pool, cancels: nat -> bool,
    agreesPatch: (nat, nat) -> bool, agreesPackage: (nat, nat) -> bool)

  /** Items passing a test, where licences are looked at: patches only in online-update mode. */
  function CountIn(youMode: bool, p: Pool, test: Selectable -> bool): nat {
    Count(p.packages, |p.packages|, test) + if youMode then Count(p.patches, |p.patches|, test) else 0
  }

  /** Items that q has free and p has not. */
  function FreedIn(youMode: bool, p: Pool, q: Pool): nat {
    CountFreed(p.packages, q.packages, |q.packages|) +
    if youMode then CountFreed(p.patches, q.patches, |q.patches|) else 0
  }

  /** Nothing that will be installed is left without its licence confirmed. */
  ghost predicate Cleared(youMode: bool, p: Pool) {
    NonePending(p.packages) && (youMode ==> NonePending(p.patches))
  }

  function AnswerAll(list: seq<Selectable>, agrees: nat -> bool): seq<Selectable> {
    seq(|list|, i requires 0 <= i < |list| =>
      if Pending(list[i]) then Agreement(list[i], agrees(i)) else list[i])
  }

  /** The licences of a solved pool, answered in round n. */
  function Confirm(w: World, youMode: bool, n: nat, q: Pool): Pool {
    Pool(if youMode then AnswerAll(q.patches, (i: nat) => w.agreesPatch(n, i)) else q.patches,
         AnswerAll(q.packages, (i: nat) => w.agreesPackage(n, i)))
  }

  /** No licence of a solved pool is refused in round n. */
  ghost predicate AllAgreed(w: World, youMode: bool, n: nat, q: Pool) {
    && (forall i :: 0 <= i < |q.packages| && Pending(q.packages[i]) ==> w.agreesPackage(n, i))
    && (youMode ==> forall i :: 0 <= i < |q.patches| && Pending(q.patches[i]) ==> w.agreesPatch(n, i))
  }

  /** One round: the solver, then the licences. */
  function RoundOf(w: World, youMode: bool, n: nat, p: Pool): Pool { Confirm(w, youMode, n, w.solve(n, p)) }

  /** The pool after n rounds. */
  function PoolAt(w: World, youMode: bool, p: Pool, n: nat): Pool {
    if n == 0 then p else RoundOf(w, youMode, n - 1, PoolAt(w, youMode, p, n - 1))
  }

  /** What the solver makes of the pool in round n. */
  function Solved(w: World, youMode: bool, p: Pool, n: nat): Pool {
    w.solve(n, PoolAt(w, youMode, p, n))
  }

  /** Both pools install the same, where licences are looked at. */
  ghost predicate SamePlan(youMode: bool, p: Pool, q: Pool) {
    SameStatus(p.packages, q.packages) && (youMode ==> SameStatus(p.patches, q.patches))
  }

  ghost predicate AllConfirmed(w: World, youMode: bool, p: Pool, n: nat) {
    AllAgreed(w, youMode, n, Solved(w, youMode, p, n))
  }

  /** Answering the licences leaves nothing pending, and leaves the plan as it is exactly when nothing
      is refused. */
  lemma ConfirmSettles(w: World, youMode: bool, n: nat, q: Pool)
    ensures Cleared(youMode, Confirm(w, youMode, n, q))
    ensures AllAgreed(w, youMode, n, q) <==> SamePlan(youMode, q, Confirm(w, youMode, n, q))
  {
    var r := Confirm(w, youMode, n, q);
    PassSettles(q.packages, r.packages, (i: nat) => w.agreesPackage(n, i));
    if youMode {
      PassSettles(q.patches, r.patches, (i: nat) => w.agreesPatch(n, i));
    }
  }

  /** A refusal locks and closes something; nothing is ever freed or opened. */
  lemma ConfirmCounts(w: World, youMode: bool, n: nat, q: Pool)
    ensures var r, refused := Confirm(w, youMode, n, q), if AllAgreed(w, youMode, n, q) then 0 else 1;
      && CountIn(youMode, r, Open) + refused <= CountIn(youMode, q, Open)
      && CountIn(youMode, r, Unlocked) + refused <= CountIn(youMode, q, Unlocked)
  {
    var r := Confirm(w, youMode, n, q);
    PassCloses(q.packages, r.packages, (i: nat) => w.agreesPackage(n, i));
    PassLocks(q.packages, r.packages, (i: nat) => w.agreesPackage(n, i));
    if youMode {
      PassCloses(q.patches, r.patches, (i: nat) => w.agreesPatch(n, i));
      PassLocks(q.patches, r.patches, (i: nat) => w.agreesPatch(n, i));
    }
  }

  /** Whatever the solver does: after any round nothing is pending, and a round that confirms
      everything installs what the solver settled on. */
  lemma EveryRoundIsSafe(w: World, youMode: bool, p: Pool, n: nat)
    ensures Cleared(youMode, PoolAt(w, youMode, p, n + 1))
    ensures var q, r := Solved(w, youMode, p, n), PoolAt(w, youMode, p, n + 1);
      AllConfirmed(w, youMode, p, n) <==> SamePlan(youMode, q, r)
  {
    ConfirmSettles(w, youMode, n, Solved(w, youMode, p, n));
  }

  // ---------------------------------------------------------------- what makes the loop end

  /** How many of the first n rounds refuse something. */
  ghost function Refusals(w: World, youMode: bool, p: Pool, n: nat): nat {
    if n == 0 then 0
    else Refusals(w, youMode, p, n - 1) + if AllConfirmed(w, youMode, p, n - 1) then 0 else 1
  }

  /** How many items the solver has freed in the first n rounds. */
  function FreedSoFar(w: World, youMode: bool, p: Pool, n: nat): nat {
    if n == 0 then 0
    else FreedSoFar(w, youMode, p, n - 1) + FreedIn(youMode, PoolAt(w, youMode, p, n - 1), Solved(w, youMode, p, n - 1))
  }

  lemma SolvedUnlocks(youMode: bool, p: Pool, q: Pool)
    ensures CountIn(youMode, q, Unlocked) <= CountIn(youMode, p, Unlocked) + FreedIn(youMode, p, q)
  {
    FreedOnTop(p.packages, q.packages, |q.packages|);
    FreedOnTop(p.patches, q.patches, |q.patches|);
    CountMonotone(p.packages, if |q.packages| < |p.packages| then |q.packages| else |p.packages|, |p.packages|, Unlocked);
    CountMonotone(p.patches, if |q.patches| < |p.patches| then |q.patches| else |p.patches|, |p.patches|, Unlocked);
  }

  lemma RoundUnlocks(w: World, youMode: bool, n: nat, p: Pool)
    ensures CountIn(youMode, RoundOf(w, youMode, n, p), Unlocked) + (if AllAgreed(w, youMode, n, w.solve(n, p)) then 0 else 1) <=
      CountIn(youMode, p, Unlocked) + FreedIn(youMode, p, w.solve(n, p))
  {
    SolvedUnlocks(youMode, p, w.solve(n, p));
    ConfirmCounts(w, youMode, n, w.solve(n, p));
  }

  /** Whatever the solver does: every refusal locks an item, so there are no more rounds with a
      refusal than there were free items at the start and items freed by the solver since. */
  lemma {:induction false} RefusalsNeedFreeing(w: World, youMode: bool, p: Pool, n: nat)
    ensures Refusals(w, youMode, p, n) + CountIn(youMode, PoolAt(w, youMode, p, n), Unlocked) <=
      CountIn(youMode, p, Unlocked) + FreedSoFar(w, youMode, p, n)
  {
    if n > 0 {
      RefusalsNeedFreeing(w, youMode, p, n - 1);
      RoundUnlocks(w, youMode, n - 1, PoolAt(w, youMode, p, n - 1));
    }
  }

  /** The loop goes into round n: each round before it refused something and none was cancelled. */
  ghost predicate Running(w: World, youMode: bool, p: Pool, n: nat) {
    n == 0 || (Running(w, youMode, p, n - 1) && !AllConfirmed(w, youMode, p, n - 1) && !w.cancels(n - 1))
  }

  lemma {:induction false} RunningBefore(w: World, youMode: bool, p: Pool, k: nat, n: nat)
    requires k <= n && Running(w, youMode, p, n)
    ensures Running(w, youMode, p, k)
    ensures k < n ==> !AllConfirmed(w, youMode, p, k) && !w.cancels(k)
    decreases n
  {
    if k < n {
      RunningBefore(w, youMode, p, k, n - 1);
    }
  }

  lemma {:induction false} RunningRefuses(w: World, youMode: bool, p: Pool, n: nat)
    requires Running(w, youMode, p, n)
    ensures Refusals(w, youMode, p, n) == n
  {
    if n > 0 {
      RunningRefuses(w, youMode, p, n - 1);
    }
  }

  /** The loop gets as far as round n only if the solver has freed enough items for it. */
  lemma RunningNeedsFreeing(w: World, youMode: bool, p: Pool, n: nat)
    requires Running(w, youMode, p, n)
    ensures n <= CountIn(youMode, p, Unlocked) + FreedSoFar(w, youMode, p, n)
  {
    RunningRefuses(w, youMode, p, n);
    RefusalsNeedFreeing(w, youMode, p, n);
  }

  ghost predicate Ends(w: World, youMode: bool, p: Pool) {
    exists n: nat :: !Running(w, youMode, p, n)
  }

  /** As long as the loop runs, the solver frees no more than b items. */
  ghost predicate FreesAtMost(w: World, youMode: bool, p: Pool, b: nat) {
    forall n: nat :: Running(w, youMode, p, n) ==> FreedSoFar(w, youMode, p, n) <= b
  }

  ghost predicate FreeingBounded(w: World, youMode: bool, p: Pool) {
    exists b: nat :: FreesAtMost(w, youMode, p, b)
  }

  lemma {:induction false} FreedSoFarGrows(w: World, youMode: bool, p: Pool, m: nat, n: nat)
    requires m <= n
    ensures FreedSoFar(w, youMode, p, m) <= FreedSoFar(w, youMode, p, n)
    decreases n
  {
    if m < n {
      FreedSoFarGrows(w, youMode, p, m, n - 1);
    }
  }

  /** The loop ends if and only if there is a bound on what the solver frees while it runs: an endless
      loop takes endless freeing. */
  lemma EndsExactly(w: World, youMode: bool, p: Pool)
    ensures Ends(w, youMode, p) <==> FreeingBounded(w, youMode, p)
  {
    if FreeingBounded(w, youMode, p) {
      var b: nat :| FreesAtMost(w, youMode, p, b);
      var n := CountIn(youMode, p, Unlocked) + b + 1;
      if Running(w, youMode, p, n) {
        RunningNeedsFreeing(w, youMode, p, n);
      }
      assert !Running(w, youMode, p, n);
    }
    if Ends(w, youMode, p) {
      var last: nat :| !Running(w, youMode, p, last);
      forall n: nat | Running(w, youMode, p, n)
        ensures FreedSoFar(w, youMode, p, n) <= FreedSoFar(w, youMode, p, last)
      {
        if n > last {
          RunningBefore(w, youMode, p, last, n);
        }
        FreedSoFarGrows(w, youMode, p, n, last);
      }
      assert FreesAtMost(w, youMode, p, FreedSoFar(w, youMode, p, last));
    }
  }

  // ---------------------------------------------------------------- promises of a solver

  /** Nothing that is locked, where licences are looked at, comes out free. */
  ghost predicate KeepsLocks(youMode: bool, p: Pool, q: Pool) {
    && (forall i :: 0 <= i < |q.packages| ==> !Frees(p.packages, q.packages, i))
    && (youMode ==> forall i :: 0 <= i < |q.patches| ==> !Frees(p.patches, q.patches, i))
  }

  ghost predicate SolverKeepsLocks(w: World, youMode: bool) {
    forall n: nat, p: Pool :: KeepsLocks(youMode, p, w.solve(n, p))
  }

  /** A solver that keeps all locks, whatever else it does, lets the loop run no more rounds than
      there are free items, and one. */
  lemma {:induction false} KeptLocksEnd(w: World, youMode: bool, p: Pool, n: nat)
    requires SolverKeepsLocks(w, youMode)
    ensures FreedSoFar(w, youMode, p, n) == 0 && FreeingBounded(w, youMode, p) && Ends(w, youMode, p)
    ensures Running(w, youMode, p, n) ==> n <= CountIn(youMode, p, Unlocked)
  {
    forall k: nat ensures FreedSoFar(w, youMode, p, k) == 0 {
      NothingFreed(w, youMode, p, k);
    }
    assert FreesAtMost(w, youMode, p, 0);
    EndsExactly(w, youMode, p);
    if Running(w, youMode, p, n) {
      RunningNeedsFreeing(w, youMode, p, n);
    }
  }

  lemma {:induction false} NothingFreed(w: World, youMode: bool, p: Pool, n: nat)
    requires SolverKeepsLocks(w, youMode)
    ensures FreedSoFar(w, youMode, p, n) == 0
  {
    if n > 0 {
      NothingFreed(w, youMode, p, n - 1);
      var a, b := PoolAt(w, youMode, p, n - 1), Solved(w, youMode, p, n - 1);
      assert KeepsLocks(youMode, a, b);
      NoneFreed(a.packages, b.packages, |b.packages|);
      if youMode {
        NoneFreed(a.patches, b.patches, |b.patches|);
      }
    }
  }

  /** The solver unlocks nothing, forgets no agreement and invents no licence. */
  ghost predicate Respects(a: seq<Selectable>, b: seq<Selectable>) {
    && |a| == |b|
    && forall i :: 0 <= i < |a| ==>
         && (Locked(a[i].status) ==> Locked(b[i].status))
         && (a[i].confirmed ==> b[i].confirmed)
         && (HasLicense(b[i]) ==> HasLicense(a[i]))
  }

  ghost predicate SolverRespects(w: World) {
    forall n: nat, p: Pool :: Respects(p.packages, w.solve(n, p).packages) && Respects(p.patches, w.solve(n, p).patches)
  }

  lemma RoundOpens(w: World, youMode: bool, n: nat, p: Pool)
    requires SolverRespects(w)
    ensures CountIn(youMode, RoundOf(w, youMode, n, p), Open) + (if AllAgreed(w, youMode, n, w.solve(n, p)) then 0 else 1) <=
      CountIn(youMode, p, Open)
  {
    CountShrinks(p.packages, w.solve(n, p).packages, |p.packages|, Open);
    CountShrinks(p.patches, w.solve(n, p).patches, |p.patches|, Open);
    ConfirmCounts(w, youMode, n, w.solve(n, p));
  }

  /** With a solver that also forgets no agreement and invents no licence, the rounds are bounded by
      the open licences instead. */
  lemma {:induction false} RespectfulEnds(w: World, youMode: bool, p: Pool, n: nat)
    requires SolverRespects(w) && Running(w, youMode, p, n)
    ensures n + CountIn(youMode, PoolAt(w, youMode, p, n), Open) <= CountIn(youMode, p, Open)
  {
    if n > 0 {
      RespectfulEnds(w, youMode, p, n - 1);
      OpenStep(w, youMode, p, n - 1);
    }
  }

  lemma OpenStep(w: World, youMode: bool, p: Pool, n: nat)
    requires SolverRespects(w) && !AllConfirmed(w, youMode, p, n)
    ensures CountIn(youMode, PoolAt(w, youMode, p, n + 1), Open) < CountIn(youMode, PoolAt(w, youMode, p, n), Open)
  {
    RoundOpens(w, youMode, n, PoolAt(w, youMode, p, n));
  }

  // ---------------------------------------------------------------- the dialog

  class PackageSelector {
    var patches: seq<Selectable>
    var packages: seq<Selectable>
    const youMode: bool

    function Contents(): Pool
      reads this
    {
      Pool(patches, packages)
    }

    constructor (pool: Pool, youMode: bool)
      ensures Contents() == pool && this.youMode == youMode
    {
      patches, packages := pool.patches, pool.packages;
      this.youMode := youMode;
    }

    /** All licences of one round; patches only in online-update mode. */
    method ShowPendingLicenses(agreesPatch: nat -> bool, agreesPackage: nat -> bool) returns (allConfirmed: bool)
      modifies this
      ensures Answered(old(packages), packages, agreesPackage)
      ensures if youMode then Answered(old(patches), patches, agreesPatch) else patches == old(patches)
      ensures Cleared(youMode, Contents())
      ensures allConfirmed <==> SamePlan(youMode, old(Contents()), Contents())
      ensures CountIn(youMode, Contents(), Open) + (if allConfirmed then 0 else 1) <= CountIn(youMode, old(Contents()), Open)
    {
      allConfirmed := true;
      if youMode {
        var after, ok := ShowPending(patches, agreesPatch);
        PassSettles(patches, after, agreesPatch);
        PassCloses(patches, after, agreesPatch);
        patches, allConfirmed := after, ok;
      }
      var after, ok := ShowPending(packages, agreesPackage);
      PassSettles(packages, after, agreesPackage);
      PassCloses(packages, after, agreesPackage);
      packages := after;
      allConfirmed := ok && allConfirmed;
    }

    /** The body of the loop, in round n of a run that began with the pool `start`. */
    method SolveAndConfirm(w: World, n: nat, ghost start: Pool) returns (allConfirmed: bool)
      requires Contents() == PoolAt(w, youMode, start, n)
      modifies this
      ensures Contents() == PoolAt(w, youMode, start, n + 1) && Cleared(youMode, Contents())
      ensures allConfirmed == AllConfirmed(w, youMode, start, n)
      ensures allConfirmed <==> SamePlan(youMode, Solved(w, youMode, start, n), Contents())
    {
      var pool := w.solve(n, Contents());
      patches, packages := pool.patches, pool.packages;
      allConfirmed := ShowPendingLicenses((i: nat) => w.agreesPatch(n, i), (i: nat) => w.agreesPackage(n, i));
      assert packages == Confirm(w, youMode, n, pool).packages;
      assert patches == Confirm(w, youMode, n, pool).patches;
      ConfirmSettles(w, youMode, n, pool);
    }

    /** The loop, for every world in which it ends at all.  It stops after the first round that
        confirms everything or is cancelled.  Then nothing is installed under a licence that was not
        agreed to, and if the dialog may be closed, what is installed is what the solver last settled
        on.  The rounds are bounded by the free items and those the solver frees; if it keeps all
        locks, by the free items; and if it also forgets no agreement and invents no licence, by the
        open licences. */
    method OkLoop(w: World) returns (closeDialog: bool, ghost rounds: nat)
      requires FreeingBounded(w, youMode, Contents())
      modifies this
      ensures rounds > 0 && Contents() == PoolAt(w, youMode, old(Contents()), rounds)
      ensures Running(w, youMode, old(Contents()), rounds - 1) && !Running(w, youMode, old(Contents()), rounds)
      ensures closeDialog <==> forall k :: 0 <= k < rounds ==> !w.cancels(k)
      ensures Cleared(youMode, Contents())
      ensures forall i :: 0 <= i < |packages| ==>
        (packages[i].status in {Install, AutoInstall, Update, AutoUpdate} && packages[i].hasCandidate && packages[i].license != "" ==>
           packages[i].confirmed)
      ensures forall i :: youMode && 0 <= i < |patches| ==>
        (patches[i].status in {Install, AutoInstall, Update, AutoUpdate} && patches[i].hasCandidate && patches[i].license != "" ==>
           patches[i].confirmed)
      ensures closeDialog ==> SamePlan(youMode, Solved(w, youMode, old(Contents()), rounds - 1), Contents())
      ensures Bounded(w, youMode, old(Contents()), rounds - 1)
    {
      ghost var start := Contents();
      ghost var last := RoundAfterEnd(w, youMode, start);
      ghost var confirmed: bool;
      closeDialog, confirmed, rounds := SolveUntilConfirmed(w, start, last);
      LoopDone(w, youMode, start, rounds - 1, confirmed, closeDialog);
      NonePendingMeans(packages);
      NonePendingMeans(patches);
    }

    /** The do-while loop, given a round it does not get to. */
    method SolveUntilConfirmed(w: World, ghost start: Pool, ghost last: nat)
      returns (closeDialog: bool, confirmedAllLicenses: bool, ghost rounds: nat)
      requires Contents() == start && !Running(w, youMode, start, last)
      modifies this
      ensures rounds > 0 && Contents() == PoolAt(w, youMode, start, rounds)
      ensures LoopState(w, youMode, start, rounds, confirmedAllLicenses, closeDialog)
      ensures confirmedAllLicenses || !closeDialog
    {
      closeDialog, confirmedAllLicenses := true, false;
      var n: nat := 0;
      while !confirmedAllLicenses && closeDialog
        invariant Contents() == PoolAt(w, youMode, start, n)
        invariant LoopState(w, youMode, start, n, confirmedAllLicenses, closeDialog)
        decreases !confirmedAllLicenses && closeDialog, last - n
      {
        LoopStep(w, youMode, start, n, last);
        if w.cancels(n) {
          closeDialog := false;
        }
        confirmedAllLicenses := SolveAndConfirm(w, n, start);
        n := n + 1;
      }
      rounds := n;
    }
  }

  lemma RoundAfterEnd(w: World, youMode: bool, p: Pool) returns (last: nat)
    requires FreeingBounded(w, youMode, p)
    ensures !Running(w, youMode, p, last)
  {
    EndsExactly(w, youMode, p);
    last :| !Running(w, youMode, p, last);
  }

  /** Where the loop stands before round n, by its two variables. */
  ghost predicate LoopState(w: World, youMode: bool, p: Pool, n: nat, confirmed: bool, close: bool) {
    && (if n == 0 then !confirmed && close else
          && Running(w, youMode, p, n - 1)
          && confirmed == AllConfirmed(w, youMode, p, n - 1) && close == !w.cancels(n - 1))
  }

  lemma LoopStep(w: World, youMode: bool, p: Pool, n: nat, last: nat)
    requires LoopState(w, youMode, p, n, false, true) && !Running(w, youMode, p, last)
    ensures Running(w, youMode, p, n) && n < last
    ensures LoopState(w, youMode, p, n + 1, AllConfirmed(w, youMode, p, n), !w.cancels(n))
  {
    if n >= last {
      RunningBefore(w, youMode, p, last, n);
    }
  }

  /** What bounds the number of rounds before the last. */
  ghost predicate Bounded(w: World, youMode: bool, p: Pool, n: nat) {
    && n <= CountIn(youMode, p, Unlocked) + FreedSoFar(w, youMode, p, n)
    && (SolverKeepsLocks(w, youMode) ==> n <= CountIn(youMode, p, Unlocked))
    && (SolverRespects(w) ==> n <= CountIn(youMode, p, Open))
  }

  lemma RunningBounded(w: World, youMode: bool, p: Pool, n: nat)
    requires Running(w, youMode, p, n)
    ensures Bounded(w, youMode, p, n)
  {
    RunningNeedsFreeing(w, youMode, p, n);
    if SolverKeepsLocks(w, youMode) {
      KeptLocksEnd(w, youMode, p, n);
    }
    if SolverRespects(w) {
      RespectfulEnds(w, youMode, p, n);
    }
  }

  /** What holds when the loop stops after round n. */
  lemma LoopDone(w: World, youMode: bool, p: Pool, n: nat, confirmed: bool, close: bool)
    requires LoopState(w, youMode, p, n + 1, confirmed, close) && (confirmed || !close)
    ensures Running(w, youMode, p, n) && !Running(w, youMode, p, n + 1) && Bounded(w, youMode, p, n)
    ensures close <==> forall k :: 0 <= k < n + 1 ==> !w.cancels(k)
    ensures Cleared(youMode, PoolAt(w, youMode, p, n + 1))
    ensures close ==> SamePlan(youMode, Solved(w, youMode, p, n), PoolAt(w, youMode, p, n + 1))
  {
    RunningBounded(w, youMode, p, n);
    EveryRoundIsSafe(w, youMode, p, n);
    forall k | 0 <= k < n ensures !w.cancels(k) {
      RunningBefore(w, youMode, p, k, n);
    }
  }

  // ---------------------------------------------------------------- without the promise

  const REFUSED_PACKAGE := Pool([], [Selectable(Install, true, "EULA", false)])

  /** A solver that marks a refused package again, and a user who refuses it again. */
  function StubbornWorld(): World {
    World((k: nat, q: Pool) => REFUSED_PACKAGE, (k: nat) => false, (k: nat, i: nat) => false, (k: nat, i: nat) => false)
  }

  lemma {:induction false} StubbornRuns(youMode: bool, n: nat)
    ensures Running(StubbornWorld(), youMode, REFUSED_PACKAGE, n)
  {
    if n > 0 {
      StubbornRuns(youMode, n - 1);
      assert Pending(Solved(StubbornWorld(), youMode, REFUSED_PACKAGE, n - 1).packages[0]);
    }
  }

  /** Such a solver frees without bound, and the loop never ends: no round confirms everything and
      none is cancelled. */
  lemma UnlockingSolverNeverEnds(youMode: bool, n: nat)
    ensures !SolverRespects(StubbornWorld()) && !SolverKeepsLocks(StubbornWorld(), youMode)
    ensures !AllConfirmed(StubbornWorld(), youMode, REFUSED_PACKAGE, n) && !StubbornWorld().cancels(n)
    ensures !Ends(StubbornWorld(), youMode, REFUSED_PACKAGE) && !FreeingBounded(StubbornWorld(), youMode, REFUSED_PACKAGE)
  {
    var w := StubbornWorld();
    assert Pending(Solved(w, youMode, REFUSED_PACKAGE, n).packages[0]);
    forall k: nat ensures Running(w, youMode, REFUSED_PACKAGE, k) {
      StubbornRuns(youMode, k);
    }
    EndsExactly(w, youMode, REFUSED_PACKAGE);
    var locked := Pool([], [Selectable(Taboo, true, "EULA", false)]);
    assert Locked(locked.packages[0].status) && !Locked(w.solve(0, locked).packages[0].status);
    assert !Respects(locked.packages, w.solve(0, locked).packages);
    assert Frees(locked.packages, w.solve(0, locked).packages, 0);
    assert !KeepsLocks(youMode, locked, w.solve(0, locked));
  }
}
