/** NCDialog: which widget of a dialog has the focus.  Widgets are numbered in the pre-order of
    the widget tree; by the contracts of WidgetTree.Next and WidgetTree.Prev the tree walk is then
    the ring 0, 1, .., n-1, 0.  Widget 0 is the dialog itself. */
module DialogFocus {
  import opened Options
  import opened Ring

  datatype WState = Normal | Active | Disabled | Dumb
  datatype Dir = Fwd | Bwd

  /** wActive is the widget that has, or would get, the focus. */
  datatype Focus = Focus(states: seq<WState>, wins: seq<bool>, active: bool, wActive: nat) {
    ghost predicate Valid() {
      |states| == |wins| && wActive < |states| && states[0] == Dumb
    }

    /** Any active widget is wActive, and an inactive dialog has none. */
    ghost predicate SingleActive() {
      forall i :: 0 <= i < |states| && states[i] == Active ==> i == wActive && active
    }
  }

  predicate CanFocus(states: seq<WState>, wins: seq<bool>, i: nat)
    requires i < |states| == |wins|
  {
    states[i] == Normal && wins[i]
  }

  /** Where a search from start may end: a normal widget with a window, or start itself. */
  function Stops(states: seq<WState>, wins: seq<bool>, start: nat): (ok: seq<bool>)
    requires start < |states| == |wins|
    ensures |ok| == |states|
  {
    seq(|states|, i requires 0 <= i < |states| => i == start || CanFocus(states, wins, i))
  }

  function Seek(states: seq<WState>, wins: seq<bool>, start: nat, dir: Dir): (k: nat)
    requires start < |states| == |wins|
    ensures k < |states| && (k == start || CanFocus(states, wins, k))
  {
    var ok := Stops(states, wins, start);
    NextPrevInverse(ok, start);
    if dir == Fwd then NextOk(ok, start) else PrevOk(ok, start)
  }

  function StepsFrom(n: nat, start: nat, dir: Dir, d: nat): (r: nat)
    requires start < n && d <= n
    ensures r < n
  {
    if dir == Fwd then Forward(n, start, d) else Backward(n, start, d)
  }

  /** No stop among the first d - 1 steps. */
  ghost predicate NoStopBefore(ok: seq<bool>, start: nat, dir: Dir, d: nat)
    requires start < |ok| && d <= |ok|
  {
    forall e :: 1 <= e < d ==> !ok[StepsFrom(|ok|, start, dir, e)]
  }

  lemma SeekEnds(states: seq<WState>, wins: seq<bool>, start: nat, dir: Dir, d: nat)
    requires start < |states| == |wins| && 1 <= d <= |states|
    requires var ok := Stops(states, wins, start);
      NoStopBefore(ok, start, dir, d) && ok[StepsFrom(|ok|, start, dir, d)]
    ensures Seek(states, wins, start, dir) == StepsFrom(|states|, start, dir, d)
  {
    var ok := Stops(states, wins, start);
    var c := StepsFrom(|ok|, start, dir, d);
    if dir == Fwd {
      forall e | 1 <= e < d ensures !ok[Forward(|ok|, start, e)] { assert !ok[StepsFrom(|ok|, start, dir, e)]; }
      NextOkIsFirstAfter(ok, start, c);
    } else {
      forall e | 1 <= e < d ensures !ok[Backward(|ok|, start, e)] { assert !ok[StepsFrom(|ok|, start, dir, e)]; }
      PrevOkIsFirstBefore(ok, start, c);
    }
  }

  // ---------------------------------------------------------------- the focus operations

  function ActivateWidget(f: Focus, i: nat): (r: Focus)
    requires f.Valid() && i < |f.states|
    ensures r.Valid()
  {
    if f.states[i] != Normal then f
    else
      var s1 := if f.states[f.wActive] == Active then f.states[f.wActive := Normal] else f.states;
      var s2 := if f.active then s1[i := Active] else s1;
      f.(states := s2, wActive := i)
  }

  function ActivateDir(f: Focus, dir: Dir): (r: Focus)
    requires f.Valid()
    ensures r.Valid()
  {
    ActivateWidget(f, Seek(f.states, f.wins, f.wActive, dir))
  }

  function Reactivate(f: Focus): (r: Focus)
    requires f.Valid()
    ensures r.Valid()
  {
    if f.states[f.wActive] in {Active, Normal} then ActivateWidget(f, f.wActive) else ActivateDir(f, Fwd)
  }

  function DeactivateDialog(f: Focus): (r: Focus)
    requires f.Valid()
    ensures r.Valid()
  {
    if f.states[f.wActive] == Active then f.(states := f.states[f.wActive := Normal]) else f
  }

  function SetActive(f: Focus, on: bool, hidden: bool): (r: Focus)
    requires f.Valid()
    ensures r.Valid()
  {
    if f.active == on && !hidden then f
    else if on then Reactivate(f.(active := true))
    else DeactivateDialog(f.(active := false))
  }

  /** An active widget that is disabled first gives the focus away; if nobody can take it, to
      the dialog. */
  function SetEnabled(f: Focus, i: nat, on: bool): (r: Focus)
    requires f.Valid() && i < |f.states|
    ensures r.Valid()
  {
    if f.states[i] == Dumb then f
    else if on then (if f.states[i] == Disabled then f.(states := f.states[i := Normal]) else f)
    else
      var g := if f.states[i] == Active && f.wActive == i then
                 var h := ActivateDir(f, Fwd); if h.wActive == i then h.(wActive := 0) else h
               else f;
      g.(states := g.states[i := Disabled])
  }

  /** What can happen to the focus of a dialog. */
  datatype Op =
    | OpNext | OpPrev | OpWidget(i: nat) | OpSetActive(on: bool, hidden: bool)
    | OpSetEnabled(i: nat, on: bool) | OpWindow(i: nat, on: bool)

  function Do(f: Focus, op: Op): (r: Focus)
    requires f.Valid()
    ensures r.Valid()
  {
    match op
    case OpNext => ActivateDir(f, Fwd)
    case OpPrev => ActivateDir(f, Bwd)
    case OpWidget(i) => if i < |f.states| then ActivateWidget(f, i) else f
    case OpSetActive(on, hidden) => SetActive(f, on, hidden)
    case OpSetEnabled(i, on) => if i < |f.states| then SetEnabled(f, i, on) else f
    case OpWindow(i, on) => if i < |f.wins| then f.(wins := f.wins[i := on]) else f
  }

  function Run(f: Focus, ops: seq<Op>): (r: Focus)
    requires f.Valid()
    ensures r.Valid()
  {
    if ops == [] then f else Do(Run(f, ops[..|ops| - 1]), ops[|ops| - 1])
  }

  lemma DoKeepsSingleActive(f: Focus, op: Op)
    requires f.Valid() && f.SingleActive()
    ensures Do(f, op).SingleActive()
  {
  }

  /** Every run of focus operations keeps the focus single. */
  lemma {:induction false} RunKeepsSingleActive(f: Focus, ops: seq<Op>)
    requires f.Valid() && f.SingleActive()
    ensures Run(f, ops).SingleActive()
  {
    if ops != [] {
      RunKeepsSingleActive(f, ops[..|ops| - 1]);
      DoKeepsSingleActive(Run(f, ops[..|ops| - 1]), ops[|ops| - 1]);
    }
  }

  /** activate(bool) of a dialog without a panel only sets the flag.  That keeps the focus
      single unless it switches off a dialog one of whose widgets is active. */
  lemma FlagAloneKeepsSingleActive(f: Focus, on: bool)
    requires f.Valid() && f.SingleActive()
    ensures f.(active := on).SingleActive() <==> on || f.states[f.wActive] != Active
  {
    assert f.states[f.wActive] == Active && !on ==> !f.(active := on).SingleActive();
  }

  // ---------------------------------------------------------------- who gets the focus

  /** A search that ends where it began has found nobody else. */
  lemma SeekFindsAny(states: seq<WState>, wins: seq<bool>, start: nat, dir: Dir, i: nat)
    requires start < |states| == |wins| && i < |states| && i != start && states[i] == Normal && wins[i]
    ensures Seek(states, wins, start, dir) != start
  {
    var ok := Stops(states, wins, start);
    var n := |ok|;
    if dir == Fwd {
      NextOkIsFirstAfter(ok, start, start);
      assert Forward(n, start, if start < i then i - start else i - start + n) == i;
    } else {
      PrevOkIsFirstBefore(ok, start, start);
      assert Backward(n, start, if i < start then start - i else start - i + n) == i;
    }
  }

  /** Somebody can take the focus: the widget that had it, or any normal widget with a window. */
  ghost predicate SomeoneCan(f: Focus)
    requires f.Valid()
  {
    f.states[f.wActive] in {Active, Normal} || exists i :: 0 <= i < |f.states| && f.states[i] == Normal && f.wins[i]
  }

  /** Switching a dialog on gives the focus to a widget exactly if somebody can take it: to the one that
      had it, if that can. */
  lemma SwitchOnFocuses(f: Focus, hidden: bool)
    requires f.Valid() && f.SingleActive() && (!f.active || hidden)
    ensures var r := SetActive(f, true, hidden);
      && r.active && (r.states[r.wActive] == Active <==> SomeoneCan(f))
      && (f.states[f.wActive] in {Active, Normal} ==> r.wActive == f.wActive)
  {
    var g := f.(active := true);
    if !(g.states[g.wActive] in {Active, Normal}) {
      if i :| 0 <= i < |f.states| && f.states[i] == Normal && f.wins[i] {
        SeekFindsAny(g.states, g.wins, g.wActive, Fwd, i);
      }
    }
  }

  /** Switching it off leaves no widget active, and remembers the one that was. */
  lemma SwitchOffUnfocuses(f: Focus)
    requires f.Valid() && f.SingleActive()
    ensures var r := SetActive(f, false, true);
      && !r.active && r.wActive == f.wActive && |r.states| == |f.states|
      && forall i :: 0 <= i < |f.states| ==> r.states[i] == if f.states[i] == Active then Normal else f.states[i]
  {
  }

  /** Disabling a widget disables exactly it; if it was active, the focus goes to another normal widget
      with a window, exactly if there is one.  Enabling makes a disabled widget normal.  Dumb widgets
      stay dumb. */
  lemma EnablingMeans(f: Focus, i: nat)
    requires f.Valid() && f.SingleActive() && i < |f.states|
    ensures f.states[i] == Dumb ==> SetEnabled(f, i, true) == SetEnabled(f, i, false) == f
    ensures SetEnabled(f, i, true) == if f.states[i] == Disabled then f.(states := f.states[i := Normal]) else f
    ensures f.states[i] != Dumb ==> SetEnabled(f, i, false).states[i] == Disabled
    ensures f.states[i] in {Normal, Disabled} ==> SetEnabled(f, i, false) == f.(states := f.states[i := Disabled])
    ensures f.states[i] == Active ==>
      var r := SetEnabled(f, i, false);
      r.states[r.wActive] == Active <==> exists j :: 0 <= j < |f.states| && j != i && f.states[j] == Normal && f.wins[j]
  {
    if f.states[i] == Active {
      if j :| 0 <= j < |f.states| && j != i && f.states[j] == Normal && f.wins[j] {
        SeekFindsAny(f.states, f.wins, f.wActive, Fwd, j);
      }
    }
  }

  // ---------------------------------------------------------------- tabbing

  /** The focus sits on an active widget that is on screen. */
  ghost predicate Settled(f: Focus) {
    f.Valid() && f.SingleActive() && f.states[f.wActive] == Active && f.wins[f.wActive]
  }

  ghost function StopsOf(f: Focus): seq<bool>
    requires f.Valid()
  {
    Stops(f.states, f.wins, f.wActive)
  }

  lemma TabKeepsStops(f: Focus, dir: Dir)
    requires Settled(f)
    ensures Settled(ActivateDir(f, dir)) && StopsOf(ActivateDir(f, dir)) == StopsOf(f)
    ensures ActivateDir(f, dir).wActive == Seek(f.states, f.wins, f.wActive, dir)
  {
  }

  /** Moving the focus back to where it came from restores every state. */
  lemma FocusBack(f: Focus, i: nat)
    requires Settled(f) && i < |f.states| && (i == f.wActive || f.states[i] == Normal)
    ensures ActivateWidget(ActivateWidget(f, i), f.wActive) == f
  {
    if i != f.wActive {
      assert f.states[f.wActive := Normal][i := Active][i := Normal][f.wActive := Active] == f.states;
    }
  }

  /** Going forward and back, or back and forward, restores the focus and every state. */
  lemma TabThereAndBack(f: Focus, dir: Dir)
    requires Settled(f)
    ensures ActivateDir(ActivateDir(f, dir), Opposite(dir)) == f
  {
    NextPrevInverse(StopsOf(f), f.wActive);
    var g := ActivateDir(f, dir);
    TabKeepsStops(f, dir);
    TabKeepsStops(g, Opposite(dir));
    assert Seek(g.states, g.wins, g.wActive, Opposite(dir)) == f.wActive;
    FocusBack(f, g.wActive);
  }

  function Opposite(dir: Dir): Dir { if dir == Fwd then Bwd else Fwd }

  function Tab(f: Focus, k: nat): (r: Focus)
    requires f.Valid()
    ensures r.Valid()
    decreases k
  {
    if k == 0 then f else Tab(ActivateDir(f, Fwd), k - 1)
  }

  lemma {:induction false} TabIsNextTimes(f: Focus, k: nat)
    requires Settled(f)
    ensures Tab(f, k).wActive == NextTimes(StopsOf(f), f.wActive, k)
    decreases k
  {
    if k > 0 {
      TabKeepsStops(f, Fwd);
      NextOkRank(StopsOf(f), f.wActive);
      TabIsNextTimes(ActivateDir(f, Fwd), k - 1);
    }
  }

  /** Tabbing meets every widget that can have the focus and is back at the first after exactly
      as many steps as there are such widgets. */
  lemma TabVisitsAll(f: Focus)
    requires Settled(f)
    ensures var m := Rank(StopsOf(f), |f.states|);
      && Tab(f, m).wActive == f.wActive
      && (forall k :: 0 < k < m ==> Tab(f, k).wActive != f.wActive)
      && (forall j :: 0 <= j < |f.states| && StopsOf(f)[j] ==> TabReaches(f, m, j))
  {
    var ok, i := StopsOf(f), f.wActive;
    var m := Rank(ok, |ok|);
    NextVisitsAll(ok, i);
    TabIsNextTimes(f, m);
    forall k | 0 < k < m ensures Tab(f, k).wActive != i {
      TabIsNextTimes(f, k);
    }
    forall j | 0 <= j < |f.states| && ok[j] ensures TabReaches(f, m, j) {
      assert Reaches(ok, i, j);
      var k :| 0 <= k < m && NextTimes(ok, i, k) == j;
      TabIsNextTimes(f, k);
    }
  }

  ghost predicate TabReaches(f: Focus, m: nat, j: nat)
    requires f.Valid()
  {
    exists k :: 0 <= k < m && Tab(f, k).wActive == j
  }

  // ---------------------------------------------------------------- focus by hotkey

  predicate TakesKeys(s: WState) { s == Normal || s == Active }

  /** A dumb widget with the hotkey, such as a label, whose claim still stands at c: no widget
      in between takes keys or makes a claim of its own. */
  ghost predicate Claims(states: seq<WState>, hot: seq<bool>, b: nat, c: nat)
    requires |states| == |hot| && b < c <= |states|
  {
    && 1 <= b && states[b] == Dumb && hot[b]
    && forall d :: b < d < c ==> !TakesKeys(states[d]) && !(states[d] == Dumb && hot[d])
  }

  /** A widget the key goes to: its own hotkey, or that of a claiming label it lies below. */
  ghost predicate KeyHit(states: seq<WState>, hot: seq<bool>, below: (nat, nat) -> bool, c: nat)
    requires |states| == |hot| && c < |states|
  {
    TakesKeys(states[c]) && (hot[c] || exists b :: 0 <= b < c && Claims(states, hot, b, c) && below(c, b))
  }

  /** Said without the helpers: a normal or active widget takes the key if it is its own, or if it lies
      below a dumb widget with the key, with no normal or active widget and no other such dumb widget
      between the two. */
  lemma KeyHitMeans(states: seq<WState>, hot: seq<bool>, below: (nat, nat) -> bool, c: nat)
    requires |states| == |hot| && c < |states|
    ensures KeyHit(states, hot, below, c) <==>
      && (states[c] == Normal || states[c] == Active)
      && (hot[c] || exists b :: (
            && 1 <= b < c && states[b] == Dumb && hot[b] && below(c, b)
            && forall d :: b < d < c ==> states[d] == Disabled || (states[d] == Dumb && !hot[d])))
  {
    forall b | 1 <= b < c
      ensures Claims(states, hot, b, c) <==>
        states[b] == Dumb && hot[b] && forall d :: b < d < c ==> states[d] == Disabled || (states[d] == Dumb && !hot[d])
    {
    }
  }

  ghost predicate FirstHit(states: seq<WState>, hot: seq<bool>, below: (nat, nat) -> bool, c: nat)
    requires |states| == |hot|
  {
    && 1 <= c < |states| && KeyHit(states, hot, below, c)
    && forall e :: 1 <= e < c ==> !KeyHit(states, hot, below, e)
  }

  // ---------------------------------------------------------------- the dialog

  class Dialog {
    var states: seq<WState>
    var wins: seq<bool>
    var active: bool
    var wActive: nat

    ghost function State(): Focus
      reads this
    {
      Focus(states, wins, active, wActive)
    }

    constructor (states: seq<WState>, wins: seq<bool>)
      requires |states| == |wins| > 0 && states[0] == Dumb
      requires forall i :: 0 <= i < |states| ==> states[i] != Active
      ensures State() == Focus(states, wins, false, 0) && State().Valid() && State().SingleActive()
    {
      this.states, this.wins := states, wins;
      active, wActive := false, 0;
    }

    function Step(c: nat, dir: Dir): (r: nat)
      requires c < |states|
      reads this
      ensures r < |states|
    {
      if dir == Fwd then Forward(|states|, c, 1) else Backward(|states|, c, 1)
    }

    /** The search for a widget that can take the focus.  It always ends; and when no widget but
        start is active, it repairs nothing and ends on the first stop of the ring. */
    method GetNormal(start: nat, dir: Dir) returns (c: nat)
      requires State().Valid() && start < |states|
      modifies this
      ensures State().Valid() && wins == old(wins) && active == old(active) && wActive == old(wActive)
      ensures c < |states|
      ensures old(forall i :: 0 <= i < |states| && states[i] == Active ==> i == start) ==>
                states == old(states) && c == Seek(states, wins, start, dir)
    {
      var n := |states|;
      ghost var ok := Stops(states, wins, start);
      ghost var d := 1;
      c := Step(start, dir);
      while c != start && (states[c] != Normal || !wins[c])
        invariant 1 <= d <= n && c == StepsFrom(n, start, dir, d)
        invariant states == old(states) && wins == old(wins) && active == old(active) && wActive == old(wActive)
        invariant NoStopBefore(ok, start, dir, d)
        decreases n - d
      {
        if states[c] == Active {
          states := states[c := Normal];
          return;
        }
        c := Step(c, dir);
        d := d + 1;
      }
      SeekEnds(states, wins, start, dir, d);
    }

    method Activate(i: nat) returns (done: bool)
      requires State().Valid() && i < |states|
      modifies this
      ensures State() == ActivateWidget(old(State()), i)
      ensures done == TakesKeys(old(states)[i])
    {
      if states[i] == Active {
        return true;
      }
      if states[i] == Normal {
        if states[wActive] == Active {
          states := states[wActive := Normal];
        }
        if active {
          states := states[i := Active];
        }
        wActive := i;
        return true;
      }
      return false;
    }

    /** Activate with a direction, or None to stay where the focus is if possible. */
    method ActivateTo(direction: Option<Dir>)
      requires State().Valid() && State().SingleActive()
      modifies this
      ensures State() == if direction == None then Reactivate(old(State()))
                         else ActivateDir(old(State()), direction.value)
    {
      var dir := Fwd;
      if direction == None {
        var done := Activate(wActive);
        if done {
          return;
        }
      } else {
        dir := direction.value;
      }
      var c := GetNormal(wActive, dir);
      var _ := Activate(c);
    }

    method Deactivate()
      requires State().Valid()
      modifies this
      ensures State() == DeactivateDialog(old(State()))
    {
      if states[wActive] == Active {
        states := states[wActive := Normal];
      }
    }

    /** activate(bool) of a dialog that has its panel. */
    method ActivateDialog(newactive: bool, hidden: bool)
      requires State().Valid() && State().SingleActive()
      modifies this
      ensures State() == SetActive(old(State()), newactive, hidden)
    {
      if active != newactive || hidden {
        active := newactive;
        if active {
          ActivateTo(None);
        } else {
          Deactivate();
        }
      }
    }

    /** grabNotify: the widget that has the focus is about to lose it. */
    method GrabNotify(i: nat)
      requires State().Valid() && State().SingleActive()
      modifies this
      ensures State() == if old(wActive) != i then old(State())
                         else var h := ActivateDir(old(State()), Fwd);
                              if h.wActive == i then h.(wActive := 0) else h
    {
      if wActive == i {
        ActivateTo(Some(Fwd));
        if wActive == i {
          wActive := 0;
        }
      }
    }

    /** setEnabled of a widget without children. */
    method EnableWidget(i: nat, on: bool)
      requires State().Valid() && State().SingleActive() && i < |states|
      modifies this
      ensures State() == SetEnabled(old(State()), i, on)
    {
      if states[i] == Dumb {
        return;
      }
      if on && states[i] == Disabled {
        states := states[i := Normal];
      } else if !on && states[i] != Disabled {
        if states[i] == Active {
          GrabNotify(i);
        }
        states := states[i := Disabled];
      }
    }

    /** The key goes to the first hit in pre-order, or nowhere. */
    method ActivateByKey(hot: seq<bool>, below: (nat, nat) -> bool) returns (done: bool)
      requires State().Valid() && |hot| == |states|
      modifies this
      ensures done <==> exists c :: 1 <= c < |hot| && KeyHit(old(states), hot, below, c)
      ensures !done ==> State() == old(State())
      ensures done ==> exists c :: FirstHit(old(states), hot, below, c) && State() == ActivateWidget(old(State()), c)
    {
      var buddy: Option<nat> := None;
      var c := 1;
      while c < |states|
        invariant 1 <= c <= |states| && State() == old(State())
        invariant buddy.Some? ==> buddy.value < c && Claims(states, hot, buddy.value, c)
        invariant forall b :: 0 <= b < c && Claims(states, hot, b, c) ==> buddy == Some(b)
        invariant forall e :: 1 <= e < c ==> !KeyHit(states, hot, below, e)
      {
        if states[c] == Normal || states[c] == Active {
          if hot[c] {
            assert FirstHit(states, hot, below, c);
            var _ := Activate(c);
            return true;
          }
          if buddy.Some? {
            if below(c, buddy.value) {
              assert FirstHit(states, hot, below, c);
              var _ := Activate(c);
              return true;
            }
            buddy := None;
          }
        } else if states[c] == Dumb && hot[c] {
          buddy := Some(c);
        }
        c := c + 1;
      }
      return false;
    }
  }
}
