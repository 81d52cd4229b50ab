/** state/redeem_window.rs: the two-bucket sliding counter that limits redemptions, and the bound it
    puts on what can leave the treasury over any run. */
module RedeemWindow {
  import opened Wrappers
  import opened Ints

  datatype Window = Window(start: int, current: nat, prev: nat)

  /** `effectiveUsed` counts against the budget now; `rolled` is what the buckets must become before
      this request is added. */
  datatype WindowDecision = WindowDecision(effectiveUsed: nat, rolled: Window)

  /** `prev` weighted by the share of it still inside the trailing window. */
  function Weighted(prev: nat, left: nat, w: nat): nat
    requires w > 0
  {
    prev * left / w
  }

  function Clamp(x: int, lo: int, hi: int): int { if x < lo then lo else if x > hi then hi else x }

  /** The program's rule, at its widths: saturating i64 differences and a saturating u64 sum. */
  function RollWindow(now: i64, windowStart: i64, windowSeconds: u32, usedCurrent: u64, usedPrev: u64): WindowDecision {
    var w := windowSeconds;
    if w <= 0 then WindowDecision(0, Window(now, 0, 0)) else
      var elapsed := Max(SatI64(now - windowStart), 0);
      var rolled :=
        if windowStart == 0 then Window(now, usedCurrent, usedPrev)
        else if elapsed >= 2 * w then Window(now, 0, 0)
        else if elapsed >= w then Window(windowStart + w, 0, usedCurrent)
        else Window(windowStart, usedCurrent, usedPrev);
      var into := Clamp(SatI64(now - rolled.start), 0, w);
      WindowDecision(SatU64(rolled.current + Weighted(rolled.prev, w - into, w)), rolled)
  }

  /** The same rule over unbounded integers: scripts/_redeem-window.ts. */
  function Roll(w: int, now: int, win: Window): WindowDecision {
    if w <= 0 then WindowDecision(0, Window(now, 0, 0)) else
      var elapsed := if now - win.start > 0 then now - win.start else 0;
      var rolled :=
        if win.start == 0 then win.(start := now)
        else if elapsed >= 2 * w then Window(now, 0, 0)
        else if elapsed >= w then Window(win.start + w, 0, win.current)
        else win;
      var into := Clamp(now - rolled.start, 0, w);
      WindowDecision(rolled.current + Weighted(rolled.prev, w - into, w), rolled)
  }

  function EffectiveUsed(w: int, now: int, win: Window): nat { Roll(w, now, win).effectiveUsed }

  function Rolled(w: int, now: int, win: Window): Window { Roll(w, now, win).rolled }

  /** What the redeem step stores after letting `amount` out at `now`. */
  function Commit(w: int, now: int, win: Window, amount: nat): Window {
    var rolled := Rolled(w, now, win);
    rolled.(current := rolled.current + amount)
  }

  /** The port and the program agree on every input, except that the program's sum saturates. No i64
      difference ever saturates to a different verdict, and no stored value leaves its type. */
  lemma ProgramMatchesPort(now: i64, windowStart: i64, windowSeconds: u32, usedCurrent: u64, usedPrev: u64)
    ensures var port := Roll(windowSeconds, now, Window(windowStart, usedCurrent, usedPrev));
            RollWindow(now, windowStart, windowSeconds, usedCurrent, usedPrev) ==
            port.(effectiveUsed := Min(port.effectiveUsed, U64_MAX))
            && I64_MIN <= port.rolled.start <= I64_MAX
            && port.rolled.current <= U64_MAX && port.rolled.prev <= U64_MAX
  {
  }

  lemma WeightedBounds(prev: nat, left: nat, w: nat)
    requires w > 0 && left <= w
    ensures Weighted(prev, left, w) <= prev
    ensures left == w ==> Weighted(prev, left, w) == prev
    ensures left == 0 ==> Weighted(prev, left, w) == 0
  {
    MulMono(prev, left, prev, w);
    DivMono(prev * left, prev * w, w);
    DivAtMost(prev * w, w, prev);
    DivAtLeast(prev * w, w, prev);
  }

  lemma WeightedMono(prev: nat, left: nat, more: nat, w: nat)
    requires w > 0 && left <= more
    ensures Weighted(prev, left, w) <= Weighted(prev, more, w)
  {
    MulMono(prev, left, prev, more);
    DivMono(prev * left, prev * more, w);
  }

  lemma WeightedMonoPrev(less: nat, prev: nat, left: nat, w: nat)
    requires w > 0 && less <= prev
    ensures Weighted(less, left, w) <= Weighted(prev, left, w)
  {
    MulMono(less, left, prev, left);
    DivMono(less * left, prev * left, w);
  }

  // ---- The counter over time ----

  /** With no redemption in between, usage only decays: inside a bucket, across either boundary, and
      while the clock is still behind the stored start. */
  lemma UsageOnlyDecays(w: int, win: Window, t1: int, t2: int)
    requires t1 <= t2
    ensures EffectiveUsed(w, t2, win) <= EffectiveUsed(w, t1, win)
  {
    if w > 0 {
      var r1, r2 := Rolled(w, t1, win), Rolled(w, t2, win);
      var into1, into2 := Clamp(t1 - r1.start, 0, w), Clamp(t2 - r2.start, 0, w);
      WeightedBounds(r2.prev, w - into2, w);
      WeightedBounds(win.current, w - into2, w);
      if r1.prev == r2.prev && into1 <= into2 {
        WeightedMono(r1.prev, w - into2, w - into1, w);
      }
    }
  }

  /** The states a positive clock can reach: the zero start means that nothing was ever spent. */
  predicate Anchored(win: Window) {
    win.start > 0 || (win.start == 0 && win.current == 0 && win.prev == 0)
  }

  /** Rolling at t1 and again later is the same as rolling once, whenever the second roll happens,
      exactly in the anchored states: usage stored under the zero start would be counted afresh. */
  lemma RollingComposesIffAnchored(w: int, win: Window, t1: int)
    requires w > 0 && t1 > 0 && win.start >= 0
    ensures (forall t2 :: t1 <= t2 ==> EffectiveUsed(w, t2, Rolled(w, t1, win)) == EffectiveUsed(w, t2, win))
            <==> Anchored(win)
  {
    if Anchored(win) {
      forall t2 | t1 <= t2
        ensures EffectiveUsed(w, t2, Rolled(w, t1, win)) == EffectiveUsed(w, t2, win)
      {
        RollTwice(w, win, t1, t2);
      }
    } else {
      var t2 := t1 + 2 * w;
      assert EffectiveUsed(w, t2, Rolled(w, t1, win)) == 0;
      WeightedBounds(win.prev, w, w);
      assert EffectiveUsed(w, t2, win) == win.current + win.prev > 0;
    }
  }

  lemma RollTwice(w: int, win: Window, t1: int, t2: int)
    requires w > 0 && 0 < t1 <= t2 && Anchored(win)
    ensures EffectiveUsed(w, t2, Rolled(w, t1, win)) == EffectiveUsed(w, t2, win)
  {
    var rolled := Rolled(w, t1, win);
    var again := Rolled(w, t2, rolled);
    WeightedBounds(again.prev, w - Clamp(t2 - again.start, 0, w), w);
    assert forall left | 0 <= left <= w :: Weighted(0, left, w) == 0;
  }

  /** A commit raises the usage at its own instant by exactly the outflow, so the decayed share of the
      old bucket is never made permanent, and two idle windows later the whole budget is back. */
  lemma CommitAddsExactlyAndExpires(w: int, win: Window, now: int, amount: nat, later: int)
    requires w > 0 && now > 0 && Anchored(win)
    ensures var after := Commit(w, now, win, amount);
            && Anchored(after)
            && EffectiveUsed(w, now, after) == EffectiveUsed(w, now, win) + amount
            && (later >= Max(now, win.start) + 2 * w ==> EffectiveUsed(w, later, after) == 0)
  {
    var after := Commit(w, now, win, amount);
    assert Rolled(w, now, after) == after;
    assert Weighted(0, w, w) == 0;
  }

  // ---- Runs ----

  /** An amount let out of the treasury at a time. */
  datatype Spend = Spend(time: int, amount: nat)

  /** What left the treasury in the closed interval [lo, hi]. */
  function SpentIn(spends: seq<Spend>, lo: int, hi: int): nat {
    if spends == [] then 0 else
      var last := spends[|spends| - 1];
      SpentIn(spends[..|spends| - 1], lo, hi) + if lo <= last.time <= hi then last.amount else 0
  }

  /** One attempt against budget `b`: the window after it, or None when it is refused. */
  function TrySpend(w: int, b: nat, win: Window, s: Spend): Option<Window> {
    if EffectiveUsed(w, s.time, win) + s.amount <= b then Some(Commit(w, s.time, win, s.amount)) else None
  }

  /** The window after a run in which every spend was accepted, or None if one was refused. */
  function Replay(w: int, b: nat, win: Window, spends: seq<Spend>): Option<Window> {
    if spends == [] then Some(win) else
      match Replay(w, b, win, spends[..|spends| - 1])
      case None => None
      case Some(mid) => TrySpend(w, b, mid, spends[|spends| - 1])
  }

  ghost predicate Chronological(spends: seq<Spend>) {
    && (forall i | 0 <= i < |spends| :: spends[i].time > 0)
    && (forall i, j | 0 <= i < j < |spends| :: spends[i].time <= spends[j].time)
  }

  /** The most that can leave in one window length. */
  function WindowBound(w: nat, b: nat): int
    requires w > 0
  {
    2 * b - b / w
  }

  /** No closed interval of at most w seconds lets more than the bound out. */
  ghost predicate NeverTooFast(w: nat, b: nat, spends: seq<Spend>)
    requires w > 0
  {
    forall lo, hi | hi <= lo + w :: SpentIn(spends, lo, hi) <= WindowBound(w, b)
  }

  const GENESIS_WINDOW := Window(0, 0, 0)

  /** What every accepted spend keeps. `last` is a time no spend is after: the buckets cover the spends of
      their own spans, which stay inside the budget even when a bucket stored under a larger budget does
      not, and no interval of w seconds exceeds the bound. */
  ghost predicate WindowInv(w: nat, b: nat, win: Window, spends: seq<Spend>, last: int)
    requires w > 0
  {
    && 0 <= win.start <= Max(last, 0)
    && (win.start == 0 ==> spends == [])
    && (forall i | 0 <= i < |spends| :: spends[i].time <= last && spends[i].time < win.start + w)
    && SpentIn(spends, win.start, win.start + w - 1) <= Min(win.current, b)
    && SpentIn(spends, win.start - w, win.start - 1) <= Min(win.prev, b)
    && NeverTooFast(w, b, spends)
  }

  lemma {:induction false} SpentNothing(spends: seq<Spend>, lo: int, hi: int)
    requires forall i | 0 <= i < |spends| :: !(lo <= spends[i].time <= hi)
    ensures SpentIn(spends, lo, hi) == 0
  {
    if spends != [] {
      SpentNothing(spends[..|spends| - 1], lo, hi);
    }
  }

  lemma {:induction false} SpentSplit(spends: seq<Spend>, lo: int, mid: int, hi: int)
    requires lo <= mid + 1 && mid <= hi
    ensures SpentIn(spends, lo, hi) == SpentIn(spends, lo, mid) + SpentIn(spends, mid + 1, hi)
  {
    if spends != [] {
      SpentSplit(spends[..|spends| - 1], lo, mid, hi);
    }
  }

  lemma WaitingKeepsInv(w: nat, b: nat, win: Window, spends: seq<Spend>, last: int, now: int)
    requires w > 0 && last <= now && WindowInv(w, b, win, spends, last)
    ensures WindowInv(w, b, win, spends, now)
  {
    hide NeverTooFast, SpentIn;
  }

  /** Rolling to a later instant keeps the bucket accounting. */
  lemma RollKeepsInv(w: nat, b: nat, win: Window, spends: seq<Spend>, last: int, now: int)
    requires w > 0 && now > 0 && last <= now && WindowInv(w, b, win, spends, last)
    ensures WindowInv(w, b, Rolled(w, now, win), spends, now)
    ensures Rolled(w, now, win).start <= now < Rolled(w, now, win).start + w
  {
    hide NeverTooFast, Weighted, SpentIn;
    var r := Rolled(w, now, win);
    if r.start != win.start {
      SpentNothing(spends, r.start, r.start + w - 1);
      if win.start == 0 || r.start != win.start + w {
        SpentNothing(spends, r.start - w, r.start - 1);
      }
    }
  }

  lemma BoundCoversBudget(w: nat, b: nat)
    requires w > 0
    ensures b <= WindowBound(w, b) <= 2 * b
  {
    MulMono(b, 1, b, w);
    DivAtMost(b, w, b);
  }

  /** The arithmetic heart of the bound: what a bucket and the one before it let out cannot both be
      large while any share of the earlier one still counts. */
  lemma TwoBuckets(w: nat, b: nat, current: nat, prev: nat, left: nat)
    requires w > 0 && 1 <= left && prev <= b
    requires current + Weighted(prev, left, w) <= b
    ensures current + prev <= WindowBound(w, b)
  {
    WeightedMono(prev, 1, left, w);
    var q, d := prev / w, b - prev;
    DivBounds(prev, w);
    MulMono(d, 1, d, w);
    assert (q + d + 1) * w == q * w + d * w + w;
    DivAtMost(b, w, q + d);
  }

  lemma SpendKeepsInv(w: nat, b: nat, win: Window, spends: seq<Spend>, last: int, s: Spend)
    requires w > 0 && s.time > 0 && last <= s.time && WindowInv(w, b, win, spends, last)
    requires TrySpend(w, b, win, s).Some?
    ensures WindowInv(w, b, Commit(w, s.time, win, s.amount), spends + [s], s.time)
  {
    RollKeepsInv(w, b, win, spends, last, s.time);
    var r := Rolled(w, s.time, win);
    var all := spends + [s];
    assert all[..|all| - 1] == spends;
    forall lo, hi | hi <= lo + w
      ensures SpentIn(all, lo, hi) <= WindowBound(w, b)
    {
      if lo <= s.time <= hi {
        LateIntervalIsSlow(w, b, r, spends, s, lo, hi);
      }
    }
    hide NeverTooFast, Weighted;
  }

  /** An interval around a spend that fits the budget, after rolling to its instant. */
  lemma LateIntervalIsSlow(w: nat, b: nat, r: Window, spends: seq<Spend>, s: Spend, lo: int, hi: int)
    requires w > 0 && r.start <= s.time < r.start + w && lo <= s.time <= hi <= lo + w
    requires forall i | 0 <= i < |spends| :: spends[i].time <= s.time
    requires SpentIn(spends, r.start, r.start + w - 1) <= r.current
    requires SpentIn(spends, r.start - w, r.start - 1) <= Min(r.prev, b)
    requires r.current + Weighted(r.prev, w - (s.time - r.start), w) + s.amount <= b
    ensures SpentIn(spends, lo, hi) + s.amount <= WindowBound(w, b)
  {
    var left, earlier := w - (s.time - r.start), Min(r.prev, b);
    WeightedMonoPrev(earlier, r.prev, left, w);
    SpentLate(w, r, earlier, spends, lo, hi, s.time);
    TwoBuckets(w, b, r.current + s.amount, earlier, left);
    BoundCoversBudget(w, b);
    hide SpentIn, Weighted;
  }

  /** Of an interval reaching `now`, only the two buckets hold spends; only the current one when the
      interval starts inside it. */
  lemma SpentLate(w: nat, r: Window, earlier: nat, spends: seq<Spend>, lo: int, hi: int, now: int)
    requires w > 0 && r.start <= now < r.start + w && lo <= now <= hi <= lo + w
    requires forall i | 0 <= i < |spends| :: spends[i].time <= now
    requires SpentIn(spends, r.start, r.start + w - 1) <= r.current
    requires SpentIn(spends, r.start - w, r.start - 1) <= earlier
    ensures SpentIn(spends, lo, hi) <= r.current + if lo >= r.start then 0 else earlier
  {
    SpentSplit(spends, lo, now, hi);
    SpentNothing(spends, now + 1, hi);
    SpentSplit(spends, r.start, now, r.start + w - 1);
    if lo >= r.start {
      SpentSplit(spends, r.start, lo - 1, now);
    } else {
      SpentSplit(spends, lo, r.start - 1, now);
      SpentSplit(spends, r.start - w, lo - 1, r.start - 1);
    }
  }

  /** A window stored by a positive clock that is not ahead of the run. */
  predicate StoredBefore(win: Window, spends: seq<Spend>) {
    0 <= win.start && (spends != [] ==> win.start <= spends[0].time)
  }

  /** In every accepted run, from whatever window was stored before it, what leaves in ANY closed interval
      of w seconds is at most 2b - floor(b/w): the advertised 2b is never quite reached while b >= w. */
  lemma OutflowBound(w: nat, b: nat, win: Window, spends: seq<Spend>)
    requires w > 0 && Chronological(spends) && StoredBefore(win, spends) && Replay(w, b, win, spends).Some?
    ensures NeverTooFast(w, b, spends)
    ensures WindowBound(w, b) <= 2 * b && (b >= w ==> WindowBound(w, b) < 2 * b)
  {
    RunKeepsInv(w, b, win, spends);
    BoundCoversBudget(w, b);
    if b >= w {
      DivAtLeast(b, w, 1);
    }
  }

  lemma NothingSpentYet(w: nat, b: nat, win: Window)
    requires w > 0 && 0 <= win.start
    ensures WindowInv(w, b, win, [], win.start)
  {
    BoundCoversBudget(w, b);
  }

  lemma {:induction false} RunKeepsInv(w: nat, b: nat, win: Window, spends: seq<Spend>)
    requires w > 0 && Chronological(spends) && StoredBefore(win, spends) && Replay(w, b, win, spends).Some?
    ensures WindowInv(w, b, Replay(w, b, win, spends).value, spends,
                      if spends == [] then win.start else spends[|spends| - 1].time)
  {
    if spends == [] {
      NothingSpentYet(w, b, win);
    } else {
      var init, s := spends[..|spends| - 1], spends[|spends| - 1];
      RunKeepsInv(w, b, win, init);
      SpendKeepsInv(w, b, Replay(w, b, win, init).value, init, if init == [] then win.start else init[|init| - 1].time, s);
      assert init + [s] == spends;
    }
  }

  // ---- The other side: the counter never counts what did not leave ----

  /** The buckets hold no more than what left in their own spans, and what was stored before the run. */
  ghost predicate NothingInvented(w: nat, stored: nat, win: Window, spends: seq<Spend>) {
    && win.current <= SpentIn(spends, win.start, win.start + w - 1) + stored
    && win.current + win.prev <= SpentIn(spends, win.start - w, win.start + w - 1) + stored
  }

  lemma RollInventsNothing(w: nat, b: nat, stored: nat, win: Window, spends: seq<Spend>, last: int, now: int)
    requires w > 0 && now > 0 && last <= now && WindowInv(w, b, win, spends, last) && NothingInvented(w, stored, win, spends)
    ensures NothingInvented(w, stored, Rolled(w, now, win), spends)
  {
    SpentSplit(spends, win.start, win.start + w - 1, win.start + w + w - 1);
  }

  lemma SpendInventsNothing(w: nat, b: nat, stored: nat, win: Window, spends: seq<Spend>, last: int, s: Spend)
    requires w > 0 && s.time > 0 && last <= s.time && WindowInv(w, b, win, spends, last) && NothingInvented(w, stored, win, spends)
    ensures NothingInvented(w, stored, Commit(w, s.time, win, s.amount), spends + [s])
  {
    RollInventsNothing(w, b, stored, win, spends, last, s.time);
    RollKeepsInv(w, b, win, spends, last, s.time);
    assert (spends + [s])[..|spends|] == spends;
    hide Roll, WindowInv;
  }

  /** So the usage is never more than what left in the last two windows, plus what was stored. */
  lemma UsageIsSpent(w: nat, b: nat, stored: nat, win: Window, spends: seq<Spend>, last: int, now: int)
    requires w > 0 && now > 0 && last <= now && WindowInv(w, b, win, spends, last) && NothingInvented(w, stored, win, spends)
    ensures EffectiveUsed(w, now, win) <= SpentIn(spends, now - 2 * w + 1, now) + stored
  {
    RollInventsNothing(w, b, stored, win, spends, last, now);
    RollKeepsInv(w, b, win, spends, last, now);
    var r := Rolled(w, now, win);
    WeightedBounds(r.prev, w - (now - r.start), w);
    SpentSplit(spends, r.start - w, now, r.start + w - 1);
    SpentNothing(spends, now + 1, r.start + w - 1);
    SpentSplit(spends, now - 2 * w + 1, r.start - w - 1, now);
    hide Weighted, WindowInv;
  }

  lemma {:induction false} RunInventsNothing(w: nat, b: nat, win: Window, spends: seq<Spend>)
    requires w > 0 && Chronological(spends) && StoredBefore(win, spends) && Replay(w, b, win, spends).Some?
    ensures NothingInvented(w, win.current + win.prev, Replay(w, b, win, spends).value, spends)
  {
    if spends != [] {
      var init, s := spends[..|spends| - 1], spends[|spends| - 1];
      RunKeepsInv(w, b, win, init);
      RunInventsNothing(w, b, win, init);
      SpendInventsNothing(w, b, win.current + win.prev, Replay(w, b, win, init).value, init,
                          if init == [] then win.start else init[|init| - 1].time, s);
      assert init + [s] == spends;
    }
  }

  /** Nothing that fits is refused: if an amount fits the budget beside everything that left in the last two
      windows and what was stored before the run, it is let out. */
  lemma NeverRefusesWhatFits(w: nat, b: nat, win: Window, spends: seq<Spend>, s: Spend)
    requires w > 0 && Chronological(spends) && StoredBefore(win, spends) && Replay(w, b, win, spends).Some?
    requires s.time > 0 && win.start <= s.time && forall i | 0 <= i < |spends| :: spends[i].time <= s.time
    requires SpentIn(spends, s.time - 2 * w + 1, s.time) + win.current + win.prev + s.amount <= b
    ensures TrySpend(w, b, Replay(w, b, win, spends).value, s).Some?
  {
    hide Replay, WindowInv, NothingInvented, Roll, SpentIn, Chronological;
    RunKeepsInv(w, b, win, spends);
    RunInventsNothing(w, b, win, spends);
    var last := if spends == [] then win.start else spends[|spends| - 1].time;
    UsageIsSpent(w, b, win.current + win.prev, Replay(w, b, win, spends).value, spends, last, s.time);
  }

  /** The bound is exact: for every budget and window some accepted run of positive spends meets it. */
  lemma OutflowBoundIsTight(w: nat, b: nat) returns (spends: seq<Spend>, lo: int)
    requires w > 0 && b > 0
    ensures Chronological(spends) && (forall i | 0 <= i < |spends| :: spends[i].amount > 0)
    ensures Replay(w, b, GENESIS_WINDOW, spends).Some?
    ensures SpentIn(spends, lo, lo + w) == WindowBound(w, b)
  {
    if w == 1 {
      spends, lo := [Spend(1, b)], 1;
      assert spends[..0] == [] && b / 1 == b;
      assert Weighted(0, 1, 1) == 0;
    } else {
      var one, two := [Spend(1, 1)], [Spend(1, 1), Spend(2 * w, b)];
      spends, lo := two + [Spend(3 * w, b - b / w)], 2 * w;
      TightSteps(w, b);
      assert one[..0] == [] && two[..1] == one && spends[..2] == two;
      assert Replay(w, b, GENESIS_WINDOW, one) == TrySpend(w, b, GENESIS_WINDOW, one[0]);
      assert Replay(w, b, GENESIS_WINDOW, two) == TrySpend(w, b, Window(1, 1, 0), two[1]);
      assert Replay(w, b, GENESIS_WINDOW, spends) == TrySpend(w, b, Window(w + 1, b, 1), spends[2]);
      assert SpentIn(one, lo, lo + w) == 0;
    }
  }

  lemma TightSteps(w: nat, b: nat)
    requires w > 1 && b > 0
    ensures b / w < b
    ensures TrySpend(w, b, GENESIS_WINDOW, Spend(1, 1)) == Some(Window(1, 1, 0))
    ensures TrySpend(w, b, Window(1, 1, 0), Spend(2 * w, b)) == Some(Window(w + 1, b, 1))
    ensures TrySpend(w, b, Window(w + 1, b, 1), Spend(3 * w, b - b / w)) == Some(Window(2 * w + 1, b - b / w, b))
  {
    DivBounds(b, w);
    MulMono(b / w, 2, b / w, w);
    WeightedBounds(0, w, w);
    DivAtMost(1, w, 0);
    assert Weighted(1, 1, w) == 0 && Weighted(b, 1, w) == b / w;
  }

  // ---- scripts/test-redeem-window.ts: the replay loop ----

  /** The attempts of a timeline that the rule lets through, in order. */
  function Accepted(w: int, b: nat, attempts: seq<Spend>): (seq<Spend>, Window) {
    if attempts == [] then ([], GENESIS_WINDOW) else
      var (done, win) := Accepted(w, b, attempts[..|attempts| - 1]);
      match TrySpend(w, b, win, attempts[|attempts| - 1])
      case None => (done, win)
      case Some(after) => (done + [attempts[|attempts| - 1]], after)
  }

  function Total(spends: seq<Spend>): nat {
    if spends == [] then 0 else Total(spends[..|spends| - 1]) + spends[|spends| - 1].amount
  }

  method Simulate(w: int, b: nat, attempts: seq<Spend>) returns (allowed: nat)
    ensures allowed == Total(Accepted(w, b, attempts).0)
  {
    var win := GENESIS_WINDOW;
    allowed := 0;
    for i := 0 to |attempts|
      invariant win == Accepted(w, b, attempts[..i]).1
      invariant allowed == Total(Accepted(w, b, attempts[..i]).0)
    {
      assert attempts[..i + 1][..i] == attempts[..i];
      var d := Roll(w, attempts[i].time, win);
      if d.effectiveUsed + attempts[i].amount <= b {
        win := Window(d.rolled.start, d.rolled.current + attempts[i].amount, d.rolled.prev);
        allowed := allowed + attempts[i].amount;
        assert Accepted(w, b, attempts[..i + 1]).0[..|Accepted(w, b, attempts[..i]).0|] == Accepted(w, b, attempts[..i]).0;
      }
    }
    assert attempts[..|attempts|] == attempts;
  }

  /** What is let through is itself an accepted run. */
  lemma {:induction false} AcceptedIsARun(w: nat, b: nat, attempts: seq<Spend>)
    ensures var (done, win) := Accepted(w, b, attempts); Replay(w, b, GENESIS_WINDOW, done) == Some(win)
  {
    hide TrySpend;
    if attempts != [] {
      AcceptedIsARun(w, b, attempts[..|attempts| - 1]);
      var (done, win) := Accepted(w, b, attempts[..|attempts| - 1]);
      assert (done + [attempts[|attempts| - 1]])[..|done|] == done;
    }
  }

  lemma {:induction false} AcceptedKeepsTime(w: nat, b: nat, attempts: seq<Spend>)
    requires Chronological(attempts)
    ensures var done := Accepted(w, b, attempts).0;
            Chronological(done) && forall i | 0 <= i < |done| :: attempts != [] && done[i].time <= attempts[|attempts| - 1].time
  {
    hide TrySpend;
    if attempts != [] {
      var init := attempts[..|attempts| - 1];
      AcceptedKeepsTime(w, b, init);
      assert init != [] ==> init[|init| - 1].time <= attempts[|attempts| - 1].time;
    }
  }

  /** The loop lets through every attempt that fits beside what it let out in the last two windows. */
  lemma FittingAttemptsAreAccepted(w: nat, b: nat, attempts: seq<Spend>, s: Spend)
    requires w > 0 && Chronological(attempts) && s.time > 0 && forall i | 0 <= i < |attempts| :: attempts[i].time <= s.time
    requires SpentIn(Accepted(w, b, attempts).0, s.time - 2 * w + 1, s.time) + s.amount <= b
    ensures Accepted(w, b, attempts + [s]).0 == Accepted(w, b, attempts).0 + [s]
  {
    var all, done := attempts + [s], Accepted(w, b, attempts).0;
    assert all[..|attempts|] == attempts && all[|attempts|] == s;
    AcceptedIsARun(w, b, attempts);
    AcceptedKeepsTime(w, b, attempts);
    hide Replay, TrySpend, SpentIn, Chronological;
    NeverRefusesWhatFits(w, b, GENESIS_WINDOW, done, s);
  }

  /** Refused attempts change nothing, so the outflow bound holds of every timeline, whatever was
      attempted. */
  lemma EveryTimelineIsBounded(w: nat, b: nat, attempts: seq<Spend>)
    requires w > 0 && Chronological(attempts)
    ensures NeverTooFast(w, b, Accepted(w, b, attempts).0)
  {
    AcceptedIsARun(w, b, attempts);
    AcceptedKeepsTime(w, b, attempts);
    hide NeverTooFast, Accepted, Chronological, Replay;
    OutflowBound(w, b, GENESIS_WINDOW, Accepted(w, b, attempts).0);
  }
}
