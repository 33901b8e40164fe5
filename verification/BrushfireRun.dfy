/** The brushfire as a deterministic run: the order in which the obstacles are
    queued decides everything that follows. */
module BrushfireRun {
  import opened RankTable
  import opened Brushfire

  /** The labels so far, the bins, the bin being read and its next entry. */
  datatype RunState = RunState(lab: Labels, bins: Bins, level: nat, next: nat) {
    predicate Halted() { level >= |bins| }
  }

  /** One guarded `enqueue`. */
  ghost function Offer(f: Task, lab: Labels, bins: Bins, e: CellData): Bins {
    if InGrid(f, e.at) then Enqueued(f, lab, bins, e) else bins
  }

  /** The four of them, in the order of the code. */
  ghost function OfferAround(f: Task, lab: Labels, bins: Bins, m: Cell, s: Cell): Bins {
    var left := Offer(f, lab, bins, CellData(Cell(m.x - 1, m.y), s));
    var below := Offer(f, lab, left, CellData(Cell(m.x, m.y - 1), s));
    var right := Offer(f, lab, below, CellData(Cell(m.x + 1, m.y), s));
    Offer(f, lab, right, CellData(Cell(m.x, m.y + 1), s))
  }

  /** One entry read, or one drained bin freed. */
  ghost function NextState(f: Task, st: RunState): RunState {
    if st.Halted() then st
    else if st.next >= |st.bins[st.level]| then RunState(st.lab, st.bins[st.level := []], st.level + 1, 0)
    else
      var e := st.bins[st.level][st.next];
      if e.at in st.lab then st.(next := st.next + 1)
      else
        var lab := st.lab[e.at := e.src];
        RunState(lab, OfferAround(f, lab, st.bins, e.at, e.src), st.level, st.next + 1)
  }

  ghost function After(f: Task, queue: Bins, n: nat): RunState {
    if n == 0 then RunState(map[], queue, 0, 0) else NextState(f, After(f, queue, n - 1))
  }

  /** The run from the given queue comes to this state. */
  ghost predicate Reached(f: Task, queue: Bins, st: RunState) { exists n: nat :: After(f, queue, n) == st }

  lemma ReachedStart(f: Task, queue: Bins)
    ensures Reached(f, queue, RunState(map[], queue, 0, 0))
  {
    assert After(f, queue, 0) == RunState(map[], queue, 0, 0);
  }

  lemma ReachedNext(f: Task, queue: Bins, st: RunState)
    requires Reached(f, queue, st)
    ensures Reached(f, queue, NextState(f, st))
  {
    hide NextState;
    var n: nat :| After(f, queue, n) == st;
    assert After(f, queue, n + 1) == NextState(f, st);
  }

  lemma {:induction false} HaltedForGood(f: Task, queue: Bins, n: nat, m: nat)
    requires After(f, queue, n).Halted() && n <= m
    ensures After(f, queue, m) == After(f, queue, n)
    decreases m
  {
    hide NextState;
    if n < m {
      HaltedForGood(f, queue, n, m - 1);
      HaltedStays(f, After(f, queue, n));
    }
  }

  lemma HaltedStays(f: Task, st: RunState)
    requires st.Halted()
    ensures NextState(f, st) == st
  {
    hide OfferAround;
  }

  /** A run has one outcome. */
  lemma OutcomeUnique(f: Task, queue: Bins, a: RunState, b: RunState)
    requires Reached(f, queue, a) && Reached(f, queue, b) && a.Halted() && b.Halted()
    ensures a == b
  {
    var n: nat :| After(f, queue, n) == a;
    var m: nat :| After(f, queue, m) == b;
    if n <= m { HaltedForGood(f, queue, n, m); } else { HaltedForGood(f, queue, m, n); }
  }

  lemma ReachedSkip(f: Task, queue: Bins, lab: Labels, bins: Bins, level: nat, next: nat)
    requires Reached(f, queue, RunState(lab, bins, level, next))
    requires level < |bins| && next < |bins[level]| && bins[level][next].at in lab
    ensures Reached(f, queue, RunState(lab, bins, level, next + 1))
  {
    hide Reached, OfferAround;
    ReachedNext(f, queue, RunState(lab, bins, level, next));
  }

  lemma ReachedClaim(f: Task, queue: Bins, lab: Labels, bins: Bins, level: nat, next: nat)
    requires Reached(f, queue, RunState(lab, bins, level, next))
    requires level < |bins| && next < |bins[level]| && bins[level][next].at !in lab
    ensures var e := bins[level][next];
      var lab' := lab[e.at := e.src];
      Reached(f, queue, RunState(lab', OfferAround(f, lab', bins, e.at, e.src), level, next + 1))
  {
    hide Reached, OfferAround;
    ReachedNext(f, queue, RunState(lab, bins, level, next));
  }

  lemma ReachedBin(f: Task, queue: Bins, lab: Labels, bins: Bins, level: nat)
    requires level < |bins| && Reached(f, queue, RunState(lab, bins, level, |bins[level]|))
    ensures Reached(f, queue, RunState(lab, bins[level := []], level + 1, 0))
  {
    hide Reached, OfferAround;
    ReachedNext(f, queue, RunState(lab, bins, level, |bins[level]|));
  }
}
