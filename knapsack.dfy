/** Exact 0/1 knapsack over the eligible pool: choose one binary decision per
    project so that total pay is largest while total hours stay within the
    available hours. */
module Knapsack {
  import opened Projects

  /** A decision vector for `ps` whose chosen projects fit in `cap` hours. */
  predicate Feasible(ps: seq<Project>, x: seq<bool>, cap: nat)
  {
    |x| == |ps| && Hours(Pick(ps, x)) <= cap
  }

  /** Include/exclude selection: the first project is taken exactly when it
      fits and taking it (with the best choice for the rest in the hours left)
      pays strictly more than leaving it out. */
  function Select(ps: seq<Project>, cap: nat): (x: seq<bool>)
    ensures Feasible(ps, x, cap)
    decreases |ps|
  {
    if |ps| == 0 then []
    else
      var h := ps[0].hoursRequired;
      var skip := Select(ps[1..], cap);
      if h <= cap then
        var take := Select(ps[1..], cap - h);
        PickFirst(ps, [true] + take);
        PickFirst(ps, [false] + skip);
        assert ([true] + take)[1..] == take && ([false] + skip)[1..] == skip;
        if ps[0].totalPay + Pay(Pick(ps[1..], take)) > Pay(Pick(ps[1..], skip))
        then [true] + take
        else [false] + skip
      else
        PickFirst(ps, [false] + skip);
        assert ([false] + skip)[1..] == skip;
        [false] + skip
  }

  /** The pay of the selection: the objective value of the optimum. */
  function MaxPay(ps: seq<Project>, cap: nat): (v: nat)
    ensures v <= Pay(ps)
  {
    PickPayAtMost(ps, Select(ps, cap));
    Pay(Pick(ps, Select(ps, cap)))
  }

  /** The selection is optimal: no decision vector that fits the available
      hours earns more. */
  lemma {:induction false} SelectIsOptimal(ps: seq<Project>, cap: nat, x: seq<bool>)
    requires Feasible(ps, x, cap)
    ensures Pay(Pick(ps, x)) <= MaxPay(ps, cap)
    decreases |ps|
  {
    if |ps| > 0 {
      var h := ps[0].hoursRequired;
      PickFirst(ps, x);
      MaxPayStep(ps, cap);
      SelectIsOptimal(ps[1..], cap, Select(ps[1..], cap));
      if x[0] {
        SelectIsOptimal(ps[1..], cap - h, x[1..]);
      } else {
        SelectIsOptimal(ps[1..], cap, x[1..]);
      }
    }
  }

  /** The same optimality for all decision vectors at once. */
  lemma SelectIsOptimalForAll(ps: seq<Project>, cap: nat)
    ensures forall x :: Feasible(ps, x, cap) ==> Pay(Pick(ps, x)) <= MaxPay(ps, cap)
  {
    forall x | Feasible(ps, x, cap) ensures Pay(Pick(ps, x)) <= MaxPay(ps, cap) {
      SelectIsOptimal(ps, cap, x);
    }
  }

  /** The recurrence behind both the selection and the table. */
  lemma MaxPayStep(ps: seq<Project>, cap: nat)
    requires |ps| > 0
    ensures var h := ps[0].hoursRequired;
            var takes := h <= cap && ps[0].totalPay + MaxPay(ps[1..], cap - h) > MaxPay(ps[1..], cap);
            Select(ps, cap) == [takes] + Select(ps[1..], if takes then cap - h else cap) &&
            MaxPay(ps, cap) == if takes then ps[0].totalPay + MaxPay(ps[1..], cap - h) else MaxPay(ps[1..], cap)
  {
    var h := ps[0].hoursRequired;
    var x := Select(ps, cap);
    PickFirst(ps, x);
    if h <= cap {
      assert x[1..] == if x[0] then Select(ps[1..], cap - h) else Select(ps[1..], cap);
    } else {
      assert x[1..] == Select(ps[1..], cap);
    }
  }

  /** The recurrence at position `i` of the list. */
  lemma SelectAt(ps: seq<Project>, i: nat, cap: nat)
    requires i < |ps|
    ensures var h := ps[i].hoursRequired;
            var takes := h <= cap && ps[i].totalPay + MaxPay(ps[i + 1..], cap - h) > MaxPay(ps[i + 1..], cap);
            Select(ps[i..], cap) == [takes] + Select(ps[i + 1..], if takes then cap - h else cap)
  {
    assert ps[i..][1..] == ps[i + 1..];
    MaxPayStep(ps[i..], cap);
  }

  /** The optimal pay from position `i` on, in terms of the pay from `i + 1` on. */
  lemma MaxPayAt(ps: seq<Project>, i: nat, cap: nat)
    requires i < |ps|
    ensures var h := ps[i].hoursRequired;
            MaxPay(ps[i..], cap) ==
              if h <= cap && ps[i].totalPay + MaxPay(ps[i + 1..], cap - h) > MaxPay(ps[i + 1..], cap)
              then ps[i].totalPay + MaxPay(ps[i + 1..], cap - h)
              else MaxPay(ps[i + 1..], cap)
  {
    assert ps[i..][1..] == ps[i + 1..];
    MaxPayStep(ps[i..], cap);
  }

  /** One step of reading a selection off from the front: the prefix decided
      so far, the next decision and the selection of the rest. */
  lemma WalkStep(ps: seq<Project>, cap: nat, x: seq<bool>, i: nat, rem: nat)
    requires i < |ps|
    requires x + Select(ps[i..], rem) == Select(ps, cap)
    ensures var h := ps[i].hoursRequired;
            var takes := h <= rem && ps[i].totalPay + MaxPay(ps[i + 1..], rem - h) > MaxPay(ps[i + 1..], rem);
            (x + [takes]) + Select(ps[i + 1..], if takes then rem - h else rem) == Select(ps, cap)
  {
    SelectAt(ps, i, rem);
  }

  /** More available hours never lower the optimal pay. */
  lemma MaxPayMonotone(ps: seq<Project>, cap: nat, more: nat)
    requires cap <= more
    ensures MaxPay(ps, cap) <= MaxPay(ps, more)
  {
    SelectIsOptimal(ps, more, Select(ps, cap));
  }

  /** When every project needs at least one hour (as the entry form enforces)
      and nothing fits, the optimum is the empty selection with pay 0; a zero
      budget is the simplest such case. */
  lemma {:induction false} NothingFitsSelectsNothing(ps: seq<Project>, cap: nat)
    requires forall i :: 0 <= i < |ps| ==> ps[i].hoursRequired > cap
    ensures Pick(ps, Select(ps, cap)) == [] && MaxPay(ps, cap) == 0
  {
    if |ps| > 0 {
      MaxPayStep(ps, cap);
      NothingFitsSelectsNothing(ps[1..], cap);
      var x := Select(ps, cap);
      assert x[1..] == Select(ps[1..], cap);
    }
  }

  /** The dynamic-programming table over whole hours: `best[i, b]` is the
      optimal pay of the projects from `i` on within `b` hours. */
  method FillTable(ps: seq<Project>, cap: nat) returns (best: array2<nat>)
    ensures fresh(best)
    ensures best.Length0 == |ps| + 1 && best.Length1 == cap + 1
    ensures forall k, d :: 0 <= k <= |ps| && 0 <= d <= cap ==> best[k, d] == MaxPay(ps[k..], d)
  {
    var n := |ps|;
    best := new nat[n + 1, cap + 1];
    var b := 0;
    while b <= cap
      invariant 0 <= b <= cap + 1
      invariant forall d :: 0 <= d < b ==> best[n, d] == MaxPay(ps[n..], d)
    {
      best[n, b] := 0;
      b := b + 1;
    }
    var i := n;
    while i > 0
      invariant 0 <= i <= n
      invariant forall k, d :: i <= k <= n && 0 <= d <= cap ==> best[k, d] == MaxPay(ps[k..], d)
    {
      i := i - 1;
      FillRow(ps, cap, best, i);
    }
  }

  /** Fills row `i` of the table from row `i + 1`. */
  method FillRow(ps: seq<Project>, cap: nat, best: array2<nat>, i: nat)
    requires i < |ps| && best.Length0 == |ps| + 1 && best.Length1 == cap + 1
    requires forall k, d :: i + 1 <= k <= |ps| && 0 <= d <= cap ==> best[k, d] == MaxPay(ps[k..], d)
    modifies best
    ensures forall k, d :: i <= k <= |ps| && 0 <= d <= cap ==> best[k, d] == MaxPay(ps[k..], d)
    ensures forall k, d :: 0 <= k < i && 0 <= d <= cap ==> best[k, d] == old(best[k, d])
  {
    var b := 0;
    while b <= cap
      invariant 0 <= b <= cap + 1
      invariant forall k, d :: i + 1 <= k <= |ps| && 0 <= d <= cap ==> best[k, d] == MaxPay(ps[k..], d)
      invariant forall d :: 0 <= d < b ==> best[i, d] == MaxPay(ps[i..], d)
      invariant forall k, d :: 0 <= k < i && 0 <= d <= cap ==> best[k, d] == old(best[k, d])
    {
      var h := ps[i].hoursRequired;
      var v := best[i + 1, b];
      assert v == MaxPay(ps[i + 1..], b);
      if h <= b && ps[i].totalPay + best[i + 1, b - h] > v {
        v := ps[i].totalPay + best[i + 1, b - h];
      }
      MaxPayAt(ps, i, b);
      best[i, b] := v;
      b := b + 1;
    }
  }

  /** Builds the table, then reads the decision vector back out of it. It
      returns exactly the include/exclude selection, in time proportional to
      the table's size. */
  method SolveByTable(ps: seq<Project>, cap: nat) returns (x: seq<bool>)
    ensures x == Select(ps, cap)
  {
    var best := FillTable(ps, cap);
    x := ReadBack(ps, cap, best);
  }

  /** Walks the table from the first project on: a project is taken exactly
      when it fits the hours left and taking it beats leaving it out. */
  method ReadBack(ps: seq<Project>, cap: nat, best: array2<nat>) returns (x: seq<bool>)
    requires best.Length0 == |ps| + 1 && best.Length1 == cap + 1
    requires forall k, d :: 0 <= k <= |ps| && 0 <= d <= cap ==> best[k, d] == MaxPay(ps[k..], d)
    ensures x == Select(ps, cap)
  {
    var n := |ps|;
    x := [];
    var rem: nat := cap;
    var i := 0;
    while i < n
      invariant 0 <= i <= n && rem <= cap
      invariant x + Select(ps[i..], rem) == Select(ps, cap)
    {
      var h := ps[i].hoursRequired;
      var takes := h <= rem && ps[i].totalPay + best[i + 1, rem - h] > best[i + 1, rem];
      var next: nat := if takes then rem - h else rem;
      assert best[i + 1, rem] == MaxPay(ps[i + 1..], rem);
      assert h <= rem ==> best[i + 1, rem - h] == MaxPay(ps[i + 1..], rem - h);
      WalkStep(ps, cap, x, i, rem);
      x := x + [takes];
      rem := next;
      i := i + 1;
    }
    assert x + Select(ps[n..], rem) == x;
  }
}
