/** Candidate projects, their totals, 0/1 selections over them and the
    minimum-skill-match eligibility filter. */
module Projects {

  /** One row of the project table. Pay, hours, deadline and skill match are
      whole numbers, as the entry form produces them. */
  datatype Project = Project(
    projectName: string,
    client: string,
    totalPay: nat,
    hoursRequired: nat,
    deadlineDays: nat,
    skillMatch: nat)

  /** Sum of `totalPay` over a list of projects. */
  function Pay(ps: seq<Project>): nat
  {
    if |ps| == 0 then 0 else ps[0].totalPay + Pay(ps[1..])
  }

  /** Sum of `hoursRequired` over a list of projects. */
  function Hours(ps: seq<Project>): nat
  {
    if |ps| == 0 then 0 else ps[0].hoursRequired + Hours(ps[1..])
  }

  /** Both sums are additive: the total of two lists joined is the sum of
      their totals. */
  lemma {:induction false} SumsOfJoin(a: seq<Project>, b: seq<Project>)
    ensures Pay(a + b) == Pay(a) + Pay(b)
    ensures Hours(a + b) == Hours(a) + Hours(b)
  {
    if |a| > 0 {
      assert (a + b)[1..] == a[1..] + b;
      SumsOfJoin(a[1..], b);
    } else {
      assert a + b == b;
    }
  }

  /** The projects whose decision variable is set, in their original order:
      the rows picked out of a table by a 0/1 vector. */
  function Pick(ps: seq<Project>, x: seq<bool>): (r: seq<Project>)
    requires |x| == |ps|
    ensures |r| <= |ps|
    ensures forall p :: p in r ==> p in ps
  {
    if |ps| == 0 then []
    else (if x[0] then [ps[0]] else []) + Pick(ps[1..], x[1..])
  }

  /** Every row whose decision is set appears in the pick. */
  lemma {:induction false} PickKeepsChosen(ps: seq<Project>, x: seq<bool>, j: nat)
    requires |x| == |ps| && j < |ps| && x[j]
    ensures ps[j] in Pick(ps, x)
  {
    if j > 0 {
      PickKeepsChosen(ps[1..], x[1..], j - 1);
    }
  }

  /** Picking distributes over any split of the table, so the picked rows
      keep the table's order. */
  lemma {:induction false} PickSplit(ps: seq<Project>, x: seq<bool>, k: nat)
    requires |x| == |ps| && k <= |ps|
    ensures Pick(ps, x) == Pick(ps[..k], x[..k]) + Pick(ps[k..], x[k..])
  {
    if k == 0 {
      assert ps[..0] == [] && ps[0..] == ps && x[0..] == x;
    } else {
      PickSplit(ps[1..], x[1..], k - 1);
      assert ps[..k][1..] == ps[1..][..k - 1] && x[..k][1..] == x[1..][..k - 1];
      assert ps[1..][k - 1..] == ps[k..] && x[1..][k - 1..] == x[k..];
      assert ps[..k][0] == ps[0] && x[..k][0] == x[0];
    }
  }

  /** A picked subset never pays more than the whole list. */
  lemma {:induction false} PickPayAtMost(ps: seq<Project>, x: seq<bool>)
    requires |x| == |ps|
    ensures Pay(Pick(ps, x)) <= Pay(ps)
  {
    if |ps| > 0 {
      PickFirst(ps, x);
      PickPayAtMost(ps[1..], x[1..]);
    }
  }

  /** Whether a project meets the minimum skill match; equality qualifies. */
  predicate Qualifies(p: Project, minSkillMatch: nat)
  {
    p.skillMatch >= minSkillMatch
  }

  /** The eligibility mask: one decision per row, set exactly when the row qualifies. */
  function EligibleMask(ps: seq<Project>, minSkillMatch: nat): (x: seq<bool>)
    ensures |x| == |ps|
    ensures forall i :: 0 <= i < |ps| ==> (x[i] <==> ps[i].skillMatch >= minSkillMatch)
  {
    seq(|ps|, i requires 0 <= i < |ps| => Qualifies(ps[i], minSkillMatch))
  }

  /** The eligible pool: the qualifying projects, in their original order. */
  function Eligible(ps: seq<Project>, minSkillMatch: nat): (r: seq<Project>)
    ensures |r| <= |ps|
    ensures forall p :: p in r <==> p in ps && Qualifies(p, minSkillMatch)
  {
    if |ps| == 0 then []
    else (if Qualifies(ps[0], minSkillMatch) then [ps[0]] else []) + Eligible(ps[1..], minSkillMatch)
  }

  /** The pool is exactly the rows the eligibility mask picks: a subsequence of
      the input in its original relative order. */
  lemma {:induction false} EligibleIsMaskedPick(ps: seq<Project>, minSkillMatch: nat)
    ensures Eligible(ps, minSkillMatch) == Pick(ps, EligibleMask(ps, minSkillMatch))
  {
    if |ps| > 0 {
      var x := EligibleMask(ps, minSkillMatch);
      assert x[1..] == EligibleMask(ps[1..], minSkillMatch);
      EligibleIsMaskedPick(ps[1..], minSkillMatch);
    }
  }

  /** The pool is empty exactly when no project qualifies. */
  lemma EligibleEmptyIff(ps: seq<Project>, minSkillMatch: nat)
    ensures |Eligible(ps, minSkillMatch)| == 0 <==>
            forall i :: 0 <= i < |ps| ==> !Qualifies(ps[i], minSkillMatch)
  {
    var r := Eligible(ps, minSkillMatch);
    if |r| > 0 {
      assert r[0] in r;
    }
  }

  /** When every project qualifies the pool is the whole table; a threshold of
      0, the default, is such a case. */
  lemma {:induction false} AllQualifyKeepsAll(ps: seq<Project>, minSkillMatch: nat)
    requires forall i :: 0 <= i < |ps| ==> Qualifies(ps[i], minSkillMatch)
    ensures Eligible(ps, minSkillMatch) == ps
  {
    if |ps| > 0 {
      AllQualifyKeepsAll(ps[1..], minSkillMatch);
      assert [ps[0]] + ps[1..] == ps;
    }
  }

  /** Filtering by a higher threshold is filtering the lower threshold's pool
      again, so raising the threshold never grows the pool. */
  lemma {:induction false} EligibleRefines(ps: seq<Project>, low: nat, high: nat)
    requires low <= high
    ensures Eligible(Eligible(ps, low), high) == Eligible(ps, high)
    ensures |Eligible(ps, high)| <= |Eligible(ps, low)|
  {
    if |ps| > 0 {
      EligibleRefines(ps[1..], low, high);
      var rest := Eligible(ps[1..], low);
      if Qualifies(ps[0], low) {
        assert Eligible(ps, low) == [ps[0]] + rest;
        assert ([ps[0]] + rest)[1..] == rest;
      } else {
        assert Eligible(ps, low) == rest;
        assert Eligible(ps, high) == Eligible(ps[1..], high);
      }
    }
  }

  /** Totals of a pick split into the first row's share and the rest's. */
  lemma PickFirst(ps: seq<Project>, x: seq<bool>)
    requires |x| == |ps| > 0
    ensures Pay(Pick(ps, x)) == (if x[0] then ps[0].totalPay else 0) + Pay(Pick(ps[1..], x[1..]))
    ensures Hours(Pick(ps, x)) == (if x[0] then ps[0].hoursRequired else 0) + Hours(Pick(ps[1..], x[1..]))
    ensures |Pick(ps, x)| == (if x[0] then 1 else 0) + |Pick(ps[1..], x[1..])|
  {
    var rest := Pick(ps[1..], x[1..]);
    if x[0] {
      assert ([ps[0]] + rest)[1..] == rest;
    } else {
      assert [] + rest == rest;
    }
  }
}
