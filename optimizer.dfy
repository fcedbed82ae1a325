/** The project-selection engine: filter the project table by minimum skill
    match, choose the subset of eligible projects with the largest total pay
    that fits in the available hours, and report the summary metrics. */
module GigOptimizer {
  import opened Projects
  import opened Knapsack

  /** The summary metrics of an optimal selection. */
  datatype Results = Results(
    totalEarnings: nat,
    totalHours: nat,
    availableHours: nat,
    hoursRemaining: int,
    projectsSelected: nat,
    projectsAvailable: nat,
    utilization: real)

  /** The three outcomes of an optimization: no projects at all, none meeting
      the skill threshold, or a selection with its metrics. `decisions` is the
      0/1 vector over the eligible pool; `selected` is the rows it picks. */
  datatype Outcome =
    | NoProjects
    | NoneEligible
    | Optimized(decisions: seq<bool>, selected: seq<Project>, results: Results)
  {
    /** The message shown for a failed optimization, empty on success, so a
        caller can test for failure by the message alone. */
    function ErrorMessage(): (m: string)
      ensures m == "" <==> Optimized?
    {
      match this
      case NoProjects => "No projects to optimize"
      case NoneEligible => "No projects meet the minimum skill match requirement"
      case Optimized(_, _, _) => ""
    }
  }

  /** Hours used as a percentage of the hours available, 0 when none are
      available. */
  function Utilization(totalHours: nat, availableHours: nat): (u: real)
    ensures availableHours == 0 ==> u == 0.0
    ensures availableHours > 0 ==> u * (availableHours as real) == (totalHours as real) * 100.0
    ensures totalHours <= availableHours ==> 0.0 <= u <= 100.0
  {
    if availableHours > 0 then
      var u := (totalHours as real / availableHours as real) * 100.0;
      assert u * (availableHours as real) == (totalHours as real) * 100.0;
      u
    else 0.0
  }

  /** The outcome for a chosen decision vector over the pool. */
  function Summarize(projects: seq<Project>, pool: seq<Project>, x: seq<bool>, availableHours: nat): (r: Outcome)
    requires Feasible(pool, x, availableHours)
    ensures r.Optimized? && r.decisions == x && r.selected == Pick(pool, x)
    ensures r.results.totalEarnings == Pay(Pick(pool, x))
    ensures r.results.totalHours == Hours(Pick(pool, x)) <= availableHours
    ensures r.results.availableHours == availableHours
    ensures r.results.hoursRemaining == availableHours - r.results.totalHours >= 0
    ensures r.results.projectsSelected == |Pick(pool, x)|
    ensures r.results.projectsAvailable == |projects|
    ensures r.results.utilization == Utilization(r.results.totalHours, availableHours)
    ensures 0.0 <= r.results.utilization <= 100.0
  {
    var selected := Pick(pool, x);
    var totalHours := Hours(selected);
    Optimized(x, selected, Results(
      totalEarnings := Pay(selected),
      totalHours := totalHours,
      availableHours := availableHours,
      hoursRemaining := availableHours - totalHours,
      projectsSelected := |selected|,
      projectsAvailable := |projects|,
      utilization := Utilization(totalHours, availableHours)))
  }

  /** The optimization of a project table for the hours available and the
      minimum skill match. */
  function OptimizeProjects(projects: seq<Project>, availableHours: nat, minSkillMatch: nat := 0): (r: Outcome)
    ensures r.NoProjects? <==> |projects| == 0
    ensures r.NoneEligible? <==>
            |projects| > 0 && forall i :: 0 <= i < |projects| ==> !Qualifies(projects[i], minSkillMatch)
    ensures r.Optimized? ==>
            Feasible(Eligible(projects, minSkillMatch), r.decisions, availableHours) &&
            r.selected == Pick(Eligible(projects, minSkillMatch), r.decisions)
    ensures r.Optimized? ==>
            r.results.totalEarnings == Pay(r.selected) &&
            r.results.totalHours == Hours(r.selected) &&
            r.results.totalHours <= availableHours &&
            r.results.availableHours == availableHours &&
            r.results.hoursRemaining == availableHours - r.results.totalHours >= 0 &&
            r.results.projectsSelected == |r.selected| &&
            r.results.projectsAvailable == |projects| &&
            r.results.utilization == Utilization(r.results.totalHours, availableHours) &&
            0.0 <= r.results.utilization <= 100.0
  {
    if |projects| == 0 then NoProjects
    else
      var pool := Eligible(projects, minSkillMatch);
      EligibleEmptyIff(projects, minSkillMatch);
      if |pool| == 0 then NoneEligible
      else Summarize(projects, pool, Select(pool, availableHours), availableHours)
  }

  /** The earnings of a successful optimization are at least those of every
      choice of eligible projects that fits the available hours. */
  lemma OptimizeProjectsIsOptimal(projects: seq<Project>, availableHours: nat, minSkillMatch: nat, x: seq<bool>)
    requires OptimizeProjects(projects, availableHours, minSkillMatch).Optimized?
    requires Feasible(Eligible(projects, minSkillMatch), x, availableHours)
    ensures Pay(Pick(Eligible(projects, minSkillMatch), x)) <=
            OptimizeProjects(projects, availableHours, minSkillMatch).results.totalEarnings
  {
    SelectIsOptimal(Eligible(projects, minSkillMatch), availableHours, x);
  }

  /** Every selected project is a row of the table that meets the threshold. */
  lemma SelectedAreEligible(projects: seq<Project>, availableHours: nat, minSkillMatch: nat)
    requires OptimizeProjects(projects, availableHours, minSkillMatch).Optimized?
    ensures var r := OptimizeProjects(projects, availableHours, minSkillMatch);
            forall p :: p in r.selected ==> p in projects && Qualifies(p, minSkillMatch)
  {
  }

  /** With the threshold fixed, more available hours never lower the optimal
      earnings. */
  lemma EarningsMonotoneInHours(projects: seq<Project>, availableHours: nat, more: nat, minSkillMatch: nat)
    requires availableHours <= more
    requires OptimizeProjects(projects, availableHours, minSkillMatch).Optimized?
    ensures OptimizeProjects(projects, availableHours, minSkillMatch).results.totalEarnings <=
            OptimizeProjects(projects, more, minSkillMatch).results.totalEarnings
  {
    MaxPayMonotone(Eligible(projects, minSkillMatch), availableHours, more);
  }

  /** The same optimization with the selection computed by the dynamic-
      programming table instead of the include/exclude recursion. */
  method OptimizeProjectsByTable(projects: seq<Project>, availableHours: nat, minSkillMatch: nat := 0) returns (r: Outcome)
    ensures r == OptimizeProjects(projects, availableHours, minSkillMatch)
  {
    if |projects| == 0 {
      return NoProjects;
    }
    var pool := Eligible(projects, minSkillMatch);
    if |pool| == 0 {
      return NoneEligible;
    }
    var x := SolveByTable(pool, availableHours);
    r := Summarize(projects, pool, x, availableHours);
  }

  /** The demonstration table of eight projects. */
  function SampleProjects(): (r: seq<Project>)
    ensures |r| == 8
    ensures forall i :: 0 <= i < |r| ==> r[i].hoursRequired >= 1 && r[i].skillMatch <= 100
  {
    [ Project("E-commerce Website Redesign", "TechStart Inc", 2500, 40, 14, 95),
      Project("Mobile App UI/UX Design", "HealthApp Co", 1800, 25, 10, 80),
      Project("Data Dashboard Development", "FinanceMetrics", 3200, 50, 21, 90),
      Project("API Integration Project", "RetailHub", 1500, 20, 7, 75),
      Project("Brand Identity Package", "GreenLeaf Studio", 800, 12, 5, 60),
      Project("SEO Optimization Campaign", "LocalBiz Group", 1200, 18, 14, 85),
      Project("Social Media Content Strategy", "FashionBrand", 600, 10, 7, 70),
      Project("WordPress Plugin Development", "BloggerPro", 2000, 30, 14, 88) ]
  }

  /** A threshold of 90 keeps exactly the projects scored 95 and 90, in order. */
  lemma SampleThreshold90()
    ensures Eligible(SampleProjects(), 90) == [SampleProjects()[0], SampleProjects()[2]]
  {
  }

  /** The first four sample projects with 80 hours: the best plan takes the
      second and third, earning 5000 in 75 hours. */
  lemma SampleFirstFour()
    ensures var r := OptimizeProjects(SampleProjects()[..4], 80, 0);
            r.Optimized? && r.decisions == [false, true, true, false] &&
            r.results.totalEarnings == 5000 && r.results.totalHours == 75 && r.results.hoursRemaining == 5
  {
    var ps := SampleProjects()[..4];
    assert |ps| == 4;
    assert ps[0].totalPay == 2500 && ps[0].hoursRequired == 40;
    assert ps[1].totalPay == 1800 && ps[1].hoursRequired == 25;
    assert ps[2].totalPay == 3200 && ps[2].hoursRequired == 50;
    assert ps[3].totalPay == 1500 && ps[3].hoursRequired == 20;
    AllQualifyKeepsAll(ps, 0);
    FourProjectPlan(ps);
    var r := OptimizeProjects(ps, 80, 0);
    assert r == Summarize(ps, ps, Select(ps, 80), 80);
  }

  /** The plan for four projects paying 2500, 1800, 3200 and 1500 for 40, 25,
      50 and 20 hours, with 80 hours available. */
  lemma FourProjectPlan(ps: seq<Project>)
    requires |ps| == 4
    requires ps[0].totalPay == 2500 && ps[0].hoursRequired == 40
    requires ps[1].totalPay == 1800 && ps[1].hoursRequired == 25
    requires ps[2].totalPay == 3200 && ps[2].hoursRequired == 50
    requires ps[3].totalPay == 1500 && ps[3].hoursRequired == 20
    ensures Select(ps, 80) == [false, true, true, false]
    ensures MaxPay(ps, 80) == 5000
    ensures Hours(Pick(ps, Select(ps, 80))) == 75
  {
    var bcd := ps[1..];
    ThreeProjectPlan(bcd);
    MaxPayStep(ps, 80);
    var x := Select(ps, 80);
    assert x == [false] + Select(bcd, 80);
    PickFirst(ps, x);
    assert x[1..] == Select(bcd, 80);
  }

  /** The last three of those projects, with 40 or 80 hours available. */
  lemma ThreeProjectPlan(bcd: seq<Project>)
    requires |bcd| == 3
    requires bcd[0].totalPay == 1800 && bcd[0].hoursRequired == 25
    requires bcd[1].totalPay == 3200 && bcd[1].hoursRequired == 50
    requires bcd[2].totalPay == 1500 && bcd[2].hoursRequired == 20
    ensures MaxPay(bcd, 40) == 1800 && MaxPay(bcd, 80) == 5000
    ensures Select(bcd, 80) == [true, true, false]
    ensures Hours(Pick(bcd, Select(bcd, 80))) == 75
  {
    var cd := bcd[1..];
    TwoProjectPlan(cd);
    MaxPayStep(bcd, 40);
    MaxPayStep(bcd, 80);
    var x := Select(bcd, 80);
    assert x == [true] + Select(cd, 55);
    PickFirst(bcd, x);
    assert x[1..] == Select(cd, 55);
  }

  /** The last two of those projects, at the hours the plans above reach. */
  lemma TwoProjectPlan(cd: seq<Project>)
    requires |cd| == 2
    requires cd[0].totalPay == 3200 && cd[0].hoursRequired == 50
    requires cd[1].totalPay == 1500 && cd[1].hoursRequired == 20
    ensures MaxPay(cd, 15) == 0 && MaxPay(cd, 40) == 1500
    ensures MaxPay(cd, 55) == 3200 && MaxPay(cd, 80) == 4700
    ensures Select(cd, 55) == [true, false]
    ensures Hours(Pick(cd, Select(cd, 55))) == 50
  {
    var d := cd[1..];
    OneProject(d, 5);
    OneProject(d, 15);
    OneProject(d, 30);
    OneProject(d, 40);
    OneProject(d, 55);
    OneProject(d, 80);
    MaxPayStep(cd, 15);
    MaxPayStep(cd, 40);
    MaxPayStep(cd, 55);
    MaxPayStep(cd, 80);
    var x := Select(cd, 55);
    assert x == [true] + Select(d, 5);
    PickFirst(cd, x);
    assert x[1..] == Select(d, 5);
    PickFirst(d, x[1..]);
  }

  /** A single project is taken exactly when it fits and pays something. */
  lemma OneProject(d: seq<Project>, cap: nat)
    requires |d| == 1
    ensures var takes := d[0].hoursRequired <= cap && d[0].totalPay > 0;
            Select(d, cap) == [takes] && MaxPay(d, cap) == (if takes then d[0].totalPay else 0)
  {
    assert d[1..] == [];
    MaxPayStep(d, cap);
  }
}
