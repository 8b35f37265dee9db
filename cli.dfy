/**
 * The planner's main loop: the plan is reviewed; an approved plan leaves
 * the loop, an unapproved one is refined with that same review, at most
 * `MAX_REFINEMENTS` times, after which the last review's issues are
 * reported. An approved plan then goes to the scaffold, executed or
 * previewed.
 */
module Cli {
  import opened Wrappers
  import opened Plans
  import opened Reviewer
  import opened Refiner
  import opened Scaffold

  const MAX_REFINEMENTS: nat := 2

  /** How the loop ends: the approved plan, or the issues of the last review; with the refinements made. */
  datatype LoopOutcome = Approved(plan: Plan, refinements: nat) | Rejected(issues: seq<string>, refinements: nat)

  // ---------------------------------------------------------------------
  // The loop over any review and refine steps. Its properties do not
  // depend on what the steps compute, so they are proved once here, with
  // the steps as parameters, and then read off for the planner's own.

  /** The plan after `n` refinements, each made with the review of the plan before it. */
  function IterateWith(review: Plan -> Verdict, refine: (Plan, Verdict) -> Plan, p: Plan, n: nat): Plan {
    if n == 0 then p
    else
      var q := IterateWith(review, refine, p, n - 1);
      refine(q, review(q))
  }

  /** The loop entered with `plan` after `attempt` refinements. */
  function LoopWith(review: Plan -> Verdict, refine: (Plan, Verdict) -> Plan, plan: Plan, attempt: nat): LoopOutcome
    decreases MAX_REFINEMENTS - attempt
  {
    var v := review(plan);
    if v.approved then Approved(plan, attempt)
    else if attempt >= MAX_REFINEMENTS then Rejected(v.issues, attempt)
    else LoopWith(review, refine, refine(plan, v), attempt + 1)
  }

  /**
   * The loop entered at attempt `k` with the `k`-th iterate stops at the
   * first approved iterate from `k` on, and otherwise gives up at
   * `MAX_REFINEMENTS` with that iterate's issues.
   */
  lemma {:induction false} LoopWithIterate(review: Plan -> Verdict, refine: (Plan, Verdict) -> Plan, p: Plan, k: nat)
    requires k <= MAX_REFINEMENTS
    ensures var o := LoopWith(review, refine, IterateWith(review, refine, p, k), k);
      k <= o.refinements <= MAX_REFINEMENTS &&
      (forall m :: k <= m < o.refinements ==> !review(IterateWith(review, refine, p, m)).approved) &&
      (o.Approved? ==> o.plan == IterateWith(review, refine, p, o.refinements) && review(o.plan).approved) &&
      (o.Rejected? ==>
        o.refinements == MAX_REFINEMENTS && !review(IterateWith(review, refine, p, MAX_REFINEMENTS)).approved &&
        o.issues == review(IterateWith(review, refine, p, MAX_REFINEMENTS)).issues)
    decreases MAX_REFINEMENTS - k
  {
    var q := IterateWith(review, refine, p, k);
    if !review(q).approved && k < MAX_REFINEMENTS {
      assert IterateWith(review, refine, p, k + 1) == refine(q, review(q));
      LoopWithIterate(review, refine, p, k + 1);
    }
  }

  /**
   * The loop approves the first of the iterates 0, 1, 2 that the review
   * approves, and rejects exactly when none of them is approved, with the
   * issues of the last.
   */
  lemma LoopWithSpec(review: Plan -> Verdict, refine: (Plan, Verdict) -> Plan, p: Plan)
    ensures var o := LoopWith(review, refine, p, 0);
      o.refinements <= MAX_REFINEMENTS &&
      (forall m :: 0 <= m < o.refinements ==> !review(IterateWith(review, refine, p, m)).approved) &&
      (o.Approved? ==> o.plan == IterateWith(review, refine, p, o.refinements) && review(o.plan).approved) &&
      (o.Rejected? <==> forall m :: 0 <= m <= MAX_REFINEMENTS ==> !review(IterateWith(review, refine, p, m)).approved) &&
      (o.Rejected? ==> o.refinements == MAX_REFINEMENTS && o.issues == review(IterateWith(review, refine, p, MAX_REFINEMENTS)).issues)
  {
    LoopWithIterate(review, refine, p, 0);
  }

  /** A property that every refinement keeps holds of every iterate. */
  lemma {:induction false} IterateWithKeeps(review: Plan -> Verdict, refine: (Plan, Verdict) -> Plan, keep: Plan -> bool, p: Plan, n: nat)
    requires keep(p)
    requires forall q :: keep(q) ==> keep(refine(q, review(q)))
    ensures keep(IterateWith(review, refine, p, n))
  {
    if n > 0 {
      IterateWithKeeps(review, refine, keep, p, n - 1);
    }
  }

  // ---------------------------------------------------------------------
  // The planner's loop.

  /** The plan after `n` refinements of the planner's own. */
  function Iterate(p: Plan, n: nat): Plan {
    IterateWith(Review, Refine, p, n)
  }

  /** `main`'s loop entered with `plan` after `attempt` refinements. */
  function LoopFrom(plan: Plan, attempt: nat): LoopOutcome {
    LoopWith(Review, Refine, plan, attempt)
  }

  /**
   * The `while True` loop of `main`. `reviews` counts the calls of
   * `review_plan`; the calls of `refine_plan` are `outcome.refinements`.
   */
  method ReviewRefineLoop(p: Plan) returns (outcome: LoopOutcome, ghost reviews: nat)
    ensures outcome == LoopFrom(p, 0)
    ensures reviews == outcome.refinements + 1 && outcome.refinements <= MAX_REFINEMENTS
  {
    var plan := p;
    var attempt: nat := 0;
    reviews := 0;
    while true
      invariant attempt <= MAX_REFINEMENTS && reviews == attempt
      invariant LoopFrom(plan, attempt) == LoopFrom(p, 0)
      decreases MAX_REFINEMENTS - attempt
    {
      var review := ReviewPlan(plan);
      reviews := reviews + 1;
      LoopTurn(plan, attempt);
      if review.approved {
        return Approved(plan, attempt), reviews;
      }
      if attempt >= MAX_REFINEMENTS {
        return Rejected(review.issues, attempt), reviews;
      }
      plan := RefinePlan(plan, review);
      attempt := attempt + 1;
    }
  }

  /** One turn of the loop: stop on approval, give up at the limit, or refine with the same review. */
  lemma LoopTurn(plan: Plan, attempt: nat)
    ensures var v := Review(plan);
      LoopFrom(plan, attempt) ==
        if v.approved then Approved(plan, attempt)
        else if attempt >= MAX_REFINEMENTS then Rejected(v.issues, attempt)
        else LoopFrom(Refine(plan, v), attempt + 1)
  {
  }

  /**
   * `main`'s loop approves the first of the plan and its two refinements
   * that the review approves, and rejects exactly when none is approved,
   * reporting the issues of the last.
   */
  lemma LoopOutcomeSpec(p: Plan)
    ensures var o := LoopFrom(p, 0);
      o.refinements <= MAX_REFINEMENTS &&
      (forall m :: 0 <= m < o.refinements ==> !Review(Iterate(p, m)).approved) &&
      (o.Approved? ==> o.plan == Iterate(p, o.refinements) && Review(o.plan).approved) &&
      (o.Rejected? <==> forall m :: 0 <= m <= MAX_REFINEMENTS ==> !Review(Iterate(p, m)).approved) &&
      (o.Rejected? ==> o.refinements == MAX_REFINEMENTS && o.issues == Review(Iterate(p, MAX_REFINEMENTS)).issues)
  {
    LoopWithSpec(Review, Refine, p);
    if LoopFrom(p, 0).Rejected? {
      forall m | 0 <= m <= MAX_REFINEMENTS
        ensures !Review(Iterate(p, m)).approved
      {
        assert !Review(IterateWith(Review, Refine, p, m)).approved;
      }
    }
  }

  /** Refinement never removes a vague title or description, so no iterate of a vague plan is vague-free. */
  lemma IterateStaysVague(p: Plan, n: nat)
    requires !VagueFree(p.milestones)
    ensures !VagueFree(Iterate(p, n).milestones)
  {
    var vague := (q: Plan) => !VagueFree(q.milestones);
    forall q | vague(q)
      ensures vague(Refine(q, Review(q)))
    {
      RefineKeepsVagueness(q, Review(q));
    }
    IterateWithKeeps(Review, Refine, vague, p, n);
  }

  /**
   * A plan with a vague milestone title or task description is never
   * approved: it is reviewed three times, refined twice and rejected with
   * the last review's issues.
   */
  lemma VaguePlanRejected(p: Plan)
    requires !VagueFree(p.milestones)
    ensures LoopFrom(p, 0) == Rejected(Review(Iterate(p, MAX_REFINEMENTS)).issues, MAX_REFINEMENTS)
  {
    forall m: nat | m <= MAX_REFINEMENTS
      ensures !Review(Iterate(p, m)).approved
    {
      IterateStaysVague(p, m);
      ApprovedIff(Iterate(p, m));
    }
    LoopOutcomeSpec(p);
  }

  /**
   * `main` from the review loop on: a rejected plan stops before the
   * scaffold, and an approved one is scaffolded with `execute` set exactly
   * when `--execute` was given.
   */
  method RunPlanner(fs: FileSystem, p: Plan, execute: bool, fault: Option<nat>)
    returns (outcome: LoopOutcome, artifacts: Option<seq<string>>, result: Option<Execution>)
    modifies fs
    ensures outcome == LoopFrom(p, 0)
    ensures outcome.Rejected? ==> artifacts == None && result == None && fs.State() == old(fs.State())
    ensures outcome.Approved? ==> artifacts == Some(outcome.plan.artifacts)
    ensures outcome.Approved? && !execute ==> result == None && fs.State() == old(fs.State())
    ensures outcome.Approved? && execute ==>
      result.Some? && Run(fs.State(), result.value) == ExecuteSpec(old(fs.State()), outcome.plan.artifacts, fault)
  {
    ghost var reviews;
    outcome, reviews := ReviewRefineLoop(p);
    if outcome.Rejected? {
      return outcome, None, None;
    }
    var arts;
    if execute {
      arts, result := GenerateScaffold(fs, outcome.plan, true, fault);
    } else {
      arts, result := GenerateScaffold(fs, outcome.plan, false, fault);
    }
    artifacts := Some(arts);
  }
}
