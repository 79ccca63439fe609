/**
 * `GET /api/portfolio/status` (app/api/portfolio/status/route.ts): the stored portfolio of
 * the signed-in user with its generation progress as a rounded percentage.
 */
module PortfolioStatus {
  import opened Wrappers
  import opened Http

  /** One entry of `portfolio.sections`: its key and its stored status. */
  datatype Section = Section(name: string, status: string)

  /** The stored portfolio document (types/portfolio.ts). */
  datatype Portfolio = Portfolio(userId: string, status: string, sections: seq<Section>)

  /** The body of a successful answer; `progress` is None where the float result is NaN. */
  datatype StatusBody = StatusBody(status: string, sections: seq<Section>, progress: Option<int>, data: Portfolio)

  const Completed := "completed"

  /** The number of sections whose status is exactly `completed`. */
  function CompletedCount(sections: seq<Section>): (c: nat)
    ensures c <= |sections|
    ensures c == 0 <==> forall i :: 0 <= i < |sections| ==> sections[i].status != Completed
    ensures c == |sections| <==> forall i :: 0 <= i < |sections| ==> sections[i].status == Completed
  {
    if sections == [] then 0
    else (if sections[0].status == Completed then 1 else 0) + CompletedCount(sections[1..])
  }

  /**
   * `Math.round(completed / total * 100)` in exact arithmetic: rounding half up is
   * `floor(100c/t + 1/2)`, which is `(200c + t) / (2t)`. With no sections the float
   * result is NaN, which is None here.
   */
  function Progress(completed: nat, total: nat): (p: Option<int>)
    ensures p.None? <==> total == 0
  {
    if total == 0 then None else Some((200 * completed + total) / (2 * total))
  }

  /** `PortfolioService.findOne({ userId })`: the first stored portfolio of that user. */
  function FindPortfolio(portfolios: seq<Portfolio>, userId: string): (r: Option<Portfolio>)
    ensures r.Some? ==> r.value in portfolios && r.value.userId == userId
    ensures r.None? <==> forall i :: 0 <= i < |portfolios| ==> portfolios[i].userId != userId
  {
    if portfolios == [] then None
    else if portfolios[0].userId == userId then Some(portfolios[0])
    else FindPortfolio(portfolios[1..], userId)
  }

  /** The handler; `authUserId` is the id of the authenticated user, if any. */
  function GetStatus(authUserId: Option<string>, portfolios: seq<Portfolio>): Response<StatusBody> {
    if authUserId.None? then Error(401, "Unauthorized")
    else
      var found := FindPortfolio(portfolios, authUserId.value);
      if found.None? then Error(404, "Portfolio not found")
      else
        var p := found.value;
        Json(StatusBody(p.status, p.sections, Progress(CompletedCount(p.sections), |p.sections|), p))
  }

  // ----- properties of the percentage -----

  /** The result is the rounded-half-up percentage: `v - 1/2 <= 100c/t < v + 1/2`. */
  lemma ProgressIsRoundedPercentage(c: nat, t: nat)
    requires t > 0
    ensures Progress(c, t).Some?
    ensures var v := Progress(c, t).value;
      2 * t * v <= 200 * c + t < 2 * t * (v + 1)
  {
    var v := Progress(c, t).value;
    var d := 200 * c + t;
    assert v == d / (2 * t);
    assert d == 2 * t * (d / (2 * t)) + d % (2 * t);
  }

  /** With at most all sections completed, progress lies in 0..100. */
  lemma ProgressBounds(c: nat, t: nat)
    requires 0 < t && c <= t
    ensures 0 <= Progress(c, t).value <= 100
  {
    ProgressIsRoundedPercentage(c, t);
    var v := Progress(c, t).value;
    if v > 100 {
      assert 2 * t * v >= 2 * t * 101 by { MulMonotone(2 * t, 101, v); }
      assert false;
    }
  }

  lemma MulMonotone(k: nat, a: int, b: int)
    requires a <= b
    ensures k * a <= k * b
  {
  }

  /** More completed sections never give a lower percentage. */
  lemma ProgressMonotone(c1: nat, c2: nat, t: nat)
    requires 0 < t && c1 <= c2
    ensures Progress(c1, t).value <= Progress(c2, t).value
  {
    ProgressIsRoundedPercentage(c1, t);
    ProgressIsRoundedPercentage(c2, t);
    var v1 := Progress(c1, t).value;
    var v2 := Progress(c2, t).value;
    if v1 > v2 {
      assert 2 * t * v1 >= 2 * t * (v2 + 1) by { MulMonotone(2 * t, v2 + 1, v1); }
      assert false;
    }
  }

  /** Up to 200 sections, progress is 0 exactly when nothing is completed. */
  lemma ProgressZeroIff(c: nat, t: nat)
    requires 0 < t <= 200 && c <= t
    ensures Progress(c, t).value == 0 <==> c == 0
  {
    ProgressIsRoundedPercentage(c, t);
    var v := Progress(c, t).value;
    if c >= 1 {
      MulMonotone(200, 1, c);
      MulLessCancel(2 * t, 1, v + 1);
    } else {
      MulLessCancel(2 * t, v, 1);
    }
  }

  /** Below 200 sections, progress is 100 exactly when every section is completed. */
  lemma ProgressFullIff(c: nat, t: nat)
    requires 0 < t < 200 && c <= t
    ensures Progress(c, t).value == 100 <==> c == t
  {
    ProgressIsRoundedPercentage(c, t);
    var v := Progress(c, t).value;
    if c < t {
      MulMonotone(200, c, t - 1);
      MulLessCancel(2 * t, v, 100);
    } else {
      MulLessCancel(2 * t, v, 101);
      MulLessCancel(2 * t, 100, v + 1);
    }
  }

  lemma MulLessCancel(k: nat, a: int, b: int)
    requires k * a < k * b
    ensures a < b
  {
    if a >= b {
      MulMonotone(k, b, a);
    }
  }

  /**
   * The equivalences stop at those bounds: 1 of 201 rounds to 0 and 199 of 200 to 100,
   * so with many sections the endpoints are reached early.
   */
  lemma ProgressEquivalencesNeedFewSections()
    ensures Progress(1, 201) == Some(0)
    ensures Progress(199, 200) == Some(100)
  {
  }

  /** The four sections of a portfolio give the steps 0, 25, 50, 75 and 100. */
  lemma FourSectionSteps()
    ensures Progress(0, 4) == Some(0) && Progress(1, 4) == Some(25) && Progress(2, 4) == Some(50)
    ensures Progress(3, 4) == Some(75) && Progress(4, 4) == Some(100)
  {
  }

  // ----- properties of the count and the handler -----

  function Complete(sections: seq<Section>, k: nat): seq<Section>
    requires k < |sections|
  {
    sections[k := sections[k].(status := Completed)]
  }

  /** Marking one section completed raises the count by one, unless it already was. */
  lemma {:induction false} CompleteCounts(sections: seq<Section>, k: nat)
    requires k < |sections|
    ensures CompletedCount(Complete(sections, k)) ==
      CompletedCount(sections) + (if sections[k].status == Completed then 0 else 1)
    decreases k
  {
    var s' := Complete(sections, k);
    if k > 0 {
      assert s'[1..] == Complete(sections[1..], k - 1);
      CompleteCounts(sections[1..], k - 1);
    } else {
      assert s'[1..] == sections[1..];
    }
  }

  /** Completing one more section never decreases the reported progress. */
  lemma CompletingNeverLowersProgress(sections: seq<Section>, k: nat)
    requires k < |sections|
    ensures |Complete(sections, k)| == |sections|
    ensures Progress(CompletedCount(sections), |sections|).value
         <= Progress(CompletedCount(Complete(sections, k)), |sections|).value
  {
    CompleteCounts(sections, k);
    ProgressMonotone(CompletedCount(sections), CompletedCount(Complete(sections, k)), |sections|);
  }

  /**
   * 401 without a user, 404 without a portfolio of theirs; otherwise the first such
   * portfolio with its status, sections and the rounded percentage of its completed
   * sections, which lies in 0..100.
   */
  lemma StatusOutcomes(authUserId: Option<string>, portfolios: seq<Portfolio>)
    ensures authUserId.None? ==> GetStatus(authUserId, portfolios) == Error(401, "Unauthorized")
    ensures authUserId.Some? && (forall i :: 0 <= i < |portfolios| ==> portfolios[i].userId != authUserId.value)
      ==> GetStatus(authUserId, portfolios) == Error(404, "Portfolio not found")
    ensures GetStatus(authUserId, portfolios).Json? ==>
      var b := GetStatus(authUserId, portfolios).body;
      && b.data in portfolios && b.data.userId == authUserId.value
      && b.data == FindPortfolio(portfolios, authUserId.value).value
      && b.status == b.data.status && b.sections == b.data.sections
      && b.progress == Progress(CompletedCount(b.sections), |b.sections|)
      && (b.sections == [] <==> b.progress.None?)
      && (b.progress.Some? ==> 0 <= b.progress.value <= 100)
  {
    if authUserId.Some? {
      var found := FindPortfolio(portfolios, authUserId.value);
      if found.Some? && found.value.sections != [] {
        ProgressBounds(CompletedCount(found.value.sections), |found.value.sections|);
      }
    }
  }
}
