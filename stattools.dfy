/**
 * pval_to_star: the significance label drawn above a comparison and the
 * font size it is drawn with.  The statistical test itself (a Wilcoxon
 * test in scipy) is an input: only its p-value is read.
 */
module StatTools {

  /** A statistical test result; pval_to_star reads its pvalue attribute only. */
  datatype TestResult = TestResult(statistic: real, pvalue: real)

  /** The label and the size returned by pval_to_star. */
  datatype Star = Star(marks: string, size: int)

  /**
   * pval_to_star (lines 24-35): '***', '**' and '*' below 1e-3, 1e-2 and
   * 0.05, each one size larger; 'n.s.' at the size given otherwise.  The
   * pvalue keyword is accepted and never read.
   */
  function PvalToStar(test: TestResult, pvalue: real, size: int): (r: Star)
    ensures r.marks == "n.s." <==> test.pvalue >= 0.05
    ensures r.size == if test.pvalue < 0.05 then size + 1 else size
  {
    if test.pvalue < 0.001 then Star("***", size + 1)
    else if test.pvalue < 0.01 then Star("**", size + 1)
    else if test.pvalue < 0.05 then Star("*", size + 1)
    else Star("n.s.", size)
  }

  /** The number of '*' characters of a label. */
  function Stars(marks: string): (n: nat)
    ensures n <= |marks|
  {
    if marks == [] then 0 else Stars(marks[1..]) + if marks[0] == '*' then 1 else 0
  }

  /** The number of significance thresholds (1e-3, 1e-2, 0.05) the p-value lies below. */
  function ThresholdsPassed(p: real): nat
  {
    (if p < 0.001 then 1 else 0) + (if p < 0.01 then 1 else 0) + (if p < 0.05 then 1 else 0)
  }

  /** The label carries one star per threshold the p-value lies below. */
  lemma {:induction false} StarsCountThresholds(test: TestResult, pvalue: real, size: int)
    ensures Stars(PvalToStar(test, pvalue, size).marks) == ThresholdsPassed(test.pvalue)
  {
    assert Stars("***") == 3 by {
      assert "***"[1..] == "**" && "**"[1..] == "*" && "*"[1..] == "";
    }
    assert Stars("n.s.") == 0 by {
      assert "n.s."[1..] == ".s." && ".s."[1..] == "s." && "s."[1..] == "." && "."[1..] == "";
    }
  }

  /** A smaller p-value never earns fewer stars. */
  lemma {:induction false} StarsMonotone(t1: TestResult, t2: TestResult, pvalue: real, size: int)
    requires t1.pvalue <= t2.pvalue
    ensures Stars(PvalToStar(t2, pvalue, size).marks) <= Stars(PvalToStar(t1, pvalue, size).marks)
  {
    StarsCountThresholds(t1, pvalue, size);
    StarsCountThresholds(t2, pvalue, size);
  }

  /** Only the test's p-value decides: the pvalue keyword changes nothing. */
  lemma {:induction false} PvalueKeywordIgnored(test: TestResult, p1: real, p2: real, size: int)
    ensures PvalToStar(test, p1, size) == PvalToStar(test, p2, size)
  {
  }
}
