/** The completion percentage the progress route reports for a job. */
module Percent {

  /** `total > 0 ? Math.round(processed / total * 100) : 0`, computed exactly: the
      integer nearest to 100 * processed / total, a half rounded up. */
  function Percentage(processed: nat, total: nat): (r: nat)
    ensures total == 0 ==> r == 0
    ensures total > 0 ==> 2 * total * r <= 200 * processed + total < 2 * total * (r + 1)
  {
    if total > 0 then (200 * processed + total) / (2 * total) else 0
  }

  lemma MulLeft(a: nat, b: nat, c: nat)
    requires a <= b
    ensures c * a <= c * b
  {
  }

  /** Never more than 100 while no more files are processed than submitted. */
  lemma PercentageAtMost100(processed: nat, total: nat)
    requires processed <= total
    ensures Percentage(processed, total) <= 100
  {
    var r := Percentage(processed, total);
    if total > 0 && r > 100 {
      MulLeft(101, r, 2 * total);
      assert false;
    }
  }

  /** Exactly 100 once at least 99.5% of the files are processed. */
  lemma PercentageIs100Iff(processed: nat, total: nat)
    requires processed <= total && total > 0
    ensures Percentage(processed, total) == 100 <==> 200 * processed >= 199 * total
  {
    var r := Percentage(processed, total);
    PercentageAtMost100(processed, total);
    if r <= 99 {
      MulLeft(r + 1, 100, 2 * total);
    } else {
      MulLeft(100, r, 2 * total);
    }
  }

  /** With fewer than 200 files, 100 means every file is processed. */
  lemma PercentageIs100IffDone(processed: nat, total: nat)
    requires processed <= total && 0 < total < 200
    ensures Percentage(processed, total) == 100 <==> processed == total
  {
    PercentageIs100Iff(processed, total);
  }

  /** From 200 files on, 100 can be reported while a file is still outstanding. */
  lemma PercentageRoundsUpToFull()
    ensures Percentage(199, 200) == 100
  {
  }

  /** Zero exactly while less than half a percent of the files is processed. */
  lemma PercentageIsZeroIff(processed: nat, total: nat)
    requires total > 0
    ensures Percentage(processed, total) == 0 <==> 200 * processed < total
  {
    var r := Percentage(processed, total);
    if r >= 1 {
      MulLeft(1, r, 2 * total);
    }
  }

  /** Processing more files never lowers the percentage. */
  lemma PercentageMonotone(p1: nat, p2: nat, total: nat)
    requires p1 <= p2
    ensures Percentage(p1, total) <= Percentage(p2, total)
  {
    var r1, r2 := Percentage(p1, total), Percentage(p2, total);
    if total > 0 && r1 > r2 {
      MulLeft(r2 + 1, r1, 2 * total);
      assert false;
    }
  }
}
