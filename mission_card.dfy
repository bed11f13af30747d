/** A mission tile (src/components/MissionCard.jsx): completion, the progress-bar percentage and
    when the Claim button shows. Progress and total are JavaScript numbers, here exact reals; a
    zero total gives the non-finite results of floating-point division. */
module MissionCard {

  /** The width of the progress bar in percent, including the non-finite values `Math.min`
      passes through when the total is 0. */
  datatype Percent = Finite(value: real) | NotANumber | MinusInfinity

  /** `progress >= total`. */
  predicate IsComplete(progress: real, total: real) {
    progress >= total
  }

  /** `Math.min((progress / total) * 100, 100)`. A zero total divides to +Infinity (clamped to
      100), NaN (0 / 0) or -Infinity. */
  function PercentOf(progress: real, total: real): (p: Percent)
    ensures p.Finite? ==> p.value <= 100.0
    ensures total != 0.0 ==> p.Finite?
    ensures total == 0.0 ==> (p == Finite(100.0) <==> progress > 0.0)
                             && (p == NotANumber <==> progress == 0.0)
  {
    if total == 0.0 then
      if progress > 0.0 then Finite(100.0)
      else if progress == 0.0 then NotANumber
      else MinusInfinity
    else
      var v := (progress / total) * 100.0;
      Finite(if v < 100.0 then v else 100.0)
  }

  /** The Claim button shows exactly for a complete mission. */
  predicate ShowsClaim(progress: real, total: real) {
    IsComplete(progress, total)
  }

  /** For a positive total: the bar is full exactly when the mission is complete (so the Claim
      button shows exactly then), and below the total it is `progress / total * 100`. */
  lemma PercentPositiveTotal(progress: real, total: real)
    requires total > 0.0
    ensures ShowsClaim(progress, total) <==> PercentOf(progress, total) == Finite(100.0)
    ensures progress < total ==> PercentOf(progress, total) == Finite(progress / total * 100.0)
    ensures 0.0 <= progress ==> 0.0 <= PercentOf(progress, total).value
  {
    var q := progress / total;
    assert q * total == progress;
    if q < 1.0 {
      assert q * total < 1.0 * total;
    } else {
      assert q * total >= 1.0 * total;
    }
    if 0.0 <= progress {
      assert q >= 0.0;
    }
  }

  /** A mission with nothing to do counts as complete, yet its bar width is NaN. */
  lemma ZeroTotalMission()
    ensures ShowsClaim(0.0, 0.0) && PercentOf(0.0, 0.0) == NotANumber
  {
  }
}
