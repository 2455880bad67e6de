/** How far a book may shrink in one run before the run refuses to write. */
module ShrinkGuard {

  type Percent = r: real | r >= 0.0

  /** The three environment overrides, read afresh by every run. */
  datatype Settings = Settings(allowShrink: bool, maxShrinkPct: Percent, minShrinkRows: nat)

  const DEFAULT_MAX_SHRINK_PCT: Percent := 25.0
  const DEFAULT_MIN_SHRINK_ROWS: nat := 2
  const DEFAULTS := Settings(false, DEFAULT_MAX_SHRINK_PCT, DEFAULT_MIN_SHRINK_ROWS)

  /** shrinkAllowance */
  function Allowance(before: nat, s: Settings): int {
    var byPct := (before as real * s.maxShrinkPct / 100.0).Floor;
    if byPct < s.minShrinkRows then s.minShrinkRows else byPct
  }

  lemma DefaultAllowance(before: nat)
    ensures Allowance(before, DEFAULTS) == if before / 4 < 2 then 2 else before / 4
  {
    var q := before / 4;
    var x := before as real * 25.0 / 100.0;
    assert x == before as real / 4.0;
    assert q as real <= x < (q + 1) as real;
  }

  /** A drop the thresholds do not allow: above the row floor and above the percentage. */
  predicate TooFar(before: nat, after: nat, s: Settings) {
    && after < before
    && before - after > s.minShrinkRows
    && (before - after) as real * 100.0 > before as real * s.maxShrinkPct
  }

  /** The allowance cuts exactly there: rounding the percentage down to whole rows loses nothing. */
  lemma AllowanceExact(before: nat, after: nat, s: Settings)
    requires after < before
    ensures before - after > Allowance(before, s) <==> TooFar(before, after, s)
  {
    var drop := before - after;
    var share := before as real * s.maxShrinkPct / 100.0;
    assert drop > share.Floor <==> drop as real > share;
    assert drop as real > share <==> drop as real * 100.0 > before as real * s.maxShrinkPct;
  }

  lemma GrowthIsNear(before: nat, after: nat, s: Settings)
    requires after >= before
    ensures !TooFar(before, after, s)
  {
  }

  /** Under the defaults, in whole rows. */
  lemma DefaultTooFar(before: nat, after: nat)
    ensures TooFar(before, after, DEFAULTS) <==> after + 2 < before && 4 * after < 3 * before
  {
    assert after < before ==> ((before - after) as real * 100.0 > before as real * 25.0 <==> 4 * (before - after) > before);
  }
}
