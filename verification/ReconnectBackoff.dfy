// The delay before the next connection attempt (packages/core/api/ws-client.ts): exponential
// with a cap, then twenty percent of jitter either way. `random` is Math.random().
module ReconnectBackoff {

  const RECONNECT_BASE_DELAY_MS: nat := 1000
  const RECONNECT_MAX_DELAY_MS: nat := 30000

  function Pow2(n: nat): (p: nat)
    ensures p >= 1
  {
    if n == 0 then 1 else 2 * Pow2(n - 1)
  }

  function Min(a: int, b: int): int { if a < b then a else b }

  function BaseDelay(attempt: nat): (base: nat) {
    Min(RECONNECT_BASE_DELAY_MS * Pow2(attempt), RECONNECT_MAX_DELAY_MS)
  }

  // Math.round
  function Round(x: real): int { (x + 0.5).Floor }

  function Delay(attempt: nat, random: real): int {
    var base := BaseDelay(attempt) as real;
    var jitter := base * 0.2 * (random * 2.0 - 1.0);
    var cap := RECONNECT_MAX_DELAY_MS as real;
    Round(if base + jitter < cap then base + jitter else cap)
  }

  lemma BaseDelayStages(attempt: nat)
    ensures BaseDelay(attempt) ==
      if attempt == 0 then 1000 else if attempt == 1 then 2000 else if attempt == 2 then 4000
      else if attempt == 3 then 8000 else if attempt == 4 then 16000 else 30000
  {
    if attempt >= 5 { Pow2AtLeast32(attempt); }
    else {
      assert Pow2(1) == 2 && Pow2(2) == 4 && Pow2(3) == 8 && Pow2(4) == 16;
    }
  }

  lemma {:induction false} Pow2AtLeast32(n: nat)
    requires n >= 5
    ensures Pow2(n) >= 32
  {
    if n == 5 {
      assert Pow2(1) == 2 && Pow2(2) == 4 && Pow2(3) == 8 && Pow2(4) == 16;
    } else {
      Pow2AtLeast32(n - 1);
    }
  }

  // Every delay lies within twenty percent of its base and never above the cap.
  lemma DelayBounds(attempt: nat, random: real)
    requires 0.0 <= random < 1.0
    ensures 8 * BaseDelay(attempt) <= 10 * Delay(attempt, random)
    ensures 10 * Delay(attempt, random) <= 12 * BaseDelay(attempt)
    ensures Delay(attempt, random) <= RECONNECT_MAX_DELAY_MS
  {
    BaseDelayStages(attempt);
    var base := BaseDelay(attempt) as real;
    var jitter := base * 0.2 * (random * 2.0 - 1.0);
    assert -0.2 * base <= jitter <= 0.2 * base;
  }

  // The jitter never undoes the growth: until the cap a later attempt always waits longer,
  // whatever the two random draws, and from the cap on every wait is at least 24 seconds.
  lemma DelayGrows(attempt: nat, random: real, later: nat, random': real)
    requires 0.0 <= random < 1.0 && 0.0 <= random' < 1.0 && attempt < later
    ensures attempt < 5 ==> Delay(attempt, random) < Delay(later, random')
    ensures later >= 5 ==> 24000 <= Delay(later, random') <= 30000
  {
    BaseDelayStages(attempt);
    BaseDelayStages(later);
    DelayBounds(attempt, random);
    DelayBounds(later, random');
  }


  // The delay in numbers: the base doubles from one second to sixteen and stays at thirty; the
  // draw takes it evenly from four fifths of the base to six fifths, rounded, and thirty seconds
  // cap it.
  lemma DelayInNumbers(attempt: nat, random: real)
    requires 0.0 <= random < 1.0
    ensures var base :=
        if attempt == 0 then 1000.0 else if attempt == 1 then 2000.0 else if attempt == 2 then 4000.0
        else if attempt == 3 then 8000.0 else if attempt == 4 then 16000.0 else 30000.0;
      var exact := base * (0.8 + 0.4 * random);
      if exact >= 30000.0 then Delay(attempt, random) == 30000
      else exact - 0.5 <= Delay(attempt, random) as real <= exact + 0.5
  {
    BaseDelayStages(attempt);
  }
}
