/** Waiting a number of memory clocks with the nested idle loop of the
    instruction ROM. */
module DelayLoop {

  const LIMIT: nat := 0x1_0000_0000

  /** The instruction at IDLE_LOOP1: jump back while the counter is not zero,
      test first and decrement after. Counts how often it executes. */
  method IdleLoop1(cntr1: nat) returns (steps: nat)
    ensures steps == cntr1 + 1
  {
    steps := 1;
    var n: nat := cntr1;
    while n != 0
      invariant n <= cntr1 && steps == cntr1 - n + 1
      decreases n
    {
      n := n - 1;
      steps := steps + 1;
    }
  }

  /** IDLE_LOOP2 within IDLE_LOOP1: the inner counter reloads each time. */
  method IdleLoop2(cntr0: nat, cntr1: nat) returns (steps: nat)
    ensures steps == (cntr1 + 1) * (cntr0 + 1)
  {
    steps := IdleLoop1(cntr0);
    var n: nat := 0;
    while n != cntr1
      invariant n <= cntr1 && steps == (n + 1) * (cntr0 + 1)
      decreases cntr1 - n
    {
      var more := IdleLoop1(cntr0);
      n := n + 1;
      steps := steps + more;
    }
  }

  /** Clocks in 32 bits, rounded up to the slower AFI clock. */
  function AfiClocks(clocks: nat, ratio: nat): nat
    requires ratio > 0
  {
    (clocks + ratio - 1) % LIMIT / ratio
  }

  /** The counters for a number of AFI clocks: 8, 8 and 16 bits wide. */
  method Counters(afi: nat) returns (inner: nat, outer: nat, cLoop: nat)
    requires afi < LIMIT
    ensures inner <= 0xff && outer <= 0xff && cLoop <= 0xffff
    ensures afi <= 0x100 ==> inner == (if afi == 0 then 0 else afi - 1) && outer == cLoop == 0
    ensures 0x100 < afi <= 0x1_0000 ==> cLoop == 0
    ensures afi > 0x100 ==> (cLoop + 1) * (outer + 1) * (inner + 1) >= afi
    ensures 0x100 < afi <= 0x1_0000 ==> (outer + 1) * (inner + 1) < afi + 0x100
    ensures afi > 0x1_0000 ==> inner == outer == 0xff && (cLoop + 1) * 0x1_0000 < afi + 0x1_0000
  {
    if afi == 0 {
      inner, outer, cLoop := 0, 0, 0;
    } else if afi <= 0x100 {
      inner, outer, cLoop := afi - 1, 0, 0;
    } else if afi <= 0x1_0000 {
      inner, outer, cLoop := 0xff, (afi - 1) / 0x100, 0;
    } else {
      inner, outer, cLoop := 0xff, 0xff, (afi - 1) / 0x1_0000;
    }
  }

  /** How long the loop may run for a number of AFI clocks: exactly, up to 256;
      less than one round of the inner counter too long, up to 65536; less than
      one run of the ROM loop too long above. */
  predicate WithinLoop(afi: nat, steps: nat) {
    if afi <= 0x100 then steps == (if afi == 0 then 1 else afi)
    else afi <= steps < afi + if afi <= 0x1_0000 then 0x100 else 0x1_0000
  }

  method DelayForMemClocks(clocks: nat, ratio: nat) returns (steps: nat)
    requires clocks < LIMIT && ratio > 0
    ensures WithinLoop(AfiClocks(clocks, ratio), steps)
    ensures clocks == 0 && ratio <= 0x1_0000_0000 ==> steps == 1
    ensures 0 < clocks && clocks + ratio - 1 < 0x1_0000_0000 ==>
              var n := (clocks + ratio - 1) / ratio;
              && n <= steps && (n <= 256 ==> steps == n) && (n <= 65536 ==> steps < n + 256) && steps < n + 65536
  {
    LoopInFull(clocks, ratio);
    var afi := AfiClocks(clocks, ratio);
    AfiFits(clocks, ratio);
    var inner, outer, cLoop := Counters(afi);
    if afi <= 0x100 {
      steps := IdleLoop1(inner);
    } else {
      steps := IdleLoop2(inner, outer);
      if afi > 0x1_0000 {
        var n: nat := cLoop;
        while n != 0
          invariant n <= cLoop && steps == (cLoop - n + 1) * 0x1_0000
          decreases n
        {
          var more := IdleLoop2(inner, outer);
          n := n - 1;
          steps := steps + more;
        }
      }
    }
  }

  /** The AFI clocks are the memory clocks over the ratio, rounded up, at least one for
      any clocks at all. */
  lemma LoopInFull(clocks: nat, ratio: nat)
    requires clocks < LIMIT && ratio > 0
    ensures clocks == 0 && ratio <= LIMIT ==> AfiClocks(clocks, ratio) == 0
    ensures 0 < clocks && clocks + ratio - 1 < 0x1_0000_0000 ==>
              AfiClocks(clocks, ratio) == (clocks + ratio - 1) / ratio > 0
  {
    if 0 < clocks && clocks + ratio - 1 < 0x1_0000_0000 {
      Unwrapped(clocks + ratio - 1);
      RoundsUp(clocks, ratio);
    } else if clocks == 0 && ratio <= LIMIT {
      Unwrapped(ratio - 1);
      DivBounds(ratio - 1, ratio);
      BelowIsZero(ratio - 1, ratio);
    }
  }

  lemma BelowIsZero(a: nat, b: nat)
    requires a < b
    ensures a / b == 0
  {
  }

  lemma AfiFits(clocks: nat, ratio: nat)
    requires ratio > 0
    ensures AfiClocks(clocks, ratio) < LIMIT
  {
    DivBounds((clocks + ratio - 1) % LIMIT, ratio);
  }

  lemma DivBounds(a: nat, b: nat)
    requires b > 0
    ensures a / b * b <= a < a / b * b + b && a / b <= a
  {
    var q := a / b;
    assert a == q * b + a % b;
    Mul(1, b, q);
  }

  lemma Unwrapped(x: nat)
    requires x < LIMIT
    ensures x % LIMIT == x
  {
  }

  lemma RoundsUp(clocks: nat, ratio: nat)
    requires ratio > 0 && clocks + ratio - 1 < LIMIT
    ensures AfiClocks(clocks, ratio) * ratio >= clocks
  {
    var sum := clocks + ratio - 1;
    var afi := AfiClocks(clocks, ratio);
    assert afi == sum / ratio by {
      Unwrapped(sum);
    }
    assert afi * ratio + ratio > sum by {
      DivBounds(sum, ratio);
    }
  }

  lemma OverflowIsZero(clocks: nat, ratio: nat)
    requires clocks < LIMIT <= clocks + ratio - 1 && ratio <= 0x1_0000
    ensures AfiClocks(clocks, ratio) == 0 && ratio < clocks
  {
    var sum := clocks + ratio - 1 - LIMIT;
    assert (clocks + ratio - 1) % LIMIT == sum;
    DivBounds(sum, ratio);
    if sum / ratio > 0 {
      Mul(1, sum / ratio, ratio);
    }
  }

  /** The wait is long enough for every clock count whose rounding does not
      overflow, and for no other. */
  lemma WaitsLongEnough(clocks: nat, ratio: nat, steps: nat)
    requires clocks < LIMIT && 0 < ratio <= 0x1_0000 && WithinLoop(AfiClocks(clocks, ratio), steps)
    ensures steps * ratio >= clocks <==> clocks + ratio - 1 < LIMIT
  {
    if clocks + ratio - 1 < LIMIT {
      RoundsUp(clocks, ratio);
      Mul(AfiClocks(clocks, ratio), steps, ratio);
    } else {
      OverflowIsZero(clocks, ratio);
    }
  }

  lemma Mul(a: nat, b: nat, x: nat)
    requires a <= b
    ensures a * x <= b * x
  {
  }
}
