/**
 The request chooser of the faasmspeed load generator (run_function in
 faasmspeed/src/main.rs): which of the requests of one function are offloaded,
 given an offload fraction num / den, and which entry of the request pool each
 one sends.
 */
module OffloadScheduler {
  import opened Arithmetic
  import opened Wrappers

  const I32_MAX: int := 0x7FFF_FFFF

  /** The value a signed 32-bit variable keeps in a release build. */
  function WrapI32(x: int): int {
    (x + 0x8000_0000) % 0x1_0000_0000 - 0x8000_0000
  }

  // ---- The counter

  /** The inner loop: subtract the denominator while the counter exceeds it. */
  function Reduce(den: int, v: int): (r: int)
    requires den >= 1
    ensures r <= den
    decreases v
  {
    if v > den then Reduce(den, v - den) else v
  }

  /** The counter of request i. */
  function Counter(den: int, i: nat): (v: int)
    requires den >= 1
    ensures v <= den
  {
    Reduce(den, WrapI32((if i == 0 then den - 1 else Counter(den, i - 1)) + 1))
  }

  predicate Offloaded(num: int, den: int, i: nat)
    requires den >= 1
  {
    Counter(den, i) <= num || num > den
  }

  function OffloadCount(num: int, den: int, n: nat): nat
    requires den >= 1
  {
    if n == 0 then 0 else OffloadCount(num, den, n - 1) + if Offloaded(num, den, n - 1) then 1 else 0
  }

  lemma OffloadCountNext(num: int, den: int, n: nat)
    requires den >= 1
    ensures OffloadCount(num, den, n + 1) == OffloadCount(num, den, n) + if Offloaded(num, den, n) then 1 else 0
  {
  }

  datatype Choice = Choice(offloaded: bool, slot: nat)

  lemma CounterNext(den: int, i: nat)
    requires den >= 1
    ensures Counter(den, i) == Reduce(den, WrapI32((if i == 0 then den - 1 else Counter(den, i - 1)) + 1))
  {
  }

  /** The generator loop, without the sending: the counter, the inner loop and
      the round-robin position are those of the source. A request cannot be taken
      from an empty pool: ok is false for the index error. */
  method ChooseRequests(totalRequests: nat, num: int, den: int, poolSize: nat)
    returns (ok: bool, choices: seq<Choice>, ndpRequests: nat)
    requires 1 <= den <= I32_MAX
    ensures ok <==> totalRequests == 0 || poolSize > 0
    ensures ok ==> |choices| == totalRequests && ndpRequests == OffloadCount(num, den, totalRequests)
    ensures forall i :: 0 <= i < |choices| ==>
              choices[i].offloaded == Offloaded(num, den, i) && choices[i].slot == Slot(i, poolSize)
  {
    hide WrapI32, Reduce, Counter, Slot;
    EmptyStart(num, den, poolSize);
    var forceNdp := num > den;
    var whichRequest := 0;
    var ndpVar := den - 1;
    choices, ndpRequests := [], 0;
    for requestId := 0 to totalRequests
      invariant |choices| == requestId && (requestId > 0 ==> poolSize > 0)
      invariant ndpVar == if requestId == 0 then den - 1 else Counter(den, requestId - 1)
      invariant whichRequest == Slot(requestId, poolSize) && (poolSize > 0 ==> whichRequest < poolSize)
      invariant ndpRequests == OffloadCount(num, den, requestId)
      invariant forall i :: 0 <= i < requestId ==>
                  choices[i].offloaded == Offloaded(num, den, i) && choices[i].slot == Slot(i, poolSize)
    {
      CounterNext(den, requestId);
      SlotNext(requestId, poolSize);
      ndpVar := NextCounter(den, ndpVar);
      var allowNdp := ndpVar <= num;
      if allowNdp || forceNdp {
        ndpRequests := ndpRequests + 1;
      }
      if whichRequest >= poolSize {
        return false, choices, ndpRequests;
      }
      choices := choices + [Choice(allowNdp || forceNdp, whichRequest)];
      whichRequest := whichRequest + 1;
      if whichRequest == poolSize {
        whichRequest := 0;
      }
    }
    ok := true;
  }

  /** The increment and the inner loop of one request. */
  method NextCounter(den: int, v: int) returns (w: int)
    requires den >= 1
    ensures w == Reduce(den, WrapI32(v + 1))
  {
    w := WrapI32(v + 1);
    while w > den
      invariant Reduce(den, w) == Reduce(den, WrapI32(v + 1))
      decreases w
    {
      w := w - den;
    }
  }

  /** The value after k turns of the inner loop. */
  function Subtracted(den: int, v: int, k: nat): int {
    if k == 0 then v else WrapI32(Subtracted(den, v, k - 1) - den)
  }

  /** A denominator of zero lets the first request through; the loop of the second one
      never ends, because its guard holds after any number of turns. */
  lemma ZeroDenominatorHangs(k: nat)
    ensures var first := WrapI32(-1 + 1);
            !(first > 0) && Subtracted(0, WrapI32(first + 1), k) > 0
  {
    hide WrapI32, Subtracted;
    WrapSmall(0);
    WrapSmall(1);
    ZeroStays(k);
  }

  lemma {:induction false} ZeroStays(k: nat)
    ensures Subtracted(0, 1, k) == 1
  {
    hide WrapI32;
    if k > 0 {
      ZeroStays(k - 1);
      WrapSmall(1);
    }
  }

  /** The pool position of request i, as the round robin reaches it. */
  function Slot(i: nat, poolSize: nat): nat {
    if i == 0 || Slot(i - 1, poolSize) + 1 == poolSize then 0 else Slot(i - 1, poolSize) + 1
  }

  lemma SlotNext(i: nat, poolSize: nat)
    ensures Slot(i + 1, poolSize) == if Slot(i, poolSize) + 1 == poolSize then 0 else Slot(i, poolSize) + 1
  {
  }

  lemma EmptyStart(num: int, den: int, poolSize: nat)
    requires den >= 1
    ensures Slot(0, poolSize) == 0 && OffloadCount(num, den, 0) == 0
  {
  }

  /** The pool position is the request number modulo the pool size. */
  lemma {:induction false} SlotIsRemainder(i: nat, poolSize: nat)
    requires poolSize > 0
    ensures Slot(i, poolSize) == i % poolSize
  {
    if i > 0 {
      SlotIsRemainder(i - 1, poolSize);
      RemainderNext(i - 1, poolSize);
    } else {
      RemainderUnique(0, poolSize, 0, 0);
    }
  }

  // ---- The counter runs through 1, 2, ..., den

  /** What the counter is meant to be: den for the first request, then 1, 2, up
      to den, over and over. */
  function Cycle(den: int, i: nat): int {
    if i == 0 then den
    else if Cycle(den, i - 1) == den then 1
    else Cycle(den, i - 1) + 1
  }

  lemma {:induction false} CounterIsCycle(den: int, i: nat)
    requires 1 <= den < I32_MAX
    ensures Counter(den, i) == Cycle(den, i) && 1 <= Cycle(den, i) <= den
  {
    hide WrapI32, Counter;
    CounterNext(den, i);
    if i > 0 {
      CounterIsCycle(den, i - 1);
      WrapSmall(Cycle(den, i - 1) + 1);
      ReduceNext(den, Cycle(den, i - 1));
    } else {
      WrapSmall(den);
    }
  }

  lemma WrapSmall(x: int)
    requires -0x8000_0000 <= x <= I32_MAX
    ensures WrapI32(x) == x
  {
  }

  lemma ReduceNext(den: int, v: int)
    requires 1 <= v <= den
    ensures Reduce(den, v + 1) == if v == den then 1 else v + 1
  {
    assert v == den ==> Reduce(den, den + 1) == Reduce(den, 1);
  }

  /** The counter stays between 1 and den for every request if the denominator is
      below the largest 32-bit value; at that value it wraps on the second request. */
  lemma CounterInRangeExactly(den: int)
    requires 1 <= den <= I32_MAX
    ensures (forall i: nat :: 1 <= Counter(den, i) <= den) <==> den < I32_MAX
  {
    if den < I32_MAX {
      forall i: nat ensures 1 <= Counter(den, i) <= den {
        CounterIsCycle(den, i);
      }
    } else {
      assert Counter(den, 0) == Reduce(den, den) == den;
      assert WrapI32(den + 1) == -0x8000_0000;
      assert Counter(den, 1) == Reduce(den, -0x8000_0000) == -0x8000_0000;
    }
  }

  // ---- How many requests are offloaded

  /** The offloads among the first q * den + r requests. */
  function ClosedForm(num: int, den: int, q: nat, r: nat): int {
    if num >= den then q * den + r
    else if num <= 0 then 0
    else q * num + Min(Max(r - 1, 0), num)
  }

  lemma {:induction false} CycleAt(den: int, q: nat, r: nat, n: nat)
    requires 1 <= den < I32_MAX && r < den && n == q * den + r
    ensures Cycle(den, n) == if r == 0 then den else r
    decreases n
  {
    if r > 0 {
      CycleAt(den, q, r - 1, n - 1);
    } else if n > 0 {
      Distribute(q, -1, den);
      CycleAt(den, q - 1, den - 1, n - 1);
    }
  }

  /** One more request of the same cycle, and the last request of a cycle. */
  lemma ClosedFormNext(num: int, den: int, q: nat, r: nat)
    requires den >= 1 && 1 <= r < den
    ensures ClosedForm(num, den, q, r)
         == ClosedForm(num, den, q, r - 1) + if num >= den || (r == 1 && den <= num) || 1 <= r - 1 <= num then 1 else 0
  {
  }

  lemma ClosedFormWraps(num: int, den: int, q: nat)
    requires den >= 1 && q >= 1
    ensures ClosedForm(num, den, q, 0)
         == ClosedForm(num, den, q - 1, den - 1) + if num >= den || 1 <= den - 1 <= num then 1 else 0
  {
    Distribute(q, -1, den);
    Distribute(q, -1, num);
  }

  lemma {:induction false} CountAt(num: int, den: int, q: nat, r: nat, n: nat)
    requires 1 <= den < I32_MAX && r < den && n == q * den + r
    ensures OffloadCount(num, den, n) == ClosedForm(num, den, q, r)
    decreases n
  {
    hide Counter, Cycle, ClosedForm, OffloadCount;
    if r > 0 {
      CountAt(num, den, q, r - 1, n - 1);
      CycleAt(den, q, r - 1, n - 1);
      CounterIsCycle(den, n - 1);
      OffloadCountNext(num, den, n - 1);
      ClosedFormNext(num, den, q, r);
    } else if n > 0 {
      CycleBefore(den, q, n);
      CountAt(num, den, q - 1, den - 1, n - 1);
      CycleAt(den, q - 1, den - 1, n - 1);
      CounterIsCycle(den, n - 1);
      OffloadCountNext(num, den, n - 1);
      ClosedFormWraps(num, den, q);
    } else {
      NothingCounted(num, den, q);
    }
  }

  lemma CycleBefore(den: int, q: nat, n: nat)
    requires den >= 1 && n == q * den && n > 0
    ensures q >= 1 && n - 1 == (q - 1) * den + (den - 1)
  {
    Distribute(q, -1, den);
  }

  lemma NothingCounted(num: int, den: int, q: nat)
    requires den >= 1 && q * den == 0
    ensures OffloadCount(num, den, 0) == 0 == ClosedForm(num, den, q, 0)
  {
    if q > 0 {
      Monotone(den, 1, q);
    }
  }

  /** The exact number of offloaded requests among the first n. */
  lemma OffloadCountExact(num: int, den: int, n: nat)
    requires 1 <= den < I32_MAX
    ensures OffloadCount(num, den, n) == ClosedForm(num, den, n / den, n % den)
  {
    DivMod(n, den);
    CountAt(num, den, n / den, n % den, n);
  }

  /** Any den requests in a row hold the same number of offloads, wherever the
      window starts. */
  lemma EveryWindowIsExact(num: int, den: int, start: nat)
    requires 1 <= den < I32_MAX
    ensures Window(num, den, start) == Min(Max(num, 0), den)
  {
    hide OffloadCount;
    var q, r := start / den, start % den;
    DivMod(start, den);
    Distribute(q, 1, den);
    Distribute(q, 1, num);
    CountAt(num, den, q, r, start);
    CountAt(num, den, q + 1, r, start + den);
  }

  function Window(num: int, den: int, start: nat): int
    requires den >= 1
  {
    OffloadCount(num, den, start + den) - OffloadCount(num, den, start)
  }

  /** How far, in units of 1 / den, a number of offloads is ahead of the fraction. */
  function Lead(num: int, den: int, count: int, n: int): int {
    den * count - n * num
  }

  function LeadBound(num: int, den: int): int {
    num * (den - num - 1)
  }

  /** The offloads never lag the requested fraction by more than num / den of a
      request and never lead it by more than num * (den - num - 1) / den. */
  lemma Discrepancy(num: int, den: int, n: nat)
    requires 1 <= den < I32_MAX && 0 <= num < den
    ensures -num <= Lead(num, den, OffloadCount(num, den, n), n) <= LeadBound(num, den)
  {
    hide OffloadCount, Lead, LeadBound;
    DivMod(n, den);
    DiscrepancyAt(num, den, n / den, n % den, n);
  }

  lemma DiscrepancyAt(num: int, den: int, q: nat, r: nat, n: nat)
    requires 1 <= den < I32_MAX && 0 <= num < den && r < den && n == q * den + r
    ensures -num <= Lead(num, den, OffloadCount(num, den, n), n) <= LeadBound(num, den)
  {
    hide OffloadCount, Lead, LeadBound;
    var m := Rest(num, r);
    CountAt(num, den, q, r, n);
    ClosedFormOf(num, den, q, r);
    LeadOfCycles(num, den, q, m, r);
    LeadOfRest(num, den, r);
  }

  /** The offloads of an unfinished cycle. */
  function Rest(num: int, r: nat): int {
    if num == 0 then 0 else Min(Max(r - 1, 0), num)
  }

  lemma ClosedFormOf(num: int, den: int, q: nat, r: nat)
    requires 0 <= num < den
    ensures ClosedForm(num, den, q, r) == q * num + Rest(num, r)
  {
  }

  /** Whole cycles neither lead nor lag. */
  lemma LeadOfCycles(num: int, den: int, q: int, m: int, r: int)
    ensures Lead(num, den, q * num + m, q * den + r) == Lead(num, den, m, r)
  {
    Distribute(q * num, m, den);
    Distribute(q * den, r, num);
    Rotate(q, num, den);
  }

  lemma Rotate(a: int, b: int, c: int)
    ensures (a * b) * c == (a * c) * b
  {
  }

  lemma LeadOfRest(num: int, den: int, r: nat)
    requires 0 <= num < den && r < den
    ensures -num <= Lead(num, den, Rest(num, r), r) <= LeadBound(num, den)
  {
    hide Lead, LeadBound;
    BoundIs(num, den);
    if r == 0 || num == 0 {
      LeadOfNone(num, den, r);
      Monotone(num, 1, den - num);
    } else if r - 1 <= num {
      LeadRising(num, den, r);
      Monotone(den - num, 0, r - 1);
      Monotone(den - num, r - 1, num);
    } else {
      LeadFalling(num, den, r);
      Monotone(num, 0, den - r);
      Monotone(num, den - r, den - num - 1);
    }
  }

  lemma BoundIs(num: int, den: int)
    ensures LeadBound(num, den) == num * (den - num - 1) == (den - num) * num - num
  {
    Distribute(den - num, -1, num);
  }

  lemma LeadOfNone(num: int, den: int, r: nat)
    requires r == 0 || num == 0
    ensures Lead(num, den, 0, r) == 0
  {
  }

  lemma LeadRising(num: int, den: int, r: nat)
    ensures Lead(num, den, r - 1, r) == (den - num) * (r - 1) - num
  {
    Distribute(den - num, num, r - 1);
    Distribute(r - 1, 1, num);
  }

  lemma LeadFalling(num: int, den: int, r: int)
    ensures Lead(num, den, num, r) == num * (den - r)
  {
    Distribute(den, -r, num);
  }

  // ---- The largest denominator

  /** With the largest denominator the counter wraps on the second request and then
      counts up from the smallest 32-bit value. */
  lemma {:induction false} CounterAfterWrap(i: nat)
    requires 1 <= i <= 0x7FFF_FFFF
    ensures Counter(I32_MAX, i) == i - 0x8000_0001
  {
    hide Counter, WrapI32;
    CounterNext(I32_MAX, i);
    if i > 1 {
      CounterAfterWrap(i - 1);
      WrapSmall(i - 0x8000_0001);
    } else {
      FirstCounter();
      WrapPastMax();
    }
  }

  /** Then every request but the first is offloaded, for any numerator from 0 on. */
  lemma {:induction false} CountAfterWrap(num: int, n: nat)
    requires 0 <= num < I32_MAX && 1 <= n <= 0x8000_0000
    ensures OffloadCount(num, I32_MAX, n) == n - 1
  {
    hide Counter;
    if n > 1 {
      CountAfterWrap(num, n - 1);
      CounterAfterWrap(n - 1);
    } else {
      FirstCounter();
      assert OffloadCount(num, I32_MAX, 0) == 0;
    }
  }

  lemma FirstCounter()
    ensures Counter(I32_MAX, 0) == I32_MAX
  {
    hide Counter, WrapI32;
    CounterNext(I32_MAX, 0);
    WrapSmall(I32_MAX);
  }

  lemma WrapPastMax()
    ensures WrapI32(I32_MAX + 1) == -0x8000_0000
  {
  }

  /** A negative numerator still gets its second request offloaded. */
  lemma SecondOffloaded(num: int)
    requires -0x8000_0000 <= num < I32_MAX
    ensures OffloadCount(num, I32_MAX, 2) == 1
  {
    hide Counter;
    FirstCounter();
    CounterAfterWrap(1);
    assert OffloadCount(num, I32_MAX, 1) == 0;
  }

  lemma {:induction false} AllOffloaded(num: int, den: int, n: nat)
    requires 1 <= den <= num
    ensures OffloadCount(num, den, n) == n
  {
    if n > 0 {
      AllOffloaded(num, den, n - 1);
    }
  }

  /** The closed form holds for every number of requests exactly if the denominator is
      below the largest 32-bit value, or every request is offloaded anyway. */
  lemma ClosedFormExactly(num: int, den: int)
    requires 1 <= den <= I32_MAX && -0x8000_0000 <= num <= I32_MAX
    ensures (forall n: nat :: OffloadCount(num, den, n) == ClosedForm(num, den, n / den, n % den))
            <==> den < I32_MAX || num >= den
  {
    hide OffloadCount;
    if den < I32_MAX || num >= den {
      forall n: nat ensures OffloadCount(num, den, n) == ClosedForm(num, den, n / den, n % den) {
        DivMod(n, den);
        if num >= den {
          AllOffloaded(num, den, n);
        } else {
          OffloadCountExact(num, den, n);
        }
      }
    } else if num <= 0 {
      SecondOffloaded(num);
      assert OffloadCount(num, den, 2) != ClosedForm(num, den, 2 / den, 2 % den);
    } else {
      CountAfterWrap(num, num + 2);
      ClosedFormBelow(num);
      assert OffloadCount(num, den, num + 2) != ClosedForm(num, den, (num + 2) / den, (num + 2) % den);
    }
  }

  lemma ClosedFormBelow(num: int)
    requires 0 < num < I32_MAX
    ensures ClosedForm(num, I32_MAX, (num + 2) / 0x7FFF_FFFF, (num + 2) % 0x7FFF_FFFF) == num
  {
    if num + 2 < I32_MAX {
      assert (num + 2) / 0x7FFF_FFFF == 0;
    } else {
      assert (num + 2) / 0x7FFF_FFFF == 1;
    }
  }

  /** Every window holds min(max(num, 0), den) offloads exactly in the same cases. */
  lemma WindowsExactly(num: int, den: int)
    requires 1 <= den <= I32_MAX && -0x8000_0000 <= num <= I32_MAX
    ensures (forall start: nat :: Window(num, den, start) == Min(Max(num, 0), den)) <==> den < I32_MAX || num >= den
  {
    hide OffloadCount;
    if den < I32_MAX || num >= den {
      forall start: nat ensures Window(num, den, start) == Min(Max(num, 0), den) {
        if num >= den {
          AllOffloaded(num, den, start);
          AllOffloaded(num, den, start + den);
        } else {
          EveryWindowIsExact(num, den, start);
        }
      }
    } else if num < 0 {
      SecondOffloaded(num);
      CountGrows(num, den, 2, den);
      NoneOffloaded(num, den);
      assert Window(num, den, 0) > 0;
    } else {
      CountAfterWrap(num, 1);
      CountAfterWrap(num, den + 1);
      assert Window(num, den, 1) == den;
    }
  }

  lemma NoneOffloaded(num: int, den: int)
    requires den >= 1
    ensures OffloadCount(num, den, 0) == 0
  {
  }

  lemma {:induction false} CountGrows(num: int, den: int, n: nat, k: nat)
    requires den >= 1 && n <= k
    ensures OffloadCount(num, den, n) <= OffloadCount(num, den, k)
  {
    if n < k {
      CountGrows(num, den, n, k - 1);
    }
  }

  /** For a proper fraction the discrepancy bound holds throughout exactly if the
      denominator is below the largest 32-bit value. */
  lemma DiscrepancyExactly(num: int, den: int)
    requires 0 <= num < den <= I32_MAX
    ensures (forall n: nat :: -num <= Lead(num, den, OffloadCount(num, den, n), n) <= LeadBound(num, den))
            <==> den < I32_MAX
  {
    hide OffloadCount, Lead, LeadBound;
    if den < I32_MAX {
      forall n: nat ensures -num <= Lead(num, den, OffloadCount(num, den, n), n) <= LeadBound(num, den) {
        Discrepancy(num, den, n);
      }
    } else {
      CountAfterWrap(num, den + 1);
      LeadAfterWrap(num, den);
      assert Lead(num, den, OffloadCount(num, den, den + 1), den + 1) > LeadBound(num, den);
    }
  }

  lemma LeadAfterWrap(num: int, den: int)
    requires 0 <= num < den
    ensures Lead(num, den, den, den + 1) > LeadBound(num, den)
  {
    var gap := den - num;
    Distribute(den, 1, num);
    Distribute(gap, -1, num);
    Distribute(num, gap, gap);
    Distribute(num, gap, num);
    Monotone(gap, 1, gap);
    assert den * den == num * den + gap * den;
    assert den * den - den * num == gap * den;
    assert gap * den == gap * num + gap * gap;
  }
}
