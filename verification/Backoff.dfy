/** Truncated binary exponential backoff: the class, and a closed bound on what one packet can wait. */
module Backoffs {
  import opened Arithmetic

  const UINT32_LIMIT := 0x1_0000_0000

  type uint32 = x: int | 0 <= x < UINT32_LIMIT

  /** Parameters fixed before traffic starts. */
  datatype Params = Params(minSlots: uint32, maxSlots: uint32, ceiling: uint32, maxRetries: uint32)

  const DEFAULT_PARAMS := Params(1, 1000, 10, 1000)

  function Min(a: int, b: int): int { if a <= b then a else b }

  function Max(a: int, b: int): int { if a <= b then b else a }

  function Exponent(p: Params, retries: nat): nat {
    if p.ceiling > 0 && retries > p.ceiling then p.ceiling else retries
  }

  /** What the generator may return: anything between its two bounds, in whichever order they come. */
  predicate Drawn(lo: int, hi: int, x: int) {
    Min(lo, hi) <= x <= Max(lo, hi)
  }

  /** The slot counts GetBackoffTime can pick when the counter stands at `retries`. From exponent 32 on
      the conversion of the power of two to 32 bits is undefined in C++: any upper bound can result, which is
      then clipped to maxSlots. */
  ghost predicate PossibleSlots(p: Params, retries: nat, slots: nat) {
    var e := Exponent(p, retries);
    if e < 32 then Drawn(p.minSlots, Min(Pow2(e) - 1, p.maxSlots), slots)
    else slots <= Max(p.minSlots, p.maxSlots)
  }

  /** A wait of a possible number of slots. */
  ghost predicate PossibleBackoff(p: Params, slotTime: nat, retries: nat, backoff: nat) {
    exists slots: nat :: PossibleSlots(p, retries, slots) && backoff == slots * slotTime
  }

  /** With an upper bound that is the power of two below exponent 32, and anything at all above, both clipped to
      maxSlots, whatever is drawn is a possible pick. */
  lemma DrawnIsPossible(p: Params, retries: nat, upper: nat, slots: nat)
    requires Exponent(p, retries) < 32 ==> upper == Pow2(Exponent(p, retries)) - 1
    requires Drawn(p.minSlots, Min(upper, p.maxSlots), slots)
    ensures PossibleSlots(p, retries, slots)
  {
  }

  /** The largest possible pick. */
  ghost function SlotLimit(p: Params, retries: nat): nat {
    var e := Exponent(p, retries);
    Max(p.minSlots, if e < 32 then Min(Pow2(e) - 1, p.maxSlots) else p.maxSlots)
  }

  /** SlotLimit is the exact maximum of the possible picks. */
  lemma SlotLimitIsMaximum(p: Params, retries: nat)
    ensures PossibleSlots(p, retries, SlotLimit(p, retries))
    ensures forall slots: nat :: PossibleSlots(p, retries, slots) ==> slots <= SlotLimit(p, retries)
  {
  }

  /** The smallest: the lower bound, unless the window lies below it. */
  lemma LeastPick(p: Params, retries: nat, slots: nat)
    requires PossibleSlots(p, retries, slots) && Exponent(p, retries) < 32
    ensures slots >= p.minSlots || slots >= p.maxSlots || slots >= Pow2(Exponent(p, retries)) - 1
    ensures PossibleSlots(p, retries, Min(p.minSlots, Min(Pow2(Exponent(p, retries)) - 1, p.maxSlots)))
  {
  }

  /** Every number of slots between two possible ones is possible. */
  lemma PicksAreConvex(p: Params, retries: nat, low: nat, slots: nat, high: nat)
    requires PossibleSlots(p, retries, low) && PossibleSlots(p, retries, high) && low <= slots <= high
    ensures PossibleSlots(p, retries, slots)
  {
  }

  /** With the default parameters a backoff drawn after r busy senses is any number from 1 to 2^r - 1 slots, at most
      1000, and nothing else. */
  lemma DefaultPicks(retries: nat, slots: nat)
    requires retries >= 1
    ensures PossibleSlots(Params(1, 1000, 10, 1000), retries, slots) <==>
              1 <= slots <= 1000 && (retries < 10 ==> slots <= Pow2(retries) - 1)
  {
    Pow2Monotone(1, retries);
    assert Pow2(1) == 2 && Pow2(10) == 1024;
  }

  /** A ceiling stops the doubling, a ceiling of 0 does not. */
  lemma CeilingStopsDoubling(p: Params, retries: nat, slots: nat)
    requires retries < 32 && p.ceiling < 32
    ensures p.ceiling == 0 ==> (PossibleSlots(p, retries, slots) <==>
              Drawn(p.minSlots, Min(Pow2(retries) - 1, p.maxSlots), slots))
    ensures 0 < p.ceiling <= retries ==> (PossibleSlots(p, retries, slots) <==> PossibleSlots(p, p.ceiling, slots))
  {
  }

  /** A wait lies between the slots' own limits, and is a whole number of slots. */
  lemma BackoffBounds(p: Params, slotTime: nat, retries: nat, backoff: nat)
    requires PossibleBackoff(p, slotTime, retries, backoff)
    ensures backoff <= SlotLimit(p, retries) * slotTime
    ensures exists slots: nat :: PossibleSlots(p, retries, slots) && backoff == slots * slotTime
  {
    var slots: nat :| PossibleSlots(p, retries, slots) && backoff == slots * slotTime;
    SlotLimitIsMaximum(p, retries);
    ProductGrows(slots, SlotLimit(p, retries), slotTime);
  }

  lemma ProductGrows(a: nat, b: nat, t: nat)
    requires a <= b
    ensures a * t <= b * t
  {
  }

  /** Sum of the limits for counter values lo+1 .. hi. */
  ghost function TotalLimit(p: Params, lo: nat, hi: nat): nat
    requires lo <= hi
  {
    if lo == hi then 0 else TotalLimit(p, lo, hi - 1) + SlotLimit(p, hi)
  }

  ghost function Sum(waits: seq<nat>): nat {
    if waits == [] then 0 else Sum(waits[..|waits| - 1]) + waits[|waits| - 1]
  }

  /** `waits` is a possible history of backoffs for a counter that went from `inherited` up by one each time. */
  ghost predicate PossibleWaits(p: Params, inherited: nat, waits: seq<nat>) {
    forall k :: 0 <= k < |waits| ==> PossibleSlots(p, inherited + k + 1, waits[k])
  }

  lemma {:induction false} WaitsBounded(p: Params, inherited: nat, waits: seq<nat>)
    requires PossibleWaits(p, inherited, waits)
    ensures Sum(waits) <= TotalLimit(p, inherited, inherited + |waits|)
  {
    if waits != [] {
      WaitsBounded(p, inherited, waits[..|waits| - 1]);
      SlotLimitIsMaximum(p, inherited + |waits|);
    }
  }

  /** The bound is reached: the history that always draws the limit is possible. */
  lemma {:induction false} BoundIsTight(p: Params, inherited: nat, n: nat) returns (waits: seq<nat>)
    ensures |waits| == n && PossibleWaits(p, inherited, waits)
    ensures Sum(waits) == TotalLimit(p, inherited, inherited + n)
  {
    if n == 0 {
      waits := [];
    } else {
      var before := BoundIsTight(p, inherited, n - 1);
      var limit := SlotLimit(p, inherited + n);
      waits := before + [limit];
      SlotLimitIsMaximum(p, inherited + n);
      OneMoreWait(p, inherited, before, limit);
      SumOfOneMore(before, limit);
    }
  }

  lemma OneMoreWait(p: Params, inherited: nat, waits: seq<nat>, slots: nat)
    requires PossibleWaits(p, inherited, waits) && PossibleSlots(p, inherited + |waits| + 1, slots)
    ensures PossibleWaits(p, inherited, waits + [slots])
  {
  }

  lemma SumOfOneMore(waits: seq<nat>, slots: nat)
    ensures Sum(waits + [slots]) == Sum(waits) + slots
  {
    assert (waits + [slots])[..|waits|] == waits;
  }

  lemma {:induction false} TotalLimitSplits(p: Params, a: nat, b: nat, c: nat)
    requires a <= b <= c
    ensures TotalLimit(p, a, c) == TotalLimit(p, a, b) + TotalLimit(p, b, c)
    decreases c - b
  {
    if b < c {
      TotalLimitSplits(p, a, b, c - 1);
    }
  }

  /** While the limit is constant the total grows linearly. */
  lemma {:induction false} FlatTail(p: Params, lo: nat, hi: nat, limit: nat)
    requires lo <= hi
    requires forall k: nat :: lo < k <= hi ==> SlotLimit(p, k) == limit
    ensures TotalLimit(p, lo, hi) == (hi - lo) * limit
    decreases hi
  {
    if lo < hi {
      FlatTail(p, lo, hi - 1, limit);
      assert (hi - lo) * limit == (hi - 1 - lo) * limit + limit;
    }
  }

  lemma {:induction false} Pow2Monotone(a: nat, b: nat)
    requires a <= b
    ensures Pow2(a) <= Pow2(b)
    decreases b - a
  {
    if a < b {
      Pow2Monotone(a, b - 1);
    }
  }

  lemma Pow2Below32(e: nat)
    requires e < 32
    ensures Pow2(e) <= 0x8000_0000
  {
    assert Pow2(8) == 0x100;
    assert Pow2(16) == 0x1_0000;
    assert Pow2(24) == 0x100_0000;
    assert Pow2(31) == 0x8000_0000;
    Pow2Monotone(e, 31);
  }

  /** While the window still doubles the total is a geometric sum. */
  lemma {:induction false} DoublingHead(p: Params, hi: nat)
    requires p.minSlots <= 1 && hi < 32 && (p.ceiling == 0 || hi <= p.ceiling)
    requires Pow2(hi) - 1 <= p.maxSlots
    ensures TotalLimit(p, 0, hi) == Pow2(hi + 1) - 2 - hi
  {
    if hi > 0 {
      Pow2Monotone(hi - 1, hi);
      DoublingHead(p, hi - 1);
    }
  }

  /** Closed form of the worst total wait of one packet, when maxSlots does not clip the window. */
  lemma WorstTotalWait(p: Params)
    requires p.minSlots <= 1 && 1 <= p.ceiling <= 31 && p.ceiling <= p.maxRetries
    requires Pow2(p.ceiling) - 1 <= p.maxSlots
    ensures TotalLimit(p, 0, p.maxRetries)
         == Pow2(p.ceiling + 1) - 2 - p.ceiling + (p.maxRetries - p.ceiling) * (Pow2(p.ceiling) - 1)
  {
    DoublingHead(p, p.ceiling);
    FlatTail(p, p.ceiling, p.maxRetries, Pow2(p.ceiling) - 1);
    TotalLimitSplits(p, 0, p.ceiling, p.maxRetries);
  }

  /** The default parameters clip the window at 1000 slots from the tenth retry on. */
  lemma DefaultWorstTotalWait()
    ensures TotalLimit(DEFAULT_PARAMS, 0, DEFAULT_PARAMS.maxRetries) == 992013
  {
    var p := DEFAULT_PARAMS;
    DoublingHead(p, 9);
    assert Pow2(10) == 1024;
    FlatTail(p, 9, 1000, 1000);
    TotalLimitSplits(p, 0, 9, 1000);
  }

  /** The 32-bit conversion of a power of two, less one; undefined from exponent 32 on. */
  method PowerLessOne(exponent: uint32) returns (r: uint32)
    ensures exponent < 32 ==> r == Pow2(exponent) - 1
  {
    if exponent < 32 {
      Pow2Below32(exponent);
      r := Pow2(exponent) - 1;
    } else {
      r := *;
    }
  }

  /** The random generator: any value between the bounds. */
  method GetValue(lo: uint32, hi: uint32) returns (x: nat)
    ensures Drawn(lo, hi, x)
  {
    if lo <= hi {
      x :| lo <= x <= hi;
    } else {
      x :| hi <= x <= lo;
    }
  }

  class Backoff {
    const slotTime: nat
    const params: Params
    var numBackoffRetries: uint32

    /** The default constructor. */
    constructor Default()
      ensures slotTime == 1 && params == Params(1, 1000, 10, 1000) && numBackoffRetries == 0
    {
      slotTime := 1;
      params := DEFAULT_PARAMS;
      new;
      ResetBackoffTime();
    }

    /** The constructor with parameters never sets the counter: it holds whatever the memory held. */
    constructor WithParams(slotTime: nat, params: Params, leftInMemory: uint32)
      ensures this.slotTime == slotTime && this.params == params && numBackoffRetries == leftInMemory
    {
      this.slotTime := slotTime;
      this.params := params;
      numBackoffRetries := leftInMemory;
    }

    method GetBackoffTime() returns (backoff: nat)
      ensures PossibleBackoff(params, slotTime, numBackoffRetries, backoff)
    {
      var ceiling: uint32;
      if params.ceiling > 0 && numBackoffRetries > params.ceiling {
        ceiling := params.ceiling;
      } else {
        ceiling := numBackoffRetries;
      }
      var minSlot := params.minSlots;
      var maxSlot := PowerLessOne(ceiling);
      ghost var upper := maxSlot;
      if maxSlot > params.maxSlots {
        maxSlot := params.maxSlots;
      }
      var backoffSlots := GetValue(minSlot, maxSlot);
      DrawnIsPossible(params, numBackoffRetries, upper, backoffSlots);
      backoff := backoffSlots * slotTime;
    }

    method ResetBackoffTime()
      modifies this
      ensures numBackoffRetries == 0
    {
      numBackoffRetries := 0;
    }

    method MaxRetriesReached() returns (reached: bool)
      ensures reached <==> numBackoffRetries >= params.maxRetries
    {
      reached := numBackoffRetries >= params.maxRetries;
    }

    /** The counter is a 32-bit unsigned number and wraps. */
    method IncrNumRetries()
      modifies this
      ensures numBackoffRetries == (old(numBackoffRetries) + 1) % UINT32_LIMIT
    {
      numBackoffRetries := (numBackoffRetries + 1) % UINT32_LIMIT;
    }
  }
}
