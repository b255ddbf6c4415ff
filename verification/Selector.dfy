/** Node selection: the weighted random pick and the round robin of a hop. */
module Selector {
  import opened Arithmetic
  import opened Text

  // ---- RandomWeighted ----

  datatype Item<T> = Item(item: T, weight: int)

  function Sum<T>(items: seq<Item<T>>): int {
    if items == [] then 0 else Sum(items[..|items| - 1]) + items[|items| - 1].weight
  }

  // The first item whose weights, added up from the left, exceed the draw.
  function Pick<T>(items: seq<Item<T>>, draw: int): (i: nat)
    ensures i <= |items|
    ensures i < |items| ==> Sum(items[..i + 1]) > draw
    ensures forall j :: 0 < j <= i ==> Sum(items[..j]) <= draw
  {
    if items == [] then 0
    else
      var n := |items| - 1;
      assert forall j :: 0 <= j <= n ==> items[..n][..j] == items[..j];
      assert items[..n + 1] == items;
      var i := Pick(items[..n], draw);
      if i < n || Sum(items) > draw then i else n + 1
  }

  lemma PickIsFirst<T>(items: seq<Item<T>>, draw: int, i: nat)
    requires i < |items| && Sum(items[..i + 1]) > draw
    requires forall j :: 0 < j <= i ==> Sum(items[..j]) <= draw
    ensures Pick(items, draw) == i
  {
  }

  // The draws that select item i.
  function Draws<T>(items: seq<Item<T>>, i: nat): set<int> {
    set d | 0 <= d < Sum(items) && Pick(items, d) == i
  }

  // Every draw selects some item, whatever the weights: the fallback after the loop of Next is
  // never reached.
  lemma FallbackIsUnreachable<T>(items: seq<Item<T>>, draw: int)
    requires 0 <= draw < Sum(items)
    ensures Pick(items, draw) < |items|
  {
  }

  predicate NonNegative<T>(items: seq<Item<T>>) { forall i :: 0 <= i < |items| ==> items[i].weight >= 0 }

  lemma {:induction false} SumsGrow<T>(items: seq<Item<T>>, i: nat, j: nat)
    requires NonNegative(items) && i <= j <= |items|
    ensures 0 <= Sum(items[..i]) <= Sum(items[..j])
    decreases j
  {
    if j > 0 {
      assert items[..j][..j - 1] == items[..j - 1];
      SumsGrow(items, if i < j then i else j - 1, j - 1);
    }
  }

  function Interval(low: int, high: int): (s: set<int>)
    requires low <= high
    ensures |s| == high - low && forall d :: d in s <==> low <= d < high
    decreases high - low
  {
    if low == high then {} else Interval(low, high - 1) + {high - 1}
  }

  lemma DrawsAreAnInterval<T>(items: seq<Item<T>>, i: nat)
    requires NonNegative(items) && i < |items|
    ensures Sum(items[..i]) <= Sum(items[..i + 1])
    ensures Draws(items, i) == Interval(Sum(items[..i]), Sum(items[..i + 1]))
  {
    assert items[..|items|] == items;
    SumsGrow(items, i, i + 1);
    SumsGrow(items, i + 1, |items|);
    forall d: int ensures d in Draws(items, i) <==> Sum(items[..i]) <= d < Sum(items[..i + 1]) {
      if Sum(items[..i]) <= d < Sum(items[..i + 1]) {
        forall j | 0 < j <= i ensures Sum(items[..j]) <= d { SumsGrow(items, j, i); }
        PickIsFirst(items, d, i);
      }
      if d in Draws(items, i) && i == 0 { assert items[..0] == []; }
    }
  }

  // Item i is selected by exactly as many draws as its weight, for every item, exactly when no
  // weight is negative.
  lemma DrawsMatchWeightsExactly<T>(items: seq<Item<T>>)
    ensures (forall i :: 0 <= i < |items| ==> |Draws(items, i)| == items[i].weight) <==> NonNegative(items)
  {
    if NonNegative(items) {
      forall i | 0 <= i < |items| ensures |Draws(items, i)| == items[i].weight {
        DrawsAreAnInterval(items, i);
        assert items[..i + 1][..i] == items[..i];
      }
    } else {
      var i :| 0 <= i < |items| && items[i].weight < 0;
      assert |Draws(items, i)| != items[i].weight;
    }
  }

  class RandomWeighted<T> {
    var items: seq<Item<T>>
    var sum: int

    ghost predicate Valid()
      reads this
    {
      sum == Sum(items)
    }

    constructor ()
      ensures Valid() && items == []
    {
      items, sum := [], 0;
    }

    method Add(item: T, weight: int)
      requires Valid()
      modifies this
      ensures Valid() && items == old(items) + [Item(item, weight)]
    {
      items := items + [Item(item, weight)];
      sum := sum + weight;
      assert items[..|items| - 1] == old(items);
    }

    method Reset()
      modifies this
      ensures Valid() && items == []
    {
      items, sum := [], 0;
    }

    // The draw is what the random source returns, a number from zero up to the sum.
    method Next(draw: int) returns (v: Option<T>)
      requires Valid() && (sum > 0 ==> 0 <= draw < sum)
      ensures v == if sum <= 0 then None else Some(items[Pick(items, draw)].item)
      ensures sum > 0 ==> Pick(items, draw) < |items|
    {
      v := None;
      if |items| == 0 || sum <= 0 {
        return;
      }
      FallbackIsUnreachable(items, draw);
      assert items[..|items|] == items;
      var weight := draw + 1;
      for i := 0 to |items|
        invariant weight == draw + 1 - Sum(items[..i])
        invariant forall j :: 0 < j <= i ==> Sum(items[..j]) <= draw
      {
        assert items[..i + 1][..i] == items[..i];
        weight := weight - items[i].weight;
        if weight <= 0 {
          PickIsFirst(items, draw, i);
          return Some(items[i].item);
        }
      }
      assert false; // the fallback to the last item
    }
  }

  // ---- randomStrategy ----

  datatype Candidate<T> = Candidate(value: T, share: int)

  // A missing, zero or negative weight label counts as one.
  function Weighted<T>(vs: seq<Candidate<T>>): (items: seq<Item<T>>)
    ensures |items| == |vs|
    ensures forall i :: 0 <= i < |vs| ==> items[i] == Item(vs[i].value, if vs[i].share <= 0 then 1 else vs[i].share)
  {
    seq(|vs|, i requires 0 <= i < |vs| => Item(vs[i].value, if vs[i].share <= 0 then 1 else vs[i].share))
  }

  // Every candidate can be drawn, in proportion to its label.
  lemma EveryCandidateIsDrawn<T>(vs: seq<Candidate<T>>, i: nat)
    requires i < |vs|
    ensures Sum(Weighted(vs)) > 0
    ensures |Draws(Weighted(vs), i)| == if vs[i].share <= 0 then 1 else vs[i].share
  {
    var items := Weighted(vs);
    DrawsMatchWeightsExactly(items);
    SumsGrow(items, 0, |items| - 1);
  }

  method ApplyRandom<T>(rw: RandomWeighted<T>, vs: seq<Candidate<T>>, draw: int) returns (v: Option<T>)
    requires vs != [] ==> 0 <= draw < Sum(Weighted(vs))
    modifies rw
    ensures vs == [] ==> v == None
    ensures vs != [] ==> Pick(Weighted(vs), draw) < |vs| && v == Some(vs[Pick(Weighted(vs), draw)].value)
  {
    if |vs| == 0 {
      return None;
    }
    rw.Reset();
    for i := 0 to |vs|
      invariant rw.Valid() && rw.items == Weighted(vs)[..i]
    {
      var weight := vs[i].share;
      if weight <= 0 {
        weight := 1;
      }
      rw.Add(vs[i].value, weight);
    }
    assert rw.items == Weighted(vs);
    EveryCandidateIsDrawn(vs, 0);
    v := rw.Next(draw);
  }

  // ---- roundRobinStrategy ----

  const COUNTER_PERIOD: nat := 0x1_0000_0000_0000_0000

  // The positions chosen by consecutive calls on a list of n items, the counter starting at c
  // and wrapping at the period.
  function Turns(c: nat, n: nat, calls: nat, period: nat): (t: seq<nat>)
    requires n > 0 && period > 0
    ensures |t| == calls
    decreases calls
  {
    if calls == 0 then [] else [c % n] + Turns((c + 1) % period, n, calls - 1, period)
  }

  function Times(t: seq<nat>, i: nat): nat {
    if t == [] then 0 else (if t[0] == i then 1 else 0) + Times(t[1..], i)
  }

  // Over k rounds every one of the n items is chosen exactly k times.
  ghost predicate Fair(c: nat, n: nat, k: nat, period: nat)
    requires n > 0 && period > 0
  {
    forall i :: 0 <= i < n ==> Times(Turns(c, n, k * n, period), i) == k
  }

  // The counter does not wrap, or wraps where a round of n ends: always, if its period is a
  // multiple of n, and otherwise only once.
  predicate InStep(c: nat, n: nat, calls: nat, period: nat)
    requires n > 0 && c < period
  {
    c + calls <= period || period % n == 0 || ((period - c) % n == 0 && c + calls <= 2 * period)
  }

  // How often position i comes up when the counter runs from c.
  function Hits(c: nat, n: nat, calls: nat, i: nat): nat
    requires n > 0
  {
    if calls == 0 then 0 else Hits(c, n, calls - 1, i) + if (c + calls - 1) % n == i then 1 else 0
  }

  lemma {:induction false} HitsFront(c: nat, n: nat, calls: nat, i: nat)
    requires n > 0
    ensures Hits(c, n, calls + 1, i) == (if c % n == i then 1 else 0) + Hits(c + 1, n, calls, i)
  {
    if calls > 0 { HitsFront(c, n, calls - 1, i); }
  }

  lemma {:induction false} FirstRound(n: nat, calls: nat, i: nat)
    requires 0 < n && calls <= n
    ensures Hits(0, n, calls, i) == if i < calls then 1 else 0
  {
    if calls > 0 {
      FirstRound(n, calls - 1, i);
      RemainderIs(calls - 1, n, 0, calls - 1);
    }
  }

  // Any n consecutive calls choose every position once.
  lemma {:induction false} OneRound(c: nat, n: nat, i: nat)
    requires i < n
    ensures Hits(c, n, n, i) == 1
  {
    if c == 0 {
      FirstRound(n, n, i);
    } else {
      OneRound(c - 1, n, i);
      HitsFront(c - 1, n, n, i);
      MultipleDropsOut(c - 1, n, 1);
    }
  }

  lemma {:induction false} HitsSplit(c: nat, n: nat, a: nat, b: nat, i: nat)
    requires n > 0
    ensures Hits(c, n, a + b, i) == Hits(c, n, a, i) + Hits(c + a, n, b, i)
    decreases b
  {
    if b > 0 { HitsSplit(c, n, a, b - 1, i); }
  }

  lemma {:induction false} Rounds(c: nat, n: nat, k: nat, i: nat)
    requires i < n
    ensures Hits(c, n, k * n, i) == k
    decreases k
  {
    if k > 0 {
      Rounds(c, n, k - 1, i);
      AnotherRound(c, n, (k - 1) * n, i);
      assert k * n == (k - 1) * n + n;
    }
  }

  lemma AnotherRound(c: nat, n: nat, calls: nat, i: nat)
    requires i < n
    ensures Hits(c, n, calls + n, i) == Hits(c, n, calls, i) + 1
  {
    HitsSplit(c, n, calls, n, i);
    OneRound(c + calls, n, i);
  }

  // ---- the counter up to its first wrap, and after it ----

  lemma TimesNext(c: nat, n: nat, calls: nat, period: nat, i: nat)
    requires n > 0 && c < period && calls > 0
    ensures Times(Turns(c, n, calls, period), i)
         == (if c % n == i then 1 else 0) + Times(Turns(if c + 1 < period then c + 1 else 0, n, calls - 1, period), i)
  {
    RemainderIs(c + 1, period, if c + 1 < period then 0 else 1, if c + 1 < period then c + 1 else 0);
  }

  lemma {:induction false} BeforeWrap(c: nat, n: nat, calls: nat, period: nat, i: nat)
    requires n > 0 && c < period && c + calls <= period
    ensures Times(Turns(c, n, calls, period), i) == Hits(c, n, calls, i)
    decreases calls
  {
    if calls > 0 {
      TimesNext(c, n, calls, period, i);
      HitsFront(c, n, calls - 1, i);
      if calls > 1 { BeforeWrap(c + 1, n, calls - 1, period, i); }
    }
  }

  lemma {:induction false} AcrossWrap(c: nat, n: nat, calls: nat, period: nat, i: nat)
    requires n > 0 && c < period < c + calls
    ensures Times(Turns(c, n, calls, period), i)
         == Hits(c, n, period - c, i) + Times(Turns(0, n, calls - (period - c), period), i)
    decreases calls
  {
    TimesNext(c, n, calls, period, i);
    HitsFront(c, n, period - c - 1, i);
    if c + 1 < period { AcrossWrap(c + 1, n, calls - 1, period, i); }
  }

  // ---- in step ----

  lemma {:induction false} HitsAfterPeriod(n: nat, calls: nat, period: nat, i: nat)
    requires n > 0 && period % n == 0
    ensures Hits(period, n, calls, i) == Hits(0, n, calls, i)
    decreases calls
  {
    if calls > 0 {
      HitsAfterPeriod(n, calls - 1, period, i);
      AfterPeriod(calls - 1, n, period);
    }
  }

  lemma AfterPeriod(j: nat, n: nat, period: nat)
    requires n > 0 && period % n == 0
    ensures (period + j) % n == j % n
  {
    DivMod(period, n);
    MultipleDropsOut(j, n, period / n);
  }

  lemma {:induction false} WholePeriods(c: nat, n: nat, calls: nat, period: nat, i: nat)
    requires n > 0 && c < period && period % n == 0
    ensures Times(Turns(c, n, calls, period), i) == Hits(c, n, calls, i)
    decreases calls
  {
    if c + calls <= period {
      BeforeWrap(c, n, calls, period, i);
    } else {
      var rest := calls - (period - c);
      AcrossWrap(c, n, calls, period, i);
      WholePeriods(0, n, rest, period, i);
      HitsAfterPeriod(n, rest, period, i);
      HitsSplit(c, n, period - c, rest, i);
    }
  }

  lemma RoundsBefore(calls: nat, n: nat, k: nat) returns (q: nat)
    requires n > 0 && calls % n == 0 && calls < k * n
    ensures q < k && calls == q * n && k * n - calls == (k - q) * n
  {
    q := calls / n;
    DivMod(calls, n);
    FartherMultiple(n, k, q);
    assert k * n - q * n == (k - q) * n;
  }

  lemma WrapBetweenRounds(c: nat, n: nat, k: nat, period: nat, i: nat)
    requires i < n && c < period < c + k * n <= 2 * period && (period - c) % n == 0
    ensures Times(Turns(c, n, k * n, period), i) == k
  {
    var q := RoundsBefore(period - c, n, k);
    var rest := k * n - (period - c);
    AcrossWrap(c, n, k * n, period, i);
    BeforeWrap(0, n, rest, period, i);
    Rounds(c, n, q, i);
    Rounds(0, n, k - q, i);
  }

  // ---- out of step: the first item is chosen more often than the last ----

  function Started(e: nat, n: nat): int
    requires n > 0
  {
    if e % n == 0 then 0 else 1
  }

  lemma NextRemainder(x: nat, n: nat)
    requires n > 0
    ensures (x + 1) % n == if x % n == n - 1 then 0 else x % n + 1
  {
    DivMod(x, n);
    if x % n == n - 1 {
      RemainderIs(x + 1, n, x / n + 1, 0);
    } else {
      RemainderIs(x + 1, n, x / n, x % n + 1);
    }
  }

  lemma {:induction false} LeadFromZero(n: nat, e: nat)
    requires n > 1
    ensures Hits(0, n, e, 0) - Hits(0, n, e, n - 1) == Started(e, n)
  {
    if e > 0 {
      LeadFromZero(n, e - 1);
      NextRemainder(e - 1, n);
    } else {
      RemainderIs(0, n, 0, 0);
    }
  }

  lemma Lead(c: nat, n: nat, calls: nat)
    requires n > 1
    ensures Hits(c, n, calls, 0) - Hits(c, n, calls, n - 1) == Started(c + calls, n) - Started(c, n)
  {
    HitsSplit(0, n, c, calls, 0);
    HitsSplit(0, n, c, calls, n - 1);
    LeadFromZero(n, c);
    LeadFromZero(n, c + calls);
  }

  lemma {:induction false} LeadOfTurns(n: nat, calls: nat, period: nat)
    requires n > 1 && period > 0 && period % n != 0
    ensures var lead := Times(Turns(0, n, calls, period), 0) - Times(Turns(0, n, calls, period), n - 1);
            lead >= 0 && (lead == 0 <==> calls <= period && calls % n == 0)
    decreases calls
  {
    RemainderIs(0, n, 0, 0);
    if calls <= period {
      BeforeWrap(0, n, calls, period, 0);
      BeforeWrap(0, n, calls, period, n - 1);
      Lead(0, n, calls);
    } else {
      AcrossWrap(0, n, calls, period, 0);
      AcrossWrap(0, n, calls, period, n - 1);
      Lead(0, n, period);
      LeadOfTurns(n, calls - period, period);
    }
  }

  lemma DifferenceIsMultiple(a: nat, b: nat, n: nat)
    requires n > 0 && b <= a && a % n == 0 && b % n == 0
    ensures (a - b) % n == 0
  {
    DivMod(a, n);
    DivMod(b, n);
    assert a - b == n * (a / n - b / n);
    FartherMultiple(n, a / n, b / n);
    RemainderIs(a - b, n, a / n - b / n, 0);
  }

  lemma NoRoundEndsAfterWrap(c: nat, n: nat, k: nat, period: nat, rest: nat)
    requires n > 0 && c < period && !InStep(c, n, k * n, period) && rest == k * n - (period - c)
    ensures !(rest <= period && rest % n == 0)
  {
    if rest % n == 0 {
      RemainderIs(k * n, n, k, 0);
      DifferenceIsMultiple(k * n, rest, n);
    }
  }

  lemma OutOfStepIsUnfair(c: nat, n: nat, k: nat, period: nat)
    requires n > 0 && c < period && !InStep(c, n, k * n, period)
    ensures !Fair(c, n, k, period)
  {
    var calls, rest := k * n, k * n - (period - c);
    NoRoundEndsAfterWrap(c, n, k, period, rest);
    TurnsLead(c, n, calls, period, rest);
    assert Times(Turns(c, n, calls, period), 0) > Times(Turns(c, n, calls, period), n - 1);
  }

  lemma TurnsLead(c: nat, n: nat, calls: nat, period: nat, rest: nat)
    requires n > 1 && c < period < c + calls && period % n != 0 && rest == calls - (period - c)
    requires !(rest <= period && rest % n == 0)
    ensures Times(Turns(c, n, calls, period), 0) > Times(Turns(c, n, calls, period), n - 1)
  {
    AcrossWrap(c, n, calls, period, 0);
    AcrossWrap(c, n, calls, period, n - 1);
    Lead(c, n, period - c);
    LeadOfTurns(n, rest, period);
  }

  // Any k * n consecutive calls on n items choose each of them exactly k times if and only if
  // the counter does not wrap on the way, or its period is a multiple of n, or it wraps once
  // and between two rounds.
  lemma RoundRobinIsFairExactly(c: nat, n: nat, k: nat, period: nat)
    requires n > 0 && c < period
    ensures Fair(c, n, k, period) <==> InStep(c, n, k * n, period)
  {
    if InStep(c, n, k * n, period) {
      forall i | 0 <= i < n ensures Times(Turns(c, n, k * n, period), i) == k {
        if c + k * n <= period {
          BeforeWrap(c, n, k * n, period, i);
          Rounds(c, n, k, i);
        } else if period % n == 0 {
          WholePeriods(c, n, k * n, period, i);
          Rounds(c, n, k, i);
        } else {
          WrapBetweenRounds(c, n, k, period, i);
        }
      }
    } else {
      OutOfStepIsUnfair(c, n, k, period);
    }
  }

  // With the 64-bit counter a round of three items over the wrap is fair from one position
  // only: when the wrap is where the round starts anew.
  lemma WrapIsUnfair(c: nat)
    requires COUNTER_PERIOD - 3 < c < COUNTER_PERIOD
    ensures !Fair(c, 3, 1, COUNTER_PERIOD)
  {
    RoundRobinIsFairExactly(c, 3, 1, COUNTER_PERIOD);
  }

  class RoundRobin<T> {
    var counter: nat

    constructor ()
      ensures counter == 0
    {
      counter := 0;
    }

    method Apply(vs: seq<T>) returns (v: Option<T>)
      requires counter < COUNTER_PERIOD
      modifies this
      ensures counter < COUNTER_PERIOD
      ensures vs == [] ==> v == None && counter == old(counter)
      ensures vs != [] ==> v == Some(vs[Turns(old(counter), |vs|, 1, COUNTER_PERIOD)[0]])
      ensures vs != [] ==> counter == (old(counter) + 1) % COUNTER_PERIOD
    {
      if |vs| == 0 {
        return None;
      }
      counter := (counter + 1) % COUNTER_PERIOD;
      var n := (counter - 1) % COUNTER_PERIOD;
      return Some(vs[n % |vs|]);
    }
  }
}
