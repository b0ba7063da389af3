/**
 The streaming resampler: box averages over the source samples each 16 kHz sample spans, with a
 position that carries over from packet to packet. Positions are exact: a count of 1/16000ths of a
 source sample.
 */
module Resampling {
  import opened Spans

  const TARGET_RATE := 16000

  function Sum(s: seq<real>): real {
    if s == [] then 0.0 else Sum(s[..|s| - 1]) + s[|s| - 1]
  }

  function Average(s: seq<real>): real
    requires s != []
  {
    Sum(s) / |s| as real
  }

  lemma {:induction false} SumJoin(a: seq<real>, b: seq<real>)
    ensures Sum(a + b) == Sum(a) + Sum(b)
  {
    if b == [] {
      assert a + b == a;
    } else {
      SumJoin(a, b[..|b| - 1]);
      assert (a + b)[..|a + b| - 1] == a + b[..|b| - 1];
    }
  }

  /** The average of one sample is that sample, and averages of parts weigh in with their lengths. */
  lemma AverageIs(a: seq<real>, b: seq<real>)
    requires a != [] && b != []
    ensures |a| == 1 ==> Average(a) == a[0]
    ensures Average(a + b) * (|a| + |b|) as real == Average(a) * |a| as real + Average(b) * |b| as real
  {
    SumJoin(a, b);
    TimesLength(a);
    TimesLength(b);
    TimesLength(a + b);
    if |a| == 1 { assert a[..0] == []; }
  }

  lemma TimesLength(s: seq<real>)
    requires s != []
    ensures Average(s) * |s| as real == Sum(s)
  {
    hide Sum;
  }

  // ── The one-shot form ───────────────────────────────────────────────────────

  /** The first source sample that output `k` spans, and one past the last. */
  function BoxStart(rate: nat, k: nat): nat {
    Span(k, rate) / TARGET_RATE
  }

  function BoxEnd(rate: nat, k: nat): nat {
    Ceiling(Span(k + 1, rate))
  }

  /** A count of 1/16000ths, rounded up to whole samples. */
  function Ceiling(n: nat): nat {
    (n + TARGET_RATE - 1) / TARGET_RATE
  }

  function Box(source: seq<real>, rate: nat, k: nat): real {
    var lo, hi := BoxStart(rate, k), BoxEnd(rate, k);
    if lo < hi <= |source| then Average(source[lo..hi]) else 0.0
  }

  function Boxes(source: seq<real>, rate: nat, count: nat): (r: seq<real>)
    ensures |r| == count
  {
    if count == 0 then [] else Boxes(source, rate, count - 1) + [Box(source, rate, count - 1)]
  }

  /** How many outputs `n` source samples give. */
  function OutputCount(rate: nat, n: nat): nat
    requires rate > 0
  {
    TARGET_RATE * n / rate
  }

  /** All the source at once. */
  function Resampled(source: seq<real>, rate: nat): seq<real>
    requires rate > 0
  {
    Boxes(source, rate, OutputCount(rate, |source|))
  }

  /** Every output of the one-shot form is an average over a non-empty stretch inside the source. */
  lemma BoxFits(rate: nat, n: nat, k: nat)
    requires rate > 0 && k < OutputCount(rate, n)
    ensures BoxStart(rate, k) < BoxEnd(rate, k) <= n
  {
    DivMod(TARGET_RATE * n, rate);
    SpanGrows(k + 1, OutputCount(rate, n), rate);
  }

  /**
   The box of an output is the fewest whole source samples that cover its stretch of the source, from
   `k` to `k + 1` sixteen-thousandths of the rate; so boxes leave no source sample out between them.
   */
  lemma BoxIsCover(rate: nat, k: nat)
    requires rate > 0
    ensures var lo, hi := BoxStart(rate, k), BoxEnd(rate, k);
      && 16000 * lo <= k * rate < 16000 * (lo + 1)
      && 16000 * (hi - 1) < (k + 1) * rate <= 16000 * hi
      && BoxStart(rate, 0) == 0 && BoxStart(rate, k + 1) <= hi
  {
    SpanIsProduct(k, rate);
    SpanIsProduct(k + 1, rate);
  }

  lemma {:induction false} BoxesExtend(source: seq<real>, more: seq<real>, rate: nat, count: nat)
    requires forall k :: 0 <= k < count ==> BoxEnd(rate, k) <= |source|
    ensures Boxes(source + more, rate, count) == Boxes(source, rate, count)
  {
    hide Box, BoxEnd;
    if count > 0 {
      BoxesExtend(source, more, rate, count - 1);
      BoxExtends(source, more, rate, count - 1);
    }
  }

  lemma BoxExtends(source: seq<real>, more: seq<real>, rate: nat, k: nat)
    requires BoxEnd(rate, k) <= |source|
    ensures Box(source + more, rate, k) == Box(source, rate, k)
  {
    hide BoxStart, BoxEnd, Average;
    var lo, hi := BoxStart(rate, k), BoxEnd(rate, k);
    if lo < hi { assert (source + more)[lo..hi] == source[lo..hi]; }
  }

  /** At 16 kHz every box is one sample: the one-shot form is the source itself. */
  lemma TargetRateIsIdentity(source: seq<real>)
    ensures Resampled(source, TARGET_RATE) == source
  {
    SpanIsProduct(|source|, TARGET_RATE);
    QuotientIs(TARGET_RATE, |source|, 0);
    IdentityBoxes(source, |source|);
    assert source[..|source|] == source;
  }

  lemma IdentityBox(source: seq<real>, k: nat)
    requires k < |source|
    ensures Box(source, TARGET_RATE, k) == source[k]
  {
    hide Average;
    QuotientIs(TARGET_RATE, k, 0);
    QuotientIs(TARGET_RATE, k + 1, TARGET_RATE - 1);
    hide Span;
    assert source[k..k + 1] == [source[k]];
    AverageOfOne(source[k]);
  }

  lemma AverageOfOne(x: real)
    ensures Average([x]) == x
  {
    assert [x][..|[x]| - 1] == [];
    assert Sum([x]) == Sum([]) + x == x;
  }

  lemma {:induction false} IdentityBoxes(source: seq<real>, count: nat)
    requires count <= |source|
    ensures Boxes(source, TARGET_RATE, count) == source[..count]
  {
    hide Box;
    if count > 0 {
      IdentityBoxes(source, count - 1);
      IdentityBox(source, count - 1);
    }
  }

  // ── The streaming form ──────────────────────────────────────────────────────

  /** `count` outputs are out; the carry is the source from `dropped` on, and the position is relative to it. */
  ghost predicate Streaming(carry: seq<real>, position: nat, rate: nat, fed: seq<real>, count: nat, dropped: nat) {
    && rate > 0 && dropped <= |fed| && carry == fed[dropped..]
    && position + TARGET_RATE * dropped == Span(count, rate)
    && forall k :: 0 <= k < count ==> BoxEnd(rate, k) <= |fed|
  }

  lemma FeedMore(carry: seq<real>, mono: seq<real>, position: nat, rate: nat, fed: seq<real>, count: nat, dropped: nat)
    requires Streaming(carry, position, rate, fed, count, dropped)
    ensures Streaming(carry + mono, position, rate, fed + mono, count, dropped)
    ensures Boxes(fed + mono, rate, count) == Boxes(fed, rate, count)
  {
    hide Span, Boxes;
    BoxesExtend(fed, mono, rate, count);
    assert (fed + mono)[dropped..] == fed[dropped..] + mono;
  }

  /** The span the loop averages is the box of the next output. */
  lemma NextBox(carry: seq<real>, position: nat, rate: nat, fed: seq<real>, count: nat, dropped: nat)
    requires Streaming(carry, position, rate, fed, count, dropped) && Ceiling(position + rate) <= |carry|
    ensures var lo, hi := position / TARGET_RATE, Ceiling(position + rate);
      lo < hi && Average(carry[lo..hi]) == Box(fed, rate, count)
    ensures Streaming(carry, position + rate, rate, fed, count + 1, dropped)
  {
    hide Average, Span;
    OneMore(count, rate);
    var lo, hi := position / TARGET_RATE, Ceiling(position + rate);
    assert BoxStart(rate, count) == lo + dropped && BoxEnd(rate, count) == hi + dropped;
    assert carry[lo..hi] == fed[lo + dropped..hi + dropped];
  }

  /** When the next span is not all there, every output the source allows is out. */
  lemma NoneMissing(carry: seq<real>, position: nat, rate: nat, fed: seq<real>, count: nat, dropped: nat)
    requires Streaming(carry, position, rate, fed, count, dropped) && Ceiling(position + rate) > |carry|
    ensures count == OutputCount(rate, |fed|) && TARGET_RATE * |carry| < position + rate
  {
    hide Boxes;
    if count > 0 {
      assert BoxEnd(rate, count - 1) <= |fed|;
    }
    QuotientIs(rate, count, TARGET_RATE * |fed| - Span(count, rate));
  }

  lemma Drained(carry: seq<real>, position: nat, rate: nat, fed: seq<real>, count: nat, dropped: nat, consumed: nat)
    requires Streaming(carry, position, rate, fed, count, dropped)
    requires consumed <= |carry| && TARGET_RATE * consumed <= position
    ensures Streaming(carry[consumed..], position - TARGET_RATE * consumed, rate, fed, count, dropped + consumed)
  {
    hide Span;
    assert fed[dropped..][consumed..] == fed[dropped + consumed..];
  }

  lemma NothingFed(rate: nat)
    requires rate > 0
    ensures Resampled([], rate) == [] && Streaming([], 0, rate, [], 0, 0)
  {}

  class Resampler {
    var carry: seq<real>
    var position: nat
    var rate: nat
    /** Since the rate last changed: what was pushed, what came out, and how much of the push is dropped. */
    ghost var fed: seq<real>
    ghost var emitted: seq<real>
    ghost var dropped: nat

    /** Between pushes: `count` outputs are out, no further one is possible, and little is carried. */
    ghost predicate Valid() reads this {
      && (rate > 0 ==> emitted == Resampled(fed, rate))
      && (rate > 0 && rate != TARGET_RATE ==> Streaming(carry, position, rate, fed, |emitted|, dropped))
      && (rate != TARGET_RATE ==> TARGET_RATE * |carry| < 2 * rate + TARGET_RATE && position < rate + TARGET_RATE)
      && (rate == TARGET_RATE ==> carry == [])
      && (rate == 0 ==> carry == [] && position == 0)
    }

    constructor ()
      ensures Valid() && rate == 0 && position == 0 && dropped == 0
      ensures carry == [] && fed == [] && emitted == []
    {
      carry, position, rate, fed, emitted, dropped := [], 0, 0, [], [], 0;
    }

    /** Feed one packet; the outputs it completes. */
    method Push(mono: seq<real>, newRate: nat) returns (out: seq<real>)
      requires Valid()
      modifies this
      ensures Valid()
      ensures newRate == 0 ==> out == [] && rate == old(rate) && fed == old(fed) && emitted == old(emitted)
      ensures newRate > 0 ==> rate == newRate && fed == (if newRate == old(rate) then old(fed) else []) + mono
      ensures newRate > 0 ==> emitted == (if newRate == old(rate) then old(emitted) else []) + out
    {
      out := [];
      if newRate == 0 { return; }
      if newRate != rate {
        carry, position, rate := [], 0, newRate;
        fed, emitted, dropped := [], [], 0;
        NothingFed(newRate);
      }
      if newRate == TARGET_RATE {
        TargetRateIsIdentity(fed);
        TargetRateIsIdentity(fed + mono);
        out := mono;
        fed, emitted := fed + mono, emitted + mono;
        return;
      }
      hide *;
      FeedMore(carry, mono, position, rate, fed, |emitted|, dropped);
      BoxesSoFar(fed, rate, emitted);
      carry := carry + mono;
      fed := fed + mono;
      out := Drain();
    }

    /** Emit every output whose span is all there, then drop what no later one can reach. */
    method Drain() returns (out: seq<real>)
      requires rate > 0 && rate != TARGET_RATE && position < rate + TARGET_RATE
      requires Streaming(carry, position, rate, fed, |emitted|, dropped) && emitted == Boxes(fed, rate, |emitted|)
      modifies this`carry, this`position, this`emitted, this`dropped
      ensures emitted == old(emitted) + out && emitted == Boxes(fed, rate, |emitted|)
      ensures |emitted| == OutputCount(rate, |fed|) && Streaming(carry, position, rate, fed, |emitted|, dropped)
      ensures TARGET_RATE * |carry| < 2 * rate + TARGET_RATE && position < rate + TARGET_RATE
    {
      hide Streaming, Box, Boxes, Average, Ceiling, Span;
      out := [];
      var consumed := 0;
      while true
        invariant Streaming(carry, position, rate, fed, |emitted|, dropped)
        invariant emitted == old(emitted) + out && emitted == Boxes(fed, rate, |emitted|)
        invariant consumed <= |carry| && TARGET_RATE * consumed <= position < TARGET_RATE * consumed + rate + TARGET_RATE
        decreases TARGET_RATE * |carry| + 2 * rate - position
      {
        var start := position;
        var end := start + rate;
        CeilingIs(end);
        if Ceiling(end) > |carry| { break; }
        NextBox(carry, position, rate, fed, |emitted|, dropped);
        var lo := start / TARGET_RATE;
        var hi := Higher(Lower(Ceiling(end), |carry|), lo + 1);
        var avg := Average(carry[lo..hi]);
        BoxesNext(fed, rate, |emitted|);
        out := out + [avg];
        emitted := emitted + [avg];
        position := end;
        consumed := lo;
      }
      NoneMissing(carry, position, rate, fed, |emitted|, dropped);
      Drained(carry, position, rate, fed, |emitted|, dropped, consumed);
      carry := carry[consumed..];
      position := position - TARGET_RATE * consumed;
      dropped := dropped + consumed;
    }
  }

  function Lower(a: nat, b: nat): nat { if a < b then a else b }

  function Higher(a: nat, b: nat): nat { if a < b then b else a }

  lemma CeilingIs(n: nat)
    ensures TARGET_RATE * Ceiling(n) >= n && TARGET_RATE * Ceiling(n) < n + TARGET_RATE
  {}

  lemma BoxesNext(source: seq<real>, rate: nat, count: nat)
    ensures Boxes(source, rate, count + 1) == Boxes(source, rate, count) + [Box(source, rate, count)]
  {}

  lemma BoxesSoFar(source: seq<real>, rate: nat, emitted: seq<real>)
    requires rate > 0 && emitted == Resampled(source, rate)
    ensures emitted == Boxes(source, rate, |emitted|)
  {}
}
