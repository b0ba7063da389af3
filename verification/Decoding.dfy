/** From decoded packets to windows: the resampler feeds the accumulator, and staged windows are handed on. */
module Decoding {
  import opened Wrappers
  import Resampling
  import opened Windowing

  function Quantized(s: seq<real>, toI16: real -> int): (r: seq<int>)
    ensures |r| == |s| && forall i :: 0 <= i < |s| ==> r[i] == toI16(s[i])
  {
    if s == [] then [] else Quantized(s[..|s| - 1], toI16) + [toI16(s[|s| - 1])]
  }

  lemma {:induction false} QuantizedJoin(a: seq<real>, b: seq<real>, toI16: real -> int)
    ensures Quantized(a + b, toI16) == Quantized(a, toI16) + Quantized(b, toI16)
  {
    if b == [] {
      assert a + b == a;
    } else {
      QuantizedJoin(a, b[..|b| - 1], toI16);
      assert (a + b)[..|a + b| - 1] == a + b[..|b| - 1];
    }
  }

  function Flattened(packets: seq<seq<real>>): seq<real> {
    if packets == [] then [] else Flattened(packets[..|packets| - 1]) + packets[|packets| - 1]
  }

  /** Each window starts where the one before it ended, to the millisecond. */
  ghost predicate InARow(windows: seq<Window>) {
    forall i :: 0 <= i < |windows| ==> windows[i].offsetMs == NextOffset(windows[..i])
  }

  lemma RowEndsWith(windows: seq<Window>, last: Option<Window>)
    requires CutWindows(windows) && (last.Some? ==> last.value.offsetMs == NextOffset(windows))
    ensures var all := windows + (if last.Some? then [last.value] else []);
      InARow(all) && Joined(all) == Joined(windows) + (if last.Some? then last.value.samples else [])
  {
    var all := windows + (if last.Some? then [last.value] else []);
    forall i | 0 <= i < |all| ensures all[i].offsetMs == NextOffset(all[..i]) {
      if i < |windows| {
        EveryWindow(windows, i);
        assert all[..i] == windows[..i];
      } else {
        assert all[..i] == windows;
      }
    }
    if last.Some? { assert all[..|windows|] == windows; } else { assert all == windows; }
  }

  lemma StagedInOrder(a: seq<Window>, b: seq<Window>, c: seq<Window>)
    requires a <= b <= c
    ensures b[|a|..] + c[|b|..] == c[|a|..]
  {}

  lemma AccumulatorHolds(acc: WindowAccumulator)
    requires acc.Valid()
    ensures CutWindows(acc.windows)
  {}

  /** Push samples one by one; the windows they complete are staged in order. */
  method PushAll(acc: WindowAccumulator, samples: seq<int>)
    requires acc.Valid()
    modifies acc
    ensures acc.Valid() && acc.pushed == old(acc.pushed) + samples
    ensures old(acc.windows) <= acc.windows && acc.ready == old(acc.ready) + acc.windows[|old(acc.windows)|..]
  {
    hide *;
    ghost var ready, windows := acc.ready, acc.windows;
    for n := 0 to |samples|
      invariant acc.Valid() && acc.pushed == old(acc.pushed) + samples[..n]
      invariant windows <= acc.windows && acc.ready == ready + acc.windows[|windows|..]
    {
      ghost var before := acc.windows;
      acc.Push(samples[n]);
      StagedInOrder(windows, before, acc.windows);
    }
  }

  /** Hand on every staged window. */
  method TakeAll(acc: WindowAccumulator) returns (taken: seq<Window>)
    requires acc.Valid()
    modifies acc`ready
    ensures acc.Valid() && taken == old(acc.ready) && acc.ready == []
  {
    hide *;
    taken := [];
    while acc.ready != []
      invariant acc.Valid() && taken + acc.ready == old(acc.ready)
      decreases |acc.ready|
    {
      var w := acc.TakeReady();
      taken := taken + [w.value];
    }
  }

  lemma NothingDecoded(rate: nat, toI16: real -> int)
    requires rate > 0
    ensures Resampling.Resampled([], rate) == [] && Quantized([], toI16) == [] && Joined([]) == [] && Flattened([]) == []
  {
    Resampling.NothingFed(rate);
  }

  /**
   The windows of a file at one source rate: however it was cut into packets, they are the one-shot
   resampling of all of it, less a tail of under a quarter second.
   */
  method Decode(packets: seq<seq<real>>, rate: nat, toI16: real -> int) returns (windows: seq<Window>, ghost tail: seq<int>)
    requires rate > 0
    ensures Joined(windows) + tail == Quantized(Resampling.Resampled(Flattened(packets), rate), toI16)
    ensures |tail| < 4000 && InARow(windows)
  {
    hide *;
    var acc := new WindowAccumulator();
    var resampler := new Resampling.Resampler();
    windows := [];
    NothingDecoded(rate, toI16);
    ghost var source: seq<real> := [];
    for n := 0 to |packets|
      invariant acc.Valid() && fresh(acc) && resampler.Valid() && fresh(resampler)
      invariant windows == acc.windows && acc.ready == [] && source == Flattened(packets[..n])
      invariant acc.pushed == Quantized(Resampling.Resampled(source, rate), toI16)
      invariant if n == 0 then resampler.rate == 0 && source == [] else resampler.rate == rate && resampler.fed == source
    {
      FlattenedNext(packets, n);
      ghost var before := Resampling.Resampled(source, rate);
      EmittedSoFar(resampler);
      var out := resampler.Push(packets[n], rate);
      EmittedSoFar(resampler);
      QuantizedJoin(before, out, toI16);
      source := source + packets[n];
      PushAll(acc, Quantized(out, toI16));
      var taken := TakeAll(acc);
      windows := windows + taken;
    }
    assert packets[..|packets|] == packets;
    AccumulatorHolds(acc);
    ghost var cut := acc.windows;
    var last;
    last, tail := acc.TakeRemainder();
    RowEndsWith(cut, last);
    if last.Some? {
      windows := windows + [last.value];
      tail := [];
    } else {
      assert windows + [] == windows;
    }
  }

  lemma FlattenedNext(packets: seq<seq<real>>, n: nat)
    requires n < |packets|
    ensures Flattened(packets[..n + 1]) == Flattened(packets[..n]) + packets[n]
  {
    assert packets[..n + 1][..n] == packets[..n];
  }

  lemma EmittedSoFar(r: Resampling.Resampler)
    requires r.Valid()
    ensures r.rate > 0 ==> r.emitted == Resampling.Resampled(r.fed, r.rate)
  {}
}
