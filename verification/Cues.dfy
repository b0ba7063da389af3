/** Subtitle cues: putting a file's cues in order without overlap, and splitting and wrapping their text. */
module Cues {
  import opened Wrappers
  import opened Text

  const MAX_LINE_CHARS := 42
  const MAX_LINES := 2
  const MAX_CUE_MS := 7000
  const MIN_CUE_MS := 800
  const CUE_GAP_MS := 40

  datatype Cue = Cue(startMs: nat, endMs: nat, text: string, translated: Option<string>)

  // ── Ordering ────────────────────────────────────────────────────────────────

  predicate IsBlank(c: Cue) {
    Trim(c.text) == []
  }

  function Retained(cues: seq<Cue>): seq<Cue> {
    if cues == [] then []
    else Retained(cues[..|cues| - 1]) + if IsBlank(cues[|cues| - 1]) then [] else [cues[|cues| - 1]]
  }

  predicate NotAfter(a: Cue, b: Cue) {
    a.startMs < b.startMs || (a.startMs == b.startMs && a.endMs <= b.endMs)
  }

  predicate InOrder(cues: seq<Cue>) {
    forall i, j :: 0 <= i < j < |cues| ==> NotAfter(cues[i], cues[j])
  }

  /** The cues with a given start and end, in their order. */
  function WithTimes(cues: seq<Cue>, startMs: nat, endMs: nat): seq<Cue> {
    if cues == [] then []
    else
      var last := cues[|cues| - 1];
      WithTimes(cues[..|cues| - 1], startMs, endMs) + if last.startMs == startMs && last.endMs == endMs then [last] else []
  }

  /** `sorted` is the stable sort of `cues`: in order, and cues with equal times keep theirs. */
  ghost predicate StableSort(cues: seq<Cue>, sorted: seq<Cue>) {
    InOrder(sorted) && forall s, e :: WithTimes(sorted, s, e) == WithTimes(cues, s, e)
  }

  /** How many leading cues come no later than `c`. */
  function InsertionPoint(sorted: seq<Cue>, c: Cue): (n: nat)
    ensures n <= |sorted|
    ensures n > 0 ==> NotAfter(sorted[n - 1], c)
    ensures forall i :: n <= i < |sorted| ==> !NotAfter(sorted[i], c)
  {
    if sorted == [] then 0
    else if NotAfter(sorted[|sorted| - 1], c) then |sorted|
    else InsertionPoint(sorted[..|sorted| - 1], c)
  }

  function SortedByTimes(cues: seq<Cue>): seq<Cue> {
    if cues == [] then []
    else
      var c, before := cues[|cues| - 1], SortedByTimes(cues[..|cues| - 1]);
      var n := InsertionPoint(before, c);
      before[..n] + [c] + before[n..]
  }

  lemma {:induction false} WithTimesJoin(a: seq<Cue>, b: seq<Cue>, s: nat, e: nat)
    ensures WithTimes(a + b, s, e) == WithTimes(a, s, e) + WithTimes(b, s, e)
  {
    if b == [] {
      assert a + b == a;
    } else {
      WithTimesJoin(a, b[..|b| - 1], s, e);
      assert (a + b)[..|a + b| - 1] == a + b[..|b| - 1];
    }
  }

  lemma {:induction false} NoneWithTimes(cues: seq<Cue>, s: nat, e: nat)
    requires forall i :: 0 <= i < |cues| ==> cues[i].startMs != s || cues[i].endMs != e
    ensures WithTimes(cues, s, e) == []
  {
    if cues != [] { NoneWithTimes(cues[..|cues| - 1], s, e); }
  }

  lemma {:induction false} SortIsStable(cues: seq<Cue>)
    ensures StableSort(cues, SortedByTimes(cues)) && multiset(SortedByTimes(cues)) == multiset(cues)
  {
    hide NotAfter, InsertionPoint, WithTimes, InOrder;
    if cues == [] {
      NothingToSort();
    } else {
      var c, rest := cues[|cues| - 1], cues[..|cues| - 1];
      SortIsStable(rest);
      var before := SortedByTimes(rest);
      var n := InsertionPoint(before, c);
      assert cues == rest + [c];
      InsertKeepsOrder(before, c, n);
      InsertKeepsMembers(before, c, n);
      forall s, e ensures WithTimes(before[..n] + [c] + before[n..], s, e) == WithTimes(cues, s, e) {
        InsertKeepsTimes(before, c, n, s, e);
        assert WithTimes(before, s, e) == WithTimes(rest, s, e);
        WithTimesJoin(rest, [c], s, e);
        WithTimesJoin(before, [c], s, e);
      }
    }
  }

  lemma NothingToSort()
    ensures InOrder([])
  {}

  lemma InsertKeepsMembers(before: seq<Cue>, c: Cue, n: nat)
    requires n <= |before|
    ensures multiset(before[..n] + [c] + before[n..]) == multiset(before) + multiset{c}
  {
    assert before == before[..n] + before[n..];
  }

  lemma InsertKeepsOrder(before: seq<Cue>, c: Cue, n: nat)
    requires InOrder(before) && n == InsertionPoint(before, c)
    ensures InOrder(before[..n] + [c] + before[n..])
  {
    hide InsertionPoint;
    forall i | 0 <= i < n ensures NotAfter(before[i], c) {
      if i < n - 1 { assert NotAfter(before[i], before[n - 1]); }
    }
  }

  lemma InsertKeepsTimes(before: seq<Cue>, c: Cue, n: nat, s: nat, e: nat)
    requires n == InsertionPoint(before, c)
    ensures WithTimes(before[..n] + [c] + before[n..], s, e) == WithTimes(before + [c], s, e)
  {
    hide InsertionPoint, WithTimes;
    WithTimesJoin(before[..n] + [c], before[n..], s, e);
    WithTimesJoin(before[..n], [c], s, e);
    WithTimesJoin(before[..n], before[n..], s, e);
    WithTimesJoin(before, [c], s, e);
    assert before[..n] + before[n..] == before;
    if c.startMs == s && c.endMs == e {
      NoneWithTimes(before[n..], s, e);
    } else {
      NoneWithTimes([c], s, e);
    }
  }

  /** Cues already in order are left as they are. */
  lemma {:induction false} SortedIsFixed(cues: seq<Cue>)
    requires InOrder(cues)
    ensures SortedByTimes(cues) == cues
  {
    if cues != [] {
      var n := |cues| - 1;
      SortedIsFixed(cues[..n]);
      assert n > 0 ==> NotAfter(cues[n - 1], cues[n]);
      assert InsertionPoint(cues[..n], cues[n]) == n;
    }
  }

  // ── Times on screen ─────────────────────────────────────────────────────────

  /** The end of a cue, given where the next one starts. */
  function ClippedEnd(c: Cue, next: Option<nat>): nat {
    var shown := if c.endMs < c.startMs + MIN_CUE_MS then c.startMs + MIN_CUE_MS else c.endMs;
    if next.Some? && shown + CUE_GAP_MS > next.value then
      var before := if next.value >= CUE_GAP_MS then next.value - CUE_GAP_MS else 0;
      if before > c.startMs + 1 then before else c.startMs + 1
    else shown
  }

  function NextStart(cues: seq<Cue>, i: nat): Option<nat> {
    if i + 1 < |cues| then Some(cues[i + 1].startMs) else None
  }

  function Clipped(cues: seq<Cue>): (r: seq<Cue>)
    ensures |r| == |cues|
    ensures forall i :: 0 <= i < |cues| ==> r[i] == cues[i].(endMs := ClippedEnd(cues[i], NextStart(cues, i)))
  {
    seq(|cues|, i requires 0 <= i < |cues| => cues[i].(endMs := ClippedEnd(cues[i], NextStart(cues, i))))
  }

  function Normalized(cues: seq<Cue>): seq<Cue> {
    Clipped(SortedByTimes(Retained(cues)))
  }

  /** Order a file's cues and stop them overlapping. */
  method Normalize(input: seq<Cue>) returns (cues: seq<Cue>)
    ensures cues == Normalized(input)
  {
    hide IsBlank, Retained, SortedByTimes, Trim;
    cues := SortedByTimes(Retained(input));
    ghost var sorted := cues;
    for i := 0 to |cues|
      invariant |cues| == |sorted|
      invariant forall j :: 0 <= j < i ==> cues[j] == sorted[j].(endMs := ClippedEnd(sorted[j], NextStart(sorted, j)))
      invariant forall j :: i <= j < |cues| ==> cues[j] == sorted[j]
    {
      var c := cues[i];
      if c.endMs < c.startMs + MIN_CUE_MS { c := c.(endMs := c.startMs + MIN_CUE_MS); }
      if i + 1 < |cues| {
        var nextStart := cues[i + 1].startMs;
        if c.endMs + CUE_GAP_MS > nextStart {
          var before := if nextStart >= CUE_GAP_MS then nextStart - CUE_GAP_MS else 0;
          c := c.(endMs := if before > c.startMs + 1 then before else c.startMs + 1);
        }
      }
      cues := cues[i := c];
    }
  }

  /** What a viewer may rely on between one cue and the next. */
  predicate Apart(c: Cue, next: Cue) {
    && c.startMs < c.endMs && c.startMs <= next.startMs
    && (c.startMs < next.startMs ==> c.endMs <= next.startMs)
    && (c.startMs + CUE_GAP_MS < next.startMs ==> c.endMs + CUE_GAP_MS <= next.startMs)
    && (c.startMs + MIN_CUE_MS + CUE_GAP_MS <= next.startMs ==> c.endMs >= c.startMs + MIN_CUE_MS)
  }

  lemma ClippedApart(c: Cue, next: Cue)
    requires c.startMs <= next.startMs
    ensures Apart(c.(endMs := ClippedEnd(c, Some(next.startMs))), next)
  {}

  /** What a viewer may rely on of a normalized file. */
  lemma NormalizedIsReadable(cues: seq<Cue>)
    ensures var r := Normalized(cues);
      && (forall i :: 0 <= i < |r| ==> !IsBlank(r[i]))
      && (forall i :: 0 <= i < |r| - 1 ==> Apart(r[i], r[i + 1]))
      && (r != [] ==> r[|r| - 1].endMs >= r[|r| - 1].startMs + MIN_CUE_MS)
  {
    hide SortedByTimes, Retained, IsBlank, WithTimes, Apart;
    var kept := Retained(cues);
    SortIsStable(kept);
    var sorted := SortedByTimes(kept);
    RetainedIsNotBlank(cues);
    var r := Clipped(sorted);
    forall i | 0 <= i < |r| ensures !IsBlank(r[i]) {
      assert sorted[i] in multiset(kept);
      SameTextSameBlank(r[i], sorted[i]);
    }
    forall i | 0 <= i < |r| - 1 ensures Apart(r[i], r[i + 1]) {
      assert NotAfter(sorted[i], sorted[i + 1]);
      ClippedApart(sorted[i], sorted[i + 1]);
      ApartFromStart(r[i], sorted[i + 1], r[i + 1]);
    }
  }

  lemma ApartFromStart(c: Cue, a: Cue, b: Cue)
    requires Apart(c, a) && a.startMs == b.startMs
    ensures Apart(c, b)
  {}

  lemma SameTextSameBlank(a: Cue, b: Cue)
    requires a.text == b.text
    ensures IsBlank(a) == IsBlank(b)
  {}

  lemma {:induction false} RetainedIsNotBlank(cues: seq<Cue>)
    ensures forall c :: c in Retained(cues) ==> c in cues && !IsBlank(c)
  {
    hide IsBlank;
    if cues != [] { RetainedIsNotBlank(cues[..|cues| - 1]); }
  }

  lemma {:induction false} RetainedIsFixed(cues: seq<Cue>)
    requires forall i :: 0 <= i < |cues| ==> !IsBlank(cues[i])
    ensures Retained(cues) == cues
  {
    hide IsBlank;
    if cues != [] { RetainedIsFixed(cues[..|cues| - 1]); }
  }

  /** The same cues in the same order, but for when they end. */
  ghost predicate SameButEnds(a: seq<Cue>, b: seq<Cue>) {
    |a| == |b| && forall i :: 0 <= i < |a| ==> a[i] == b[i].(endMs := a[i].endMs)
  }

  /** How long a cue is shown at least: to its own end, and for 800 ms. */
  ghost predicate IsShownTo(c: Cue, end: nat) {
    end >= c.endMs && end >= c.startMs + 800 && (end == c.endMs || end == c.startMs + 800)
  }

  /**
   When a cue ends, by what follows: a cue that can be shown in full 40 ms before the next one is; one
   that cannot ends exactly 40 ms before the next, or after one millisecond where that would be too early.
   */
  ghost predicate EndsBy(c: Cue, next: Option<nat>, end: nat) {
    forall shown: nat | IsShownTo(c, shown) ::
      if next.None? || shown + 40 <= next.value then end == shown
      else if c.startMs + 41 < next.value then end + 40 == next.value
      else end == c.startMs + 1
  }

  /**
   Only ends change: the rest is the stable sort of the cues that are not blank. And when each cue ends:
   the last one, and every one that leaves room before the next, is shown in full.
   */
  lemma NormalizedKeepsContent(cues: seq<Cue>) returns (sorted: seq<Cue>)
    ensures StableSort(Retained(cues), sorted) && multiset(sorted) == multiset(Retained(cues))
    ensures SameButEnds(Normalized(cues), sorted)
    ensures forall i :: 0 <= i < |sorted| ==>
      EndsBy(sorted[i], if i + 1 < |sorted| then Some(sorted[i + 1].startMs) else None, Normalized(cues)[i].endMs)
  {
    sorted := SortedByTimes(Retained(cues));
    SortIsStable(Retained(cues));
    forall i | 0 <= i < |sorted|
      ensures EndsBy(sorted[i], if i + 1 < |sorted| then Some(sorted[i + 1].startMs) else None, Normalized(cues)[i].endMs)
    {
      ClippedEndsBy(sorted[i], NextStart(sorted, i));
    }
  }

  lemma ClippedEndsBy(c: Cue, next: Option<nat>)
    ensures EndsBy(c, next, ClippedEnd(c, next))
    ensures ClippedEnd(c, next) <= if c.endMs >= c.startMs + 800 then c.endMs else c.startMs + 800
    ensures c.endMs >= c.startMs + 800 && (next.None? || c.endMs + 40 <= next.value) ==> ClippedEnd(c, next) == c.endMs
  {}

  /** Which cues are kept: those that say something, each as often and in the order it was there. */
  lemma {:induction false} RetainedJoin(a: seq<Cue>, b: seq<Cue>)
    ensures Retained(a + b) == Retained(a) + Retained(b)
    ensures |b| == 1 ==> Retained(b) == if forall i :: 0 <= i < |b[0].text| ==> IsWhitespace(b[0].text[i]) then [] else b
  {
    hide IsBlank;
    if b == [] {
      assert a + b == a;
    } else {
      RetainedJoin(a, b[..|b| - 1]);
      assert (a + b)[..|a + b| - 1] == a + b[..|b| - 1];
      BlankIs(b[0]);
    }
  }

  lemma BlankIs(c: Cue)
    ensures IsBlank(c) <==> forall i :: 0 <= i < |c.text| ==> IsWhitespace(c.text[i])
  {
    TrimIsEmpty(c.text);
  }

  lemma ClippedInOrder(cues: seq<Cue>)
    requires InOrder(cues)
    ensures InOrder(Clipped(cues))
  {
    var r := Clipped(cues);
    forall i, j | 0 <= i < j < |r| ensures NotAfter(r[i], r[j]) {
      hide *;
      ClippedPair(cues, i, j);
    }
  }

  lemma ClippedPair(cues: seq<Cue>, i: nat, j: nat)
    requires InOrder(cues) && i < j < |cues|
    ensures NotAfter(Clipped(cues)[i], Clipped(cues)[j])
  {
    hide NotAfter, ClippedEnd, InOrder;
    InOrderAt(cues, i, i + 1);
    InOrderAt(cues, i + 1, j);
    ClippedKeepsOrder(cues[i], cues[i + 1], cues[j], NextStart(cues, j));
    assert NextStart(cues, i) == Some(cues[i + 1].startMs);
  }

  lemma ClippedKeepsOrder(a: Cue, next: Cue, b: Cue, afterB: Option<nat>)
    requires NotAfter(a, next) && NotAfter(next, b)
    ensures NotAfter(a.(endMs := ClippedEnd(a, Some(next.startMs))), b.(endMs := ClippedEnd(b, afterB)))
  {
    ClippedBefore(a, next.startMs);
    EndsLater(b, afterB);
  }

  lemma InOrderAt(cues: seq<Cue>, i: nat, j: nat)
    requires InOrder(cues) && i <= j < |cues|
    ensures NotAfter(cues[i], cues[j])
  {}

  /** A cue that starts with the next one keeps one millisecond. */
  lemma ClippedBefore(c: Cue, next: nat)
    requires c.startMs <= next
    ensures c.startMs == next ==> ClippedEnd(c, Some(next)) == c.startMs + 1
    ensures c.startMs < ClippedEnd(c, Some(next))
  {}

  lemma EndsLater(c: Cue, next: Option<nat>)
    ensures ClippedEnd(c, next) >= c.startMs + 1
  {}

  lemma ClippedTwice(cues: seq<Cue>)
    ensures Clipped(Clipped(cues)) == Clipped(cues)
  {
    var r := Clipped(cues);
    forall i | 0 <= i < |r| ensures Clipped(r)[i] == r[i] {
      assert NextStart(r, i) == NextStart(cues, i);
    }
  }

  /** Normalizing twice is normalizing once. */
  lemma NormalizedTwice(cues: seq<Cue>)
    ensures Normalized(Normalized(cues)) == Normalized(cues)
  {
    var kept := Retained(cues);
    var sorted := SortedByTimes(kept);
    SortIsStable(kept);
    var r := Clipped(sorted);
    NormalizedIsReadable(cues);
    RetainedIsFixed(r);
    ClippedInOrder(sorted);
    SortedIsFixed(r);
    ClippedTwice(sorted);
  }
}
