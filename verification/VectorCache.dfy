/**
 The in-memory vector cache: partitions that keep their vectors in an array with an inverse
 position map, and one byte budget, shared by all indexes, that evicts the least recently used.

 Vector ids, partition names and index numbers are compared only, so they are numbers here; an id
 also has its length in bytes. A score is an integer: only the order of scores matters.
 */
module VectorCache {
  const PER_VECTOR_OVERHEAD := 64

  datatype VectorId = VectorId(code: nat, byteLen: nat)

  datatype StoredVector = StoredVector(id: VectorId, values: seq<real>)
  {
    function Bytes(): nat { VectorBytes(id, |values|) }
  }

  function VectorBytes(id: VectorId, dims: nat): nat {
    dims * 2 + id.byteLen * 2 + PER_VECTOR_OVERHEAD
  }

  // ── One partition, as a value ───────────────────────────────────────────────

  function SumBytes(vectors: seq<StoredVector>): nat {
    if vectors == [] then 0 else SumBytes(vectors[..|vectors| - 1]) + vectors[|vectors| - 1].Bytes()
  }

  lemma {:induction false} SumReplaced(vectors: seq<StoredVector>, i: nat, v: StoredVector)
    requires i < |vectors|
    ensures SumBytes(vectors[i := v]) + vectors[i].Bytes() == SumBytes(vectors) + v.Bytes()
  {
    var n := |vectors| - 1;
    if i < n {
      SumReplaced(vectors[..n], i, v);
      assert vectors[i := v][..n] == vectors[..n][i := v];
    } else {
      assert vectors[i := v][..n] == vectors[..n];
    }
  }

  lemma SumOfLast(vectors: seq<StoredVector>)
    requires vectors != []
    ensures SumBytes(vectors) == SumBytes(vectors[..|vectors| - 1]) + vectors[|vectors| - 1].Bytes()
  {}

  /** The last vector takes the place of the removed one. */
  function SwapRemoved(vectors: seq<StoredVector>, i: nat): seq<StoredVector>
    requires i < |vectors|
  {
    vectors[i := vectors[|vectors| - 1]][..|vectors| - 1]
  }

  lemma SumSwapRemoved(vectors: seq<StoredVector>, i: nat)
    requires i < |vectors|
    ensures SumBytes(SwapRemoved(vectors, i)) + vectors[i].Bytes() == SumBytes(vectors)
  {
    var last, n := vectors[|vectors| - 1], |vectors| - 1;
    SumReplaced(vectors, i, last);
    var replaced := vectors[i := last];
    assert |replaced| == n + 1 && replaced[n] == last;
    hide *;
    SumOfLast(replaced);
  }

  /** Ids and positions are mutually inverse. */
  ghost predicate Inverse(vectors: seq<StoredVector>, positions: map<VectorId, nat>) {
    && (forall i :: 0 <= i < |vectors| ==> vectors[i].id in positions && positions[vectors[i].id] == i)
    && (forall id :: id in positions ==> positions[id] < |vectors| && vectors[positions[id]].id == id)
  }

  /** What a partition stores, by id. */
  ghost function ContentsOf(vectors: seq<StoredVector>, positions: map<VectorId, nat>): map<VectorId, seq<real>>
    requires Inverse(vectors, positions)
  {
    map id | id in positions :: vectors[positions[id]].values
  }

  lemma Replacing(vectors: seq<StoredVector>, positions: map<VectorId, nat>, v: StoredVector)
    requires Inverse(vectors, positions) && v.id in positions
    ensures var after := vectors[positions[v.id] := v];
      Inverse(after, positions) && ContentsOf(after, positions) == ContentsOf(vectors, positions)[v.id := v.values]
  {}

  lemma Appending(vectors: seq<StoredVector>, positions: map<VectorId, nat>, v: StoredVector)
    requires Inverse(vectors, positions) && v.id !in positions
    ensures Inverse(vectors + [v], positions[v.id := |vectors|])
    ensures ContentsOf(vectors + [v], positions[v.id := |vectors|]) == ContentsOf(vectors, positions)[v.id := v.values]
  {}

  /** The positions after a swap-remove. */
  function PositionsWithout(vectors: seq<StoredVector>, positions: map<VectorId, nat>, at: nat): map<VectorId, nat>
    requires at < |vectors|
  {
    var rest := positions - {vectors[at].id};
    if at < |vectors| - 1 then rest[vectors[|vectors| - 1].id := at] else rest
  }

  lemma SwapRemoving(vectors: seq<StoredVector>, positions: map<VectorId, nat>, at: nat)
    requires Inverse(vectors, positions) && at < |vectors|
    ensures Inverse(SwapRemoved(vectors, at), PositionsWithout(vectors, positions, at))
  {
    var n := |vectors| - 1;
    var after, rest := SwapRemoved(vectors, at), PositionsWithout(vectors, positions, at);
    assert forall i :: 0 <= i < n ==> after[i] == if i == at then vectors[n] else vectors[i];
    forall id | id in rest ensures rest[id] < n && after[rest[id]].id == id {
      assert id in positions;
    }
  }

  lemma SwapRemovedContents(vectors: seq<StoredVector>, positions: map<VectorId, nat>, at: nat)
    requires Inverse(vectors, positions) && at < |vectors|
    requires Inverse(SwapRemoved(vectors, at), PositionsWithout(vectors, positions, at))
    ensures ContentsOf(SwapRemoved(vectors, at), PositionsWithout(vectors, positions, at))
         == ContentsOf(vectors, positions) - {vectors[at].id}
  {
    var n := |vectors| - 1;
    var after, rest := SwapRemoved(vectors, at), PositionsWithout(vectors, positions, at);
    assert forall i :: 0 <= i < n ==> after[i] == if i == at then vectors[n] else vectors[i];
    forall id ensures id in rest <==> id in positions && id != vectors[at].id {}
    forall id | id in rest ensures after[rest[id]].values == vectors[positions[id]].values {
      assert id in positions;
    }
  }

  datatype PartitionView = PartitionView(vectors: seq<StoredVector>, positions: map<VectorId, nat>, bytes: nat, lastUsed: nat)
  {
    /** Ids and positions are mutually inverse, and the byte count is exact. */
    ghost predicate Valid() {
      bytes == SumBytes(vectors) && Inverse(vectors, positions)
    }

    /** What the partition stores, by id. */
    ghost function Contents(): map<VectorId, seq<real>>
      requires Valid()
    {
      ContentsOf(vectors, positions)
    }

    lemma CountsItsContents()
      requires Valid()
      ensures |vectors| == |Contents()|
    {
      var ids := set i | 0 <= i < |vectors| :: vectors[i].id;
      assert ids == positions.Keys == Contents().Keys;
      DistinctIds(vectors, ids);
    }
  }

  lemma {:induction false} DistinctIds(vectors: seq<StoredVector>, ids: set<VectorId>)
    requires forall i, j :: 0 <= i < j < |vectors| ==> vectors[i].id != vectors[j].id
    requires ids == set i | 0 <= i < |vectors| :: vectors[i].id
    ensures |ids| == |vectors|
  {
    if vectors == [] {
      assert ids == {};
    } else {
      var n := |vectors| - 1;
      var fewer := set i | 0 <= i < n :: vectors[..n][i].id;
      forall id ensures id in ids <==> id in fewer + {vectors[n].id} {
        if id in ids {
          var i :| 0 <= i < |vectors| && vectors[i].id == id;
          if i < n { assert vectors[..n][i].id == id; }
        }
        if id in fewer {
          var i :| 0 <= i < n && vectors[..n][i].id == id;
          assert vectors[i].id == id;
        }
      }
      assert ids == fewer + {vectors[n].id};
      assert vectors[n].id !in fewer;
      DistinctIds(vectors[..n], fewer);
    }
  }

  /** A partition after inserting or replacing one vector. */
  ghost predicate VectorAdded(p: PartitionView, q: PartitionView, id: VectorId, values: seq<real>)
    requires p.Valid()
  {
    && q.Valid() && q.Contents() == p.Contents()[id := values] && q.lastUsed == p.lastUsed
    && |q.vectors| == |p.vectors| + (if id in p.positions then 0 else 1)
  }

  /** A partition after removing one vector. */
  ghost predicate VectorRemoved(p: PartitionView, q: PartitionView, id: VectorId)
    requires p.Valid()
  {
    && q.Valid() && q.Contents() == p.Contents() - {id} && q.lastUsed == p.lastUsed
    && |q.vectors| == |p.vectors| - (if id in p.positions then 1 else 0)
  }

  class Partition {
    var vectors: seq<StoredVector>
    var positions: map<VectorId, nat>
    var bytes: nat
    var lastUsed: nat

    ghost function View(): PartitionView reads this {
      PartitionView(vectors, positions, bytes, lastUsed)
    }

    constructor ()
      ensures View() == PartitionView([], map[], 0, 0)
    {
      vectors, positions, bytes, lastUsed := [], map[], 0, 0;
    }

    /** Insert or replace one vector; how much the partition grew. */
    method Upsert(id: VectorId, values: seq<real>) returns (delta: int)
      requires View().Valid()
      modifies this
      ensures VectorAdded(old(View()), View(), id, values) && delta == bytes - old(bytes)
    {
      hide SumBytes, Inverse, ContentsOf;
      var stored := StoredVector(id, values);
      var size: int := VectorBytes(id, |values|);
      if id in positions {
        InverseAt(vectors, positions, id);
        var position := positions[id];
        var before := VectorBytes(id, |vectors[position].values|);
        SumReplaced(vectors, position, stored);
        Replacing(vectors, positions, stored);
        vectors := vectors[position := stored];
        bytes := bytes + size - before;
        return size - before;
      }
      Appending(vectors, positions, stored);
      SumOfLast(vectors + [stored]);
      assert (vectors + [stored])[..|vectors|] == vectors;
      positions := positions[id := |vectors|];
      vectors := vectors + [stored];
      bytes := bytes + size;
      return size;
    }

    /** Record a use. */
    method Touch(now: nat)
      requires View().Valid()
      modifies this`lastUsed
      ensures View() == old(View()).(lastUsed := now) && View().Valid() && View().Contents() == old(View()).Contents()
    {
      lastUsed := now;
    }

    /** Remove one vector; how much the partition shrank. */
    method Remove(id: VectorId) returns (size: nat)
      requires View().Valid()
      modifies this
      ensures VectorRemoved(old(View()), View(), id)
      ensures size == old(bytes) - bytes && (size > 0 <==> id in old(positions))
    {
      hide SumBytes, Inverse, ContentsOf;
      if id !in positions {
        NothingRemoved(View(), id);
        return 0;
      }
      InverseAt(vectors, positions, id);
      var position := positions[id];
      SwapRemoving(vectors, positions, position);
      SwapRemovedContents(vectors, positions, position);
      SumSwapRemoved(vectors, position);
      size := vectors[position].Bytes();
      positions := PositionsWithout(vectors, positions, position);
      vectors := SwapRemoved(vectors, position);
      bytes := bytes - size;
    }
  }

  lemma InverseAt(vectors: seq<StoredVector>, positions: map<VectorId, nat>, id: VectorId)
    requires Inverse(vectors, positions) && id in positions
    ensures positions[id] < |vectors| && vectors[positions[id]].id == id
  {}

  lemma NothingRemoved(p: PartitionView, id: VectorId)
    requires p.Valid() && id !in p.positions
    ensures VectorRemoved(p, p, id)
  {
    assert p.Contents() - {id} == p.Contents();
  }
}
