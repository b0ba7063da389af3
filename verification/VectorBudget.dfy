/** The byte budget that all vector indexes share, and the operations of an index on its partitions. */
module VectorBudget {
  import opened Wrappers
  import opened Ranking
  import opened VectorCache

  /** A partition of an index. */
  datatype Key = Key(index: nat, partition: nat)

  type Views = map<Key, PartitionView>

  // ── The cache, as a value ───────────────────────────────────────────────────

  ghost function TotalBytes(views: Views): nat {
    if views == map[] then 0
    else
      var k :| k in views;
      views[k].bytes + TotalBytes(views - {k})
  }

  lemma {:induction false} TotalWithout(views: Views, k: Key)
    requires k in views
    ensures TotalBytes(views) == views[k].bytes + TotalBytes(views - {k})
    decreases |views|
  {
    var j :| j in views && TotalBytes(views) == views[j].bytes + TotalBytes(views - {j});
    if j != k {
      TotalWithout(views - {j}, k);
      TotalWithout(views - {k}, j);
      assert views - {j} - {k} == views - {k} - {j};
    }
  }

  lemma TotalWith(views: Views, k: Key, p: PartitionView)
    ensures TotalBytes(views[k := p]) == TotalBytes(views - {k}) + p.bytes
  {
    TotalWithout(views[k := p], k);
    assert views[k := p] - {k} == views - {k};
  }

  /** What every operation keeps. */
  ghost predicate CacheValid(views: Views, evicted: set<Key>, used: nat, clock: nat) {
    && used == TotalBytes(views)
    && (forall k :: k in views ==> views[k].Valid() && views[k].lastUsed < clock && k !in evicted)
    && (forall j, k :: j in views && k in views && views[j].lastUsed == views[k].lastUsed ==> j == k)
  }

  /** `victim` is the least recently used partition but `keep`. */
  ghost predicate LeastRecent(views: Views, keep: Key, victim: Key) {
    && victim in views && victim != keep
    && forall k :: k in views && k != keep ==> views[victim].lastUsed <= views[k].lastUsed
  }

  ghost function Keys(victims: seq<Key>): set<Key> {
    set k | k in victims
  }

  /** Every victim was the least recently used when it went, and it went because something did not fit. */
  ghost predicate Evictions(views: Views, keep: Key, need: nat, limit: nat, victims: seq<Key>) {
    victims != [] ==>
      var before := victims[..|victims| - 1];
      && Evictions(views, keep, need, limit, before)
      && LeastRecent(views - Keys(before), keep, victims[|victims| - 1])
      && TotalBytes(views - Keys(before)) + need > limit
  }

  /** Where evicting has come: `victims` are gone from the partitions and counted as evicted. */
  ghost predicate EvictedSoFar(views0: Views, parts0: map<Key, Partition>, evicted0: set<Key>,
                               views: Views, parts: map<Key, Partition>, evicted: set<Key>, used: nat, clock: nat,
                               keep: Key, need: nat, limit: nat, victims: seq<Key>)
  {
    && CacheValid(views, evicted, used, clock)
    && views == views0 - Keys(victims) && parts == parts0 - Keys(victims) && evicted == evicted0 + Keys(victims)
    && Evictions(views0, keep, need, limit, victims)
  }

  lemma EvictOne(views0: Views, parts0: map<Key, Partition>, evicted0: set<Key>,
                 views: Views, parts: map<Key, Partition>, evicted: set<Key>, used: nat, clock: nat,
                 keep: Key, need: nat, limit: nat, victims: seq<Key>, victim: Key)
    requires EvictedSoFar(views0, parts0, evicted0, views, parts, evicted, used, clock, keep, need, limit, victims)
    requires used + need > limit && LeastRecent(views, keep, victim)
    ensures victim in views && views[victim].bytes <= used
    ensures EvictedSoFar(views0, parts0, evicted0, views - {victim}, parts - {victim}, evicted + {victim},
              used - views[victim].bytes, clock, keep, need, limit, victims + [victim])
  {
    hide TotalBytes, SumBytes, Inverse;
    TotalWithout(views, victim);
    KeysNext(victims, victim);
    MinusMore(views0, Keys(victims), victim);
    MinusMore(parts0, Keys(victims), victim);
    EvictionsNext(views0, keep, need, limit, victims, victim);
    FewerValid(views, evicted, used, clock, victim);
  }

  lemma KeysNext(victims: seq<Key>, victim: Key)
    ensures Keys(victims + [victim]) == Keys(victims) + {victim}
  {}

  lemma EvictionsNext(views: Views, keep: Key, need: nat, limit: nat, victims: seq<Key>, victim: Key)
    requires Evictions(views, keep, need, limit, victims) && LeastRecent(views - Keys(victims), keep, victim)
    requires TotalBytes(views - Keys(victims)) + need > limit
    ensures Evictions(views, keep, need, limit, victims + [victim])
  {
    hide TotalBytes, LeastRecent, Keys;
    assert (victims + [victim])[..|victims|] == victims;
  }

  lemma FewerValid(views: Views, evicted: set<Key>, used: nat, clock: nat, victim: Key)
    requires CacheValid(views, evicted, used, clock) && victim in views
    ensures views[victim].bytes <= used
    ensures CacheValid(views - {victim}, evicted + {victim}, used - views[victim].bytes, clock)
  {
    hide TotalBytes, SumBytes, Inverse;
    TotalWithout(views, victim);
  }

  lemma NoVictims(views: Views, parts: map<Key, Partition>, evicted: set<Key>, used: nat, clock: nat,
                  keep: Key, need: nat, limit: nat)
    ensures Evictions(views, keep, need, limit, []) && Keys([]) == {} && views - {} == views && parts - {} == parts
    ensures CacheValid(views, evicted, used, clock) ==>
      EvictedSoFar(views, parts, evicted, views, parts, evicted, used, clock, keep, need, limit, [])
  {
    hide CacheValid;
    assert views - {} == views && parts - {} == parts && evicted + {} == evicted;
  }

  lemma MinusMore<V>(m: map<Key, V>, gone: set<Key>, k: Key)
    ensures m - gone - {k} == m - (gone + {k})
  {}

  lemma FewerWithout<V>(m: map<Key, V>, k: Key)
    requires k in m
    ensures |m - {k}| < |m|
  {
    assert m.Keys == (m - {k}).Keys + {k};
  }

  lemma Later(views: Views, evicted: set<Key>, used: nat, clock: nat)
    requires CacheValid(views, evicted, used, clock)
    ensures CacheValid(views, evicted, used, clock + 1) && NeverUsed(views, clock)
  {}

  /** No partition was used at this moment. */
  ghost predicate NeverUsed(views: Views, now: nat) {
    forall k :: k in views ==> views[k].lastUsed != now
  }

  lemma StillNeverUsed(views: Views, gone: set<Key>, now: nat)
    requires NeverUsed(views, now)
    ensures NeverUsed(views - gone, now)
  {}

  lemma MarkEvicted(views: Views, evicted: set<Key>, used: nat, clock: nat, key: Key)
    requires CacheValid(views, evicted, used, clock) && key !in views
    ensures CacheValid(views, evicted + {key}, used, clock)
  {}

  lemma UnmarkEvicted(views: Views, evicted: set<Key>, used: nat, clock: nat, key: Key)
    requires CacheValid(views, evicted, used, clock)
    ensures CacheValid(views, evicted - {key}, used, clock)
  {}

  lemma RemovedKeepsUse(p: PartitionView, q: PartitionView, id: VectorId)
    requires p.Valid() && VectorRemoved(p, q, id)
    ensures q.lastUsed == p.lastUsed && q.Valid()
  {}

  /** Alone, a partition fits whenever it is no larger than the budget. */
  lemma AloneItFits(views: Views, evicted: set<Key>, used: nat, clock: nat, key: Key)
    requires CacheValid(views, evicted, used, clock) && key !in views && views.Keys <= {key}
    ensures used == 0
  {
    TotalOfOne(views, key);
  }

  lemma MinusAbsent<V>(m: map<Key, V>, k: Key)
    requires k !in m
    ensures m - {k} == m
  {}

  lemma ViewIsValid(views: Views, k: Key, evicted: set<Key>, used: nat, clock: nat)
    requires CacheValid(views, evicted, used, clock) && k in views
    ensures views[k].Valid()
  {}

  /** A partition after inserting or replacing one vector and being marked as used at `now`. */
  ghost predicate Touched(p: PartitionView, q: PartitionView, id: VectorId, values: seq<real>, now: nat) {
    p.Valid() && VectorAdded(p, q.(lastUsed := p.lastUsed), id, values) && q.lastUsed == now
  }

  lemma WasTouched(p: PartitionView, q: PartitionView, id: VectorId, values: seq<real>, now: nat)
    requires Touched(p, q, id, values, now)
    ensures q.lastUsed == now
  {}

  lemma {:induction false} KeepStays(views: Views, keep: Key, need: nat, limit: nat, victims: seq<Key>)
    requires Evictions(views, keep, need, limit, victims)
    ensures keep !in Keys(victims)
  {
    if victims != [] { KeepStays(views, keep, need, limit, victims[..|victims| - 1]); }
  }

  /** Replacing one partition by another state of it. */
  lemma ReplaceOne(views: Views, k: Key, p: PartitionView, evicted: set<Key>, used: nat, clock: nat, now: nat)
    requires CacheValid(views, evicted, used, clock) && k in views && p.Valid() && clock <= now
    requires p.lastUsed == views[k].lastUsed || clock <= p.lastUsed < now
    ensures views[k].bytes <= used
    ensures CacheValid(views[k := p], evicted, used - views[k].bytes + p.bytes, now)
  {
    hide SumBytes, Inverse, TotalBytes;
    TotalWithout(views, k);
    TotalWith(views, k, p);
  }

  /** Dropping one partition. */
  lemma DropOne(views: Views, k: Key, evicted: set<Key>, used: nat, clock: nat)
    requires CacheValid(views, evicted, used, clock) && k in views
    ensures views[k].bytes <= used && CacheValid(views - {k}, evicted, used - views[k].bytes, clock)
  {
    TotalWithout(views, k);
  }

  /** Adding a partition that was just used. */
  lemma AddOne(views: Views, k: Key, p: PartitionView, evicted: set<Key>, used: nat, clock: nat)
    requires CacheValid(views, evicted, used, clock) && k !in views && p.Valid() && p.lastUsed < clock
    requires NeverUsed(views, p.lastUsed)
    ensures CacheValid(views[k := p], evicted - {k}, used + p.bytes, clock)
  {
    hide TotalBytes;
    assert TotalBytes(views[k := p]) == used + p.bytes by {
      TotalWith(views, k, p);
      assert views - {k} == views;
    }
  }

  lemma {:induction false} TotalOfOne(views: Views, keep: Key)
    requires views.Keys <= {keep}
    ensures TotalBytes(views) == if keep in views then views[keep].bytes else 0
  {
    if keep in views {
      TotalWithout(views, keep);
      assert views - {keep} == map[];
    } else {
      assert views == map[];
    }
  }

  /** The contents a list of vectors loads to: the last one given under an id wins. */
  function Loaded(vectors: seq<(VectorId, seq<real>)>): map<VectorId, seq<real>> {
    if vectors == [] then map[]
    else Loaded(vectors[..|vectors| - 1])[vectors[|vectors| - 1].0 := vectors[|vectors| - 1].1]
  }

  lemma {:induction false} LoadedIds(vectors: seq<(VectorId, seq<real>)>, id: VectorId)
    ensures id in Loaded(vectors) <==> exists i :: 0 <= i < |vectors| && vectors[i].0 == id
  {
    if vectors != [] {
      var n := |vectors| - 1;
      LoadedIds(vectors[..n], id);
      if id in Loaded(vectors[..n]) {
        var i :| 0 <= i < n && vectors[..n][i].0 == id;
        assert vectors[i].0 == id;
      } else if i :| 0 <= i < |vectors| && vectors[i].0 == id {
        assert i < n ==> vectors[..n][i].0 == id;
      }
    }
  }

  lemma {:induction false} LoadedLast(vectors: seq<(VectorId, seq<real>)>, i: nat)
    requires i < |vectors| && forall j :: i < j < |vectors| ==> vectors[j].0 != vectors[i].0
    ensures vectors[i].0 in Loaded(vectors) && Loaded(vectors)[vectors[i].0] == vectors[i].1
  {
    var n := |vectors| - 1;
    if i < n {
      assert vectors[n].0 != vectors[i].0;
      LoadedLast(vectors[..n], i);
    }
  }

  /** Every id given is loaded, and no other, with the values it was given last. */
  lemma LoadedHolds(vectors: seq<(VectorId, seq<real>)>)
    ensures forall id :: id in Loaded(vectors) <==> exists i :: 0 <= i < |vectors| && vectors[i].0 == id
    ensures forall i :: 0 <= i < |vectors| && (forall j :: i < j < |vectors| ==> vectors[j].0 != vectors[i].0) ==>
      vectors[i].0 in Loaded(vectors) && Loaded(vectors)[vectors[i].0] == vectors[i].1
  {
    hide Loaded;
    forall id ensures id in Loaded(vectors) <==> exists i :: 0 <= i < |vectors| && vectors[i].0 == id {
      LoadedIds(vectors, id);
    }
    forall i | 0 <= i < |vectors| && forall j :: i < j < |vectors| ==> vectors[j].0 != vectors[i].0
      ensures vectors[i].0 in Loaded(vectors) && Loaded(vectors)[vectors[i].0] == vectors[i].1
    {
      LoadedLast(vectors, i);
    }
  }

  datatype Coverage = Coverage(hydrated: nat, total: nat, evictedPartitions: nat)

  /** Different keys name different partition objects. */
  ghost predicate Distinct(partitions: map<Key, Partition>) {
    forall j, k :: j in partitions && k in partitions && j != k ==> partitions[j] != partitions[k]
  }

  lemma DistinctWithout(partitions: map<Key, Partition>, gone: set<Key>)
    requires Distinct(partitions)
    ensures Distinct(partitions - gone)
    ensures forall p :: p in (partitions - gone).Values ==> p in partitions.Values
  {}

  class Budget {
    const limit: nat
    var partitions: map<Key, Partition>
    var totals: map<Key, nat>
    var evicted: set<Key>
    var used: nat
    var clock: nat

    ghost function Views(): Views
      reads this`partitions, partitions.Values
    {
      map k | k in partitions :: partitions[k].View()
    }

    ghost predicate Valid()
      reads this, partitions.Values
    {
      Distinct(partitions) && CacheValid(Views(), evicted, used, clock)
    }

    lemma ValidIs()
      ensures Valid() <==> Distinct(partitions) && CacheValid(Views(), evicted, used, clock)
    {}

    constructor (limit: nat)
      ensures Valid() && this.limit == limit && partitions == map[] && evicted == {} && totals == map[] && used == 0
    {
      this.limit, partitions, totals, evicted, used, clock := limit, map[], map[], {}, 0, 1;
    }

    method Tick() returns (now: nat)
      modifies this`clock
      ensures now == old(clock) && clock == now + 1
    {
      now := clock;
      clock := clock + 1;
    }

    /** The least recently used partition but `keep`, if there is one. */
    method Victim(keep: Key) returns (victim: Option<Key>)
      ensures victim.None? ==> partitions.Keys <= {keep}
      ensures victim.Some? ==> LeastRecent(Views(), keep, victim.value)
    {
      victim := None;
      var rest := partitions.Keys;
      while rest != {}
        invariant rest <= partitions.Keys
        invariant victim.None? ==> forall k :: k in partitions && k !in rest ==> k == keep
        invariant victim.Some? ==> victim.value in partitions && victim.value != keep
        invariant victim.Some? ==>
          forall k :: k in partitions && k !in rest && k != keep ==> partitions[victim.value].lastUsed <= partitions[k].lastUsed
        decreases |rest|
      {
        var k :| k in rest;
        rest := rest - {k};
        if k != keep && (victim.None? || partitions[k].lastUsed < partitions[victim.value].lastUsed) {
          victim := Some(k);
        }
      }
    }

    /** Evict one partition. */
    method Evict(key: Key)
      requires key in partitions && partitions[key].bytes <= used
      modifies this`partitions, this`evicted, this`used
      ensures partitions == old(partitions) - {key} && Views() == old(Views()) - {key}
      ensures evicted == old(evicted) + {key} && used == old(used) - old(Views())[key].bytes
    {
      used := used - partitions[key].bytes;
      partitions := partitions - {key};
      evicted := evicted + {key};
    }

    /** Evict the least recently used partition but `keep`, if there is one. */
    method EvictNext(keep: Key, need: nat, ghost views0: Views, ghost parts0: map<Key, Partition>, ghost evicted0: set<Key>,
                     ghost before: seq<Key>)
      returns (victim: Option<Key>)
      requires used + need > limit
      requires EvictedSoFar(views0, parts0, evicted0, Views(), partitions, evicted, used, clock, keep, need, limit, before)
      modifies this`partitions, this`evicted, this`used
      ensures victim.None? ==> partitions.Keys <= {keep}
      ensures victim.Some? ==> |partitions| < |old(partitions)|
      ensures EvictedSoFar(views0, parts0, evicted0, Views(), partitions, evicted, used, clock, keep, need, limit,
                if victim.Some? then before + [victim.value] else before)
      ensures victim.None? ==> used == old(used)
    {
      hide *;
      victim := Victim(keep);
      if victim.Some? {
        InViews(victim.value);
        EvictOne(views0, parts0, evicted0, Views(), partitions, evicted, used, clock, keep, need, limit, before, victim.value);
        FewerWithout(partitions, victim.value);
        Evict(victim.value);
      }
    }

    /** Evict least recently used partitions, never `keep`, until `need` more bytes fit; whether they do. */
    method MakeRoom(need: nat, keep: Key) returns (ok: bool, ghost victims: seq<Key>)
      requires CacheValid(Views(), evicted, used, clock)
      modifies this`partitions, this`evicted, this`used
      ensures CacheValid(Views(), evicted, used, clock) && partitions == old(partitions) - Keys(victims)
      ensures Views() == old(Views()) - Keys(victims) && evicted == old(evicted) + Keys(victims)
      ensures Evictions(old(Views()), keep, need, limit, victims)
      ensures ok <==> used + need <= limit
      ensures !ok ==> partitions.Keys <= {keep}
    {
      ok, victims := EvictAll(need, keep, Views(), partitions, evicted);
    }

    method EvictAll(need: nat, keep: Key, ghost views0: Views, ghost parts0: map<Key, Partition>, ghost evicted0: set<Key>)
      returns (ok: bool, ghost victims: seq<Key>)
      requires CacheValid(Views(), evicted, used, clock)
      requires views0 == Views() && parts0 == partitions && evicted0 == evicted
      modifies this`partitions, this`evicted, this`used
      ensures EvictedSoFar(views0, parts0, evicted0, Views(), partitions, evicted, used, clock, keep, need, limit, victims)
      ensures ok <==> used + need <= limit
      ensures !ok ==> partitions.Keys <= {keep}
    {
      hide *;
      victims := [];
      NoVictims(views0, parts0, evicted, used, clock, keep, need, limit);
      while used + need > limit
        invariant EvictedSoFar(views0, parts0, evicted0, Views(), partitions, evicted, used, clock, keep, need, limit, victims)
        decreases |partitions|
      {
        var victim := EvictNext(keep, need, views0, parts0, evicted0, victims);
        if victim.None? { return false, victims; }
        victims := victims + [victim.value];
      }
      ok := true;
    }

    lemma InViews(key: Key)
      ensures key in Views() <==> key in partitions
      ensures key in partitions ==> Views()[key] == partitions[key].View() && Views()[key].bytes == partitions[key].bytes
    {}

    /** Replace a partition by the vectors of its sealed store, evicting others if needed. */
    method Hydrate(key: Key, vectors: seq<(VectorId, seq<real>)>) returns (r: Result<(), nat>, ghost victims: seq<Key>)
      requires Valid()
      modifies this`partitions, this`evicted, this`used, this`totals, this`clock
      ensures Valid()
      ensures r.Failure? ==> r.error > limit && Views() == old(Views()) - {key} && evicted == old(evicted) + {key}
      ensures r.Success? ==>
        && key in partitions && fresh(partitions[key]) && partitions[key].bytes <= limit && used <= limit
        && partitions[key].View().Valid() && partitions[key].View().Contents() == Loaded(vectors)
        && partitions[key].lastUsed == old(clock)
        && Views() == (old(Views()) - {key} - Keys(victims))[key := partitions[key].View()]
        && Evictions(old(Views()) - {key}, key, partitions[key].bytes, limit, victims)
        && evicted == old(evicted) + Keys(victims) - {key}
      ensures key in totals && |Loaded(vectors)| <= totals[key]
      ensures totals == old(totals)[key := totals[key]]
      ensures key in old(totals) ==> totals[key] == old(totals)[key] || totals[key] == |Loaded(vectors)|
    {
      hide *;
      ValidIs();
      var built := Build(vectors);
      built.View().CountsItsContents();
      ViewParts(built);
      var count := |built.vectors|;
      var now := Tick();
      built.Touch(now);
      ViewParts(built);
      Later(Views(), evicted, used, now);
      ValidIs();
      ForgetIfThere(key);
      ValidIs();
      StillNeverUsed(old(Views()), {key}, now);
      totals := totals[key := if key in totals && totals[key] > count then totals[key] else count];
      victims := [];
      if built.bytes > limit {
        InViews(key);
        MarkEvicted(Views(), evicted, used, clock, key);
        evicted := evicted + {key};
        ValidIs();
        return Failure(built.bytes), victims;
      }
      ValidIs();
      victims := InsertWithRoom(key, built);
      r := Success(());
    }

    /** Take a partition out, if it is there. */
    method ForgetIfThere(key: Key)
      requires Valid()
      modifies this`partitions, this`used
      ensures Valid()
      ensures partitions == old(partitions) - {key} && Views() == old(Views()) - {key}
    {
      DistinctWithout(partitions, {key});
      InViews(key);
      if key in partitions {
        DropOne(Views(), key, evicted, used, clock);
        hide CacheValid;
        Forget(key);
      } else {
        MinusAbsent(Views(), key);
        MinusAbsent(partitions, key);
      }
    }

    /** Make room for a partition, which must succeed, and put it in. */
    method InsertWithRoom(key: Key, built: Partition) returns (ghost victims: seq<Key>)
      requires Valid()
      requires key !in partitions && built !in partitions.Values && built.bytes <= limit
      requires built.View().Valid() && built.lastUsed < clock && NeverUsed(Views(), built.lastUsed)
      modifies this`partitions, this`evicted, this`used
      ensures Valid()
      ensures key in partitions && partitions[key] == built && used <= limit
      ensures Views() == (old(Views()) - Keys(victims))[key := built.View()]
      ensures evicted == old(evicted) + Keys(victims) - {key}
      ensures Evictions(old(Views()), key, built.bytes, limit, victims)
    {
      hide *;
      ValidIs();
      var fits;
      fits, victims := MakeRoom(built.bytes, key);
      InViews(key);
      if !fits {
        KeysOfViews();
        AloneItFits(Views(), evicted, used, clock, key);
      }
      StillNeverUsed(old(Views()), Keys(victims), built.lastUsed);
      ViewParts(built);
      AddOne(Views(), key, built.View(), evicted, used, clock);
      DistinctWithout(old(partitions), Keys(victims));
      Put(key, built);
      ValidIs();
    }

    method Put(key: Key, built: Partition)
      requires Distinct(partitions) && key !in partitions && built !in partitions.Values
      modifies this`partitions, this`evicted, this`used
      ensures Distinct(partitions) && partitions == old(partitions)[key := built] && used == old(used) + built.bytes
      ensures Views() == old(Views())[key := built.View()] && evicted == old(evicted) - {key}
    {
      used := used + built.bytes;
      partitions := partitions[key := built];
      evicted := evicted - {key};
    }

    lemma KeysOfViews()
      ensures Views().Keys == partitions.Keys
    {}

    lemma ViewParts(p: Partition)
      ensures p.View() == PartitionView(p.vectors, p.positions, p.bytes, p.lastUsed)
    {}

    lemma ViewHolds(view: PartitionView)
      requires view.Valid()
      ensures Inverse(view.vectors, view.positions) && view.Contents() == ContentsOf(view.vectors, view.positions)
    {}

    method Build(vectors: seq<(VectorId, seq<real>)>) returns (built: Partition)
      ensures fresh(built) && built.View().Valid() && built.View().Contents() == Loaded(vectors)
    {
      built := new Partition();
      for n := 0 to |vectors|
        invariant built.View().Valid() && fresh(built) && built.View().Contents() == Loaded(vectors[..n])
      {
        var delta := built.Upsert(vectors[n].0, vectors[n].1);
        assert vectors[..n + 1][..n] == vectors[..n];
      }
      assert vectors[..|vectors|] == vectors;
    }

    method Forget(key: Key)
      requires key in partitions && partitions[key].bytes <= used
      modifies this`partitions, this`used
      ensures partitions == old(partitions) - {key} && Views() == old(Views()) - {key}
      ensures used == old(used) - old(Views())[key].bytes
    {
      used := used - partitions[key].bytes;
      partitions := partitions - {key};
    }

    /** Insert or replace one vector in one partition object, and mark it as used. */
    method AddTo(key: Key, id: VectorId, values: seq<real>, now: nat) returns (delta: int)
      requires Distinct(partitions) && key in partitions && partitions[key].View().Valid()
      modifies partitions[key]
      ensures Touched(old(partitions[key].View()), partitions[key].View(), id, values, now)
      ensures partitions[key].View().Valid() && delta == partitions[key].bytes - old(partitions[key].bytes)
      ensures Views() == old(Views())[key := partitions[key].View()]
    {
      hide SumBytes, Inverse, ContentsOf;
      var target := partitions[key];
      delta := target.Upsert(id, values);
      target.Touch(now);
    }

    /** Remove one vector from one partition object. */
    method RemoveFrom(key: Key, id: VectorId) returns (size: nat)
      requires Distinct(partitions) && key in partitions && partitions[key].View().Valid()
      modifies partitions[key]
      ensures VectorRemoved(old(partitions[key].View()), partitions[key].View(), id)
      ensures partitions[key].View().Valid() && size == old(partitions[key].bytes) - partitions[key].bytes
      ensures size > 0 <==> id in old(partitions[key].positions)
      ensures Views() == old(Views())[key := partitions[key].View()]
    {
      hide SumBytes, Inverse, ContentsOf;
      size := partitions[key].Remove(id);
    }

    /** Mark one partition object as used. */
    method Use(key: Key, now: nat)
      requires Distinct(partitions) && key in partitions && partitions[key].View().Valid()
      modifies partitions[key]
      ensures partitions[key].View() == old(partitions[key].View()).(lastUsed := now) && partitions[key].View().Valid()
      ensures Views() == old(Views())[key := partitions[key].View()]
    {
      hide SumBytes, Inverse, ContentsOf;
      partitions[key].Touch(now);
    }

    /** Insert or replace one vector of a partition that is in memory; whether it is. */
    method Upsert(key: Key, id: VectorId, values: seq<real>) returns (there: bool, ghost victims: seq<Key>)
      requires Valid()
      modifies this`partitions, this`evicted, this`used, this`totals, this`clock, partitions.Values
      ensures Valid()
      ensures there <==> key in old(partitions)
      ensures !there ==> Views() == old(Views()) && evicted == old(evicted) && totals == old(totals) && used == old(used)
      ensures there ==> key in partitions && key in old(Views()) && Touched(old(Views())[key], partitions[key].View(), id, values, old(clock))
      ensures there ==> Evictions(old(Views())[key := partitions[key].View()], key, 0, limit, victims)
      ensures there ==> Views() == old(Views())[key := partitions[key].View()] - Keys(victims)
      ensures there ==> evicted == old(evicted) + Keys(victims)
      ensures there ==> used <= limit || partitions.Keys == {key}
      ensures there ==> totals == if id in old(partitions[key].positions) then old(totals)
                                  else old(totals)[key := 1 + if key in old(totals) then old(totals)[key] else 0]
    {
      hide *;
      ValidIs();
      victims := [];
      if key !in partitions { return false, []; }
      there := true;
      InViews(key);
      ghost var views := Views();
      ViewIsValid(views, key, evicted, used, clock);
      var existed := id in partitions[key].positions;
      var now := Tick();
      ViewParts(partitions[key]);
      var delta := AddTo(key, id, values, now);
      ViewParts(partitions[key]);
      WasTouched(views[key], partitions[key].View(), id, values, now);
      ReplaceOne(views, key, partitions[key].View(), evicted, used, now, clock);
      used := used + delta;
      if !existed {
        totals := totals[key := 1 + if key in totals then totals[key] else 0];
      }
      NoVictims(Views(), partitions, evicted, used, clock, key, 0, limit);
      if used > limit {
        var fits;
        ghost var full, parts := Views(), partitions;
        fits, victims := MakeRoom(0, key);
        DistinctWithout(parts, Keys(victims));
        KeepStays(full, key, 0, limit, victims);
        InViews(key);
      }
      ValidIs();
    }

    /** Remove one vector, from memory and from the partition's total. */
    method Remove(key: Key, id: VectorId)
      requires Valid()
      modifies this`used, this`totals, partitions.Values
      ensures Valid()
      ensures key !in partitions ==> Views() == old(Views()) && totals == old(totals) && used == old(used)
      ensures key in partitions ==> key in old(Views()) && old(Views())[key].Valid()
      ensures key in partitions ==> VectorRemoved(old(Views())[key], partitions[key].View(), id)
      ensures key in partitions ==> Views() == old(Views())[key := partitions[key].View()]
      ensures totals == if key in partitions && key in old(totals) && id in old(partitions[key].positions) && old(totals)[key] > 0
                        then old(totals)[key := old(totals)[key] - 1] else old(totals)
    {
      hide *;
      ValidIs();
      if key !in partitions { return; }
      InViews(key);
      ghost var views := Views();
      ViewIsValid(views, key, evicted, used, clock);
      ViewParts(partitions[key]);
      var removed := RemoveFrom(key, id);
      ViewParts(partitions[key]);
      RemovedKeepsUse(views[key], partitions[key].View(), id);
      ReplaceOne(views, key, partitions[key].View(), evicted, used, clock, clock);
      used := used - removed;
      if removed > 0 && key in totals {
        totals := totals[key := if totals[key] > 0 then totals[key] - 1 else 0];
      }
      ValidIs();
    }

    /** Drop a partition entirely. */
    method DropPartition(key: Key)
      requires Valid()
      modifies this`partitions, this`used, this`totals, this`evicted
      ensures Valid()
      ensures Views() == old(Views()) - {key} && evicted == old(evicted) - {key} && totals == old(totals) - {key}
    {
      hide *;
      ValidIs();
      ForgetIfThere(key);
      ValidIs();
      UnmarkEvicted(Views(), evicted, used, clock, key);
      totals := totals - {key};
      evicted := evicted - {key};
      ValidIs();
    }

    /** Record how many vectors a partition has, without loading it. */
    method SetPartitionTotal(key: Key, total: nat)
      requires Valid()
      modifies this`totals
      ensures Valid() && totals == old(totals)[key := total]
    {
      hide CacheValid, Distinct;
      totals := totals[key := total];
    }

    /** The best `k` vectors of a partition in memory that the scope accepts, or nothing when it is not in memory. */
    method Search(key: Key, query: seq<real>, k: nat, keep: VectorId -> bool, score: (seq<real>, seq<real>) -> int)
      returns (r: Option<seq<(VectorId, int)>>)
      requires Valid()
      modifies this`clock, partitions.Values
      ensures Valid()
      ensures r.Some? <==> key in partitions
      ensures key !in partitions ==> Views() == old(Views())
      ensures key in partitions ==> key in old(Views())
      ensures key in partitions ==> Views() == old(Views())[key := old(Views())[key].(lastUsed := old(clock))]
      ensures r.Some? ==> old(Views()[key].Valid()) && Answers(old(Views()[key].Contents()), query, k, keep, score, r.value)
    {
      hide *;
      ValidIs();
      if key !in partitions { return None; }
      InViews(key);
      ghost var views := Views();
      ViewIsValid(views, key, evicted, used, clock);
      ViewParts(partitions[key]);
      var now := Tick();
      Use(key, now);
      ViewParts(partitions[key]);
      ReplaceOne(views, key, partitions[key].View(), evicted, used, now, clock);
      ViewHolds(views[key]);
      var found := TopOf(partitions[key].vectors, views[key].positions, query, k, keep, score);
      ValidIs();
      r := Some(found);
    }

    method CountHydrated(index: nat) returns (hydrated: nat)
      ensures hydrated == SumOver(partitions.Keys, HydratedIn(Views(), index))
    {
      hydrated := 0;
      var rest := partitions.Keys;
      ghost var f := HydratedIn(Views(), index);
      while rest != {}
        invariant rest <= partitions.Keys && hydrated + SumOver(rest, f) == SumOver(partitions.Keys, f)
        decreases |rest|
      {
        var k :| k in rest;
        SumOverWithout(rest, f, k);
        if k.index == index { hydrated := hydrated + |partitions[k].vectors|; }
        rest := rest - {k};
      }
    }

    /** What part of an index is in memory. */
    method CoverageOf(index: nat) returns (c: Coverage)
      ensures c.hydrated == SumOver(partitions.Keys, HydratedIn(Views(), index))
      ensures c.total == Larger(SumOver(totals.Keys, TotalIn(totals, index)), c.hydrated)
      ensures c.evictedPartitions == |set k | k in evicted && k.index == index|
    {
      hide *;
      ValidIs();
      var hydrated := CountHydrated(index);
      var total := CountTotals(totals, index);
      c := Coverage(hydrated, Larger(total, hydrated), |set k | k in evicted && k.index == index|);
    }
  }

  method CountTotals(totals: map<Key, nat>, index: nat) returns (total: nat)
    ensures total == SumOver(totals.Keys, TotalIn(totals, index))
  {
    total := 0;
    var rest := totals.Keys;
    ghost var f := TotalIn(totals, index);
    while rest != {}
      invariant rest <= totals.Keys && total + SumOver(rest, f) == SumOver(totals.Keys, f)
      decreases |rest|
    {
      var k :| k in rest;
      SumOverWithout(rest, f, k);
      if k.index == index { total := total + totals[k]; }
      rest := rest - {k};
    }
  }

  function Larger(a: nat, b: nat): nat {
    if a > b then a else b
  }

  ghost function SumOver(keys: set<Key>, f: Key -> nat): nat {
    if keys == {} then 0
    else
      var k :| k in keys;
      f(k) + SumOver(keys - {k}, f)
  }

  lemma {:induction false} SumOverWithout(keys: set<Key>, f: Key -> nat, k: Key)
    requires k in keys
    ensures SumOver(keys, f) == f(k) + SumOver(keys - {k}, f)
    decreases |keys|
  {
    var j :| j in keys && SumOver(keys, f) == f(j) + SumOver(keys - {j}, f);
    if j != k {
      SumOverWithout(keys - {j}, f, k);
      SumOverWithout(keys - {k}, f, j);
      assert keys - {j} - {k} == keys - {k} - {j};
    }
  }

  /** How many vectors a partition of an index has in memory, and how many it is known to have. */
  function HydratedIn(views: Views, index: nat): Key -> nat {
    k => if k in views && k.index == index then |views[k].vectors| else 0
  }

  function TotalIn(totals: map<Key, nat>, index: nat): Key -> nat {
    k => if k in totals && k.index == index then totals[k] else 0
  }

  /** The vectors a search ranks, by position: those of the query's length that the scope accepts. */
  function Candidates(vectors: seq<StoredVector>, query: seq<real>, keep: VectorId -> bool, score: (seq<real>, seq<real>) -> int):
    seq<Scored<nat>>
  {
    if vectors == [] then []
    else
      var n := |vectors| - 1;
      var v := vectors[n];
      Candidates(vectors[..n], query, keep, score)
      + if |v.values| == |query| && keep(v.id) then [Scored(n, score(v.values, query))] else []
  }

  /** The ids of what a search may find among stored contents. */
  ghost function InScope(contents: map<VectorId, seq<real>>, query: seq<real>, keep: VectorId -> bool): set<VectorId> {
    set id | id in contents && |contents[id]| == |query| && keep(id)
  }

  /**
   `found` answers a search of `contents`: ids in scope, each once and with its score, best first; as
   many as asked for, or all; and no id in scope that was left out scores more than one that was not.
   */
  ghost predicate Answers(contents: map<VectorId, seq<real>>, query: seq<real>, k: nat, keep: VectorId -> bool,
                          score: (seq<real>, seq<real>) -> int, found: seq<(VectorId, int)>)
  {
    var scope := InScope(contents, query, keep);
    && |found| == (if k < |scope| then k else |scope|)
    && (forall i :: 0 <= i < |found| ==> found[i].0 in scope && found[i].1 == score(contents[found[i].0], query))
    && (forall i, j :: 0 <= i < j < |found| ==> found[i].0 != found[j].0 && found[i].1 >= found[j].1)
    && (forall id, i :: id in scope && 0 <= i < |found| && (forall j :: 0 <= j < |found| ==> found[j].0 != id) ==>
          score(contents[id], query) <= found[i].1)
  }

  lemma {:induction false} CandidateIsStored(vectors: seq<StoredVector>, query: seq<real>, keep: VectorId -> bool,
                                             score: (seq<real>, seq<real>) -> int, c: Scored<nat>)
    ensures c in Candidates(vectors, query, keep, score) <==>
      c.item < |vectors| && |vectors[c.item].values| == |query| && keep(vectors[c.item].id)
      && c.score == score(vectors[c.item].values, query)
  {
    if vectors != [] {
      var n := |vectors| - 1;
      CandidateIsStored(vectors[..n], query, keep, score, c);
      assert c.item < n ==> vectors[..n][c.item] == vectors[c.item];
    }
  }

  lemma {:induction false} CandidatesDiffer(vectors: seq<StoredVector>, query: seq<real>, keep: VectorId -> bool,
                                            score: (seq<real>, seq<real>) -> int)
    ensures Different(Candidates(vectors, query, keep, score))
  {
    if vectors != [] {
      var n := |vectors| - 1;
      var before := Candidates(vectors[..n], query, keep, score);
      CandidatesDiffer(vectors[..n], query, keep, score);
      forall i | 0 <= i < |before| ensures before[i].item < n {
        assert before[i] in before;
        CandidateIsStored(vectors[..n], query, keep, score, before[i]);
      }
    }
  }

  /** The candidates are exactly the stored vectors in scope, each once, with its score. */
  lemma CandidatesAreStored(vectors: seq<StoredVector>, query: seq<real>, keep: VectorId -> bool,
                            score: (seq<real>, seq<real>) -> int)
    ensures var all := Candidates(vectors, query, keep, score);
      && Different(all)
      && (forall c :: c in all <==>
            c.item < |vectors| && |vectors[c.item].values| == |query| && keep(vectors[c.item].id)
            && c.score == score(vectors[c.item].values, query))
  {
    hide Candidates;
    CandidatesDiffer(vectors, query, keep, score);
    forall c ensures c in Candidates(vectors, query, keep, score) <==>
      c.item < |vectors| && |vectors[c.item].values| == |query| && keep(vectors[c.item].id)
      && c.score == score(vectors[c.item].values, query)
    {
      CandidateIsStored(vectors, query, keep, score, c);
    }
  }

  ghost function IdsOf(vectors: seq<StoredVector>, all: seq<Scored<nat>>): set<VectorId>
    requires forall c :: c in all ==> c.item < |vectors|
  {
    set c | c in all :: vectors[c.item].id
  }

  lemma {:induction false} AsManyIds(vectors: seq<StoredVector>, positions: map<VectorId, nat>, all: seq<Scored<nat>>)
    requires Inverse(vectors, positions) && Different(all) && forall c :: c in all ==> c.item < |vectors|
    ensures |IdsOf(vectors, all)| == |all|
  {
    if all != [] {
      var n := |all| - 1;
      AsManyIds(vectors, positions, all[..n]);
      assert all == all[..n] + [all[n]];
      var id := vectors[all[n].item].id;
      assert IdsOf(vectors, all) == IdsOf(vectors, all[..n]) + {id};
      forall c | c in all[..n] ensures vectors[c.item].id != id {
        assert c.item != all[n].item;
        assert positions[vectors[c.item].id] == c.item;
      }
    }
  }

  lemma CandidatesAreInScope(vectors: seq<StoredVector>, positions: map<VectorId, nat>, query: seq<real>,
                             keep: VectorId -> bool, score: (seq<real>, seq<real>) -> int)
    requires Inverse(vectors, positions)
    ensures |Candidates(vectors, query, keep, score)| == |InScope(ContentsOf(vectors, positions), query, keep)|
  {
    var all, scope := Candidates(vectors, query, keep, score), InScope(ContentsOf(vectors, positions), query, keep);
    CandidatesAreStored(vectors, query, keep, score);
    AsManyIds(vectors, positions, all);
    forall id ensures id in IdsOf(vectors, all) <==> id in scope {
      if id in scope {
        var i := positions[id];
        assert Scored(i, score(vectors[i].values, query)) in all;
      }
    }
    assert IdsOf(vectors, all) == scope;
  }

  /** The best candidates, named by their ids, answer the search. */
  lemma BestAnswer(vectors: seq<StoredVector>, positions: map<VectorId, nat>, query: seq<real>, k: nat, keep: VectorId -> bool,
                   score: (seq<real>, seq<real>) -> int, top: seq<Scored<nat>>, found: seq<(VectorId, int)>)
    requires Inverse(vectors, positions) && BestOf(k, Candidates(vectors, query, keep, score), top) && Descending(top)
    requires |found| == |top|
    requires forall i :: 0 <= i < |top| ==> top[i].item < |vectors| && found[i] == (vectors[top[i].item].id, top[i].score)
    ensures Answers(ContentsOf(vectors, positions), query, k, keep, score, found)
  {
    hide BestOf;
    var all, contents := Candidates(vectors, query, keep, score), ContentsOf(vectors, positions);
    CandidatesAreStored(vectors, query, keep, score);
    CandidatesAreInScope(vectors, positions, query, keep, score);
    BestMeans(k, all, top);
    hide Candidates;
    forall i | 0 <= i < |found| ensures found[i].0 in InScope(contents, query, keep) && found[i].1 == score(contents[found[i].0], query) {
      assert top[i] in all;
    }
    forall i, j | 0 <= i < j < |found| ensures found[i].0 != found[j].0 && found[i].1 >= found[j].1 {}
    forall id, i | id in InScope(contents, query, keep) && 0 <= i < |found| && (forall j :: 0 <= j < |found| ==> found[j].0 != id)
      ensures score(contents[id], query) <= found[i].1
    {
      var c := Scored(positions[id], score(contents[id], query));
      assert c in all;
      forall j | 0 <= j < |top| ensures top[j] != c { assert found[j].0 != id; }
      assert top[i] in top;
    }
  }

  method TopOf(vectors: seq<StoredVector>, ghost positions: map<VectorId, nat>, query: seq<real>, k: nat,
               keep: VectorId -> bool, score: (seq<real>, seq<real>) -> int)
    returns (found: seq<(VectorId, int)>)
    requires Inverse(vectors, positions)
    ensures Answers(ContentsOf(vectors, positions), query, k, keep, score, found)
  {
    hide BestOf, Answers;
    var scored: seq<Scored<nat>> := [];
    for i := 0 to |vectors|
      invariant scored == Candidates(vectors[..i], query, keep, score)
    {
      assert vectors[..i + 1][..i] == vectors[..i];
      var v := vectors[i];
      if |v.values| == |query| && keep(v.id) {
        scored := scored + [Scored(i, score(v.values, query))];
      }
    }
    assert vectors[..|vectors|] == vectors;
    var top := SelectBest(k, scored);
    CandidatesAreStored(vectors, query, keep, score);
    BestMeans(k, scored, top);
    found := [];
    for i := 0 to |top|
      invariant |found| == i
      invariant forall j :: 0 <= j < i ==> top[j].item < |vectors| && found[j] == (vectors[top[j].item].id, top[j].score)
    {
      assert top[i] in scored;
      found := found + [(vectors[top[i].item].id, top[i].score)];
    }
    BestAnswer(vectors, positions, query, k, keep, score, top, found);
  }
}
