/**
 * The broker map: a mutable map from broker ID to broker. Update reconciles
 * it with a target list and live metadata in three passes, SubStorage adds
 * partition sizes back to free storage, and Filter, List and Copy read it.
 * Each state-changing method is proved to compute the pure function of the
 * previous contents that modules Reconcile and Capacity define.
 */
module Brokers {
  import opened BrokerTypes
  import opened Reconcile
  import opened Capacity

  class BrokerMap {
    var brokers: map<int, Broker>

    /** Every key names the broker it maps to. */
    ghost predicate Valid()
      reads this
    {
      KeysAreIds(brokers)
    }

    constructor Empty()
      ensures Valid() && brokers == map[]
    {
      brokers := map[];
    }

    /**
     * The map built from a partition map: one broker per replica ID, its
     * Used the number of replicas it holds (0 under force), its rack and
     * free storage from the metadata, plus the stub broker 0.
     */
    constructor FromPartitionMap(pm: seq<Partition>, bm: BrokerMetaMap, force: bool)
      ensures Valid()
      ensures brokers == FromPartitionMapSpec(pm, bm, force)
    {
      var m: map<int, Broker> := map[];
      var i := 0;
      while i < |pm|
        invariant 0 <= i <= |pm|
        invariant m == Built(Replicas(pm[..i]), bm, force)
      {
        m := TallyPartition(m, Replicas(pm[..i]), pm[i].replicas, bm, force);
        ReplicasSnoc(pm, i);
        i := i + 1;
      }
      assert pm[..i] == pm;
      m := m[0 := Sentinel()];
      brokers := m;
      FromPartitionMapKeysAreIds(pm, bm, force);
    }

    /** Records the replica IDs reps of one more partition. */
    static method TallyPartition(m: map<int, Broker>, ghost seen: seq<int>, reps: seq<int>, bm: BrokerMetaMap, force: bool)
      returns (r: map<int, Broker>)
      requires m == Built(seen, bm, force)
      ensures r == Built(seen + reps, bm, force)
    {
      r := m;
      var j := 0;
      while j < |reps|
        invariant 0 <= j <= |reps|
        invariant r == Built(seen + reps[..j], bm, force)
      {
        r := Tally(r, seen + reps[..j], reps[j], bm, force);
        assert seen + reps[..j + 1] == (seen + reps[..j]) + [reps[j]];
        j := j + 1;
      }
      assert reps[..j] == reps;
    }

    /**
     * Records one replica slot of broker id: creates the broker the first
     * time its ID is seen, counts the slot unless force is set, and copies
     * its rack and free storage from the metadata when present.
     */
    static method Tally(m: map<int, Broker>, ghost seen: seq<int>, id: int, bm: BrokerMetaMap, force: bool)
      returns (r: map<int, Broker>)
      requires m == Built(seen, bm, force)
      ensures r == Built(seen + [id], bm, force)
    {
      BuiltStep(seen, id, bm, force);
      r := m;
      if id !in r {
        r := r[id := Broker(id, "", 0, 0.0, false, false, false)];
      }
      if !force {
        r := r[id := r[id].(used := r[id].used + 1)];
      }
      if id in bm {
        r := r[id := r[id].(locality := bm[id].rack, storageFree := bm[id].storageFree)];
      }
    }

    /** The target list as a set of IDs, built element by element. */
    static method TargetSet(bl: seq<int>) returns (s: set<int>)
      ensures s == IdSet(bl)
    {
      s := {};
      var i := 0;
      while i < |bl|
        invariant 0 <= i <= |bl|
        invariant s == IdSet(bl[..i])
      {
        assert bl[..i + 1] == bl[..i] + [bl[i]];
        s := s + {bl[i]};
        i := i + 1;
      }
      assert bl[..i] == bl;
    }

    /**
     * The missing-metadata pass: when metadata is in use, every previous
     * broker other than 0 that has none is flagged Replace and Missing, and
     * counted as Missing if it is a target, as OldMissing if not.
     */
    method MarkMissing(bl: set<int>, bm: BrokerMetaMap) returns (missing: nat, oldMissing: nat, msgs: seq<Event>)
      requires Valid()
      modifies this
      ensures Valid()
      ensures brokers == MissingPass(old(brokers), bm)
      ensures missing == |MissingTargetIds(old(brokers), bl, bm)|
      ensures oldMissing == |OldMissingIds(old(brokers), bl, bm)|
      ensures forall e :: e in msgs <==> e.PrevMissing? && e.id in PrevMissingIds(old(brokers), bm)
      ensures NoDuplicates(msgs) && |msgs| == |PrevMissingIds(old(brokers), bm)|
    {
      ghost var v := brokers;
      missing, oldMissing, msgs := 0, 0, [];
      ghost var done: set<int> := {};
      if |bm| > 0 {
        var todo := brokers.Keys;
        while todo != {}
          invariant forall k :: k in v <==> k in done || k in todo
          invariant forall k :: k in done ==> k !in todo
          invariant brokers == RaiseAll(v, PrevMissingIds(Restrict(v, done), bm), true)
          invariant missing == |MissingTargetIds(Restrict(v, done), bl, bm)|
          invariant oldMissing == |OldMissingIds(Restrict(v, done), bl, bm)|
          invariant forall e :: e in msgs <==> e.PrevMissing? && e.id in PrevMissingIds(Restrict(v, done), bm)
          invariant NoDuplicates(msgs) && |msgs| == |PrevMissingIds(Restrict(v, done), bm)|
          decreases todo
        {
          Inhabited(todo);
          var id :| id in todo;
          MissingStep(v, done, id, bm);
          MissingSplitStep(v, done, id, bl, bm);
          if id != 0 && id !in bm {
            AppendNew(msgs, PrevMissing(id));
            msgs := msgs + [PrevMissing(id)];
            RaiseAllStep(v, PrevMissingIds(Restrict(v, done), bm), id, true);
            brokers := brokers[id := brokers[id].(replace := true, missing := true)];
            if id in bl {
              missing := missing + 1;
            } else {
              oldMissing := oldMissing + 1;
            }
          }
          done := done + {id};
          todo := todo - {id};
        }
        RestrictAll(v, done);
      } else {
        MissingPassDisabled(v, bm);
        assert MissingTargetIds(v, bl, bm) == {} && OldMissingIds(v, bl, bm) == {};
      }
    }

    /**
     * The removal pass: every broker other than 0 that is not a target is
     * flagged Replace and counted once.
     */
    method MarkRemoved(bl: set<int>) returns (replaced: nat, msgs: seq<Event>)
      requires Valid()
      modifies this
      ensures Valid()
      ensures brokers == RemovalPass(old(brokers), bl)
      ensures replaced == |RemovalIds(old(brokers), bl)|
      ensures forall e :: e in msgs <==> e.MarkedForRemoval? && e.id in RemovalIds(old(brokers), bl)
      ensures NoDuplicates(msgs) && |msgs| == replaced
    {
      ghost var v := brokers;
      replaced, msgs := 0, [];
      ghost var raised: set<int> := {};
      var todo := brokers.Keys;
      while todo != {}
        invariant todo <= v.Keys
        invariant forall k :: k in raised <==> k in v && k !in todo && k in RemovalIds(v, bl)
        invariant brokers == RaiseAll(v, raised, false)
        invariant replaced == |raised| && |msgs| == replaced
        invariant forall e :: e in msgs <==> e.MarkedForRemoval? && e.id in raised
        invariant NoDuplicates(msgs)
        decreases todo
      {
        Inhabited(todo);
        var key :| key in todo;
        var br := brokers[key];
        if br.id != 0 && br.id !in bl {
          AppendNew(msgs, MarkedForRemoval(br.id));
          msgs := msgs + [MarkedForRemoval(br.id)];
          RaiseAllStep(v, raised, key, false);
          brokers := brokers[br.id := brokers[br.id].(replace := true)];
          replaced := replaced + 1;
          raised := raised + {key};
        }
        todo := todo - {key};
      }
      SameMembers(raised, RemovalIds(v, bl));
    }

    /**
     * The addition pass: every target not yet in the map is inserted as a
     * New broker when metadata is not in use or has an entry for it, and
     * is otherwise reported and counted as not found.
     */
    method AddNew(targets: set<int>, bm: BrokerMetaMap) returns (added: nat, notFound: nat, msgs: seq<Event>)
      requires Valid()
      modifies this
      ensures Valid()
      ensures brokers == AdditionPass(old(brokers), targets, bm)
      ensures added == |AddedIds(old(brokers), targets, bm)|
      ensures notFound == |NotFoundIds(old(brokers), targets, bm)|
      ensures forall e :: e in msgs <==> e.NotFound? && e.id in NotFoundIds(old(brokers), targets, bm)
      ensures NoDuplicates(msgs) && |msgs| == notFound
    {
      ghost var v := brokers;
      added, notFound, msgs := 0, 0, [];
      ghost var done: set<int> := {};
      var todo := targets;
      while todo != {}
        invariant forall k :: k in targets <==> k in done || k in todo
        invariant forall k :: k in done ==> k !in todo
        invariant brokers == Extend(v, AddedIds(v, done, bm), bm)
        invariant added == |AddedIds(v, done, bm)| && notFound == |NotFoundIds(v, done, bm)|
        invariant forall e :: e in msgs <==> e.NotFound? && e.id in NotFoundIds(v, done, bm)
        invariant NoDuplicates(msgs) && |msgs| == notFound
        decreases todo
      {
        Inhabited(todo);
        var id :| id in todo;
        AddedStep(v, done, id, bm);
        NotFoundStep(v, done, id, bm);
        if id !in brokers {
          if |bm| == 0 {
            ExtendStep(v, AddedIds(v, done, bm), id, bm);
            brokers := brokers[id := Broker(id, "", 0, 0.0, false, false, true)];
            added := added + 1;
          } else if id in bm {
            ExtendStep(v, AddedIds(v, done, bm), id, bm);
            brokers := brokers[id := Broker(id, bm[id].rack, 0, bm[id].storageFree, false, false, true)];
            added := added + 1;
          } else {
            AppendNew(msgs, NotFound(id));
            msgs := msgs + [NotFound(id)];
            notFound := notFound + 1;
          }
        }
        done := done + {id};
        todo := todo - {id};
      }
      SameMembers(done, targets);
    }

    /** The closing log pass: one NewBroker event per broker that carries the New flag. */
    method LogNew() returns (msgs: seq<Event>)
      requires Valid()
      ensures forall e :: e in msgs <==> e.NewBroker? && e.id in brokers && brokers[e.id].isNew
      ensures NoDuplicates(msgs) && |msgs| == |NewIds(brokers)|
    {
      msgs := [];
      ghost var seen: set<int> := {};
      ghost var logged: set<int> := {};
      var todo := brokers.Keys;
      while todo != {}
        invariant todo <= brokers.Keys
        invariant forall k :: k in seen <==> k in brokers && k !in todo
        invariant forall e :: e in msgs <==> e.NewBroker? && e.id in seen && brokers[e.id].isNew
        invariant forall k :: k in logged <==> k in seen && brokers[k].isNew
        invariant NoDuplicates(msgs) && |msgs| == |logged|
        decreases todo
      {
        Inhabited(todo);
        var key :| key in todo;
        var br := brokers[key];
        if br.isNew {
          AppendNew(msgs, NewBroker(br.id));
          msgs := msgs + [NewBroker(br.id)];
          logged := logged + {key};
        }
        seen := seen + {key};
        todo := todo - {key};
      }
      SameMembers(logged, NewIds(brokers));
    }

    /**
     * Reconciles the map with the target list bl and the live metadata bm:
     * the new contents are Reconciled, the counters are Status, and the
     * events are exactly the Reported ones, each once, pass by pass.
     */
    method Update(bl: seq<int>, bm: BrokerMetaMap) returns (bs: BrokerStatus, msgs: seq<Event>)
      requires Valid()
      modifies this
      ensures Valid()
      ensures brokers == Reconciled(old(brokers), IdSet(bl), bm)
      ensures bs == Status(old(brokers), IdSet(bl), bm)
      ensures forall e :: e in msgs <==> Reported(e, old(brokers), IdSet(bl), bm)
      ensures NoDuplicates(msgs) && InPassOrder(msgs)
      ensures |msgs| == EventCount(old(brokers), IdSet(bl), bm) <= MessageCapacity(old(brokers), bl)
    {
      ghost var v := brokers;
      var targets := TargetSet(bl);
      var missing, oldMissing, m1 := MarkMissing(targets, bm);
      ghost var v1 := brokers;
      RaiseAllKeys(v, PrevMissingIds(v, bm), true);
      SameKeysSameIds(v, v1, targets, bm);
      var replaced, m2 := MarkRemoved(targets);
      ghost var v2 := brokers;
      RaiseAllKeys(v1, RemovalIds(v1, targets), false);
      SameKeysSameIds(v, v2, targets, bm);
      var added, notFound, m3 := AddNew(targets, bm);
      var m4 := LogNew();
      bs := BrokerStatus(added, missing + notFound, oldMissing, replaced);
      msgs := m1 + m2 + m3 + m4;
      UpdateLog(v, targets, bm, m1, m2, m3, m4);
      EventsFitCapacity(v, bl, bm);
    }

    /** Adds each partition's size back to the free storage of every replica broker that f selects; fails on the first unknown size or broker. */
    method SubStorage(pm: seq<Partition>, pmm: PartitionMetaMap, f: Broker -> bool) returns (err: Option<StorageError>)
      requires Valid()
      modifies this
      ensures Valid()
      ensures (brokers, err) == SubStorageSpec(old(brokers), pm, pmm, f)
    {
      ghost var v := brokers;
      var i := 0;
      while i < |pm|
        invariant 0 <= i <= |pm|
        invariant KeysAreIds(brokers)
        invariant SubStorageSpec(v, pm, pmm, f) == SubStorageSpec(brokers, pm[i..], pmm, f)
      {
        var partn := pm[i];
        assert pm[i..][0] == partn && pm[i..][1..] == pm[i + 1..];
        var size := Size(pmm, partn);
        if size.None? {
          return Some(SizeNotFound(partn.topic, partn.partition));
        }
        ghost var w := brokers;
        var reps := partn.replicas;
        var j := 0;
        while j < |reps|
          invariant 0 <= j <= |reps|
          invariant KeysAreIds(brokers)
          invariant AddBack(w, reps, size.value, f) == AddBack(brokers, reps[j..], size.value, f)
        {
          var bid := reps[j];
          assert reps[j..][0] == bid && reps[j..][1..] == reps[j + 1..];
          if bid in brokers {
            if f(brokers[bid]) {
              brokers := brokers[bid := brokers[bid].(storageFree := brokers[bid].storageFree + size.value)];
            }
          } else {
            return Some(BrokerNotFound(bid));
          }
          j := j + 1;
        }
        i := i + 1;
      }
      err := None;
    }

    /** The brokers other than 0 that f selects, under their keys. */
    method Filter(f: Broker -> bool) returns (r: map<int, Broker>)
      requires Valid()
      ensures forall k :: k in r <==> k in brokers && k != 0 && f(brokers[k])
      ensures forall k :: k in r ==> r[k] == brokers[k]
      ensures KeysAreIds(r)
    {
      r := map[];
      var todo := brokers.Keys;
      while todo != {}
        invariant todo <= brokers.Keys
        invariant forall k :: k in r <==> k in brokers && k !in todo && k != 0 && f(brokers[k])
        invariant forall k :: k in r ==> r[k] == brokers[k]
        decreases todo
      {
        Inhabited(todo);
        var key :| key in todo;
        var br := brokers[key];
        if br.id != 0 && f(br) {
          r := r[br.id := br];
        }
        todo := todo - {key};
      }
    }

    /** Every broker of the map, each exactly once, in some order. */
    method List() returns (l: seq<Broker>)
      requires Valid()
      ensures |l| == |brokers|
      ensures forall k :: k in brokers ==> brokers[k] in l
      ensures forall b :: b in l ==> b.id in brokers && brokers[b.id] == b
      ensures NoDuplicates(l)
    {
      l := [];
      ghost var seen: set<int> := {};
      var todo := brokers.Keys;
      while todo != {}
        invariant todo <= brokers.Keys
        invariant forall k :: k in seen <==> k in brokers && k !in todo
        invariant |l| + |todo| == |brokers.Keys|
        invariant forall b :: b in l <==> b.id in seen && brokers[b.id] == b
        invariant NoDuplicates(l)
        decreases todo
      {
        Inhabited(todo);
        var key :| key in todo;
        var br := brokers[key];
        AppendNew(l, br);
        l := l + [br];
        seen := seen + {key};
        todo := todo - {key};
      }
      assert |brokers.Keys| == |brokers|;

    }

    /** A separate map object with the same brokers. */
    method Copy() returns (c: BrokerMap)
      requires Valid()
      ensures fresh(c)
      ensures c.Valid() && c.brokers == brokers
    {
      c := new BrokerMap.Empty();
      var todo := brokers.Keys;
      while todo != {}
        invariant todo <= brokers.Keys
        invariant c.brokers == map k | k in brokers && k !in todo :: brokers[k]
        invariant fresh(c)
        decreases todo
      {
        Inhabited(todo);
        var id :| id in todo;
        var br := brokers[id];
        c.brokers := c.brokers[id := br.Copy()];
        todo := todo - {id};
      }
    }
  }

  /** The concatenated pass logs keep each pass's events, in pass order and without repeats. */
  lemma EventsOfPasses(m1: seq<Event>, m2: seq<Event>, m3: seq<Event>, m4: seq<Event>)
    requires forall e :: e in m1 ==> e.PrevMissing?
    requires forall e :: e in m2 ==> e.MarkedForRemoval?
    requires forall e :: e in m3 ==> e.NotFound?
    requires forall e :: e in m4 ==> e.NewBroker?
    requires NoDuplicates(m1) && NoDuplicates(m2) && NoDuplicates(m3) && NoDuplicates(m4)
    ensures NoDuplicates(m1 + m2 + m3 + m4)
    ensures InPassOrder(m1 + m2 + m3 + m4)
  {
    assert forall e :: e in m1 ==> Pass(e) == 0;
    assert forall e :: e in m2 ==> Pass(e) == 1;
    assert forall e :: e in m3 ==> Pass(e) == 2;
    assert forall e :: e in m4 ==> Pass(e) == 3;
    ConcatDistinct(m1, m2);
    ConcatDistinct(m1 + m2, m3);
    ConcatDistinct(m1 + m2 + m3, m4);
    ConcatOrdered([], m1, 0);
    assert [] + m1 == m1;
    ConcatOrdered(m1, m2, 1);
    ConcatOrdered(m1 + m2, m3, 2);
    ConcatOrdered(m1 + m2 + m3, m4, 3);
  }

  /** The concatenated pass logs of a reconciliation report exactly its events, each once, pass by pass. */
  lemma UpdateLog(v: Entries, bl: set<int>, bm: BrokerMetaMap, m1: seq<Event>, m2: seq<Event>, m3: seq<Event>, m4: seq<Event>)
    requires forall e :: e in m1 <==> e.PrevMissing? && e.id in PrevMissingIds(v, bm)
    requires forall e :: e in m2 <==> e.MarkedForRemoval? && e.id in RemovalIds(v, bl)
    requires forall e :: e in m3 <==> e.NotFound? && e.id in NotFoundIds(v, bl, bm)
    requires forall e :: e in m4 <==> e.NewBroker? && e.id in Reconciled(v, bl, bm) && Reconciled(v, bl, bm)[e.id].isNew
    requires NoDuplicates(m1) && NoDuplicates(m2) && NoDuplicates(m3) && NoDuplicates(m4)
    ensures forall e :: e in m1 + m2 + m3 + m4 <==> Reported(e, v, bl, bm)
    ensures NoDuplicates(m1 + m2 + m3 + m4) && InPassOrder(m1 + m2 + m3 + m4)
  {
    EventsOfPasses(m1, m2, m3, m4);
  }
}
