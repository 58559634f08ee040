/**
 * The partition-driven side of the broker map, stated on values: building a
 * map from the replica lists of a partition map, and adding partition sizes
 * back to the free storage of the brokers that hold them.
 */
module Capacity {
  import opened BrokerTypes
  import opened Reconcile

  // ---- replica occurrences ----

  /** How often k occurs in s. */
  function Count(s: seq<int>, k: int): nat
  {
    if |s| == 0 then 0 else (if s[0] == k then 1 else 0) + Count(s[1..], k)
  }

  /** The number of replica slots broker k holds across the partitions. */
  function Occurrences(pm: seq<Partition>, k: int): nat
  {
    if |pm| == 0 then 0 else Count(pm[0].replicas, k) + Occurrences(pm[1..], k)
  }

  /** A partition map holds broker k in some replica list. */
  predicate Holds(pm: seq<Partition>, k: int)
  {
    exists i :: 0 <= i < |pm| && k in pm[i].replicas
  }

  /** All replica lists of a partition map, concatenated in order. */
  function Replicas(pm: seq<Partition>): seq<int>
  {
    if |pm| == 0 then [] else Replicas(pm[..|pm| - 1]) + pm[|pm| - 1].replicas
  }

  lemma ReplicasSnoc(pm: seq<Partition>, i: int)
    requires 0 <= i < |pm|
    ensures Replicas(pm[..i + 1]) == Replicas(pm[..i]) + pm[i].replicas
  {
    assert pm[..i + 1][..i] == pm[..i];
  }

  /** Count agrees with the multiset of the sequence. */
  lemma {:induction false} CountIsMultiplicity(s: seq<int>, k: int)
    ensures Count(s, k) == multiset(s)[k]
  {
    if |s| > 0 {
      CountIsMultiplicity(s[1..], k);
      assert s == [s[0]] + s[1..];
    }
  }

  lemma {:induction false} CountAppend(a: seq<int>, b: seq<int>, k: int)
    ensures Count(a + b, k) == Count(a, k) + Count(b, k)
  {
    if |a| > 0 {
      CountAppend(a[1..], b, k);
      assert (a + b)[1..] == a[1..] + b;
    } else {
      assert a + b == b;
    }
  }

  lemma {:induction false} OccurrencesSnoc(pm: seq<Partition>, k: int)
    requires |pm| > 0
    ensures Occurrences(pm, k) == Occurrences(pm[..|pm| - 1], k) + Count(pm[|pm| - 1].replicas, k)
  {
    if |pm| > 1 {
      OccurrencesSnoc(pm[1..], k);
      assert pm[1..][..|pm[1..]| - 1] == pm[..|pm| - 1][1..];
    }
  }

  /** A partition map holds k exactly when its last partition or the ones before it do. */
  lemma HoldsSnoc(pm: seq<Partition>, k: int)
    requires |pm| > 0
    ensures Holds(pm, k) <==> Holds(pm[..|pm| - 1], k) || k in pm[|pm| - 1].replicas
  {
    var init := pm[..|pm| - 1];
    if Holds(pm, k) && k !in pm[|pm| - 1].replicas {
      var i :| 0 <= i < |pm| && k in pm[i].replicas;
      assert init[i] == pm[i];
    }
    if Holds(init, k) {
      var i :| 0 <= i < |init| && k in init[i].replicas;
      assert pm[i] == init[i];
    }
  }

  /** Each replica slot of the concatenation is one occurrence in some partition. */
  lemma {:induction false} ReplicasCount(pm: seq<Partition>, k: int)
    ensures multiset(Replicas(pm))[k] == Occurrences(pm, k)
  {
    if |pm| > 0 {
      var init := pm[..|pm| - 1];
      var last := pm[|pm| - 1];
      ReplicasCount(init, k);
      OccurrencesSnoc(pm, k);
      CountIsMultiplicity(last.replicas, k);
      assert Replicas(pm) == Replicas(init) + last.replicas;
    }
  }

  /** The concatenation contains exactly the brokers the partition map holds. */
  lemma {:induction false} ReplicasHolds(pm: seq<Partition>, k: int)
    ensures k in Replicas(pm) <==> Holds(pm, k)
  {
    if |pm| > 0 {
      var init := pm[..|pm| - 1];
      ReplicasHolds(init, k);
      HoldsSnoc(pm, k);
      assert Replicas(pm) == Replicas(init) + pm[|pm| - 1].replicas;
    }
  }

  // ---- the map built from a partition map ----

  function RackOf(bm: BrokerMetaMap, id: int): string
  {
    if id in bm then bm[id].rack else ""
  }

  function FreeOf(bm: BrokerMetaMap, id: int): real
  {
    if id in bm then bm[id].storageFree else 0.0
  }

  /** The brokers built from the replica IDs ids, before the stub is installed. */
  function Built(ids: seq<int>, bm: BrokerMetaMap, force: bool): Entries
  {
    map k | k in ids :: Broker(k, RackOf(bm, k), if force then 0 else multiset(ids)[k], FreeOf(bm, k), false, false, false)
  }

  /** The stub broker 0 that stands for every broker under a forced rebuild. */
  function Sentinel(): Broker
  {
    Broker(0, "", 0, 0.0, true, false, false)
  }

  function FromPartitionMapSpec(pm: seq<Partition>, bm: BrokerMetaMap, force: bool): Entries
  {
    Built(Replicas(pm), bm, force)[0 := Sentinel()]
  }

  /** One more replica ID adds one to its count, creating its entry the first time. */
  lemma BuiltStep(ids: seq<int>, id: int, bm: BrokerMetaMap, force: bool)
    ensures id !in Built(ids, bm, force) ==> multiset(ids)[id] == 0
    ensures Built(ids + [id], bm, force)
         == Built(ids, bm, force)[id := Broker(id, RackOf(bm, id), if force then 0 else multiset(ids)[id] + 1, FreeOf(bm, id), false, false, false)]
  {
  }

  lemma FromPartitionMapKeysAreIds(pm: seq<Partition>, bm: BrokerMetaMap, force: bool)
    ensures KeysAreIds(FromPartitionMapSpec(pm, bm, force))
  {
  }

  /**
   * The built map holds exactly the replica IDs and 0; broker 0 is the
   * stub; every other broker counts its replica slots (0 under force),
   * takes its rack and free storage from the metadata when present and
   * carries no flag.
   */
  lemma FromPartitionMapContents(pm: seq<Partition>, bm: BrokerMetaMap, force: bool)
    ensures forall k :: k in FromPartitionMapSpec(pm, bm, force) <==> k == 0 || Holds(pm, k)
    ensures FromPartitionMapSpec(pm, bm, force)[0] == Broker(0, "", 0, 0.0, true, false, false)
    ensures forall k :: k in FromPartitionMapSpec(pm, bm, force) && k != 0 ==>
      FromPartitionMapSpec(pm, bm, force)[k]
        == Broker(k, RackOf(bm, k), if force then 0 else Occurrences(pm, k), FreeOf(bm, k), false, false, false)
  {
    forall k
      ensures k in FromPartitionMapSpec(pm, bm, force) <==> k == 0 || Holds(pm, k)
      ensures k in FromPartitionMapSpec(pm, bm, force) && k != 0 ==>
        FromPartitionMapSpec(pm, bm, force)[k]
          == Broker(k, RackOf(bm, k), if force then 0 else Occurrences(pm, k), FreeOf(bm, k), false, false, false)
    {
      ReplicasCount(pm, k);
      ReplicasHolds(pm, k);
    }
  }

  // ---- adding partition sizes back ----

  /** Why SubStorage stops. */
  datatype StorageError =
    | SizeNotFound(topic: string, partition: int)   // the size lookup of a partition failed
    | BrokerNotFound(id: int)                       // a replica names a broker the map lacks

  /** The broker at id with size added to its free storage. */
  function Credit(v: Entries, id: int, size: real): Entries
    requires id in v
  {
    v[id := v[id].(storageFree := v[id].storageFree + size)]
  }

  /** Adds size to each replica's broker that f selects, in list order; stops at the first replica not in v. */
  function AddBack(v: Entries, replicas: seq<int>, size: real, f: Broker -> bool): (Entries, Option<StorageError>)
    decreases |replicas|
  {
    if |replicas| == 0 then (v, None)
    else if replicas[0] !in v then (v, Some(BrokerNotFound(replicas[0])))
    else AddBack(if f(v[replicas[0]]) then Credit(v, replicas[0], size) else v, replicas[1..], size, f)
  }

  /** SubStorage on values: partition by partition, stopping at the first failed lookup. */
  function SubStorageSpec(v: Entries, parts: seq<Partition>, pmm: PartitionMetaMap, f: Broker -> bool): (Entries, Option<StorageError>)
    decreases |parts|
  {
    if |parts| == 0 then (v, None)
    else match Size(pmm, parts[0])
      case None => (v, Some(SizeNotFound(parts[0].topic, parts[0].partition)))
      case Some(size) =>
        var (w, err) := AddBack(v, parts[0].replicas, size, f);
        if err.Some? then (w, err) else SubStorageSpec(w, parts[1..], pmm, f)
  }

  /** Every replica of p is in v and p's size is known. */
  predicate PartitionOk(v: Entries, pmm: PartitionMetaMap, p: Partition)
  {
    Size(pmm, p).Some? && forall id :: id in p.replicas ==> id in v
  }

  /** Adding sizes back changes nothing but free storage. */
  predicate SameButStorage(v: Entries, w: Entries)
  {
    v.Keys == w.Keys && forall k :: k in v ==> w[k].(storageFree := v[k].storageFree) == v[k]
  }

  lemma {:induction false} AddBackShape(v: Entries, replicas: seq<int>, size: real, f: Broker -> bool)
    ensures SameButStorage(v, AddBack(v, replicas, size, f).0)
    ensures AddBack(v, replicas, size, f).1.None? <==> forall id :: id in replicas ==> id in v
    ensures AddBack(v, replicas, size, f).1.Some? ==>
      AddBack(v, replicas, size, f).1.value.BrokerNotFound? &&
      AddBack(v, replicas, size, f).1.value.id in replicas &&
      AddBack(v, replicas, size, f).1.value.id !in v
  {
    if |replicas| > 0 && replicas[0] in v {
      var w := if f(v[replicas[0]]) then Credit(v, replicas[0], size) else v;
      AddBackShape(w, replicas[1..], size, f);
      assert replicas == [replicas[0]] + replicas[1..];
    }
  }

  /**
   * SubStorage fails exactly when some partition's size is unknown or one
   * of its replicas is not in the map; the error names that partition or
   * broker, and the keys and all fields but free storage stay as they were.
   */
  lemma {:induction false} SubStorageOutcome(v: Entries, parts: seq<Partition>, pmm: PartitionMetaMap, f: Broker -> bool)
    ensures SameButStorage(v, SubStorageSpec(v, parts, pmm, f).0)
    ensures SubStorageSpec(v, parts, pmm, f).1.None? <==> forall i :: 0 <= i < |parts| ==> PartitionOk(v, pmm, parts[i])
    ensures SubStorageSpec(v, parts, pmm, f).1.Some? && SubStorageSpec(v, parts, pmm, f).1.value.BrokerNotFound? ==>
      SubStorageSpec(v, parts, pmm, f).1.value.id !in v && exists i :: 0 <= i < |parts| && SubStorageSpec(v, parts, pmm, f).1.value.id in parts[i].replicas
    ensures SubStorageSpec(v, parts, pmm, f).1.Some? && SubStorageSpec(v, parts, pmm, f).1.value.SizeNotFound? ==>
      exists i :: 0 <= i < |parts| && Size(pmm, parts[i]).None? &&
        parts[i].topic == SubStorageSpec(v, parts, pmm, f).1.value.topic &&
        parts[i].partition == SubStorageSpec(v, parts, pmm, f).1.value.partition
  {
    if |parts| > 0 && Size(pmm, parts[0]).Some? {
      var size := Size(pmm, parts[0]).value;
      AddBackShape(v, parts[0].replicas, size, f);
      var (w, err) := AddBack(v, parts[0].replicas, size, f);
      if err.None? {
        SubStorageOutcome(w, parts[1..], pmm, f);
        assert forall i :: 1 <= i < |parts| ==> parts[1..][i - 1] == parts[i];
        var r := SubStorageSpec(w, parts[1..], pmm, f);
        if r.1.Some? && r.1.value.BrokerNotFound? {
          var i :| 0 <= i < |parts[1..]| && r.1.value.id in parts[1..][i].replicas;
          assert r.1.value.id in parts[i + 1].replicas;
        }
        if r.1.Some? && r.1.value.SizeNotFound? {
          var i :| 0 <= i < |parts[1..]| && Size(pmm, parts[1..][i]).None? &&
            parts[1..][i].topic == r.1.value.topic && parts[1..][i].partition == r.1.value.partition;
          assert parts[i + 1] == parts[1..][i];
        }
      }
    }
  }

  /** f does not look at free storage (the predicates SubStorage is given select brokers by other fields). */
  ghost predicate StorageBlind(f: Broker -> bool)
  {
    forall b: Broker :: f(b) == f(b.(storageFree := 0.0))
  }

  lemma BlindAt(f: Broker -> bool, b: Broker, x: real)
    requires StorageBlind(f)
    ensures f(b.(storageFree := b.storageFree + x)) == f(b)
  {
    var c := b.(storageFree := b.storageFree + x);
    assert f(c) == f(c.(storageFree := 0.0)) && f(b) == f(b.(storageFree := 0.0));
    assert c.(storageFree := 0.0) == b.(storageFree := 0.0);
  }

  /** b with x more free storage. */
  function Plus(b: Broker, x: real): Broker
  {
    b.(storageFree := b.storageFree + x)
  }

  /** size, once for each slot of k in replicas. */
  function SlotTotal(replicas: seq<int>, k: int, size: real): real
  {
    if |replicas| == 0 then 0.0 else (if replicas[0] == k then size else 0.0) + SlotTotal(replicas[1..], k, size)
  }

  /** The total size of the replica slots broker k holds across the partitions whose size is known. */
  function Gain(parts: seq<Partition>, pmm: PartitionMetaMap, k: int): real
  {
    if |parts| == 0 then 0.0
    else
      var slots := match Size(pmm, parts[0]) case Some(s) => SlotTotal(parts[0].replicas, k, s) case None => 0.0;
      slots + Gain(parts[1..], pmm, k)
  }

  /** The slots of one partition are its size times the number of times k occurs in its replica list. */
  lemma {:induction false} SlotTotalIsProduct(replicas: seq<int>, k: int, size: real)
    ensures SlotTotal(replicas, k, size) == (Count(replicas, k) as real) * size
  {
    if |replicas| > 0 {
      SlotTotalIsProduct(replicas[1..], k, size);
      var c := Count(replicas[1..], k);
      if replicas[0] == k {
        assert ((c + 1) as real) * size == size + (c as real) * size;
      }
    }
  }

  /** Broker k gains size once for each of its slots in replicas, when f selects it. */
  lemma {:induction false} AddBackGain(v: Entries, replicas: seq<int>, size: real, f: Broker -> bool, k: int)
    requires StorageBlind(f)
    requires AddBack(v, replicas, size, f).1.None?
    requires k in v
    ensures k in AddBack(v, replicas, size, f).0
    ensures AddBack(v, replicas, size, f).0[k] == Plus(v[k], if f(v[k]) then SlotTotal(replicas, k, size) else 0.0)
    decreases |replicas|
  {
    if |replicas| == 0 {
      assert Plus(v[k], 0.0) == v[k];
    } else {
      var id := replicas[0];
      var w := if f(v[id]) then Credit(v, id, size) else v;
      assert AddBack(v, replicas, size, f) == AddBack(w, replicas[1..], size, f);
      AddBackGain(w, replicas[1..], size, f, k);
      var rest := SlotTotal(replicas[1..], k, size);
      if k == id && f(v[id]) {
        assert w[k] == Plus(v[k], size);
        BlindAt(f, v[k], size);
        assert Plus(Plus(v[k], size), rest) == Plus(v[k], size + rest);
      } else {
        assert w[k] == v[k];
      }
    }
  }

  /**
   * When SubStorage succeeds and f ignores free storage, broker k gains the
   * sizes of all replica slots it holds if f selects it, and is unchanged
   * otherwise.
   */
  lemma {:induction false} SubStorageGain(v: Entries, parts: seq<Partition>, pmm: PartitionMetaMap, f: Broker -> bool, k: int)
    requires StorageBlind(f)
    requires SubStorageSpec(v, parts, pmm, f).1.None?
    requires k in v
    ensures k in SubStorageSpec(v, parts, pmm, f).0
    ensures SubStorageSpec(v, parts, pmm, f).0[k] == Plus(v[k], if f(v[k]) then Gain(parts, pmm, k) else 0.0)
    decreases |parts|
  {
    if |parts| == 0 {
      assert Plus(v[k], 0.0) == v[k];
    } else {
      var size := Size(pmm, parts[0]).value;
      var w := AddBack(v, parts[0].replicas, size, f).0;
      assert SubStorageSpec(v, parts, pmm, f) == SubStorageSpec(w, parts[1..], pmm, f);
      AddBackGain(v, parts[0].replicas, size, f, k);
      SubStorageGain(w, parts[1..], pmm, f, k);
      var x := SlotTotal(parts[0].replicas, k, size);
      assert Gain(parts, pmm, k) == x + Gain(parts[1..], pmm, k);
      if f(v[k]) {
        assert w[k] == Plus(v[k], x);
        BlindAt(f, v[k], x);
        assert Plus(Plus(v[k], x), Gain(parts[1..], pmm, k)) == Plus(v[k], Gain(parts, pmm, k));
      } else {
        assert w[k] == v[k];
      }
    }
  }

  /** A map built from a partition map has a broker for every replica, so SubStorage over it never reports an unknown broker. */
  lemma FromPartitionMapCoversReplicas(pm: seq<Partition>, bm: BrokerMetaMap, force: bool, pmm: PartitionMetaMap, f: Broker -> bool)
    ensures forall i :: 0 <= i < |pm| ==> forall id :: id in pm[i].replicas ==> id in FromPartitionMapSpec(pm, bm, force)
    ensures SubStorageSpec(FromPartitionMapSpec(pm, bm, force), pm, pmm, f).1.None?
        <==> forall i :: 0 <= i < |pm| ==> Size(pmm, pm[i]).Some?
  {
    FromPartitionMapContents(pm, bm, force);
    SubStorageOutcome(FromPartitionMapSpec(pm, bm, force), pm, pmm, f);
  }
}
