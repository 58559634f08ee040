/**
 * The reconciliation of a broker map with a target ID list and live
 * metadata, stated on values: each of its three passes as a function of the
 * broker states before it, the counters it produces and the audit events it
 * reports. BrokerMap.Update is proved to compute exactly this.
 */
module Reconcile {
  import opened BrokerTypes

  /** Broker ID -> broker: the contents of a BrokerMap. */
  type Entries = map<int, Broker>

  /** The target list as a set (duplicates in the list collapse). */
  function IdSet(bl: seq<int>): set<int>
  {
    set id | id in bl
  }

  /** Every key names the broker it maps to. */
  predicate KeysAreIds(v: Entries)
  {
    forall k :: k in v ==> v[k].id == k
  }

  // ---- which brokers each pass acts on ----

  /** Pre-existing brokers (other than 0) without metadata, when metadata is used. */
  function PrevMissingIds(v: Entries, bm: BrokerMetaMap): set<int>
  {
    set k | k in v && k != 0 && |bm| > 0 && k !in bm
  }

  /** Those of them that are targets: counted as Missing. */
  function MissingTargetIds(v: Entries, bl: set<int>, bm: BrokerMetaMap): set<int>
  {
    set k | k in v && k != 0 && |bm| > 0 && k !in bm && k in bl
  }

  /** Those of them that are not targets: counted as OldMissing. */
  function OldMissingIds(v: Entries, bl: set<int>, bm: BrokerMetaMap): set<int>
  {
    set k | k in v && k != 0 && |bm| > 0 && k !in bm && k !in bl
  }

  /** Pre-existing brokers (other than 0) that are not targets. */
  function RemovalIds(v: Entries, bl: set<int>): set<int>
  {
    set k | k in v && k != 0 && k !in bl
  }

  /** Targets that are not yet in the map and can be created. */
  function AddedIds(v: Entries, bl: set<int>, bm: BrokerMetaMap): set<int>
  {
    set id | id in bl && id !in v && (|bm| == 0 || id in bm)
  }

  /** Targets that are not yet in the map and have no metadata although metadata is used. */
  function NotFoundIds(v: Entries, bl: set<int>, bm: BrokerMetaMap): set<int>
  {
    set id | id in bl && id !in v && |bm| > 0 && id !in bm
  }

  // ---- the three passes ----

  /** A broker raised to Replace (and to Missing when alsoMissing): the only change a pass makes to an existing broker. */
  function Raise(s: Broker, alsoMissing: bool): Broker
  {
    s.(replace := true, missing := s.missing || alsoMissing)
  }

  /** v with the brokers whose keys are in ids raised. */
  function RaiseAll(v: Entries, ids: set<int>, alsoMissing: bool): Entries
  {
    map k | k in v :: if k in ids then Raise(v[k], alsoMissing) else v[k]
  }

  function MissingPass(v: Entries, bm: BrokerMetaMap): Entries
  {
    RaiseAll(v, PrevMissingIds(v, bm), true)
  }

  function RemovalPass(v: Entries, bl: set<int>): Entries
  {
    RaiseAll(v, RemovalIds(v, bl), false)
  }

  /** Raising one more broker extends the raised set by its key. */
  lemma RaiseAllStep(v: Entries, ids: set<int>, id: int, alsoMissing: bool)
    requires id in v && id !in ids
    ensures RaiseAll(v, ids, alsoMissing)[id := Raise(v[id], alsoMissing)] == RaiseAll(v, ids + {id}, alsoMissing)
  {
  }

  /** The entries of v whose keys are in ks: the part of the map a pass has visited. */
  function Restrict(v: Entries, ks: set<int>): Entries
  {
    map k | k in v && k in ks :: v[k]
  }

  /** Visiting every key visits the whole map. */
  lemma RestrictAll(v: Entries, ks: set<int>)
    requires forall k :: k in v ==> k in ks
    ensures Restrict(v, ks) == v
  {
    assert forall k :: k in v ==> k in ks;
    SameMembers(Restrict(v, ks).Keys, v.Keys);
  }

  /**
   * Visiting one more key id of v adds id to the missing-metadata set
   * exactly when the pass flags it.
   */
  lemma MissingStep(v: Entries, done: set<int>, id: int, bm: BrokerMetaMap)
    requires id in v && id !in done
    ensures id !in PrevMissingIds(Restrict(v, done), bm)
    ensures PrevMissingIds(Restrict(v, done + {id}), bm)
         == if id != 0 && |bm| > 0 && id !in bm then PrevMissingIds(Restrict(v, done), bm) + {id}
            else PrevMissingIds(Restrict(v, done), bm)
    ensures |PrevMissingIds(Restrict(v, done + {id}), bm)|
         == |PrevMissingIds(Restrict(v, done), bm)| + if id != 0 && |bm| > 0 && id !in bm then 1 else 0
  {
    var w, w2 := Restrict(v, done), Restrict(v, done + {id});
    assert forall k :: k in w2 <==> k in w || k == id;
    if id != 0 && |bm| > 0 && id !in bm {
      SameMembers(PrevMissingIds(w2, bm), PrevMissingIds(w, bm) + {id});
    } else {
      SameMembers(PrevMissingIds(w2, bm), PrevMissingIds(w, bm));
    }
  }

  /** Visiting one more key id adds one to Missing when the pass flags id and it is a target, and to OldMissing when it is not a target. */
  lemma MissingSplitStep(v: Entries, done: set<int>, id: int, bl: set<int>, bm: BrokerMetaMap)
    requires id in v && id !in done
    ensures |MissingTargetIds(Restrict(v, done + {id}), bl, bm)|
         == |MissingTargetIds(Restrict(v, done), bl, bm)| + if id != 0 && |bm| > 0 && id !in bm && id in bl then 1 else 0
    ensures |OldMissingIds(Restrict(v, done + {id}), bl, bm)|
         == |OldMissingIds(Restrict(v, done), bl, bm)| + if id != 0 && |bm| > 0 && id !in bm && id !in bl then 1 else 0
  {
    var w, w2 := Restrict(v, done), Restrict(v, done + {id});
    assert forall k :: k in w2 <==> k in w || k == id;
    var c := id != 0 && |bm| > 0 && id !in bm;
    if c && id in bl {
      SameMembers(MissingTargetIds(w2, bl, bm), MissingTargetIds(w, bl, bm) + {id});
      SameMembers(OldMissingIds(w2, bl, bm), OldMissingIds(w, bl, bm));
    } else if c {
      SameMembers(MissingTargetIds(w2, bl, bm), MissingTargetIds(w, bl, bm));
      SameMembers(OldMissingIds(w2, bl, bm), OldMissingIds(w, bl, bm) + {id});
    } else {
      SameMembers(MissingTargetIds(w2, bl, bm), MissingTargetIds(w, bl, bm));
      SameMembers(OldMissingIds(w2, bl, bm), OldMissingIds(w, bl, bm));
    }
  }

  /** The state of a broker created by the addition pass. */
  function NewEntry(id: int, bm: BrokerMetaMap): Broker
  {
    if id in bm then Broker(id, bm[id].rack, 0, bm[id].storageFree, false, false, true)
    else Broker(id, "", 0, 0.0, false, false, true)
  }

  /** v with a fresh broker inserted under every key of ids that v lacks; existing entries are kept. */
  function Extend(v: Entries, ids: set<int>, bm: BrokerMetaMap): Entries
  {
    map k | k in v.Keys + ids :: if k in v then v[k] else NewEntry(k, bm)
  }

  /** Inserting one more absent broker extends the inserted set by its key. */
  lemma ExtendStep(v: Entries, ids: set<int>, id: int, bm: BrokerMetaMap)
    requires id !in v && id !in ids
    ensures Extend(v, ids, bm)[id := NewEntry(id, bm)] == Extend(v, ids + {id}, bm)
  {
  }

  /** Handling one more target either creates it or leaves the created set alone. */
  lemma AddedStep(v: Entries, done: set<int>, id: int, bm: BrokerMetaMap)
    requires id !in done
    ensures id !in AddedIds(v, done, bm)
    ensures AddedIds(v, done + {id}, bm)
         == if id !in v && (|bm| == 0 || id in bm) then AddedIds(v, done, bm) + {id} else AddedIds(v, done, bm)
    ensures |AddedIds(v, done + {id}, bm)| == |AddedIds(v, done, bm)| + if id !in v && (|bm| == 0 || id in bm) then 1 else 0
  {
    if id !in v && (|bm| == 0 || id in bm) {
      SameMembers(AddedIds(v, done + {id}, bm), AddedIds(v, done, bm) + {id});
    } else {
      SameMembers(AddedIds(v, done + {id}, bm), AddedIds(v, done, bm));
    }
  }

  /** Handling one more target either reports it not found or leaves the unresolved set alone. */
  lemma NotFoundStep(v: Entries, done: set<int>, id: int, bm: BrokerMetaMap)
    requires id !in done
    ensures id !in NotFoundIds(v, done, bm)
    ensures NotFoundIds(v, done + {id}, bm)
         == if id !in v && |bm| > 0 && id !in bm then NotFoundIds(v, done, bm) + {id} else NotFoundIds(v, done, bm)
    ensures |NotFoundIds(v, done + {id}, bm)| == |NotFoundIds(v, done, bm)| + if id !in v && |bm| > 0 && id !in bm then 1 else 0
  {
    if id !in v && |bm| > 0 && id !in bm {
      SameMembers(NotFoundIds(v, done + {id}, bm), NotFoundIds(v, done, bm) + {id});
    } else {
      SameMembers(NotFoundIds(v, done + {id}, bm), NotFoundIds(v, done, bm));
    }
  }

  function AdditionPass(v: Entries, bl: set<int>, bm: BrokerMetaMap): Entries
  {
    Extend(v, AddedIds(v, bl, bm), bm)
  }

  /** Raising flags keeps the key set. */
  lemma RaiseAllKeys(v: Entries, ids: set<int>, alsoMissing: bool)
    ensures RaiseAll(v, ids, alsoMissing).Keys == v.Keys
  {
  }

  /** The ID sets a pass acts on depend only on the keys present, so an earlier pass does not change them. */
  lemma SameKeysSameIds(v: Entries, w: Entries, bl: set<int>, bm: BrokerMetaMap)
    requires v.Keys == w.Keys
    ensures PrevMissingIds(v, bm) == PrevMissingIds(w, bm)
    ensures MissingTargetIds(v, bl, bm) == MissingTargetIds(w, bl, bm)
    ensures OldMissingIds(v, bl, bm) == OldMissingIds(w, bl, bm)
    ensures RemovalIds(v, bl) == RemovalIds(w, bl)
    ensures AddedIds(v, bl, bm) == AddedIds(w, bl, bm)
    ensures NotFoundIds(v, bl, bm) == NotFoundIds(w, bl, bm)
  {
  }

  /** The broker map after all three passes. */
  function Reconciled(v: Entries, bl: set<int>, bm: BrokerMetaMap): Entries
  {
    AdditionPass(RemovalPass(MissingPass(v, bm), bl), bl, bm)
  }

  /** The counters: one per flagged, removed, created or unresolved broker. */
  function Status(v: Entries, bl: set<int>, bm: BrokerMetaMap): BrokerStatus
  {
    BrokerStatus(
      |AddedIds(v, bl, bm)|,
      |MissingTargetIds(v, bl, bm)| + |NotFoundIds(v, bl, bm)|,
      |OldMissingIds(v, bl, bm)|,
      |RemovalIds(v, bl)|)
  }

  /** The audit events a reconciliation reports. */
  predicate Reported(e: Event, v: Entries, bl: set<int>, bm: BrokerMetaMap)
  {
    match e
    case PrevMissing(id) => id in PrevMissingIds(v, bm)
    case MarkedForRemoval(id) => id in RemovalIds(v, bl)
    case NotFound(id) => id in NotFoundIds(v, bl, bm)
    case NewBroker(id) => id in Reconciled(v, bl, bm) && Reconciled(v, bl, bm)[id].isNew
  }

  /** The brokers of w that carry the New flag. */
  function NewIds(w: Entries): set<int>
  {
    set k | k in w && w[k].isNew
  }

  /** The number of audit events a reconciliation emits: one per raised, removed, unresolved or New broker. */
  function EventCount(v: Entries, bl: set<int>, bm: BrokerMetaMap): nat
  {
    |PrevMissingIds(v, bm)| + |RemovalIds(v, bl)| + |NotFoundIds(v, bl, bm)| + |NewIds(Reconciled(v, bl, bm))|
  }

  // ---- properties of a reconciliation ----

  /** With metadata disabled the missing-metadata pass flags nothing. */
  lemma MissingPassDisabled(v: Entries, bm: BrokerMetaMap)
    requires |bm| == 0
    ensures MissingPass(v, bm) == v
  {
    assert PrevMissingIds(v, bm) == {};
    assert forall k :: k in v ==> RaiseAll(v, {}, true)[k] == v[k];
  }

  /**
   * A broker already in the map stays, with all its fields but the flags
   * unchanged; it is flagged Replace exactly when it is not broker 0 and
   * lacks metadata (with metadata in use) or is not a target, and Missing
   * exactly when it is not broker 0 and lacks metadata; flags already set
   * stay set.
   */
  lemma ReconciledExisting(v: Entries, bl: set<int>, bm: BrokerMetaMap, k: int)
    requires k in v
    ensures k in Reconciled(v, bl, bm)
    ensures Reconciled(v, bl, bm)[k]
         == v[k].(replace := v[k].replace || (k != 0 && ((|bm| > 0 && k !in bm) || k !in bl)),
                  missing := v[k].missing || (k != 0 && |bm| > 0 && k !in bm))
  {
    var v1 := MissingPass(v, bm);
    RaiseAllKeys(v, PrevMissingIds(v, bm), true);
    assert k in v1;
    assert v1[k] == if k in PrevMissingIds(v, bm) then Raise(v[k], true) else v[k];
    var v2 := RemovalPass(v1, bl);
    RaiseAllKeys(v1, RemovalIds(v1, bl), false);
    assert k in v2;
    assert v2[k] == if k in RemovalIds(v1, bl) then Raise(v1[k], false) else v1[k];
    assert Reconciled(v, bl, bm)[k] == v2[k];
  }

  /**
   * A broker not yet in the map is present afterwards exactly when it is a
   * target and metadata is disabled or has an entry for it; it is then a
   * fresh New broker with no replicas, its rack and free storage taken
   * from the metadata when there is any.
   */
  lemma ReconciledAbsent(v: Entries, bl: set<int>, bm: BrokerMetaMap, k: int)
    requires k !in v
    ensures k in Reconciled(v, bl, bm) <==> k in bl && (|bm| == 0 || k in bm)
    ensures k in Reconciled(v, bl, bm) ==>
      var b := Reconciled(v, bl, bm)[k];
      b.id == k && b.used == 0 && !b.replace && !b.missing && b.isNew &&
      (k in bm ==> b.locality == bm[k].rack && b.storageFree == bm[k].storageFree) &&
      (|bm| == 0 ==> b.locality == "" && b.storageFree == 0.0)
  {
    var v2 := RemovalPass(MissingPass(v, bm), bl);
    RaiseAllKeys(v, PrevMissingIds(v, bm), true);
    RaiseAllKeys(MissingPass(v, bm), RemovalIds(MissingPass(v, bm), bl), false);
    assert k !in v2;
    SameKeysSameIds(v, v2, bl, bm);
    assert k in AddedIds(v2, bl, bm) <==> k in bl && (|bm| == 0 || k in bm);
  }

  /** Keys keep naming their brokers through a reconciliation. */
  lemma ReconciledKeysAreIds(v: Entries, bl: set<int>, bm: BrokerMetaMap)
    requires KeysAreIds(v)
    ensures KeysAreIds(Reconciled(v, bl, bm))
  {
    forall k | k in Reconciled(v, bl, bm)
      ensures Reconciled(v, bl, bm)[k].id == k
    {
      if k in v {
        ReconciledExisting(v, bl, bm, k);
      } else {
        ReconciledAbsent(v, bl, bm, k);
      }
    }
  }

  /** |a| + |b| == |c| when c is the disjoint union of a and b. */
  lemma SplitCount(a: set<int>, b: set<int>, c: set<int>)
    requires forall k :: k in c <==> k in a || k in b
    requires forall k :: k in a ==> k !in b
    ensures |a| + |b| == |c|
  {
    SameMembers(c, a + b);
    SameMembers(a * b, {});
  }

  /**
   * Every previous broker without metadata is counted exactly once, as
   * Missing or as OldMissing, and every target absent from the map is
   * counted exactly once, as New or as Missing.
   */
  lemma StatusAccounting(v: Entries, bl: set<int>, bm: BrokerMetaMap)
    ensures Status(v, bl, bm).oldMissingCount + |MissingTargetIds(v, bl, bm)| == |PrevMissingIds(v, bm)|
    ensures Status(v, bl, bm).newCount + |NotFoundIds(v, bl, bm)| == |bl - v.Keys|
    ensures Status(v, bl, bm).missingCount + Status(v, bl, bm).oldMissingCount
         == |PrevMissingIds(v, bm)| + |NotFoundIds(v, bl, bm)|
  {
    SplitCount(MissingTargetIds(v, bl, bm), OldMissingIds(v, bl, bm), PrevMissingIds(v, bm));
    SplitCount(AddedIds(v, bl, bm), NotFoundIds(v, bl, bm), bl - v.Keys);
  }

  /** With metadata disabled nothing is counted missing and every absent target is created. */
  lemma MetadataDisabled(v: Entries, bl: set<int>, bm: BrokerMetaMap)
    requires |bm| == 0
    ensures Status(v, bl, bm).missingCount == 0 && Status(v, bl, bm).oldMissingCount == 0
    ensures Status(v, bl, bm).newCount == |bl - v.Keys|
    ensures forall id :: !Reported(PrevMissing(id), v, bl, bm) && !Reported(NotFound(id), v, bl, bm)
  {
    assert MissingTargetIds(v, bl, bm) == {} && OldMissingIds(v, bl, bm) == {};
    assert NotFoundIds(v, bl, bm) == {} && PrevMissingIds(v, bm) == {};
    StatusAccounting(v, bl, bm);
  }

  /** All-zero counters mean no broker is flagged, removed or created. */
  lemma NothingCounted(v: Entries, bl: set<int>, bm: BrokerMetaMap)
    requires !Status(v, bl, bm).Changes()
    ensures PrevMissingIds(v, bm) == {} && RemovalIds(v, bl) == {} && AddedIds(v, bl, bm) == {}
  {
    StatusAccounting(v, bl, bm);
  }

  /** When the counters report no change, the map is left exactly as it was. */
  lemma NoChangeNoEffect(v: Entries, bl: set<int>, bm: BrokerMetaMap)
    requires !Status(v, bl, bm).Changes()
    ensures Reconciled(v, bl, bm) == v
  {
    NothingCounted(v, bl, bm);
    forall k | k in v
      ensures k in Reconciled(v, bl, bm) && Reconciled(v, bl, bm)[k] == v[k]
    {
      ReconciledExisting(v, bl, bm, k);
      assert k !in PrevMissingIds(v, bm) && k !in RemovalIds(v, bl);
    }
    ReconciledKeys(v, bl, bm);
    SameMembers(Reconciled(v, bl, bm).Keys, v.Keys);
  }

  /** The keys after a reconciliation: the previous ones plus the created brokers. */
  lemma ReconciledKeys(v: Entries, bl: set<int>, bm: BrokerMetaMap)
    ensures Reconciled(v, bl, bm).Keys == v.Keys + AddedIds(v, bl, bm)
  {
    forall k ensures k in Reconciled(v, bl, bm) <==> k in v || k in AddedIds(v, bl, bm)
    {
      if k in v {
        ReconciledExisting(v, bl, bm, k);
      } else {
        ReconciledAbsent(v, bl, bm, k);
      }
    }
    SameMembers(Reconciled(v, bl, bm).Keys, v.Keys + AddedIds(v, bl, bm));
  }

  /** Reconciling twice leaves the map as after the first time. */
  lemma ReconcileTwiceSameMap(v: Entries, bl: set<int>, bm: BrokerMetaMap)
    ensures Reconciled(Reconciled(v, bl, bm), bl, bm) == Reconciled(v, bl, bm)
  {
    var r := Reconciled(v, bl, bm);
    forall k | k in r
      ensures k in Reconciled(r, bl, bm) && Reconciled(r, bl, bm)[k] == r[k]
    {
      ReconciledExisting(r, bl, bm, k);
      if k in v {
        ReconciledExisting(v, bl, bm, k);
      } else {
        ReconciledAbsent(v, bl, bm, k);
      }
    }
    forall k | k in Reconciled(r, bl, bm)
      ensures k in r
    {
      if k !in r {
        ReconciledAbsent(r, bl, bm, k);
        ReconciledAbsent(v, bl, bm, k);
      }
    }
  }

  /**
   * A second reconciliation with the same inputs counts again every broker
   * it flags for replacement or as missing: only the New counter drops to
   * zero, so a repeated Update does not report "no change".
   */
  lemma ReconcileTwiceCounts(v: Entries, bl: set<int>, bm: BrokerMetaMap)
    ensures Status(Reconciled(v, bl, bm), bl, bm) == Status(v, bl, bm).(newCount := 0)
  {
    var r := Reconciled(v, bl, bm);
    ReconciledKeys(v, bl, bm);
    assert forall k :: k in r <==> k in v || k in AddedIds(v, bl, bm);
    SameMembers(PrevMissingIds(r, bm), PrevMissingIds(v, bm));
    SameMembers(MissingTargetIds(r, bl, bm), MissingTargetIds(v, bl, bm));
    SameMembers(OldMissingIds(r, bl, bm), OldMissingIds(v, bl, bm));
    SameMembers(RemovalIds(r, bl), RemovalIds(v, bl));
    SameMembers(AddedIds(r, bl, bm), {});
    SameMembers(NotFoundIds(r, bl, bm), NotFoundIds(v, bl, bm));
  }

  /**
   * When no broker of the map is New yet, the NewBroker events name exactly
   * the created brokers, and no broker ends both New and Missing.
   */
  lemma NewEventsAreCreations(v: Entries, bl: set<int>, bm: BrokerMetaMap)
    requires forall k :: k in v ==> !v[k].isNew
    ensures forall id :: Reported(NewBroker(id), v, bl, bm) <==> id in AddedIds(v, bl, bm)
    ensures forall k :: k in Reconciled(v, bl, bm) ==> !(Reconciled(v, bl, bm)[k].isNew && Reconciled(v, bl, bm)[k].missing)
  {
    forall k | k in Reconciled(v, bl, bm) || k in AddedIds(v, bl, bm)
      ensures Reconciled(v, bl, bm)[k].isNew <==> k in AddedIds(v, bl, bm)
      ensures !(Reconciled(v, bl, bm)[k].isNew && Reconciled(v, bl, bm)[k].missing)
    {
      if k in v {
        ReconciledExisting(v, bl, bm, k);
      } else {
        ReconciledAbsent(v, bl, bm, k);
      }
    }
  }

  /**
   * A previous broker other than 0 that is not a target and has no entry in
   * metadata that is in use goes through both flagging passes: it ends
   * Replace and Missing, it is among the OldMissing and the Replace counts,
   * and it is reported both as missing and as marked for removal.
   */
  lemma MissingAndRemoved(v: Entries, bl: set<int>, bm: BrokerMetaMap, k: int)
    requires k in v && k != 0 && |bm| > 0 && k !in bm && k !in bl
    ensures k in OldMissingIds(v, bl, bm) && k in RemovalIds(v, bl)
    ensures Reported(PrevMissing(k), v, bl, bm) && Reported(MarkedForRemoval(k), v, bl, bm)
    ensures k in Reconciled(v, bl, bm) && Reconciled(v, bl, bm)[k].replace && Reconciled(v, bl, bm)[k].missing
  {
    ReconciledExisting(v, bl, bm, k);
  }

  /**
   * A reconciliation never clears New: a previous broker that is already New
   * and lacks an entry in metadata that is in use ends both New and Missing,
   * and is reported both as missing and as a new broker.
   */
  lemma NewAndMissing(v: Entries, bl: set<int>, bm: BrokerMetaMap, k: int)
    requires k in v && v[k].isNew && k != 0 && |bm| > 0 && k !in bm
    ensures k in Reconciled(v, bl, bm) && Reconciled(v, bl, bm)[k].isNew && Reconciled(v, bl, bm)[k].missing
    ensures Reported(PrevMissing(k), v, bl, bm) && Reported(NewBroker(k), v, bl, bm)
  {
    ReconciledExisting(v, bl, bm, k);
  }

  // ---- the size of the message buffer ----

  /** The buffer Update allocates for its messages: one slot per broker and three per target list entry. */
  function ChannelCapacity(v: Entries, bl: seq<int>): nat
  {
    |v| + 3 * |bl|
  }

  /**
   * That buffer can be too small: a map holding the stub and brokers 1 and
   * 2, an empty target list and metadata for broker 9 only yield four
   * events (1 and 2 are each missing and marked for removal) for three
   * slots, so the fourth send blocks.
   */
  lemma ChannelOverflows()
    ensures var v := map[0 := Broker(0, "", 0, 0.0, true, false, false),
                         1 := Broker(1, "", 0, 0.0, false, false, false),
                         2 := Broker(2, "", 0, 0.0, false, false, false)];
            var bm := map[9 := BrokerMeta("", 0.0)];
            EventCount(v, IdSet([]), bm) > ChannelCapacity(v, [])
  {
    var v := map[0 := Broker(0, "", 0, 0.0, true, false, false),
                 1 := Broker(1, "", 0, 0.0, false, false, false),
                 2 := Broker(2, "", 0, 0.0, false, false, false)];
    var bm := map[9 := BrokerMeta("", 0.0)];
    var bl: set<int> := IdSet([]);
    assert bl == {};
    SameMembers(PrevMissingIds(v, bm), {1, 2});
    SameMembers(RemovalIds(v, bl), {1, 2});
    assert |v| == 3 by {
      SameMembers(v.Keys, {0, 1, 2});
    }
  }

  /** The number of distinct targets is at most the length of the list. */
  lemma {:induction false} IdSetSize(bl: seq<int>)
    ensures |IdSet(bl)| <= |bl|
  {
    if |bl| > 0 {
      var n := |bl| - 1;
      IdSetSize(bl[..n]);
      assert bl == bl[..n] + [bl[n]];
      SameMembers(IdSet(bl), IdSet(bl[..n]) + {bl[n]});
    }
  }

  /** A buffer of three slots per broker and one per target list entry. */
  function MessageCapacity(v: Entries, bl: seq<int>): nat
  {
    3 * |v| + |bl|
  }

  /** A subset of IDs is no larger than the set. */
  lemma SubsetSize(a: set<int>, b: set<int>)
    requires forall k :: k in a ==> k in b
    ensures |a| <= |b|
  {
    SameMembers(b, a + (b - a));
    SameMembers(a * (b - a), {});
  }

  /** The New brokers after a reconciliation are among the previous and the created ones. */
  lemma NewIdsSize(v: Entries, bl: set<int>, bm: BrokerMetaMap)
    ensures |NewIds(Reconciled(v, bl, bm))| <= |v| + |AddedIds(v, bl, bm)|
  {
    ReconciledKeys(v, bl, bm);
    SubsetSize(NewIds(Reconciled(v, bl, bm)), v.Keys + AddedIds(v, bl, bm));
    assert |v.Keys| == |v|;
  }

  /**
   * Every reconciliation fits MessageCapacity: a previous broker emits at
   * most three events (missing, marked for removal, New) and a target not
   * yet in the map at most one (not found or New).
   */
  lemma EventsFitCapacity(v: Entries, bl: seq<int>, bm: BrokerMetaMap)
    ensures EventCount(v, IdSet(bl), bm) <= MessageCapacity(v, bl)
  {
    var t := IdSet(bl);
    assert |v.Keys| == |v|;
    SubsetSize(PrevMissingIds(v, bm), v.Keys);
    SubsetSize(RemovalIds(v, t), v.Keys);
    NewIdsSize(v, t, bm);
    StatusAccounting(v, t, bm);
    SubsetSize(t - v.Keys, t);
    IdSetSize(bl);
  }
}
