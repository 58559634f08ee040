/**
 * Value types shared by the broker model: the metadata fetched for a broker,
 * a snapshot of a broker's fields, the reconciliation counters, the audit
 * events of a reconciliation, and partitions with their size lookup.
 */
module BrokerTypes {

  datatype Option<T> = None | Some(value: T)

  /** The metadata of one live broker that the core reads (its rack and free storage). */
  datatype BrokerMeta = BrokerMeta(rack: string, storageFree: real)

  /** Broker ID -> live metadata; empty when metadata collection is disabled. */
  type BrokerMetaMap = map<int, BrokerMeta>

  /** One cluster broker: its ID (0 is the reserved replacement placeholder), rack, replica count, free storage and flags. */
  datatype Broker = Broker(
    id: int,
    locality: string,
    used: int,
    storageFree: real,
    replace: bool,
    missing: bool,
    isNew: bool)
  {
    /** A field-by-field copy, equal to the original in every field. */
    function Copy(): (r: Broker)
      ensures r == this
    {
      Broker(id, locality, used, storageFree, replace, missing, isNew)
    }
  }

  /** Counters produced by one reconciliation. */
  datatype BrokerStatus = BrokerStatus(newCount: nat, missingCount: nat, oldMissingCount: nat, replaceCount: nat)
  {
    /** A status reports a change exactly when it is not the all-zero status. */
    function Changes(): (r: bool)
      ensures r <==> this != BrokerStatus(0, 0, 0, 0)
    {
      newCount != 0 || missingCount != 0 || oldMissingCount != 0 || replaceCount != 0
    }
  }

  /** One audit message of a reconciliation, by kind and broker ID. */
  datatype Event =
    | PrevMissing(id: int)        // a previous broker is absent from the metadata
    | MarkedForRemoval(id: int)   // a previous broker is absent from the target list
    | NotFound(id: int)           // a target broker has no metadata
    | NewBroker(id: int)          // a broker of the result carries the New flag

  /** The pass that emits an event; messages come out pass by pass. */
  function Pass(e: Event): nat
  {
    match e
    case PrevMissing(_) => 0
    case MarkedForRemoval(_) => 1
    case NotFound(_) => 2
    case NewBroker(_) => 3
  }

  predicate NoDuplicates<T(==)>(s: seq<T>)
  {
    forall i, j :: 0 <= i < j < |s| ==> s[i] != s[j]
  }

  lemma AppendNew<T>(s: seq<T>, x: T)
    requires NoDuplicates(s) && x !in s
    ensures NoDuplicates(s + [x])
  {
  }

  /** Two duplicate-free sequences with no common element concatenate to a duplicate-free one. */
  lemma ConcatDistinct<T>(a: seq<T>, b: seq<T>)
    requires NoDuplicates(a) && NoDuplicates(b)
    requires forall x :: x in a ==> x !in b
    ensures NoDuplicates(a + b)
  {
    forall i, j | 0 <= i < j < |a + b|
      ensures (a + b)[i] != (a + b)[j]
    {
      if j < |a| {
        assert (a + b)[i] == a[i] && (a + b)[j] == a[j];
      } else if i >= |a| {
        assert (a + b)[i] == b[i - |a|] && (a + b)[j] == b[j - |a|];
      } else {
        assert (a + b)[i] == a[i] && (a + b)[j] == b[j - |a|];
        assert a[i] in a && b[j - |a|] in b;
      }
    }
  }

  /**
   * A non-empty set of IDs has a member (stated so that a loop can pick one).
   * The body only restates the fact: the verifier does not draw it from a
   * loop guard on its own when contradictory assumptions are being reported.
   */
  lemma Inhabited(s: set<int>)
    requires s != {}
    ensures exists x :: x in s
  {
    if forall x :: x !in s {
      assert false;
    }
  }

  /**
   * Two sets of IDs with the same members are equal. The body repeats the
   * requires so that the verifier applies extensionality to it.
   */
  lemma SameMembers(a: set<int>, b: set<int>)
    requires forall k :: k in a <==> k in b
    ensures a == b
  {
    assert forall k :: k in a <==> k in b;
  }

  predicate InPassOrder(s: seq<Event>)
  {
    forall i, j :: 0 <= i < j < |s| ==> Pass(s[i]) <= Pass(s[j])
  }

  /** Every event of s comes from pass p. */
  predicate AllOfPass(s: seq<Event>, p: nat)
  {
    forall e :: e in s ==> Pass(e) == p
  }

  /** Events in pass order followed by events of a later pass stay in pass order. */
  lemma ConcatOrdered(a: seq<Event>, b: seq<Event>, p: nat)
    requires InPassOrder(a) && AllOfPass(b, p)
    requires forall e :: e in a ==> Pass(e) <= p
    ensures InPassOrder(a + b)
  {
    forall i, j | 0 <= i < j < |a + b|
      ensures Pass((a + b)[i]) <= Pass((a + b)[j])
    {
      if j < |a| {
        assert (a + b)[i] == a[i] && (a + b)[j] == a[j];
      } else if i >= |a| {
        assert (a + b)[i] == b[i - |a|] && (a + b)[j] == b[j - |a|];
      } else {
        assert (a + b)[i] == a[i] && (a + b)[j] == b[j - |a|];
      }
    }
  }

  /** A partition of a topic and its ordered replica list of broker IDs. */
  datatype Partition = Partition(topic: string, partition: int, replicas: seq<int>)

  /** Topic -> partition index -> size in bytes. */
  type PartitionMetaMap = map<string, map<int, real>>

  /** The size of a partition, or None when the lookup fails. */
  function Size(pmm: PartitionMetaMap, p: Partition): Option<real>
  {
    if p.topic in pmm && p.partition in pmm[p.topic] then Some(pmm[p.topic][p.partition]) else None
  }
}

