/**
 * Broker lists: slices of brokers sorted in place by one of three orders,
 * and the pseudo-shuffle that sorts by replica count and then permutes
 * each run of brokers holding equally many replicas.
 */
module BrokerList {
  import opened BrokerTypes

  /** The three sort keys of a broker list. */
  datatype Order =
    | ByCount     // fewest replicas first, then lowest ID
    | ByStorage   // most free storage first, then lowest ID
    | ById        // lowest ID first

  /** The comparator of each order: x sorts strictly before y. */
  predicate Less(o: Order, x: Broker, y: Broker)
  {
    match o
    case ByCount => x.used < y.used || (x.used == y.used && x.id < y.id)
    case ByStorage => x.storageFree > y.storageFree || (x.storageFree == y.storageFree && x.id < y.id)
    case ById => x.id < y.id
  }

  /** No broker is followed by one that sorts strictly before it. */
  predicate Sorted(o: Order, s: seq<Broker>)
  {
    forall i, j :: 0 <= i < j < |s| ==> !Less(o, s[j], s[i])
  }

  /** Replica counts never decrease along s. */
  predicate UsedAscending(s: seq<Broker>)
  {
    forall i, j :: 0 <= i < j < |s| ==> s[i].used <= s[j].used
  }

  /** Each comparator is a strict weak order: irreflexive, asymmetric, and "not after" is transitive. */
  lemma LessIsStrictWeak(o: Order, x: Broker, y: Broker, z: Broker)
    ensures !Less(o, x, x)
    ensures Less(o, x, y) ==> !Less(o, y, x)
    ensures !Less(o, y, x) && !Less(o, z, y) ==> !Less(o, z, x)
  {
  }

  /** A list sorted by count lists ascending (Used, ID) pairs; one sorted by storage, descending StorageFree then ascending ID; one sorted by ID, ascending IDs. */
  lemma SortedMeans(o: Order, s: seq<Broker>)
    requires Sorted(o, s)
    ensures o == ByCount ==> forall i, j :: 0 <= i < j < |s| ==>
      s[i].used < s[j].used || (s[i].used == s[j].used && s[i].id <= s[j].id)
    ensures o == ByStorage ==> forall i, j :: 0 <= i < j < |s| ==>
      s[i].storageFree > s[j].storageFree || (s[i].storageFree == s[j].storageFree && s[i].id <= s[j].id)
    ensures o == ById ==> forall i, j :: 0 <= i < j < |s| ==> s[i].id <= s[j].id
    ensures o == ByCount ==> UsedAscending(s)
  {
  }

  /** Exchanges two elements of a. */
  method Swap(a: array<Broker>, i: int, j: int)
    requires 0 <= i < a.Length && 0 <= j < a.Length
    modifies a
    ensures a[..] == old(a[..])[i := old(a[j])][j := old(a[i])]
    ensures multiset(a[..]) == multiset(old(a[..]))
  {
    a[i], a[j] := a[j], a[i];
  }

  /** Moves a[i] down into the sorted prefix a[..i], so that a[..i + 1] is sorted. */
  method InsertAt(a: array<Broker>, i: int, o: Order)
    requires 0 <= i < a.Length
    requires Sorted(o, a[..i])
    modifies a
    ensures Sorted(o, a[..i + 1])
    ensures a[i + 1..] == old(a[i + 1..])
    ensures multiset(a[..]) == multiset(old(a[..]))
  {
    var j := i;
    while j > 0 && Less(o, a[j], a[j - 1])
      invariant 0 <= j <= i
      invariant a[i + 1..] == old(a[i + 1..])
      invariant multiset(a[..]) == multiset(old(a[..]))
      invariant forall p, q :: 0 <= p < q <= i && p != j && q != j ==> !Less(o, a[q], a[p])
      invariant forall q :: j < q <= i ==> !Less(o, a[q], a[j])
    {
      LessIsStrictWeak(o, a[j], a[j - 1], a[j]);
      Swap(a, j - 1, j);
      j := j - 1;
    }
    forall p | 0 <= p < j
      ensures !Less(o, a[j], a[p])
    {
      LessIsStrictWeak(o, a[p], a[j - 1], a[j]);
    }
  }

  /** Sorts a in place by o (an insertion sort standing for the library sort). */
  method Sort(a: array<Broker>, o: Order)
    modifies a
    ensures Sorted(o, a[..])
    ensures multiset(a[..]) == multiset(old(a[..]))
  {
    var i := 0;
    while i < a.Length
      invariant 0 <= i <= a.Length
      invariant Sorted(o, a[..i])
      invariant multiset(a[..]) == multiset(old(a[..]))
    {
      InsertAt(a, i, o);
      i := i + 1;
    }
    assert a[..i] == a[..];
  }

  /** Fewest replicas first, ties by lowest ID. */
  method SortByCount(a: array<Broker>)
    modifies a
    ensures Sorted(ByCount, a[..])
    ensures multiset(a[..]) == multiset(old(a[..]))
  {
    Sort(a, ByCount);
  }

  /** Most free storage first, ties by lowest ID. */
  method SortByStorage(a: array<Broker>)
    modifies a
    ensures Sorted(ByStorage, a[..])
    ensures multiset(a[..]) == multiset(old(a[..]))
  {
    Sort(a, ByStorage);
  }

  /** Lowest ID first. */
  method SortByID(a: array<Broker>)
    modifies a
    ensures Sorted(ById, a[..])
    ensures multiset(a[..]) == multiset(old(a[..]))
  {
    Sort(a, ById);
  }

  /**
   * Permutes a[lo..hi], whose brokers all hold u replicas, by Fisher-Yates
   * swaps whose indices come from the random stream rng starting at draw;
   * returns the next unused draw. Nothing outside the range moves.
   */
  method ShuffleRange(a: array<Broker>, lo: int, hi: int, rng: nat -> nat, draw: nat, ghost u: int) returns (next: nat)
    requires 0 <= lo <= hi <= a.Length
    requires forall p :: lo <= p < hi ==> a[p].used == u
    modifies a
    ensures multiset(a[..]) == multiset(old(a[..]))
    ensures forall p :: 0 <= p < a.Length ==> a[p].used == old(a[p].used)
    ensures forall p :: 0 <= p < a.Length && !(lo <= p < hi) ==> a[p] == old(a[p])
  {
    next := draw;
    var i := hi - lo - 1;
    while i > 0
      invariant i < hi - lo
      invariant multiset(a[..]) == multiset(old(a[..]))
      invariant forall p :: 0 <= p < a.Length ==>
        (lo <= p < hi ==> a[p].used == u) && (!(lo <= p < hi) ==> a[p] == old(a[p]))
    {
      var j := rng(next) % (i + 1);
      Swap(a, lo + i, lo + j);
      next := next + 1;
      i := i - 1;
    }
  }

  /**
   * Sorts by count, then (for lists longer than two) shuffles each maximal
   * run of equal Used in place. The result is a permutation with Used
   * ascending, and a list of at most two brokers is left sorted by count.
   */
  method SortPseudoShuffle(a: array<Broker>, rng: nat -> nat)
    modifies a
    ensures multiset(a[..]) == multiset(old(a[..]))
    ensures UsedAscending(a[..])
    ensures a.Length <= 2 ==> Sorted(ByCount, a[..])
  {
    Sort(a, ByCount);
    if a.Length <= 2 {
      return;
    }
    ghost var sorted := a[..];
    ghost var perm := multiset(a[..]);
    SortedMeans(ByCount, sorted);
    var draw: nat := 0;
    var s := 0;
    var stop := a.Length - 1;
    var currVal := a[0].used;
    var k := 0;
    while k < a.Length
      invariant 0 <= s <= k <= a.Length && s < a.Length
      invariant multiset(a[..]) == perm
      invariant forall p :: 0 <= p < a.Length ==> a[p].used == sorted[p].used
      invariant currVal == sorted[s].used
      invariant forall p :: s <= p < k ==> sorted[p].used == currVal
    {
      if a[k].used != currVal {
        draw := ShuffleRange(a, s, k, rng, draw, currVal);
        currVal := a[k].used;
        s := k;
      } else if k == stop {
        draw := ShuffleRange(a, s, a.Length, rng, draw, currVal);
      }
      k := k + 1;
    }
    SameProfileAscending(sorted, a[..]);
  }

  /** A list with the Used of an ascending list at every position is ascending too. */
  lemma SameProfileAscending(s: seq<Broker>, t: seq<Broker>)
    requires UsedAscending(s) && |s| == |t|
    requires forall p :: 0 <= p < |s| ==> t[p].used == s[p].used
    ensures UsedAscending(t)
  {
  }

  /** Exchanging the head of t with a later broker of equal Used keeps t's brokers and its Used profile. */
  lemma SwapToFront(t: seq<Broker>, k: int) returns (t2: seq<Broker>)
    requires 0 <= k < |t| && t[k].used == t[0].used
    requires UsedAscending(t)
    ensures |t2| == |t| && t2[0] == t[k]
    ensures multiset(t2) == multiset(t)
    ensures forall p :: 0 <= p < |t| ==> t2[p].used == t[p].used
    ensures UsedAscending(t2)
  {
    t2 := t[0 := t[k]][k := t[0]];
  }

  /** Dropping the head of a list removes one copy of it from the list's multiset. */
  lemma DropHead(s: seq<Broker>)
    requires |s| > 0
    ensures multiset(s[1..]) == multiset(s) - multiset{s[0]}
  {
    assert s == [s[0]] + s[1..];
  }

  /** A broker of the multiset of t sits at some index of t. */
  lemma IndexOf(t: seq<Broker>, x: Broker) returns (k: int)
    requires x in multiset(t)
    ensures 0 <= k < |t| && t[k] == x
  {
    assert x in t;
    if forall p :: 0 <= p < |t| ==> t[p] != x {
      assert false;
    }
    k :| 0 <= k < |t| && t[k] == x;
  }

  /**
   * Two lists with the same brokers and ascending Used agree on Used at
   * every position: the runs of equal Used occupy the same positions and
   * hold the same brokers, so SortPseudoShuffle only reorders brokers
   * within the runs that SortByCount yields.
   */
  lemma {:induction false} SameUsedProfile(s: seq<Broker>, t: seq<Broker>)
    requires multiset(s) == multiset(t)
    requires UsedAscending(s) && UsedAscending(t)
    ensures |s| == |t|
    ensures forall i :: 0 <= i < |s| ==> s[i].used == t[i].used
    decreases |s|
  {
    assert |s| == |multiset(s)| == |multiset(t)| == |t|;
    if |s| > 0 {
      var k := IndexOf(t, s[0]);
      var j := IndexOf(s, t[0]);
      assert t[k].used == t[0].used by {
        assert s[0].used <= s[j].used && t[0].used <= t[k].used;
      }
      var t2 := SwapToFront(t, k);
      DropHead(s);
      DropHead(t2);
      var s1, t1 := s[1..], t2[1..];
      TailKeeps(ByCount, s);
      TailKeeps(ByCount, t2);
      SameUsedProfile(s1, t1);
      forall i | 1 <= i < |s|
        ensures s[i].used == t[i].used
      {
        assert s1[i - 1] == s[i] && t1[i - 1] == t2[i];
      }
    }
  }

  /** No two brokers of s share an ID. */
  predicate DistinctIds(s: seq<Broker>)
  {
    forall i, j :: 0 <= i < j < |s| ==> s[i].id != s[j].id
  }

  /** Every order ends in an ID tie-break, so it ranks any two brokers with different IDs. */
  lemma LessTotal(o: Order, x: Broker, y: Broker)
    ensures x.id != y.id ==> Less(o, x, y) || Less(o, y, x)
  {
  }

  /** Two sorted lists of the same brokers with distinct IDs start with the same broker. */
  lemma SortedHeads(o: Order, s: seq<Broker>, t: seq<Broker>)
    requires multiset(s) == multiset(t) && |s| > 0
    requires DistinctIds(s)
    requires Sorted(o, s) && Sorted(o, t)
    ensures |t| > 0 && s[0] == t[0]
  {
    assert |s| == |multiset(s)| == |multiset(t)| == |t|;
    var k := IndexOf(t, s[0]);
    var j := IndexOf(s, t[0]);
    LessTotal(o, s[0], t[0]);
    assert !Less(o, s[j], s[0]) && !Less(o, t[k], t[0]);
    assert j == 0;
  }

  /** The tail of a list keeps its order, its ascending Used and its distinct IDs. */
  lemma TailKeeps(o: Order, s: seq<Broker>)
    requires |s| > 0
    ensures Sorted(o, s) ==> Sorted(o, s[1..])
    ensures UsedAscending(s) ==> UsedAscending(s[1..])
    ensures DistinctIds(s) ==> DistinctIds(s[1..])
  {
  }

  /**
   * A list of brokers with distinct IDs has exactly one arrangement sorted
   * by a given order, so every sort of it yields the same list.
   */
  lemma {:induction false} SortedUnique(o: Order, s: seq<Broker>, t: seq<Broker>)
    requires multiset(s) == multiset(t)
    requires DistinctIds(s)
    requires Sorted(o, s) && Sorted(o, t)
    ensures s == t
    decreases |s|
  {
    assert |s| == |multiset(s)| == |multiset(t)| == |t|;
    if |s| > 0 {
      SortedHeads(o, s, t);
      DropHead(s);
      DropHead(t);
      var s1, t1 := s[1..], t[1..];
      TailKeeps(o, s);
      TailKeeps(o, t);
      SortedUnique(o, s1, t1);
      assert s == [s[0]] + s1 && t == [t[0]] + t1;
    }
  }

  /** Position i of s starts a new run of Used (or is one of the ends). */
  predicate RunBoundary(s: seq<Broker>, i: int)
  {
    0 <= i <= |s| && (i == 0 || i == |s| || s[i - 1].used < s[i].used)
  }

  /** Before an inner run boundary of an ascending list every broker holds fewer replicas than at it; from it on, at least as many. */
  lemma BelowAbove(s: seq<Broker>, i: int)
    requires UsedAscending(s)
    requires 0 < i < |s| && s[i - 1].used < s[i].used
    ensures forall p :: 0 <= p < i ==> s[p].used < s[i].used
    ensures forall p :: i <= p < |s| ==> s[p].used >= s[i].used
  {
    assert forall p :: 0 <= p < i ==> s[p].used <= s[i - 1].used;
  }

  /** The brokers before a boundary are exactly those of s with fewer than c replicas. */
  lemma PrefixBelow(s: seq<Broker>, i: int, c: int)
    requires 0 <= i <= |s|
    requires forall p :: 0 <= p < i ==> s[p].used < c
    requires forall p :: i <= p < |s| ==> s[p].used >= c
    ensures forall x :: multiset(s[..i])[x] == if x.used < c then multiset(s)[x] else 0
  {
    assert s == s[..i] + s[i..];
    forall x
      ensures multiset(s[..i])[x] == if x.used < c then multiset(s)[x] else 0
    {
      if x.used < c {
        assert x !in s[i..] by {
          forall p | 0 <= p < |s[i..]|
            ensures s[i..][p] != x
          {
            assert s[i..][p] == s[i + p];
          }
        }
      } else {
        assert x !in s[..i] by {
          forall p | 0 <= p < i
            ensures s[..i][p] != x
          {
            assert s[..i][p] == s[p];
          }
        }
      }
    }
  }

  /**
   * Two multisets of brokers with the same multiplicities are equal. The body
   * repeats the requires so that the verifier applies extensionality to it.
   */
  lemma SameCounts(a: multiset<Broker>, b: multiset<Broker>)
    requires forall x :: a[x] == b[x]
    ensures a == b
  {
    assert forall x :: a[x] == b[x];
  }

  /** Two lists with the same brokers and ascending Used hold the same brokers before every run boundary. */
  lemma PrefixKeepsBrokers(s: seq<Broker>, t: seq<Broker>, i: int)
    requires multiset(s) == multiset(t)
    requires UsedAscending(s) && UsedAscending(t)
    requires RunBoundary(s, i)
    ensures |s| == |t| && multiset(s[..i]) == multiset(t[..i])
  {
    SameUsedProfile(s, t);
    if i == 0 {
      assert s[..i] == [] && t[..i] == [];
    } else if i == |s| {
      assert s[..i] == s && t[..i] == t;
    } else {
      var c := s[i].used;
      assert t[i - 1].used < t[i].used == c;
      BelowAbove(s, i);
      BelowAbove(t, i);
      PrefixBelow(s, i, c);
      PrefixBelow(t, i, c);
      var a, b := multiset(s[..i]), multiset(t[..i]);
      SameCounts(a, b);
    }
  }

  /** The brokers of s[i..j] are those of s[..j] less those of s[..i]. */
  lemma SplitAt(s: seq<Broker>, i: int, j: int)
    requires 0 <= i <= j <= |s|
    ensures multiset(s[i..j]) == multiset(s[..j]) - multiset(s[..i])
  {
    assert s[..j] == s[..i] + s[i..j];
  }

  /**
   * Between two run boundaries both lists hold the same brokers: every
   * maximal run of equal Used after SortPseudoShuffle contains exactly the
   * brokers that run holds after SortByCount.
   */
  lemma RunsKeepBrokers(s: seq<Broker>, t: seq<Broker>, i: int, j: int)
    requires multiset(s) == multiset(t)
    requires UsedAscending(s) && UsedAscending(t)
    requires i <= j && RunBoundary(s, i) && RunBoundary(s, j)
    ensures |s| == |t| && multiset(s[i..j]) == multiset(t[i..j])
  {
    PrefixKeepsBrokers(s, t, i);
    PrefixKeepsBrokers(s, t, j);
    SplitAt(s, i, j);
    SplitAt(t, i, j);
  }
}
