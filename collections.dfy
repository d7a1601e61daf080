/**
 * Sequence and table helpers shared by the controllers and the socket
 * handlers: MongoDB's `$addToSet`, a scan of a table in id order (ids are
 * minted from a monotone counter, so id order is insertion order and
 * creation order), reversal for `sort({ createdAt: -1 })`, and the window
 * taken by `.skip(n).limit(k)`.
 */
module Collections {
  import opened Wrappers

  predicate NoDups<T(==)>(s: seq<T>)
  {
    forall i, j :: 0 <= i < j < |s| ==> s[i] != s[j]
  }

  /** `$addToSet: { $each: xs }`: each element of `xs` not yet present is appended, in order. */
  function AddToSet<T(==, !new)>(s: seq<T>, xs: seq<T>): (r: seq<T>)
    ensures |s| <= |r| && r[..|s|] == s
    ensures forall x :: x in r <==> x in s || x in xs
    ensures NoDups(s) ==> NoDups(r)
    decreases |xs|
  {
    if xs == [] then s
    else if xs[0] in s then AddToSet(s, xs[1..])
    else AddToSet(s + [xs[0]], xs[1..])
  }

  /** Adding one element that is absent is an append; adding one that is present changes nothing. */
  lemma AddOne<T(!new)>(s: seq<T>, x: T)
    ensures AddToSet(s, [x]) == if x in s then s else s + [x]
  {
    assert [x][1..] == [];
  }

  /** Sequences that are permutations of each other have the same length and the same elements. */
  lemma SameMembers<T>(a: seq<T>, b: seq<T>)
    requires multiset(a) == multiset(b)
    ensures |a| == |b|
    ensures forall x :: x in a <==> x in b
  {
    assert |a| == |multiset(a)|;
    forall x ensures x in a <==> x in b {
      assert x in a <==> x in multiset(a);
      assert x in b <==> x in multiset(b);
    }
  }

  /** The ids below `bound` of the records of `m` that satisfy `p`, in increasing order. */
  function Matching<T>(m: map<nat, T>, p: (nat, T) -> bool, bound: nat): (r: seq<nat>)
    ensures forall i :: 0 <= i < |r| ==> r[i] < bound && r[i] in m && p(r[i], m[r[i]])
    ensures forall i, j :: 0 <= i < j < |r| ==> r[i] < r[j]
    decreases bound
  {
    if bound == 0 then []
    else if bound - 1 in m && p(bound - 1, m[bound - 1]) then Matching(m, p, bound - 1) + [bound - 1]
    else Matching(m, p, bound - 1)
  }

  lemma {:induction false} MatchingComplete<T>(m: map<nat, T>, p: (nat, T) -> bool, bound: nat, id: nat)
    requires id < bound && id in m && p(id, m[id])
    ensures id in Matching(m, p, bound)
    decreases bound
  {
    if id < bound - 1 {
      MatchingComplete(m, p, bound - 1, id);
    }
  }

  /** An id is listed exactly when it is below the bound, present and satisfies the filter. */
  lemma MatchingExact<T>(m: map<nat, T>, p: (nat, T) -> bool, bound: nat)
    ensures forall id :: id in Matching(m, p, bound) <==> id < bound && id in m && p(id, m[id])
  {
    forall id | id < bound && id in m && p(id, m[id])
      ensures id in Matching(m, p, bound)
    {
      MatchingComplete(m, p, bound, id);
    }
  }

  /** Two tables that agree below the bound, record by record and on the filter, list the same ids. */
  lemma {:induction false} MatchingAgree<T>(m1: map<nat, T>, p1: (nat, T) -> bool, m2: map<nat, T>, p2: (nat, T) -> bool, bound: nat)
    requires forall id :: id < bound ==> (id in m1 <==> id in m2)
    requires forall id :: id < bound && id in m1 ==> p1(id, m1[id]) == p2(id, m2[id])
    ensures Matching(m1, p1, bound) == Matching(m2, p2, bound)
    decreases bound
  {
    if bound > 0 {
      MatchingAgree(m1, p1, m2, p2, bound - 1);
    }
  }

  /** The listing has as many ids as there are matching records below the bound. */
  lemma {:induction false} MatchingCount<T>(m: map<nat, T>, p: (nat, T) -> bool, bound: nat)
    ensures |Matching(m, p, bound)| == |set id | id in m && id < bound && p(id, m[id])|
    decreases bound
  {
    var s1 := set id | id in m && id < bound && p(id, m[id]);
    if bound == 0 {
      assert s1 == {};
    } else {
      MatchingCount(m, p, bound - 1);
      var s0 := set id | id in m && id < bound - 1 && p(id, m[id]);
      if bound - 1 in m && p(bound - 1, m[bound - 1]) {
        assert s1 == s0 + {bound - 1};
      } else {
        assert s1 == s0;
      }
    }
  }

  /** The ids of all records of `m` that satisfy `p`. */
  function MatchingSet<T>(m: map<nat, T>, p: (nat, T) -> bool): set<nat>
  {
    set id | id in m && p(id, m[id])
  }

  /** When every key is below the bound, the listing counts all matching records. */
  lemma MatchingCountAll<T>(m: map<nat, T>, p: (nat, T) -> bool, bound: nat)
    requires forall id :: id in m ==> id < bound
    ensures |Matching(m, p, bound)| == |MatchingSet(m, p)|
  {
    MatchingCount(m, p, bound);
    assert (set id | id in m && id < bound && p(id, m[id])) == MatchingSet(m, p);
  }

  /** `findOne(filter)` in natural order: the lowest matching id. */
  function FirstMatching<T>(m: map<nat, T>, p: (nat, T) -> bool, bound: nat): (r: Option<nat>)
    ensures r.Some? ==> r.value < bound && r.value in m && p(r.value, m[r.value])
    ensures r.Some? ==> forall id :: id < r.value && id in m ==> !p(id, m[id])
    ensures r.None? ==> forall id :: id < bound && id in m ==> !p(id, m[id])
  {
    var ids := Matching(m, p, bound);
    MatchingExact(m, p, bound);
    if ids == [] then None else Some(ids[0])
  }

  function Reversed<T>(s: seq<T>): (r: seq<T>)
    ensures |r| == |s| && forall i :: 0 <= i < |s| ==> r[i] == s[|s| - 1 - i]
  {
    if s == [] then [] else Reversed(s[1..]) + [s[0]]
  }

  /**
   * The ids below `bound` of the records of `m` that satisfy `p`, largest
   * (newest) first: `find(filter).sort({ createdAt: -1 })`.
   */
  function NewestFirst<T>(m: map<nat, T>, p: (nat, T) -> bool, bound: nat): (r: seq<nat>)
    ensures forall i :: 0 <= i < |r| ==> r[i] < bound && r[i] in m && p(r[i], m[r[i]])
    ensures forall i, j :: 0 <= i < j < |r| ==> r[i] > r[j]
    ensures forall id :: id in r <==> id < bound && id in m && p(id, m[id])
  {
    var asc := Matching(m, p, bound);
    MatchingExact(m, p, bound);
    ReversedMembers(asc);
    ReversedDescends(asc);
    Reversed(asc)
  }

  lemma ReversedMembers<T>(s: seq<T>)
    ensures forall x :: x in Reversed(s) <==> x in s
  {
    var r := Reversed(s);
    forall x | x in s ensures x in r {
      var k :| 0 <= k < |s| && s[k] == x;
      assert r[|s| - 1 - k] == x;
    }
  }

  lemma ReversedDescends(s: seq<nat>)
    requires forall i, j :: 0 <= i < j < |s| ==> s[i] < s[j]
    ensures forall i, j :: 0 <= i < j < |Reversed(s)| ==> Reversed(s)[i] > Reversed(s)[j]
  {
  }

  /**
   * `.skip(skip).limit(limit)` where a limit of 0 means no limit: the
   * contiguous run of `s` that starts at position `skip`.
   */
  function Window<T>(s: seq<T>, skip: nat, limit: nat): (r: seq<T>)
    ensures limit > 0 ==> |r| <= limit
    ensures forall i :: 0 <= i < |r| ==> skip + i < |s| && r[i] == s[skip + i]
    ensures skip < |s| && (limit == 0 || skip + limit >= |s|) ==> |r| == |s| - skip
    ensures skip + limit < |s| && limit > 0 ==> |r| == limit
  {
    if skip >= |s| then []
    else if limit == 0 || skip + limit >= |s| then s[skip..]
    else s[skip..skip + limit]
  }

  /** The concatenation of pages 1..n of size `limit`. */
  function FirstPages<T>(s: seq<T>, limit: nat, n: nat): seq<T>
  {
    if n == 0 then [] else FirstPages(s, limit, n - 1) + Window(s, (n - 1) * limit, limit)
  }

  /** The first `k` elements of `s`, or all of them when it is shorter. */
  function Prefix<T>(s: seq<T>, k: nat): seq<T>
  {
    s[..if k <= |s| then k else |s|]
  }

  /** The page that starts where a prefix ends extends it by up to `limit` elements. */
  lemma PrefixThenWindow<T>(s: seq<T>, k: nat, limit: nat)
    requires limit > 0
    ensures Prefix(s, k) + Window(s, k, limit) == Prefix(s, k + limit)
  {
    if k >= |s| {
    } else if k + limit >= |s| {
      assert s[..k] + s[k..] == s;
    } else {
      assert s[..k] + s[k..k + limit] == s[..k + limit];
    }
  }

  /**
   * Paging with a fixed positive limit visits the listing in order, with no
   * element skipped and none repeated: pages 1..n together are its first
   * n * limit elements.
   */
  lemma {:induction false} PagesTile<T>(s: seq<T>, limit: nat, n: nat)
    requires limit > 0
    ensures FirstPages(s, limit, n) == Prefix(s, n * limit)
  {
    if n > 0 {
      PagesTile(s, limit, n - 1);
      PrefixThenWindow(s, (n - 1) * limit, limit);
      assert n * limit == (n - 1) * limit + limit;
    }
  }
}
