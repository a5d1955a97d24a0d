/** `sort_keys=True`: the members of a dict are written in ascending order of their keys,
    whatever order they were inserted in. */
module KeyOrder {

  /** Python's `<` on `str`: lexicographic by code point, a proper prefix first. */
  predicate Less(a: string, b: string)
  {
    if a == [] then b != []
    else if b == [] then false
    else if a[0] != b[0] then a[0] < b[0]
    else Less(a[1..], b[1..])
  }

  lemma {:induction false} LessIrreflexive(a: string)
    ensures !Less(a, a)
  {
    if a != [] {
      LessIrreflexive(a[1..]);
    }
  }

  lemma {:induction false} LessTransitive(a: string, b: string, c: string)
    requires Less(a, b) && Less(b, c)
    ensures Less(a, c)
  {
    if a != [] && a[0] == b[0] && b[0] == c[0] {
      LessTransitive(a[1..], b[1..], c[1..]);
    }
  }

  /** Any two different keys are ordered one way or the other, and never both ways. */
  lemma {:induction false} LessTotal(a: string, b: string)
    ensures a != b <==> (Less(a, b) || Less(b, a))
    ensures !(Less(a, b) && Less(b, a))
  {
    if a != [] && b != [] && a[0] == b[0] {
      LessTotal(a[1..], b[1..]);
      if a[1..] == b[1..] {
        assert a == [a[0]] + a[1..] && b == [b[0]] + b[1..];
      }
    } else if a == [] || b == [] {
    } else {
    }
    if a == b {
      LessIrreflexive(a);
    }
  }

  /** One `key: value` pair of a dict, with the value already rendered. */
  datatype Member = Member(key: string, value: string)

  /** Strictly ascending keys (so no key twice). */
  predicate Sorted(ms: seq<Member>)
  {
    forall i, j :: 0 <= i < j < |ms| ==> Less(ms[i].key, ms[j].key)
  }

  /** What a dict guarantees: no key occurs twice. */
  predicate DistinctKeys(ms: seq<Member>)
  {
    forall i, j :: 0 <= i < j < |ms| ==> ms[i].key != ms[j].key
  }

  /** Every member's key is above `k`. */
  predicate Above(k: string, ms: seq<Member>)
  {
    forall i :: 0 <= i < |ms| ==> Less(k, ms[i].key)
  }

  /** Puts `m` in front of the first member whose key is not below its own. */
  function Insert(m: Member, ms: seq<Member>): (r: seq<Member>)
    ensures multiset(r) == multiset([m] + ms)
  {
    if ms == [] then [m]
    else if Less(ms[0].key, m.key) then
      assert ms == [ms[0]] + ms[1..];
      [ms[0]] + Insert(m, ms[1..])
    else [m] + ms
  }

  /** The items of a dict in key order, as `sorted(d.items())` gives them. */
  function SortByKey(ms: seq<Member>): (r: seq<Member>)
    ensures multiset(r) == multiset(ms)
  {
    if ms == [] then []
    else
      assert ms == [ms[0]] + ms[1..];
      Insert(ms[0], SortByKey(ms[1..]))
  }

  lemma AboveFromSorted(k: string, ms: seq<Member>)
    requires Sorted(ms) && ms != [] && Less(k, ms[0].key)
    ensures Above(k, ms)
  {
    forall i | 0 <= i < |ms| ensures Less(k, ms[i].key) {
      if i > 0 {
        LessTransitive(k, ms[0].key, ms[i].key);
      }
    }
  }

  /** A member whose key is below every key of a sorted list can go in front of it. */
  lemma SortedCons(m: Member, ms: seq<Member>)
    requires Sorted(ms) && Above(m.key, ms)
    ensures Sorted([m] + ms)
  {
    var r := [m] + ms;
    forall i, j | 0 <= i < j < |r| ensures Less(r[i].key, r[j].key) {
      if i > 0 {
        assert r[i] == ms[i - 1] && r[j] == ms[j - 1];
      }
    }
  }

  /** Inserting a member above `k` keeps every key above `k`. */
  lemma InsertAbove(k: string, m: Member, ms: seq<Member>)
    requires Less(k, m.key) && Above(k, ms)
    ensures Above(k, Insert(m, ms))
  {
    var r := Insert(m, ms);
    forall j | 0 <= j < |r| ensures Less(k, r[j].key) {
      assert r[j] in multiset([m] + ms);
      if r[j] != m {
        assert r[j] in ms;
      }
    }
  }

  lemma {:induction false} InsertSorted(m: Member, ms: seq<Member>)
    requires Sorted(ms)
    requires forall i :: 0 <= i < |ms| ==> ms[i].key != m.key
    ensures Sorted(Insert(m, ms))
  {
    if ms == [] {
    } else if Less(ms[0].key, m.key) {
      InsertSorted(m, ms[1..]);
      assert Above(ms[0].key, ms[1..]) by {
        forall j | 0 <= j < |ms[1..]| ensures Less(ms[0].key, ms[1..][j].key) {
          assert ms[1..][j] == ms[j + 1];
        }
      }
      InsertAbove(ms[0].key, m, ms[1..]);
      SortedCons(ms[0], Insert(m, ms[1..]));
    } else {
      LessTotal(ms[0].key, m.key);
      AboveFromSorted(m.key, ms);
      SortedCons(m, ms);
    }
  }

  /** With distinct keys, the members come out in strictly ascending key order. */
  lemma {:induction false} SortByKeySorted(ms: seq<Member>)
    requires DistinctKeys(ms)
    ensures Sorted(SortByKey(ms))
  {
    if ms != [] {
      var rest := SortByKey(ms[1..]);
      SortByKeySorted(ms[1..]);
      forall i | 0 <= i < |rest| ensures rest[i].key != ms[0].key {
        assert rest[i] in multiset(ms[1..]);
        var k :| 0 <= k < |ms[1..]| && ms[1..][k] == rest[i];
        assert ms[k + 1] == rest[i];
      }
      InsertSorted(ms[0], rest);
    }
  }

  lemma SameTails(a: seq<Member>, b: seq<Member>)
    requires a != [] && b != [] && a[0] == b[0] && multiset(a) == multiset(b)
    ensures multiset(a[1..]) == multiset(b[1..])
  {
    assert a == [a[0]] + a[1..] && b == [b[0]] + b[1..];
    assert multiset(a[1..]) == multiset(a) - multiset([a[0]]);
    assert multiset(b[1..]) == multiset(b) - multiset([b[0]]);
  }

  lemma SameHeads(a: seq<Member>, b: seq<Member>)
    requires Sorted(a) && Sorted(b) && multiset(a) == multiset(b) && a != []
    ensures b != [] && a[0] == b[0]
  {
    assert |b| == |multiset(b)| == |multiset(a)| == |a|;
    assert a[0] in multiset(b) && b[0] in multiset(a);
    var j :| 0 <= j < |b| && b[j] == a[0];
    var i :| 0 <= i < |a| && a[i] == b[0];
    if j > 0 {
      if i > 0 {
        LessTotal(a[0].key, a[i].key);
      } else {
        LessIrreflexive(b[0].key);
      }
    }
  }

  /** Two strictly sorted arrangements of the same members are the same sequence. */
  lemma {:induction false} SortedUnique(a: seq<Member>, b: seq<Member>)
    requires Sorted(a) && Sorted(b) && multiset(a) == multiset(b)
    ensures a == b
  {
    if a == [] {
      assert |b| == |multiset(b)| == 0;
    } else {
      SameHeads(a, b);
      SameTails(a, b);
      SortedUnique(a[1..], b[1..]);
      assert a == [a[0]] + a[1..] && b == [b[0]] + b[1..];
    }
  }

  lemma {:induction false} SortedFromAdjacent(ms: seq<Member>)
    requires forall i :: 0 <= i < |ms| - 1 ==> Less(ms[i].key, ms[i + 1].key)
    ensures Sorted(ms)
  {
    if |ms| > 1 {
      SortedFromAdjacent(ms[1..]);
      forall j | 1 <= j < |ms| ensures Less(ms[0].key, ms[j].key) {
        if j > 1 {
          assert ms[1..][j - 1] == ms[j];
          LessTransitive(ms[0].key, ms[1].key, ms[j].key);
        }
      }
    }
  }

  /** A dict whose members, in insertion order `ms`, are a rearrangement of `sorted`, whose keys
      ascend from each member to the next, is written in the order of `sorted`. */
  lemma SortsTo(ms: seq<Member>, sorted: seq<Member>)
    requires DistinctKeys(ms) && multiset(sorted) == multiset(ms)
    requires forall i :: 0 <= i < |sorted| - 1 ==> Less(sorted[i].key, sorted[i + 1].key)
    ensures SortByKey(ms) == sorted
  {
    SortedFromAdjacent(sorted);
    SortByKeySorted(ms);
    SortedUnique(SortByKey(ms), sorted);
  }

  /** The order in which a dict's members were inserted does not show in the output. */
  lemma SortIgnoresInsertionOrder(a: seq<Member>, b: seq<Member>)
    requires DistinctKeys(a) && DistinctKeys(b) && multiset(a) == multiset(b)
    ensures SortByKey(a) == SortByKey(b)
  {
    SortByKeySorted(a);
    SortByKeySorted(b);
    SortedUnique(SortByKey(a), SortByKey(b));
  }
}
