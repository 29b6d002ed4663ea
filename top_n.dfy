/**
 * `top_n_values` of scripts/loras.py: the `n` entries of a tag-frequency dictionary with the
 * largest values, in descending order of value, ties kept in dictionary order.
 *
 * A Python dictionary is an association list in insertion order; the model keeps it as
 * the sequence of its items `d.items()`.
 */
module TopN {
  import opened Base

  /** One item of a dictionary: a tag and its count. */
  datatype Entry = Entry(tag: string, count: int)

  predicate NonIncreasing(s: seq<Entry>)
  {
    forall i, j :: 0 <= i < j < |s| ==> s[i].count >= s[j].count
  }

  /** The keys of a dictionary are distinct. */
  predicate DistinctKeys(s: seq<Entry>)
  {
    forall i, j :: 0 <= i < j < |s| ==> s[i].tag != s[j].tag
  }

  /** Places `x` before the first element whose value is not larger than its own. */
  function Insert(x: Entry, s: seq<Entry>): (r: seq<Entry>)
    ensures |r| == |s| + 1
  {
    if |s| == 0 then [x]
    else if s[0].count > x.count then [s[0]] + Insert(x, s[1..])
    else [x] + s
  }

  lemma {:induction false} InsertPermutes(x: Entry, s: seq<Entry>)
    ensures multiset(Insert(x, s)) == multiset(s) + multiset{x}
    decreases |s|
  {
    if |s| > 0 && s[0].count > x.count {
      InsertPermutes(x, s[1..]);
      assert s == [s[0]] + s[1..];
    }
  }

  lemma {:induction false} InsertBounded(x: Entry, s: seq<Entry>, b: int)
    requires x.count <= b && forall i :: 0 <= i < |s| ==> s[i].count <= b
    ensures forall i :: 0 <= i < |Insert(x, s)| ==> Insert(x, s)[i].count <= b
    decreases |s|
  {
    if |s| > 0 && s[0].count > x.count {
      InsertBounded(x, s[1..], b);
      var r := Insert(x, s);
      assert r == [s[0]] + Insert(x, s[1..]);
      forall i | 1 <= i < |r| ensures r[i].count <= b {
        assert r[i] == Insert(x, s[1..])[i - 1];
      }
    }
  }

  lemma {:induction false} InsertSorted(x: Entry, s: seq<Entry>)
    requires NonIncreasing(s)
    ensures NonIncreasing(Insert(x, s))
    decreases |s|
  {
    if |s| > 0 && s[0].count > x.count {
      var rest := Insert(x, s[1..]);
      InsertSorted(x, s[1..]);
      InsertBounded(x, s[1..], s[0].count);
      var r := [s[0]] + rest;
      forall i, j | 0 <= i < j < |r| ensures r[i].count >= r[j].count {
        assert r[j] == rest[j - 1];
        if i > 0 {
          assert r[i] == rest[i - 1];
        }
      }
    }
  }

  /** The items sorted by value, largest first; the sort is stable, so ties keep their order. */
  function SortByValueDesc(s: seq<Entry>): (r: seq<Entry>)
    ensures |r| == |s|
    ensures NonIncreasing(r)
  {
    if |s| == 0 then []
    else
      var rest := SortByValueDesc(s[1..]);
      InsertSorted(s[0], rest);
      Insert(s[0], rest)
  }

  /** The sort is a permutation of its input. */
  lemma {:induction false} SortPermutes(s: seq<Entry>)
    ensures multiset(SortByValueDesc(s)) == multiset(s)
    decreases |s|
  {
    if |s| > 0 {
      var rest := SortByValueDesc(s[1..]);
      SortPermutes(s[1..]);
      InsertPermutes(s[0], rest);
      assert SortByValueDesc(s) == Insert(s[0], rest);
      assert s == [s[0]] + s[1..];
      assert multiset(s) == multiset{s[0]} + multiset(s[1..]);
    }
  }

  lemma SortedMembers(s: seq<Entry>)
    ensures forall e :: e in SortByValueDesc(s) <==> e in s
  {
    var r := SortByValueDesc(s);
    SortPermutes(s);
    forall e ensures e in r <==> e in s {
      assert e in r <==> e in multiset(r);
      assert e in s <==> e in multiset(s);
    }
  }

  /** The entries with value `v`, in order. */
  function WithValue(s: seq<Entry>, v: int): seq<Entry>
  {
    if |s| == 0 then [] else (if s[0].count == v then [s[0]] else []) + WithValue(s[1..], v)
  }

  lemma {:induction false} InsertStable(x: Entry, s: seq<Entry>, v: int)
    ensures WithValue(Insert(x, s), v) == (if x.count == v then [x] else []) + WithValue(s, v)
    decreases |s|
  {
    var xs := if x.count == v then [x] else [];
    if |s| == 0 {
      assert Insert(x, s) == [x];
      assert WithValue([x], v) == xs + WithValue([x][1..], v);
    } else {
      var hs := if s[0].count == v then [s[0]] else [];
      assert WithValue(s, v) == hs + WithValue(s[1..], v);
      if s[0].count > x.count {
        var rest := Insert(x, s[1..]);
        InsertStable(x, s[1..], v);
        var r := [s[0]] + rest;
        assert Insert(x, s) == r;
        assert r[1..] == rest;
        assert WithValue(r, v) == hs + WithValue(rest, v);
        assert x.count == v ==> hs == [];
      } else {
        var r := [x] + s;
        assert Insert(x, s) == r;
        assert r[1..] == s;
        assert WithValue(r, v) == xs + WithValue(s, v);
      }
    }
  }

  /**
   * The sort is stable: for every value, the entries carrying it appear in the same order
   * as in the input. With the sortedness and the permutation of the contract, this
   * determines the result completely.
   */
  lemma {:induction false} SortStable(s: seq<Entry>, v: int)
    ensures WithValue(SortByValueDesc(s), v) == WithValue(s, v)
    decreases |s|
  {
    if |s| > 0 {
      SortStable(s[1..], v);
      InsertStable(s[0], SortByValueDesc(s[1..]), v);
    }
  }

  /** The first `n` items of that sort, in the order the resulting dictionary keeps them. */
  function TopNValues(d: seq<Entry>, n: nat): (r: seq<Entry>)
    ensures |r| == Min(n, |d|)
    ensures NonIncreasing(r)
  {
    SortByValueDesc(d)[..Min(n, |d|)]
  }

  /**
   * The result is drawn from the input, and every item left out has a value no larger than
   * any item kept.
   */
  lemma TopNSelects(d: seq<Entry>, n: nat)
    ensures forall e :: e in TopNValues(d, n) ==> e in d
    ensures forall i, j :: 0 <= i < |d| && 0 <= j < |TopNValues(d, n)| && d[i] !in TopNValues(d, n) ==>
      d[i].count <= TopNValues(d, n)[j].count
  {
    var sorted := SortByValueDesc(d);
    var r := TopNValues(d, n);
    SortedMembers(d);
    forall e | e in r ensures e in d {
      assert e in sorted;
    }
    forall i, j | 0 <= i < |d| && 0 <= j < |r| && d[i] !in r ensures d[i].count <= r[j].count {
      assert d[i] in sorted;
      var k :| 0 <= k < |sorted| && sorted[k] == d[i];
      assert k >= |r|;
      assert r[j] == sorted[j];
    }
  }

  lemma {:induction false} WithValueAppend(a: seq<Entry>, b: seq<Entry>, v: int)
    ensures WithValue(a + b, v) == WithValue(a, v) + WithValue(b, v)
    decreases |a|
  {
    if |a| == 0 {
      assert a + b == b;
    } else {
      assert (a + b)[1..] == a[1..] + b;
      WithValueAppend(a[1..], b, v);
    }
  }

  /** Ties keep their order: the entries of the result with value `v` begin the input's list of them. */
  lemma TopNStable(d: seq<Entry>, n: nat, v: int)
    ensures var top := WithValue(TopNValues(d, n), v);
      |top| <= |WithValue(d, v)| && top == WithValue(d, v)[..|top|]
  {
    var sorted := SortByValueDesc(d);
    var k := Min(n, |d|);
    assert sorted == sorted[..k] + sorted[k..];
    WithValueAppend(sorted[..k], sorted[k..], v);
    SortStable(d, v);
  }

  /** `LookupIn(d, k) == Some(v)` when the dictionary maps `k` to `v`. */
  function LookupIn(d: seq<Entry>, k: string): Option<int>
  {
    if |d| == 0 then None else if d[0].tag == k then Some(d[0].count) else LookupIn(d[1..], k)
  }

  lemma {:induction false} LookupInFinds(d: seq<Entry>, i: nat)
    requires DistinctKeys(d) && i < |d|
    ensures LookupIn(d, d[i].tag) == Some(d[i].count)
    decreases i
  {
    if i > 0 {
      assert d[0].tag != d[i].tag;
      assert d[1..][i - 1] == d[i];
      LookupInFinds(d[1..], i - 1);
    }
  }

  lemma {:induction false} InsertKeepsKeysDistinct(x: Entry, s: seq<Entry>)
    requires DistinctKeys(s) && forall e :: e in s ==> e.tag != x.tag
    ensures DistinctKeys(Insert(x, s))
    decreases |s|
  {
    if |s| > 0 && s[0].count > x.count {
      InsertKeepsKeysDistinct(x, s[1..]);
      var rest := Insert(x, s[1..]);
      InsertPermutes(x, s[1..]);
      forall e | e in rest ensures e.tag != s[0].tag {
        assert e in multiset(rest);
      }
    }
  }

  lemma {:induction false} SortKeepsKeysDistinct(s: seq<Entry>)
    requires DistinctKeys(s)
    ensures DistinctKeys(SortByValueDesc(s))
    decreases |s|
  {
    if |s| > 0 {
      SortKeepsKeysDistinct(s[1..]);
      var rest := SortByValueDesc(s[1..]);
      SortedMembers(s[1..]);
      forall e | e in rest ensures e.tag != s[0].tag {
        var i :| 0 <= i < |s[1..]| && s[1..][i] == e;
        assert s[i + 1] == e;
      }
      InsertKeepsKeysDistinct(s[0], rest);
    }
  }

  /**
   * For a real dictionary (distinct keys) the result is a dictionary too, so `dict` keeps
   * all `min(n, len(d))` items, and each of its keys has in `d` the value it has in the result.
   */
  lemma TopNIsSubDictionary(d: seq<Entry>, n: nat)
    requires DistinctKeys(d)
    ensures DistinctKeys(TopNValues(d, n))
    ensures forall e :: e in TopNValues(d, n) ==> LookupIn(d, e.tag) == Some(e.count)
  {
    SortKeepsKeysDistinct(d);
    TopNSelects(d, n);
    forall e | e in TopNValues(d, n) ensures LookupIn(d, e.tag) == Some(e.count) {
      var i :| 0 <= i < |d| && d[i] == e;
      LookupInFinds(d, i);
    }
  }

  /** The insertions the sort performs on the example of `TopNExample`, one lemma per step. */
  lemma ExampleInsertsLow()
    ensures Insert(Entry("v", 3), [Entry("u", 8)]) == [Entry("u", 8), Entry("v", 3)]
    ensures Insert(Entry("w", 7), [Entry("u", 8), Entry("v", 3)]) == [Entry("u", 8), Entry("w", 7), Entry("v", 3)]
  {
    assert [Entry("u", 8)][1..] == [];
    assert [Entry("u", 8), Entry("v", 3)][1..] == [Entry("v", 3)];
  }

  lemma ExampleInsertZ()
    ensures Insert(Entry("z", 1), [Entry("u", 8), Entry("w", 7), Entry("v", 3)]) ==
            [Entry("u", 8), Entry("w", 7), Entry("v", 3), Entry("z", 1)]
  {
    var s3 := [Entry("u", 8), Entry("w", 7), Entry("v", 3)];
    assert s3[1..] == [Entry("w", 7), Entry("v", 3)];
    assert s3[1..][1..] == [Entry("v", 3)];
    assert s3[1..][1..][1..] == [];
    assert Insert(Entry("z", 1), [Entry("v", 3)]) == [Entry("v", 3), Entry("z", 1)];
    assert Insert(Entry("z", 1), [Entry("w", 7), Entry("v", 3)]) == [Entry("w", 7), Entry("v", 3), Entry("z", 1)];
  }

  lemma ExampleInsertX()
    ensures Insert(Entry("x", 5), [Entry("y", 9), Entry("u", 8), Entry("w", 7), Entry("v", 3), Entry("z", 1)]) ==
            [Entry("y", 9), Entry("u", 8), Entry("w", 7), Entry("x", 5), Entry("v", 3), Entry("z", 1)]
  {
    var s1 := [Entry("y", 9), Entry("u", 8), Entry("w", 7), Entry("v", 3), Entry("z", 1)];
    assert s1[1..] == [Entry("u", 8), Entry("w", 7), Entry("v", 3), Entry("z", 1)];
    assert s1[1..][1..] == [Entry("w", 7), Entry("v", 3), Entry("z", 1)];
    assert s1[1..][1..][1..] == [Entry("v", 3), Entry("z", 1)];
    assert Insert(Entry("x", 5), [Entry("w", 7), Entry("v", 3), Entry("z", 1)]) ==
           [Entry("w", 7), Entry("x", 5), Entry("v", 3), Entry("z", 1)];
    assert Insert(Entry("x", 5), [Entry("u", 8), Entry("w", 7), Entry("v", 3), Entry("z", 1)]) ==
           [Entry("u", 8), Entry("w", 7), Entry("x", 5), Entry("v", 3), Entry("z", 1)];
  }

  lemma ExampleSortTail()
    ensures SortByValueDesc([Entry("z", 1), Entry("w", 7), Entry("v", 3), Entry("u", 8)]) ==
            [Entry("u", 8), Entry("w", 7), Entry("v", 3), Entry("z", 1)]
  {
    ExampleInsertsLow();
    ExampleInsertZ();
    var t := [Entry("z", 1), Entry("w", 7), Entry("v", 3), Entry("u", 8)];
    assert t[1..] == [Entry("w", 7), Entry("v", 3), Entry("u", 8)];
    assert t[1..][1..] == [Entry("v", 3), Entry("u", 8)];
    assert t[1..][1..][1..] == [Entry("u", 8)];
    assert t[1..][1..][1..][1..] == [];
    assert SortByValueDesc([Entry("u", 8)]) == [Entry("u", 8)];
    assert SortByValueDesc([Entry("v", 3), Entry("u", 8)]) == [Entry("u", 8), Entry("v", 3)];
    assert SortByValueDesc([Entry("w", 7), Entry("v", 3), Entry("u", 8)]) == [Entry("u", 8), Entry("w", 7), Entry("v", 3)];
  }

  lemma ExampleSort()
    ensures SortByValueDesc([Entry("x", 5), Entry("y", 9), Entry("z", 1), Entry("w", 7), Entry("v", 3), Entry("u", 8)]) ==
            [Entry("y", 9), Entry("u", 8), Entry("w", 7), Entry("x", 5), Entry("v", 3), Entry("z", 1)]
  {
    var d := [Entry("x", 5), Entry("y", 9), Entry("z", 1), Entry("w", 7), Entry("v", 3), Entry("u", 8)];
    var s2 := [Entry("u", 8), Entry("w", 7), Entry("v", 3), Entry("z", 1)];
    var s1 := [Entry("y", 9), Entry("u", 8), Entry("w", 7), Entry("v", 3), Entry("z", 1)];
    ExampleSortTail();
    ExampleInsertX();
    assert d[1..] == [Entry("y", 9), Entry("z", 1), Entry("w", 7), Entry("v", 3), Entry("u", 8)];
    assert d[1..][1..] == [Entry("z", 1), Entry("w", 7), Entry("v", 3), Entry("u", 8)];
    assert Insert(Entry("y", 9), s2) == s1;
    assert SortByValueDesc(d[1..]) == s1;
  }

  /** Counts x:5, y:9, z:1, w:7, v:3, u:8 give y, u, w, x, v: the five largest counts, largest first. */
  lemma TopNExample()
    ensures TopNValues([Entry("x", 5), Entry("y", 9), Entry("z", 1), Entry("w", 7), Entry("v", 3), Entry("u", 8)], 5) ==
            [Entry("y", 9), Entry("u", 8), Entry("w", 7), Entry("x", 5), Entry("v", 3)]
  {
    ExampleSort();
    var s0 := [Entry("y", 9), Entry("u", 8), Entry("w", 7), Entry("x", 5), Entry("v", 3), Entry("z", 1)];
    assert s0[..5] == [Entry("y", 9), Entry("u", 8), Entry("w", 7), Entry("x", 5), Entry("v", 3)];
  }
}
