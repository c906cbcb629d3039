/**
 * `Array.prototype.sort(compareFn)` on the entries of a count map. The
 * ECMAScript standard (since its 2019 edition) requires this sort to be
 * stable; with a consistent comparator a stable sort has exactly one
 * possible result, which the insertion sort below computes.
 */
module EntrySort {
  import opened CountMap
  import opened Strings

  /** The two comparators the facet builders hand to `sort`. */
  datatype Comparator =
    | ByKey        // (a, b) => a[0].localeCompare(b[0])
    | ByCountDesc  // (a, b) => b[1] - a[1]

  /** `compareFn(a, b)`: negative puts `a` first, positive puts `b` first. */
  function Compare(cmp: Comparator, a: Entry, b: Entry): (r: int)
    ensures cmp == ByKey ==> (r == 0 <==> a.key == b.key)
    ensures cmp == ByCountDesc ==> (r < 0 <==> a.count > b.count) && (r == 0 <==> a.count == b.count)
  {
    match cmp
    case ByKey => LocaleCompare(a.key, b.key)
    case ByCountDesc => b.count - a.count
  }

  /**
   * What the standard asks of a comparator, for both of them: swapping the
   * operands flips the sign ...
   */
  lemma CompareFlips(cmp: Comparator, a: Entry, b: Entry)
    ensures Compare(cmp, a, b) < 0 <==> Compare(cmp, b, a) > 0
  {
    if cmp == ByKey {
      LocaleCompareFlips(a.key, b.key);
    }
  }

  /** ... and "no later than" is transitive. */
  lemma CompareTransitive(cmp: Comparator, a: Entry, b: Entry, c: Entry)
    requires Compare(cmp, a, b) <= 0 && Compare(cmp, b, c) <= 0
    ensures Compare(cmp, a, c) <= 0
  {
    if cmp == ByKey {
      LocaleCompareTransitive(a.key, b.key, c.key);
    }
  }

  /**
   * `r` is `s` sorted by `cmp`, stably: of any two entries of `r`, the first
   * either sorts strictly earlier or ties and was inserted into the map `s`
   * earlier.
   */
  ghost predicate SortedStably(s: seq<Entry>, r: seq<Entry>, cmp: Comparator)
  {
    forall i, j :: 0 <= i < j < |r| ==> Before(s, cmp, r[i], r[j])
  }

  /** `a` sorts strictly before `b`, or ties and was put into the map `s` first. */
  predicate Before(s: seq<Entry>, cmp: Comparator, a: Entry, b: Entry)
  {
    || Compare(cmp, a, b) < 0
    || (Compare(cmp, a, b) == 0 && IndexOfKey(s, a.key) < IndexOfKey(s, b.key))
  }

  /** Where a stable insertion puts `x`, which came before all of `t`. */
  function InsertPos(x: Entry, t: seq<Entry>, cmp: Comparator): (k: nat)
    ensures k <= |t|
    ensures forall i :: 0 <= i < k ==> Compare(cmp, t[i], x) < 0
    ensures k < |t| ==> Compare(cmp, t[k], x) >= 0
  {
    if t == [] || Compare(cmp, t[0], x) >= 0 then 0 else 1 + InsertPos(x, t[1..], cmp)
  }

  function Insert(x: Entry, t: seq<Entry>, cmp: Comparator): (r: seq<Entry>)
    ensures multiset(r) == multiset(t) + multiset{x}
    ensures Sum(r) == x.count + Sum(t)
  {
    var k := InsertPos(x, t, cmp);
    var a, b := t[..k], t[k..];
    assert t == a + b;
    InsertParts(a, x, b);
    a + [x] + b
  }

  lemma InsertParts(a: seq<Entry>, x: Entry, b: seq<Entry>)
    ensures multiset(a + [x] + b) == multiset(a + b) + multiset{x}
    ensures Sum(a + [x] + b) == x.count + Sum(a + b)
  {
    SumSplit(a, [x] + b);
    SumSplit(a, b);
    assert a + [x] + b == a + ([x] + b);
  }

  /** The result of `s.sort(cmp)`. */
  function SortEntries(s: seq<Entry>, cmp: Comparator): (r: seq<Entry>)
    ensures |r| == |s|
    ensures multiset(r) == multiset(s)
  {
    if s == [] then []
    else
      assert s == [s[0]] + s[1..];
      Insert(s[0], SortEntries(s[1..], cmp), cmp)
  }

  /** Sorting keeps the total of the counts. */
  lemma {:induction false} SortEntriesSum(s: seq<Entry>, cmp: Comparator)
    ensures Sum(SortEntries(s, cmp)) == Sum(s)
  {
    if s != [] {
      SortEntriesSum(s[1..], cmp);
    }
  }

  lemma {:induction false} SumSplit(a: seq<Entry>, b: seq<Entry>)
    ensures Sum(a + b) == Sum(a) + Sum(b)
  {
    if a == [] {
      assert a + b == b;
    } else {
      assert (a + b)[1..] == a[1..] + b;
      SumSplit(a[1..], b);
    }
  }

  /** Positions in a map whose first key is dropped move up by one. */
  lemma IndexOfKeyTail(s: seq<Entry>, k: string)
    requires s != [] && k != s[0].key
    ensures IndexOfKey(s, k) == 1 + IndexOfKey(s[1..], k)
  {
    assert Keys(s)[1..] == Keys(s[1..]);
  }

  /**
   * Inserting `x`, which was put into the map before every entry of `t`,
   * into the stably sorted `t` keeps it stably sorted.
   */
  lemma InsertStable(s: seq<Entry>, x: Entry, t: seq<Entry>, cmp: Comparator)
    requires SortedStably(s, t, cmp)
    requires forall e :: e in t ==> IndexOfKey(s, x.key) < IndexOfKey(s, e.key)
    ensures SortedStably(s, Insert(x, t, cmp), cmp)
  {
    var k := InsertPos(x, t, cmp);
    var r := Insert(x, t, cmp);
    InsertLength(x, t, cmp);
    forall i, j | 0 <= i < j < |r|
      ensures || Compare(cmp, r[i], r[j]) < 0
              || (Compare(cmp, r[i], r[j]) == 0 && IndexOfKey(s, r[i].key) < IndexOfKey(s, r[j].key))
    {
      InsertAt(x, t, cmp, i);
      InsertAt(x, t, cmp, j);
      if j < k {
      } else if j == k {
      } else if i == k {
        // x went in front of t[k], so x sorts no later than t[k] ...
        CompareFlips(cmp, t[k], x);
        assert t[j - 1] in t;
        if j - 1 > k {
          // ... nor than anything after it.
          assert Compare(cmp, t[k], t[j - 1]) <= 0;
          CompareTransitive(cmp, x, t[k], t[j - 1]);
        }
      } else if i < k {
        assert r[j] == t[j - 1];
      } else {
        assert r[i] == t[i - 1] && r[j] == t[j - 1];
      }
    }
  }

  lemma InsertLength(x: Entry, t: seq<Entry>, cmp: Comparator)
    ensures |Insert(x, t, cmp)| == |t| + 1
  {
  }

  /** Where each element of `t` lands once `x` is inserted. */
  lemma InsertAt(x: Entry, t: seq<Entry>, cmp: Comparator, i: nat)
    requires i < |t| + 1
    ensures var k := InsertPos(x, t, cmp);
      |Insert(x, t, cmp)| == |t| + 1
      && Insert(x, t, cmp)[i] == (if i < k then t[i] else if i == k then x else t[i - 1])
  {
  }

  /** An entry after the first of a map with distinct keys sits one place further in. */
  lemma TailIndexShift(s: seq<Entry>, e: Entry)
    requires s != [] && Distinct(Keys(s)) && e in s[1..]
    ensures IndexOfKey(s, s[0].key) == 0 < IndexOfKey(s, e.key) == 1 + IndexOfKey(s[1..], e.key)
  {
    var p :| 0 <= p < |s| - 1 && s[1..][p] == e;
    assert Keys(s)[p + 1] == e.key && Keys(s)[0] == s[0].key;
    IndexOfKeyTail(s, e.key);
  }

  /**
   * Sorted stably with respect to the map without its first entry is sorted
   * stably with respect to the whole map, in which that entry came first.
   */
  lemma StableInWhole(s: seq<Entry>, t: seq<Entry>, cmp: Comparator)
    requires s != [] && Distinct(Keys(s))
    requires multiset(t) == multiset(s[1..]) && SortedStably(s[1..], t, cmp)
    ensures SortedStably(s, t, cmp)
    ensures forall e :: e in t ==> IndexOfKey(s, s[0].key) < IndexOfKey(s, e.key)
  {
    forall e | e in t ensures IndexOfKey(s, s[0].key) < IndexOfKey(s, e.key) == 1 + IndexOfKey(s[1..], e.key) {
      assert e in multiset(s[1..]);
      TailIndexShift(s, e);
    }
    forall i, j | 0 <= i < j < |t| ensures Before(s, cmp, t[i], t[j]) {
      assert Before(s[1..], cmp, t[i], t[j]);
      assert t[i] in t && t[j] in t;
    }
  }

  /** The insertion sort is stable, and sorted under both comparators. */
  lemma {:induction false} SortEntriesStable(s: seq<Entry>, cmp: Comparator)
    requires Distinct(Keys(s))
    ensures SortedStably(s, SortEntries(s, cmp), cmp)
  {
    if s != [] {
      assert Keys(s[1..]) == Keys(s)[1..];
      SortEntriesStable(s[1..], cmp);
      StableInWhole(s, SortEntries(s[1..], cmp), cmp);
      InsertStable(s, s[0], SortEntries(s[1..], cmp), cmp);
    }
  }

  lemma BeforeAsymmetric(s: seq<Entry>, cmp: Comparator, a: Entry, b: Entry)
    requires Before(s, cmp, a, b)
    ensures !Before(s, cmp, b, a)
  {
    CompareFlips(cmp, a, b);
  }

  /**
   * A stable sort has only one possible result: any rearrangement of the
   * map's entries that is sorted stably is the one `SortEntries` computes.
   */
  lemma {:induction false} StableSortIsUnique(s: seq<Entry>, r1: seq<Entry>, r2: seq<Entry>, cmp: Comparator)
    requires multiset(r1) == multiset(r2)
    requires SortedStably(s, r1, cmp) && SortedStably(s, r2, cmp)
    ensures r1 == r2
  {
    if r1 != [] {
      assert r1[0] in multiset(r2) && r2[0] in multiset(r1);
      var j :| 0 <= j < |r2| && r2[j] == r1[0];
      var i :| 0 <= i < |r1| && r1[i] == r2[0];
      if r1[0] != r2[0] {
        assert Before(s, cmp, r1[0], r1[i]);
        assert Before(s, cmp, r2[0], r2[j]);
        BeforeAsymmetric(s, cmp, r1[0], r2[0]);
        assert false;
      }
      assert SortedStably(s, r1[1..], cmp) && SortedStably(s, r2[1..], cmp) by {
        forall a, b | 0 <= a < b < |r1| - 1 ensures Before(s, cmp, r1[1..][a], r1[1..][b]) {
          assert r1[1..][a] == r1[a + 1] && r1[1..][b] == r1[b + 1];
        }
        forall a, b | 0 <= a < b < |r2| - 1 ensures Before(s, cmp, r2[1..][a], r2[1..][b]) {
          assert r2[1..][a] == r2[a + 1] && r2[1..][b] == r2[b + 1];
        }
      }
      MultisetTail(r1);
      MultisetTail(r2);
      StableSortIsUnique(s, r1[1..], r2[1..], cmp);
    }
  }

  lemma MultisetTail(r: seq<Entry>)
    requires r != []
    ensures multiset(r[1..]) == multiset(r) - multiset{r[0]}
  {
    assert r == [r[0]] + r[1..];
  }

  /** So `SortEntries` is what any stable `sort` returns. */
  lemma AnyStableSortAgrees(s: seq<Entry>, r: seq<Entry>, cmp: Comparator)
    requires Distinct(Keys(s))
    requires multiset(r) == multiset(s) && SortedStably(s, r, cmp)
    ensures r == SortEntries(s, cmp)
  {
    SortEntriesStable(s, cmp);
    StableSortIsUnique(s, r, SortEntries(s, cmp), cmp);
  }
}
