/**
 * The JavaScript `Map<string, number>` that both facet builders fill with
 * occurrence counts. A Map remembers the order in which its keys were first
 * set, and `set` on a key already present replaces the value in place; the
 * model is therefore an association list in insertion order.
 */
module CountMap {
  import opened Optional

  /** One `[key, value]` pair as `Map.prototype.entries()` yields it. */
  datatype Entry = Entry(key: string, count: nat)

  /** The keys of a map, in insertion order. */
  function Keys(m: seq<Entry>): seq<string>
  {
    seq(|m|, i requires 0 <= i < |m| => m[i].key)
  }

  ghost predicate Distinct(s: seq<string>)
  {
    forall i, j :: 0 <= i < j < |s| ==> s[i] != s[j]
  }

  /** Position of the first occurrence of `k` in `s`, or `|s|` when absent. */
  function IndexOf(s: seq<string>, k: string): (i: nat)
    ensures i <= |s|
    ensures i < |s| <==> k in s
    ensures i < |s| ==> s[i] == k
    ensures forall j :: 0 <= j < i ==> s[j] != k
  {
    if s == [] then 0
    else if s[0] == k then 0
    else 1 + IndexOf(s[1..], k)
  }

  /** Where `k` sits in the map, or `|m|` when the map does not hold it. */
  function IndexOfKey(m: seq<Entry>, k: string): nat
  {
    IndexOf(Keys(m), k)
  }

  /** `m.get(k)`. */
  function Get(m: seq<Entry>, k: string): (r: Option<nat>)
    ensures r.Some? <==> k in Keys(m)
    ensures r.Some? ==> Entry(k, r.value) in m
  {
    var i := IndexOfKey(m, k);
    if i < |m| then Some(m[i].count) else None
  }

  /** `m.get(k) || 0`: absent keys count as zero. */
  function CountOf(m: seq<Entry>, k: string): (n: nat)
    ensures k !in Keys(m) ==> n == 0
    ensures k in Keys(m) ==> Entry(k, n) in m
  {
    match Get(m, k)
    case Some(n) => n
    case None => 0
  }

  /** Sum of the counts held by the map. */
  function Sum(m: seq<Entry>): nat
  {
    if m == [] then 0 else m[0].count + Sum(m[1..])
  }

  lemma {:induction false} SumUpdate(m: seq<Entry>, i: nat, e: Entry)
    requires i < |m|
    ensures Sum(m[i := e]) + m[i].count == Sum(m) + e.count
  {
    if i > 0 {
      assert m[i := e][1..] == m[1..][i - 1 := e];
      SumUpdate(m[1..], i - 1, e);
    }
  }

  lemma {:induction false} SumAppend(m: seq<Entry>, e: Entry)
    ensures Sum(m + [e]) == Sum(m) + e.count
  {
    if m != [] {
      assert (m + [e])[1..] == m[1..] + [e];
      SumAppend(m[1..], e);
    }
  }

  lemma {:induction false} IndexOfAppend(s: seq<string>, x: string, k: string)
    ensures k in s ==> IndexOf(s + [x], k) == IndexOf(s, k)
    ensures k !in s && k == x ==> IndexOf(s + [x], k) == |s|
    ensures k !in s && k != x ==> IndexOf(s + [x], k) == |s| + 1
  {
    if s != [] && s[0] != k {
      assert (s + [x])[1..] == s[1..] + [x];
      IndexOfAppend(s[1..], x, k);
    }
  }

  /**
   * `m.set(k, v)`: a present key keeps its position and takes the new
   * value, an absent key is appended; every other key is untouched.
   */
  function Set(m: seq<Entry>, k: string, v: nat): (r: seq<Entry>)
    ensures Keys(r) == if k in Keys(m) then Keys(m) else Keys(m) + [k]
    ensures Get(r, k) == Some(v)
    ensures forall k' :: k' != k ==> Get(r, k') == Get(m, k')
    ensures Sum(r) + CountOf(m, k) == Sum(m) + v
  {
    var i := IndexOfKey(m, k);
    if i < |m| then
      var r := m[i := Entry(k, v)];
      assert Keys(r) == Keys(m);
      SumUpdate(m, i, Entry(k, v));
      r
    else
      var r := m + [Entry(k, v)];
      assert Keys(r) == Keys(m) + [k];
      forall k' | k' != k ensures Get(r, k') == Get(m, k') {
        IndexOfAppend(Keys(m), k, k');
      }
      IndexOfAppend(Keys(m), k, k);
      SumAppend(m, Entry(k, v));
      r
  }

  /** In a map whose keys are distinct, each entry is what `get` finds. */
  lemma CountOfMember(m: seq<Entry>, i: nat)
    requires Distinct(Keys(m)) && i < |m|
    ensures CountOf(m, m[i].key) == m[i].count
  {
    assert Keys(m)[i] == m[i].key;
  }

  /**
   * The distinct elements of `ks`, each at the place it first occurs: the
   * key order of a Map into which `ks` was set one after another.
   */
  function FirstSeen(ks: seq<string>): (u: seq<string>)
    ensures Distinct(u)
    ensures forall k :: k in u <==> k in ks
  {
    if ks == [] then []
    else
      var init, k := ks[..|ks| - 1], ks[|ks| - 1];
      assert ks == init + [k];
      var u := FirstSeen(init);
      if k in u then u else u + [k]
  }

  /**
   * `FirstSeen` keeps the order of first occurrences: of two elements of
   * `ks`, the one met first in `ks` comes first.
   */
  lemma {:induction false} FirstSeenOrder(ks: seq<string>, a: string, b: string)
    requires a in ks && b in ks
    ensures IndexOf(FirstSeen(ks), a) < IndexOf(FirstSeen(ks), b) <==> IndexOf(ks, a) < IndexOf(ks, b)
  {
    var init, k := ks[..|ks| - 1], ks[|ks| - 1];
    assert ks == init + [k];
    var u := FirstSeen(init);
    assert FirstSeen(ks) == if k in u then u else u + [k];
    IndexOfAppend(init, k, a);
    IndexOfAppend(init, k, b);
    IndexOfAppend(u, k, a);
    IndexOfAppend(u, k, b);
    if a in init && b in init {
      FirstSeenOrder(init, a, b);
    }
  }

  /**
   * `m` is the Map that counting every element of `ks`, in order, with
   * `m.set(k, (m.get(k) || 0) + 1)` produces: its keys are the distinct
   * elements of `ks` in first-seen order, each counted as often as it
   * occurs, and the counts add up to `|ks|`.
   */
  ghost predicate Tallies(m: seq<Entry>, ks: seq<string>)
  {
    && Keys(m) == FirstSeen(ks)
    && (forall k :: CountOf(m, k) == multiset(ks)[k])
    && Sum(m) == |ks|
  }

  /** The empty Map tallies the empty sequence. */
  lemma TalliesEmpty()
    ensures Tallies([], [])
  {
    assert Keys([]) == [];
  }

  /** One more `set(k, get(k) + 1)` tallies one more occurrence of `k`. */
  lemma {:induction false} TallyStep(m: seq<Entry>, ks: seq<string>, k: string)
    requires Tallies(m, ks)
    ensures Tallies(Set(m, k, CountOf(m, k) + 1), ks + [k])
  {
    var r := Set(m, k, CountOf(m, k) + 1);
    assert (ks + [k])[..|ks|] == ks;
    forall k' ensures CountOf(r, k') == multiset(ks + [k])[k'] {
      if k' != k {
        assert Get(r, k') == Get(m, k');
      }
    }
  }
}
