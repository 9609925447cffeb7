/**
 * Facts about sequences used by the validators and the analytics:
 * the set of a sequence's elements (what `new Set(array)` builds),
 * occurrence counts, and first-occurrence order (the key order of a
 * JavaScript object filled from a sequence).
 */
module Seqs {

  /** The elements of `s`, as `new Set(s)` holds them. */
  function Elements<T(!new)>(s: seq<T>): (r: set<T>)
    ensures forall x :: x in r <==> x in s
  {
    set x | x in s
  }

  /** `new Set(s).size`: the set is filled one element at a time. */
  method SetSize<T(==,!new)>(s: seq<T>) returns (size: nat)
    ensures size == |Elements(s)|
    ensures size <= |s|
  {
    var seen: set<T> := {};
    var i := 0;
    while i < |s|
      invariant 0 <= i <= |s|
      invariant seen == Elements(s[..i])
    {
      assert s[..i + 1] == s[..i] + [s[i]];
      seen := seen + {s[i]};
      i := i + 1;
    }
    assert s[..|s|] == s;
    ElementsCardinality(s);
    size := |seen|;
  }

  /** No value occurs twice in `s`. */
  predicate Distinct<T(==)>(s: seq<T>) {
    forall i, j :: 0 <= i < j < |s| ==> s[i] != s[j]
  }

  /**
   * A set built from a sequence is never larger than the sequence, and is
   * exactly as large when, and only when, the sequence repeats no value.
   */
  lemma {:induction false} ElementsCardinality<T(!new)>(s: seq<T>)
    ensures |Elements(s)| <= |s|
    ensures |Elements(s)| == |s| <==> Distinct(s)
  {
    if s != [] {
      var n := |s| - 1;
      var p := s[..n];
      ElementsCardinality(p);
      assert s == p + [s[n]];
      assert Elements(s) == Elements(p) + {s[n]};
      if s[n] in p {
        assert Elements(s) == Elements(p);
        var k :| 0 <= k < n && p[k] == s[n];
        assert s[k] == s[n];
      } else {
        assert Elements(p) !! {s[n]};
        assert |Elements(s)| == |Elements(p)| + 1;
        if Distinct(p) {
          forall i, j | 0 <= i < j < |s| ensures s[i] != s[j] {
            if j == n {
              assert s[i] == p[i];
            } else {
              assert s[i] == p[i] && s[j] == p[j];
            }
          }
        } else {
          var i, j :| 0 <= i < j < |p| && p[i] == p[j];
          assert s[i] == s[j];
        }
      }
    }
  }

  /** The number of times `x` occurs in `s`. */
  function Count<T(==)>(s: seq<T>, x: T): (n: nat)
    ensures n <= |s|
    ensures n == 0 <==> x !in s
  {
    if s == [] then 0
    else Count(s[..|s| - 1], x) + (if s[|s| - 1] == x then 1 else 0)
  }

  /** The distinct values of `s`, each where it first occurs. */
  function Dedup<T(==,!new)>(s: seq<T>): (r: seq<T>)
    ensures Distinct(r)
    ensures forall x :: x in r <==> x in s
  {
    if s == [] then []
    else
      var p := Dedup(s[..|s| - 1]);
      var x := s[|s| - 1];
      assert forall y :: y in s <==> y in s[..|s| - 1] || y == x;
      if x in p then p else p + [x]
  }

  /** The sum of `m[k]` over the keys listed in `keys`. */
  function SumOver<K>(keys: seq<K>, m: map<K, nat>): nat
    requires forall k :: k in keys ==> k in m
  {
    if keys == [] then 0
    else SumOver(keys[..|keys| - 1], m) + m[keys[|keys| - 1]]
  }

  /** Listing one more key adds its value. */
  lemma SumOverSnoc<K>(keys: seq<K>, m: map<K, nat>, k: K)
    requires forall j :: j in keys ==> j in m
    requires k in m
    ensures SumOver(keys + [k], m) == SumOver(keys, m) + m[k]
  {
    assert (keys + [k])[..|keys|] == keys;
  }

  /** Adding one at a key listed once adds one to the sum. */
  lemma {:induction false} SumOverIncrement<K>(keys: seq<K>, m: map<K, nat>, k: K)
    requires forall j :: j in keys ==> j in m
    requires Distinct(keys) && k in keys
    ensures SumOver(keys, m[k := m[k] + 1]) == SumOver(keys, m) + 1
  {
    var n := |keys| - 1;
    var p := keys[..n];
    assert forall j :: j in p ==> j in keys;
    if keys[n] == k {
      assert k !in p by {
        forall i | 0 <= i < n ensures p[i] != k {
          assert p[i] == keys[i];
        }
      }
      SumOverUnchanged(p, m, k, m[k] + 1);
    } else {
      assert k in p by {
        var i :| 0 <= i < |keys| && keys[i] == k;
        assert i < n && p[i] == k;
      }
      assert Distinct(p) by {
        forall i, j | 0 <= i < j < |p| ensures p[i] != p[j] {
          assert p[i] == keys[i] && p[j] == keys[j];
        }
      }
      SumOverIncrement(p, m, k);
    }
  }

  /** Changing the value at a key that is not listed leaves the sum alone. */
  lemma {:induction false} SumOverUnchanged<K>(keys: seq<K>, m: map<K, nat>, k: K, v: nat)
    requires forall j :: j in keys ==> j in m
    requires k !in keys
    ensures SumOver(keys, m[k := v]) == SumOver(keys, m)
  {
    if keys != [] {
      var p := keys[..|keys| - 1];
      assert forall j :: j in p ==> j in keys;
      SumOverUnchanged(p, m, k, v);
    }
  }

  lemma AppendEmpty<T>(a: seq<T>, b: seq<T>)
    ensures a + b == [] <==> a == [] && b == []
  {
    assert |a + b| == |a| + |b|;
  }

  lemma AppendAssoc<T>(a: seq<T>, b: seq<T>, c: seq<T>)
    ensures (a + b) + c == a + (b + c)
  {
  }

  /** Counting over a one-element extension of a sequence. */
  lemma CountSnoc<T>(s: seq<T>, x: T, y: T)
    ensures Count(s + [x], y) == Count(s, y) + (if x == y then 1 else 0)
  {
    assert (s + [x])[..|s|] == s;
  }

  /** The lists in `parts` joined in order (what pushing each list's items in turn builds). */
  function Concat<E>(parts: seq<seq<E>>): seq<E> {
    if parts == [] then [] else Concat(parts[..|parts| - 1]) + parts[|parts| - 1]
  }

  /** Joining one more list extends the join by that list. */
  lemma ConcatPrefixSnoc<E>(parts: seq<seq<E>>, k: nat)
    requires k < |parts|
    ensures Concat(parts[..k + 1]) == Concat(parts[..k]) + parts[k]
  {
    assert parts[..k + 1][..k] == parts[..k];
  }

  lemma {:induction false} ConcatEmptyIff<E>(parts: seq<seq<E>>)
    ensures Concat(parts) == [] <==> forall i :: 0 <= i < |parts| ==> parts[i] == []
  {
    if parts != [] {
      var p := parts[..|parts| - 1];
      ConcatEmptyIff(p);
      AppendEmpty(Concat(p), parts[|parts| - 1]);
      assert forall i :: 0 <= i < |p| ==> p[i] == parts[i];
    }
  }

  /** An item is in the join exactly when it is in one of the lists. */
  lemma {:induction false} ConcatMember<E>(parts: seq<seq<E>>, x: E)
    ensures x in Concat(parts) <==> exists i :: 0 <= i < |parts| && x in parts[i]
  {
    if parts != [] {
      var n := |parts| - 1;
      var p := parts[..n];
      ConcatMember(p, x);
      assert forall i :: 0 <= i < n ==> p[i] == parts[i];
      if x in Concat(parts) && x !in Concat(p) {
        assert x in parts[n];
      }
    }
  }

  /**
   * When every item of list `i` has key `i`, the keys of the join never
   * decrease: the items come list by list.
   */
  lemma {:induction false} ConcatKeysAscend<E>(parts: seq<seq<E>>, key: E -> int)
    requires forall i, x :: 0 <= i < |parts| && x in parts[i] ==> key(x) == i
    ensures forall a, b :: 0 <= a < b < |Concat(parts)| ==> key(Concat(parts)[a]) <= key(Concat(parts)[b])
    ensures forall a :: 0 <= a < |Concat(parts)| ==> 0 <= key(Concat(parts)[a]) < |parts|
  {
    if parts != [] {
      var n := |parts| - 1;
      var p := parts[..n];
      assert forall i :: 0 <= i < n ==> p[i] == parts[i];
      ConcatKeysAscend(p, key);
      var front := Concat(p);
      var all := Concat(parts);
      assert all == front + parts[n];
      forall a | 0 <= a < |all| ensures 0 <= key(all[a]) < |parts| && (a >= |front| ==> key(all[a]) == n) {
        if a >= |front| {
          assert all[a] == parts[n][a - |front|];
          assert all[a] in parts[n];
        } else {
          assert all[a] == front[a];
        }
      }
    }
  }
}
