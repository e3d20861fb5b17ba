/**
 * Ordering of a sequence by a string key, as the `skills` command does when
 * it enumerates the skill enumeration ordered by each member's name. Strings
 * are compared character by character (ordinal order).
 */
module SkillOrder {

  /** Ordinal order on strings: a prefix comes first, otherwise the first differing character decides. */
  predicate NameLe(a: string, b: string)
  {
    if |a| == 0 then true
    else if |b| == 0 then false
    else a[0] < b[0] || (a[0] == b[0] && NameLe(a[1..], b[1..]))
  }

  lemma {:induction false} NameLeTotal(a: string, b: string)
    ensures NameLe(a, b) || NameLe(b, a)
  {
    if |a| > 0 && |b| > 0 && a[0] == b[0] {
      NameLeTotal(a[1..], b[1..]);
    }
  }

  lemma {:induction false} NameLeTransitive(a: string, b: string, c: string)
    requires NameLe(a, b) && NameLe(b, c)
    ensures NameLe(a, c)
  {
    if |a| > 0 && |b| > 0 && |c| > 0 && a[0] == b[0] && b[0] == c[0] {
      NameLeTransitive(a[1..], b[1..], c[1..]);
    }
  }

  /** Every element's key is at most the key of every later element. */
  predicate SortedBy<T>(xs: seq<T>, key: T -> string)
  {
    forall i, j :: 0 <= i < j < |xs| ==> NameLe(key(xs[i]), key(xs[j]))
  }

  /** No element occurs twice. */
  predicate Distinct<T(==)>(xs: seq<T>)
  {
    forall i, j :: 0 <= i < j < |xs| ==> xs[i] != xs[j]
  }

  /** Inserts `x` into a sequence sorted by `key`, before the first element whose key is not smaller. */
  function Insert<T>(x: T, ys: seq<T>, key: T -> string): (r: seq<T>)
    requires SortedBy(ys, key)
    ensures multiset(r) == multiset(ys) + multiset{x}
    ensures SortedBy(r, key)
  {
    if ys == [] then [x]
    else if NameLe(key(x), key(ys[0])) then
      forall k | 0 <= k < |ys| ensures NameLe(key(x), key(ys[k])) {
        if k > 0 { NameLeTransitive(key(x), key(ys[0]), key(ys[k])); }
      }
      [x] + ys
    else
      NameLeTotal(key(x), key(ys[0]));
      var rest := Insert(x, ys[1..], key);
      assert ys == [ys[0]] + ys[1..];
      forall z | z in rest ensures NameLe(key(ys[0]), key(z)) {
        assert z in multiset(rest);
      }
      [ys[0]] + rest
  }

  /** The elements of `xs` in ascending order of `key`. */
  function OrderBy<T>(xs: seq<T>, key: T -> string): (r: seq<T>)
    ensures multiset(r) == multiset(xs)
    ensures SortedBy(r, key)
  {
    if xs == [] then []
    else
      assert xs == [xs[0]] + xs[1..];
      Insert(xs[0], OrderBy(xs[1..], key), key)
  }

  /** Elements are distinct exactly when no element occurs twice in the multiset. */
  lemma {:induction false} DistinctByCount<T>(xs: seq<T>)
    ensures Distinct(xs) <==> forall x :: multiset(xs)[x] <= 1
  {
    if xs != [] {
      var tail := xs[1..];
      assert xs == [xs[0]] + tail;
      DistinctByCount(tail);
      if Distinct(xs) {
        assert Distinct(tail) by {
          forall i, j | 0 <= i < j < |tail| ensures tail[i] != tail[j] {
            assert tail[i] == xs[i + 1] && tail[j] == xs[j + 1];
          }
        }
        assert xs[0] !in tail;
      }
      if forall x :: multiset(xs)[x] <= 1 {
        assert forall x :: multiset(tail)[x] <= multiset(xs)[x];
        assert multiset(tail)[xs[0]] == 0;
        forall i, j | 0 <= i < j < |xs| ensures xs[i] != xs[j] {
          if i == 0 {
            assert xs[j] == tail[j - 1];
            assert xs[j] in multiset(tail);
          } else {
            assert xs[i] == tail[i - 1] && xs[j] == tail[j - 1];
          }
        }
      }
    }
  }

  /** Ordering neither drops, duplicates nor invents elements. */
  lemma OrderByMembers<T>(xs: seq<T>, key: T -> string)
    ensures forall x :: x in OrderBy(xs, key) <==> x in xs
    ensures |OrderBy(xs, key)| == |xs|
    ensures Distinct(xs) ==> Distinct(OrderBy(xs, key))
  {
    var r := OrderBy(xs, key);
    assert |r| == |multiset(r)| == |multiset(xs)| == |xs|;
    forall x ensures x in r <==> x in xs {
      assert x in r <==> x in multiset(r);
      assert x in xs <==> x in multiset(xs);
    }
    DistinctByCount(xs);
    DistinctByCount(r);
  }
}
