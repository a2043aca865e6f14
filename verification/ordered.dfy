/**
 * Ordered iteration over the keys of a map, as `BTreeMap::keys()` and `.iter()` / `.iter().rev()`
 * deliver them: every key once, in ascending (or descending) order.
 */
module Ordered {

  predicate StrictlyAscending(s: seq<real>) {
    forall i, j :: 0 <= i < j < |s| ==> s[i] < s[j]
  }

  predicate StrictlyDescending(s: seq<real>) {
    forall i, j :: 0 <= i < j < |s| ==> s[i] > s[j]
  }

  predicate Distinct(s: seq<real>) {
    forall i, j :: 0 <= i < j < |s| ==> s[i] != s[j]
  }

  lemma EmptyWithoutMembers(keys: set<real>)
    requires forall x :: x !in keys
    ensures keys == {}
  {
    var none: set<real> := {};
    assert forall x :: x in keys <==> x in none;
    assert keys == none;
  }

  lemma HasMember(keys: set<real>)
    requires keys != {}
    ensures exists x :: x in keys
  {
    if forall x :: x !in keys {
      EmptyWithoutMembers(keys);
      assert false;
    }
  }

  /** `m` is no greater than any key. */
  predicate IsLeast(keys: set<real>, m: real) {
    forall k :: k in keys ==> m <= k
  }

  /** A non-empty finite key set has a least key. */
  lemma {:induction false} MinExists(keys: set<real>)
    requires keys != {}
    ensures exists m :: m in keys && IsLeast(keys, m)
    decreases |keys|
  {
    HasMember(keys);
    var x :| x in keys;
    var rest := keys - {x};
    if rest == {} {
      assert IsLeast(keys, x) by {
        forall k | k in keys ensures x <= k { assert k !in rest; }
      }
    } else {
      MinExists(rest);
      var m :| m in rest && IsLeast(rest, m);
      if x < m {
        assert IsLeast(keys, x) by {
          forall k | k in keys ensures x <= k { if k != x { assert k in rest; } }
        }
      } else {
        assert IsLeast(keys, m) by {
          forall k | k in keys ensures m <= k { if k != x { assert k in rest; } }
        }
      }
    }
  }

  /** The least key of a non-empty key set. */
  function MinOf(keys: set<real>): (m: real)
    requires keys != {}
    ensures m in keys && forall k :: k in keys ==> m <= k
  {
    MinExists(keys);
    var m :| m in keys && IsLeast(keys, m); m
  }

  /** The keys in ascending order, each once: the order of `BTreeMap::keys()`. */
  function Ascending(keys: set<real>): (r: seq<real>)
    ensures |r| == |keys|
    ensures StrictlyAscending(r)
    ensures forall i :: 0 <= i < |r| ==> r[i] in keys
    ensures forall k :: k in keys ==> k in r
    decreases |keys|
  {
    if keys == {} then []
    else
      var m := MinOf(keys);
      [m] + Ascending(keys - {m})
  }

  /** `a` read back to front. */
  function Reversed(a: seq<real>): (r: seq<real>)
    ensures |r| == |a|
    ensures forall i :: 0 <= i < |a| ==> r[i] == a[|a| - 1 - i]
  {
    seq(|a|, i requires 0 <= i < |a| => a[|a| - 1 - i])
  }

  /** The keys in descending order, each once: the order of `.iter().rev()`. */
  function Descending(keys: set<real>): (r: seq<real>)
    ensures |r| == |keys|
    ensures StrictlyDescending(r)
    ensures forall i :: 0 <= i < |r| ==> r[i] in keys
    ensures forall k :: k in keys ==> k in r
  {
    ReversedAscending(keys);
    Reversed(Ascending(keys))
  }

  /** Reversing the ascending keys gives every key once, in descending order. */
  lemma ReversedAscending(keys: set<real>)
    ensures var r := Reversed(Ascending(keys));
      && |r| == |keys|
      && StrictlyDescending(r)
      && (forall i :: 0 <= i < |r| ==> r[i] in keys)
      && (forall k :: k in keys ==> k in r)
  {
    var a := Ascending(keys);
    ReversedProps(a);
  }

  /** Reversal turns ascending into descending and keeps the members. */
  lemma ReversedProps(a: seq<real>)
    requires StrictlyAscending(a)
    ensures StrictlyDescending(Reversed(a))
    ensures forall k :: k in a <==> k in Reversed(a)
  {
    var r := Reversed(a);
    forall i, j | 0 <= i < j < |r| ensures r[i] > r[j] {
      assert r[i] == a[|a| - 1 - i] && r[j] == a[|a| - 1 - j];
    }
    forall k | k in a ensures k in r {
      var i :| 0 <= i < |a| && a[i] == k;
      assert r[|a| - 1 - i] == k;
    }
    forall k | k in r ensures k in a {
      var i :| 0 <= i < |r| && r[i] == k;
      assert a[|a| - 1 - i] == k;
    }
  }

  /** In a strictly ascending sequence, order of values is order of positions. */
  lemma AscendingIndexOrder(s: seq<real>, i: int, j: int)
    requires StrictlyAscending(s)
    requires 0 <= i < |s| && 0 <= j < |s|
    ensures s[i] < s[j] <==> i < j
    ensures s[i] == s[j] <==> i == j
  {
  }

  /** A sequence without repetitions has as many distinct elements as positions. */
  lemma {:induction false} DistinctCard(s: seq<real>)
    requires Distinct(s)
    ensures |(set x | x in s)| == |s|
  {
    if s != [] {
      DistinctCard(s[1..]);
      assert (set x | x in s) == {s[0]} + (set x | x in s[1..]);
      assert s[0] !in (set x | x in s[1..]);
    }
  }
}
