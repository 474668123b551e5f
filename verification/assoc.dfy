/**
 * PHP associative arrays with string keys, as the `data` and `where`
 * arguments of Database.php use them: an ordered sequence of
 * (key, value) entries. A PHP array never holds one key twice; that is
 * the predicate `Distinct`.
 */
module Assoc {
  import opened Wrappers

  type Assoc<V> = seq<(string, V)>

  /** `array_keys($a)`: the keys in array order. */
  function Keys<V>(a: Assoc<V>): (ks: seq<string>)
    ensures |ks| == |a|
  {
    if a == [] then [] else [a[0].0] + Keys(a[1..])
  }

  lemma {:induction false} KeyAt<V>(a: Assoc<V>, i: nat)
    requires i < |a|
    ensures Keys(a)[i] == a[i].0
  {
    if i > 0 {
      KeyAt(a[1..], i - 1);
    }
  }

  function KeySet<V>(a: Assoc<V>): set<string>
  {
    if a == [] then {} else {a[0].0} + KeySet(a[1..])
  }

  ghost predicate Distinct<V>(a: Assoc<V>)
  {
    a != [] ==> a[0].0 !in KeySet(a[1..]) && Distinct(a[1..])
  }

  /** `$a[$k]`, or None when `$k` is not a key of `$a`. */
  function Lookup<V>(a: Assoc<V>, k: string): (r: Option<V>)
    ensures r.None? <==> k !in KeySet(a)
  {
    if a == [] then None
    else if a[0].0 == k then Some(a[0].1)
    else Lookup(a[1..], k)
  }

  /**
   * `$a[$k] = $v`: an existing key keeps its position and takes the new
   * value; a new key is appended.
   */
  function Put<V>(a: Assoc<V>, k: string, v: V): (r: Assoc<V>)
    ensures KeySet(r) == KeySet(a) + {k}
    ensures Lookup(r, k) == Some(v)
    ensures k in KeySet(a) ==> Keys(r) == Keys(a)
    ensures k !in KeySet(a) ==> Keys(r) == Keys(a) + [k]
    ensures Distinct(a) ==> Distinct(r)
  {
    if a == [] then [(k, v)]
    else if a[0].0 == k then [(k, v)] + a[1..]
    else [a[0]] + Put(a[1..], k, v)
  }

  /** `$a[$k] = $v` leaves the other keys' values as they were. */
  lemma {:induction false} PutOthers<V>(a: Assoc<V>, k: string, v: V, k': string)
    requires k' != k
    ensures Lookup(Put(a, k, v), k') == Lookup(a, k')
  {
    if a != [] && a[0].0 != k {
      PutOthers(a[1..], k, v, k');
    }
  }

  /**
   * `array_merge($a, $b)` for string keys: the entries of `$b` are put
   * into `$a` one after the other, so a key of both ends with the value
   * from `$b` at the position it had in `$a`.
   */
  function ArrayMerge<V>(a: Assoc<V>, b: Assoc<V>): (r: Assoc<V>)
    ensures KeySet(r) == KeySet(a) + KeySet(b)
    ensures Distinct(a) ==> Distinct(r)
    decreases |b|
  {
    if b == [] then a
    else ArrayMerge(Put(a, b[0].0, b[0].1), b[1..])
  }

  /** The keys of `ks`, in order, that are not in `seen`. */
  function Unseen(ks: seq<string>, seen: set<string>): seq<string>
  {
    if ks == [] then []
    else if ks[0] in seen then Unseen(ks[1..], seen)
    else [ks[0]] + Unseen(ks[1..], seen)
  }

  lemma {:induction false} KeysMembers<V>(a: Assoc<V>, k: string)
    ensures k in Keys(a) <==> k in KeySet(a)
  {
    if a != [] {
      KeysMembers(a[1..], k);
      assert Keys(a) == [a[0].0] + Keys(a[1..]);
    }
  }

  lemma {:induction false} UnseenIgnores(ks: seq<string>, seen: set<string>, k: string)
    requires k !in ks
    ensures Unseen(ks, seen + {k}) == Unseen(ks, seen)
  {
    if ks != [] {
      UnseenIgnores(ks[1..], seen, k);
    }
  }

  /**
   * A value looked up in `array_merge($a, $b)` comes from `$b` when `$b`
   * has the key, and from `$a` otherwise.
   */
  lemma {:induction false} ArrayMergeLookup<V>(a: Assoc<V>, b: Assoc<V>, k: string)
    requires Distinct(b)
    ensures Lookup(ArrayMerge(a, b), k) == if k in KeySet(b) then Lookup(b, k) else Lookup(a, k)
    decreases |b|
  {
    if b != [] {
      ArrayMergeLookup(Put(a, b[0].0, b[0].1), b[1..], k);
      if k != b[0].0 {
        PutOthers(a, b[0].0, b[0].1, k);
      }
    }
  }

  /**
   * The order of `array_merge($a, $b)`: the keys of `$a` in their order,
   * then the keys of `$b` that `$a` lacks, in their order in `$b`.
   */
  lemma {:induction false} ArrayMergeOrder<V>(a: Assoc<V>, b: Assoc<V>)
    requires Distinct(b)
    ensures Keys(ArrayMerge(a, b)) == Keys(a) + Unseen(Keys(b), KeySet(a))
    decreases |b|
  {
    if b == [] {
      assert Keys(a) + [] == Keys(a);
    } else {
      var k, rest := b[0].0, b[1..];
      var a' := Put(a, k, b[0].1);
      ArrayMergeOrder(a', rest);
      var tail := Unseen(Keys(rest), KeySet(a));
      assert Keys(b) == [k] + Keys(rest);
      assert [k] + Keys(rest) != [] && ([k] + Keys(rest))[1..] == Keys(rest);
      KeysMembers(rest, k);
      UnseenIgnores(Keys(rest), KeySet(a), k);
      if k in KeySet(a) {
        calc {
          Keys(ArrayMerge(a, b));
          Keys(a') + Unseen(Keys(rest), KeySet(a'));
          { assert KeySet(a') == KeySet(a); }
          Keys(a) + tail;
          Keys(a) + Unseen([k] + Keys(rest), KeySet(a));
        }
      } else {
        assert KeySet(a') == KeySet(a) + {k};
        assert Unseen(Keys(rest), KeySet(a')) == tail;
        assert Unseen([k] + Keys(rest), KeySet(a)) == [k] + tail;
        assert (Keys(a) + [k]) + tail == Keys(a) + ([k] + tail);
      }
    }
  }
}
