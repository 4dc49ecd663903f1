/** The in-memory list updates the management pages apply to their state after
    a successful server call: `list.map(x => sameKey ? updated : x)` and
    `list.filter(x => key(x) !== k)`. Each page supplies its own key (`id_sede`,
    `id_empresa`, the court `id`). */
module ListOps {

  /** `s.map(x => key(x) === key(updated) ? updated : x)`: every entry whose key
      matches is replaced by `updated`, every other entry stays where it was. */
  function Replaced<T, K(==)>(s: seq<T>, key: T -> K, updated: T): (r: seq<T>)
    ensures |r| == |s|
    ensures forall i :: 0 <= i < |s| && key(s[i]) == key(updated) ==> r[i] == updated
    ensures forall i :: 0 <= i < |s| && key(s[i]) != key(updated) ==> r[i] == s[i]
  {
    if s == [] then []
    else [if key(s[0]) == key(updated) then updated else s[0]] + Replaced(s[1..], key, updated)
  }

  /** Replacing by a key that no entry carries leaves the list as it was. */
  lemma ReplacedNoMatch<T, K>(s: seq<T>, key: T -> K, updated: T)
    requires forall i :: 0 <= i < |s| ==> key(s[i]) != key(updated)
    ensures Replaced(s, key, updated) == s
  {
  }

  /** Saving the same record twice has the effect of saving it once. */
  lemma ReplacedIdempotent<T, K>(s: seq<T>, key: T -> K, updated: T)
    ensures Replaced(Replaced(s, key, updated), key, updated) == Replaced(s, key, updated)
  {
  }

  /** `s.filter(x => key(x) !== k)`. */
  function Removed<T(==), K(==)>(s: seq<T>, key: T -> K, k: K): (r: seq<T>)
    ensures |r| <= |s|
    ensures forall i :: 0 <= i < |r| ==> key(r[i]) != k
    ensures forall x :: x in r ==> x in s
  {
    if s == [] then []
    else if key(s[0]) == k then Removed(s[1..], key, k)
    else [s[0]] + Removed(s[1..], key, k)
  }

  /** Filtering loses nothing it should keep: every entry whose key differs
      from `k` survives as many times as it occurred. */
  lemma {:induction false} RemovedKeepsOthers<T, K>(s: seq<T>, key: T -> K, k: K, x: T)
    requires key(x) != k
    ensures multiset(Removed(s, key, k))[x] == multiset(s)[x]
  {
    if s != [] {
      RemovedKeepsOthers(s[1..], key, k, x);
      assert s == [s[0]] + s[1..];
    }
  }

  /** Filtering keeps the survivors in their original order: it distributes
      over concatenation. */
  lemma {:induction false} RemovedAppend<T, K>(s: seq<T>, t: seq<T>, key: T -> K, k: K)
    ensures Removed(s + t, key, k) == Removed(s, key, k) + Removed(t, key, k)
  {
    if s == [] {
      assert s + t == t;
    } else {
      assert (s + t)[0] == s[0] && (s + t)[1..] == s[1..] + t;
      RemovedAppend(s[1..], t, key, k);
      var head := if key(s[0]) == k then [] else [s[0]];
      calc {
        Removed(s + t, key, k);
        head + Removed(s[1..] + t, key, k);
        head + (Removed(s[1..], key, k) + Removed(t, key, k));
        (head + Removed(s[1..], key, k)) + Removed(t, key, k);
        Removed(s, key, k) + Removed(t, key, k);
      }
    }
  }

  /** Removing a key that no entry carries leaves the list as it was. */
  lemma {:induction false} RemovedNoMatch<T, K>(s: seq<T>, key: T -> K, k: K)
    requires forall i :: 0 <= i < |s| ==> key(s[i]) != k
    ensures Removed(s, key, k) == s
  {
    if s != [] {
      RemovedNoMatch(s[1..], key, k);
    }
  }

  /** Filtering out the same key twice removes nothing more the second time. */
  lemma RemovedIdempotent<T, K>(s: seq<T>, key: T -> K, k: K)
    ensures Removed(Removed(s, key, k), key, k) == Removed(s, key, k)
  {
    RemovedNoMatch(Removed(s, key, k), key, k);
  }
}
