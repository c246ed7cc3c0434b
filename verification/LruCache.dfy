/** What a cache that evicts the least recently used key holds, as a list with the most recently
    used key first. */
module LruCache {
  import opened Rings

  function Take<T>(c: seq<T>, n: nat): seq<T> {
    if n <= |c| then c[..n] else c
  }

  /** One lookup: the key comes to the front; a key that was not there may push out the last one. */
  function Looked<K(==, !new)>(n: nat, keys: seq<K>, k: K): seq<K> {
    if k in keys then [k] + Without(keys, k) else Take([k] + keys, n)
  }

  /** The same without a limit. */
  function Seen<K(==, !new)>(keys: seq<K>, k: K): seq<K> {
    [k] + Without(keys, k)
  }

  /** The cache after a run of lookups, the latest one last. */
  function LookedAll<K(==, !new)>(n: nat, run: seq<K>): seq<K> {
    if run == [] then [] else Looked(n, LookedAll(n, run[..|run| - 1]), run[|run| - 1])
  }

  /** All keys of a run by the time they were last looked up, the latest first. */
  function SeenAll<K(==, !new)>(run: seq<K>): seq<K> {
    if run == [] then [] else Seen(SeenAll(run[..|run| - 1]), run[|run| - 1])
  }

  lemma {:induction false} SeenDistinct<K(!new)>(run: seq<K>)
    ensures Distinct(SeenAll(run))
    ensures forall k :: k in SeenAll(run) <==> k in run
  {
    if run != [] {
      var init, k := run[..|run| - 1], run[|run| - 1];
      SeenDistinct(init);
      WithoutDistinct(SeenAll(init), k);
      assert run == init + [k];
    }
  }

  lemma {:induction false} TakeWithout<K(!new)>(c: seq<K>, n: nat, k: K)
    requires Distinct(c) && 1 <= n
    ensures Looked(n, Take(c, n), k) == Take(Seen(c, k), n)
  {
    if i :| 0 <= i < |c| && c[i] == k {
      WithoutAt(c, i);
      if i < n {
        TakeHolding(c, n, i);
      } else {
        assert k !in c[..n];
        assert ([k] + c[..n])[..n] == [k] + c[..n - 1];
        assert ([k] + (c[..i] + c[i + 1..]))[..n] == [k] + c[..n - 1];
      }
    } else {
      WithoutAbsent(c, k);
      TakeNew(c, n, k);
    }
  }

  lemma {:induction false} TakeHolding<K(!new)>(c: seq<K>, n: nat, i: nat)
    requires Distinct(c) && i < n && i < |c|
    ensures Looked(n, Take(c, n), c[i]) == Take([c[i]] + (c[..i] + c[i + 1..]), n)
  {
    var t := Take(c, n);
    assert t[i] == c[i];
    WithoutAt(t, i);
    assert [c[i]] + (t[..i] + t[i + 1..]) == Take([c[i]] + (c[..i] + c[i + 1..]), n);
  }

  lemma {:induction false} TakeNew<K(!new)>(c: seq<K>, n: nat, k: K)
    requires k !in c && 1 <= n
    ensures Looked(n, Take(c, n), k) == Take([k] + c, n)
  {
    assert Take([k] + Take(c, n), n) == Take([k] + c, n);
  }

  /** A cache of n entries holds, in order, the n keys looked up most recently, whatever the run. */
  lemma {:induction false} HoldsMostRecent<K(!new)>(n: nat, run: seq<K>)
    requires 1 <= n
    ensures LookedAll(n, run) == Take(SeenAll(run), n)
  {
    if run != [] {
      var init := run[..|run| - 1];
      HoldsMostRecent(n, init);
      SeenDistinct(init);
      TakeWithout(SeenAll(init), n, run[|run| - 1]);
    }
  }
}
