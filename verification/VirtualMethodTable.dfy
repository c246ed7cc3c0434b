/** The cache in front of the slow lookup of virtual methods: hash chains and a list ordered by
    recency, both kept as rings of links inside flat arrays. */
module VirtualMethodTable {
  import opened Options
  import opened TypeSystem
  import opened Rings
  import opened LruCache

  datatype Key = Key(mdVirtual: MethodIndex, cls: TypeIndex)

  datatype Payload = Payload(key: Key, md: MethodIndex)

  const NO_METHOD := MethodIndex(0, 0)

  /** The rewriting of links that brings an element to the top of a ring does what ToTop says. */
  lemma {:induction false} MovedOk(e: seq<Link>, n: nat, chains: seq<seq<nat>>, b: nat, k: nat)
    requires RingsOk(e, n, chains) && k < n && b < |chains|
    ensures e[k].next < |e| && e[k].prev < |e|
    ensures Unlink(e, k)[n + b].next < |e|
    ensures RingsOk(InsertAfter(Unlink(e, k), n + b, k), n, ToTop(chains, b, k))
  {
    UnlinkOk(e, n, chains, k);
    InsertOk(Unlink(e, k), n, WithoutAll(chains, k), b, k);
    assert WithoutAll(chains, k)[b := [k] + WithoutAll(chains, k)[b]] == ToTop(chains, b, k);
  }

  lemma {:induction false} AlreadyOnTop(e: seq<Link>, n: nat, chains: seq<seq<nat>>, b: nat, k: nat)
    requires RingsOk(e, n, chains) && k < n && b < |chains| && e[n + b].next == k
    ensures ToTop(chains, b, k) == chains
  {
    assert Ring(e, n + b, chains[b]) && Hop(e, n + b, chains[b], 0);
    assert Member(chains, b, 0, k);
    forall b': nat | b' < |chains| ensures ToTop(chains, b, k)[b'] == chains[b'] {
      ChainDistinct(e, n, chains, b');
      if b' == b {
        WithoutAt(chains[b], 0);
      } else {
        forall j: nat | j < |chains[b']| ensures chains[b'][j] != k {
          assert Member(chains, b', j, chains[b'][j]);
        }
        WithoutAbsent(chains[b'], k);
      }
    }
  }

  /** Unlinks element `idx` and inserts it behind the head `slot`. */
  method Relink(entries: array<Link>, slot: nat, idx: nat)
    requires slot < entries.Length && idx < entries.Length && slot != idx
    requires entries[idx].next < entries.Length && entries[idx].prev < entries.Length
    requires Unlink(entries[..], idx)[slot].next < entries.Length
    modifies entries
    ensures entries[..] == InsertAfter(Unlink(old(entries[..]), idx), slot, idx)
  {
    var next, prev := entries[idx].next, entries[idx].prev;
    entries[next] := entries[next].(prev := prev);
    entries[prev] := entries[prev].(next := next);
    next := entries[slot].next;
    entries[idx] := Link(next, slot);
    entries[slot] := entries[slot].(next := idx);
    entries[next] := entries[next].(prev := idx);
  }

  /** Brings element `idx` to the front of the ring with head `slot`, from whichever ring it is in. */
  method MoveEntryToTop(entries: array<Link>, slot: nat, idx: nat, ghost n: nat, ghost chains: seq<seq<nat>>)
    requires RingsOk(entries[..], n, chains) && n <= slot < entries.Length && idx < n
    modifies entries
    ensures RingsOk(entries[..], n, ToTop(chains, slot - n, idx))
  {
    ghost var e := entries[..];
    if entries[slot].next != idx {
      MovedOk(e, n, chains, slot - n, idx);
      Relink(entries, slot, idx);
    } else {
      AlreadyOnTop(e, n, chains, slot - n, idx);
    }
  }

  // ---------------------------------------------------------------- what the table holds

  ghost predicate InChain(chains: seq<seq<nat>>, b: nat, k: nat) {
    b < |chains| && k in chains[b]
  }

  ghost predicate Used(chains: seq<seq<nat>>, k: nat) {
    exists b: nat :: InChain(chains, b, k)
  }

  /** What the table's arrays stand for: the hash chains, all slots by recency, how many of them
      are in use, and their contents. */
  datatype Table = Table(chains: seq<seq<nat>>, mru: seq<nat>, used: nat, payloads: seq<Payload>)

  datatype Config = Config(asm: Assemblies, crc: Key -> nat, n: nat, buckets: nat) {
    function Bucket(key: Key): nat
      requires buckets > 0
    {
      crc(key) % buckets
    }
  }

  ghost predicate SlotOk(c: Config, t: Table, b: nat, k: nat)
    requires c.buckets > 0 && |t.payloads| == c.n
  {
    k < c.n && b == c.Bucket(t.payloads[k].key) && Resolve(c.asm, t.payloads[k].key.cls, t.payloads[k].key.mdVirtual)
        == Some(t.payloads[k].md)
  }

  ghost predicate UsedAt(t: Table, i: nat)
    requires i < |t.mru|
  {
    Used(t.chains, t.mru[i]) <==> i < t.used
  }

  /** Every slot in use is in the one chain its key hashes to and answers as the slow lookup does; no
      two hold the same key; and the slots in use are the first ones by recency. */
  ghost predicate TableOk(c: Config, t: Table) {
    && c.buckets > 0 && 1 <= c.n && |t.payloads| == c.n && |t.chains| == c.buckets
    && |t.mru| == c.n && Distinct<nat>(t.mru) && (forall i | 0 <= i < c.n :: t.mru[i] < c.n)
        && (forall k: nat | k < c.n :: k in t.mru)
    && t.used <= c.n && (forall i: nat | i < c.n :: UsedAt(t, i))
    && (forall b: nat, k: nat | InChain(t.chains, b, k) :: SlotOk(c, t, b, k))
    && (forall j: nat, k: nat | Used(t.chains, j) && Used(t.chains, k) && j < c.n && k < c.n
        && t.payloads[j].key == t.payloads[k].key :: j == k)
  }

  /** The cached keys, the most recently used first. */
  ghost function Keys(t: Table): seq<Key>
    requires t.used <= |t.mru| && forall i | 0 <= i < t.used :: t.mru[i] < |t.payloads|
  {
    seq(t.used, i requires 0 <= i < t.used => t.payloads[t.mru[i]].key)
  }

  function Touch(c: Config, t: Table, b: nat, k: nat): Table
    requires b < |t.chains|
  {
    t.(chains := ToTop(t.chains, b, k), mru := [k] + Without<nat>(t.mru, k))
  }

  lemma {:induction false} TopChains(chains: seq<seq<nat>>, b: nat, k: nat)
    requires b < |chains|
    ensures forall b': nat, x: nat ::
              InChain(ToTop(chains, b, k), b', x) <==> (b' == b && x == k) || (x != k && InChain(chains, b', x))
    ensures forall x: nat :: Used(ToTop(chains, b, k), x) <==> x == k || Used(chains, x)
  {
    var chains' := ToTop(chains, b, k);
    forall b': nat, x: nat
      ensures InChain(chains', b', x) <==> (b' == b && x == k) || (x != k && InChain(chains, b', x))
    {
    }
    forall x: nat ensures Used(chains', x) <==> x == k || Used(chains, x) {
      if x == k { assert InChain(chains', b, x); }
      if b': nat :| x != k && InChain(chains, b', x) { assert InChain(chains', b', x); }
    }
  }

  /** The order after the i-th slot has come to the front. */
  ghost predicate CameFrom(mru: seq<nat>, mru': seq<nat>, i: nat, j: nat) {
    var j0 := if j == 0 then i else if j <= i then j - 1 else j;
    j < |mru'| && j0 < |mru| && mru'[j] == mru[j0]
  }

  lemma {:induction false} TouchedOrder(c: Config, t: Table, i: nat)
    requires TableOk(c, t) && i < c.n
    ensures
      var mru' := [t.mru[i]] + Without<nat>(t.mru, t.mru[i]);
      && |mru'| == c.n && Distinct<nat>(mru') && (forall j | 0 <= j < c.n :: mru'[j] < c.n)
          && (forall k: nat | k < c.n :: k in mru')
      && (forall j: nat | j < c.n :: CameFrom(t.mru, mru', i, j))
  {
    WithoutAt<nat>(t.mru, i);
    WithoutDistinct<nat>(t.mru, t.mru[i]);
  }

  /** A lookup that finds its key in slot k. */
  lemma {:induction false} HitStep(c: Config, t: Table, b: nat, k: nat)
    requires TableOk(c, t) && InChain(t.chains, b, k)
    ensures k < c.n && TableOk(c, Touch(c, t, b, k))
    ensures Keys(Touch(c, t, b, k)) == Looked(c.n, Keys(t), t.payloads[k].key)
  {
    var t' := Touch(c, t, b, k);
    assert SlotOk(c, t, b, k);
    assert k in t.mru;
    var i: nat :| i < c.n && t.mru[i] == k;
    assert Used(t.chains, k) && UsedAt(t, i);
    TouchedOrder(c, t, i);
    TopChains(t.chains, b, k);
    assert t'.mru == [t.mru[i]] + Without<nat>(t.mru, t.mru[i]);
    TouchedUse(c, t, t', i);
    forall b': nat, x: nat | InChain(t'.chains, b', x) ensures SlotOk(c, t', b', x) {
      assert SlotOk(c, t, b', x);
    }
    HitKeys(c, t, i);
  }

  /** The slots in use stay the first ones when one of them comes to the front. */
  lemma {:induction false} TouchedUse(c: Config, t: Table, t': Table, i: nat)
    requires TableOk(c, t) && i < t.used
    requires |t'.mru| == c.n && t'.used == t.used && forall x: nat ::
               Used(t'.chains, x) <==> x == t.mru[i] || Used(t.chains, x)
    requires forall j: nat | j < c.n :: CameFrom(t.mru, t'.mru, i, j)
    ensures forall j: nat | j < c.n :: UsedAt(t', j)
  {
    forall j: nat | j < c.n ensures UsedAt(t', j) {
      var j0: nat := if j == 0 then i else if j <= i then j - 1 else j;
      assert UsedAt(t, i) && UsedAt(t, j0);
      assert CameFrom(t.mru, t'.mru, i, j);
      assert i < j0 ==> t.mru[i] != t.mru[j0];
    }
  }

  lemma {:induction false} KeysDistinct(c: Config, t: Table)
    requires TableOk(c, t)
    ensures Distinct(Keys(t))
  {
    forall i, j | 0 <= i < j < t.used ensures Keys(t)[i] != Keys(t)[j] {
      assert UsedAt(t, i) && UsedAt(t, j);
      assert t.mru[i] != t.mru[j];
    }
  }

  lemma {:induction false} HitKeys(c: Config, t: Table, i: nat)
    requires TableOk(c, t) && i < t.used
    ensures
      var t' := t.(mru := [t.mru[i]] + Without<nat>(t.mru, t.mru[i]));
      && t.used <= |t'.mru| && (forall j | 0 <= j < t.used :: t'.mru[j] < |t'.payloads|)
      && Keys(t') == Looked(c.n, Keys(t), t.payloads[t.mru[i]].key)
  {
    var t' := t.(mru := [t.mru[i]] + Without<nat>(t.mru, t.mru[i]));
    TouchedOrder(c, t, i);
    KeysDistinct(c, t);
    var keys := Keys(t);
    assert keys[i] == t.payloads[t.mru[i]].key;
    WithoutAt(keys, i);
    forall j: nat | j < t.used ensures Keys(t')[j] == ([keys[i]] + (keys[..i] + keys[i + 1..]))[j] {
      assert CameFrom(t.mru, t'.mru, i, j);
    }
    assert Keys(t') == [keys[i]] + (keys[..i] + keys[i + 1..]);
  }

  /** The slot that a new key takes: the least recently used one. */
  function Evicted(c: Config, t: Table, key: Key, md: MethodIndex): Table
    requires c.buckets > 0 && |t.chains| == c.buckets && 1 <= c.n == |t.mru| && t.mru[c.n - 1] < |t.payloads|
  {
    var k := t.mru[c.n - 1];
    Touch(c, t, c.Bucket(key), k).(payloads := t.payloads[k := Payload(key, md)],
        used := if t.used < c.n then t.used + 1 else t.used)
  }

  /** A lookup whose key is in no slot. */
  lemma {:induction false} MissStep(c: Config, t: Table, key: Key, md: MethodIndex)
    requires TableOk(c, t) && Resolve(c.asm, key.cls, key.mdVirtual) == Some(md)
    requires forall k: nat | Used(t.chains, k) && k < c.n :: t.payloads[k].key != key
    ensures TableOk(c, Evicted(c, t, key, md))
    ensures Keys(Evicted(c, t, key, md)) == Looked(c.n, Keys(t), key)
  {
    var t' := Evicted(c, t, key, md);
    var b, k := c.Bucket(key), t.mru[c.n - 1];
    TouchedOrder(c, t, c.n - 1);
    TopChains(t.chains, b, k);
    forall j: nat | j < c.n ensures UsedAt(t', j) {
      var j0: nat := if j == 0 then c.n - 1 else j - 1;
      assert UsedAt(t, j0) && CameFrom(t.mru, t'.mru, c.n - 1, j);
    }
    forall b': nat, x: nat | InChain(t'.chains, b', x) ensures SlotOk(c, t', b', x) {
      if x != k { assert SlotOk(c, t, b', x); }
    }
    MissKeys(c, t, key, md);
  }

  lemma {:induction false} MissKeys(c: Config, t: Table, key: Key, md: MethodIndex)
    requires TableOk(c, t)
    requires forall k: nat | Used(t.chains, k) && k < c.n :: t.payloads[k].key != key
    ensures
      var t' := Evicted(c, t, key, md);
      && t'.used <= |t'.mru| && (forall j | 0 <= j < t'.used :: t'.mru[j] < |t'.payloads|)
      && Keys(t') == Looked(c.n, Keys(t), key)
  {
    var t' := Evicted(c, t, key, md);
    forall j: nat | j < t'.used
      ensures j < |t'.mru| && t'.mru[j] < |t'.payloads|
      ensures t'.payloads[t'.mru[j]].key == if j == 0 then key else t.payloads[t.mru[j - 1]].key
    {
      MissKey(c, t, key, md, j);
    }
    NoSuchKey(c, t, key);
    MissSize(c, t, key, md);
    NewKeyFirst(c.n, Keys(t), key, Keys(t'));
  }

  lemma {:induction false} NoSuchKey(c: Config, t: Table, key: Key)
    requires TableOk(c, t)
    requires forall k: nat | Used(t.chains, k) && k < c.n :: t.payloads[k].key != key
    ensures key !in Keys(t)
  {
    forall j | 0 <= j < t.used ensures Keys(t)[j] != key {
      assert UsedAt(t, j);
    }
  }

  lemma MissSize(c: Config, t: Table, key: Key, md: MethodIndex)
    requires TableOk(c, t)
    ensures
      var t' := Evicted(c, t, key, md);
      t'.used == (if t.used < c.n then t.used + 1 else c.n) && t'.used <= |t'.mru| && t.used <= c.n
  {
    TouchedOrder(c, t, c.n - 1);
  }

  /** A key that was not held comes first, and the last one goes if there are too many. */
  lemma NewKeyFirst(n: nat, keys: seq<Key>, key: Key, keys': seq<Key>)
    requires key !in keys && 1 <= n && |keys| <= n && |keys'| == if |keys| < n then |keys| + 1 else n
    requires forall j | 0 <= j < |keys'| :: keys'[j] == if j == 0 then key else keys[j - 1]
    ensures keys' == Looked(n, keys, key)
  {
    assert keys' == Take([key] + keys, n);
  }

  lemma {:induction false} MissKey(c: Config, t: Table, key: Key, md: MethodIndex, j: nat)
    requires TableOk(c, t) && j < Evicted(c, t, key, md).used
    ensures
      var t' := Evicted(c, t, key, md);
      && j < |t'.mru| && t'.mru[j] < |t'.payloads|
      && t'.payloads[t'.mru[j]].key == if j == 0 then key else t.payloads[t.mru[j - 1]].key
  {
    TouchedOrder(c, t, c.n - 1);
    assert CameFrom(t.mru, Evicted(c, t, key, md).mru, c.n - 1, j);
  }

  // ---------------------------------------------------------------- the start

  lemma {:induction false} EmptyRings(e: seq<Link>, n: nat, buckets: nat)
    requires |e| == n + buckets && forall k: nat | k < |e| :: e[k] == Link(k, k)
    ensures RingsOk(e, n, seq(buckets, _ => []))
  {
    var chains := seq(buckets, _ => []);
    forall b: nat | b < |chains| ensures Ring(e, n + b, chains[b]) {
      assert Hop(e, n + b, chains[b], 0);
    }
  }

  function Upto(n: nat): (r: seq<nat>)
    ensures |r| == n && forall i | 0 <= i < n :: r[i] == i
  {
    seq(n, i => i)
  }

  lemma {:induction false} FullRing(e: seq<Link>, n: nat)
    requires |e| == n + 1 && forall k: nat | k <= n ::
               e[k] == Link(if k == n then 0 else k + 1, if k == 0 then n else k - 1)
    ensures RingsOk(e, n, [Upto(n)])
  {
    var chains := [Upto(n)];
    forall k: nat | k < |e| ensures Mutual(e, k) {
    }
    forall i: nat | i <= n ensures Hop(e, n, Upto(n), i) {
    }
    assert Ring(e, n + 0, chains[0]);
    forall k: nat | k < n ensures Linked(chains, k) {
      assert Member(chains, 0, k, k);
    }
  }

  lemma {:induction false} FreshTable(c: Config, payloads: seq<Payload>)
    requires c.buckets > 0 && 1 <= c.n == |payloads|
    ensures TableOk(c, Table(seq(c.buckets, _ => []), Upto(c.n), 0, payloads))
  {
    var t := Table(seq(c.buckets, _ => []), Upto(c.n), 0, payloads);
    forall k: nat | k < c.n ensures k in t.mru {
      assert t.mru[k] == k;
    }
  }

  /** The last element of a ring stands before its head. */
  lemma {:induction false} LastInRing(e: seq<Link>, n: nat, chains: seq<seq<nat>>, b: nat)
    requires RingsOk(e, n, chains) && b < |chains| && 1 <= |chains[b]|
    ensures e[n + b].prev == chains[b][|chains[b]| - 1]
  {
    var last: nat := |chains[b]| - 1;
    Neighbours(e, n, chains, b, last);
    assert Mutual(e, chains[b][last]);
  }

  class VirtualMethodTable {
    const asm: Assemblies
    const crc: Key -> nat
    const buckets: nat
    const entries: array<Link>
    const entriesMRU: array<Link>
    const payloads: array<Payload>
    ghost var chains: seq<seq<nat>>
    ghost var mru: seq<nat>
    ghost var used: nat

    ghost function Cfg(): Config {
      Config(asm, crc, payloads.Length, buckets)
    }

    ghost function Contents(): Table
      reads this, payloads
    {
      Table(chains, mru, used, payloads[..])
    }

    ghost predicate Valid()
      reads this, entries, entriesMRU, payloads
    {
      && entries != entriesMRU
      && TableOk(Cfg(), Contents())
      && RingsOk(entries[..], payloads.Length, chains)
      && RingsOk(entriesMRU[..], payloads.Length, [mru])
    }

    /** The cached keys, the most recently used first. */
    ghost function Recent(): seq<Key>
      requires Valid()
      reads this, entries, entriesMRU, payloads
    {
      Keys(Contents())
    }

    constructor Initialize(assemblies: Assemblies, hash: Key -> nat, slots: nat, heads: nat)
      requires 1 <= slots && 1 <= heads && slots + 1 < 0xFFFF && slots + heads <= 0x10000
      ensures Valid() && asm == assemblies && crc == hash && payloads.Length == slots && buckets == heads
      ensures fresh(entries) && fresh(entriesMRU) && fresh(payloads)
      ensures Recent() == []
    {
      asm, crc, buckets := assemblies, hash, heads;
      entries := new Link[slots + heads](k => Link(k, k));
      entriesMRU := new Link[slots + 1](k => Link(if k == slots then 0 else k + 1, if k == 0 then slots else k - 1));
      payloads := new Payload[slots](_ => Payload(Key(NO_METHOD, TypeIndex(0, 0)), NO_METHOD));
      chains, mru, used := seq(heads, _ => []), Upto(slots), 0;
      new;
      EmptyRings(entries[..], slots, heads);
      FullRing(entriesMRU[..], slots);
      FreshTable(Cfg(), payloads[..]);
    }

    /** Walks one hash chain; the result is the head when no slot in it holds the key. */
    method Find(head: nat, key: Key) returns (idx: nat)
      requires Valid() && payloads.Length <= head < entries.Length
      ensures idx == head || (InChain(chains, head - payloads.Length, idx) && idx < payloads.Length
                && payloads[idx].key == key)
      ensures idx == head ==>
                forall k: nat | InChain(chains, head - payloads.Length, k) && k < payloads.Length ::
                payloads[k].key != key
    {
      ghost var e, n, b := entries[..], payloads.Length, head - payloads.Length;
      ghost var chain, i := chains[b], 0;
      assert Ring(e, n + b, chain) && Hop(e, head, chain, 0);
      forall j: nat | j < |chain| ensures chain[j] < n {
        assert Member(chains, b, j, chain[j]);
      }
      idx := entries[head].next;
      while idx != head && payloads[idx].key != key
        invariant 0 <= i <= |chain| && idx == Stop(head, chain, i + 1)
        invariant forall j | 0 <= j < i :: chain[j] < n && payloads[chain[j]].key != key
        decreases |chain| - i
      {
        assert Hop(e, head, chain, i + 1);
        idx := entries[idx].next;
        i := i + 1;
      }
    }

    method GetNewEntry() returns (idx: nat)
      requires Valid()
      ensures idx < payloads.Length && idx == mru[payloads.Length - 1]
    {
      LastInRing(entriesMRU[..], payloads.Length, [mru], 0);
      idx := entriesMRU[payloads.Length].prev;
    }

    /** The class asked for declares the method itself. */
    predicate Shortcut(cls: TypeIndex, mdVirtual: MethodIndex) {
      cls.assembly == mdVirtual.assembly && cls == asm.owner(mdVirtual)
    }

    /** Resolves a virtual method for a class, through the cache. */
    method FindVirtualMethod(cls: TypeIndex, mdVirtual: MethodIndex) returns (md: Option<MethodIndex>)
      requires Valid()
      modifies this, entries, entriesMRU, payloads
      ensures Valid()
      ensures !Shortcut(cls, mdVirtual) ==> md == Resolve(asm, cls, mdVirtual)
      ensures Shortcut(cls, mdVirtual) ==> md == Some(mdVirtual)
      ensures if cls.assembly == mdVirtual.assembly && cls == asm.owner(mdVirtual) then md == Some(mdVirtual)
              else Answered(asm, cls, mdVirtual, md)
      ensures Recent() == if Shortcut(cls, mdVirtual) || md.None? then old(Recent())
                          else Looked(payloads.Length, old(Recent()), Key(mdVirtual, cls))
    {
      if Shortcut(cls, mdVirtual) { return Some(mdVirtual); }
      ResolveAnswers(asm, cls, mdVirtual);
      var key := Key(mdVirtual, cls);
      var n := payloads.Length;
      var b := crc(key) % buckets;
      var idx := Find(n + b, key);
      if idx != n + b {
        md := Hit(b, idx);
      } else {
        md := FindVirtualMethodDef(asm, cls, mdVirtual);
        if md.Some? { Miss(b, key, md.value); }
      }
    }

    method Hit(b: nat, idx: nat) returns (md: Option<MethodIndex>)
      requires Valid() && InChain(chains, b, idx) && idx < payloads.Length
      modifies this, entries, entriesMRU
      ensures Valid()
      ensures md == Resolve(asm, payloads[idx].key.cls, payloads[idx].key.mdVirtual)
      ensures Recent() == Looked(payloads.Length, old(Recent()), payloads[idx].key)
    {
      ghost var c, t := Cfg(), Contents();
      assert SlotOk(c, t, b, idx);
      HitStep(c, t, b, idx);
      md := Some(payloads[idx].md);
      ToTops(b, idx);
    }

    /** Brings the slot to the top of its hash chain and of the recency list. */
    method ToTops(b: nat, idx: nat)
      requires entries != entriesMRU && idx < payloads.Length && b < |chains|
      requires RingsOk(entries[..], payloads.Length, chains) && RingsOk(entriesMRU[..], payloads.Length, [mru])
      modifies this`chains, this`mru, entries, entriesMRU
      ensures RingsOk(entries[..], payloads.Length, chains) && RingsOk(entriesMRU[..], payloads.Length, [mru])
      ensures chains == ToTop(old(chains), b, idx) && mru == [idx] + Without<nat>(old(mru), idx)
    {
      var n := payloads.Length;
      MoveEntryToTop(entries, n + b, idx, n, chains);
      MoveEntryToTop(entriesMRU, n, idx, n, [mru]);
      assert ToTop([mru], 0, idx) == [[idx] + Without<nat>(mru, idx)];
      chains, mru := ToTop(chains, b, idx), [idx] + Without<nat>(mru, idx);
    }

    method Miss(b: nat, key: Key, md: MethodIndex)
      requires Valid() && b == Cfg().Bucket(key) && Resolve(asm, key.cls, key.mdVirtual) == Some(md)
      requires forall k: nat | InChain(chains, b, k) && k < payloads.Length :: payloads[k].key != key
      modifies this, entries, entriesMRU, payloads
      ensures Valid()
      ensures Recent() == Looked(payloads.Length, old(Recent()), key)
    {
      ghost var c, t := Cfg(), Contents();
      Missed(c, t, b, key, md);
      var idx := GetNewEntry();
      Occupy(b, idx, Payload(key, md));
      assert Contents() == Evicted(c, t, key, md);
    }

    /** Gives the slot new contents and brings it to the top. */
    method Occupy(b: nat, idx: nat, payload: Payload)
      requires entries != entriesMRU && idx < payloads.Length && b < |chains|
      requires RingsOk(entries[..], payloads.Length, chains) && RingsOk(entriesMRU[..], payloads.Length, [mru])
      modifies this, entries, entriesMRU, payloads
      ensures RingsOk(entries[..], payloads.Length, chains) && RingsOk(entriesMRU[..], payloads.Length, [mru])
      ensures chains == ToTop(old(chains), b, idx) && mru == [idx] + Without<nat>(old(mru), idx)
      ensures payloads[..] == old(payloads[..])[idx := payload]
      ensures used == if old(used) < payloads.Length then old(used) + 1 else old(used)
    {
      payloads[idx] := payload;
      ToTops(b, idx);
      used := if used < payloads.Length then used + 1 else used;
    }
  }

  lemma {:induction false} Missed(c: Config, t: Table, b: nat, key: Key, md: MethodIndex)
    requires TableOk(c, t) && b == c.Bucket(key) && Resolve(c.asm, key.cls, key.mdVirtual) == Some(md)
    requires forall k: nat | InChain(t.chains, b, k) && k < c.n :: t.payloads[k].key != key
    ensures TableOk(c, Evicted(c, t, key, md))
    ensures Keys(Evicted(c, t, key, md)) == Looked(c.n, Keys(t), key)
  {
    NotHeld(c, t, b, key);
    MissStep(c, t, key, md);
  }

  /** A key that is not in the chain it hashes to is in no slot. */
  lemma {:induction false} NotHeld(c: Config, t: Table, b: nat, key: Key)
    requires TableOk(c, t) && b == c.Bucket(key)
    requires forall k: nat | InChain(t.chains, b, k) && k < c.n :: t.payloads[k].key != key
    ensures forall k: nat | Used(t.chains, k) && k < c.n :: t.payloads[k].key != key
  {
    forall k: nat | Used(t.chains, k) && k < c.n ensures t.payloads[k].key != key {
      var b': nat :| InChain(t.chains, b', k);
      assert SlotOk(c, t, b', k);
    }
  }

  /** Where the owner shortcut is taken it agrees with the slow lookup exactly when no earlier,
      concrete method of the class has the same signature and the name that is tried first. */
  lemma {:induction false} ShortcutAgrees(vmt: VirtualMethodTable, cls: TypeIndex, mdVirtual: MethodIndex, i: nat)
    requires vmt.Shortcut(cls, mdVirtual) && Listed(vmt.asm, mdVirtual, i)
    ensures Resolve(vmt.asm, cls, mdVirtual) == Some(mdVirtual) <==>
            forall j | 0 <= j < i ::
                !Homonym(vmt.asm.typeDef(cls).methods[j], vmt.asm.definition(mdVirtual).value,
                FirstName(vmt.asm, mdVirtual))
  {
    OwnMethod(vmt.asm, mdVirtual, i);
  }

  /** On malformed metadata the shortcut is taken and its answer is not that of the slow lookup. */
  lemma ShortcutDiffers(vmt: VirtualMethodTable)
    requires vmt.asm == Twins()
    ensures vmt.Shortcut(TWINS_TYPE, SECOND_TWIN.index) && Listed(vmt.asm, SECOND_TWIN.index, 1)
    ensures Resolve(vmt.asm, TWINS_TYPE, SECOND_TWIN.index) == Some(FIRST_TWIN.index) != Some(SECOND_TWIN.index)
  {
    TwinsDiffer();
  }
}
