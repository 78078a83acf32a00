/** The chained hash table that holds the streams of a connection (Polygon/lib/ngtcp2_map.c). */
module HashTable {
  import opened Basics
  import opened Numbers

  datatype Entry<V> = Entry(key: nat, value: V)

  const INITIAL_TABLE_LENGTH: nat := 256

  /** One step of FNV-1a: exclusive or, then times the prime. */
  function Mix(h: bv32, b: byte): bv32 {
    (h ^ (b as bv32)) * 0x01000193
  }

  /** The steps for all bytes, from the first on. */
  function Chain(step: (bv32, byte) -> bv32, bytes: seq<byte>, h: bv32): bv32 {
    if bytes == [] then h else Chain(step, bytes[1..], step(h, bytes[0]))
  }

  /** The `n` low bytes of a key, most significant first. */
  function KeyBytes(key: nat, n: nat): seq<byte> {
    if n == 0 then [] else KeyBytes(key / 256, n - 1) + [(key % 256) as byte]
  }

  const KEY_LENGTH: nat := 8

  /** Bitwise conjunction. */
  function And(a: nat, b: nat): (r: nat)
    ensures r <= b
  {
    if a == 0 || b == 0 then 0 else 2 * And(a / 2, b / 2) + (a % 2) * (b % 2)
  }

  /** The bucket of a key: the hash value masked with the table length less one. */
  function Hash(key: nat, mod: nat): (r: nat)
    requires mod > 0
    ensures r < mod
  {
    And(Chain(Mix, KeyBytes(key, KEY_LENGTH), 0x811C9DC5) as nat, mod - 1)
  }

  /** The same, from the last byte back. */
  function ChainBack(step: (bv32, byte) -> bv32, bytes: seq<byte>, h: bv32): bv32 {
    if bytes == [] then h else step(ChainBack(step, bytes[..|bytes| - 1], h), bytes[|bytes| - 1])
  }

  lemma {:induction false} ChainLast(step: (bv32, byte) -> bv32, bytes: seq<byte>, b: byte, h: bv32)
    ensures Chain(step, bytes + [b], h) == step(Chain(step, bytes, h), b)
    decreases |bytes|
  {
    if bytes == [] {
      assert bytes + [b] == [b] && [b][1..] == [];
    } else {
      ChainLast(step, bytes[1..], b, step(h, bytes[0]));
      assert (bytes + [b])[1..] == bytes[1..] + [b];
    }
  }

  lemma {:induction false} ChainIs(step: (bv32, byte) -> bv32, bytes: seq<byte>, h: bv32)
    ensures Chain(step, bytes, h) == ChainBack(step, bytes, h)
    decreases |bytes|
  {
    if bytes != [] {
      var n := |bytes| - 1;
      ChainIs(step, bytes[..n], h);
      ChainLast(step, bytes[..n], bytes[n], h);
      assert bytes[..n] + [bytes[n]] == bytes;
    }
  }

  lemma MixExact(h: bv32, b: byte)
    ensures Mix(h, b) == (h ^ (b as bv32)) * 16777619
  {
  }

  /** The bytes of a key are its digits in base 256. */
  lemma {:induction false} KeyBytesAre(key: nat, n: nat)
    requires key < Pow256(n)
    ensures KeyBytes(key, n) == PutUint(key, n)
  {
    if n > 0 {
      PutUintLast(key, n);
      KeyBytesAre(key / 256, n - 1);
    }
  }

  /** The low byte stands last. */
  lemma {:induction false} PutUintLast(key: nat, n: nat)
    requires n > 0 && key < Pow256(n)
    ensures key / 256 < Pow256(n - 1) && PutUint(key, n) == PutUint(key / 256, n - 1) + [(key % 256) as byte]
  {
    var s, b := PutUint(key / 256, n - 1), (key % 256) as byte;
    UintRoundTrip(key / 256, n - 1);
    BigEndian(s, b);
    UintUnique(s + [b]);
  }

  /** The bucket is the FNV-1a hash of the eight bytes of the key, most significant first, masked. */
  lemma HashExact(key: nat, mod: nat)
    requires key < Pow256(8) && mod > 0
    ensures Hash(key, mod) == And(ChainBack(Mix, PutUint(key, 8), 2166136261) as nat, mod - 1)
  {
    KeyBytesAre(key, 8);
    ChainIs(Mix, PutUint(key, 8), 2166136261);
  }

  predicate PowerOfTwo(n: nat) {
    n == 1 || (n > 1 && n % 2 == 0 && PowerOfTwo(n / 2))
  }

  /** For a table length that is a power of two, masking is the remainder, so every bucket is used. */
  lemma {:induction false} MaskIsRemainder(h: nat, n: nat)
    requires PowerOfTwo(n)
    ensures And(h, n - 1) == h % n
    decreases n
  {
    if n > 1 {
      var m := n / 2;
      MaskIsRemainder(h / 2, m);
      AndOdd(h, m);
      HalfRemainder(h, m);
    }
  }

  lemma AndOdd(h: nat, m: nat)
    requires m > 0
    ensures And(h, 2 * m - 1) == 2 * And(h / 2, m - 1) + h % 2
  {
    assert (2 * m - 1) / 2 == m - 1 && (2 * m - 1) % 2 == 1;
  }

  lemma HalfRemainder(h: nat, m: nat)
    requires m > 0
    ensures h % (2 * m) == 2 * (h / 2 % m) + h % 2
  {
    var q, r := h / 2 / m, h / 2 % m;
    assert h / 2 == q * m + r && h == 2 * (h / 2) + h % 2;
    assert q * (2 * m) == 2 * (q * m);
    DivUnique(q, 2 * r + h % 2, 2 * m);
  }

  lemma Doubled(n: nat)
    requires PowerOfTwo(n)
    ensures PowerOfTwo(2 * n)
  {
    assert 2 * n / 2 == n;
  }

  function Find<V>(chain: seq<Entry<V>>, key: nat): Option<V> {
    if chain == [] then None
    else if chain[0].key == key then Some(chain[0].value)
    else Find(chain[1..], key)
  }

  /** What a table of chains holds for a key. */
  function Lookup<V>(table: seq<seq<Entry<V>>>, key: nat): Option<V>
    requires |table| > 0
  {
    Find(table[Hash(key, |table|)], key)
  }

  ghost predicate Distinct<V>(es: seq<Entry<V>>) {
    forall i, j :: 0 <= i < j < |es| ==> es[i].key != es[j].key
  }

  /** Every entry sits in the bucket of its key, and no key is stored twice. */
  ghost predicate WellFormed<V>(table: seq<seq<Entry<V>>>) {
    |table| > 0 && forall b :: 0 <= b < |table| ==> Bucket(table[b], b, |table|)
  }

  ghost predicate Bucket<V>(chain: seq<Entry<V>>, b: nat, len: nat)
    requires len > 0
  {
    Distinct(chain) && forall i :: 0 <= i < |chain| ==> Hash(chain[i].key, len) == b
  }

  lemma {:induction false} FindSpec<V>(es: seq<Entry<V>>, key: nat)
    ensures Find(es, key).None? <==> forall i :: 0 <= i < |es| ==> es[i].key != key
    ensures Find(es, key).Some? ==> Entry(key, Find(es, key).value) in es
  {
    if es != [] && es[0].key != key {
      FindSpec(es[1..], key);
      assert forall i :: 0 < i < |es| ==> es[i] == es[1..][i - 1];
    }
  }

  lemma {:induction false} FindConcat<V>(a: seq<Entry<V>>, b: seq<Entry<V>>, key: nat)
    ensures Find(a + b, key) == if Find(a, key).Some? then Find(a, key) else Find(b, key)
  {
    if a == [] {
      assert a + b == b;
    } else {
      FindConcat(a[1..], b, key);
      assert (a + b)[1..] == a[1..] + b;
    }
  }

  /** Adding an entry at the head of its chain. */
  function Put<V>(table: seq<seq<Entry<V>>>, e: Entry<V>): seq<seq<Entry<V>>>
    requires |table| > 0
  {
    var h := Hash(e.key, |table|);
    table[h := [e] + table[h]]
  }

  lemma PutLookup<V>(table: seq<seq<Entry<V>>>, e: Entry<V>, k: nat)
    requires WellFormed(table) && Lookup(table, e.key).None?
    ensures WellFormed(Put(table, e))
    ensures Lookup(Put(table, e), k) == if k == e.key then Some(e.value) else Lookup(table, k)
  {
    var h := Hash(e.key, |table|);
    var t := Put(table, e);
    FindSpec(table[h], e.key);
    assert Bucket(table[h], h, |table|);
    assert Bucket(t[h], h, |t|) by {
      assert forall i :: 0 < i < |t[h]| ==> t[h][i] == table[h][i - 1];
    }
    assert t[h][1..] == table[h];
  }

  /** Taking an entry out of its chain. */
  function Drop<V>(table: seq<seq<Entry<V>>>, h: nat, i: nat): seq<seq<Entry<V>>>
    requires h < |table| && i < |table[h]|
  {
    table[h := table[h][..i] + table[h][i + 1..]]
  }

  lemma DropLookup<V>(table: seq<seq<Entry<V>>>, h: nat, i: nat, k: nat)
    requires WellFormed(table) && h < |table| && i < |table[h]|
    ensures WellFormed(Drop(table, h, i))
    ensures Lookup(Drop(table, h, i), k) == if k == table[h][i].key then None else Lookup(table, k)
  {
    var chain, t := table[h], Drop(table, h, i);
    var a, e, c := chain[..i], chain[i], chain[i + 1..];
    assert Bucket(chain, h, |table|);
    assert chain == a + ([e] + c);
    assert Bucket(t[h], h, |t|);
    if Hash(k, |table|) == h {
      UnlinkFind(a, e, c, k);
    }
  }

  /** Without one entry, a chain finds everything but that entry's key. */
  lemma UnlinkFind<V>(a: seq<Entry<V>>, e: Entry<V>, c: seq<Entry<V>>, k: nat)
    requires Distinct(a + ([e] + c))
    ensures Find(a + c, k) == if k == e.key then None else Find(a + ([e] + c), k)
  {
    FindConcat(a, [e] + c, k);
    FindConcat(a, c, k);
    assert ([e] + c)[1..] == c;
    if k == e.key {
      FindSpec(a, k);
      FindSpec(c, k);
      assert (a + ([e] + c))[|a|] == e;
      assert forall i :: 0 <= i < |a| ==> (a + ([e] + c))[i] == a[i];
      assert forall i :: 0 <= i < |c| ==> (a + ([e] + c))[|a| + 1 + i] == c[i];
    }
  }

  // ---------- growing ----------

  /** The entries of the first `n` buckets, in order. */
  ghost function Flatten<V>(table: seq<seq<Entry<V>>>, n: nat): seq<Entry<V>>
    requires n <= |table|
  {
    if n == 0 then [] else Flatten(table, n - 1) + table[n - 1]
  }

  lemma {:induction false} FlattenHash<V>(table: seq<seq<Entry<V>>>, n: nat)
    requires WellFormed(table) && n <= |table|
    ensures forall i :: 0 <= i < |Flatten(table, n)| ==> Hash(Flatten(table, n)[i].key, |table|) < n
    ensures Distinct(Flatten(table, n))
  {
    if n > 0 {
      FlattenHash(table, n - 1);
      var a, b := Flatten(table, n - 1), table[n - 1];
      assert Bucket(b, n - 1, |table|);
      DistinctConcat(a, b, n - 1, |table|);
    }
  }

  lemma DistinctConcat<V>(a: seq<Entry<V>>, b: seq<Entry<V>>, n: nat, len: nat)
    requires len > 0 && Distinct(a) && Bucket(b, n, len)
    requires forall i :: 0 <= i < |a| ==> Hash(a[i].key, len) < n
    ensures Distinct(a + b)
    ensures forall i :: 0 <= i < |a + b| ==> Hash((a + b)[i].key, len) < n + 1
  {
  }

  /** Reading all buckets one after the other finds what the hash table finds. */
  lemma {:induction false} FlattenFind<V>(table: seq<seq<Entry<V>>>, n: nat, k: nat)
    requires WellFormed(table) && n <= |table|
    ensures Find(Flatten(table, n), k) == if Hash(k, |table|) < n then Lookup(table, k) else None
  {
    if n > 0 {
      FlattenFind(table, n - 1, k);
      FlattenStep(table, n, k);
    }
  }

  lemma FlattenStep<V>(table: seq<seq<Entry<V>>>, n: nat, k: nat)
    requires WellFormed(table) && 0 < n <= |table|
    ensures var first := Find(Flatten(table, n - 1), k);
            Find(Flatten(table, n), k) ==
            if first.Some? then first else if Hash(k, |table|) == n - 1 then Lookup(table, k) else None
  {
    FindConcat(Flatten(table, n - 1), table[n - 1], k);
    BucketMiss(table[n - 1], n - 1, |table|, k);
  }

  /** A bucket holds nothing for the keys of another. */
  lemma BucketMiss<V>(chain: seq<Entry<V>>, b: nat, len: nat, k: nat)
    requires len > 0 && Bucket(chain, b, len)
    ensures Hash(k, len) != b ==> Find(chain, k).None?
  {
    FindSpec(chain, k);
  }

  /** Links an entry into its chain unless its key is there already. */
  method InsertInto<V>(table: array<seq<Entry<V>>>, e: Entry<V>) returns (ok: bool)
    requires table.Length > 0
    modifies table
    ensures ok <==> Lookup(old(table[..]), e.key).None?
    ensures table[..] == if ok then Put(old(table[..]), e) else old(table[..])
  {
    var h := Hash(e.key, table.Length);
    FindSpec(table[h], e.key);
    var i := IndexOf(table[h], e.key);
    if i < |table[h]| {
      return false;
    }
    table[h] := [e] + table[h];
    return true;
  }

  /** Moves the entries of one chain into a new table. */
  method MoveChain<V>(chain: seq<Entry<V>>, table: array<seq<Entry<V>>>, ghost done: seq<Entry<V>>)
    requires WellFormed(table[..]) && Distinct(done + chain)
    requires forall k: nat :: Lookup(table[..], k) == Find(done, k)
    modifies table
    ensures WellFormed(table[..])
    ensures forall k: nat :: Lookup(table[..], k) == Find(done + chain, k)
  {
    var i := 0;
    assert done + chain[..0] == done;
    while i < |chain|
      invariant 0 <= i <= |chain| && WellFormed(table[..])
      invariant forall k: nat :: Lookup(table[..], k) == Find(done + chain[..i], k)
    {
      ghost var t := table[..];
      MovedNext(done, chain, i);
      var ok := InsertInto(table, chain[i]);
      MovedOne(t, done + chain[..i], chain[i]);
      assert done + chain[..i + 1] == done + chain[..i] + [chain[i]];
      i := i + 1;
    }
    assert chain[..i] == chain;
  }

  lemma MovedOne<V>(t: seq<seq<Entry<V>>>, moved: seq<Entry<V>>, e: Entry<V>)
    requires WellFormed(t) && Lookup(t, e.key).None?
    requires forall k: nat :: Lookup(t, k) == Find(moved, k)
    ensures WellFormed(Put(t, e)) && forall k: nat :: Lookup(Put(t, e), k) == Find(moved + [e], k)
  {
    forall k: nat ensures Lookup(Put(t, e), k) == Find(moved + [e], k) {
      PutLookup(t, e, k);
      FindConcat(moved, [e], k);
    }
    PutLookup(t, e, 0);
  }

  /** A key that is still to be moved has not been moved. */
  lemma MovedNext<V>(done: seq<Entry<V>>, chain: seq<Entry<V>>, i: nat)
    requires Distinct(done + chain) && i < |chain|
    ensures Find(done + chain[..i], chain[i].key).None?
  {
    var moved, all := done + chain[..i], done + chain;
    FindSpec(moved, chain[i].key);
    assert all[|done| + i] == chain[i];
    assert forall j :: 0 <= j < |moved| ==> moved[j] == all[j];
  }

  /** The table holds exactly the map. */
  ghost predicate Represents<V>(table: seq<seq<Entry<V>>>, contents: map<nat, V>)
    requires |table| > 0
  {
    forall k: nat :: Lookup(table, k) == if k in contents then Some(contents[k]) else None
  }

  lemma PutRepresents<V>(table: seq<seq<Entry<V>>>, e: Entry<V>, contents: map<nat, V>)
    requires WellFormed(table) && Represents(table, contents) && Lookup(table, e.key).None?
    ensures WellFormed(Put(table, e)) && Represents(Put(table, e), contents[e.key := e.value])
  {
    forall k: nat
      ensures Lookup(Put(table, e), k) == if k == e.key then Some(e.value) else Lookup(table, k)
    {
      PutLookup(table, e, k);
    }
    PutLookup(table, e, 0);
  }

  lemma DropRepresents<V>(table: seq<seq<Entry<V>>>, h: nat, i: nat, contents: map<nat, V>)
    requires WellFormed(table) && Represents(table, contents) && h < |table| && i < |table[h]|
    ensures WellFormed(Drop(table, h, i)) && Represents(Drop(table, h, i), contents - {table[h][i].key})
  {
    forall k: nat
      ensures Lookup(Drop(table, h, i), k) == if k == table[h][i].key then None else Lookup(table, k)
    {
      DropLookup(table, h, i, k);
    }
    DropLookup(table, h, i, 0);
  }

  lemma RehashRepresents<V>(table: seq<seq<Entry<V>>>, t: seq<seq<Entry<V>>>, contents: map<nat, V>)
    requires WellFormed(table) && Represents(table, contents) && |t| > 0
    requires forall k: nat :: Lookup(t, k) == Find(Flatten(table, |table|), k)
    ensures Represents(t, contents)
  {
    forall k: nat
      ensures Lookup(t, k) == Lookup(table, k)
    {
      FlattenFind(table, |table|, k);
    }
  }

  lemma FlattenNext<V>(table: seq<seq<Entry<V>>>, i: nat)
    requires WellFormed(table) && i < |table|
    ensures Flatten(table, i + 1) == Flatten(table, i) + table[i] && Distinct(Flatten(table, i) + table[i])
  {
    FlattenHash(table, i + 1);
  }

  /** Moves the entries of every chain into a new table. */
  method MoveAll<V>(table: array<seq<Entry<V>>>, t: array<seq<Entry<V>>>)
    requires table != t && WellFormed(table[..]) && WellFormed(t[..])
    requires forall k: nat :: Lookup(t[..], k).None?
    modifies t
    ensures WellFormed(t[..])
    ensures forall k: nat :: Lookup(t[..], k) == Find(Flatten(table[..], table.Length), k)
  {
    ghost var src, done := table[..], [];
    var i: nat := 0;
    while i < table.Length
      invariant 0 <= i <= table.Length && src == table[..] && WellFormed(t[..])
      invariant done == Flatten(src, i) && forall k: nat :: Lookup(t[..], k) == Find(done, k)
    {
      FlattenNext(src, i);
      MoveChain(table[i], t, done);
      done := done + src[i];
      i := i + 1;
    }
  }

  method EmptyTable<V>(n: nat) returns (t: array<seq<Entry<V>>>)
    requires n > 0
    ensures fresh(t) && t.Length == n && WellFormed(t[..])
    ensures forall k: nat :: Lookup(t[..], k).None?
  {
    t := new seq<Entry<V>>[n](_ => []);
  }

  /** A table of twice the length with the same contents. */
  method Rehashed<V>(table: array<seq<Entry<V>>>, ghost contents: map<nat, V>) returns (t: array<seq<Entry<V>>>)
    requires WellFormed(table[..]) && Represents(table[..], contents) && PowerOfTwo(table.Length)
    ensures fresh(t) && t.Length == 2 * table.Length && PowerOfTwo(t.Length)
    ensures WellFormed(t[..]) && Represents(t[..], contents)
  {
    Doubled(table.Length);
    t := EmptyTable(2 * table.Length);
    MoveAll(table, t);
    RehashRepresents(table[..], t[..], contents);
  }

  class Map<V> {
    var table: array<seq<Entry<V>>>
    var size: nat
    ghost var contents: map<nat, V>

    ghost predicate Valid()
      reads this, table
    {
      && WellFormed(table[..]) && Represents(table[..], contents)
      && size == |contents| && size * 4 <= table.Length * 3
      && table.Length >= INITIAL_TABLE_LENGTH && PowerOfTwo(table.Length)
    }

    constructor ()
      ensures Valid() && fresh(table) && contents == map[]
    {
      table := new seq<Entry<V>>[INITIAL_TABLE_LENGTH](_ => []);
      size, contents := 0, map[];
    }

    /** Rehashes everything into a table of twice the length. */
    method Grow()
      requires Valid()
      modifies this`table
      ensures Valid() && fresh(table) && table.Length == 2 * old(table.Length)
    {
      table := Rehashed(table, contents);
    }

    /** Makes room for one more entry at a load of at most three quarters. */
    method EnsureRoom()
      requires Valid()
      modifies this`table
      ensures Valid() && (table == old(table) || fresh(table))
      ensures (size + 1) * 4 <= table.Length * 3
    {
      if (size + 1) * 4 > table.Length * 3 {
        Grow();
      }
    }

    /** Stores an entry under a new key; an existing key is refused. */
    method Insert(key: nat, value: V) returns (ok: bool)
      requires Valid()
      modifies this, table
      ensures Valid() && (table == old(table) || fresh(table))
      ensures ok <==> key !in old(contents)
      ensures contents == if ok then old(contents)[key := value] else old(contents)
    {
      EnsureRoom();
      ok := Add(key, value);
    }

    method Add(key: nat, value: V) returns (ok: bool)
      requires Valid() && (size + 1) * 4 <= table.Length * 3
      modifies this`size, this`contents, table
      ensures Valid()
      ensures ok <==> key !in old(contents)
      ensures contents == if ok then old(contents)[key := value] else old(contents)
    {
      ghost var more := if key in contents then contents else contents[key := value];
      InsertSize(contents, key, value);
      ok := InsertNew(table, Entry(key, value), contents, more);
      ghost var t := table[..];
      size, contents := if ok then size + 1 else size, more;
      assert table[..] == t;
    }

    method Get(key: nat) returns (r: Option<V>)
      requires Valid()
      ensures r == if key in contents then Some(contents[key]) else None
    {
      var h := Hash(key, table.Length);
      var i := 0;
      while i < |table[h]|
        invariant 0 <= i <= |table[h]| && Find(table[h][i..], key) == Find(table[h], key)
      {
        if table[h][i].key == key {
          return Some(table[h][i].value);
        }
        assert table[h][i..][1..] == table[h][i + 1..];
        i := i + 1;
      }
      return None;
    }

    /** Takes the entry of a key out; fails when there is none. */
    method Remove(key: nat) returns (ok: bool)
      requires Valid()
      modifies this`size, this`contents, table
      ensures Valid()
      ensures ok <==> key in old(contents)
      ensures contents == old(contents) - {key}
    {
      ghost var rest := contents - {key};
      RemoveSize(contents, key);
      ok := RemoveFrom(table, key, contents, rest);
      ghost var t := table[..];
      size, contents := if ok then size - 1 else size, rest;
      assert table[..] == t;
    }
  }

  lemma InsertSize<V>(m: map<nat, V>, key: nat, value: V)
    ensures |m[key := value]| == if key in m then |m| else |m| + 1
  {
    assert m[key := value].Keys == m.Keys + {key};
    assert |m| == |m.Keys| && |m[key := value]| == |m[key := value].Keys|;
  }

  /** Links an entry into a table that holds `contents`. */
  method InsertNew<V>(table: array<seq<Entry<V>>>, e: Entry<V>, ghost contents: map<nat, V>, ghost more: map<nat, V>)
    returns (ok: bool)
    requires WellFormed(table[..]) && Represents(table[..], contents)
    requires more == if e.key in contents then contents else contents[e.key := e.value]
    modifies table
    ensures ok <==> e.key !in contents
    ensures WellFormed(table[..]) && Represents(table[..], more)
  {
    ghost var t := table[..];
    assert Lookup(t, e.key).None? <==> e.key !in contents;
    ok := InsertInto(table, e);
    if ok {
      PutRepresents(t, e, contents);
    }
  }

  lemma RemoveSize<V>(m: map<nat, V>, key: nat)
    ensures |m - {key}| == if key in m then |m| - 1 else |m|
  {
    assert (m - {key}).Keys == m.Keys - {key};
    assert |m| == |m.Keys| && |m - {key}| == |(m - {key}).Keys|;
  }

  /** Unlinks the entry of a key from its chain. */
  lemma FoundIs<V>(table: seq<seq<Entry<V>>>, key: nat, i: nat, contents: map<nat, V>)
    requires |table| > 0 && Represents(table, contents) && i <= |table[Hash(key, |table|)]|
    requires var chain := table[Hash(key, |table|)];
             (i < |chain| ==> chain[i].key == key) && forall j :: 0 <= j < i ==> chain[j].key != key
    ensures i < |table[Hash(key, |table|)]| <==> key in contents
    ensures i == |table[Hash(key, |table|)]| ==> contents - {key} == contents
  {
    assert Lookup(table, key).Some? <==> key in contents;
    FindSpec(table[Hash(key, |table|)], key);
  }

  method RemoveFrom<V>(table: array<seq<Entry<V>>>, key: nat, ghost contents: map<nat, V>, ghost rest: map<nat, V>)
    returns (ok: bool)
    requires WellFormed(table[..]) && Represents(table[..], contents) && rest == contents - {key}
    modifies table
    ensures WellFormed(table[..]) && Represents(table[..], rest)
    ensures ok <==> key in contents
  {
    var h := Hash(key, table.Length);
    ghost var t := table[..];
    var i := IndexOf(table[h], key);
    FoundIs(t, key, i, contents);
    if i == |table[h]| {
      return false;
    }
    DropRepresents(t, h, i, contents);
    table[h] := table[h][..i] + table[h][i + 1..];
    assert table[..] == Drop(t, h, i);
    return true;
  }

  method IndexOf<V>(chain: seq<Entry<V>>, key: nat) returns (i: nat)
    ensures i <= |chain| && (i < |chain| ==> chain[i].key == key)
    ensures forall j :: 0 <= j < i ==> chain[j].key != key
  {
    i := 0;
    while i < |chain| && chain[i].key != key
      invariant 0 <= i <= |chain| && forall j :: 0 <= j < i ==> chain[j].key != key
    {
      i := i + 1;
    }
  }
}
