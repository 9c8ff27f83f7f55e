/** The helper library's hash table: buckets of intrusive lists over a fixed pool of nodes. It starts
    from a table whose memory is laid out; operations run one at a time. */
module HashTable {
  import opened Bits
  import opened Wrappers
  import opened Tables
  import opened LinkedList

  type Key = seq<u8>
  type Value = seq<u8>

  /** ODPH_MAX_BUCKET_NUM */
  const BUCKETS: nat := 0x1_0000

  /** A char is signed: what (uint32_t)(*(char *)key) gives. */
  function SignExtended(c: u8): u32 {
    if c < 0x80 then c else TWO32 - 0x100 + c
  }

  /** n rounds of odp_key_hash; the pointer into the key never advances. */
  function HashRounds(ch: u32, n: nat): u32 {
    if n == 0 then 0 else Low32(HashRounds(ch, n - 1) * 131 + ch)
  }

  function KeyHash(key: Key): (b: nat)
    requires key != []
    ensures b < BUCKETS
  {
    HashRounds(SignExtended(key[0]), |key|) % BUCKETS
  }

  /** Only the first byte of a key decides its bucket. */
  lemma SameBucket(k: Key, k': Key)
    requires |k| == |k'| > 0 && k[0] == k'[0]
    ensures KeyHash(k) == KeyHash(k')
  {
  }

  /** The value of a signed char. */
  function Signed(c: u8): int {
    if c < 0x80 then c as int else c as int - 0x100
  }

  /** 1 + 131 + ... + 131^(n - 1) */
  function Geometric(n: nat): nat {
    if n == 0 then 0 else 131 * Geometric(n - 1) + 1
  }

  lemma {:induction false} HashIsProduct(c: u8, n: nat)
    ensures HashRounds(SignExtended(c), n) == Low32(Signed(c) * Geometric(n))
  {
    hide Low32;
    SignIs(c);
    if n > 0 {
      HashIsProduct(c, n - 1);
      HashStep(Signed(c), Geometric(n - 1), SignExtended(c));
    }
  }

  lemma SignIs(c: u8)
    ensures SignExtended(c) == Low32(Signed(c)) && Low32(0) == 0
  {
  }

  lemma HashStep(c: int, g: nat, ch: u32)
    requires ch == Low32(c)
    ensures Low32(Low32(c * g) * 131 + ch) == Low32(c * (131 * g + 1))
  {
    var x := c * g;
    assert c * (131 * g + 1) == x * 131 + c;
    var k, j := x / TWO32, c / TWO32;
    assert x == k * TWO32 + Low32(x) && c == j * TWO32 + ch;
    assert x * 131 + c == (k * 131 + j) * TWO32 + (Low32(x) * 131 + ch);
    SameLow32(Low32(x) * 131 + ch, k * 131 + j);
  }

  lemma SameLow32(y: nat, k: int)
    ensures Low32(k * TWO32 + y) == Low32(y)
  {
    var q, r := y / TWO32, y % TWO32;
    assert k * TWO32 + y == (k + q) * TWO32 + r;
    ModUnique(k * TWO32 + y, TWO32, k + q, r);
  }

  /** odp_key_hash: the first byte as a signed number, times a factor that depends on the key size. */
  method ComputeHash(key: Key) returns (b: nat)
    requires key != []
    ensures b == KeyHash(key)
    ensures b == Low32(Signed(key[0]) * Geometric(|key|)) % 0x1_0000
  {
    HashIsProduct(key[0], |key|);
    var hash: u32, idx := 0, |key|;
    while idx != 0
      invariant 0 <= idx <= |key| && hash == HashRounds(SignExtended(key[0]), |key| - idx)
      decreases idx
    {
      hash := Low32(hash * 131 + SignExtended(key[0]));
      idx := idx - 1;
    }
    b := hash % BUCKETS;
  }

  lemma {:induction false} DistinctSize(ns: seq<Node>)
    requires Distinct(ns)
    ensures |set n | n in ns| == |ns|
  {
    if ns != [] {
      var rest := ns[1..];
      assert Distinct(rest) by {
        forall i, j | 0 <= i < j < |rest| ensures rest[i] != rest[j] {
          assert ns[i + 1] != ns[j + 1];
        }
      }
      DistinctSize(rest);
      assert ns[0] !in rest;
      assert (set n | n in ns) == (set n | n in rest) + {ns[0]};
    }
  }

  /** A map that takes different keys to different nodes has as many nodes as keys. */
  lemma {:induction false} InjectiveSize(m: map<Key, Node>)
    requires forall k, k' :: k in m && k' in m && k != k' ==> m[k] != m[k']
    ensures |m.Values| == |m|
    decreases |m|
  {
    if |m| > 0 {
      var k :| k in m;
      var rest := m - {k};
      InjectiveSize(rest);
      assert m.Values == rest.Values + {m[k]} by {
        forall v | v in m.Values ensures v in rest.Values + {m[k]} {
          var j :| j in m && m[j] == v;
          assert j != k ==> j in rest && rest[j] == v;
        }
      }
      assert m.Keys == rest.Keys + {k};
    }
  }

  // ---------- the map a sequence of calls computes ----------

  datatype Op = PutOp(key: Key, value: Value) | RemoveOp(key: Key)

  function Apply(m: map<Key, Value>, room: nat, op: Op): map<Key, Value> {
    match op
    case PutOp(key, value) => if key in m || |m| < room then m[key := value] else m
    case RemoveOp(key) => m - {key}
  }

  function ApplyAll(m: map<Key, Value>, room: nat, ops: seq<Op>): map<Key, Value> {
    if ops == [] then m else Apply(ApplyAll(m, room, ops[..|ops| - 1]), room, ops[|ops| - 1])
  }

  lemma ApplyOneMore(m: map<Key, Value>, room: nat, ops: seq<Op>, i: nat)
    requires i < |ops|
    ensures ApplyAll(m, room, ops[..i + 1]) == Apply(ApplyAll(m, room, ops[..i]), room, ops[i])
  {
    assert ops[..i + 1][..i] == ops[..i];
  }

  /** The map never outgrows the pool. */
  lemma {:induction false} NeverOverfull(m: map<Key, Value>, room: nat, ops: seq<Op>)
    requires |m| <= room
    ensures |ApplyAll(m, room, ops)| <= room
  {
    if ops != [] {
      NeverOverfull(m, room, ops[..|ops| - 1]);
      ApplySize(ApplyAll(m, room, ops[..|ops| - 1]), room, ops[|ops| - 1]);
    }
  }

  lemma ApplySize(m: map<Key, Value>, room: nat, op: Op)
    requires |m| <= room
    ensures |Apply(m, room, op)| <= room
  {
    match op
    case PutOp(key, value) => SetSize(m, key, value);
    case RemoveOp(key) => DropSize(m, key);
  }

  lemma SetSize(m: map<Key, Value>, key: Key, value: Value)
    ensures |m[key := value]| == |m| + if key in m then 0 else 1
  {
    var m' := m[key := value];
    assert m'.Keys == if key in m then m.Keys else m.Keys + {key};
  }

  lemma DropSize(m: map<Key, Value>, key: Key)
    ensures |m - {key}| <= |m|
  {
    var m' := m - {key};
    assert m'.Keys == if key in m then m.Keys - {key} else m.Keys;
  }

  /** The loop of odph_hash_table_create over the list heads. */
  method InitHeads(heads: seq<Node>)
    modifies heads
    ensures forall n :: n in heads ==> n.next == n && n.prev == n
  {
    var i := 0;
    while i < |heads|
      invariant 0 <= i <= |heads|
      invariant forall j :: 0 <= j < i ==> heads[j].next == heads[j] && heads[j].prev == heads[j]
    {
      InitHead(heads[i]);
      i := i + 1;
    }
  }

  /** odph_hash_table_create on the nodes of its zeroed memory: the heads are initialised, and the table stands
      for the empty map. */
  method Create(keySize: nat, valueSize: nat, heads: seq<Node>, pool: seq<Node>) returns (table: Table)
    requires keySize > 0 && |heads| == BUCKETS && Distinct(heads) && Distinct(pool) && forall n :: n in heads ==> n !in pool
    requires forall n :: n in pool ==> n.next == null && n.prev == null
    modifies heads
    ensures fresh(table) && table.Valid() && table.contents == map[]
    ensures table.keySize == keySize && table.valueSize == valueSize && table.heads == heads && table.pool == pool
  {
    InitHeads(heads);
    table := new Table(keySize, valueSize, heads, pool);
  }

  class Table {
    const keySize: nat
    const valueSize: nat
    const heads: seq<Node>
    const pool: seq<Node>
    ghost var buckets: seq<seq<Node>>
    /** The node that holds each key. */
    ghost var owner: map<Key, Node>
    /** The finite map the table stands for. */
    ghost var contents: map<Key, Value>

    /** A table over zeroed nodes, with every list head initialised: it stands for the empty map. */
    constructor (keySize: nat, valueSize: nat, heads: seq<Node>, pool: seq<Node>)
      requires keySize > 0 && |heads| == BUCKETS && Distinct(heads) && Distinct(pool) && forall n :: n in heads ==> n !in pool
      requires forall n :: n in heads ==> n.next == n && n.prev == n
      requires forall n :: n in pool ==> n.next == null && n.prev == null
      ensures Valid() && contents == map[]
      ensures this.keySize == keySize && this.valueSize == valueSize && this.heads == heads && this.pool == pool
    {
      this.keySize, this.valueSize, this.heads, this.pool := keySize, valueSize, heads, pool;
      buckets := seq(BUCKETS, _ => []);
      owner := map[];
      contents := map[];
      new;
      forall b | 0 <= b < BUCKETS ensures BucketOk(b) {
        assert heads[b] in heads;
      }
    }

    ghost predicate Shape()
      reads this
    {
      && keySize > 0 && |heads| == |buckets| == BUCKETS
      && Distinct(heads) && Distinct(pool) && (forall n :: n in heads ==> n !in pool)
      && (forall b, j :: 0 <= b < BUCKETS && 0 <= j < |buckets[b]| ==> buckets[b][j] in pool)
    }

    /** The node holds the key it carries. */
    ghost predicate Used(n: Node)
      reads this, n
    {
      n.key in owner && owner[n.key] == n
    }

    /** A linked node of bucket b. */
    ghost predicate Holds(n: Node, b: nat)
      reads this, n
    {
      n in pool && |n.key| == keySize > 0 && |n.value| == valueSize && KeyHash(n.key) == b && Used(n)
    }

    ghost predicate BucketOk(b: nat)
      requires Shape() && b < BUCKETS
      reads this, heads, pool
    {
      Ring(heads[b], buckets[b]) && forall n :: n in buckets[b] ==> Holds(n, b)
    }

    ghost predicate KeyOk(k: Key)
      requires Shape()
      reads this, pool
    {
      k in owner ==> owner[k] in pool && owner[k].key == k && |k| == keySize && owner[k] in buckets[KeyHash(k)] && k in contents && contents[k] == owner[k].value
    }

    ghost predicate FreeOk(n: Node)
      reads this, n
    {
      !Used(n) ==> n.next == null && n.prev == null
    }

    ghost predicate KeysOk()
      reads this, pool
    {
      Shape() && contents.Keys == owner.Keys && forall k :: k in owner ==> KeyOk(k)
    }

    /** The representation, except that node x may be on its way into a bucket. */
    ghost predicate ValidBut(x: Node?)
      reads this, heads, pool
    {
      && KeysOk()
      && (forall b :: 0 <= b < BUCKETS ==> BucketOk(b))
      && (forall n :: n in pool && n != x ==> FreeOk(n))
    }

    ghost predicate Valid()
      reads this, heads, pool
    {
      ValidBut(null)
    }

    ghost function FreeNodes(): set<Node>
      reads this, pool
    {
      set n | n in pool && !Used(n)
    }

    /** The node that holds the key, found by walking its bucket. */
    method Find(key: Key) returns (node: Node?, ghost at: nat)
      requires Valid() && |key| == keySize
      ensures key in contents <==> node != null
      ensures node == null ==> key !in owner
      ensures node != null ==> key in owner && owner[key] == node && at < |buckets[KeyHash(key)]| && buckets[KeyHash(key)][at] == node
    {
      var b := ComputeHash(key);
      assert BucketOk(b) && (key in owner ==> KeyOk(key));
      node, at := Search(heads[b], buckets[b], key);
      if node != null {
        assert Holds(node, b);
      }
    }

    /** odp_hashnode_take: the first node of the pool that is in no list, made into a list of its own. */
    method Take() returns (node: Node?)
      requires Valid()
      modifies pool
      ensures node == null <==> old(FreeNodes()) == {}
      ensures node != null ==> node in pool && !Used(node)
      ensures ValidBut(node) && contents == old(contents)
    {
      var idx := 0;
      while idx < |pool| && (pool[idx].next != null || pool[idx].prev != null)
        modifies {}
        invariant idx <= |pool|
        invariant forall j :: 0 <= j < idx ==> Used(pool[j])
      {
        assert FreeOk(pool[idx]);
        idx := idx + 1;
      }
      if idx == |pool| {
        return null;
      }
      node := pool[idx];
      if Used(node) { UsedIsLinked(node); }
      assert node in FreeNodes();
      InitFree(node);
    }

    method InitFree(node: Node)
      requires Valid() && node in pool && !Used(node)
      modifies node
      ensures ValidBut(node) && !Used(node) && contents == old(contents)
    {
      hide Ring, KeyHash;
      InitHead(node);
      forall j | 0 <= j < BUCKETS ensures BucketOk(j) {
        assert old(BucketOk(j));
        forall i | 0 <= i < |buckets[j]| ensures unchanged(buckets[j][i]) && Used(buckets[j][i]) {
          assert old(Holds(buckets[j][i], j));
        }
        assert heads[j] in heads;
        SameBucketOk(j);
      }
      forall k | k in owner ensures KeyOk(k) {
        assert old(KeyOk(k));
      }
      forall n | n in pool && n != node ensures FreeOk(n) {
        assert old(FreeOk(n));
      }
    }

    /** A node in a bucket has neighbours. */
    lemma UsedIsLinked(n: Node)
      requires Valid() && n in pool && Used(n)
      ensures n.next != null
    {
      assert KeyOk(n.key);
      var b := KeyHash(n.key);
      assert BucketOk(b);
      var j :| 0 <= j < |buckets[b]| && buckets[b][j] == n;
      assert Linked(heads[b], buckets[b], j + 1);
    }

    /** A bucket whose head and nodes did not change is as it was. */
    twostate lemma SameBucketOk(b: nat)
      requires old(Shape()) && Shape() && b < BUCKETS && old(BucketOk(b)) && buckets[b] == old(buckets[b])
      requires unchanged(heads[b]) && forall i :: 0 <= i < |buckets[b]| ==> unchanged(buckets[b][i]) && Used(buckets[b][i])
      ensures BucketOk(b)
    {
      forall n | n in buckets[b] ensures Holds(n, b) {
        assert old(Holds(n, b));
      }
    }

    /** What linking does: the node gets its content and comes first in bucket b; no other content
        changes, and no link outside bucket b. */
    twostate predicate LinkedIn(new node: Node, new key: Key, new value: Value, b: nat)
      requires old(Shape()) && |key| > 0 && b == KeyHash(key) && node in pool
      reads this, heads, pool
    {
      && buckets == old(buckets)[b := [node] + old(buckets[b])] && owner == old(owner)[key := node]
      && contents == old(contents)[key := value]
      && node.key == key && node.value == value
      && (forall i :: 0 <= i < |pool| && pool[i] != node ==> pool[i].key == old(pool[i].key) && pool[i].value == old(pool[i].value))
      && (forall i :: 0 <= i < |pool| && pool[i] != node && pool[i] !in old(buckets[b]) ==> unchanged(pool[i]))
      && (forall j :: 0 <= j < BUCKETS && j != b ==> unchanged(heads[j]))
      && Ring(heads[b], [node] + old(buckets[b]))
    }

    /** The node taken from the pool gets its content and goes to the front of its bucket. */
    method Link(node: Node, key: Key, value: Value)
      requires ValidBut(node) && node in pool && !Used(node) && key !in owner
      requires |key| == keySize && |value| == valueSize
      modifies this, heads, pool
      ensures Valid() && contents == old(contents)[key := value]
    {
      hide Ring, KeyHash, Distinct;
      var b := ComputeHash(key);
      LinkKeys(node, key, value, b);
      assert old(BucketOk(b));
      hide BucketOk, KeyOk;
      forall n | n in pool ensures FreeOk(n) {
        if n != node {
          assert old(FreeOk(n));
          assert n in old(buckets[b]) ==> old(Holds(n, b));
        }
      }
    }

    method LinkKeys(node: Node, key: Key, value: Value, b: nat)
      requires ValidBut(node) && node in pool && !Used(node) && key !in owner
      requires |key| == keySize && |value| == valueSize && b == KeyHash(key)
      modifies this, heads, pool
      ensures LinkedIn(node, key, value, b) && KeysOk() && forall j :: 0 <= j < BUCKETS ==> BucketOk(j)
    {
      LinkBuckets(node, key, value, b);
      hide Ring, KeyHash, Distinct, BucketOk, Holds;
      ghost var ns := old(buckets[b]);
      assert node in buckets[b] && forall n :: n in ns ==> n in buckets[b] by { assert buckets[b] == [node] + ns; }
      forall k | k in owner ensures KeyOk(k) {
        assert k != key ==> old(KeyOk(k));
      }
    }

    method LinkBuckets(node: Node, key: Key, value: Value, b: nat)
      requires ValidBut(node) && node in pool && !Used(node) && key !in owner
      requires |key| == keySize && |value| == valueSize && b == KeyHash(key)
      modifies this, heads, pool
      ensures LinkedIn(node, key, value, b) && Shape() && forall j :: 0 <= j < BUCKETS ==> BucketOk(j)
    {
      hide Ring, KeyHash, Distinct;
      LinkFront(node, key, value, b);
      assert Shape() && old(BucketOk(b));
      forall j | 0 <= j < BUCKETS ensures BucketOk(j) {
        assert old(BucketOk(j));
        if j != b {
          forall i | 0 <= i < |buckets[j]| ensures unchanged(buckets[j][i]) && Used(buckets[j][i]) {
            assert old(Holds(buckets[j][i], j));
            assert buckets[j][i] in old(buckets[b]) ==> old(Holds(buckets[j][i], b));
          }
          SameBucketOk(j);
        } else {
          forall n | n in buckets[b] ensures Holds(n, b) {
            assert n != node ==> old(Holds(n, b));
          }
        }
      }
    }

    method LinkFront(node: Node, key: Key, value: Value, b: nat)
      requires ValidBut(node) && node in pool && !Used(node) && |key| > 0 && b == KeyHash(key)
      modifies this, heads, pool
      ensures LinkedIn(node, key, value, b)
    {
      ghost var ns := buckets[b];
      FirstNeighbour(node, b);
      HeadsApart(node, b);
      hide Ring, KeyHash, ValidBut, At;
      node.key := key;
      node.value := value;
      Add(node, heads[b], ns);
      buckets := buckets[b := [node] + ns];
      owner := owner[key := node];
      contents := contents[key := value];
    }

    /** The first position of bucket b is its head or one of its nodes, and a free node is none of them. */
    lemma FirstNeighbour(node: Node, b: nat)
      requires ValidBut(node) && node in pool && !Used(node) && b < BUCKETS
      ensures Ring(heads[b], buckets[b]) && node !in buckets[b] && forall n :: n in buckets[b] ==> n in pool
      ensures At(heads[b], buckets[b], 1) == heads[b] || At(heads[b], buckets[b], 1) in buckets[b]
    {
      assert BucketOk(b);
      assert node in buckets[b] ==> Holds(node, b);
    }

    /** The keys stored and the free nodes account for the whole pool. */
    lemma Accounting()
      requires Valid()
      ensures |contents| + |FreeNodes()| == |pool|
    {
      hide BucketOk, FreeOk;
      forall k | k in owner ensures owner[k] in pool && owner[k].key == k {
        assert KeyOk(k);
      }
      InjectiveSize(owner);
      DistinctSize(pool);
      assert (set n | n in pool) == owner.Values + FreeNodes();
    }

    /** odph_hash_put_value: a key that is there gets the value; a new key is added unless the pool is
        used up, and then nothing changes. */
    method Put(key: Option<Key>, value: Option<Value>) returns (rc: int)
      requires Valid()
      requires (key.Some? ==> |key.value| == keySize) && (value.Some? ==> |value.value| == valueSize)
      modifies this, heads, pool
      ensures Valid()
      ensures rc == if key.Some? && value.Some? && (key.value in old(contents) || |old(contents)| < |pool|) then 0 else -1
      ensures contents == if rc == 0 then old(contents)[key.value := value.value] else old(contents)
    {
      if key.None? || value.None? {
        return -1;
      }
      var node, _ := Find(key.value);
      Accounting();
      hide ValidBut, KeyHash, FreeNodes;
      if node != null {
        Overwrite(node, key.value, value.value);
        rc := 0;
      } else {
        rc := PutNew(key.value, value.value);
      }
    }

    method PutNew(key: Key, value: Value) returns (rc: int)
      requires Valid() && |key| == keySize && |value| == valueSize && key !in owner
      modifies this, heads, pool
      ensures Valid() && rc == if old(FreeNodes()) != {} then 0 else -1
      ensures contents == if rc == 0 then old(contents)[key := value] else old(contents)
    {
      hide Ring, KeyHash, BucketOk, FreeOk, KeyOk, FreeNodes;
      var node := Take();
      if node == null {
        return -1;
      }
      Link(node, key, value);
      rc := 0;
    }

    /** A key that is there keeps its node. */
    method Overwrite(node: Node, ghost key: Key, value: Value)
      requires Valid() && key in owner && owner[key] == node && |value| == valueSize
      modifies this`contents, owner[key]
      ensures Valid() && contents == old(contents)[key := value]
    {
      hide Ring, KeyHash, Distinct;
      assert KeyOk(key);
      node.value := value;
      contents := contents[key := value];
      forall j | 0 <= j < BUCKETS ensures BucketOk(j) {
        assert old(BucketOk(j));
        forall n | n in buckets[j] ensures Holds(n, j) {
          assert old(Holds(n, j));
        }
      }
      forall k | k in owner ensures KeyOk(k) {
        assert old(KeyOk(k));
      }
      forall n | n in pool ensures FreeOk(n) {
        assert old(FreeOk(n));
      }
    }

    /** Any sequence of calls leaves the table as the same sequence of map updates and deletions would,
        each put being refused exactly when the map has no room for a new key. */
    method Replay(ops: seq<Op>)
      requires Valid() && forall i :: 0 <= i < |ops| ==> Suits(ops[i])
      modifies this, heads, pool
      ensures Valid() && contents == ApplyAll(old(contents), |pool|, ops)
      decreases |ops|
    {
      hide Valid, Apply, Suits;
      if |ops| > 0 {
        var n := |ops| - 1;
        ghost var m, room := contents, |pool|;
        Replay(ops[..n]);
        PerformNext(ops, n, m, room);
        assert ops[..n + 1] == ops;
      }
    }

    method PerformNext(ops: seq<Op>, i: nat, ghost m: map<Key, Value>, ghost room: nat)
      requires Valid() && i < |ops| && Suits(ops[i]) && room == |pool| && contents == ApplyAll(m, room, ops[..i])
      modifies this, heads, pool
      ensures Valid() && contents == ApplyAll(m, room, ops[..i + 1])
    {
      ApplyOneMore(m, room, ops, i);
      hide Valid, Apply, ApplyAll, Suits;
      Perform(ops[i]);
    }

    /** Key and value have the sizes of the table. */
    predicate Suits(op: Op) {
      |op.key| == keySize && (op.PutOp? ==> |op.value| == valueSize)
    }

    method Perform(op: Op)
      requires Valid() && Suits(op)
      modifies this, heads, pool
      ensures Valid() && contents == Apply(old(contents), |pool|, op)
    {
      hide Valid;
      match op {
        case PutOp(key, value) => var rc := Put(Some(key), Some(value));
        case RemoveOp(key) => var rc := RemoveValue(Some(key));
      }
    }

    /** odph_hash_get_value: the value of the key is copied out if the buffer can hold it. */
    method GetValue(key: Option<Key>, buffer: array?<u8>) returns (rc: int)
      requires Valid() && (key.Some? ==> |key.value| == keySize)
      modifies buffer
      ensures rc == if key.Some? && buffer != null && valueSize <= buffer.Length && key.value in contents then 0 else -1
      ensures rc == 0 ==> buffer[..] == contents[key.value] + old(buffer[valueSize..])
      ensures rc != 0 && buffer != null ==> buffer[..] == old(buffer[..])
    {
      if key.None? || buffer == null || buffer.Length < valueSize {
        return -1;
      }
      var node, _ := Find(key.value);
      if node == null {
        return -1;
      }
      assert KeyOk(key.value) && BucketOk(KeyHash(key.value)) && Holds(node, KeyHash(key.value));
      CopyOut(node.value, buffer);
      rc := 0;
    }

    /** What unlinking does: the node leaves its place in bucket b and is cleared; no other content
        changes, and no link outside bucket b. */
    twostate predicate UnlinkedFrom(new node: Node, new key: Key, b: nat, at: nat)
      requires old(Shape()) && |key| > 0 && b == KeyHash(key) && node in pool && at < |old(buckets[b])|
      reads this, heads, pool
    {
      && buckets == old(buckets)[b := old(buckets[b])[..at] + old(buckets[b])[at + 1..]]
      && owner == old(owner) - {key} && contents == old(contents) - {key}
      && node.next == null && node.prev == null
      && (forall i :: 0 <= i < |pool| && pool[i] != node ==> pool[i].key == old(pool[i].key) && pool[i].value == old(pool[i].value))
      && (forall i :: 0 <= i < |pool| && pool[i] != node && pool[i] !in old(buckets[b]) ==> unchanged(pool[i]))
      && (forall j :: 0 <= j < BUCKETS && j != b ==> unchanged(heads[j]))
      && Ring(heads[b], old(buckets[b])[..at] + old(buckets[b])[at + 1..])
    }

    /** odp_hashnode_give */
    method Give(node: Node, ghost key: Key, ghost b: nat, ghost at: nat)
      requires Valid() && key in owner && owner[key] == node && node in pool && |key| > 0 && b == KeyHash(key)
      requires at < |buckets[b]| && buckets[b][at] == node
      modifies this, heads, pool
      ensures UnlinkedFrom(node, key, b, at)
    {
      hide Ring, KeyHash, Distinct, KeyOk, FreeOk, Holds;
      ghost var ns := buckets[b];
      GiveNode(node, b, at);
      buckets := buckets[b := ns[..at] + ns[at + 1..]];
      owner := owner - {key};
      contents := contents - {key};
    }

    /** The two neighbours of a node of bucket b are its head or nodes of the bucket. */
    lemma Neighbours(b: nat, at: nat)
      requires Valid() && b < BUCKETS && at < |buckets[b]|
      ensures Ring(heads[b], buckets[b]) && forall n :: n in buckets[b] ==> n in pool
      ensures At(heads[b], buckets[b], at) == heads[b] || At(heads[b], buckets[b], at) in buckets[b]
      ensures At(heads[b], buckets[b], at + 2) == heads[b] || At(heads[b], buckets[b], at + 2) in buckets[b]
    {
      assert BucketOk(b);
    }

    lemma HeadsApart(x: Node?, b: nat)
      requires ValidBut(x) && b < BUCKETS
      ensures |heads| == |buckets| == BUCKETS && heads[b] in heads && (forall n :: n in heads ==> n !in pool)
      ensures forall j :: 0 <= j < BUCKETS && j != b ==> heads[j] != heads[b]
    {
    }

    method GiveNode(node: Node, ghost b: nat, ghost at: nat)
      requires Valid() && b < BUCKETS && at < |buckets[b]| && buckets[b][at] == node && node in pool
      modifies heads, pool
      ensures node.next == null && node.prev == null
      ensures forall i :: 0 <= i < |pool| && pool[i] != node ==> pool[i].key == old(pool[i].key) && pool[i].value == old(pool[i].value)
      ensures forall i :: 0 <= i < |pool| && pool[i] != node && pool[i] !in buckets[b] ==> unchanged(pool[i])
      ensures forall j :: 0 <= j < BUCKETS && j != b ==> unchanged(heads[j])
      ensures Ring(heads[b], buckets[b][..at] + buckets[b][at + 1..])
    {
      ghost var ns := buckets[b];
      Neighbours(b, at);
      HeadsApart(null, b);
      hide Ring, Valid, At;
      Detach(heads[b], ns, at, node);
      node.key := seq(keySize, _ => 0);
      node.value := seq(valueSize, _ => 0);
    }

    /** odph_hash_remove_value: removing a key that is not there succeeds too. */
    method RemoveValue(key: Option<Key>) returns (rc: int)
      requires Valid() && (key.Some? ==> |key.value| == keySize)
      modifies this, heads, pool
      ensures Valid() && rc == if key.Some? then 0 else -1
      ensures contents == if key.Some? then old(contents) - {key.value} else old(contents)
    {
      if key.None? {
        return -1;
      }
      var node, at := Find(key.value);
      if node != null {
        assert KeyOk(key.value);
        Unlink(node, key.value, KeyHash(key.value), at);
      }
      rc := 0;
    }

    method Unlink(node: Node, ghost key: Key, ghost b: nat, ghost at: nat)
      requires Valid() && key in owner && owner[key] == node && node in pool && |key| > 0 && b == KeyHash(key)
      requires at < |buckets[b]| && buckets[b][at] == node
      modifies this, heads, pool
      ensures Valid() && contents == old(contents) - {key}
    {
      hide Ring, KeyHash;
      UnlinkBuckets(node, key, b, at);
      assert old(BucketOk(b)) && old(KeyOk(key));
      hide BucketOk;
      forall k | k in owner ensures KeyOk(k) {
        assert old(KeyOk(k));
      }
      forall n | n in pool ensures FreeOk(n) {
        assert old(FreeOk(n));
        assert n in old(buckets[b]) ==> old(Holds(n, b));
      }
    }

    method UnlinkBuckets(node: Node, ghost key: Key, ghost b: nat, ghost at: nat)
      requires Valid() && key in owner && owner[key] == node && node in pool && |key| > 0 && b == KeyHash(key)
      requires at < |buckets[b]| && buckets[b][at] == node
      modifies this, heads, pool
      ensures UnlinkedFrom(node, key, b, at) && Shape() && forall j :: 0 <= j < BUCKETS ==> BucketOk(j)
      ensures forall n :: n in buckets[b] <==> n in old(buckets[b]) && n != node
    {
      assert BucketOk(b) && KeyOk(key) && Ring(heads[b], buckets[b]);
      Without(buckets[b], at);
      hide Ring, KeyHash, Distinct;
      Give(node, key, b, at);
      assert Shape() && old(BucketOk(b));
      forall j | 0 <= j < BUCKETS ensures BucketOk(j) {
        assert old(BucketOk(j));
        if j != b {
          forall i | 0 <= i < |buckets[j]| ensures unchanged(buckets[j][i]) && Used(buckets[j][i]) {
            assert old(Holds(buckets[j][i], j));
            assert buckets[j][i] in old(buckets[b]) ==> old(Holds(buckets[j][i], b));
          }
          SameBucketOk(j);
        } else {
          forall n | n in buckets[b] ensures Holds(n, b) {
            assert old(Holds(n, b));
          }
        }
      }
    }
  }

  method CopyOut(value: Value, buffer: array<u8>)
    requires |value| <= buffer.Length
    modifies buffer
    ensures buffer[..] == value + old(buffer[|value|..])
  {
    var i := 0;
    while i < |value|
      invariant 0 <= i <= |value| && buffer[..i] == value[..i] && buffer[i..] == old(buffer[i..])
    {
      buffer[i] := value[i];
      i := i + 1;
    }
  }
}
