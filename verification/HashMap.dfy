/** The chained hash map: its hash, and a bucket array of singly linked nodes that behaves as a map. */
module HashMap {
  import opened Options

  type Char = c: int | -128 <= c < 128
  type Key = seq<Char>

  // ---------------------------------------------------------------- the hash

  const HASH_MODULUS := 31636373

  /** The remainder as the source's machine takes it: with the sign of the dividend. */
  function Rem(a: int, m: int): int
    requires m > 0
  {
    if a >= 0 then a % m else -(-a % m)
  }

  function Hash(key: Key): int {
    if key == [] then 0 else Rem(Hash(key[..|key| - 1]) * 13 + key[|key| - 1], HASH_MODULUS)
  }

  predicate FitsInt(x: int) { -0x8000_0000 <= x < 0x8000_0000 }

  lemma RemBounds(a: int, m: int)
    requires m > 0
    ensures -m < Rem(a, m) < m && (a >= 0 ==> Rem(a, m) >= 0)
  {
  }

  /** The hash lies strictly between the modulus and its negation. */
  lemma {:induction false} HashBounds(key: Key)
    ensures -HASH_MODULUS < Hash(key) < HASH_MODULUS
  {
    if key != [] {
      hide Rem;
      RemBounds(Hash(key[..|key| - 1]) * 13 + key[|key| - 1], HASH_MODULUS);
    }
  }

  /** No step of the hash overflows. */
  lemma HashFits(key: Key, n: nat)
    requires n < |key|
    ensures FitsInt(Hash(key[..n]) * 13) && FitsInt(Hash(key[..n]) * 13 + key[n])
  {
    hide Hash;
    HashBounds(key[..n]);
  }

  /** The hash of a key of seven-bit characters is not negative. */
  lemma {:induction false} SevenBitHash(key: Key)
    requires forall n | 0 <= n < |key| :: key[n] >= 0
    ensures 0 <= Hash(key) < HASH_MODULUS
  {
    HashBounds(key);
    if key != [] {
      hide Rem;
      SevenBitHash(key[..|key| - 1]);
      RemBounds(Hash(key[..|key| - 1]) * 13 + key[|key| - 1], HASH_MODULUS);
    }
  }

  function Power(n: nat): nat {
    if n == 0 then 1 else 13 * Power(n - 1)
  }

  /** The key as a number in base 13, first character first. */
  function Polynomial(key: Key): int {
    if key == [] then 0 else key[0] * Power(|key| - 1) + Polynomial(key[1..])
  }

  lemma {:induction false} PolynomialEnds(key: Key)
    requires key != []
    ensures Polynomial(key) == 13 * Polynomial(key[..|key| - 1]) + key[|key| - 1]
  {
    var n := |key| - 1;
    if n > 0 {
      PolynomialEnds(key[1..]);
      assert key[1..][..n - 1] == key[..n][1..];
      Scaled(key[0], Power(n - 1));
    } else {
      assert key[..0] == [] && key[1..] == [];
    }
  }

  lemma Scaled(a: int, b: int)
    ensures a * (13 * b) == 13 * (a * b)
  {
  }

  lemma RemCongruent(a: int, b: int, c: int)
    requires a % HASH_MODULUS == b % HASH_MODULUS
    ensures Rem(13 * a + c, HASH_MODULUS) % HASH_MODULUS == (13 * b + c) % HASH_MODULUS
  {
    hide Rem;
    var k := a / HASH_MODULUS - b / HASH_MODULUS;
    assert a == b + k * HASH_MODULUS;
    RemIs(13 * a + c);
    ModShift(13 * a + c, 13 * k);
  }

  lemma RemIs(a: int)
    ensures Rem(a, HASH_MODULUS) % HASH_MODULUS == a % HASH_MODULUS
  {
  }

  /** The hash is that number modulo 31636373: congruent to it always, and equal for seven-bit keys. */
  lemma {:induction false} HashIsPolynomial(key: Key)
    ensures Hash(key) % 31636373 == Polynomial(key) % 31636373
    ensures (forall n | 0 <= n < |key| :: key[n] >= 0) ==> Hash(key) == Polynomial(key) % 31636373
  {
    hide Rem, Polynomial;
    if key == [] {
      PolynomialBegins();
    } else {
      HashIsPolynomial(key[..|key| - 1]);
      PolynomialEnds(key);
      RemCongruent(Hash(key[..|key| - 1]), Polynomial(key[..|key| - 1]), key[|key| - 1]);
    }
    if forall n | 0 <= n < |key| :: key[n] >= 0 {
      SevenBitHash(key);
    }
  }

  lemma PolynomialBegins()
    ensures Polynomial([]) == 0
  {
  }

  /** A character above seven bits can make the hash, and with it the bucket index, negative. */
  lemma NegativeHash()
    ensures Hash([-61]) == -61 && Rem(Hash([-61]), 17) < 0
  {
    assert Hash([-61][..0]) == 0;
  }

  method DefaultHashingFunction(key: Key) returns (code: int)
    ensures code == Hash(key)
  {
    hide Rem;
    code := 0;
    for i := 0 to |key|
      invariant code == Hash(key[..i])
    {
      assert key[..i + 1][..i] == key[..i];
      HashFits(key, i);
      assert key[..i + 1] != [] && key[..i + 1][i] == key[i];
      assert FitsInt(code * 13) && FitsInt(code * 13 + key[i]);
      code := Rem(code * 13 + key[i], HASH_MODULUS);
    }
    assert key[..|key|] == key;
  }

  /** Where a hash puts its key. */
  function Index(hash: int, size: int): int
    requires size > 0
  {
    Rem(hash, size)
  }

  /** The index is a bucket exactly when the hash is not negative, or is a multiple of the size. */
  lemma IndexInRange(hash: int, size: int)
    requires size > 0
    ensures 0 <= Index(hash, size) < size <==> hash >= 0 || hash % size == 0
  {
    if hash < 0 {
      Negated(hash, size);
    }
  }

  lemma Negated(a: int, m: int)
    requires m > 0
    ensures a % m == 0 <==> -a % m == 0
  {
    var q, q' := a / m, -a / m;
    assert a == q * m + a % m && -a == q' * m + -a % m;
    assert (q + q') * m == -(a % m) - (-a % m) by {
      Spread(q, q', m);
    }
    if a % m == 0 || -a % m == 0 {
      AtMost(q + q', m);
      AtMost(-(q + q'), m);
    }
  }

  lemma Spread(a: int, b: int, m: int)
    ensures (a + b) * m == a * m + b * m
  {
  }

  lemma {:induction false} AtMost(d: int, m: int)
    requires m > 0
    ensures d > 0 ==> d * m >= m && -d * m <= -m
    ensures d == 0 ==> d * m == 0
    decreases d
  {
    if d > 1 {
      AtMost(d - 1, m);
    }
  }

  // ---------------------------------------------------------------- which alphabets are safe

  predicate Over(key: Key, alphabet: set<Char>) {
    forall k | 0 <= k < |key| :: key[k] in alphabet
  }

  /** The key that repeats one character. */
  function Repeated(c: Char, n: nat): (key: Key)
    ensures |key| == n && forall k | 0 <= k < n :: key[k] == c
  {
    if n == 0 then [] else Repeated(c, n - 1) + [c]
  }

  /** 1 + 13 + ... + 13^(n-1), modulo the hash modulus. */
  function Powers(n: nat): (g: nat) {
    if n == 0 then 0 else Next(Powers(n - 1))
  }

  function Next(g: nat): nat { (13 * g + 1) % HASH_MODULUS }

  /** Two linear steps under the modulus are one. */
  lemma Compose(a: nat, b: nat, c: nat, d: nat, g: nat)
    ensures (a * ((c * g + d) % HASH_MODULUS) + b) % HASH_MODULUS == (a * c * g + (a * d + b)) % HASH_MODULUS
  {
    var x := c * g + d;
    var q := x / HASH_MODULUS;
    assert a * (x - q * HASH_MODULUS) == a * x - (a * q) * HASH_MODULUS;
    assert a * x == a * c * g + a * d;
    ModShift(a * x + b, a * q);
  }

  /** From any `n`, `k` steps of the powers are one linear step. */
  ghost predicate Leap(k: nat, a: nat, b: nat) {
    forall n: nat :: Powers(n + k) == (a * Powers(n) + b) % HASH_MODULUS
  }

  lemma LeapTwice(j: nat, a: nat, b: nat, k: nat, c: nat, d: nat)
    requires Leap(j, a, b) && Leap(k, c, d)
    ensures Leap(k + j, a * c, a * d + b)
  {
    hide Powers;
    forall n: nat ensures Powers(n + (k + j)) == (a * c * Powers(n) + (a * d + b)) % HASH_MODULUS {
      assert Powers(n + k + j) == (a * Powers(n + k) + b) % HASH_MODULUS;
      Compose(a, b, c, d, Powers(n));
    }
  }

  lemma LeapTen()
    ensures Leap(10, 137858491849, 11488207654)
  {
    assert Leap(1, 13, 1);
    hide Leap;
    LeapTwice(1, 13, 1, 1, 13, 1);
    LeapTwice(2, 169, 14, 2, 169, 14);
    LeapTwice(4, 28561, 2380, 4, 28561, 2380);
    LeapTwice(8, 815730721, 67977560, 2, 169, 14);
  }

  lemma ModShift(y: int, k: int)
    ensures (y - k * HASH_MODULUS) % HASH_MODULUS == y % HASH_MODULUS
  {
  }

  lemma {:induction false} RepeatedHash(c: Char, a: nat, n: nat)
    requires a == 0 - c
    ensures Hash(Repeated(c, n)) == -((a * Powers(n)) % HASH_MODULUS)
  {
    if n > 0 {
      var before := Repeated(c, n - 1);
      RepeatedHash(c, a, n - 1);
      assert Repeated(c, n)[..n - 1] == before;
      NextMultiple(a, Powers(n - 1));
    }
  }

  /** One step of the hash, on a multiple of the powers. */
  lemma NextMultiple(a: nat, g: nat)
    ensures (13 * ((a * g) % HASH_MODULUS) + a) % HASH_MODULUS == (a * Next(g)) % HASH_MODULUS
  {
    var q, k := a * g / HASH_MODULUS, (13 * g + 1) / HASH_MODULUS;
    ModShift(a * (13 * g + 1), 13 * q);
    ModShift(a * (13 * g + 1), a * k);
    Times(a, g, k, HASH_MODULUS);
    assert 13 * ((a * g) % HASH_MODULUS) + a == a * (13 * g + 1) - 13 * q * HASH_MODULUS;
  }

  lemma Times(a: int, g: int, k: int, m: int)
    ensures a * (13 * g + 1 - k * m) == a * (13 * g + 1) - (a * k) * m
    ensures a * (13 * g + 1) == 13 * (a * g) + a
  {
  }

  lemma PowersBegin()
    ensures Powers(0) == 0
  {
  }

  lemma PowersAt()
    ensures Powers(130) == HASH_MODULUS - 106618
  {
    hide Powers;
    PowersBegin();
    LeapTen();
    assert Powers(0 + 10) == 4204255;
    assert Powers(10 + 10) == 29798502;
    assert Powers(20 + 10) == 1716856;
    assert Powers(30 + 10) == 16988144;
    assert Powers(40 + 10) == 22661226;
    assert Powers(50 + 10) == 27625148;
    assert Powers(60 + 10) == 17123367;
    assert Powers(70 + 10) == 4099990;
    assert Powers(80 + 10) == 24571166;
    assert Powers(90 + 10) == 19278866;
    assert Powers(100 + 10) == 30720499;
    assert Powers(110 + 10) == 10110821;
    assert Powers(120 + 10) == 31529755;
  }

  predicate NoDivisor(n: nat) {
    n < 2 || (HASH_MODULUS % n != 0 && NoDivisor(n - 1))
  }

  lemma Indivisible()
    ensures NoDivisor(128)
  {
    assert NoDivisor(16);
    assert NoDivisor(32);
    assert NoDivisor(48);
    assert NoDivisor(64);
    assert NoDivisor(80);
    assert NoDivisor(96);
    assert NoDivisor(112);
  }

  lemma {:induction false} NoDivisorAt(n: nat, s: nat)
    requires NoDivisor(n) && 2 <= s <= n
    ensures HASH_MODULUS % s != 0
  {
    if s < n {
      NoDivisorAt(n - 1, s);
    }
  }

  lemma Multiple(k: int, m: int)
    requires m > 0
    ensures (k * m) % m == 0
  {
    var d := k - (k * m) / m;
    assert d * m == (k * m) % m by {
      Spread(k, -((k * m) / m), m);
    }
    AtMost(d, m);
    AtMost(-d, m);
  }

  lemma Wraps(x: int, k: int)
    requires 0 < x < HASH_MODULUS
    ensures (k * HASH_MODULUS - x) % HASH_MODULUS == HASH_MODULUS - x
  {
    ModShift(-x, -k);
    assert k * HASH_MODULUS - x == -x - -k * HASH_MODULUS;
  }

  lemma LongValue(c: Char, a: nat)
    requires a == 0 - c && a > 0
    ensures Hash(Repeated(c, 130)) == a * 106618 - HASH_MODULUS
  {
    hide Powers, Repeated, Hash;
    RepeatedHash(c, a, 130);
    PowersAt();
    Wraps(a * 106618, a);
    assert a * (HASH_MODULUS - 106618) == a * HASH_MODULUS - a * 106618;
  }

  /** Taking a multiple away keeps a multiple a multiple. */
  lemma Difference(k: int, x: int, size: int)
    requires size > 0 && (k * size - x) % size == 0
    ensures x % size == 0
  {
    var t := (k * size - x) / size;
    assert k * size - x == t * size;
    Spread(k, -t, size);
    Multiple(k - t, size);
  }

  /** A negative character whose value the size divides, repeated 130 times. */
  lemma LongHash(c: Char, a: nat, size: nat)
    requires a == 0 - c && 2 <= size && a > 0 && a % size == 0
    ensures Hash(Repeated(c, 130)) < 0 && Hash(Repeated(c, 130)) % size != 0
  {
    hide Repeated, Hash, NoDivisor;
    LongValue(c, a);
    var q := a / size;
    assert a == q * size;
    assert a * 106618 == q * 106618 * size;
    if Hash(Repeated(c, 130)) % size == 0 {
      Difference(q * 106618, HASH_MODULUS, size);
      AtLeast(q, size);
      Indivisible();
      NoDivisorAt(128, size);
    }
  }

  lemma AtLeast(q: nat, size: nat)
    requires q * size > 0
    ensures q * size >= size
  {
  }

  /** The default hash puts every key over an alphabet into a bucket exactly when no character of the
      alphabet is above seven bits, or there is only one bucket. */
  lemma SafeAlphabets(alphabet: set<Char>, size: int)
    requires size > 0
    ensures (forall key | Over(key, alphabet) :: 0 <= Index(Hash(key), size) < size) <==>
            size == 1 || forall c | c in alphabet :: c >= 0
  {
    hide Hash, Index;
    if size == 1 || forall c | c in alphabet :: c >= 0 {
      forall key | Over(key, alphabet) ensures 0 <= Index(Hash(key), size) < size {
        if size != 1 {
          SevenBitHash(key);
        }
        IndexInRange(Hash(key), size);
      }
    } else {
      var c :| c in alphabet && c < 0;
      var a: nat := 0 - c;
      var n := if a % size == 0 then 130 else 1;
      var key := Repeated(c, n);
      if a % size == 0 {
        LongHash(c, a, size);
      } else {
        RepeatedHash(c, a, 1);
        OnePower();
        Negated(a, size);
      }
      assert Over(key, alphabet);
      IndexInRange(Hash(key), size);
    }
  }

  lemma OnePower()
    ensures Powers(1) == 1
  {
  }

  // ---------------------------------------------------------------- runs of the map

  datatype Op = Put(key: Key, value: Option<nat>) | PutAbsent(key: Key, value: Option<nat>)

  type Content = map<Key, Option<nat>>

  function Done(m: Content, op: Op): Content {
    if op.Put? || op.key !in m then m[op.key := op.value] else m
  }

  function Run(ops: seq<Op>): Content {
    if ops == [] then map[] else Done(Run(ops[..|ops| - 1]), ops[|ops| - 1])
  }

  ghost predicate Mentions(ops: seq<Op>, key: Key) {
    exists i | 0 <= i < |ops| :: ops[i].key == key
  }

  /** The operation that decides what `key` holds: the last put, or else the first put-if-absent. */
  ghost predicate Decides(ops: seq<Op>, key: Key, i: int) {
    && 0 <= i < |ops| && ops[i].key == key
    && (forall j | i < j < |ops| && ops[j].key == key :: ops[j].PutAbsent?)
    && (ops[i].PutAbsent? ==> forall j | 0 <= j < i :: ops[j].key != key)
  }

  lemma {:induction false} RunExact(ops: seq<Op>, key: Key)
    ensures key in Run(ops) <==> Mentions(ops, key)
    ensures forall i | Decides(ops, key, i) :: key in Run(ops) && Run(ops)[key] == ops[i].value
  {
    if ops != [] {
      var n := |ops| - 1;
      var before, op := ops[..n], ops[n];
      RunExact(before, key);
      assert ops == before + [op];
      if op.key == key {
        assert ops[n].key == key;
      }
      forall i | Decides(ops, key, i) ensures key in Run(ops) && Run(ops)[key] == ops[i].value {
        if i < n {
          assert Decides(before, key, i);
        }
      }
    }
  }

  // ---------------------------------------------------------------- the table

  class HashBucket {
    const key: Key
    var value: Option<nat>
    var next: HashBucket?

    constructor (key: Key, value: Option<nat>, next: HashBucket?)
      ensures this.key == key && this.value == value && this.next == next
    {
      this.key, this.value, this.next := key, value, next;
    }
  }

  ghost function Node(w: seq<HashBucket>, k: int): HashBucket? {
    if 0 <= k < |w| then w[k] else null
  }

  ghost predicate Chain(head: HashBucket?, w: seq<HashBucket>)
    reads w`next
  {
    head == Node(w, 0) && forall k | 0 <= k < |w| :: w[k].next == Node(w, k + 1)
  }

  lemma ChainPush(q: HashBucket, w: seq<HashBucket>)
    requires Chain(q.next, w)
    ensures Chain(q, [q] + w)
  {
    var all := [q] + w;
    forall k | 0 <= k < |all| ensures all[k].next == Node(all, k + 1) {
      if k > 0 { assert w[k - 1].next == Node(w, k); }
    }
  }

  type Nodes = map<Key, HashBucket>
  type Chains = seq<seq<HashBucket>>

  /** Node `k` of chain `i` belongs there and is the one node of its key. */
  ghost predicate InPlace(nodes: Nodes, chains: Chains, hash: Key -> int, i: nat, k: nat) {
    && i < |chains| && k < |chains[i]|
    && var key := chains[i][k].key; key in nodes && nodes[key] == chains[i][k] && Index(hash(key), |chains|) == i
  }

  /** The node of `key` is in the chain of its own bucket, once. */
  ghost predicate Placed(nodes: Nodes, chains: Chains, hash: Key -> int, key: Key) {
    && key in nodes && nodes[key].key == key && |chains| > 0
    && 0 <= Index(hash(key), |chains|) < |chains|
    && Once(chains[Index(hash(key), |chains|)], nodes[key])
  }

  ghost predicate Once(w: seq<HashBucket>, o: HashBucket) {
    o in w && forall j, k | 0 <= j < k < |w| :: !(w[j] == o && w[k] == o)
  }

  ghost predicate Shape(nodes: Nodes, chains: Chains, hash: Key -> int) {
    && (forall i, k | 0 <= i < |chains| && 0 <= k < |chains[i]| :: InPlace(nodes, chains, hash, i, k))
    && (forall key | key in nodes :: Placed(nodes, chains, hash, key))
  }

  ghost predicate Listed(nodes: Nodes, all: seq<HashBucket>) {
    && (forall key | key in nodes :: nodes[key] in all && nodes[key].key == key)
    && forall o | o in all :: o.key in nodes && nodes[o.key] == o
  }

  lemma ShapeFind(nodes: Nodes, chains: Chains, hash: Key -> int, key: Key)
    requires Shape(nodes, chains, hash) && key in nodes
    ensures |chains| > 0 && var i := Index(hash(key), |chains|); 0 <= i < |chains| && exists k :: 0 <= k < |chains[i]| && chains[i][k].key == key
  {
    assert Placed(nodes, chains, hash, key);
  }

  lemma ShapeNode(nodes: Nodes, chains: Chains, hash: Key -> int, i: nat, k: nat)
    requires Shape(nodes, chains, hash) && i < |chains| && k < |chains[i]|
    ensures chains[i][k].key in nodes && nodes[chains[i][k].key] == chains[i][k]
  {
    assert InPlace(nodes, chains, hash, i, k);
  }

  lemma ShapeGrows(nodes: Nodes, chains: Chains, hash: Key -> int, i: nat, q: HashBucket)
    requires Shape(nodes, chains, hash) && i < |chains| && Index(hash(q.key), |chains|) == i && q.key !in nodes
    ensures Shape(nodes[q.key := q], chains[i := [q] + chains[i]], hash)
  {
    hide InPlace, Placed, Index;
    var ns, cs := nodes[q.key := q], chains[i := [q] + chains[i]];
    forall b, k | 0 <= b < |cs| && 0 <= k < |cs[b]| ensures InPlace(ns, cs, hash, b, k) {
      StaysInPlace(nodes, chains, hash, i, q, b, k);
    }
    forall key | key in ns ensures Placed(ns, cs, hash, key) {
      StaysPlaced(nodes, chains, hash, i, q, key);
    }
  }

  lemma StaysInPlace(nodes: Nodes, chains: Chains, hash: Key -> int, i: nat, q: HashBucket, b: nat, k: nat)
    requires i < |chains| && Index(hash(q.key), |chains|) == i && q.key !in nodes
    requires b < |chains| && forall j | 0 <= j < |chains[b]| :: InPlace(nodes, chains, hash, b, j)
    requires k < |chains[i := [q] + chains[i]][b]|
    ensures InPlace(nodes[q.key := q], chains[i := [q] + chains[i]], hash, b, k)
  {
    hide Index;
    var cs := chains[i := [q] + chains[i]];
    if b == i && k == 0 {
      assert cs[b][k] == q;
    } else {
      var j := if b == i then k - 1 else k;
      assert cs[b][k] == chains[b][j] && InPlace(nodes, chains, hash, b, j);
    }
  }

  lemma StaysPlaced(nodes: Nodes, chains: Chains, hash: Key -> int, i: nat, q: HashBucket, key: Key)
    requires Shape(nodes, chains, hash) && i < |chains| && Index(hash(q.key), |chains|) == i && q.key !in nodes
    requires key == q.key || key in nodes
    ensures Placed(nodes[q.key := q], chains[i := [q] + chains[i]], hash, key)
  {
    hide Index;
    var w := [q] + chains[i];
    if key == q.key {
      forall j | 0 <= j < |chains[i]| ensures chains[i][j] != q {
        ShapeNode(nodes, chains, hash, i, j);
      }
      assert forall j | 1 <= j < |w| :: w[j] == chains[i][j - 1];
      assert w[0] == q;
    } else {
      assert Placed(nodes, chains, hash, key) && nodes[key] != q;
      assert forall j | 1 <= j < |w| :: w[j] == chains[i][j - 1];
      var b := Index(hash(key), |chains|);
      if b == i {
        var k :| 0 <= k < |chains[i]| && chains[i][k] == nodes[key];
        assert w[k + 1] == nodes[key];
      }
    }
  }

  /** The caller's hash, or the default one. */
  function Chosen(custom: Option<Key -> int>): (hash: Key -> int)
    ensures custom.None? ==> forall key :: hash(key) == Hash(key)
  {
    match custom
    case Some(f) => f
    case None => (key: Key) => Hash(key)
  }

  class HashMap {
    const buckets: array<HashBucket?>
    const hashingFunction: Key -> int
    ghost var nodes: Nodes              // the node of every key
    ghost var chains: Chains            // the list of every bucket, head first
    ghost var all: seq<HashBucket>      // every node

    ghost predicate Linked()
      reads `nodes, `chains, `all, buckets, all`next
    {
      && Listed(nodes, all) && Shape(nodes, chains, hashingFunction) && |chains| == buckets.Length > 0
      && forall i | 0 <= i < |chains| :: Inside(chains[i], all) && Chain(buckets[i], chains[i])
    }

    ghost function AsMap(): Content
      requires Listed(nodes, all)
      reads `nodes, `all, all`value
    {
      map key | key in nodes :: nodes[key].value
    }

    /** The key's bucket is in the array. */
    lemma AsMapAt(key: Key)
      requires Linked() && Listed(nodes, all)
      ensures key in AsMap() <==> key in nodes
      ensures key in nodes ==> AsMap()[key] == nodes[key].value && nodes[key] in all
    {
    }

    ghost predicate Usable(key: Key) {
      buckets.Length > 0 && 0 <= Index(hashingFunction(key), buckets.Length) < buckets.Length
    }

    constructor (bucketsSize: int, custom: Option<Key -> int>)
      requires bucketsSize > 0
      ensures all == [] && Linked() && Listed(nodes, all) && AsMap() == map[] && fresh(buckets) && buckets.Length == bucketsSize
      ensures hashingFunction == Chosen(custom)
    {
      buckets := new HashBucket?[bucketsSize](_ => null);
      hashingFunction := Chosen(custom);
      nodes, chains, all := map[], seq(bucketsSize, _ => []), [];
    }

    lemma Ready(i: nat)
      requires Linked() && i < buckets.Length
      ensures Listed(nodes, all) && Shape(nodes, chains, hashingFunction) && |chains| == buckets.Length && Chain(buckets[i], chains[i])
    {
    }

    ghost predicate IsIndex(i: nat, key: Key) {
      i < buckets.Length && i == Index(hashingFunction(key), buckets.Length)
    }

    method FindHead(key: Key) returns (i: nat)
      requires Usable(key)
      ensures IsIndex(i, key)
    {
      i := Rem(hashingFunction(key), buckets.Length);
    }

    /** The node of that key, if there is one. */
    method FindData(i: nat, key: Key) returns (ptr: HashBucket?)
      requires Linked() && IsIndex(i, key)
      ensures if ptr == null then key !in nodes else key in nodes && ptr == nodes[key]
    {
      hide Shape, Linked, Listed, Index;
      Ready(i);
      ghost var w, k := chains[i], 0;
      if key in nodes {
        ShapeFind(nodes, chains, hashingFunction, key);
      }
      ptr := buckets[i];
      while ptr != null
        invariant 0 <= k <= |w| && ptr == Node(w, k)
        invariant forall j | 0 <= j < k :: w[j].key != key
        decreases |w| - k
      {
        if key == ptr.key {
          ShapeNode(nodes, chains, hashingFunction, i, k);
          return ptr;
        }
        ptr := ptr.next;
        k := k + 1;
      }
    }

    method Exists(key: Key) returns (found: bool)
      requires Linked() && Listed(nodes, all) && Usable(key)
      ensures found == (key in AsMap())
    {
      hide Linked, Listed, Index;
      var i := FindHead(key);
      var ptr := FindData(i, key);
      AsMapAt(key);
      found := ptr != null;
    }

    method Get(key: Key) returns (value: Option<nat>)
      requires Linked() && Listed(nodes, all) && Usable(key)
      ensures value == Held(AsMap(), key) && (key in AsMap() ==> value == AsMap()[key]) && (key !in AsMap() ==> value == None)
    {
      hide Linked, Listed, Index, AsMap;
      var i := FindHead(key);
      var ptr := FindData(i, key);
      AsMapAt(key);
      value := None;
      if ptr != null {
        value := ptr.value;
      }
    }

    /** A new node in front of its bucket. */
    method Insert(i: nat, key: Key, value: Option<nat>)
      requires Linked() && Listed(nodes, all) && IsIndex(i, key) && key !in nodes
      modifies `nodes, `chains, `all, buckets
      ensures Linked() && Listed(nodes, all) && AsMap() == old(AsMap())[key := value]
      ensures forall o | o in all :: o in old(all) || fresh(o)
    {
      hide Shape, Listed, AsMap, Index, Node, Linked;
      Ready(i);
      var ptr := new HashBucket(key, value, buckets[i]);
      ChainPush(ptr, chains[i]);
      ShapeGrows(nodes, chains, hashingFunction, i, ptr);
      ListedGrows(nodes, all, ptr);
      buckets[i] := ptr;
      chains := chains[i := [ptr] + chains[i]];
      nodes := nodes[key := ptr];
      all := all + [ptr];
      LinkedGrows(ptr);
      MapGrows(ptr);
    }

    twostate lemma LinkedGrows(new q: HashBucket)
      requires old(Linked()) && Listed(nodes, all) && Shape(nodes, chains, hashingFunction) && all == old(all) + [q]
      requires buckets.Length > 0 && var i := Index(hashingFunction(q.key), buckets.Length);
               && 0 <= i < |old(chains)| && chains == old(chains)[i := [q] + old(chains)[i]] && buckets[i] == q && Chain(q, chains[i])
               && forall b | 0 <= b < |chains| && b != i :: buckets[b] == old(buckets[b])
      requires forall o | o in old(all) :: o.next == old(o.next)
      ensures Linked()
    {
      hide Shape, Listed, Index, Node;
      forall b | 0 <= b < |chains| ensures Inside(chains[b], all) && Chain(buckets[b], chains[b]) {
        assert old(Inside(chains[b], all) && Chain(buckets[b], chains[b]));
      }
    }

    twostate lemma MapGrows(new q: HashBucket)
      requires Listed(old(nodes), old(all)) && q.key !in old(nodes) && nodes == old(nodes)[q.key := q] && all == old(all) + [q]
      requires forall o | o in old(all) :: o.value == old(o.value)
      ensures Listed(nodes, all) && AsMap() == old(AsMap())[q.key := q.value]
    {
    }

    /** Keeps what the key holds; the answer is what it held before. */
    method PutIfAbsent(key: Key, value: Option<nat>) returns (origin: Option<nat>)
      requires Linked() && Listed(nodes, all) && Usable(key)
      modifies this, buckets
      ensures Linked() && Listed(nodes, all) && forall o | o in all :: o in old(all) || fresh(o)
      ensures AsMap() == Done(old(AsMap()), PutAbsent(key, value)) && origin == Held(old(AsMap()), key)
      ensures if key in old(AsMap()) then origin == old(AsMap())[key] else origin == None
    {
      hide Linked, Listed, Index, AsMap;
      origin := None;
      var i := FindHead(key);
      var ptr := FindData(i, key);
      AsMapAt(key);
      if ptr != null {
        origin := ptr.value;
      } else {
        Insert(i, key, value);
      }
    }

    /** Puts the value whatever the key held; the answer is what it held before. */
    method OverwritePut(key: Key, value: Option<nat>) returns (origin: Option<nat>)
      requires Linked() && Listed(nodes, all) && Usable(key)
      modifies this, buckets, all
      ensures Linked() && Listed(nodes, all) && forall o | o in all :: o in old(all) || fresh(o)
      ensures AsMap() == Done(old(AsMap()), Put(key, value)) && origin == Held(old(AsMap()), key)
      ensures if key in old(AsMap()) then origin == old(AsMap())[key] else origin == None
    {
      hide Linked, Listed, Index, AsMap;
      origin := None;
      var i := FindHead(key);
      var ptr := FindData(i, key);
      AsMapAt(key);
      if ptr != null {
        origin := ptr.value;
        SetValue(ptr, key, value);
      } else {
        Insert(i, key, value);
      }
    }

    method SetValue(ptr: HashBucket, ghost key: Key, value: Option<nat>)
      requires Linked() && Listed(nodes, all) && key in nodes && ptr == nodes[key]
      modifies ptr`value
      ensures Linked() && AsMap() == old(AsMap())[key := value]
    {
      hide Linked;
      assert forall k | k in nodes && k != key :: nodes[k].key == k && nodes[k] != ptr;
      ptr.value := value;
      assert AsMap().Keys == old(AsMap()).Keys;
    }
  }

  /** What a caller sees: a key without a value looks like an absent one. */
  function Held(m: Content, key: Key): Option<nat> {
    if key in m then m[key] else None
  }

  lemma ListedGrows(nodes: Nodes, all: seq<HashBucket>, q: HashBucket)
    requires Listed(nodes, all) && q.key !in nodes
    ensures Listed(nodes[q.key := q], all + [q])
  {
  }

  ghost predicate Inside(w: seq<HashBucket>, all: seq<HashBucket>) {
    forall k | 0 <= k < |w| :: w[k] in all
  }

  /** After any operations the table is the map they make. */
  method RunAll(bucketsSize: int, custom: Option<Key -> int>, ops: seq<Op>) returns (table: HashMap)
    requires bucketsSize > 0 && forall i | 0 <= i < |ops| :: 0 <= Index(Chosen(custom)(ops[i].key), bucketsSize) < bucketsSize
    ensures table.Linked() && Listed(table.nodes, table.all) && table.AsMap() == Run(ops)
  {
    hide HashMap.Linked, HashMap.AsMap, Listed, Done, Index, Chosen;
    table := new HashMap(bucketsSize, custom);
    for i := 0 to |ops|
      invariant fresh(table) && fresh(table.buckets) && forall k | 0 <= k < |table.all| :: fresh(table.all[k])
      invariant table.buckets.Length == bucketsSize && table.hashingFunction == Chosen(custom)
      invariant table.Linked() && Listed(table.nodes, table.all) && table.AsMap() == Run(ops[..i])
    {
      ghost var was := table.all;
      assert ops[..i + 1][..i] == ops[..i];
      match ops[i] {
        case Put(key, value) => var _ := table.OverwritePut(key, value);
        case PutAbsent(key, value) => var _ := table.PutIfAbsent(key, value);
      }
      assert forall k | 0 <= k < |table.all| :: table.all[k] in was ==> exists j :: 0 <= j < |was| && was[j] == table.all[k];
    }
    assert ops[..|ops|] == ops;
  }
}
