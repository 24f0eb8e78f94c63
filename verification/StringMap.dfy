// src/tb/string_map.h: the string map whose buckets hold sixteen entries and are doubled in number
// when one is three quarters full.

module StringMap {
  import opened Finite
  import opened Words

  type Byte = bv8
  type Key = seq<Byte>

  // NL_STRMAP_BUCKET_SIZE
  const BUCKET: nat := 16
  const THRESHOLD: nat := 12

  // ----- The hash -----

  // FNV1A; the product wraps round at 32 bits.
  function Fnv(key: Key): bv32
  {
    if key == [] then 0x811C9DC5 else Mix(key[|key| - 1], Fnv(key[..|key| - 1]))
  }

  function Mix(x: Byte, h: bv32): bv32
  {
    ((x as bv32) ^ h) * 0x01000193
  }

  // Published values of the hash: of nothing, of "a" and of "foobar".
  lemma FnvKnown()
    ensures Fnv([]) == 0x811C9DC5 && Fnv([0x61]) == 0xE40C292C
    ensures Fnv([0x66, 0x6F, 0x6F, 0x62, 0x61, 0x72]) == 0xBF9CF968
  {
    var s: Key := [0x66, 0x6F, 0x6F, 0x62, 0x61, 0x72];
    assert [0x61][..0] == [] && s[..0] == [];
    assert Fnv(s[..1]) == Mix(0x66, Fnv([])) by { assert s[..1][..0] == []; }
    assert Fnv(s[..2]) == Mix(0x6F, Fnv(s[..1])) by { assert s[..2][..1] == s[..1]; }
    assert Fnv(s[..3]) == Mix(0x6F, Fnv(s[..2])) by { assert s[..3][..2] == s[..2]; }
    assert Fnv(s[..4]) == Mix(0x62, Fnv(s[..3])) by { assert s[..4][..3] == s[..3]; }
    assert Fnv(s[..5]) == Mix(0x61, Fnv(s[..4])) by { assert s[..5][..4] == s[..4]; }
    assert Fnv(s) == Mix(0x72, Fnv(s[..5]));
  }

  function Number(h: bv32): (n: nat)
    ensures n < 0x1_0000_0000
  {
    h as nat
  }

  // The topmost `bits` bits of the hash.
  function BucketOf(key: Key, bits: nat): (b: nat)
    requires bits <= 32
    ensures b < Two(bits)
  {
    Top(Number(Fnv(key)), bits)
  }

  function Top(h: nat, bits: nat): (b: nat)
    requires h < 0x1_0000_0000 && bits <= 32
    ensures b < Two(bits)
  {
    TopBits(h, bits);
    Quotient(h, Two(32 - bits))
  }

  function Quotient(h: nat, d: nat): (q: nat)
    requires d > 0
    ensures q * d <= h
  {
    h / d
  }

  lemma TopBits(h: nat, bits: nat)
    requires h < 0x1_0000_0000 && bits <= 32
    ensures Quotient(h, Two(32 - bits)) < Two(bits)
  {
    TwoWord();
    TwoAdd(bits, 32 - bits);
    QuotientBelow(h, Two(bits), Two(32 - bits));
  }

  lemma QuotientBelow(h: nat, a: nat, b: nat)
    requires b > 0 && h < a * b
    ensures Quotient(h, b) < a
  {
    var q := Quotient(h, b);
    assert q * b <= h;
    if q >= a { Mono(a, q, b); }
  }

  // Twice as many buckets: bucket b is split into 2b and 2b + 1.
  lemma SplitBucket(key: Key, bits: nat)
    requires bits < 32
    ensures BucketOf(key, bits + 1) / 2 == BucketOf(key, bits)
  {
    hide Fnv, Number;
    var h, p := Number(Fnv(key)), Two(31 - bits);
    assert Two(32 - bits) == 2 * p;
    HalfQuotient(h, p);
  }

  lemma HalfQuotient(h: nat, p: nat)
    requires p > 0
    ensures h / p / 2 == h / (2 * p)
  {
    var q := h / p;
    var u, r := q / 2, q % 2;
    assert h == q * p + h % p;
    assert q * p == u * (2 * p) + r * p by {
      assert q == 2 * u + r;
      Doubled(u, r, p);
    }
    assert 0 <= r * p + h % p < 2 * p by { Mono(r, 1, p); Mono(0, r, p); }
    DivUnique(h, 2 * p, u, r * p + h % p);
  }

  lemma Doubled(u: nat, r: nat, p: nat)
    ensures (2 * u + r) * p == u * (2 * p) + r * p
  {
  }

  // nl_strmap__hash: clz(modulo - 1) is 32 - bits for a modulo of two to the bits.
  method Hash(key: Key, bits: nat) returns (b: nat)
    requires bits <= 32
    ensures b == BucketOf(key, bits)
  {
    hide Two, Mix, Number;
    var h: bv32 := 0x811C9DC5;
    var i: nat := 0;
    while i < |key|
      invariant i <= |key| && h == Fnv(key[..i])
    {
      assert key[..i + 1][..i] == key[..i];
      h := Mix(key[i], h);
      i := i + 1;
    }
    assert key[..i] == key;
    b := Top(Number(h), bits);
  }

  // ----- What a table holds -----

  datatype State = State(bits: nat, counts: seq<nat>, keys: seq<Key>, indices: seq<nat>, load: nat,
                         at: map<Key, nat>,      // the slot of every key
                         owner: seq<nat>)        // the slot of every value

  predicate Used(counts: seq<nat>, s: nat)
  {
    s / BUCKET < |counts| && s % BUCKET < counts[s / BUCKET]
  }

  ghost predicate SlotOk(t: State, s: nat)
    requires t.bits <= 32 && s < |t.keys| == |t.indices| && t.load == |t.owner|
  {
    && t.keys[s] in t.at && t.at[t.keys[s]] == s && BucketOf(t.keys[s], t.bits) == s / BUCKET
    && t.indices[s] < t.load && t.owner[t.indices[s]] == s
  }

  // Every key is in the bucket of its hash, and the value indices are a bijection from the used
  // slots to 0..load - 1.
  ghost predicate TableOk(t: State)
  {
    && t.bits <= 32 && |t.counts| == Two(t.bits) && |t.keys| == |t.indices| == BUCKET * |t.counts|
    && t.load == |t.owner| == |t.at|
    && (forall b: nat :: b < |t.counts| ==> t.counts[b] <= BUCKET)
    && (forall k: Key :: k in t.at ==> Used(t.counts, t.at[k]) && t.at[k] < |t.keys| && t.keys[t.at[k]] == k)
    && (forall v: nat :: v < t.load ==>
          Used(t.counts, t.owner[v]) && t.owner[v] < |t.keys| && t.indices[t.owner[v]] == v)
    && (forall s: nat :: s < |t.keys| && Used(t.counts, s) ==> SlotOk(t, s))
  }

  // There are no more values than slots, so that the value array is long enough.
  lemma LoadFits(t: State)
    requires TableOk(t)
    ensures t.load <= |t.keys|
  {
    hide Used, BucketOf;
    forall v: nat, w: nat | v < w < t.load ensures t.owner[v] != t.owner[w] {
    }
    DistinctBounded(t.owner, Range(|t.keys|));
  }

  lemma EmptyOk(t: State)
    requires t.bits <= 32 && |t.counts| == Two(t.bits) && |t.keys| == |t.indices| == BUCKET * |t.counts|
    requires (forall b: nat :: b < |t.counts| ==> t.counts[b] == 0) && t.load == 0 && t.at == map[] && t.owner == []
    ensures TableOk(t)
  {
  }

  // The entry of a new key goes behind the others of its bucket.
  ghost function Added(t: State, key: Key): State
    requires TableOk(t) && t.counts[BucketOf(key, t.bits)] < BUCKET
  {
    var b := BucketOf(key, t.bits);
    var s := BUCKET * b + t.counts[b];
    State(t.bits, t.counts[b := t.counts[b] + 1], t.keys[s := key], t.indices[s := t.load], t.load + 1,
          t.at[key := s], t.owner + [s])
  }

  lemma AddedUsed(t: State, key: Key)
    requires TableOk(t) && t.counts[BucketOf(key, t.bits)] < BUCKET
    ensures var b := BucketOf(key, t.bits); var s := BUCKET * b + t.counts[b];
            && s < |t.keys| && !Used(t.counts, s) && s / BUCKET == b
            && forall q: nat :: Used(Added(t, key).counts, q) <==> Used(t.counts, q) || q == s
  {
    var b := BucketOf(key, t.bits);
    var s := BUCKET * b + t.counts[b];
    assert s / BUCKET == b && s % BUCKET == t.counts[b];
    forall q: nat ensures Used(Added(t, key).counts, q) <==> Used(t.counts, q) || q == s {
      assert q == q / BUCKET * BUCKET + q % BUCKET;
    }
  }

  lemma AddedOk(t: State, key: Key)
    requires TableOk(t) && key !in t.at && t.counts[BucketOf(key, t.bits)] < BUCKET
    ensures TableOk(Added(t, key))
  {
    hide Used, BucketOf, Two, SlotOk;
    var u := Added(t, key);
    AddedUsed(t, key);
    forall q: nat | q < |u.keys| && Used(u.counts, q) ensures SlotOk(u, q) {
      AddedSlot(t, key, q);
    }
  }

  // Where the entry goes.
  lemma AddedPlace(t: State, key: Key)
    requires TableOk(t) && key !in t.at && t.bits <= 32 && BucketOf(key, t.bits) < |t.counts|
    requires t.counts[BucketOf(key, t.bits)] < BUCKET
    ensures TableOk(Added(t, key)) && |t.keys| == |t.indices|
    ensures var b := BucketOf(key, t.bits); var s := BUCKET * b + t.counts[b];
            && s < |t.keys|
            && Added(t, key) == State(t.bits, t.counts[b := t.counts[b] + 1], t.keys[s := key], t.indices[s := t.load],
                                      t.load + 1, t.at[key := s], t.owner + [s])
  {
    hide Used, BucketOf, Two, SlotOk;
    AddedOk(t, key);
    AddedUsed(t, key);
  }

  lemma AddedSlot(t: State, key: Key, q: nat)
    requires TableOk(t) && key !in t.at && t.counts[BucketOf(key, t.bits)] < BUCKET
    requires q < |t.keys| && Used(Added(t, key).counts, q)
    ensures SlotOk(Added(t, key), q)
  {
    hide BucketOf, Two;
    AddedUsed(t, key);
    hide Used;
    if q != BUCKET * BucketOf(key, t.bits) + t.counts[BucketOf(key, t.bits)] { assert SlotOk(t, q); }
  }

  // Entry i of bucket b.
  lemma Entry(t: State, b: nat, i: nat)
    requires TableOk(t) && b < |t.counts| && i < t.counts[b]
    ensures i < BUCKET && BUCKET * b + i < |t.keys| == |t.indices|
    ensures var s := BUCKET * b + i;
            && t.keys[s] in t.at && t.at[t.keys[s]] == s && BucketOf(t.keys[s], t.bits) == b && t.indices[s] < |t.keys|
  {
    hide BucketOf, Two;
    var s := BUCKET * b + i;
    assert s / BUCKET == b && s % BUCKET == i;
    assert SlotOk(t, s);
    LoadFits(t);
  }

  // A key is an entry of its bucket.
  lemma KeyEntry(t: State, key: Key)
    requires TableOk(t) && key in t.at
    ensures var b := BucketOf(key, t.bits);
            b < |t.counts| && BUCKET * b <= t.at[key] < BUCKET * b + t.counts[b] && t.counts[b] <= BUCKET
    ensures t.at[key] < |t.keys| == |t.indices| && t.keys[t.at[key]] == key && t.indices[t.at[key]] < t.load <= |t.keys|
  {
    hide BucketOf, Two;
    var s := t.at[key];
    assert s == BUCKET * (s / BUCKET) + s % BUCKET;
    assert SlotOk(t, s);
    LoadFits(t);
  }

  lemma Sizes(t: State)
    requires TableOk(t)
    ensures t.bits <= 32 && |t.counts| == Two(t.bits) && |t.keys| == |t.indices| == BUCKET * |t.counts|
    ensures forall b: nat :: b < |t.counts| ==> t.counts[b] <= BUCKET
    ensures forall key: Key :: BucketOf(key, t.bits) < |t.counts|
  {
    hide Two;
  }

  // ----- What a table means -----

  ghost function ValueAt<V>(t: State, values: seq<V>, k: Key): V
    requires TableOk(t) && k in t.at && |values| == |t.keys|
  {
    KeyEntry(t, k);
    values[t.indices[t.at[k]]]
  }

  ghost function Contents<V>(t: State, values: seq<V>): (m: map<Key, V>)
    requires TableOk(t) && |values| == |t.keys|
    ensures m.Keys == t.at.Keys && forall k: Key :: k in m ==> m[k] == ValueAt(t, values, k)
  {
    map k | k in t.at :: ValueAt(t, values, k)
  }

  // Adding a key leaves the values of the others alone.
  lemma AddedValue<V>(t: State, values: seq<V>, key: Key, x: V)
    requires TableOk(t) && key !in t.at && t.counts[BucketOf(key, t.bits)] < BUCKET && |values| == |t.keys|
    ensures TableOk(Added(t, key)) && t.load < |values|
    ensures ValueAt(Added(t, key), values[t.load := x], key) == x
    ensures forall k: Key :: k in t.at ==> ValueAt(Added(t, key), values[t.load := x], k) == ValueAt(t, values, k)
  {
    hide BucketOf, Two, Used, SlotOk;
    AddedOk(t, key);
    LoadFits(Added(t, key));
    AddedUsed(t, key);
    forall k: Key | k in t.at ensures ValueAt(Added(t, key), values[t.load := x], k) == ValueAt(t, values, k) {
      OldEntry(t, key, k);
    }
  }

  // A key that was there keeps its slot and its index, which is not the new one.
  lemma OldEntry(t: State, key: Key, k: Key)
    requires TableOk(t) && key !in t.at && t.counts[BucketOf(key, t.bits)] < BUCKET && k in t.at
    ensures var u := Added(t, key);
            && t.at[k] < |t.keys| == |t.indices| && k in u.at && u.at[k] == t.at[k] && |u.indices| == |t.indices|
            && u.indices[t.at[k]] == t.indices[t.at[k]] < t.load
  {
    hide BucketOf, Two, Used;
    AddedUsed(t, key);
    assert SlotOk(t, t.at[k]);
  }

  // ----- Doubling -----

  // n holds what stood before entry j of bucket i of t.
  ghost predicate Moved<V>(t: State, n: State, before: seq<V>, now: seq<V>, i: nat, j: nat)
  {
    && TableOk(t) && TableOk(n) && n.bits == t.bits + 1 <= 32 && |before| == |t.keys| && |now| == |n.keys|
    && i <= |t.counts| && j <= (if i < |t.counts| then t.counts[i] else 0)
    && KeysBelow(t.at, n.at, BUCKET * i + j) && ValuesKept(t, n, before, now)
    && (i < |t.counts| ==> FilledTo(n.counts, i, j))
  }

  ghost predicate KeysBelow(at: map<Key, nat>, moved: map<Key, nat>, s: nat)
  {
    forall k: Key :: k in moved <==> k in at && at[k] < s
  }

  ghost predicate ValuesKept<V>(t: State, n: State, before: seq<V>, now: seq<V>)
    requires TableOk(t) && TableOk(n) && |before| == |t.keys| && |now| == |n.keys|
  {
    forall k: Key :: k in n.at ==> k in t.at && ValueAt(n, now, k) == ValueAt(t, before, k)
  }

  // Buckets 2i and 2i + 1 hold the j entries moved from bucket i, and those behind them nothing.
  ghost predicate FilledTo(counts: seq<nat>, i: nat, j: nat)
  {
    && 2 * i + 1 < |counts| && counts[2 * i] + counts[2 * i + 1] == j
    && forall c: nat :: 2 * i + 2 <= c < |counts| ==> counts[c] == 0
  }

  lemma MoveStarts<V>(t: State, n: State, before: seq<V>, now: seq<V>)
    requires TableOk(t) && TableOk(n) && n.bits == t.bits + 1 <= 32 && |before| == |t.keys| && |now| == |n.keys|
    requires n.at == map[] && forall c: nat :: c < |n.counts| ==> n.counts[c] == 0
    ensures Moved(t, n, before, now, 0, 0)
  {
    hide TableOk, ValueAt;
    Sizes(t);
    Sizes(n);
    assert Two(t.bits + 1) == 2 * Two(t.bits);
  }

  // The assertion in nl_strmap__resize: the new bucket of an entry has room for it.
  lemma RoomToMove<V>(t: State, n: State, before: seq<V>, now: seq<V>, i: nat, j: nat)
    requires Moved(t, n, before, now, i, j) && i < |t.counts| && j < t.counts[i]
    ensures BUCKET * i + j < |t.keys| == |t.indices| && t.indices[BUCKET * i + j] < |before|
    ensures var key := t.keys[BUCKET * i + j];
            && key in t.at && key !in n.at && ValueAt(t, before, key) == before[t.indices[BUCKET * i + j]]
            && BucketOf(key, n.bits) / 2 == i && n.counts[BucketOf(key, n.bits)] < BUCKET
  {
    hide BucketOf, Two, TableOk, ValuesKept;
    Entry(t, i, j);
    SplitBucket(t.keys[BUCKET * i + j], t.bits);
    Sizes(t);
    Sizes(n);
    var b := BucketOf(t.keys[BUCKET * i + j], n.bits);
    assert b == 2 * i || b == 2 * i + 1;
  }

  lemma MovedSizes<V>(t: State, n: State, before: seq<V>, now: seq<V>, i: nat, j: nat)
    requires Moved(t, n, before, now, i, j)
    ensures n.bits <= 32 && |n.counts| == Two(n.bits) && forall key: Key :: BucketOf(key, n.bits) < |n.counts|
  {
    hide TableOk;
    Sizes(n);
  }

  lemma MoveOne<V>(t: State, n: State, before: seq<V>, now: seq<V>, i: nat, j: nat, key: Key)
    requires Moved(t, n, before, now, i, j) && i < |t.counts| && j < t.counts[i]
    requires BUCKET * i + j < |t.keys| && key == t.keys[BUCKET * i + j]
    requires key in t.at && key !in n.at && BucketOf(key, n.bits) / 2 == i && n.counts[BucketOf(key, n.bits)] < BUCKET
    ensures n.load < |now| && Moved(t, Added(n, key), before, now[n.load := ValueAt(t, before, key)], i, j + 1)
  {
    hide BucketOf, Two, TableOk, ValueAt, KeysBelow, FilledTo;
    Sizes(t);
    Sizes(n);
    AddedValue(n, now, key, ValueAt(t, before, key));
    FilledMore(n.counts, i, j, BucketOf(key, n.bits));
    KeysMore(t, n, i, j, key, Added(n, key).at[key]);
  }

  lemma FilledMore(counts: seq<nat>, i: nat, j: nat, b: nat)
    requires FilledTo(counts, i, j) && b / 2 == i && b < |counts|
    ensures FilledTo(counts[b := counts[b] + 1], i, j + 1)
  {
    assert b == 2 * i || b == 2 * i + 1;
  }

  lemma KeysMore(t: State, n: State, i: nat, j: nat, key: Key, s: nat)
    requires TableOk(t) && KeysBelow(t.at, n.at, BUCKET * i + j) && i < |t.counts| && j < t.counts[i]
    requires BUCKET * i + j < |t.keys| && key == t.keys[BUCKET * i + j]
    ensures KeysBelow(t.at, n.at[key := s], BUCKET * i + j + 1)
  {
    hide BucketOf, Two, TableOk;
    Entry(t, i, j);
    assert forall k: Key :: k in t.at ==> (t.at[k] == BUCKET * i + j ==> k == key) by {
      forall k: Key | k in t.at && t.at[k] == BUCKET * i + j ensures k == key { KeyEntry(t, k); }
    }
  }

  lemma MoveNext<V>(t: State, n: State, before: seq<V>, now: seq<V>, i: nat)
    requires i < |t.counts| && Moved(t, n, before, now, i, t.counts[i])
    ensures Moved(t, n, before, now, i + 1, 0)
  {
    hide BucketOf, Two, ValueAt, ValuesKept, TableOk, KeysBelow;
    Sizes(t);
    Sizes(n);
    TwoHalf(n.bits);
    KeysNext(t, n.at, i);
  }

  lemma KeysNext(t: State, moved: map<Key, nat>, i: nat)
    requires TableOk(t) && i < |t.counts| && KeysBelow(t.at, moved, BUCKET * i + t.counts[i])
    ensures KeysBelow(t.at, moved, BUCKET * (i + 1))
  {
    hide BucketOf, Two, TableOk;
    Sizes(t);
    forall k: Key | k in t.at ensures t.at[k] < BUCKET * i + t.counts[i] <==> t.at[k] < BUCKET * (i + 1) {
      KeyEntry(t, k);
    }
  }

  lemma MoveDone<V>(t: State, n: State, before: seq<V>, now: seq<V>)
    requires Moved(t, n, before, now, |t.counts|, 0)
    ensures TableOk(n) && n.bits == t.bits + 1 && n.load == t.load && Contents(n, now) == Contents(t, before)
  {
    hide BucketOf, Two, ValueAt, Used;
    forall k: Key | k in t.at ensures k in n.at {
    }
    assert n.at.Keys == t.at.Keys;
    assert |n.at| == |n.at.Keys| && |t.at| == |t.at.Keys|;
  }

  // ----- Room -----

  // The keys that share a bucket with the given one among two to the `bits` buckets.
  ghost function Sharing(t: State, key: Key, bits: nat): set<Key>
    requires bits <= 32
  {
    set k | k in t.at && BucketOf(k, bits) == BucketOf(key, bits)
  }

  // What the caller has to see to: the key is there, or fewer than sixteen keys share its bucket
  // once the table has been doubled, if it is going to be.
  ghost predicate Room(t: State, key: Key)
    requires t.bits <= 32 && BucketOf(key, t.bits) < |t.counts|
  {
    if t.counts[BucketOf(key, t.bits)] < THRESHOLD then true
    else t.bits < 32 && (key in t.at || |Sharing(t, key, t.bits + 1)| < BUCKET)
  }

  // The bucket stays full after doubling, and is not the last one: the new entry goes into the
  // next. Behind the last there is no slot, and a table of 2 to the 32 buckets is not doubled.
  ghost predicate Spills(t: State, key: Key)
    requires t.bits <= 32
  {
    t.bits < 32 && BucketOf(key, t.bits + 1) + 1 < 2 * |t.counts|
  }

  ghost function FirstKeys(t: State, b: nat, n: nat): (ks: set<Key>)
    requires TableOk(t) && b < |t.counts| && n <= t.counts[b]
    ensures |ks| == n && forall k: Key :: k in ks <==> k in t.at && BUCKET * b <= t.at[k] < BUCKET * b + n
  {
    if n == 0 then {}
    else
      Entry(t, b, n - 1);
      FirstKeysStep(t, b, n);
      FirstKeys(t, b, n - 1) + {t.keys[BUCKET * b + (n - 1)]}
  }

  lemma FirstKeysStep(t: State, b: nat, n: nat)
    requires TableOk(t) && b < |t.counts| && 0 < n <= t.counts[b]
    ensures BUCKET * b + (n - 1) < |t.keys|
    ensures forall k: Key :: k in t.at && t.at[k] == BUCKET * b + (n - 1) <==> k == t.keys[BUCKET * b + (n - 1)]
  {
    hide TableOk, BucketOf, Two;
    Entry(t, b, n - 1);
    forall k: Key | k in t.at && t.at[k] == BUCKET * b + (n - 1) ensures k == t.keys[BUCKET * b + (n - 1)] {
      KeyEntry(t, k);
    }
  }

  // The count of a bucket is the number of keys that share it.
  lemma CountIs(t: State, key: Key)
    requires TableOk(t)
    ensures var b := BucketOf(key, t.bits); b < |t.counts| && t.counts[b] == |Sharing(t, key, t.bits)|
  {
    hide TableOk, BucketOf, Two, FirstKeys;
    Sizes(t);
    var b := BucketOf(key, t.bits);
    var ks := FirstKeys(t, b, t.counts[b]);
    forall k: Key ensures k in ks <==> k in Sharing(t, key, t.bits) {
      if k in t.at {
        KeyEntry(t, k);
      }
    }
    assert ks == Sharing(t, key, t.bits);
  }

  ghost predicate HasIndex(t: State, k: Key, v: nat)
  {
    k in t.at && t.at[k] < |t.indices| && t.indices[t.at[k]] == v
  }

  ghost predicate Taken(t: State, v: nat)
  {
    exists k: Key :: HasIndex(t, k, v)
  }

  // The value indices are a bijection between the keys and 0..load - 1.
  lemma IndexBijection(t: State)
    requires TableOk(t)
    ensures t.load == |t.at|
    ensures forall k: Key :: k in t.at ==> t.at[k] < |t.indices| && t.indices[t.at[k]] < t.load
    ensures forall k: Key, l: Key, v: nat :: HasIndex(t, k, v) && HasIndex(t, l, v) ==> k == l
    ensures forall v: nat :: v < t.load ==> Taken(t, v)
  {
    hide BucketOf, Two, Used;
    forall k: Key | k in t.at ensures SlotOk(t, t.at[k]) {
    }
    forall v: nat | v < t.load ensures Taken(t, v) {
      assert SlotOk(t, t.owner[v]);
      assert HasIndex(t, t.keys[t.owner[v]], v);
    }
  }

  // Writing the value of one key.
  lemma OneValue<V>(t: State, values: seq<V>, key: Key, x: V)
    requires TableOk(t) && key in t.at && |values| == |t.keys|
    ensures t.at[key] < |t.indices| && t.indices[t.at[key]] < |values|
    ensures Contents(t, values[t.indices[t.at[key]] := x]) == Contents(t, values)[key := x]
  {
    hide TableOk, BucketOf, Two;
    IndexBijection(t);
    KeyEntry(t, key);
    forall k: Key | k in t.at
      ensures t.at[k] < |t.indices| && t.indices[t.at[k]] < |values|
      ensures (k != key ==> t.indices[t.at[k]] != t.indices[t.at[key]])
    {
      KeyEntry(t, k);
      assert HasIndex(t, k, t.indices[t.at[k]]) && HasIndex(t, key, t.indices[t.at[key]]);
    }
  }

  // With its value still to be set, a new key leaves the others as they are.
  lemma AddedSizes(t: State, key: Key)
    requires TableOk(t) && key !in t.at && BucketOf(key, t.bits) < |t.counts|
    requires t.counts[BucketOf(key, t.bits)] < BUCKET
    ensures var u := Added(t, key); TableOk(u) && |u.keys| == |u.indices| == |t.keys| && t.load < u.load <= |t.keys|
  {
    hide BucketOf, Two, Used, SlotOk;
    AddedOk(t, key);
    LoadFits(Added(t, key));
  }

  lemma AddedKeeps<V>(t: State, values: seq<V>, key: Key)
    requires TableOk(t) && t.bits <= 32 && key !in t.at && BucketOf(key, t.bits) < |t.counts|
    requires t.counts[BucketOf(key, t.bits)] < BUCKET
    requires |values| == |t.keys|
    ensures var u := Added(t, key); var s := BUCKET * BucketOf(key, t.bits) + t.counts[BucketOf(key, t.bits)];
            && TableOk(u) && |u.keys| == |u.indices| == |values| && u.at.Keys == t.at.Keys + {key} &&
              u.at[key] == s < |u.indices|
            && u.indices[s] == t.load < u.load <= |values|
            && forall k: Key :: k in t.at ==> ValueAt(u, values, k) == ValueAt(t, values, k)
  {
    hide TableOk, BucketOf, Two, ValueAt, Used, SlotOk, Added;
    AddedPlace(t, key);
    AddedSizes(t, key);
    AddedValue(t, values, key, values[t.load]);
    assert values[t.load := values[t.load]] == values;
  }

  // ----- A full bucket -----

  // All counted entries of a bucket can be read, if not all in the bucket itself.
  ghost predicate Scannable(t: State)
  {
    && t.bits <= 32 && |t.counts| == Two(t.bits) && |t.keys| == |t.indices|
    && forall b: nat :: b < |t.counts| ==> BUCKET * b + t.counts[b] <= |t.keys|
  }

  lemma TableScans(t: State)
    requires TableOk(t)
    ensures Scannable(t)
  {
    hide BucketOf, Two;
  }

  // The key is among the counted entries of its bucket.
  ghost predicate Sees(t: State, key: Key)
    requires t.bits <= 32
  {
    var b := BucketOf(key, t.bits);
    b < |t.counts| && exists s: nat :: BUCKET * b <= s < BUCKET * b + t.counts[b] && s < |t.keys| && t.keys[s] == key
  }

  lemma SeesAll(t: State, key: Key)
    requires TableOk(t)
    ensures Sees(t, key) <==> key in t.at
  {
    hide TableOk, Two, BucketOf;
    Sizes(t);
    if key in t.at { KeyEntry(t, key); }
    if Sees(t, key) {
      var b := BucketOf(key, t.bits);
      var s: nat :| BUCKET * b <= s < BUCKET * b + t.counts[b] && s < |t.keys| && t.keys[s] == key;
      Entry(t, b, s - BUCKET * b);
    }
  }

  // A new key whose bucket is full, but not the last one.
  ghost predicate Full(t: State, key: Key)
  {
    && TableOk(t) && key !in t.at && BucketOf(key, t.bits) + 1 < |t.counts|
    && t.counts[BucketOf(key, t.bits)] == BUCKET
  }

  // nl_strmap__insert does not look whether the bucket is full: the entry then goes to the first
  // slot of the next bucket.
  ghost function Spilled(t: State, key: Key): State
    requires Full(t, key)
  {
    Sizes(t);
    var b := BucketOf(key, t.bits);
    var s := BUCKET * b + BUCKET;
    t.(counts := t.counts[b := BUCKET + 1], keys := t.keys[s := key], indices := t.indices[s := t.load],
       load := t.load + 1)
  }

  lemma FullFits(t: State, key: Key)
    requires Full(t, key)
    ensures BUCKET * BucketOf(key, t.bits) + BUCKET < |t.keys| == |t.indices| && Scannable(Spilled(t, key))
  {
    hide BucketOf, Two;
    Sizes(t);
  }

  // The keys are then all still seen if and only if the next bucket was empty.
  lemma SpillKeeps(t: State, key: Key)
    requires Full(t, key)
    ensures Scannable(Spilled(t, key)) && Sees(Spilled(t, key), key)
    ensures (forall k: Key :: k in t.at ==> Sees(Spilled(t, key), k)) <==> t.counts[BucketOf(key, t.bits) + 1] == 0
  {
    hide TableOk, Two, BucketOf;
    Sizes(t);
    FullFits(t, key);
    var b, u := BucketOf(key, t.bits), Spilled(t, key);
    var s := BUCKET * b + BUCKET;
    assert u.keys[s] == key;
    if t.counts[b + 1] > 0 {
      Entry(t, b + 1, 0);
      var lost := t.keys[s];
      forall q: nat | s <= q < s + t.counts[b + 1] && q < |u.keys| ensures u.keys[q] != lost {
        Entry(t, b + 1, q - s);
      }
      assert !Sees(u, lost);
    } else {
      forall k: Key | k in t.at ensures Sees(u, k) {
        KeyEntry(t, k);
        assert u.keys[t.at[k]] == k;
      }
    }
  }

  // ----- The map -----

  class StringMap<V(0)> {
    var bits: nat
    var load: nat
    var buckets: array<nat>
    var keys: array<Key>
    var indices: array<nat>
    var values: array<V>
    ghost var at: map<Key, nat>
    ghost var owner: seq<nat>

    ghost function Now(): State
      reads this, buckets, keys, indices
    {
      State(bits, buckets[..], keys[..], indices[..], load, at, owner)
    }

    ghost predicate Valid()
      reads this, buckets, keys, indices, values
    {
      bits >= 1 && Apart() && values.Length == keys.Length && TableOk(Now())
    }

    // Four different arrays.
    ghost predicate Apart()
      reads this
    {
      var v: object := values;
      buckets != indices && v != buckets && v != keys && v != indices
    }

    ghost function Model(): map<Key, V>
      requires Valid()
      reads this, buckets, keys, indices, values
    {
      Contents(Now(), values[..])
    }

    // nl_strmap__alloc for two to the `bits` buckets.
    constructor (bits: nat)
      requires 1 <= bits <= 32
      ensures Valid() && Model() == map[] && this.bits == bits
      ensures fresh(buckets) && fresh(keys) && fresh(indices) && fresh(values)
    {
      var n := Two(bits);
      this.bits, load, at, owner := bits, 0, map[], [];
      buckets := new nat[n](_ => 0);
      keys := new Key[BUCKET * n](_ => []);
      indices := new nat[BUCKET * n];
      values := new V[BUCKET * n];
      new;
      EmptyOk(Now());
    }

    ghost function Parts(): set<object>
      reads this
    {
      {buckets, keys, indices, values}
    }

    ghost predicate SameArrays(buckets0: array<nat>, keys0: array<Key>, indices0: array<nat>, values0: array<V>)
      reads this
    {
      buckets == buckets0 && keys == keys0 && indices == indices0 && values == values0
    }

    // This table holds what stands before entry j of bucket i of the other.
    ghost predicate Growing(o: StringMap<V>, i: nat, j: nat)
      reads this, Parts(), o, o.Parts()
    {
      && o != this && o.Parts() !! Parts() && o.Valid() && Valid()
      && Moved(o.Now(), Now(), o.values[..], values[..], i, j)
    }

    lemma NothingMoved(o: StringMap<V>)
      requires o != this && o.Parts() !! Parts() && o.Valid() && Valid() && bits == o.bits + 1 <= 32 && Model() == map[]
      ensures Growing(o, 0, 0)
    {
      hide BucketOf, Two;
      assert at.Keys == {};
      assert at == map[];
      forall c: nat | c < buckets.Length ensures buckets[c] == 0 {
        if buckets[c] > 0 { Entry(Now(), c, 0); }
      }
      hide TableOk;
      MoveStarts(o.Now(), Now(), o.values[..], values[..]);
    }

    // All entries of bucket i of the old table.
    method MoveBucket(o: StringMap<V>, i: nat)
      requires Growing(o, i, 0) && i < o.buckets.Length
      modifies this, Parts()
      ensures SameArrays(old(buckets), old(keys), old(indices), old(values)) && o.Now() == old(o.Now())
      ensures o.values[..] == old(o.values[..])
      ensures Growing(o, i + 1, 0)
    {
      hide TableOk, Moved, BucketOf, Two;
      var j: nat := 0;
      while j < o.buckets[i]
        invariant j <= o.buckets[i] && Growing(o, i, j)
        invariant SameArrays(old(buckets), old(keys), old(indices), old(values)) && o.Now() == old(o.Now())
        invariant o.values[..] == old(o.values[..])
      {
        MoveEntry(o, i, j);
        j := j + 1;
      }
      MoveNext(o.Now(), Now(), o.values[..], values[..], i);
    }

    method MoveEntry(o: StringMap<V>, i: nat, j: nat)
      requires Growing(o, i, j) && i < o.buckets.Length && j < o.buckets[i]
      modifies this, Parts()
      ensures SameArrays(old(buckets), old(keys), old(indices), old(values)) && o.Now() == old(o.Now())
      ensures o.values[..] == old(o.values[..])
      ensures Growing(o, i, j + 1)
    {
      hide TableOk, Moved, BucketOf, Two, Added, ValueAt;
      ghost var t, n, before, now := o.Now(), Now(), o.values[..], values[..];
      RoomToMove(t, n, before, now, i, j);
      MovedSizes(t, n, before, now, i, j);
      var oldSlot := BUCKET * i + j;
      var oldKey := o.keys[oldSlot];
      MoveOne(t, n, before, now, i, j, oldKey);
      var bucket := Hash(oldKey, bits);
      var x := o.values[o.indices[oldSlot]];
      Place(bucket, oldKey);
      values[load - 1] := x;
      assert values[..] == now[n.load := ValueAt(t, before, oldKey)];
    }

    // A new entry behind those of its bucket; its value is still to be written.
    method Place(bucket: nat, key: Key)
      requires Valid() && bits <= 32 && bucket == BucketOf(key, bits) < buckets.Length && key !in at
      requires buckets[bucket] < BUCKET || bucket + 1 < buckets.Length
      modifies this, buckets, keys, indices
      ensures SameArrays(old(buckets), old(keys), old(indices), old(values)) && bits == old(bits)
      ensures load == old(load) + 1 && TableOk(old(Now()))
      ensures if old(buckets[bucket] < BUCKET) then Valid() && Now() == Added(old(Now()), key)
              else Full(old(Now()), key) && Now() == Spilled(old(Now()), key)
    {
      hide TableOk, BucketOf, Two, Added;
      Sizes(Now());
      if buckets[bucket] < BUCKET {
        AddedPlace(Now(), key);
      } else {
        FullFits(Now(), key);
      }
      ghost var t := Now();
      var slot := BUCKET * bucket + buckets[bucket];
      buckets[bucket] := buckets[bucket] + 1;
      keys[slot] := key;
      indices[slot] := load;
      load := load + 1;
      if t.counts[bucket] < BUCKET {
        at := at[key := slot];
        owner := owner + [slot];
      }
      assert buckets[..] == t.counts[bucket := t.counts[bucket] + 1];
      assert keys[..] == t.keys[slot := key];
      assert indices[..] == t.indices[slot := t.load];
    }

    // nl_strmap__resize: every entry moves to a table of twice the size.
    method Resize()
      requires Valid() && bits < 32
      modifies this
      ensures Valid() && bits == old(bits) + 1 && Model() == old(Model()) && load == old(load)
      ensures fresh(buckets) && fresh(keys) && fresh(indices) && fresh(values)
    {
      hide TableOk, Moved, BucketOf, Two, Contents, ValueAt, SlotOk, Used;
      var table := MovedTable();
      ghost var now, vs := table.Now(), table.values[..];
      bits, load, buckets, keys, indices, values :=
        table.bits, table.load, table.buckets, table.keys, table.indices, table.values;
      at, owner := table.at, table.owner;
      assert Now() == now && values[..] == vs;
    }

    // The new table.
    method MovedTable() returns (table: StringMap<V>)
      requires Valid() && bits < 32
      ensures fresh(table) && fresh(table.Parts()) && table.Valid()
      ensures table.bits == bits + 1 && table.load == load && table.Model() == Model()
    {
      hide TableOk, Moved, BucketOf, Two, Contents, ValueAt, Apart;
      table := new StringMap<V>(bits + 1);
      table.NothingMoved(this);
      var i: nat := 0;
      while i < buckets.Length
        invariant i <= buckets.Length && table.Growing(this, i, 0)
        invariant fresh(table) && fresh(table.Parts())
      {
        table.MoveBucket(this, i);
        i := i + 1;
      }
      MoveDone(Now(), table.Now(), values[..], table.values[..]);
    }

    // The bucket of the key is three quarters full, whether or not the key is in it.
    ghost predicate Crowded(key: Key)
      reads this, buckets
    {
      bits <= 32 && BucketOf(key, bits) < buckets.Length && 4 * buckets[BucketOf(key, bits)] >= 3 * 16
    }

    // nl_strmap__insert: the slot of the key and of its value. The value of a new key is not set.
    // Without room the entry goes behind its bucket; t is the table before that. Behind the last
    // bucket there is no slot: what the source writes to then is not part of its table.
    method Insert(key: Key) returns (ok: bool, slot: nat, valSlot: nat, ghost t: State)
      requires Valid() && (Room(Now(), key) || bits < 32)
      modifies this, buckets, keys, indices
      ensures ok <==> old(Room(Now(), key) || Spills(Now(), key))
      ensures !ok ==> Valid() && Model() == old(Model())
      ensures old(Room(Now(), key)) ==> Valid() && Inserted(old(Model()), old(load), key, slot, valSlot)
      ensures ok && !old(Room(Now(), key)) ==>
                Spilt(old(Model()), t, key) && Now() == Spilled(t, key) && valSlot == old(load)
      ensures ok ==> Apart() && valSlot < load <= values.Length == keys.Length
      ensures fresh(values) || values == old(values)
      ensures bits == old(bits) + if old(Crowded(key)) then 1 else 0
    {
      hide TableOk, BucketOf, Two, Room, Sharing, Valid, Model, Now;
      RoomMeans(key);
      var bucket := Hash(key, bits);
      if buckets[bucket] >= THRESHOLD {
        Double(key);
        bucket := Hash(key, bits);
      }
      t := Now();
      ok, slot, valSlot := FindOrPlace(bucket, key);
    }

    // The key has a slot for its value, and the values of the others are as they were.
    ghost predicate Inserted(was: map<Key, V>, load0: nat, key: Key, slot: nat, valSlot: nat)
      requires Valid()
      reads this, buckets, keys, indices, values
    {
      && Model().Keys == was.Keys + {key} && (forall k: Key :: k in was ==> Model()[k] == was[k])
      && (key !in was ==> valSlot == load0)
      && key in at && at[key] == slot < indices.Length && indices[slot] == valSlot < load
    }

    // t is a table with the same contents in which the bucket of the key is full.
    ghost predicate Spilt(was: map<Key, V>, t: State, key: Key)
      reads this, values
    {
      Full(t, key) && values.Length == |t.keys| && Contents(t, values[..]) == was
    }

    lemma RoomMeans(key: Key)
      requires Valid() && (Room(Now(), key) || bits < 32)
      ensures bits <= 32 && BucketOf(key, bits) < buckets.Length == Two(bits)
      ensures buckets[BucketOf(key, bits)] >= THRESHOLD ==>
                bits < 32 && (Room(Now(), key) <==> key in at || |Sharing(Now(), key, bits + 1)| < BUCKET)
      ensures buckets[BucketOf(key, bits)] < THRESHOLD ==> Room(Now(), key)
      ensures !Room(Now(), key) ==>
                bits < 32 && (Spills(Now(), key) <==> BucketOf(key, bits + 1) + 1 < 2 * buckets.Length)
    {
      hide BucketOf, Two, Sharing;
      Sizes(Now());
    }

    // Doubling makes room for the key, unless too many share its bucket even then.
    method Double(key: Key)
      requires Valid() && bits < 32
      modifies this
      ensures Valid() && Model() == old(Model()) && load == old(load)
      ensures bits == old(bits) + 1 && BucketOf(key, bits) < buckets.Length == 2 * old(buckets.Length)
      ensures at.Keys == old(at).Keys && load < keys.Length
      ensures buckets[BucketOf(key, bits)] == |Sharing(old(Now()), key, bits)|
      ensures fresh(buckets) && fresh(keys) && fresh(indices) && fresh(values)
    {
      hide TableOk, BucketOf, Two, ValueAt, Apart;
      ghost var was := Now();
      Sizes(was);
      LoadFits(was);
      Resize();
      Sizes(Now());
      CountIs(Now(), key);
      assert at.Keys == was.at.Keys;
      assert Sharing(Now(), key, bits) == Sharing(was, key, bits);
      TwoHalf(bits);
    }

    method FindOrPlace(bucket: nat, key: Key) returns (ok: bool, slot: nat, valSlot: nat)
      requires Valid() && bits <= 32 && bucket == BucketOf(key, bits) < buckets.Length
      requires key in at || buckets[bucket] < BUCKET || load < keys.Length
      modifies this, buckets, keys, indices
      ensures ok <==> old(key in at || buckets[bucket] < BUCKET || bucket + 1 < buckets.Length)
      ensures !ok ==> Valid() && Model() == old(Model())
      ensures old(key in at || buckets[bucket] < BUCKET) ==>
                Valid() && Inserted(old(Model()), old(load), key, slot, valSlot)
      ensures ok && !old(key in at || buckets[bucket] < BUCKET) ==>
                Spilt(old(Model()), old(Now()), key) && Now() == Spilled(old(Now()), key) && valSlot == old(load)
      ensures bits == old(bits) && values == old(values)
      ensures ok ==> Apart() && load <= values.Length == keys.Length && valSlot < load
    {
      hide TableOk, BucketOf, Two, ValueAt, Added;
      ghost var t, vs := Now(), values[..];
      Sizes(t);
      TableScans(t);
      var i := Scan(bucket, key);
      slot := BUCKET * bucket + i;
      if i < buckets[bucket] {
        KeyEntry(t, key);
        assert Model().Keys == old(Model()).Keys + {key};
        return true, slot, indices[slot];
      }
      if slot >= keys.Length {
        return false, slot, 0;
      }
      if buckets[bucket] < BUCKET { AddedKeeps(t, vs, key); }
      Place(bucket, key);
      assert values[..] == vs;
      ok, valSlot := true, load - 1;
    }

    // nl_strmap_put
    method Put(key: Key, value: V) returns (ok: bool, ghost t: State)
      requires Valid() && (Room(Now(), key) || bits < 32)
      modifies this, buckets, keys, indices, values
      ensures ok <==> old(Room(Now(), key) || Spills(Now(), key))
      ensures !ok ==> Valid() && Model() == old(Model())
      ensures old(Room(Now(), key)) ==> Valid() && Model() == old(Model())[key := value]
      ensures ok && !old(Room(Now(), key)) ==> Full(t, key) && t.at.Keys == old(at).Keys && Now() == Spilled(t, key)
      ensures bits == old(bits) + if old(Crowded(key)) then 1 else 0
    {
      hide TableOk, BucketOf, Two, ValueAt, Room, Sharing, Apart, Spills, Full, Spilled, Crowded, Contents;
      var slot, valSlot: nat;
      ok, slot, valSlot, t := Insert(key);
      if ok { StoreOne(key, value, valSlot); }
    }

    // The write of a value.
    method StoreOne(key: Key, value: V, valSlot: nat)
      requires Apart() && valSlot < values.Length
      modifies values
      ensures Now() == old(Now())
      ensures old(Valid() && HasIndex(Now(), key, valSlot)) ==> Valid() && Model() == old(Model())[key := value]
    {
      hide TableOk, BucketOf, Two, ValueAt, Contents;
      if Valid() && HasIndex(Now(), key, valSlot) { OneValue(Now(), values[..], key, value); }
      ghost var now := Now();
      values[valSlot] := value;
      assert Now() == now;
    }

    // nl_strmap__get: -1 when it does not see the key.
    method Get(key: Key) returns (r: int)
      requires Scannable(Now())
      ensures r < 0 <==> !Sees(Now(), key)
      ensures Valid() ==> (r < 0 <==> key !in Model())
      ensures Valid() && r >= 0 ==> r < values.Length && values[r] == Model()[key]
    {
      hide BucketOf, Two, TableOk;
      var bucket := Hash(key, bits);
      var i := Scan(bucket, key);
      if Valid() { SeesAll(Now(), key); }
      if i < buckets[bucket] {
        return indices[BUCKET * bucket + i];
      }
      return -1;
    }

    // The loop that looks for the key in its bucket.
    method Scan(bucket: nat, key: Key) returns (i: nat)
      requires Scannable(Now()) && bucket == BucketOf(key, bits)
      ensures bucket < buckets.Length && i <= buckets[bucket]
      ensures BUCKET * bucket + buckets[bucket] <= keys.Length == indices.Length
      ensures i < buckets[bucket] <==> Sees(Now(), key)
      ensures Valid() ==> (i < buckets[bucket] <==> key in at)
      ensures Valid() && i < buckets[bucket] ==>
                at[key] == BUCKET * bucket + i && indices[at[key]] < values.Length &&
                  values[indices[at[key]]] == Model()[key]
    {
      hide BucketOf, Two, TableOk;
      i := 0;
      while i < buckets[bucket] && keys[BUCKET * bucket + i] != key
        invariant i <= buckets[bucket]
        invariant forall s: nat :: BUCKET * bucket <= s < BUCKET * bucket + i ==> keys[s] != key
      {
        i := i + 1;
      }
      if Valid() {
        ScanMeans(Now(), key, bucket, i);
        if key in at { KeyEntry(Now(), key); }
        assert i < buckets[bucket] ==> Model()[key] == ValueAt(Now(), values[..], key);
      }
    }
  }

  // Where the scan of a bucket stops tells whether the key is there.
  lemma ScanMeans(t: State, key: Key, b: nat, i: nat)
    requires TableOk(t) && t.bits <= 32 && b == BucketOf(key, t.bits) < |t.counts| && i <= t.counts[b]
    requires BUCKET * b + t.counts[b] <= |t.keys|
    requires forall s: nat :: BUCKET * b <= s < BUCKET * b + i ==> t.keys[s] != key
    requires i < t.counts[b] ==> t.keys[BUCKET * b + i] == key
    ensures i < t.counts[b] <==> key in t.at
    ensures key in t.at ==> t.at[key] == BUCKET * b + i
  {
    hide BucketOf, Two, TableOk;
    if i < t.counts[b] { Entry(t, b, i); }
    if key in t.at { KeyEntry(t, key); }
  }
}
