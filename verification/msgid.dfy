// Deterministic message ids: a source message's id comes from the client, its stream and
// its number, a derived message's id from its parent. Every preimage can be read back.
module MsgIds {
  import opened Bytes
  import opened Dedup
  import opened StringOrder

  /** hash16, SHA-256 cut to 16 bytes, is only ever assumed to be a function. */
  type Hash = Bytes -> MsgId

  /** The idealisation the counts rest on: no two preimages in use collide. */
  ghost predicate InjectiveOn(hash: Hash, used: set<Bytes>) {
    forall a <- used, b <- used :: hash(a) == hash(b) ==> a == b
  }

  function SourcePreimage(client: Bytes, stream: byte, number: nat): Bytes {
    client + [stream] + BigEndian(number, 8)
  }

  function Field(s: Bytes): Bytes {
    BigEndian(|s|, 4) + s
  }

  function DerivePreimage(parent: MsgId, disc: Bytes, index: nat): Bytes {
    parent + Field(disc) + BigEndian(index, 4)
  }

  function StagePreimage(client: Bytes, stage: Bytes, disc: Bytes, index: nat): Bytes {
    client + Field(stage) + Field(disc) + BigEndian(index, 4)
  }

  function SourceMsgId(hash: Hash, client: Bytes, stream: byte, number: nat): MsgId {
    hash(SourcePreimage(client, stream, number))
  }

  function DeriveMsgId(hash: Hash, parent: MsgId, disc: Bytes, index: nat): MsgId {
    hash(DerivePreimage(parent, disc, index))
  }

  function StageMsgId(hash: Hash, client: Bytes, stage: Bytes, disc: Bytes, index: nat): MsgId {
    hash(StagePreimage(client, stage, disc, index))
  }

  /** The preimages field by field: a client's 16 bytes, the stream, the number in eight bytes. */
  lemma SourceLayout(client: Bytes, stream: byte, number: nat)
    requires |client| == 16
    ensures var b := SourcePreimage(client, stream, number);
            |b| == 25 && b[..16] == client && b[16] == stream && b[17..] == BigEndian(number, 8)
  {
    hide BigEndian;
  }

  /** The parent's 16 bytes, the discriminator behind its length, the index in four bytes. */
  lemma DeriveLayout(parent: MsgId, disc: Bytes, index: nat)
    ensures var (b, n) := (DerivePreimage(parent, disc, index), 20 + |disc|);
            && |b| == n + 4 && b[..16] == parent && b[16..20] == BigEndian(|disc|, 4)
            && b[20..n] == disc && b[n..] == BigEndian(index, 4)
  {
    hide BigEndian;
  }

  /** The client's 16 bytes, stage and discriminator each behind its length, the index in four bytes. */
  lemma StageLayout(client: Bytes, stage: Bytes, disc: Bytes, index: nat)
    requires |client| == 16
    ensures var (b, m, n) := (StagePreimage(client, stage, disc, index), 20 + |stage|, 24 + |stage| + |disc|);
            && |b| == n + 4 && b[..16] == client && b[16..20] == BigEndian(|stage|, 4) && b[20..m] == stage
            && b[m..m + 4] == BigEndian(|disc|, 4) && b[m + 4..n] == disc && b[n..] == BigEndian(index, 4)
  {
    hide BigEndian;
  }

  lemma SplitPrefix(a: Bytes, b: Bytes, x: Bytes, y: Bytes)
    requires |a| == |b| && a + x == b + y
    ensures a == b && x == y
  {
    assert (a + x)[..|a|] == a && (b + y)[..|b|] == b;
    assert (a + x)[|a|..] == x && (b + y)[|b|..] == y;
  }

  lemma FixedInjective(m: nat, n: nat, limit: nat, w: nat)
    requires m < limit && n < limit && limit == Pow256(w) && BigEndian(m, w) == BigEndian(n, w)
    ensures m == n
  {
    hide BigEndian, FromBigEndian, Pow256;
    BigEndianRead(m, w);
    BigEndianRead(n, w);
  }

  /** A length-prefixed string can be told from what follows it. */
  lemma FieldInjective(s: Bytes, t: Bytes, x: Bytes, y: Bytes)
    requires |s| < U32_LIMIT && |t| < U32_LIMIT && Field(s) + x == Field(t) + y
    ensures s == t && x == y
  {
    hide BigEndian;
    assert BigEndian(|s|, 4) + (s + x) == BigEndian(|t|, 4) + (t + y) by {
      assert Field(s) + x == BigEndian(|s|, 4) + (s + x);
      assert Field(t) + y == BigEndian(|t|, 4) + (t + y);
    }
    SplitPrefix(BigEndian(|s|, 4), BigEndian(|t|, 4), s + x, t + y);
    Widths();
    FixedInjective(|s|, |t|, U32_LIMIT, 4);
    SplitPrefix(s, t, x, y);
  }

  /** Two source ids are the same only for the same client, stream and number. */
  lemma SourceInjective(hash: Hash, client: Bytes, stream: byte, number: nat, client': Bytes, stream': byte,
                        number': nat)
    requires |client| == |client'| == 16 && number < U64_LIMIT && number' < U64_LIMIT
    requires InjectiveOn(hash, {SourcePreimage(client, stream, number), SourcePreimage(client', stream', number')})
    requires SourceMsgId(hash, client, stream, number) == SourceMsgId(hash, client', stream', number')
    ensures client == client' && stream == stream' && number == number'
  {
    hide BigEndian;
    assert SourcePreimage(client, stream, number) == SourcePreimage(client', stream', number');
    SplitPrefix(client + [stream], client' + [stream'], BigEndian(number, 8), BigEndian(number', 8));
    SplitPrefix(client, client', [stream], [stream']);
    Widths();
    FixedInjective(number, number', U64_LIMIT, 8);
  }

  /** Messages derived from different parents, or with different discriminators or indices, never
      share a preimage: "ab" with one index cannot pass for "a" with another. */
  lemma DeriveInjective(parent: MsgId, disc: Bytes, index: nat, parent': MsgId, disc': Bytes, index': nat)
    requires |disc| < U32_LIMIT && |disc'| < U32_LIMIT && index < U32_LIMIT && index' < U32_LIMIT
    requires DerivePreimage(parent, disc, index) == DerivePreimage(parent', disc', index')
    ensures parent == parent' && disc == disc' && index == index'
  {
    hide BigEndian, Field;
    assert parent + (Field(disc) + BigEndian(index, 4)) == parent' + (Field(disc') + BigEndian(index', 4)) by {
      assert DerivePreimage(parent, disc, index) == parent + (Field(disc) + BigEndian(index, 4));
      assert DerivePreimage(parent', disc', index') == parent' + (Field(disc') + BigEndian(index', 4));
    }
    SplitPrefix(parent, parent', Field(disc) + BigEndian(index, 4), Field(disc') + BigEndian(index', 4));
    FieldInjective(disc, disc', BigEndian(index, 4), BigEndian(index', 4));
    Widths();
    FixedInjective(index, index', U32_LIMIT, 4);
  }

  /** Two stage ids are the same only for the same client, stage, discriminator and index. */
  lemma StageInjective(hash: Hash, client: Bytes, stage: Bytes, disc: Bytes, index: nat,
                       client': Bytes, stage': Bytes, disc': Bytes, index': nat)
    requires InjectiveOn(hash, {StagePreimage(client, stage, disc, index),
                                StagePreimage(client', stage', disc', index')})
    requires |client| == |client'| == 16 && index < U32_LIMIT && index' < U32_LIMIT
    requires |stage| < U32_LIMIT && |stage'| < U32_LIMIT && |disc| < U32_LIMIT && |disc'| < U32_LIMIT
    requires StageMsgId(hash, client, stage, disc, index) == StageMsgId(hash, client', stage', disc', index')
    ensures client == client' && stage == stage' && disc == disc' && index == index'
  {
    hide BigEndian, Field;
    assert StagePreimage(client, stage, disc, index) == StagePreimage(client', stage', disc', index');
    var rest, rest' := Field(disc) + BigEndian(index, 4), Field(disc') + BigEndian(index', 4);
    assert client + (Field(stage) + rest) == client' + (Field(stage') + rest') by {
      assert StagePreimage(client, stage, disc, index) == client + (Field(stage) + rest);
      assert StagePreimage(client', stage', disc', index') == client' + (Field(stage') + rest');
    }
    SplitPrefix(client, client', Field(stage) + rest, Field(stage') + rest');
    FieldInjective(stage, stage', rest, rest');
    FieldInjective(disc, disc', BigEndian(index, 4), BigEndian(index', 4));
    Widths();
    FixedInjective(index, index', U32_LIMIT, 4);
  }

  /** The index is written in four bytes: two indices give the same id exactly when they agree modulo 2^32. */
  lemma DeriveIndexCollidesIff(hash: Hash, parent: MsgId, disc: Bytes, i: nat, j: nat)
    requires InjectiveOn(hash, {DerivePreimage(parent, disc, i), DerivePreimage(parent, disc, j)}) && |disc| < U32_LIMIT
    ensures DeriveMsgId(hash, parent, disc, i) == DeriveMsgId(hash, parent, disc, j) <==> i % U32_LIMIT == j % U32_LIMIT
  {
    var pre := parent + Field(disc);
    U32RoundTrip(i);
    U32RoundTrip(j);
    BigEndianWrite(BigEndian(i, 4));
    BigEndianWrite(BigEndian(j, 4));
    if DeriveMsgId(hash, parent, disc, i) == DeriveMsgId(hash, parent, disc, j) {
      assert DerivePreimage(parent, disc, i) == DerivePreimage(parent, disc, j);
      SplitPrefix(pre, pre, BigEndian(i, 4), BigEndian(j, 4));
    }
  }

  // ---------------------------------------------------------------- what the idealisation asks for

  function IndexIn<T(==)>(l: seq<T>, x: T): (i: nat)
    ensures i <= |l| && (x in l ==> i < |l| && l[i] == x)
  {
    if l == [] || l[0] == x then 0 else 1 + IndexIn(l[1..], x)
  }

  lemma {:induction false} ListedBelow(l: seq<nat>, n: nat)
    requires Unique(l) && forall x <- l :: x < n
    ensures |l| <= n
    decreases n
  {
    if l != [] {
      assert l[0] in l;
      var i := IndexIn(l, n - 1);
      var rest := if i < |l| then l[..i] + l[i + 1..] else l;
      forall x <- rest ensures x < n - 1 {
        assert x in l;
        if i < |l| {
          var k :| 0 <= k < |rest| && rest[k] == x;
          assert rest[k] == l[if k < i then k else k + 1];
        }
      }
      assert Unique(rest);
      ListedBelow(rest, n - 1);
    }
  }

  /** Numbering them gives as many preimages as there are ids an id each. */
  lemma HashExists(used: set<Bytes>) returns (hash: Hash)
    requires |used| <= Pow256(16)
    ensures InjectiveOn(hash, used)
  {
    hide BigEndian, FromBigEndian, Pow256;
    var l := SomeOrder(used);
    ListSize(l);
    hash := (b: Bytes) => BigEndian(IndexIn(l, b), 16);
    forall a <- used, b <- used | hash(a) == hash(b) ensures a == b {
      assert a in Elements(l) && b in Elements(l);
      FixedInjective(IndexIn(l, a), IndexIn(l, b), Pow256(16), 16);
    }
  }

  lemma {:induction false} ListSize<T(!new)>(l: seq<T>)
    requires Unique(l)
    ensures |l| == |Elements(l)|
  {
    if l != [] {
      var n := |l| - 1;
      ListSize(l[..n]);
      assert Elements(l) == Elements(l[..n]) + {l[n]};
      assert l[n] !in Elements(l[..n]);
    }
  }

  /** Some hash tells these preimages apart exactly if there are no more of them than ids. */
  lemma HashExistsIff(used: set<Bytes>)
    ensures (exists hash: Hash :: InjectiveOn(hash, used)) <==> |used| <= Pow256(16)
  {
    hide BigEndian, FromBigEndian, Pow256;
    if hash: Hash :| InjectiveOn(hash, used) {
      var l := SomeOrder(used);
      ListSize(l);
      var numbers := seq(|l|, i requires 0 <= i < |l| => FromBigEndian(hash(l[i])));
      forall i, j | 0 <= i < j < |numbers| ensures numbers[i] != numbers[j] {
        assert l[i] in Elements(l) && l[j] in Elements(l);
        BigEndianWrite(hash(l[i]));
        BigEndianWrite(hash(l[j]));
      }
      ListedBelow(numbers, Pow256(16));
    }
    if |used| <= Pow256(16) {
      var hash := HashExists(used);
    }
  }
}
