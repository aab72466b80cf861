// Maps on the wire, and the envelope: EOF counts in sorted order, id counts in any order,
// and the header whose message id is stamped in after encoding.
module CountCodecs {
  import opened Bytes
  import opened Dedup
  import opened StringOrder
  import opened Codec

  // ---------------------------------------------------------------- 64-bit integers

  const I64_LIMIT: nat := 0x8000_0000_0000_0000

  type Int64 = x: int | -0x8000_0000_0000_0000 <= x < 0x8000_0000_0000_0000

  /** Two's complement. */
  function WriteInt64(v: Int64): (b: Bytes)
    ensures |b| == 8
  {
    BigEndian(if v < 0 then v + U64_LIMIT else v, 8)
  }

  function ReadInt64(data: Bytes): Read<Int64> {
    match ReadFull(data, 8)
    case None => None
    case Some((b, rest)) =>
      Widths();
      var n := FromBigEndian(b);
      Some((if n >= I64_LIMIT then n - U64_LIMIT else n, rest))
  }

  lemma Int64RoundTrip(v: Int64, rest: Bytes)
    ensures ReadInt64(WriteInt64(v) + rest) == Some((v, rest))
  {
    hide BigEndian, FromBigEndian;
    ReadFullRoundTrip(WriteInt64(v), rest);
    U64Exact(if v < 0 then v + U64_LIMIT else v);
  }

  // ---------------------------------------------------------------- EOF counts

  type EofCounts = map<Bytes, Int64>

  /** Go compares strings byte by byte. */
  function AsString(b: Bytes): string {
    seq(|b|, i requires 0 <= i < |b| => b[i] as char)
  }

  lemma AsStringInjective(a: Bytes, b: Bytes)
    requires AsString(a) == AsString(b)
    ensures a == b
  {
    assert |AsString(a)| == |AsString(b)|;
    forall i | 0 <= i < |a| ensures a[i] == b[i] {
      assert AsString(a)[i] == AsString(b)[i];
    }
  }

  function ValueOf(counts: EofCounts, k: Bytes): Int64 {
    if k in counts then counts[k] else 0
  }

  /** The entries of the listed keys; a key longer than its length byte can say is an error. */
  function EncodeEntries(keys: seq<Bytes>, counts: EofCounts): Option<Bytes> {
    if keys == [] then Some([])
    else match (WriteString(keys[0]), EncodeEntries(keys[1..], counts))
      case (Some(key), Some(rest)) => Some(key + WriteInt64(ValueOf(counts, keys[0])) + rest)
      case _ => None
  }

  function EncodeListed(keys: seq<Bytes>, counts: EofCounts): Option<Bytes> {
    match EncodeEntries(keys, counts)
    case Some(body) => Some(BigEndian(|keys|, 4) + body)
    case None => None
  }

  function DecodeEntries(data: Bytes, n: nat, acc: EofCounts): Option<EofCounts> {
    if n == 0 then Some(acc)
    else match ReadString(data)
      case None => None
      case Some((key, behind)) =>
        match ReadInt64(behind)
        case None => None
        case Some((value, rest)) => DecodeEntries(rest, n - 1, acc[key := value])
  }

  function DecodeEofCounts(data: Bytes): Option<EofCounts> {
    match ReadFull(data, 4)
    case None => None
    case Some((count, rest)) => DecodeEntries(rest, FromBigEndian(count), map[])
  }

  /** A key behind its length, then its count in eight bytes, negative ones from 2^64 down. */
  function EofEntry(key: Bytes, count: int): Bytes
    requires |key| <= 255
  {
    [|key|] + key + BigEndian(count % 0x1_0000_0000_0000_0000, 8)
  }

  lemma EntryIsWritten(key: Bytes, v: Int64)
    requires |key| <= 255
    ensures WriteString(key).Some? && WriteString(key).value + WriteInt64(v) == EofEntry(key, v)
  {
    hide BigEndian;
  }

  /** The number of entries in four bytes, then each entry. */
  lemma EofCountsLayout(keys: seq<Bytes>, counts: EofCounts)
    requires forall k <- keys :: |k| <= 255 && k in counts
    ensures EncodeListed(keys, counts) == Some(
              BigEndian(|keys|, 4)
              + Concat(seq(|keys|, i requires 0 <= i < |keys| => EofEntry(keys[i], counts[keys[i]]))))
  {
    hide BigEndian, EncodeEntries;
    EntriesLayout(keys, counts, seq(|keys|, i requires 0 <= i < |keys| => EofEntry(keys[i], counts[keys[i]])));
  }

  lemma {:induction false} EntriesLayout(keys: seq<Bytes>, counts: EofCounts, parts: seq<Bytes>)
    requires (forall k <- keys :: |k| <= 255 && k in counts) && |parts| == |keys|
    requires forall i :: 0 <= i < |keys| ==> parts[i] == EofEntry(keys[i], counts[keys[i]])
    ensures EncodeEntries(keys, counts) == Some(Concat(parts))
  {
    hide EofEntry, WriteString, WriteInt64;
    if keys != [] {
      EntriesLayout(keys[1..], counts, parts[1..]);
      assert keys[0] in keys;
      EntryIsWritten(keys[0], counts[keys[0]]);
      hide Concat;
      ConcatFront(parts);
    }
  }

  lemma {:induction false} ConcatFront(parts: seq<Bytes>)
    requires parts != []
    ensures Concat(parts) == parts[0] + Concat(parts[1..])
    decreases |parts|
  {
    var n := |parts| - 1;
    if n > 0 {
      ConcatFront(parts[..n]);
      assert parts[..n][1..] == parts[1..][..n - 1];
    } else {
      assert parts[..0] == [] && parts[1..] == [];
    }
  }

  lemma {:induction false} EntriesEncodeIff(keys: seq<Bytes>, counts: EofCounts)
    ensures EncodeEntries(keys, counts).Some? <==> forall k <- keys :: |k| <= 255
  {
    if keys != [] {
      EntriesEncodeIff(keys[1..], counts);
      assert keys == [keys[0]] + keys[1..];
    }
  }

  lemma DecodeOneEntry(key: Bytes, value: Int64, behind: Bytes, n: nat, acc: EofCounts)
    requires |key| <= 255 && n > 0
    ensures DecodeEntries([|key|] + key + (WriteInt64(value) + behind), n, acc)
            == DecodeEntries(behind, n - 1, acc[key := value])
  {
    ReadStringRoundTrip(key, WriteInt64(value) + behind);
    Int64RoundTrip(value, behind);
    hide ReadString, ReadInt64, WriteInt64;
  }

  /** The entries of a map. */
  function Entries(keys: seq<Bytes>, counts: EofCounts): EofCounts {
    map k | k in Elements(keys) :: ValueOf(counts, k)
  }

  lemma EntriesFront(keys: seq<Bytes>, counts: EofCounts, n: nat, acc: EofCounts)
    requires 0 < n <= |keys|
    ensures acc[keys[0] := ValueOf(counts, keys[0])] + Entries(keys[1..][..n - 1], counts)
            == acc + Entries(keys[..n], counts)
  {
    assert keys[..n] == [keys[0]] + keys[1..][..n - 1];
  }

  lemma {:induction false} DecodeEntriesRoundTrip(keys: seq<Bytes>, counts: EofCounts, n: nat, acc: EofCounts)
    requires EncodeEntries(keys, counts).Some? && n <= |keys|
    ensures DecodeEntries(EncodeEntries(keys, counts).value, n, acc) == Some(acc + Entries(keys[..n], counts))
    decreases n
  {
    if n == 0 {
      assert acc + Entries(keys[..0], counts) == acc;
    } else {
      var key, value := keys[0], ValueOf(counts, keys[0]);
      var rest := EncodeEntries(keys[1..], counts).value;
      assert |key| <= 255 && EncodeEntries(keys, counts).value == [|key|] + key + (WriteInt64(value) + rest);
      hide EncodeEntries, DecodeEntries, Entries;
      DecodeOneEntry(key, value, rest, n, acc);
      DecodeEntriesRoundTrip(keys[1..], counts, n - 1, acc[key := value]);
      EntriesFront(keys, counts, n, acc);
    }
  }

  lemma DecodedListing(keys: seq<Bytes>, counts: EofCounts, n: nat)
    requires Elements(keys) == counts.Keys && |keys| == |counts| && n <= |keys|
    ensures (map[] + Entries(keys[..n], counts) == counts) <==> n == |keys|
  {
    var decoded: EofCounts := map[] + Entries(keys[..n], counts);
    assert decoded.Keys == Elements(keys[..n]);
    if n == |keys| {
      assert keys[..n] == keys;
      assert decoded == counts;
    } else {
      assert |Elements(keys)| == |counts.Keys| == |keys|;
      ShorterListing(keys, n);
    }
  }

  /** EOF counts come back whole, from whatever order they were written in, exactly when their number fits 32 bits. */
  lemma EofCountsRoundTripIff(keys: seq<Bytes>, counts: EofCounts)
    requires Elements(keys) == counts.Keys && |keys| == |counts| && EncodeListed(keys, counts).Some?
    ensures DecodeEofCounts(EncodeListed(keys, counts).value) == Some(counts) <==> |counts| < U32_LIMIT
  {
    hide EncodeEntries, DecodeEntries, BigEndian, FromBigEndian;
    var body := EncodeEntries(keys, counts).value;
    var n := |keys| % U32_LIMIT;
    ReadFullRoundTrip(BigEndian(|keys|, 4), body);
    U32RoundTrip(|keys|);
    DecodeEntriesRoundTrip(keys, counts, n, map[]);
    DecodedListing(keys, counts, n);
    hide Entries, Elements;
    if |counts| < U32_LIMIT {
      assert n == |keys|;
    } else {
      assert n < |keys|;
    }
  }

  lemma {:induction false} ListingCard<T>(l: seq<T>)
    ensures |Elements(l)| <= |l|
  {
    if l != [] {
      ListingCard(l[1..]);
      assert l == [l[0]] + l[1..];
      assert Elements(l) == {l[0]} + Elements(l[1..]);
    }
  }

  lemma ShorterListing<T>(l: seq<T>, n: nat)
    requires n < |l| && |Elements(l)| == |l|
    ensures Elements(l[..n]) != Elements(l)
  {
    ListingCard(l[..n]);
  }

  /** The encoding is a function of the map alone. */
  lemma EofCountsDeterministic(keys: seq<Bytes>, keys': seq<Bytes>, counts: EofCounts)
    requires Elements(keys) == Elements(keys') == counts.Keys
    requires Ascending(keys, AsString) && Ascending(keys', AsString)
    ensures EncodeListed(keys, counts) == EncodeListed(keys', counts)
  {
    AscendingUnique(keys, keys', AsString);
  }

  lemma KeysAreDistinct(counts: EofCounts)
    ensures Distinct(counts.Keys, AsString)
  {
    forall a <- counts.Keys, b <- counts.Keys | AsString(a) == AsString(b) ensures a == b {
      AsStringInjective(a, b);
    }
  }

  lemma ListingsAgree(counts: EofCounts, keys: seq<Bytes>)
    requires Elements(keys) == counts.Keys && Ascending(keys, AsString)
    ensures forall l: seq<Bytes> ::
              Elements(l) == counts.Keys && Ascending(l, AsString) ==>
                EncodeListed(keys, counts) == EncodeListed(l, counts)
  {
    hide EncodeListed, Elements, Ascending;
    forall l: seq<Bytes> | Elements(l) == counts.Keys && Ascending(l, AsString)
      ensures EncodeListed(keys, counts) == EncodeListed(l, counts)
    {
      EofCountsDeterministic(keys, l, counts);
    }
  }

  method EncodeEofCounts(counts: EofCounts) returns (r: Option<Bytes>, ghost keys: seq<Bytes>)
    ensures Elements(keys) == counts.Keys && |keys| == |counts| && Ascending(keys, AsString)
    ensures r == EncodeListed(keys, counts)
    ensures forall l: seq<Bytes> ::
              Elements(l) == counts.Keys && Ascending(l, AsString) ==> r == EncodeListed(l, counts)
  {
    hide EncodeEntries, Elements, Ascending, Distinct, WriteInt64, BigEndian;
    KeysAreDistinct(counts);
    var sorted: seq<Bytes> := Sorted(counts.Keys, AsString);
    keys := sorted;
    var buf: Bytes := BigEndian(|counts|, 4);
    ListingsAgree(counts, sorted);
    assert sorted[0..] == sorted;
    for i := 0 to |sorted|
      invariant Continues(EncodeEntries(sorted[i..], counts), EncodeListed(sorted, counts), buf)
    {
      OneEntry(sorted, counts, i, EncodeListed(sorted, counts), buf);
      if |sorted[i]| > 255 {
        return None, keys;
      }
      KeyListed(sorted, counts, i);
      buf := buf + ([|sorted[i]|] + sorted[i] + WriteInt64(counts[sorted[i]]));
    }
    NoEntries(sorted, counts, buf);
    r := Some(buf);
  }

  /** The whole encoding is what is written so far and the rest of the entries. */
  ghost predicate Continues(rest: Option<Bytes>, whole: Option<Bytes>, buf: Bytes) {
    whole == match rest case None => None case Some(b) => Some(buf + b)
  }

  lemma OneEntry(keys: seq<Bytes>, counts: EofCounts, i: nat, whole: Option<Bytes>, buf: Bytes)
    requires i < |keys| && Continues(EncodeEntries(keys[i..], counts), whole, buf)
    ensures |keys[i]| > 255 ==> whole == None
    ensures |keys[i]| <= 255 ==>
              Continues(EncodeEntries(keys[i + 1..], counts), whole,
                  buf + ([|keys[i]|] + keys[i] + WriteInt64(ValueOf(counts, keys[i]))))
  {
    hide WriteInt64;
    assert keys[i..][1..] == keys[i + 1..] && keys[i..][0] == keys[i];
    if |keys[i]| <= 255 && EncodeEntries(keys[i + 1..], counts).Some? {
      var entry := [|keys[i]|] + keys[i] + WriteInt64(ValueOf(counts, keys[i]));
      var rest := EncodeEntries(keys[i + 1..], counts).value;
      assert buf + (entry + rest) == (buf + entry) + rest;
    }
  }

  lemma KeyListed(keys: seq<Bytes>, counts: EofCounts, i: nat)
    requires Elements(keys) == counts.Keys && i < |keys|
    ensures keys[i] in counts && ValueOf(counts, keys[i]) == counts[keys[i]]
  {
    assert keys[i] in Elements(keys);
  }

  lemma NoEntries(keys: seq<Bytes>, counts: EofCounts, buf: Bytes)
    ensures EncodeEntries(keys[|keys|..], counts) == Some([]) && buf + [] == buf
  {
  }

  // ---------------------------------------------------------------- id counts

  const ID_RECORD := 20

  /** encodeIDCounts for one order of the map; counts are cut to 32 bits. */
  function EncodeIds(ids: seq<MsgId>, counts: map<MsgId, nat>): (b: Bytes)
    ensures |b| == ID_RECORD * |ids|
  {
    if ids == [] then []
    else ids[0] + BigEndian(if ids[0] in counts then counts[ids[0]] else 0, 4) + EncodeIds(ids[1..], counts)
  }

  function DecodeIdsInto(data: Bytes, acc: map<MsgId, nat>): map<MsgId, nat> {
    if |data| < ID_RECORD then acc
    else DecodeIdsInto(data[ID_RECORD..], acc[data[..16] := FromBigEndian(data[16..ID_RECORD])])
  }

  function Cut(counts: map<MsgId, nat>): map<MsgId, nat> {
    map id <- counts :: counts[id] % U32_LIMIT
  }

  function CutListed(ids: seq<MsgId>, counts: map<MsgId, nat>): map<MsgId, nat> {
    map id | id in Elements(ids) :: (if id in counts then counts[id] else 0) % U32_LIMIT
  }

  lemma DecodeOneId(id: MsgId, count: nat, rest: Bytes, acc: map<MsgId, nat>)
    ensures DecodeIdsInto(id + BigEndian(count, 4) + rest, acc) == DecodeIdsInto(rest, acc[id := count % U32_LIMIT])
  {
    hide BigEndian, FromBigEndian;
    var data := id + BigEndian(count, 4) + rest;
    assert data[..16] == id && data[16..ID_RECORD] == BigEndian(count, 4) && data[ID_RECORD..] == rest;
    U32RoundTrip(count);
  }

  lemma {:induction false} DecodeListed(ids: seq<MsgId>, counts: map<MsgId, nat>, acc: map<MsgId, nat>)
    ensures DecodeIdsInto(EncodeIds(ids, counts), acc) == acc + CutListed(ids, counts)
  {
    if ids == [] {
      assert acc + CutListed([], counts) == acc;
    } else {
      var id := ids[0];
      var count := if id in counts then counts[id] else 0;
      DecodeOneId(id, count, EncodeIds(ids[1..], counts), acc);
      DecodeListed(ids[1..], counts, acc[id := count % U32_LIMIT]);
      hide EncodeIds, DecodeIdsInto, CutListed;
      CutFront(ids, counts, acc);
    }
  }

  lemma CutFront(ids: seq<MsgId>, counts: map<MsgId, nat>, acc: map<MsgId, nat>)
    requires ids != []
    ensures var count := if ids[0] in counts then counts[ids[0]] else 0;
            acc[ids[0] := count % U32_LIMIT] + CutListed(ids[1..], counts) == acc + CutListed(ids, counts)
  {
    assert ids == [ids[0]] + ids[1..];
    assert Elements(ids) == {ids[0]} + Elements(ids[1..]);
  }

  /** Id counts come back whole, from any iteration order, exactly when every count fits 32 bits. */
  lemma IdCountsRoundTripIff(ids: seq<MsgId>, counts: map<MsgId, nat>)
    requires Elements(ids) == counts.Keys
    ensures DecodeIdsInto(EncodeIds(ids, counts), map[]) == counts <==> forall id <- counts :: counts[id] < U32_LIMIT
  {
    DecodeListed(ids, counts, map[]);
    hide EncodeIds, DecodeIdsInto;
    var decoded: map<MsgId, nat> := map[] + CutListed(ids, counts);
    assert decoded.Keys == counts.Keys;
    if forall id <- counts :: counts[id] < U32_LIMIT {
      assert decoded == counts;
    } else {
      var id :| id in counts && counts[id] >= U32_LIMIT;
      assert decoded[id] == counts[id] % U32_LIMIT != counts[id];
    }
  }

  lemma CutAll(ids: seq<MsgId>, counts: map<MsgId, nat>)
    requires Elements(ids) == counts.Keys
    ensures map[] + CutListed(ids, counts) == Cut(counts)
  {
  }

  lemma EncodeNoIds(counts: map<MsgId, nat>)
    ensures EncodeIds([], counts) == []
  {
  }

  method EncodeIdCounts(counts: map<MsgId, nat>) returns (buf: Bytes, ghost ids: seq<MsgId>)
    ensures Elements(ids) == counts.Keys && |ids| == |counts| && buf == EncodeIds(ids, counts)
    ensures |buf| == ID_RECORD * |counts| && DecodeIdsInto(buf, map[]) == Cut(counts)
  {
    hide EncodeIds, DecodeIdsInto, BigEndian, CutListed, Cut;
    buf, ids := [], [];
    EncodeNoIds(counts);
    var todo := counts.Keys;
    while todo != {}
      invariant todo <= counts.Keys && Elements(ids) == counts.Keys - todo && |ids| == |counts| - |todo|
      invariant buf == EncodeIds(ids, counts)
      decreases todo
    {
      var id :| id in todo;
      EncodeIdsSnoc(ids, counts, id);
      assert Elements(ids + [id]) == Elements(ids) + {id};
      buf := buf + id + BigEndian(counts[id], 4);
      ids := ids + [id];
      todo := todo - {id};
    }
    DecodeListed(ids, counts, map[]);
    CutAll(ids, counts);
  }

  /** Twenty bytes for each id: itself, then its count. */
  lemma {:induction false} EncodeIdsAt(ids: seq<MsgId>, counts: map<MsgId, nat>, i: nat)
    requires i < |ids|
    ensures var b := EncodeIds(ids, counts);
            && b[20 * i..20 * i + 16] == ids[i]
            && b[20 * i + 16..20 * i + 20] == BigEndian(if ids[i] in counts then counts[ids[i]] else 0, 4)
  {
    hide BigEndian;
    var b := EncodeIds(ids, counts);
    if i > 0 {
      EncodeIdsAt(ids[1..], counts, i - 1);
      assert b[20..] == EncodeIds(ids[1..], counts);
    }
  }

  lemma {:induction false} EncodeIdsSnoc(ids: seq<MsgId>, counts: map<MsgId, nat>, id: MsgId)
    requires id in counts
    ensures EncodeIds(ids + [id], counts) == EncodeIds(ids, counts) + id + BigEndian(counts[id], 4)
  {
    hide BigEndian;
    if ids == [] {
      assert EncodeIds([id], counts) == id + BigEndian(counts[id], 4) + EncodeIds([], counts);
      assert ids + [id] == [id];
    } else {
      assert (ids + [id])[1..] == ids[1..] + [id] && (ids + [id])[0] == ids[0];
      EncodeIdsSnoc(ids[1..], counts, id);
    }
  }

  /** The i-th record of twenty bytes is complete and of this id. */
  ghost predicate RecordOf(data: Bytes, i: nat, id: MsgId) {
    20 * i + 20 <= |data| && data[20 * i..20 * i + 16] == id
  }

  lemma RecordShifts(data: Bytes, i: nat, id: MsgId)
    requires |data| >= 20
    ensures RecordOf(data[20..], i, id) <==> RecordOf(data, i + 1, id)
    ensures RecordOf(data, i + 1, id) ==>
              data[20..][20 * i + 16..20 * i + 20] == data[20 * (i + 1) + 16..20 * (i + 1) + 20]
  {
    if 20 * (i + 1) + 20 <= |data| {
      assert data[20..][20 * i..20 * i + 16] == data[20 * (i + 1)..20 * (i + 1) + 16];
    }
  }

  lemma {:induction false} NoRecord(data: Bytes, acc: map<MsgId, nat>, id: MsgId)
    requires forall i: nat :: !RecordOf(data, i, id)
    ensures id in DecodeIdsInto(data, acc) <==> id in acc
    ensures id in acc ==> DecodeIdsInto(data, acc)[id] == acc[id]
    decreases |data|
  {
    if |data| >= ID_RECORD {
      assert !RecordOf(data, 0, id);
      forall i: nat ensures !RecordOf(data[20..], i, id) {
        RecordShifts(data, i, id);
      }
      hide FromBigEndian, RecordOf;
      NoRecord(data[20..], acc[data[..16] := FromBigEndian(data[16..20])], id);
    }
  }

  /** An id has the count of the last complete record it has. */
  lemma {:induction false} LastRecordWins(data: Bytes, acc: map<MsgId, nat>, id: MsgId, i: nat)
    requires RecordOf(data, i, id) && forall j: nat :: i < j ==> !RecordOf(data, j, id)
    ensures id in DecodeIdsInto(data, acc)
    ensures DecodeIdsInto(data, acc)[id] == FromBigEndian(data[20 * i + 16..20 * i + 20])
    decreases |data|
  {
    hide FromBigEndian;
    var more := acc[data[..16] := FromBigEndian(data[16..20])];
    if i == 0 {
      forall j: nat ensures !RecordOf(data[20..], j, id) {
        RecordShifts(data, j, id);
      }
      NoRecord(data[20..], more, id);
    } else {
      forall j: nat | i - 1 < j ensures !RecordOf(data[20..], j, id) {
        RecordShifts(data, j, id);
      }
      RecordShifts(data, i - 1, id);
      LastRecordWins(data[20..], more, id, i - 1);
    }
  }

  method DecodeIdCounts(data: Bytes) returns (counts: map<MsgId, nat>)
    ensures counts == DecodeIdsInto(data, map[])
  {
    counts := map[];
    var i := 0;
    while i + ID_RECORD <= |data|
      invariant i <= |data| && DecodeIdsInto(data[i..], counts) == DecodeIdsInto(data, map[])
      decreases |data| - i
    {
      assert data[i..][..16] == data[i..i + 16] && data[i..][16..ID_RECORD] == data[i + 16..i + ID_RECORD];
      assert data[i..][ID_RECORD..] == data[i + ID_RECORD..];
      counts := counts[data[i..i + 16] := FromBigEndian(data[i + 16..i + ID_RECORD])];
      i := i + ID_RECORD;
    }
  }

  // ---------------------------------------------------------------- the envelope

  datatype Wire = Wire(msgType: byte, client: MsgId, id: MsgId, payload: Bytes)

  const HEADER_SIZE := 37

  function EncodeEnvelope(e: Wire): Bytes {
    [e.msgType] + e.client + e.id + BigEndian(|e.payload|, 4) + e.payload
  }

  /** The current layout, first of the two DecodeInternalEnvelope tries; the comparison is in 32 bits. */
  function DecodeCurrent(message: Bytes): Option<Wire> {
    if |message| < HEADER_SIZE then None
    else
      var n := FromBigEndian(message[33..HEADER_SIZE]);
      if (|message| - HEADER_SIZE) % U32_LIMIT < n || HEADER_SIZE + n > |message| then None
      else Some(Wire(message[0], message[1..17], message[17..33], message[HEADER_SIZE..HEADER_SIZE + n]))
  }

  lemma EnvelopeFields(e: Wire)
    ensures var m := EncodeEnvelope(e);
            && |m| == HEADER_SIZE + |e.payload| && m[0] == e.msgType && m[1..17] == e.client && m[17..33] == e.id
            && m[33..HEADER_SIZE] == BigEndian(|e.payload|, 4) && m[HEADER_SIZE..] == e.payload
  {
    hide BigEndian;
  }

  /** An envelope comes back whole exactly when its payload length fits 32 bits. */
  lemma EnvelopeRoundTripIff(e: Wire)
    ensures DecodeCurrent(EncodeEnvelope(e)) == Some(e) <==> |e.payload| < U32_LIMIT
  {
    hide BigEndian, FromBigEndian, EncodeEnvelope;
    var m := EncodeEnvelope(e);
    EnvelopeFields(e);
    U32RoundTrip(|e.payload|);
    var n := |e.payload| % U32_LIMIT;
    assert m[HEADER_SIZE..HEADER_SIZE + n] == e.payload[..n];
    if |e.payload| < U32_LIMIT {
      assert e.payload[..n] == e.payload;
    }
  }

  /** SetEnvelopeMsgID, in place. */
  method SetEnvelopeMsgId(envelope: array<byte>, id: MsgId)
    modifies envelope
    ensures envelope[..] == Stamped(old(envelope[..]), id)
    ensures forall i :: 0 <= i < envelope.Length ==>
              envelope[i] == if envelope.Length >= 37 && 17 <= i < 33 then id[i - 17] else old(envelope[i])
  {
    if envelope.Length < HEADER_SIZE {
      return;
    }
    for i := 0 to 16
      invariant envelope[..] == old(envelope[..17]) + id[..i] + old(envelope[17 + i..])
    {
      envelope[17 + i] := id[i];
      assert id[..i + 1] == id[..i] + [id[i]];
    }
    assert id[..16] == id;
  }

  function Stamped(envelope: Bytes, id: MsgId): Bytes {
    if |envelope| < HEADER_SIZE then envelope else envelope[..17] + id + envelope[33..]
  }

  /** Stamping an encoded envelope is the same as having encoded it with that id. */
  lemma StampIsEncode(e: Wire, id: MsgId)
    ensures Stamped(EncodeEnvelope(e), id) == EncodeEnvelope(e.(id := id))
  {
    hide BigEndian;
    var m := EncodeEnvelope(e);
    assert m[..17] == [e.msgType] + e.client && m[33..] == BigEndian(|e.payload|, 4) + e.payload;
  }
}
