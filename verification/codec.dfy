// The binary formats messages travel in: framed batches, transactions, EOF counts,
// id counts and the envelope around them.
module Codec {
  import opened Bytes
  import opened Dedup
  import opened Publisher
  import opened StringOrder

  // ---------------------------------------------------------------- primitives

  /** writeString: one length byte; longer strings are refused. */
  function WriteString(s: Bytes): Option<Bytes> {
    if |s| > 255 then None else Some([|s|] + s)
  }

  /** What a reader yields: a value and the bytes behind it. */
  type Read<T> = Option<(T, Bytes)>

  function ReadFull(data: Bytes, n: nat): Read<Bytes> {
    if |data| < n then None else Some((data[..n], data[n..]))
  }

  function ReadString(data: Bytes): Read<Bytes> {
    if data == [] then None else ReadFull(data[1..], data[0])
  }

  lemma ReadStringRoundTrip(s: Bytes, rest: Bytes)
    requires |s| <= 255
    ensures ReadString([|s|] + s + rest) == Some((s, rest))
  {
    var data := [|s|] + s + rest;
    assert data[1..] == s + rest && (s + rest)[..|s|] == s && (s + rest)[|s|..] == rest;
  }

  lemma ReadFullRoundTrip(b: Bytes, rest: Bytes)
    ensures ReadFull(b + rest, |b|) == Some((b, rest))
  {
    assert (b + rest)[..|b|] == b && (b + rest)[|b|..] == rest;
  }

  // ---------------------------------------------------------------- framed batches

  function FrameItem(body: Bytes): Option<Bytes> {
    if |body| >= U16_LIMIT then None else Some(BigEndian(|body|, 2) + body)
  }

  function EncodeItems<T>(items: seq<T>, encode: T -> Option<Bytes>): Option<Bytes> {
    if items == [] then Some([])
    else match (EncodeItems(items[..|items| - 1], encode), encode(items[|items| - 1]))
      case (Some(before), Some(body)) =>
        (match FrameItem(body)
         case Some(frame) => Some(before + frame)
         case None => None)
      case _ => None
  }

  function EncodeBatch<T>(items: seq<T>, encode: T -> Option<Bytes>): Option<Bytes> {
    match EncodeItems(items, encode)
    case Some(body) => Some(BigEndian(|items|, 4) + body)
    case None => None
  }

  function DecodeItems<T>(data: Bytes, count: nat, decode: Bytes -> Option<T>): Read<seq<T>> {
    if count == 0 then Some(([], data))
    else match ReadFull(data, 2)
      case None => None
      case Some((length, behind)) =>
        match ReadFull(behind, FromBigEndian(length))
        case None => None
        case Some((body, rest)) =>
          match decode(body)
          case None => None
          case Some(item) =>
            match DecodeItems(rest, count - 1, decode)
            case None => None
            case Some((items, end)) => Some(([item] + items, end))
  }

  /** The items, and the bytes behind the last one. */
  function DecodeBatch<T>(data: Bytes, decode: Bytes -> Option<T>): Read<seq<T>> {
    match ReadFull(data, 4)
    case None => None
    case Some((count, rest)) => DecodeItems(rest, FromBigEndian(count), decode)
  }

  /** The item codec inverts itself. */
  ghost predicate Inverse<T(!new)>(encode: T -> Option<Bytes>, decode: Bytes -> Option<T>) {
    forall x :: encode(x).Some? ==> decode(encode(x).value) == Some(x)
  }

  lemma {:induction false} EncodeItemsFront<T(!new)>(items: seq<T>, encode: T -> Option<Bytes>)
    requires items != [] && EncodeItems(items, encode).Some?
    ensures encode(items[0]).Some? && FrameItem(encode(items[0]).value).Some? && EncodeItems(items[1..], encode).Some?
    ensures EncodeItems(items, encode).value == FrameItem(encode(items[0]).value).value
            + EncodeItems(items[1..], encode).value
    decreases |items|
  {
    var n := |items| - 1;
    if n == 0 {
      assert items[..0] == [] && items[1..] == [];
    } else {
      EncodeItemsFront(items[..n], encode);
      assert items[..n][0] == items[0] && items[..n][1..] == items[1..][..n - 1] && items[1..][n - 1] == items[n];
    }
  }

  lemma Regroup(a: Bytes, b: Bytes, c: Bytes, d: Bytes)
    ensures a + b + c + d == a + (b + (c + d))
  {
  }

  lemma HeadTake<T>(l: seq<T>, n: nat)
    requires 0 < n <= |l|
    ensures [l[0]] + l[1..][..n - 1] == l[..n]
    ensures [l[0]] + l[1..] == l
  {
  }

  /** One framed item in front. */
  lemma DecodeOneItem<T(!new)>(body: Bytes, behind: Bytes, count: nat, item: T, decode: Bytes -> Option<T>)
    requires |body| < U16_LIMIT && decode(body) == Some(item) && count > 0
    ensures DecodeItems(BigEndian(|body|, 2) + (body + behind), count, decode) ==
            match DecodeItems(behind, count - 1, decode)
            case None => None
            case Some((items, end)) => Some(([item] + items, end))
  {
    hide BigEndian, FromBigEndian;
    ReadFullRoundTrip(BigEndian(|body|, 2), body + behind);
    U16Exact(|body|);
    ReadFullRoundTrip(body, behind);
    hide ReadFull;
  }

  /** Reading `count` items of an encoded list gives its first `count`, and what is behind the whole list. */
  lemma {:induction false} DecodeItemsRoundTrip<T(!new)>(items: seq<T>, encode: T -> Option<Bytes>,
                                                         decode: Bytes -> Option<T>,
                                                         rest: Bytes, count: nat)
    requires Inverse(encode, decode) && EncodeItems(items, encode).Some? && count <= |items|
    ensures DecodeItems(EncodeItems(items, encode).value + rest, count, decode).Some?
    ensures var (first, end) := DecodeItems(EncodeItems(items, encode).value + rest, count, decode).value;
            first == items[..count] && (count == |items| ==> end == rest)
    decreases count
  {
    var data := EncodeItems(items, encode).value + rest;
    if count == 0 {
      assert items == [] ==> data == rest;
    } else {
      EncodeItemsFront(items, encode);
      hide EncodeItems, DecodeItems, BigEndian, FromBigEndian;
      var body := encode(items[0]).value;
      var tail := EncodeItems(items[1..], encode).value;
      Regroup(BigEndian(|body|, 2), body, tail, rest);
      HeadTake(items, count);
      DecodeItemsRoundTrip(items[1..], encode, decode, rest, count - 1);
      DecodeOneItem(body, tail + rest, count, items[0], decode);
    }
  }

  /** A batch decodes to the same items and is consumed exactly, exactly when its count fits 32 bits. */
  lemma BatchRoundTripIff<T(!new)>(items: seq<T>, encode: T -> Option<Bytes>, decode: Bytes -> Option<T>, rest: Bytes)
    requires Inverse(encode, decode) && EncodeBatch(items, encode).Some?
    ensures DecodeBatch(EncodeBatch(items, encode).value + rest, decode) == Some((items, rest)) <==> |items| < U32_LIMIT
  {
    hide EncodeItems, DecodeItems, BigEndian, FromBigEndian, Inverse;
    var body := EncodeItems(items, encode).value;
    var count := BigEndian(|items|, 4);
    assert EncodeBatch(items, encode).value + rest == count + (body + rest);
    ReadFullRoundTrip(count, body + rest);
    U32RoundTrip(|items|);
    DecodeItemsRoundTrip(items, encode, decode, rest, |items| % U32_LIMIT);
    assert items[..|items|] == items;
    var n := |items| % U32_LIMIT;
    assert DecodeBatch(count + (body + rest), decode) == DecodeItems(body + rest, n, decode);
    if |items| < U32_LIMIT {
      assert n == |items|;
      assert DecodeItems(body + rest, n, decode).value == (items, rest);
    } else {
      assert n < |items|;
      assert |DecodeItems(body + rest, n, decode).value.0| == n;
    }
  }

  lemma ItemCut<T(!new)>(body: Bytes, tail: Bytes, k: nat, count: nat, decode: Bytes -> Option<T>)
    requires |body| < U16_LIMIT && count > 0 && k < |BigEndian(|body|, 2) + body + tail|
    requires k >= 2 + |body| ==> DecodeItems(tail[..k - 2 - |body|], count - 1, decode) == None
    ensures DecodeItems((BigEndian(|body|, 2) + body + tail)[..k], count, decode) == None
  {
    hide BigEndian, FromBigEndian;
    var cut := (BigEndian(|body|, 2) + body + tail)[..k];
    U16Exact(|body|);
    if k >= 2 {
      assert cut[..2] == BigEndian(|body|, 2);
      if k >= 2 + |body| {
        assert cut[2..][..|body|] == body && cut[2..][|body|..] == tail[..k - 2 - |body|];
      }
    }
  }

  lemma {:induction false} ItemsPrefixRejected<T(!new)>(items: seq<T>, encode: T -> Option<Bytes>,
                                                        decode: Bytes -> Option<T>, k: nat)
    requires EncodeItems(items, encode).Some? && k < |EncodeItems(items, encode).value|
    ensures DecodeItems(EncodeItems(items, encode).value[..k], |items|, decode) == None
    decreases |items|
  {
    if items != [] {
      EncodeItemsFront(items, encode);
      var body, tail := encode(items[0]).value, EncodeItems(items[1..], encode).value;
      hide EncodeItems, DecodeItems;
      assert EncodeItems(items, encode).value == BigEndian(|body|, 2) + body + tail;
      if k >= 2 + |body| {
        ItemsPrefixRejected(items[1..], encode, decode, k - 2 - |body|);
      }
      ItemCut(body, tail, k, |items|, decode);
    }
  }

  /** A batch cut short anywhere is rejected. */
  lemma BatchPrefixRejected<T(!new)>(items: seq<T>, encode: T -> Option<Bytes>, decode: Bytes -> Option<T>, k: nat)
    requires EncodeBatch(items, encode).Some? && |items| < U32_LIMIT && k < |EncodeBatch(items, encode).value|
    ensures DecodeBatch(EncodeBatch(items, encode).value[..k], decode) == None
  {
    hide EncodeItems, DecodeItems, BigEndian, FromBigEndian;
    var body := EncodeItems(items, encode).value;
    var count := BigEndian(|items|, 4);
    if k >= 4 {
      var cut := (count + body)[..k];
      assert cut[..4] == count && cut[4..] == body[..k - 4];
      U32Exact(|items|);
      ItemsPrefixRejected(items, encode, decode, k - 4);
    }
  }

  // ---------------------------------------------------------------- what is on the wire

  /** Parts one after the other. */
  function Concat(parts: seq<Bytes>): Bytes {
    if parts == [] then [] else Concat(parts[..|parts| - 1]) + parts[|parts| - 1]
  }

  /** Each of these parts stands right behind the one before it. */
  lemma {:induction false} ConcatAt(parts: seq<Bytes>, i: nat)
    requires i < |parts|
    ensures var start := |Concat(parts[..i])|;
            start + |parts[i]| <= |Concat(parts)| && Concat(parts)[start..start + |parts[i]|] == parts[i]
    ensures Concat(parts[..i + 1]) == Concat(parts[..i]) + parts[i]
    decreases |parts|
  {
    var n := |parts| - 1;
    assert parts[..i + 1][..i] == parts[..i];
    if i < n {
      ConcatAt(parts[..n], i);
      assert parts[..n][..i] == parts[..i];
    }
  }

  /** A batch: the number of items in four bytes, then for each item its length in two bytes and itself. It fails
      exactly if some item does not encode, or not into a length of two bytes. */
  lemma {:induction false} ItemsLayout<T>(items: seq<T>, encode: T -> Option<Bytes>, parts: seq<Bytes>)
    requires |parts| == |items|
    requires forall i :: 0 <= i < |items| ==>
               match encode(items[i]) case None => true case Some(b) => parts[i] == BigEndian(|b|, 2) + b
    ensures EncodeItems(items, encode) ==
            if forall i :: 0 <= i < |items| ==> encode(items[i]).Some? && |encode(items[i]).value| < 65536
            then Some(Concat(parts)) else None
  {
    hide BigEndian;
    if items != [] {
      var n := |items| - 1;
      ItemsLayout(items[..n], encode, parts[..n]);
    }
  }

  lemma BatchLayout<T>(items: seq<T>, encode: T -> Option<Bytes>, parts: seq<Bytes>)
    requires |parts| == |items|
    requires forall i :: 0 <= i < |items| ==>
               match encode(items[i]) case None => true case Some(b) => parts[i] == BigEndian(|b|, 2) + b
    ensures EncodeBatch(items, encode) ==
            if forall i :: 0 <= i < |items| ==> encode(items[i]).Some? && |encode(items[i]).value| < 65536
            then Some(BigEndian(|items|, 4) + Concat(parts)) else None
  {
    hide BigEndian, EncodeItems, Concat;
    ItemsLayout(items, encode, parts);
  }

  /** encodeBatch, item by item. */
  method EncodeBatchLoop<T>(items: seq<T>, encode: T -> Option<Bytes>) returns (batch: Option<Bytes>)
    ensures batch == EncodeBatch(items, encode)
  {
    var body: Bytes := [];
    for i := 0 to |items|
      invariant EncodeItems(items[..i], encode) == Some(body)
      invariant forall j :: 0 <= j < i ==> encode(items[j]).Some?
    {
      assert items[..i + 1][..i] == items[..i] && items[..i + 1][i] == items[i];
      var one := encode(items[i]);
      if one.None? || |one.value| > 65535 {
        FailedPrefix(items, encode, i + 1);
        return None;
      }
      assert body + BigEndian(|one.value|, 2) + one.value == body + (BigEndian(|one.value|, 2) + one.value);
      body := body + BigEndian(|one.value|, 2) + one.value;
    }
    assert items[..|items|] == items;
    return Some(BigEndian(|items|, 4) + body);
  }

  lemma {:induction false} FailedPrefix<T>(items: seq<T>, encode: T -> Option<Bytes>, i: nat)
    requires i <= |items| && EncodeItems(items[..i], encode).None?
    ensures EncodeItems(items, encode).None?
    decreases |items|
  {
    if i < |items| {
      assert items[..|items| - 1][..i] == items[..i];
      FailedPrefix(items[..|items| - 1], encode, i);
    } else {
      assert items[..i] == items;
    }
  }

  // ---------------------------------------------------------------- transactions

  type Float64 = b: Bytes | |b| == 8 witness [0, 0, 0, 0, 0, 0, 0, 0]

  datatype Transaction = Transaction(
    timestamp: Bytes, fromBank: Bytes, fromAccount: Bytes, toBank: Bytes, toAccount: Bytes,
    received: Float64, receivingCurrency: Bytes, paid: Float64, paymentCurrency: Bytes,
    paymentFormat: Bytes, isLaundering: bool)

  function StringsOf(t: Transaction): seq<Bytes> {
    [t.timestamp, t.fromBank, t.fromAccount, t.toBank, t.toAccount, t.receivingCurrency, t.paymentCurrency,
        t.paymentFormat]
  }

  /** Every string fits its length byte. */
  predicate Encodable(t: Transaction) {
    forall s <- StringsOf(t) :: |s| <= 255
  }

  function Field(s: Bytes): Bytes
    requires |s| <= 255
  {
    [|s|] + s
  }

  function EncodeTransaction(t: Transaction): Option<Bytes> {
    if !Encodable(t) then None
    else
      assert forall s <- StringsOf(t) :: |s| <= 255;
      Some(Strings([t.timestamp, t.fromBank, t.fromAccount, t.toBank, t.toAccount])
           + t.received + Strings([t.receivingCurrency]) + t.paid + Strings([t.paymentCurrency, t.paymentFormat])
           + [if t.isLaundering then 1 else 0])
  }

  /** The fields in the order in which they travel. */
  lemma TransactionLayout(t: Transaction)
    requires forall s <- [t.timestamp, t.fromBank, t.fromAccount, t.toBank, t.toAccount, t.receivingCurrency,
                          t.paymentCurrency, t.paymentFormat] :: |s| <= 255
    ensures EncodeTransaction(t) == Some(
              Field(t.timestamp) + Field(t.fromBank) + Field(t.fromAccount) + Field(t.toBank)
              + Field(t.toAccount) + t.received + Field(t.receivingCurrency) + t.paid
              + Field(t.paymentCurrency) + Field(t.paymentFormat) + [if t.isLaundering then 1 else 0])
  {
    var five := [t.timestamp, t.fromBank, t.fromAccount, t.toBank, t.toAccount];
    FiveStrings(t.timestamp, t.fromBank, t.fromAccount, t.toBank, t.toAccount);
    OneString(t.receivingCurrency);
    TwoStrings(t.paymentCurrency, t.paymentFormat);
    hide Strings, Field;
    var front := Strings(five) + t.received + Strings([t.receivingCurrency]) + t.paid;
    assert front + Strings([t.paymentCurrency, t.paymentFormat])
        == front + Field(t.paymentCurrency) + Field(t.paymentFormat);
  }

  lemma {:induction false} StringsSnoc(l: seq<Bytes>, s: Bytes)
    requires (forall x <- l :: |x| <= 255) && |s| <= 255
    ensures forall x <- l + [s] :: |x| <= 255
    ensures Strings(l + [s]) == Strings(l) + Field(s)
  {
    if l != [] {
      assert (l + [s])[1..] == l[1..] + [s];
      StringsSnoc(l[1..], s);
    }
  }

  lemma OneString(a: Bytes)
    requires |a| <= 255
    ensures Strings([a]) == Field(a)
  {
  }

  lemma TwoStrings(a: Bytes, b: Bytes)
    requires |a| <= 255 && |b| <= 255
    ensures Strings([a, b]) == Field(a) + Field(b)
  {
    OneString(a);
    StringsSnoc([a], b);
    assert [a] + [b] == [a, b];
  }

  lemma FiveStrings(a: Bytes, b: Bytes, c: Bytes, d: Bytes, e: Bytes)
    requires |a| <= 255 && |b| <= 255 && |c| <= 255 && |d| <= 255 && |e| <= 255
    ensures Strings([a, b, c, d, e]) == Field(a) + Field(b) + Field(c) + Field(d) + Field(e)
  {
    hide Strings, Field;
    TwoStrings(a, b);
    StringsSnoc([a, b], c);
    assert [a, b] + [c] == [a, b, c];
    StringsSnoc([a, b, c], d);
    assert [a, b, c] + [d] == [a, b, c, d];
    StringsSnoc([a, b, c, d], e);
    assert [a, b, c, d] + [e] == [a, b, c, d, e];
  }

  /** Length-prefixed strings one after the other. */
  function Strings(l: seq<Bytes>): (b: Bytes)
    requires forall s <- l :: |s| <= 255
    ensures |b| <= 256 * |l|
  {
    if l == [] then [] else [|l[0]|] + l[0] + Strings(l[1..])
  }

  function ReadStrings(data: Bytes, n: nat): Read<seq<Bytes>> {
    if n == 0 then Some(([], data))
    else match ReadString(data)
      case None => None
      case Some((s, behind)) =>
        match ReadStrings(behind, n - 1)
        case None => None
        case Some((l, rest)) => Some(([s] + l, rest))
  }

  lemma {:induction false} ReadStringsCount(data: Bytes, n: nat)
    ensures ReadStrings(data, n).Some? ==> |ReadStrings(data, n).value.0| == n
  {
    if n > 0 && ReadString(data).Some? {
      ReadStringsCount(ReadString(data).value.1, n - 1);
    }
  }

  lemma ReadOneString(s: Bytes, behind: Bytes, n: nat)
    requires |s| <= 255 && n > 0
    ensures ReadStrings([|s|] + s + behind, n) ==
            match ReadStrings(behind, n - 1)
            case None => None
            case Some((l, rest)) => Some(([s] + l, rest))
  {
    ReadStringRoundTrip(s, behind);
    hide ReadString;
  }

  lemma {:induction false} StringsRoundTrip(l: seq<Bytes>, rest: Bytes)
    requires forall s <- l :: |s| <= 255
    ensures ReadStrings(Strings(l) + rest, |l|) == Some((l, rest))
  {
    if l == [] {
      assert Strings(l) + rest == rest;
    } else {
      hide ReadStrings;
      var tail := Strings(l[1..]);
      HeadTake(l, |l|);
      StringsFront(l, rest);
      ReadOneString(l[0], tail + rest, |l|);
      StringsRoundTrip(l[1..], rest);
    }
  }

  lemma StringsFront(l: seq<Bytes>, rest: Bytes)
    requires l != [] && forall s <- l :: |s| <= 255
    ensures Strings(l) + rest == [|l[0]|] + l[0] + (Strings(l[1..]) + rest)
  {
  }

  function ReadFloat64(data: Bytes): Read<Float64> {
    if |data| < 8 then None else Some((data[..8], data[8..]))
  }

  function DecodeTransaction(data: Bytes): Read<Transaction> {
    match ReadStrings(data, 5)
    case None => None
    case Some((head, d1)) =>
      match ReadFloat64(d1)
      case None => None
      case Some((received, d2)) =>
        match ReadStrings(d2, 1)
        case None => None
        case Some((currency, d3)) =>
          match ReadFloat64(d3)
          case None => None
          case Some((paid, d4)) =>
            match ReadStrings(d4, 2)
            case None => None
            case Some((tail, d5)) =>
              if d5 == [] then None
              else
                ReadStringsCount(data, 5);
                ReadStringsCount(d2, 1);
                ReadStringsCount(d4, 2);
                Some((Transaction(head[0], head[1], head[2], head[3], head[4], received, currency[0], paid,
                                  tail[0], tail[1], d5[0] == 1), d5[1..]))
  }

  lemma Float64RoundTrip(f: Float64, rest: Bytes)
    ensures ReadFloat64(f + rest) == Some((f, rest))
  {
    assert (f + rest)[..8] == f && (f + rest)[8..] == rest;
  }

  /** A transaction is read back and consumed exactly. */
  lemma TransactionRoundTrip(t: Transaction, rest: Bytes)
    requires EncodeTransaction(t).Some?
    ensures DecodeTransaction(EncodeTransaction(t).value + rest) == Some((t, rest))
  {
    hide Strings, ReadStrings, ReadFloat64;
    assert forall s <- StringsOf(t) :: |s| <= 255;
    var head := [t.timestamp, t.fromBank, t.fromAccount, t.toBank, t.toAccount];
    var flag: Bytes := [if t.isLaundering then 1 else 0];
    var d5 := flag + rest;
    var d4 := Strings([t.paymentCurrency, t.paymentFormat]) + d5;
    var d3 := t.paid + d4;
    var d2 := Strings([t.receivingCurrency]) + d3;
    var d1 := t.received + d2;
    assert EncodeTransaction(t).value + rest == Strings(head) + d1;
    StringsRoundTrip(head, d1);
    Float64RoundTrip(t.received, d2);
    StringsRoundTrip([t.receivingCurrency], d3);
    Float64RoundTrip(t.paid, d4);
    StringsRoundTrip([t.paymentCurrency, t.paymentFormat], d5);
    assert d5[1..] == rest;
  }

  /** A transaction encodes exactly when all its strings fit, and then never overflows the frame's 16-bit length. */
  lemma TransactionFitsFrame(t: Transaction)
    ensures EncodeTransaction(t).Some? <==> Encodable(t)
    ensures EncodeTransaction(t).Some? ==>
              |EncodeTransaction(t).value| <= 2065 && FrameItem(EncodeTransaction(t).value).Some?
  {
  }

  /** The reader a batch gives each transaction: its own bytes, of which some may be left. */
  function DecodeTransactionBody(body: Bytes): Option<Transaction> {
    match DecodeTransaction(body)
    case None => None
    case Some((t, _)) => Some(t)
  }

  /** So any list of encodable transactions makes a batch, and the batch gives them back. */
  lemma TransactionBatchRoundTrip(txs: seq<Transaction>, rest: Bytes)
    requires (forall t <- txs :: Encodable(t)) && |txs| < U32_LIMIT
    ensures EncodeBatch(txs, EncodeTransaction).Some?
    ensures DecodeBatch(EncodeBatch(txs, EncodeTransaction).value + rest, DecodeTransactionBody) == Some((txs, rest))
  {
    hide DecodeTransaction, EncodeTransaction, Encodable;
    AllEncode(txs);
    forall t | EncodeTransaction(t).Some? ensures DecodeTransactionBody(EncodeTransaction(t).value) == Some(t) {
      TransactionRoundTrip(t, []);
      assert EncodeTransaction(t).value + [] == EncodeTransaction(t).value;
    }
    BatchRoundTripIff(txs, EncodeTransaction, DecodeTransactionBody, rest);
  }

  lemma {:induction false} AllEncode(txs: seq<Transaction>)
    requires forall t <- txs :: Encodable(t)
    ensures EncodeItems(txs, EncodeTransaction).Some?
  {
    hide EncodeTransaction, Encodable;
    if txs != [] {
      AllEncode(txs[..|txs| - 1]);
      TransactionFitsFrame(txs[|txs| - 1]);
    }
  }
}
