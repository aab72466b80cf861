// The two kinds of checkpoint file: overwrite slots (staged, then promoted) and
// append-only record logs, down to the bytes that reach the disk.
module Store {
  import opened Bytes

  const OVERWRITE_VERSION: byte := 1
  const OVERWRITE_HEADER_LEN: nat := 9   // version(1) | gen(8)
  const RECORD_HEADER_LEN: nat := 16     // len(4) | gen(8) | crc32c(4)

  type u32 = x: int | 0 <= x < 0x1_0000_0000

  /** Any deterministic 32-bit checksum; the repository uses CRC-32C. */
  type Checksum = Bytes -> u32

  datatype StoreError = InvalidKey(key: string) | TooShort(len: nat) | BadVersion(version: byte)

  datatype Result<+T> = Ok(value: T) | Err(error: StoreError)

  predicate ValidKey(key: string) {
    key != "" && key != "." && key != ".." && '/' !in key && '\\' !in key
  }

  // ---------------------------------------------------------------- slots

  function EncodeOverwrite(gen: nat, data: Bytes): Bytes {
    [OVERWRITE_VERSION] + BigEndian(gen, 8) + data
  }

  function DecodeOverwrite(raw: Bytes): Result<(Bytes, nat)> {
    if |raw| < OVERWRITE_HEADER_LEN then Err(TooShort(|raw|))
    else if raw[0] != OVERWRITE_VERSION then Err(BadVersion(raw[0]))
    else Ok((raw[OVERWRITE_HEADER_LEN..], FromBigEndian(raw[1..OVERWRITE_HEADER_LEN])))
  }

  /** The generation in a staged file's header; None when absent, short or of another version. */
  function ReadOverwriteHeader(file: Option<Bytes>): Option<nat> {
    if file.None? || |file.value| < OVERWRITE_HEADER_LEN || file.value[0] != OVERWRITE_VERSION then None
    else Some(FromBigEndian(file.value[1..OVERWRITE_HEADER_LEN]))
  }

  /** A slot reads back exactly what was staged, as long as the generation fits its eight bytes. */
  lemma OverwriteRoundTrip(gen: nat, data: Bytes)
    ensures DecodeOverwrite(EncodeOverwrite(gen, data)) == Ok((data, gen % U64_LIMIT))
    ensures ReadOverwriteHeader(Some(EncodeOverwrite(gen, data))) == Some(gen % U64_LIMIT)
  {
    var raw := EncodeOverwrite(gen, data);
    assert raw[1..OVERWRITE_HEADER_LEN] == BigEndian(gen, 8);
    assert raw[OVERWRITE_HEADER_LEN..] == data;
    U64RoundTrip(gen);
  }

  /** A slot file is accepted exactly if its header is complete and of this version. */
  lemma OverwriteAccepted(raw: Bytes)
    ensures DecodeOverwrite(raw) == if |raw| < 9 then Err(TooShort(|raw|))
                                    else if raw[0] != 1 then Err(BadVersion(raw[0]))
                                    else Ok((raw[9..], FromBigEndian(raw[1..9])))
    ensures ReadOverwriteHeader(Some(raw)) == if |raw| >= 9 && raw[0] == 1 then Some(FromBigEndian(raw[1..9])) else None
    ensures ReadOverwriteHeader(None) == None
  {
  }

  /** A torn stage shows either no generation at all or the one being staged. */
  lemma TornStageHeader(gen: nat, data: Bytes, k: nat)
    requires k <= |EncodeOverwrite(gen, data)|
    ensures ReadOverwriteHeader(Some(EncodeOverwrite(gen, data)[..k])) ==
            if k < OVERWRITE_HEADER_LEN then None else Some(gen % U64_LIMIT)
  {
    var raw := EncodeOverwrite(gen, data);
    if k >= OVERWRITE_HEADER_LEN {
      assert raw[..k][1..OVERWRITE_HEADER_LEN] == BigEndian(gen, 8);
      U64RoundTrip(gen);
    }
  }

  // ---------------------------------------------------------------- records

  datatype Record = Record(gen: nat, payload: Bytes) {
    /** What the length and generation fields can hold. */
    predicate Fits() { gen < U64_LIMIT && |payload| < U32_LIMIT }
  }

  function EncodeRecord(crc: Checksum, r: Record): (b: Bytes)
    ensures |b| == RECORD_HEADER_LEN + |r.payload|
  {
    BigEndian(|r.payload|, 4) + BigEndian(r.gen, 8)
    + BigEndian(crc(BigEndian(r.gen, 8) + r.payload), 4) + r.payload
  }

  /** The record framed at `off` and the offset behind it, if one is complete and its checksum matches. */
  function DecodeRecordAt(crc: Checksum, raw: Bytes, off: nat): (r: Option<(Record, nat)>)
    requires off <= |raw|
    ensures r.Some? ==> off + RECORD_HEADER_LEN <= r.value.1 <= |raw|
  {
    if off + RECORD_HEADER_LEN > |raw| then None
    else
      var end := off + RECORD_HEADER_LEN + FromBigEndian(raw[off..off + 4]);
      if end > |raw| then None
      else
        var payload := raw[off + RECORD_HEADER_LEN..end];
        if crc(raw[off + 4..off + 12] + payload) != FromBigEndian(raw[off + 12..off + 16]) then None
        else Some((Record(FromBigEndian(raw[off + 4..off + 12]), payload), end))
  }

  /** The frame of `r` stands at `off`. */
  ghost predicate FramedAt(crc: Checksum, raw: Bytes, off: nat, r: Record) {
    && off + RECORD_HEADER_LEN + |r.payload| <= |raw|
    && raw[off..off + 4] == BigEndian(|r.payload|, 4)
    && raw[off + 4..off + 12] == BigEndian(r.gen, 8)
    && raw[off + 12..off + 16] == BigEndian(crc(BigEndian(r.gen, 8) + r.payload), 4)
    && raw[off + 16..off + 16 + |r.payload|] == r.payload
  }

  lemma EncodedIsFramed(crc: Checksum, pre: Bytes, r: Record, post: Bytes)
    ensures FramedAt(crc, pre + EncodeRecord(crc, r) + post, |pre|, r)
  {
  }

  lemma DecodeFields(crc: Checksum, raw: Bytes, off: nat, r: Record)
    requires off + RECORD_HEADER_LEN + |r.payload| <= |raw|
    requires FromBigEndian(raw[off..off + 4]) == |r.payload|
    requires FromBigEndian(raw[off + 4..off + 12]) == r.gen
    requires raw[off + 16..off + 16 + |r.payload|] == r.payload
    requires crc(raw[off + 4..off + 12] + r.payload) == FromBigEndian(raw[off + 12..off + 16])
    ensures DecodeRecordAt(crc, raw, off) == Some((r, off + RECORD_HEADER_LEN + |r.payload|))
  {
  }

  lemma DecodeFramed(crc: Checksum, raw: Bytes, off: nat, r: Record)
    requires FramedAt(crc, raw, off, r) && r.Fits()
    ensures DecodeRecordAt(crc, raw, off) == Some((r, off + RECORD_HEADER_LEN + |r.payload|))
  {
    U32Exact(|r.payload|);
    U64Exact(r.gen);
    U32Exact(crc(BigEndian(r.gen, 8) + r.payload));
    DecodeFields(crc, raw, off, r);
  }

  /** Decoding a complete record gives it back, and stops exactly behind it. */
  lemma DecodeEncoded(crc: Checksum, pre: Bytes, r: Record, post: Bytes)
    requires r.Fits()
    ensures DecodeRecordAt(crc, pre + EncodeRecord(crc, r) + post, |pre|)
            == Some((r, |pre| + |EncodeRecord(crc, r)|))
  {
    EncodedIsFramed(crc, pre, r, post);
    DecodeFramed(crc, pre + EncodeRecord(crc, r) + post, |pre|, r);
  }

  /** Exactly when a record survives its framing: both of its fixed-width fields must hold it. */
  lemma RecordRoundTripIff(crc: Checksum, r: Record)
    ensures DecodeRecordAt(crc, EncodeRecord(crc, r), 0) == Some((r, |EncodeRecord(crc, r)|)) <==> r.Fits()
  {
    assert [] + EncodeRecord(crc, r) + [] == EncodeRecord(crc, r);
    if r.Fits() {
      DecodeEncoded(crc, [], r, []);
    } else {
      EncodedIsFramed(crc, [], r, []);
      U32RoundTrip(|r.payload|);
      U64RoundTrip(r.gen);
    }
  }

  /** Exactly what is accepted as a record: length, generation and checksum in sixteen bytes, then as many bytes as
      the length says, if the checksum of generation and payload is the one in the header. */
  lemma RecordAcceptedIff(crc: Checksum, raw: Bytes, off: nat, r: Record, next: nat)
    requires off <= |raw|
    ensures DecodeRecordAt(crc, raw, off) == Some((r, next)) <==>
            && off + 16 <= next <= |raw| && next == off + 16 + FromBigEndian(raw[off..off + 4])
            && r.gen == FromBigEndian(raw[off + 4..off + 12]) && r.payload == raw[off + 16..next]
            && crc(raw[off + 4..off + 12] + r.payload) == FromBigEndian(raw[off + 12..off + 16])
  {
    hide FromBigEndian;
  }

  lemma TooShortRejected(crc: Checksum, raw: Bytes, off: nat)
    requires off <= |raw|
    requires off + RECORD_HEADER_LEN <= |raw| ==> off + RECORD_HEADER_LEN + FromBigEndian(raw[off..off + 4]) > |raw|
    ensures DecodeRecordAt(crc, raw, off) == None
  {
  }

  /** A record cut anywhere short of its last byte is never accepted, whatever the checksum. */
  lemma TornRejected(crc: Checksum, pre: Bytes, r: Record, k: nat)
    requires r.Fits() && k < |EncodeRecord(crc, r)|
    ensures DecodeRecordAt(crc, pre + EncodeRecord(crc, r)[..k], |pre|) == None
  {
    hide FromBigEndian, BigEndian, DecodeRecordAt;
    var torn := EncodeRecord(crc, r)[..k];
    var raw := pre + torn;
    if k >= RECORD_HEADER_LEN {
      assert raw[|pre|..|pre| + 4] == BigEndian(|r.payload|, 4);
      U32Exact(|r.payload|);
    }
    TooShortRejected(crc, raw, |pre|);
  }

  // ---------------------------------------------------------------- logs

  datatype Scanned = Scanned(recs: seq<Record>, end: nat)

  /** Every record from `off` on, and the offset behind the last complete one. */
  function Scan(crc: Checksum, raw: Bytes, off: nat): (s: Scanned)
    requires off <= |raw|
    ensures off <= s.end <= |raw|
    decreases |raw| - off
  {
    match DecodeRecordAt(crc, raw, off)
    case None => Scanned([], off)
    case Some((r, next)) =>
      var rest := Scan(crc, raw, next);
      Scanned([r] + rest.recs, rest.end)
  }

  /** Where Truncate cuts: it also stops in front of a generation that was never committed. */
  function CutPoint(crc: Checksum, raw: Bytes, off: nat, committedGen: nat): (end: nat)
    requires off <= |raw|
    ensures off <= end <= |raw|
    decreases |raw| - off
  {
    match DecodeRecordAt(crc, raw, off)
    case None => off
    case Some((r, next)) => if r.gen > committedGen then off else CutPoint(crc, raw, next, committedGen)
  }

  function MaxGen(recs: seq<Record>): (g: nat)
    ensures forall r <- recs :: r.gen <= g
    ensures g == 0 || exists r <- recs :: r.gen == g
  {
    if recs == [] then 0
    else
      var g := MaxGen(recs[..|recs| - 1]);
      var r := recs[|recs| - 1];
      assert recs == recs[..|recs| - 1] + [r];
      if r.gen > g then r.gen else g
  }

  lemma MaxGenSnoc(recs: seq<Record>, r: Record)
    ensures MaxGen(recs + [r]) == if r.gen > MaxGen(recs) then r.gen else MaxGen(recs)
  {
    assert (recs + [r])[..|recs|] == recs;
  }

  function LogBytes(crc: Checksum, recs: seq<Record>): Bytes {
    if recs == [] then [] else EncodeRecord(crc, recs[0]) + LogBytes(crc, recs[1..])
  }

  ghost predicate AllFit(recs: seq<Record>) {
    forall r <- recs :: r.Fits()
  }

  /** What a crash during Append can leave behind the last complete record. */
  ghost predicate TornTail(crc: Checksum, tail: Bytes) {
    exists r: Record, k: nat ::
      r.Fits() && k < |EncodeRecord(crc, r)| && tail == EncodeRecord(crc, r)[..k]
  }

  lemma {:induction false} LogBytesAppend(crc: Checksum, a: seq<Record>, b: seq<Record>)
    ensures LogBytes(crc, a + b) == LogBytes(crc, a) + LogBytes(crc, b)
  {
    if a == [] {
      assert a + b == b;
    } else {
      assert (a + b)[1..] == a[1..] + b;
      LogBytesAppend(crc, a[1..], b);
    }
  }

  lemma LogBytesSnoc(crc: Checksum, recs: seq<Record>, r: Record)
    ensures LogBytes(crc, recs + [r]) == LogBytes(crc, recs) + EncodeRecord(crc, r)
  {
    LogBytesAppend(crc, recs, [r]);
    assert LogBytes(crc, [r]) == EncodeRecord(crc, r) + LogBytes(crc, []);
  }

  /** One complete record in front: both loops step over it. */
  lemma ScanStep(crc: Checksum, pre: Bytes, r: Record, post: Bytes, committedGen: nat)
    requires r.Fits()
    ensures var raw := pre + EncodeRecord(crc, r) + post; var next := |pre + EncodeRecord(crc, r)|;
            var rest := Scan(crc, raw, next);
            && Scan(crc, raw, |pre|) == Scanned([r] + rest.recs, rest.end)
            && (r.gen <= committedGen ==>
                  CutPoint(crc, raw, |pre|, committedGen) == CutPoint(crc, raw, next, committedGen))
  {
    DecodeEncoded(crc, pre, r, post);
  }

  lemma {:induction false} ScanFrom(crc: Checksum, pre: Bytes, recs: seq<Record>, tail: Bytes, committedGen: nat)
    requires AllFit(recs) && TornTail(crc, tail)
    requires forall r <- recs :: r.gen <= committedGen
    ensures var raw := pre + LogBytes(crc, recs) + tail; var end := |pre| + |LogBytes(crc, recs)|;
            && Scan(crc, raw, |pre|) == Scanned(recs, end)
            && CutPoint(crc, raw, |pre|, committedGen) == end
    decreases |recs|
  {
    var raw := pre + LogBytes(crc, recs) + tail;
    if recs == [] {
      assert raw == pre + tail;
      var r: Record, k: nat :| r.Fits() && k < |EncodeRecord(crc, r)| && tail == EncodeRecord(crc, r)[..k];
      TornRejected(crc, pre, r, k);
    } else {
      var e, rest := EncodeRecord(crc, recs[0]), LogBytes(crc, recs[1..]);
      assert raw == pre + e + (rest + tail) && raw == (pre + e) + rest + tail;
      ScanStep(crc, pre, recs[0], rest + tail, committedGen);
      ScanFrom(crc, pre + e, recs[1..], tail, committedGen);
      assert [recs[0]] + recs[1..] == recs;
    }
  }

  lemma Regrouped(pre: Bytes, e: Bytes, rest: Bytes, tail: Bytes)
    ensures pre + (e + rest) + tail == pre + e + (rest + tail) == (pre + e) + rest + tail
  {
  }

  lemma LogBytesFront(crc: Checksum, recs: seq<Record>, n: nat)
    requires n <= |recs|
    ensures n > 0 ==> LogBytes(crc, recs[..n]) == EncodeRecord(crc, recs[0]) + LogBytes(crc, recs[1..][..n - 1])
    ensures n == 0 ==> LogBytes(crc, recs[..n]) == []
  {
    if n > 0 {
      assert recs[..n][1..] == recs[1..][..n - 1];
    }
  }

  /** The cut falls behind the last record in front of the first generation that was never committed. */
  lemma {:induction false} CutStops(crc: Checksum, pre: Bytes, recs: seq<Record>, tail: Bytes, committedGen: nat,
                                    n: nat)
    requires AllFit(recs) && TornTail(crc, tail) && n <= |recs|
    requires (forall i :: 0 <= i < n ==> recs[i].gen <= committedGen) && (n < |recs| ==> recs[n].gen > committedGen)
    ensures CutPoint(crc, pre + LogBytes(crc, recs) + tail, |pre|, committedGen) == |pre| + |LogBytes(crc, recs[..n])|
    decreases |recs|
  {
    LogBytesFront(crc, recs, n);
    if recs == [] {
      ScanFrom(crc, pre, [], tail, committedGen);
    } else {
      var e, rest := EncodeRecord(crc, recs[0]), LogBytes(crc, recs[1..]);
      assert recs[0].Fits() && AllFit(recs[1..]) && LogBytes(crc, recs) == e + rest;
      hide *;
      Regrouped(pre, e, rest, tail);
      if n == 0 {
        CutInFront(crc, pre, recs[0], rest + tail, committedGen);
      } else {
        ScanStep(crc, pre, recs[0], rest + tail, committedGen);
        CutStops(crc, pre + e, recs[1..], tail, committedGen, n - 1);
      }
    }
  }

  lemma CutInFront(crc: Checksum, pre: Bytes, r: Record, post: Bytes, committedGen: nat)
    requires r.Fits() && r.gen > committedGen
    ensures CutPoint(crc, pre + EncodeRecord(crc, r) + post, |pre|, committedGen) == |pre|
  {
    DecodeEncoded(crc, pre, r, post);
  }

  /** Load and Truncate on a log whose last append was torn: exactly the complete records
      count, their largest generation is the committed one, and the cut falls behind the last. */
  lemma LogScan(crc: Checksum, recs: seq<Record>, tail: Bytes)
    requires AllFit(recs) && TornTail(crc, tail)
    ensures Scan(crc, LogBytes(crc, recs) + tail, 0) == Scanned(recs, |LogBytes(crc, recs)|)
    ensures CutPoint(crc, LogBytes(crc, recs) + tail, 0, MaxGen(recs)) == |LogBytes(crc, recs)|
  {
    assert [] + LogBytes(crc, recs) + tail == LogBytes(crc, recs) + tail;
    ScanFrom(crc, [], recs, tail, MaxGen(recs));
  }

  lemma NoTailIsTorn(crc: Checksum)
    ensures TornTail(crc, [])
  {
    var r := Record(0, []);
    assert r.Fits() && 0 < |EncodeRecord(crc, r)| && [] == EncodeRecord(crc, r)[..0];
  }

  /** After Truncate removed a torn tail, the next append is scanned in full again. */
  lemma AppendAfterTruncate(crc: Checksum, recs: seq<Record>, tail: Bytes, r: Record)
    requires AllFit(recs) && TornTail(crc, tail) && r.Fits()
    ensures var raw := LogBytes(crc, recs) + tail;
            var cut := raw[..CutPoint(crc, raw, 0, MaxGen(recs))];
            Scan(crc, cut + EncodeRecord(crc, r), 0).recs == recs + [r]
  {
    hide Scan, CutPoint, LogBytes, EncodeRecord, MaxGen, TornTail;
    var base := LogBytes(crc, recs);
    LogScan(crc, recs, tail);
    assert (base + tail)[..|base|] == base;
    LogBytesSnoc(crc, recs, r);
    NoTailIsTorn(crc);
    LogScan(crc, recs + [r], []);
    assert LogBytes(crc, recs + [r]) + [] == LogBytes(crc, recs + [r]);
  }

  // ---------------------------------------------------------------- buffers

  /** binary.BigEndian.PutUintN into a buffer, `w` bytes at `off`. */
  method PutUint(buf: array<byte>, off: nat, n: nat, w: nat)
    requires off + w <= buf.Length
    modifies buf
    ensures buf[..] == old(buf[..off]) + BigEndian(n, w) + old(buf[off + w..])
  {
    var i, rest := w, n;
    while i > 0
      invariant 0 <= i <= w
      invariant buf[..off + i] == old(buf[..off + i]) && buf[off + w..] == old(buf[off + w..])
      invariant BigEndian(rest, i) + buf[off + i..off + w] == BigEndian(n, w)
    {
      ghost var done := buf[off + i..off + w];
      BigEndianStep(rest, i);
      i := i - 1;
      buf[off + i] := rest % 256;
      assert buf[off + i..off + w] == [rest % 256] + done;
      rest := rest / 256;
    }
    assert buf[..] == buf[..off] + buf[off..off + w] + buf[off + w..];
  }

  method CopyInto(buf: array<byte>, off: nat, data: Bytes)
    requires off + |data| <= buf.Length
    modifies buf
    ensures buf[..] == old(buf[..off]) + data + old(buf[off + |data|..])
  {
    for i := 0 to |data|
      invariant buf[..off] == old(buf[..off]) && buf[off + |data|..] == old(buf[off + |data|..])
      invariant buf[off..off + i] == data[..i]
    {
      buf[off + i] := data[i];
    }
    assert buf[..] == buf[..off] + buf[off..off + |data|] + buf[off + |data|..];
  }

  method EncodeOverwriteBuffer(gen: nat, data: Bytes) returns (buf: array<byte>)
    ensures fresh(buf) && buf[..] == EncodeOverwrite(gen, data)
    ensures buf.Length == 9 + |data| && buf[0] == 1 && buf[1..9] == BigEndian(gen, 8) && buf[9..] == data
  {
    buf := new byte[OVERWRITE_HEADER_LEN + |data|](_ => 0);
    buf[0] := OVERWRITE_VERSION;
    PutUint(buf, 1, gen, 8);
    CopyInto(buf, OVERWRITE_HEADER_LEN, data);
  }

  method EncodeRecordBuffer(crc: Checksum, gen: nat, payload: Bytes) returns (buf: array<byte>)
    ensures fresh(buf) && buf[..] == EncodeRecord(crc, Record(gen, payload))
    ensures buf.Length == 16 + |payload| && buf[..4] == BigEndian(|payload|, 4) && buf[4..12] == BigEndian(gen, 8)
    ensures buf[12..16] == BigEndian(crc(BigEndian(gen, 8) + payload), 4) && buf[16..] == payload
  {
    buf := new byte[RECORD_HEADER_LEN + |payload|](_ => 0);
    PutUint(buf, 0, |payload|, 4);
    PutUint(buf, 4, gen, 8);
    assert buf[..12] == BigEndian(|payload|, 4) + BigEndian(gen, 8);
    CopyInto(buf, RECORD_HEADER_LEN, payload);
    assert buf[..12] == BigEndian(|payload|, 4) + BigEndian(gen, 8);
    assert buf[4..12] == BigEndian(gen, 8) && buf[RECORD_HEADER_LEN..] == payload;
    PutUint(buf, 12, crc(buf[4..12] + payload), 4);
  }

  /** Load's loop over the whole log. */
  method LoadLog(crc: Checksum, raw: Bytes) returns (recs: seq<Record>, maxGen: nat)
    ensures recs == Scan(crc, raw, 0).recs
    ensures maxGen == MaxGen(recs)
  {
    recs, maxGen := [], 0;
    var off := 0;
    while true
      invariant off <= |raw|
      invariant recs + Scan(crc, raw, off).recs == Scan(crc, raw, 0).recs
      invariant maxGen == MaxGen(recs)
      decreases |raw| - off
    {
      match DecodeRecordAt(crc, raw, off) {
        case None => break;
        case Some((r, next)) =>
          ghost var rest := Scan(crc, raw, next).recs;
          assert recs + ([r] + rest) == (recs + [r]) + rest;
          MaxGenSnoc(recs, r);
          recs := recs + [r];
          if r.gen > maxGen {
            maxGen := r.gen;
          }
          off := next;
      }
    }
  }

  /** Truncate's loop: the length the log is cut to. */
  method FindCut(crc: Checksum, raw: Bytes, committedGen: nat) returns (validEnd: nat)
    ensures validEnd == CutPoint(crc, raw, 0, committedGen)
  {
    validEnd := 0;
    var off := 0;
    while true
      invariant off <= |raw| && validEnd == off
      invariant CutPoint(crc, raw, off, committedGen) == CutPoint(crc, raw, 0, committedGen)
      decreases |raw| - off
    {
      match DecodeRecordAt(crc, raw, off) {
        case None => break;
        case Some((r, next)) =>
          if r.gen > committedGen {
            break;
          }
          validEnd := next;
          off := next;
      }
    }
  }
}
