// The seen set of a consumer and its pending delta, and the order in which
// Dispatch looks up, handles and marks a message.
module Dedup {
  import opened Bytes

  const ID_LEN: nat := 16

  type MsgId = b: Bytes | |b| == 16 witness [0, 0, 0, 0, 0, 0, 0, 0, 0, 0, 0, 0, 0, 0, 0, 0]

  /** MsgID{}: carried by messages nobody gave an id; they are not deduplicated. */
  const ZERO_ID: MsgId := [0, 0, 0, 0, 0, 0, 0, 0, 0, 0, 0, 0, 0, 0, 0, 0]

  type ClientId = string

  // ---------------------------------------------------------------- the delta on the log

  function DrainBytes(ids: seq<MsgId>): (b: Bytes)
    ensures |b| == ID_LEN * |ids|
  {
    if ids == [] then [] else ids[0] + DrainBytes(ids[1..])
  }

  /** The ids in a log payload; a rest shorter than an id is ignored. */
  function ReplayIds(data: Bytes): (ids: seq<MsgId>)
    ensures |ids| == |data| / ID_LEN
  {
    if |data| < ID_LEN then []
    else [data[..ID_LEN]] + ReplayIds(data[ID_LEN..])
  }

  function IdSet(ids: seq<MsgId>): set<MsgId> {
    set id <- ids
  }

  /** A drained delta replays as the ids that were pending, in order. */
  lemma {:induction false} DrainReplay(ids: seq<MsgId>)
    ensures ReplayIds(DrainBytes(ids)) == ids
  {
    if ids != [] {
      var data := DrainBytes(ids);
      assert data[..ID_LEN] == ids[0] && data[ID_LEN..] == DrainBytes(ids[1..]);
      DrainReplay(ids[1..]);
      assert [ids[0]] + ids[1..] == ids;
    }
  }

  /** Id after id, sixteen bytes each. */
  lemma {:induction false} DrainAt(ids: seq<MsgId>, i: nat)
    requires i < |ids|
    ensures DrainBytes(ids)[ID_LEN * i..ID_LEN * (i + 1)] == ids[i]
  {
    if i > 0 {
      DrainAt(ids[1..], i - 1);
      assert DrainBytes(ids)[ID_LEN..] == DrainBytes(ids[1..]);
    }
  }

  lemma {:induction false} ReplayAt(data: Bytes, i: nat)
    requires i < |ReplayIds(data)|
    ensures ID_LEN * (i + 1) <= |data| && ReplayIds(data)[i] == data[ID_LEN * i..ID_LEN * (i + 1)]
  {
    if i > 0 {
      ReplayAt(data[ID_LEN..], i - 1);
    }
  }

  lemma {:induction false} DrainSnoc(ids: seq<MsgId>, id: MsgId)
    ensures DrainBytes(ids + [id]) == DrainBytes(ids) + id
  {
    if ids == [] {
      assert DrainBytes([id]) == id + DrainBytes([]);
      assert ids + [id] == [id];
    } else {
      assert (ids + [id])[1..] == ids[1..] + [id];
      DrainSnoc(ids[1..], id);
    }
  }

  lemma ReplaySnoc(data: Bytes, i: nat)
    requires i % ID_LEN == 0 && i + ID_LEN <= |data|
    ensures ReplayIds(data[..i + ID_LEN]) == ReplayIds(data[..i]) + [data[i..i + ID_LEN]]
    decreases i
  {
    if i == 0 {
      assert data[..ID_LEN][..ID_LEN] == data[0..ID_LEN];
      assert ReplayIds(data[..ID_LEN][ID_LEN..]) == [];
    } else {
      var rest := data[ID_LEN..];
      ReplaySnoc(rest, i - ID_LEN);
      assert data[..i + ID_LEN][ID_LEN..] == rest[..i] && data[..i][ID_LEN..] == rest[..i - ID_LEN];
      assert data[..i + ID_LEN][..ID_LEN] == data[..i][..ID_LEN];
      assert rest[i - ID_LEN..i] == data[i..i + ID_LEN];
    }
  }

  // ---------------------------------------------------------------- dedupState

  class DedupState {
    var seen: map<ClientId, set<MsgId>>
    var pending: map<ClientId, seq<MsgId>>

    constructor ()
      ensures seen == map[] && pending == map[]
    {
      seen, pending := map[], map[];
    }

    function SeenOf(c: ClientId): set<MsgId>
      reads this
    {
      if c in seen then seen[c] else {}
    }

    function PendingOf(c: ClientId): seq<MsgId>
      reads this
    {
      if c in pending then pending[c] else []
    }

    method AlreadySeen(c: ClientId, id: MsgId) returns (r: bool)
      ensures r <==> id in SeenOf(c)
    {
      r := c in seen && id in seen[c];
    }

    method MarkSeen(c: ClientId, id: MsgId)
      modifies this
      ensures SeenOf(c) == old(SeenOf(c)) + {id}
      ensures PendingOf(c) == old(PendingOf(c)) + (if id in old(SeenOf(c)) then [] else [id])
      ensures forall o :: o != c ==> SeenOf(o) == old(SeenOf(o)) && PendingOf(o) == old(PendingOf(o))
    {
      var ids := SeenOf(c);
      seen := seen[c := ids];
      if id in ids {
        return;
      }
      seen := seen[c := ids + {id}];
      pending := pending[c := PendingOf(c) + [id]];
    }

    method Forget(c: ClientId)
      modifies this
      ensures SeenOf(c) == {} && PendingOf(c) == []
      ensures forall o :: o != c ==> SeenOf(o) == old(SeenOf(o)) && PendingOf(o) == old(PendingOf(o))
    {
      seen := map o | o in seen && o != c :: seen[o];
      pending := map o | o in pending && o != c :: pending[o];
    }

    method DrainClient(c: ClientId) returns (buf: Bytes)
      ensures buf == DrainBytes(PendingOf(c))
    {
      var ids := PendingOf(c);
      buf := [];
      for i := 0 to |ids|
        invariant buf == DrainBytes(ids[..i])
      {
        DrainSnoc(ids[..i], ids[i]);
        assert ids[..i + 1] == ids[..i] + [ids[i]];
        buf := buf + ids[i];
      }
      assert ids[..|ids|] == ids;
    }

    method CommitDrained(c: ClientId)
      modifies this`pending
      ensures PendingOf(c) == []
      ensures forall o :: o != c ==> PendingOf(o) == old(PendingOf(o))
    {
      pending := map o | o in pending && o != c :: pending[o];
    }

    method ReplayClient(c: ClientId, data: Bytes)
      modifies this`seen
      ensures SeenOf(c) == old(SeenOf(c)) + IdSet(ReplayIds(data))
      ensures forall o :: o != c ==> SeenOf(o) == old(SeenOf(o))
    {
      var ids := SeenOf(c);
      var i := 0;
      while i + ID_LEN <= |data|
        invariant i <= |data| && i % ID_LEN == 0
        invariant seen == old(seen)
        invariant ids == SeenOf(c) + IdSet(ReplayIds(data[..i]))
        decreases |data| - i
      {
        ReplaySnoc(data, i);
        ids := ids + {data[i..i + ID_LEN]};
        i := i + ID_LEN;
      }
      ReplayCut(data, i);
      seen := seen[c := ids];
    }
  }

  lemma {:induction false} ReplayCut(data: Bytes, i: nat)
    requires i <= |data| < i + ID_LEN && i % ID_LEN == 0
    ensures ReplayIds(data[..i]) == ReplayIds(data)
    decreases |data|
  {
    if |data| >= ID_LEN {
      ReplayCut(data[ID_LEN..], i - ID_LEN);
      assert data[..i][ID_LEN..] == data[ID_LEN..][..i - ID_LEN];
      assert data[..i][..ID_LEN] == data[..ID_LEN];
    }
  }
}
