// Publisher.Dispatch: decode, look the handler up, drop what was already seen,
// handle, and only then mark as seen.
module Publisher {
  import opened Dedup
  import opened Bytes

  type MsgType = nat

  datatype Envelope = Envelope(msgType: MsgType, client: ClientId, id: MsgId, payload: Bytes)

  /** What a handler did: its new state, and whether it succeeded. */
  datatype Handled<W> = Handled(w: W, ok: bool)

  type Handlers<!W> = map<MsgType, (W, Envelope) -> Handled<W>>

  /** A failing handler leaves the state as it was. */
  ghost predicate FailsClean<W(!new)>(handler: (W, Envelope) -> Handled<W>) {
    forall w, env :: !handler(w, env).ok ==> handler(w, env).w == w
  }

  /** Dispatch's answer: the client to track (None stands for uuid.Nil), or an error. */
  datatype Outcome =
    | Track(client: Option<ClientId>, msgType: MsgType)
    | Undecodable
    | Unexpected(msgType: MsgType)
    | Failed(msgType: MsgType)

  /** The worker state and the seen set of the message's client. */
  datatype View<W> = View(w: W, seen: set<MsgId>)

  function Deliver<W>(handlers: Handlers<W>, v: View<W>, env: Envelope): (View<W>, Outcome) {
    if env.msgType !in handlers then (v, Unexpected(env.msgType))
    else if env.id != ZERO_ID && env.id in v.seen then (v, Track(None, env.msgType))
    else
      var h := handlers[env.msgType](v.w, env);
      if !h.ok then (v.(w := h.w), Failed(env.msgType))
      else (View(h.w, if env.id != ZERO_ID then v.seen + {env.id} else v.seen),
            Track(Some(env.client), env.msgType))
  }

  /** A second delivery of a handled message changes nothing, for every handler, exactly when the
      message carries an id; the counting handler tells two deliveries of an unmarked one apart. */
  lemma RedeliveryHarmlessIff(env: Envelope)
    ensures env.id != ZERO_ID <==>
            forall handlers: Handlers<nat>, v: View<nat> ::
              Deliver(handlers, v, env).1.Track? ==>
                Deliver(handlers, Deliver(handlers, v, env).0, env).0 == Deliver(handlers, v, env).0
  {
    if env.id == ZERO_ID {
      var count: (nat, Envelope) -> Handled<nat> := (n, e) => Handled(n + 1, true);
      var handlers: Handlers<nat> := map[env.msgType := count];
      var v := View(0, {});
      assert Deliver(handlers, v, env) == (View(1, {}), Track(Some(env.client), env.msgType));
      assert Deliver(handlers, View(1, {}), env).0 == View(2, {});
    }
  }

  class Consumer<W> {
    const handlers: Handlers<W>
    const dedup: DedupState
    var w: W

    constructor (handlers: Handlers<W>, w: W)
      ensures this.handlers == handlers && this.w == w && fresh(dedup)
      ensures dedup.seen == map[] && dedup.pending == map[]
    {
      this.handlers, this.w := handlers, w;
      dedup := new DedupState();
    }

    /** `message` is None when the envelope does not decode. */
    method Dispatch(message: Option<Envelope>) returns (r: Outcome)
      modifies this`w, dedup
      ensures message.None? ==> r == Undecodable && w == old(w) && unchanged(dedup)
      ensures message.Some? ==>
                var env := message.value;
                var (after, outcome) := Deliver(handlers, View(old(w), old(dedup.SeenOf(env.client))), env);
                && r == outcome && w == after.w && dedup.SeenOf(env.client) == after.seen
                && dedup.PendingOf(env.client) == old(dedup.PendingOf(env.client)) +
                     (if after.seen == old(dedup.SeenOf(env.client)) then [] else [env.id])
                && forall o :: o != env.client ==>
                     dedup.SeenOf(o) == old(dedup.SeenOf(o)) && dedup.PendingOf(o) == old(dedup.PendingOf(o))
      ensures message.Some? && message.value.msgType !in handlers ==>
                r == Unexpected(message.value.msgType) && w == old(w) && unchanged(dedup)
      ensures message.Some? && message.value.msgType in handlers ==>
                var env := message.value;
                var h := handlers[env.msgType](old(w), env);
                if env.id != ZERO_ID && env.id in old(dedup.SeenOf(env.client)) then
                  r == Track(None, env.msgType) && w == old(w) && unchanged(dedup)
                else if h.ok then
                  && r == Track(Some(env.client), env.msgType) && w == h.w
                  && dedup.SeenOf(env.client) ==
                     old(dedup.SeenOf(env.client)) + (if env.id == ZERO_ID then {} else {env.id})
                else
                  r == Failed(env.msgType) && w == h.w && unchanged(dedup)
    {
      if message.None? {
        return Undecodable;
      }
      var env := message.value;
      if env.msgType !in handlers {
        return Unexpected(env.msgType);
      }
      var deduped := env.id != ZERO_ID;
      if deduped {
        var seen := dedup.AlreadySeen(env.client, env.id);
        if seen {
          return Track(None, env.msgType);
        }
      }
      var h := handlers[env.msgType](w, env);
      w := h.w;
      if !h.ok {
        return Failed(env.msgType);
      }
      if deduped {
        dedup.MarkSeen(env.client, env.id);
        assert env.id in dedup.SeenOf(env.client);
      }
      return Track(Some(env.client), env.msgType);
    }
  }
}
