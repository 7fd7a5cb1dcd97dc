/** How one turn of the event loop changes the outgoing stream of each session. */
module ChatStreams {
  import opened Octets
  import opened Chat
  import opened ChatSafety

  /**
   * From one state to a later one, for one session: the log and the delivered stream only grow; a
   * registered session that stays registered is queued exactly what was logged in between; one that
   * is not, or no longer, registered is queued nothing, and never registered again; a failed write
   * ends delivery; a destroyed session is never touched.
   */
  ghost predicate Follows(w: World, v: World, h: nat) {
    && h in w.sessions && h in v.sessions && w.log <= v.log
    && var s, t := w.sessions[h], v.sessions[h];
    && (s.Accepted() ==> t.id == s.id)
    && s.delivered <= t.delivered
    && (s.writeFailed ==> t.writeFailed && t.delivered == s.delivered)
    && (!s.alive ==> t == s)
    && (s.Accepted() && !Registered(w, h) ==> !Registered(v, h) && t.enqueued == s.enqueued)
    && (Registered(w, h) && !Registered(v, h) ==> t.enqueued == s.enqueued)
    && (Registered(w, h) && Registered(v, h) ==> t.enqueued == s.enqueued + Texts(v.log[|w.log|..]))
  }

  /** Replacing one session's record, the registry and the log unchanged. */
  ghost predicate SameStream(s: Session, t: Session) {
    && t.enqueued == s.enqueued && (s.Accepted() ==> t.id == s.id) && s.delivered <= t.delivered
    && (s.writeFailed ==> t.writeFailed && t.delivered == s.delivered)
  }

  lemma PutFollows(w: World, k: nat, t: Session, h: nat)
    requires h in w.sessions && k in w.sessions && w.sessions[k].alive && SameStream(w.sessions[k], t)
    ensures Follows(w, Put(w, k, t), h)
  {
    assert Texts(w.log[|w.log|..]) == [];
  }

  lemma NothingFollows(w: World, h: nat)
    requires h in w.sessions
    ensures Follows(w, w, h)
  {
    assert Texts(w.log[|w.log|..]) == [];
  }

  lemma PushStream(s: Session, m: bytes)
    ensures var t := Push(s, m);
            t.enqueued == s.enqueued + [m] && t.id == s.id
            && t.delivered == s.delivered && t.writeFailed == s.writeFailed
  {
  }

  lemma DeliverFollows(w: World, b: Broadcast, h: nat)
    requires h in w.sessions && RegistryInvariant(w)
    ensures Follows(w, Deliver(w, b), h) && Deliver(w, b).registry == w.registry
  {
    hide Push;
    var v := Deliver(w, b);
    assert v.log[|w.log|..] == [b];
    PushStream(w.sessions[h], TextOf(b));
    if Registered(w, h) { RegisteredIsLive(w, h); }
  }

  lemma WrittenStream(s: Session, ok: bool)
    requires QueueInvariant(s) && s.flight != [] && s.queue != []
    ensures SameStream(s, Written(s, ok))
  {
  }

  /** Entering the registry: at most one other session loses its entry, and only the new one is queued anything. */
  lemma AcceptFollows(w: World, h: nat, newId: bytes, g: nat)
    requires Running(w, h) && w.sessions[h].accepting > 0 && |newId| == ID_LENGTH && g in w.sessions
    ensures Follows(w, OnAccept(w, h, true, newId), g)
    ensures var v := OnAccept(w, h, true, newId);
            && v.log == w.log && Registered(v, h) && v.sessions[h].id == newId
            && v.sessions[h].enqueued == w.sessions[h].enqueued + [WELCOME + newId] && v.sessions[h].reading > 0
  {
    hide Push, OnAccept;
    var s, v := w.sessions[h], OnAccept(w, h, true, newId);
    EnteredWorld(w, h, newId);
    AcceptPieces(s, newId);
    PushStream(s.(accepting := s.accepting - 1, id := newId), WELCOME + newId);
    assert v.registry[newId] == h;
    assert Texts(v.log[|w.log|..]) == [];
    if Registered(v, g) && g != h {
      var id :| id in v.registry && v.registry[id] == g;
      assert id in w.registry && w.registry[id] == g;
    }
  }

  lemma HandleFollows(w: World, e: Event, h: nat)
    requires Inv(w) && Enabled(w, e) && h in w.sessions && (e.WriteDone? ==> w.sessions[e.h].queue != [])
    ensures Follows(w, Handle(w, e), h)
    ensures Handle(w, e).log == w.log || Reap(Handle(w, e), e.h) == Handle(w, e)
  {
    hide QueueInvariant, Push, Written, OnAccept, Deliver;
    match e
    case Open(k, authorized) => NothingFollows(w, h);
    case AcceptDone(k, ok, newId) =>
      if ok { AcceptFollows(w, k, newId, h); } else { RefusedFollows(w, k, newId, h); }
    case ReadDone(k, ok, data) => ReadFollows(w, k, ok, data, h);
    case WriteDone(k, ok) =>
      WrittenStream(w.sessions[k], ok);
      PutFollows(w, k, Written(w.sessions[k], ok), h);
    case CloseDone(k) => PutFollows(w, k, w.sessions[k].(closing := w.sessions[k].closing - 1), h);
  }

  lemma RefusedFollows(w: World, k: nat, newId: bytes, h: nat)
    requires Running(w, k) && w.sessions[k].accepting > 0 && h in w.sessions
    ensures Follows(w, OnAccept(w, k, false, newId), h) && OnAccept(w, k, false, newId).log == w.log
  {
    PutFollows(w, k, w.sessions[k].(accepting := w.sessions[k].accepting - 1), h);
  }

  lemma ReadFollows(w: World, k: nat, ok: bool, data: bytes, h: nat)
    requires Running(w, k) && w.sessions[k].reading > 0 && h in w.sessions
    ensures var v := OnRead(w, k, ok, data);
            && Follows(w, v, h)
            && (if ok then v.log == w.log + [Relay(data)] && v.sessions[k].reading > 0 else v.log == w.log)
  {
    hide Push, Deliver, LifetimeInvariant, QueueInvariant, Follows;
    var s := w.sessions[k];
    ReadPieces(s, data);
    var w1 := Put(w, k, s.(reading := s.reading - 1, buffer := s.buffer + data));
    if ok {
      PutKeeps(w, k, w1.sessions[k]);
      DeliverFollows(w1, Relay(data), h);
      ReadDelivers(w, w1, k, data, h);
      DeliverIdentity(w1, Relay(data), k);
      assert w1.sessions[k].buffer == data;
    } else {
      PutFollows(w, k, w1.sessions[k], h);
    }
  }

  /** Delivering the message read, then making ready for the next. */
  lemma ReadDelivers(w: World, w1: World, k: nat, data: bytes, h: nat)
    requires h in w.sessions && k in w.sessions && k in w1.sessions && w.sessions[k].alive
    requires w1 == Put(w, k, w1.sessions[k]) && SameStream(w.sessions[k], w1.sessions[k])
    requires w1.sessions[k].id == w.sessions[k].id && w1.sessions[k].alive
    requires Follows(w1, Deliver(w1, Relay(data)), h)
    ensures var w2 := Deliver(w1, Relay(data));
            && w2.log == w.log + [Relay(data)]
            && Follows(w, Put(w2, k, w2.sessions[k].(buffer := [], reading := w2.sessions[k].reading + 1)), h)
  {
    hide Push;
  }

  lemma ReapFollows(w: World, k: nat, h: nat)
    requires Running(w, k) && h in w.sessions
    ensures Follows(w, Reap(w, k), h)
  {
    hide Push, Deliver, QueueInvariant;
    var s := w.sessions[k];
    NothingFollows(w, h);
    if s.Pending() == 0 {
      var dying := Put(w, k, s.(alive := false));
      PutFollows(w, k, s.(alive := false), h);
      if s.id != [] {
        var gone := dying.(registry := dying.registry - {s.id});
        DyingIsUnregistered(w, k);
        assert RegistryInvariant(gone);
        DeliverFollows(gone, Notice(s.id), h);
        RemovedFollows(w, dying, gone, Deliver(gone, Notice(s.id)), h, k);
      }
    }
  }

  lemma RemovedFollows(w: World, dying: World, gone: World, v: World, h: nat, k: nat)
    requires Running(w, k) && dying == Put(w, k, w.sessions[k].(alive := false))
    requires gone == dying.(registry := w.registry - {w.sessions[k].id})
    requires Follows(w, dying, h) && Follows(gone, v, h) && v.registry == gone.registry && h in w.sessions
    requires !Registered(gone, k)
    ensures Follows(w, v, h)
  {
    if Registered(gone, h) {
      var id :| id in gone.registry && gone.registry[id] == h;
      assert id in w.registry && w.registry[id] == h;
    }
    if Registered(w, h) { RegisteredIsLive(w, h); }
  }

  /** One turn of the loop, seen by any session that exists before it. */
  lemma StepFollows(w: World, e: Event, h: nat)
    requires Inv(w) && Enabled(w, e) && h in w.sessions
    ensures e.WriteDone? ==> w.sessions[e.h].queue != []
    ensures Follows(w, Step(w, e), h)
  {
    hide Handle, Reap, QueueInvariant;
    HandleKeeps(w, e);
    HandleFollows(w, e, h);
    var v := Handle(w, e);
    ReapFollows(v, e.h, h);
    if v.log == w.log && Registered(w, h) {
      RegisteredIsLive(w, h);
      assert Texts(v.log[|w.log|..]) == [];
    }
  }
}
