/** What every turn of the event loop keeps. */
module ChatSafety {
  import opened Octets
  import opened Chat

  /** The write queue of one session, whoever is in the registry. */
  predicate QueueInvariant(s: Session) {
    && s.accepting + s.closing <= 2 && s.reading <= 1 && |s.flight| <= 1
    && (s.flight != [] ==> s.queue != [] && s.flight[0] == s.queue[0])
    && (s.queue != [] <==> s.flight != [] || s.writeFailed)
    && (s.writeFailed ==> s.flight == [])
    && s.enqueued == s.delivered + s.queue
    && (s.reading > 0 ==> s.buffer == [])
    && (s.Accepted() ==> s.accepting == 0 && s.closing == 0 && |s.id| == ID_LENGTH)
    && (!s.Accepted() ==> s.reading == 0 && s.buffer == [] && s.enqueued == [])
    && (s.accepting > 0 ==> s.accepting == 1 && s.closing == 0)
  }

  /** A session lives exactly as long as a handler holds it. */
  predicate LifetimeInvariant(s: Session) {
    s.alive <==> s.Pending() > 0
  }

  /** Every entry points to a live session that has its id. */
  ghost predicate RegistryInvariant(w: World) {
    forall id | id in w.registry ::
      && w.registry[id] in w.sessions
      && w.sessions[w.registry[id]].id == id != []
      && w.sessions[w.registry[id]].alive
  }

  ghost predicate Inv(w: World) {
    && (forall h | h in w.sessions :: QueueInvariant(w.sessions[h]) && LifetimeInvariant(w.sessions[h]))
    && RegistryInvariant(w)
  }

  /** The invariant while a handler of `h` runs: that handler keeps `h` alive. */
  ghost predicate Running(w: World, h: nat) {
    && h in w.sessions && w.sessions[h].alive
    && (forall g | g in w.sessions :: QueueInvariant(w.sessions[g]) && (g != h ==> LifetimeInvariant(w.sessions[g])))
    && RegistryInvariant(w)
  }

  lemma PushKeeps(s: Session, m: bytes)
    requires QueueInvariant(s) && s.Accepted()
    ensures QueueInvariant(Push(s, m)) && Push(s, m).Pending() >= s.Pending()
  {
  }

  lemma QueueIsReady(s: Session)
    requires QueueInvariant(s) && s.flight != []
    ensures s.queue != [] && s.flight == [s.queue[0]]
  {
  }

  lemma WrittenKeeps(s: Session, ok: bool)
    requires QueueInvariant(s) && s.flight != []
    ensures QueueInvariant(Written(s, ok))
  {
    FrontMoves(s.delivered, s.queue);
  }

  lemma FrontMoves(front: seq<bytes>, back: seq<bytes>)
    requires back != []
    ensures front + back == front + [back[0]] + back[1..]
  {
  }

  /** A registered session is accepted and alive. */
  lemma RegisteredIsLive(w: World, h: nat)
    requires RegistryInvariant(w) && Registered(w, h)
    ensures h in w.sessions && w.sessions[h].alive && w.sessions[h].Accepted()
    ensures w.sessions[h].id in w.registry && w.registry[w.sessions[h].id] == h
  {
    var id :| id in w.registry && w.registry[id] == h;
  }

  lemma DeliverEffect(w: World, b: Broadcast, g: nat)
    requires RegistryInvariant(w) && g in w.sessions && QueueInvariant(w.sessions[g])
    ensures var s, t := w.sessions[g], Deliver(w, b).sessions[g];
            && QueueInvariant(t) && t.alive == s.alive && t.id == s.id && t.Pending() >= s.Pending()
            && (t != s ==> s.alive)
  {
    hide QueueInvariant, Push;
    if Registered(w, g) {
      RegisteredIsLive(w, g);
      PushKeeps(w.sessions[g], TextOf(b));
      PushIdentity(w.sessions[g], TextOf(b));
    }
  }

  lemma DeliverKeeps(w: World, b: Broadcast, h: nat)
    requires Running(w, h)
    ensures Running(Deliver(w, b), h)
  {
    hide QueueInvariant, Push;
    forall g | g in w.sessions
      ensures QueueInvariant(Deliver(w, b).sessions[g]) && Deliver(w, b).sessions[g].alive == w.sessions[g].alive
      ensures Deliver(w, b).sessions[g].id == w.sessions[g].id
      ensures g != h ==> LifetimeInvariant(Deliver(w, b).sessions[g])
    {
      DeliverEffect(w, b, g);
    }
  }

  lemma DeliverKeepsInv(w: World, b: Broadcast)
    requires Inv(w)
    ensures Inv(Deliver(w, b))
  {
    hide QueueInvariant, Push;
    forall g | g in w.sessions
      ensures QueueInvariant(Deliver(w, b).sessions[g]) && Deliver(w, b).sessions[g].alive == w.sessions[g].alive
      ensures Deliver(w, b).sessions[g].id == w.sessions[g].id && LifetimeInvariant(Deliver(w, b).sessions[g])
    {
      DeliverEffect(w, b, g);
    }
  }

  lemma PushIdentity(s: Session, m: bytes)
    ensures Push(s, m).id == s.id && Push(s, m).alive == s.alive
    ensures Push(s, m).reading == s.reading && Push(s, m).buffer == s.buffer
  {
  }

  lemma PutKeeps(w: World, h: nat, s: Session)
    requires Running(w, h) && QueueInvariant(s) && s.alive
    requires s.id == w.sessions[h].id || (w.sessions[h].id == [] && s.id != [])
    ensures Running(Put(w, h, s), h)
  {
  }

  // The pieces of the handlers that touch one session only.

  lemma AcceptPieces(s: Session, newId: bytes)
    requires QueueInvariant(s) && s.accepting > 0 && |newId| == ID_LENGTH
    ensures QueueInvariant(s.(accepting := s.accepting - 1))
    ensures QueueInvariant(s.(accepting := s.accepting - 1, id := newId))
    ensures s.id == [] && s.reading == 0 && s.buffer == []
  {
  }

  lemma ReadPieces(s: Session, data: bytes)
    requires QueueInvariant(s) && s.reading > 0
    ensures QueueInvariant(s.(reading := s.reading - 1, buffer := s.buffer + data))
    ensures s.reading == 1 && s.buffer == [] && s.Accepted()
  {
  }

  lemma ReadAgain(s: Session)
    requires QueueInvariant(s) && s.reading == 0 && s.Accepted()
    ensures QueueInvariant(s.(buffer := [], reading := s.reading + 1))
  {
  }

  /** An accepted session, after its welcome is queued and its first read started. */
  function Entered(s: Session, newId: bytes): Session
    requires s.accepting > 0
  {
    var t := Push(s.(accepting := s.accepting - 1, id := newId), WELCOME + newId);
    t.(reading := t.reading + 1)
  }

  lemma EnteredWorld(w: World, h: nat, newId: bytes)
    requires h in w.sessions && w.sessions[h].accepting > 0
    ensures OnAccept(w, h, true, newId)
         == World(w.sessions[h := Entered(w.sessions[h], newId)], w.registry[newId := h], w.log)
  {
    hide Push;
  }

  lemma EnteredKeeps(s: Session, newId: bytes)
    requires QueueInvariant(s) && s.accepting > 0 && |newId| == ID_LENGTH
    ensures QueueInvariant(Entered(s, newId)) && s.id == []
    ensures Entered(s, newId).id == newId && Entered(s, newId).alive == s.alive
  {
    hide QueueInvariant, Push;
    AcceptPieces(s, newId);
    var t := s.(accepting := s.accepting - 1, id := newId);
    PushKeeps(t, WELCOME + newId);
    PushIdentity(t, WELCOME + newId);
    ReadAgain(Push(t, WELCOME + newId));
  }

  lemma EnterKeeps(w: World, h: nat, s: Session)
    requires Running(w, h) && w.sessions[h].id == [] && QueueInvariant(s) && s.alive && s.id != []
    ensures Running(World(w.sessions[h := s], w.registry[s.id := h], w.log), h)
  {
    hide QueueInvariant, LifetimeInvariant;
  }

  lemma OnAcceptKeeps(w: World, h: nat, ok: bool, newId: bytes)
    requires Running(w, h) && w.sessions[h].accepting > 0 && |newId| == ID_LENGTH
    ensures Running(OnAccept(w, h, ok, newId), h)
  {
    hide QueueInvariant, LifetimeInvariant, Connect, Entered;
    var s := w.sessions[h];
    AcceptPieces(s, newId);
    if ok {
      EnteredWorld(w, h, newId);
      EnteredKeeps(s, newId);
      EnterKeeps(w, h, Entered(s, newId));
    } else {
      PutKeeps(w, h, s.(accepting := s.accepting - 1));
    }
  }

  lemma OnReadKeeps(w: World, h: nat, ok: bool, data: bytes)
    requires Running(w, h) && w.sessions[h].reading > 0
    ensures Running(OnRead(w, h, ok, data), h)
  {
    hide QueueInvariant, LifetimeInvariant, Push, Deliver;
    var s := w.sessions[h];
    ReadPieces(s, data);
    var w1 := Put(w, h, s.(reading := s.reading - 1, buffer := s.buffer + data));
    PutKeeps(w, h, w1.sessions[h]);
    if ok {
      var b := Relay(w1.sessions[h].buffer);
      var w2 := Deliver(w1, b);
      DeliverKeeps(w1, b, h);
      DeliverIdentity(w1, b, h);
      ReadAgain(w2.sessions[h]);
      PutKeeps(w2, h, w2.sessions[h].(buffer := [], reading := w2.sessions[h].reading + 1));
    }
  }

  lemma DeliverIdentity(w: World, b: Broadcast, g: nat)
    requires g in w.sessions
    ensures var s, t := w.sessions[g], Deliver(w, b).sessions[g];
            t.id == s.id && t.alive == s.alive && t.reading == s.reading && t.buffer == s.buffer
  {
    PushIdentity(w.sessions[g], TextOf(b));
  }

  /** A handler finds its queue as it needs it, and leaves the invariant in force. */
  lemma HandleKeeps(w: World, e: Event)
    requires Inv(w) && Enabled(w, e)
    ensures e.WriteDone? ==> w.sessions[e.h].queue != []
    ensures Running(Handle(w, e), e.h)
  {
    hide Push, Deliver, OnAccept, OnRead, Written, QueueInvariant;
    match e
    case Open(h, authorized) => CreatedKeeps(authorized);
    case AcceptDone(h, ok, newId) => OnAcceptKeeps(w, h, ok, newId);
    case ReadDone(h, ok, data) => OnReadKeeps(w, h, ok, data);
    case WriteDone(h, ok) =>
      QueueIsReady(w.sessions[h]);
      WrittenKeeps(w.sessions[h], ok);
      WrittenIdentity(w.sessions[h], ok);
      PutKeeps(w, h, Written(w.sessions[h], ok));
    case CloseDone(h) =>
      ClosePieces(w.sessions[h]);
      PutKeeps(w, h, w.sessions[h].(closing := w.sessions[h].closing - 1));
  }

  lemma CreatedKeeps(authorized: bool)
    ensures QueueInvariant(Created(authorized)) && Created(authorized).alive
  {
  }

  lemma ClosePieces(s: Session)
    requires QueueInvariant(s) && s.closing > 0
    ensures QueueInvariant(s.(closing := s.closing - 1))
  {
  }

  lemma WrittenIdentity(s: Session, ok: bool)
    requires s.flight != [] && s.queue != []
    ensures Written(s, ok).id == s.id && Written(s, ok).alive == s.alive
  {
  }

  /** A dying session has left the registry before its notice is broadcast. */
  lemma DyingIsUnregistered(w: World, h: nat)
    requires Running(w, h)
    ensures !Registered(w.(registry := w.registry - {w.sessions[h].id}), h)
  {
  }

  lemma DyingKeeps(s: Session)
    requires QueueInvariant(s)
    ensures QueueInvariant(s.(alive := false))
  {
  }

  lemma ReapKeeps(w: World, h: nat)
    requires Running(w, h)
    ensures Inv(Reap(w, h))
  {
    hide Deliver, QueueInvariant;
    var s := w.sessions[h];
    if s.Pending() == 0 {
      var dying := Put(w, h, s.(alive := false));
      DyingKeeps(s);
      if s.id == [] {
        assert forall id | id in w.registry :: w.registry[id] != h;
      } else {
        var gone := dying.(registry := dying.registry - {s.id});
        assert Inv(gone);
        DeliverKeepsInv(gone, Notice(s.id));
      }
    }
  }

  /** Every turn of the loop keeps the invariant. */
  lemma StepKeeps(w: World, e: Event)
    requires Inv(w) && Enabled(w, e)
    ensures e.WriteDone? ==> w.sessions[e.h].queue != []
    ensures Inv(Step(w, e))
  {
    hide Inv, Running, Handle, Reap;
    HandleKeeps(w, e);
    ReapKeeps(Handle(w, e), e.h);
  }
}
