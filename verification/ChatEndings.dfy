/** When sessions and their registry entries go away, and what a repeated id does to them. */
module ChatEndings {
  import opened Octets
  import opened Chat
  import opened ChatSafety
  import opened ChatStreams
  import opened ChatRuns

  /** The handler is the session's last, and starts nothing new. */
  predicate LastOne(s: Session, e: Event) {
    s.Pending() == 1
    && match e {
         case ReadDone(_, ok, _) => !ok
         case WriteDone(_, ok) => !ok || |s.queue| == 1
         case _ => false
       }
  }

  lemma WrittenPending(s: Session, ok: bool)
    requires QueueInvariant(s) && s.flight != []
    ensures Written(s, ok).Pending() == s.Pending() - if ok && |s.queue| > 1 then 0 else 1
  {
  }

  lemma ReadPending(w: World, h: nat, ok: bool, data: bytes)
    requires h in w.sessions && w.sessions[h].reading == 1
    ensures !ok ==> OnRead(w, h, ok, data).sessions[h].Pending() == w.sessions[h].Pending() - 1
    ensures ok ==> OnRead(w, h, ok, data).sessions[h].Pending() > 0
  {
    hide Push;
  }

  lemma HandlerPending(w: World, e: Event)
    requires Inv(w) && Enabled(w, e) && Ready(w, e) && e.h in w.sessions && w.sessions[e.h].Accepted()
    ensures Handle(w, e).sessions[e.h].Pending() == 0 <==> LastOne(w.sessions[e.h], e)
  {
    var s := w.sessions[e.h];
    match e
    case ReadDone(h, ok, data) => ReadPending(w, h, ok, data);
    case WriteDone(h, ok) => WrittenPending(s, ok);
    case _ =>
  }

  /** An accepted session is destroyed by exactly the failed read, failed write or final write that came last. */
  lemma DestroyedExactlyWhen(w: World, e: Event, h: nat)
    requires Inv(w) && Enabled(w, e) && Ready(w, e) && h in LiveAccepted(w)
    ensures h in Step(w, e).sessions
    ensures !Step(w, e).sessions[h].alive <==> h == e.h && LastOne(w.sessions[h], e)
  {
    hide Handle, Reap, LastOne, Inv;
    HandleKeys(w, e);
    HandleIdentity(w, e, h);
    ReapIdentity(Handle(w, e), e.h, h);
    if h == e.h { HandlerPending(w, e); }
  }

  /** Both ways an entry `id` is lost: another session takes the id, or a session with that id is destroyed. */
  ghost predicate Evicts(w: World, e: Event, id: bytes) {
    Takes(e, id) || Drops(w, e, id)
  }

  ghost predicate Takes(e: Event, id: bytes) {
    Accepts(e, e.h) && e.newId == id
  }

  ghost predicate Drops(w: World, e: Event, id: bytes) {
    e.h in LiveAccepted(w) && w.sessions[e.h].id == id && LastOne(w.sessions[e.h], e)
  }

  /** In the registry a session can only be found under its own id. */
  lemma OnlyEntry(w: World, h: nat)
    requires RegistryInvariant(w) && h in w.sessions
    ensures Registered(w, h) <==> w.sessions[h].id in w.registry && w.registry[w.sessions[h].id] == h
  {
    if Registered(w, h) { RegisteredIsLive(w, h); }
  }

  lemma HandlerEvicts(w: World, e: Event, h: nat)
    requires Inv(w) && Enabled(w, e) && Ready(w, e) && Registered(w, h)
    ensures h in w.sessions && h in Handle(w, e).sessions && Handle(w, e).sessions[h].id == w.sessions[h].id
    ensures Registered(Handle(w, e), h) <==> !Takes(e, w.sessions[h].id)
  {
    hide Handle, Inv, Running, Registered;
    HandleKeeps(w, e);
    RunningRegistry(w, Handle(w, e), e.h);
    RegisteredIsLive(w, h);
    HandleRegistry(w, e);
    HandleKeys(w, e);
    HandleIdentity(w, e, h);
    HandleLives(w, e);
    OnlyEntry(Handle(w, e), h);
  }

  lemma RunningRegistry(w: World, v: World, h: nat)
    requires Inv(w) && Running(v, h)
    ensures RegistryInvariant(w) && RegistryInvariant(v)
  {
  }

  /** Whether a destructor runs after a handler, and with which id. */
  lemma DropsExactly(w: World, e: Event, id: bytes)
    requires Inv(w) && Enabled(w, e) && Ready(w, e)
    ensures var s := Handle(w, e).sessions[e.h];
            s.Pending() == 0 && s.Accepted() && s.id == id <==> Drops(w, e, id) && id != []
  {
    hide Handle, LastOne, QueueInvariant;
    if e.h in w.sessions { HandleIdentity(w, e, e.h); } else { HandleKeys(w, e); }
    if e.h in LiveAccepted(w) {
      HandlerPending(w, e);
      HandleLives(w, e);
    } else if Accepts(e, e.h) {
      AcceptedPends(w, e.h, e.newId);
    }
  }

  lemma AcceptedPends(w: World, h: nat, newId: bytes)
    requires Enabled(w, AcceptDone(h, true, newId))
    ensures Handle(w, AcceptDone(h, true, newId)).sessions[h].Pending() > 0
  {
    hide Push;
  }

  lemma ReapEvicts(v: World, k: nat, h: nat)
    requires Running(v, k) && h in v.sessions
    ensures Registered(Reap(v, k), h) <==>
      Registered(v, h) && !(v.sessions[k].Pending() == 0 && v.sessions[k].Accepted()
                            && v.sessions[k].id == v.sessions[h].id)
  {
    hide Reap, QueueInvariant;
    ReapRegistry(v, k);
    OnlyEntry(v, h);
    var id := v.sessions[h].id;
    if id in Reap(v, k).registry && v.registry[id] == h {
      assert Reap(v, k).registry[id] == h;
    }
    if Registered(Reap(v, k), h) {
      var other :| other in Reap(v, k).registry && Reap(v, k).registry[other] == h;
      assert v.registry[other] == h;
    }
  }

  /**
   * The window of a registered session closes in exactly the turns that evict its id. The session destroyed
   * can be an older one with the same id: its destructor then erases an entry that is not its own.
   */
  lemma WindowCloses(w: World, e: Event, h: nat)
    requires Inv(w) && Enabled(w, e) && Ready(w, e) && Registered(w, h)
    ensures h in w.sessions && (!Registered(Step(w, e), h) <==> Evicts(w, e, w.sessions[h].id))
  {
    hide Handle, Reap, Inv, Running, Takes, Drops, Registered;
    HandlerEvicts(w, e, h);
    HandleKeeps(w, e);
    RunningRegistry(w, Handle(w, e), e.h);
    RegisteredIsLive(w, h);
    DropsExactly(w, e, w.sessions[h].id);
    ReapEvicts(Handle(w, e), e.h, h);
  }

  // A repeated id.

  const EARLIER: nat := 0
  const LATER: nat := 1

  function TwoAccepted(id: bytes): seq<Event> {
    [Open(EARLIER, true), AcceptDone(EARLIER, true, id), Open(LATER, true), AcceptDone(LATER, true, id)]
  }

  /** An accepted session that has been sent its welcome, and is reading. */
  function Welcomed(id: bytes): Session {
    Session(id, [], [WELCOME + id], 0, 0, 1, [WELCOME + id], true, [WELCOME + id], [], false)
  }

  lemma Opens(w: World, h: nat)
    requires h !in w.sessions
    ensures Enabled(w, Open(h, true)) && Step(w, Open(h, true)) == Put(w, h, Created(true))
  {
  }

  lemma Welcomes(w: World, h: nat, id: bytes)
    requires h in w.sessions && w.sessions[h] == Created(true) && |id| == ID_LENGTH
    ensures Enabled(w, AcceptDone(h, true, id))
    ensures Step(w, AcceptDone(h, true, id)) == Put(w, h, Welcomed(id)).(registry := w.registry[id := h])
  {
    assert [] + [WELCOME + id] == [WELCOME + id];
  }

  /** The welcome arrives, and then the connection is lost. */
  lemma Leaves(w: World, h: nat, id: bytes)
    requires h in w.sessions && w.sessions[h] == Welcomed(id) && |id| == ID_LENGTH
    ensures Enabled(w, WriteDone(h, true))
    ensures var v := Step(w, WriteDone(h, true));
            && v.registry == w.registry && v.sessions.Keys == w.sessions.Keys
            && (forall g | g in w.sessions && g != h :: v.sessions[g] == w.sessions[g])
            && Enabled(v, ReadDone(h, false, []))
            && Step(v, ReadDone(h, false, [])).registry == w.registry - {id}
  {
    var v := Step(w, WriteDone(h, true));
    assert v.sessions[h].id == id && v.sessions[h].reading == 1 && v.sessions[h].flight == [];
  }

  /**
   * After the later session takes the id, and the earlier one then loses its connection, the registry is
   * empty although the later one lives: no broadcast will reach it.
   */
  lemma RepeatedId(id: bytes) returns (es: seq<Event>, ws: seq<World>)
    requires |id| == ID_LENGTH
    ensures IsRun(es, ws) && TwoAccepted(id) < es
    ensures LATER in LiveAccepted(ws[|es|]) && ws[|es|].registry == map[]
  {
    hide Step, Enabled, Inv, IsRun, Ready;
    es, ws := [], [EMPTY];
    Opens(EMPTY, EARLIER);
    es, ws := Turned(es, ws, Open(EARLIER, true));
    Welcomes(ws[1], EARLIER, id);
    es, ws := Turned(es, ws, AcceptDone(EARLIER, true, id));
    Opens(ws[2], LATER);
    es, ws := Turned(es, ws, Open(LATER, true));
    Welcomes(ws[3], LATER, id);
    es, ws := Turned(es, ws, AcceptDone(LATER, true, id));
    Leaves(ws[4], EARLIER, id);
    es, ws := Turned(es, ws, WriteDone(EARLIER, true));
    Safety(es, ws, 5);
    BystanderLives(ws[5], ReadDone(EARLIER, false, []), LATER);
    es, ws := Turned(es, ws, ReadDone(EARLIER, false, []));
  }

  lemma Turned(es: seq<Event>, ws: seq<World>, e: Event) returns (fs: seq<Event>, vs: seq<World>)
    requires IsRun(es, ws) && Enabled(ws[|es|], e)
    ensures IsRun(fs, vs) && fs == es + [e] && Ready(ws[|es|], e) && vs == ws + [Step(ws[|es|], e)]
  {
    Extends(es, ws, e);
    fs, vs := es + [e], ws + [Step(ws[|es|], e)];
  }

  // Sessions that never take part.

  /** A handshake that fails ends its session, and nobody is told. */
  lemma FailedAcceptEnds(w: World, h: nat, newId: bytes)
    requires Inv(w) && Enabled(w, AcceptDone(h, false, newId))
    ensures Step(w, AcceptDone(h, false, newId)) == Put(w, h, w.sessions[h].(accepting := 0, alive := false))
    ensures !w.sessions[h].Accepted() && w.sessions[h].enqueued == []
  {
  }

  /** A read that fails is the last: what was read stays unsaid, and what is queued is still being written. */
  lemma FailedReadIsLast(w: World, h: nat, data: bytes)
    requires Inv(w) && Enabled(w, ReadDone(h, false, data))
    ensures h in Step(w, ReadDone(h, false, data)).sessions
    ensures Step(w, ReadDone(h, false, data)).sessions[h]
         == w.sessions[h].(reading := 0, buffer := data, alive := w.sessions[h].flight != [])
  {
    hide Push, Reap;
    var e := ReadDone(h, false, data);
    ReadPieces(w.sessions[h], data);
    assert [] + data == data;
    assert Handle(w, e) == Put(w, h, w.sessions[h].(reading := 0, buffer := data));
    HandleKeeps(w, e);
    ReapAlone(Handle(w, e), h);
  }

  /** The destructor changes nothing in the session itself. */
  lemma ReapAlone(w: World, h: nat)
    requires Running(w, h)
    ensures h in Reap(w, h).sessions
    ensures Reap(w, h).sessions[h] == w.sessions[h].(alive := w.sessions[h].Pending() > 0)
  {
    hide Push, QueueInvariant;
    DyingIsUnregistered(w, h);
  }

  /** A session that was refused, with some of its two operations done. */
  predicate Refused(s: Session, done: nat) {
    done <= 2 && s == Created(false).(closing := 2 - done, alive := done < 2)
  }

  /** The operations of a session that was refused which are done by turn `k`. */
  function Closes(es: seq<Event>, h: nat): nat {
    if es == [] then 0 else Closes(es[..|es| - 1], h) + if es[|es| - 1] == CloseDone(h) then 1 else 0
  }

  lemma RefusedClosed(w: World, h: nat, done: nat)
    requires h in w.sessions && Refused(w.sessions[h], done) && Enabled(w, CloseDone(h))
    ensures Step(w, CloseDone(h)) == Put(w, h, Step(w, CloseDone(h)).sessions[h])
    ensures Refused(Step(w, CloseDone(h)).sessions[h], done + 1)
  {
  }

  lemma OthersLeaveAlone(w: World, e: Event, h: nat)
    requires Inv(w) && Enabled(w, e) && Ready(w, e) && h in w.sessions && e.h != h && w.sessions[h].id == []
    ensures h in Step(w, e).sessions && Step(w, e).sessions[h] == w.sessions[h]
  {
    hide Handle, Reap, Inv, Running;
    HandleKeeps(w, e);
    HandleLeavesAlone(w, e, h);
    ReapLeavesAlone(Handle(w, e), e.h, h);
  }

  lemma HandleLeavesAlone(w: World, e: Event, h: nat)
    requires Inv(w) && Enabled(w, e) && Ready(w, e) && h in w.sessions && e.h != h && w.sessions[h].id == []
    ensures h in Handle(w, e).sessions && Handle(w, e).sessions[h] == w.sessions[h]
  {
    hide Push, Written, QueueInvariant;
    if Registered(w, h) { RegisteredIsLive(w, h); }
  }

  lemma ReapLeavesAlone(w: World, k: nat, h: nat)
    requires Running(w, k) && h in w.sessions && k != h && w.sessions[h].id == []
    ensures h in Reap(w, k).sessions && Reap(w, k).sessions[h] == w.sessions[h]
  {
    hide Push, QueueInvariant;
    if Registered(w, h) { RegisteredIsLive(w, h); }
  }

  lemma RefusedHandles(w: World, e: Event, done: nat)
    requires e.h in w.sessions && Refused(w.sessions[e.h], done) && Enabled(w, e)
    ensures e == CloseDone(e.h)
  {
  }

  lemma RefusedOpens(w: World, h: nat)
    requires h !in w.sessions
    ensures Step(w, Open(h, false)) == Put(w, h, Created(false))
  {
  }

  /**
   * A session that was refused is never accepted, told anything or told of: all that ever happens to it is that
   * its two operations end, and it is destroyed with the second.
   */
  lemma {:induction false} RefusedIsSilent(es: seq<Event>, ws: seq<World>, i: nat, k: nat)
    requires IsRun(es, ws) && i < k <= |es| && es[i].Open? && !es[i].authorized
    ensures es[i].h in ws[k].sessions && Refused(ws[k].sessions[es[i].h], Closes(es[i + 1..k], es[i].h))
  {
    hide Step, Inv, Enabled, Refused;
    var h, w, e := es[i].h, ws[k - 1], es[k - 1];
    assert Turn(w, e, ws[k]);
    Safety(es, ws, k - 1);
    if k == i + 1 {
      RefusedStarts(ws[i], h);
    } else {
      RefusedIsSilent(es, ws, i, k - 1);
      var done := Closes(es[i + 1..k - 1], h);
      assert es[i + 1..k][..k - i - 2] == es[i + 1..k - 1];
      if e.h == h {
        RefusedHandles(w, e, done);
        RefusedClosed(w, h, done);
      } else {
        RefusedHasNoId(w.sessions[h], done);
        OthersLeaveAlone(w, e, h);
      }
    }
  }

  lemma RefusedStarts(w: World, h: nat)
    requires Enabled(w, Open(h, false))
    ensures h in Step(w, Open(h, false)).sessions && Refused(Step(w, Open(h, false)).sessions[h], 0)
  {
    RefusedOpens(w, h);
  }

  lemma RefusedHasNoId(s: Session, done: nat)
    requires Refused(s, done)
    ensures s.id == []
  {
  }

  // The registry's own send.

  /** A message for an id reaches exactly the session registered under it: nobody if there is none. */
  lemma SendReaches(w: World, id: bytes, m: bytes, h: nat)
    requires Inv(w) && h in w.sessions
    ensures var v := SendTo(w, id, m);
            && v.registry == w.registry && v.log == w.log && v.sessions.Keys == w.sessions.Keys
            && (if id in w.registry && w.registry[id] == h
                then v.sessions[h].queue == w.sessions[h].queue + [m]
                else v.sessions[h] == w.sessions[h])
  {
    hide QueueInvariant;
  }
}
