/** Whole runs of the chat server: ordering, delivery, lifetime and conservation. */
module ChatRuns {
  import opened Octets
  import opened Chat
  import opened ChatSafety
  import opened ChatStreams

  /** A handler can run without erasing from an empty queue. */
  predicate Ready(w: World, e: Event)
    requires Enabled(w, e)
  {
    e.WriteDone? ==> w.sessions[e.h].queue != []
  }

  ghost predicate Turn(w: World, e: Event, v: World) {
    Enabled(w, e) && Ready(w, e) && v == Step(w, e)
  }

  /** A run of the event loop: its events, and the states before, between and after them. */
  ghost predicate IsRun(es: seq<Event>, ws: seq<World>) {
    |ws| == |es| + 1 && ws[0] == EMPTY && forall i | 0 <= i < |es| :: Turn(ws[i], es[i], ws[i + 1])
  }

  /**
   * Every reachable state has the invariant, and no completion that can arrive in it
   * finds an empty queue to erase from.
   */
  lemma {:induction false} Safety(es: seq<Event>, ws: seq<World>, k: nat)
    requires IsRun(es, ws) && k <= |es|
    ensures Inv(ws[k])
    ensures forall e | Enabled(ws[k], e) :: Ready(ws[k], e)
  {
    if k > 0 {
      Safety(es, ws, k - 1);
      assert Turn(ws[k - 1], es[k - 1], ws[k]);
      StepKeeps(ws[k - 1], es[k - 1]);
    }
    forall e | Enabled(ws[k], e)
      ensures Ready(ws[k], e)
    {
      StepKeeps(ws[k], e);
    }
  }

  /** The runs never block: an event that is enabled in the last state extends the run. */
  lemma Extends(es: seq<Event>, ws: seq<World>, e: Event)
    requires IsRun(es, ws) && Enabled(ws[|es|], e)
    ensures Ready(ws[|es|], e) && IsRun(es + [e], ws + [Step(ws[|es|], e)])
  {
    hide Step;
    Safety(es, ws, |es|);
    var fs, vs := es + [e], ws + [Step(ws[|es|], e)];
    forall i | 0 <= i < |fs|
      ensures Turn(vs[i], fs[i], vs[i + 1])
    {
      assert i < |es| ==> Turn(ws[i], es[i], ws[i + 1]);
    }
  }

  // Streams.

  ghost predicate Accepts(e: Event, h: nat) {
    e.AcceptDone? && e.ok && e.h == h
  }

  lemma TextsConcat(x: seq<Broadcast>, y: seq<Broadcast>)
    ensures Texts(x + y) == Texts(x) + Texts(y)
  {
  }

  /** The turn in which a session is accepted. */
  lemma AcceptTurn(w: World, e: Event)
    requires Inv(w) && Enabled(w, e) && Accepts(e, e.h)
    ensures var v := Step(w, e);
            && v.log == w.log && Registered(v, e.h) && e.h in v.sessions && v.sessions[e.h].id == e.newId
            && v.sessions[e.h].enqueued == [WELCOME + e.newId]
    ensures !w.sessions[e.h].Accepted()
  {
    hide OnAccept;
    AcceptPieces(w.sessions[e.h], e.newId);
    AcceptFollows(w, e.h, e.newId, e.h);
  }

  /** A window of the log, carried over one turn. */
  lemma WindowGrows(w: World, v: World, h: nat, start: nat, until: seq<Broadcast>, head: seq<bytes>)
    requires Follows(w, v, h) && w.sessions[h].Accepted() && start <= |until| && until <= w.log
    requires w.sessions[h].enqueued == head + Texts(until[start..]) && (Registered(w, h) ==> until == w.log)
    ensures v.sessions[h].id == w.sessions[h].id && w.log <= v.log && (Registered(v, h) ==> Registered(w, h))
    ensures v.sessions[h].enqueued == head + Texts((if Registered(v, h) then v.log else until)[start..])
  {
    hide Registered, Texts;
    if Registered(v, h) {
      assert v.log[start..] == until[start..] + v.log[|w.log|..];
      TextsConcat(until[start..], v.log[|w.log|..]);
    }
  }

  /**
   * The stream of a session accepted in turn `i`, at any later state `k`: its own welcome, then every
   * broadcast logged from its acceptance up to state `j`, the last at which it was still registered.
   */
  lemma {:induction false} StreamIsAWindow(es: seq<Event>, ws: seq<World>, i: nat, k: nat) returns (j: nat)
    requires IsRun(es, ws) && i < k <= |es| && Accepts(es[i], es[i].h)
    ensures i < j <= k && |ws[i].log| <= |ws[j].log| && ws[j].log <= ws[k].log && es[i].h in ws[k].sessions
    ensures forall m | i < m <= j :: Registered(ws[m], es[i].h)
    ensures forall m | j < m <= k :: !Registered(ws[m], es[i].h)
    ensures ws[k].sessions[es[i].h].id == es[i].newId && |es[i].newId| == 16
    ensures ws[k].sessions[es[i].h].enqueued
         == ["you connected as :" + es[i].newId] + Texts(ws[j].log[|ws[i].log|..])
  {
    hide Step, Inv, Follows, Registered, Texts;
    var h := es[i].h;
    assert Turn(ws[k - 1], es[k - 1], ws[k]);
    Safety(es, ws, k - 1);
    if k == i + 1 {
      AcceptTurn(ws[i], es[i]);
      j := k;
      NoTexts(ws[j].log, |ws[i].log|);
    } else {
      var last := StreamIsAWindow(es, ws, i, k - 1);
      StepFollows(ws[k - 1], es[k - 1], h);
      FollowsKeepsKey(ws[k - 1], ws[k], h);
      WindowGrows(ws[k - 1], ws[k], h, |ws[i].log|, ws[last].log, [WELCOME + es[i].newId]);
      j := if Registered(ws[k], h) then k else last;
    }
  }

  lemma NoTexts(log: seq<Broadcast>, n: nat)
    requires n == |log|
    ensures Texts(log[n..]) == []
  {
  }

  lemma FollowsKeepsKey(w: World, v: World, h: nat)
    requires Follows(w, v, h)
    ensures h in w.sessions && h in v.sessions
  {
  }

  /** Every accepted session of a reachable state was accepted in some turn, with the id it has. */
  lemma {:induction false} AcceptedOnce(es: seq<Event>, ws: seq<World>, k: nat, h: nat) returns (i: nat)
    requires IsRun(es, ws) && k <= |es| && h in ws[k].sessions && ws[k].sessions[h].Accepted()
    ensures i < k && Accepts(es[i], h) && es[i].newId == ws[k].sessions[h].id
  {
    hide Step, Inv;
    assert Turn(ws[k - 1], es[k - 1], ws[k]);
    Safety(es, ws, k - 1);
    if h in ws[k - 1].sessions && ws[k - 1].sessions[h].Accepted() {
      StepFollows(ws[k - 1], es[k - 1], h);
      i := AcceptedOnce(es, ws, k - 1, h);
    } else {
      BecomesAccepted(ws[k - 1], es[k - 1], h);
      i := k - 1;
    }
  }

  /** Handlers change who is accepted and alive only as `on_accept` says. */
  lemma HandleIdentity(w: World, e: Event, g: nat)
    requires Inv(w) && Enabled(w, e) && Ready(w, e) && g in w.sessions
    ensures var s, t := w.sessions[g], Handle(w, e).sessions[g];
            t.alive == s.alive && t.id == if Accepts(e, g) then e.newId else s.id
  {
    hide Push, Written, Deliver, QueueInvariant;
    match e
    case Open(h, authorized) =>
    case AcceptDone(h, ok, newId) =>
      if ok { PushIdentity(w.sessions[h].(accepting := w.sessions[h].accepting - 1, id := newId), WELCOME + newId); }
    case ReadDone(h, ok, data) =>
      var w1 := Put(w, h, w.sessions[h].(reading := w.sessions[h].reading - 1, buffer := w.sessions[h].buffer + data));
      DeliverIdentity(w1, Relay(w1.sessions[h].buffer), g);
    case WriteDone(h, ok) => WrittenIdentity(w.sessions[h], ok);
    case CloseDone(h) =>
  }

  lemma HandleKeys(w: World, e: Event)
    requires Enabled(w, e) && Ready(w, e)
    ensures Handle(w, e).sessions.Keys == w.sessions.Keys + {e.h}
    ensures e.Open? ==> Handle(w, e).sessions[e.h] == Created(e.authorized)
  {
  }

  lemma ReapIdentity(w: World, h: nat, g: nat)
    requires h in w.sessions && g in w.sessions
    ensures g in Reap(w, h).sessions && Reap(w, h).sessions.Keys == w.sessions.Keys
    ensures var s, t := w.sessions[g], Reap(w, h).sessions[g];
            t.id == s.id && t.alive == if g == h && s.Pending() == 0 then false else s.alive
  {
    hide Push;
    if w.sessions[h].Pending() == 0 && w.sessions[h].alive {
      var dying := Put(w, h, w.sessions[h].(alive := false));
      if w.sessions[h].id != [] {
        DeliverIdentity(dying.(registry := dying.registry - {w.sessions[h].id}), Notice(w.sessions[h].id), g);
      }
    }
  }

  lemma BecomesAccepted(w: World, e: Event, h: nat)
    requires Inv(w) && Enabled(w, e) && Ready(w, e) && h in Step(w, e).sessions && Step(w, e).sessions[h].Accepted()
    requires h !in w.sessions || !w.sessions[h].Accepted()
    ensures Accepts(e, h) && Step(w, e).sessions[h].id == e.newId
  {
    hide Handle, Reap, QueueInvariant;
    HandleKeys(w, e);
    var v := Handle(w, e);
    ReapIdentity(v, e.h, e.h);
    ReapIdentity(v, e.h, h);
    if h in w.sessions { HandleIdentity(w, e, h); }
  }

  /** What a reachable session was queued, was delivered and still holds. */
  lemma DeliveredIsAPrefix(es: seq<Event>, ws: seq<World>, k: nat, h: nat)
    requires IsRun(es, ws) && k <= |es| && h in ws[k].sessions
    ensures var s := ws[k].sessions[h];
            && s.enqueued == s.delivered + s.queue
            && (!s.alive && !s.writeFailed ==> s.delivered == s.enqueued)
            && (s.writeFailed ==> s.flight == [] && s.queue != [])
  {
    Safety(es, ws, k);
  }

  /** Once a write has failed nothing more is delivered, and once a session is destroyed nothing of it changes. */
  lemma {:induction false} EndsAreFinal(es: seq<Event>, ws: seq<World>, i: nat, k: nat, h: nat)
    requires IsRun(es, ws) && i <= k <= |es| && h in ws[i].sessions
    ensures h in ws[k].sessions && ws[i].sessions[h].delivered <= ws[k].sessions[h].delivered
    ensures ws[i].sessions[h].writeFailed
        ==> ws[k].sessions[h].writeFailed && ws[k].sessions[h].delivered == ws[i].sessions[h].delivered
    ensures !ws[i].sessions[h].alive ==> ws[k].sessions[h] == ws[i].sessions[h]
  {
    hide Step, Inv;
    if i < k {
      EndsAreFinal(es, ws, i, k - 1, h);
      assert Turn(ws[k - 1], es[k - 1], ws[k]);
      Safety(es, ws, k - 1);
      StepFollows(ws[k - 1], es[k - 1], h);
    }
  }

  /** Where broadcast `p` of the log stands in the stream of a session accepted in turn `i`. */
  function Place(ws: seq<World>, i: nat, p: nat): int
    requires i < |ws|
  {
    1 + p - |ws[i].log|
  }

  /** What a client is told: a message as it was read, or that the client with an id has gone. */
  predicate Says(b: Broadcast, m: bytes) {
    match b
    case Relay(text) => m == text
    case Notice(id) => m == "a client disconnected :" + id
  }

  lemma TextsSay(b: Broadcast)
    ensures Says(b, TextOf(b))
  {
  }

  /** The first message a client gets is its welcome. */
  lemma WelcomeComesFirst(es: seq<Event>, ws: seq<World>, i: nat, k: nat)
    requires IsRun(es, ws) && i < k <= |es| && Accepts(es[i], es[i].h) && es[i].h in ws[k].sessions
    ensures var s := ws[k].sessions[es[i].h];
            s.delivered != [] ==> s.delivered[0] == "you connected as :" + s.id
  {
    hide Step, Inv, Turn;
    var j := StreamIsAWindow(es, ws, i, k);
    DeliveredIsAPrefix(es, ws, k, es[i].h);
    var s := ws[k].sessions[es[i].h];
    if s.delivered != [] { assert s.delivered[0] == s.enqueued[0]; }
  }

  /** A delivered message, its welcome apart, is the broadcast its place says. */
  lemma DeliveredIsLogged(es: seq<Event>, ws: seq<World>, i: nat, k: nat, p: nat)
    requires IsRun(es, ws) && i < k <= |es| && Accepts(es[i], es[i].h) && es[i].h in ws[k].sessions
    requires |ws[i].log| <= p && Place(ws, i, p) < |ws[k].sessions[es[i].h].delivered|
    ensures p < |ws[k].log|
    ensures Says(ws[k].log[p], ws[k].sessions[es[i].h].delivered[Place(ws, i, p)])
  {
    hide TextOf;
    hide Step, Inv, Turn;
    var j := StreamIsAWindow(es, ws, i, k);
    DeliveredIsAPrefix(es, ws, k, es[i].h);
    var s := ws[k].sessions[es[i].h];
    var window := ws[j].log[|ws[i].log|..];
    assert s.delivered[Place(ws, i, p)] == s.enqueued[Place(ws, i, p)] == Texts(window)[p - |ws[i].log|];
    assert window[p - |ws[i].log|] == ws[j].log[p] == ws[k].log[p];
    TextsSay(ws[k].log[p]);
  }

  /** Two clients who both got broadcasts `p` and `q` got them in the order they were made. */
  lemma SameOrderForAll(es: seq<Event>, ws: seq<World>, a: nat, b: nat, k: nat, p: nat, q: nat)
    requires IsRun(es, ws) && a < k <= |es| && b < k && Accepts(es[a], es[a].h) && Accepts(es[b], es[b].h)
    requires es[a].h in ws[k].sessions && es[b].h in ws[k].sessions
    requires |ws[a].log| <= p < q && |ws[b].log| <= p
    requires Place(ws, a, q) < |ws[k].sessions[es[a].h].delivered|
    requires Place(ws, b, q) < |ws[k].sessions[es[b].h].delivered|
    ensures var x, y := ws[k].sessions[es[a].h].delivered, ws[k].sessions[es[b].h].delivered;
            && 0 < Place(ws, a, p) < Place(ws, a, q) && 0 < Place(ws, b, p) < Place(ws, b, q) && q < |ws[k].log|
            && x[Place(ws, a, p)] == y[Place(ws, b, p)] && Says(ws[k].log[p], x[Place(ws, a, p)])
            && x[Place(ws, a, q)] == y[Place(ws, b, q)] && Says(ws[k].log[q], x[Place(ws, a, q)])
  {
    hide IsRun;
    DeliveredIsLogged(es, ws, a, k, p);
    DeliveredIsLogged(es, ws, b, k, p);
    DeliveredIsLogged(es, ws, a, k, q);
    DeliveredIsLogged(es, ws, b, k, q);
  }

  // Conservation.

  ghost function LiveAccepted(w: World): set<nat> {
    set h | h in w.sessions && w.sessions[h].alive && w.sessions[h].Accepted()
  }

  function Notices(log: seq<Broadcast>): nat {
    if log == [] then 0 else Notices(log[..|log| - 1]) + if log[|log| - 1].Notice? then 1 else 0
  }

  function AcceptCount(es: seq<Event>): nat {
    if es == [] then 0
    else
      var e := es[|es| - 1];
      AcceptCount(es[..|es| - 1]) + if e.AcceptDone? && e.ok then 1 else 0
  }

  lemma HandleLives(w: World, e: Event)
    requires Inv(w) && Enabled(w, e) && Ready(w, e)
    ensures LiveAccepted(Handle(w, e)) == LiveAccepted(w) + if Accepts(e, e.h) then {e.h} else {}
    ensures e.h in LiveAccepted(w) ==> !Accepts(e, e.h)
  {
    hide Handle, QueueInvariant;
    var v := Handle(w, e);
    HandleKeys(w, e);
    forall g | g in w.sessions
      ensures v.sessions[g].alive == w.sessions[g].alive
      ensures v.sessions[g].id == if Accepts(e, g) then e.newId else w.sessions[g].id
    {
      HandleIdentity(w, e, g);
    }
    if Accepts(e, e.h) { AcceptPieces(w.sessions[e.h], e.newId); }
  }

  lemma HandleLogs(w: World, e: Event)
    requires Inv(w) && Enabled(w, e) && Ready(w, e)
    ensures Notices(Handle(w, e).log) == Notices(w.log)
  {
    hide Push, Written;
    if e.ReadDone? && e.ok {
      var log := Handle(w, e).log;
      assert log[..|log| - 1] == w.log && log[|log| - 1].Relay?;
    }
  }

  lemma ReapLives(w: World, h: nat)
    requires Running(w, h)
    ensures LiveAccepted(Reap(w, h)) == LiveAccepted(w) - if w.sessions[h].Pending() == 0 then {h} else {}
    ensures w.sessions[h].Accepted() ==> h in LiveAccepted(w)
  {
    hide QueueInvariant;
    var v := Reap(w, h);
    forall g | g in w.sessions
      ensures g in v.sessions && v.sessions.Keys == w.sessions.Keys && v.sessions[g].id == w.sessions[g].id
      ensures v.sessions[g].alive == if g == h && w.sessions[g].Pending() == 0 then false else w.sessions[g].alive
    {
      ReapIdentity(w, h, g);
    }
  }

  lemma ReapLogs(w: World, h: nat)
    requires Running(w, h)
    ensures Notices(Reap(w, h).log)
         == Notices(w.log) + if w.sessions[h].Pending() == 0 && w.sessions[h].Accepted() then 1 else 0
  {
    hide Push, QueueInvariant;
    var log := Reap(w, h).log;
    if w.sessions[h].Pending() == 0 && w.sessions[h].Accepted() {
      assert log[..|log| - 1] == w.log && log[|log| - 1].Notice?;
    }
  }

  lemma StepCounts(w: World, e: Event)
    requires Inv(w) && Enabled(w, e) && Ready(w, e)
    ensures Notices(Step(w, e).log) + |LiveAccepted(Step(w, e))|
         == Notices(w.log) + |LiveAccepted(w)| + if Accepts(e, e.h) then 1 else 0
  {
    hide Handle, Reap, Inv, Running, Notices, LiveAccepted;
    var v := Handle(w, e);
    HandleKeeps(w, e);
    HandleLives(w, e);
    HandleLogs(w, e);
    ReapLives(v, e.h);
    ReapLogs(v, e.h);
    NotLiveUnlessAccepted(v, e.h);
  }

  lemma NotLiveUnlessAccepted(w: World, h: nat)
    requires h in w.sessions
    ensures h in LiveAccepted(w) ==> w.sessions[h].Accepted()
  {
  }

  /** Disconnect notices broadcast plus sessions accepted and still alive are always the sessions ever accepted. */
  lemma {:induction false} Conservation(es: seq<Event>, ws: seq<World>, k: nat)
    requires IsRun(es, ws) && k <= |es|
    ensures Notices(ws[k].log) + |LiveAccepted(ws[k])| == AcceptCount(es[..k])
  {
    hide Step, Inv, LiveAccepted, Notices;
    if k == 0 {
      assert LiveAccepted(EMPTY) == {} by { NoneLive(); }
      assert Notices([]) == 0 by { NoneLive(); }
    } else {
      Conservation(es, ws, k - 1);
      assert Turn(ws[k - 1], es[k - 1], ws[k]);
      Safety(es, ws, k - 1);
      StepCounts(ws[k - 1], es[k - 1]);
      assert es[..k][..k - 1] == es[..k - 1];
    }
  }

  lemma NoneLive()
    ensures LiveAccepted(EMPTY) == {} && Notices(EMPTY.log) == 0
  {
  }

  // Completeness of the registry.

  /** The registry is exactly the set of live accepted sessions. */
  ghost predicate Complete(w: World) {
    w.registry.Values == LiveAccepted(w)
  }

  /** A session is given an id that a live accepted session already has. */
  ghost predicate Collides(w: World, e: Event) {
    e.AcceptDone? && e.ok && exists g :: g in LiveAccepted(w) && w.sessions[g].id == e.newId
  }

  lemma HandleRegistry(w: World, e: Event)
    requires Enabled(w, e) && Ready(w, e)
    ensures Handle(w, e).registry == if Accepts(e, e.h) then w.registry[e.newId := e.h] else w.registry
  {
    hide Push, Written;
  }

  lemma ReapRegistry(w: World, h: nat)
    requires Running(w, h)
    ensures Reap(w, h).registry
         == if w.sessions[h].Pending() == 0 && w.sessions[h].Accepted()
            then w.registry - {w.sessions[h].id} else w.registry
  {
    hide Push, QueueInvariant;
  }

  lemma HandleCompletes(w: World, e: Event)
    requires Inv(w) && Enabled(w, e) && Ready(w, e) && Complete(w) && !Collides(w, e)
    ensures Complete(Handle(w, e))
  {
    hide Handle, QueueInvariant;
    HandleRegistry(w, e);
    HandleLives(w, e);
    if Accepts(e, e.h) {
      forall id | id in w.registry
        ensures id != e.newId
      {
        assert w.registry[id] in LiveAccepted(w) && w.sessions[w.registry[id]].id == id;
      }
      NewValue(w.registry, e.newId, e.h);
    }
  }

  lemma NewValue(m: map<bytes, nat>, id: bytes, h: nat)
    requires id !in m
    ensures m[id := h].Values == m.Values + {h}
  {
    var n := m[id := h];
    assert n[id] == h;
    forall x | x in m.Values
      ensures x in n.Values
    {
      var k :| k in m && m[k] == x;
      assert n[k] == x;
    }
  }

  lemma ReapCompletes(w: World, h: nat)
    requires Running(w, h) && Complete(w)
    ensures Complete(Reap(w, h))
  {
    hide Reap, QueueInvariant;
    ReapRegistry(w, h);
    ReapLives(w, h);
    if w.sessions[h].Accepted() {
      var id := w.sessions[h].id;
      RegisteredIsLive(w, h);
      var rest := w.registry - {id};
      forall g | g in w.registry.Values && g != h
        ensures g in rest.Values
      {
        var k :| k in w.registry && w.registry[k] == g;
        assert k in rest && rest[k] == g;
      }
      assert forall k | k in rest :: rest[k] in w.registry.Values && w.sessions[rest[k]].id == k;
      assert rest.Values == w.registry.Values - {h};
    }
  }

  lemma CollisionIsIncomplete(w: World, e: Event)
    requires Inv(w) && Enabled(w, e) && Ready(w, e) && Collides(w, e)
    ensures !Complete(Step(w, e))
  {
    hide Handle, Reap, QueueInvariant, Step;
    var v := Step(w, e);
    var g :| g in LiveAccepted(w) && w.sessions[g].id == e.newId;
    AcceptTurn(w, e);
    StepKeeps(w, e);
    BystanderLives(w, e, g);
    RegisteredIsLive(v, e.h);
    if Registered(v, g) { RegisteredIsLive(v, g); }
  }

  lemma BystanderLives(w: World, e: Event, g: nat)
    requires Inv(w) && Enabled(w, e) && Ready(w, e) && g in LiveAccepted(w) && g != e.h
    ensures g in LiveAccepted(Step(w, e)) && Step(w, e).sessions[g].id == w.sessions[g].id
  {
    hide Handle, Reap, QueueInvariant;
    HandleIdentity(w, e, g);
    HandleKeys(w, e);
    ReapIdentity(Handle(w, e), e.h, g);
  }

  /**
   * The registry holds exactly the live accepted sessions at every state of a run if and only if no
   * session of the run is given an id that a live accepted session has. Ids are drawn from a generator
   * seeded with the second, so this can fail.
   */
  lemma RegistryIsCompleteUnlessIdsCollide(es: seq<Event>, ws: seq<World>)
    requires IsRun(es, ws)
    ensures (forall k | 0 <= k <= |es| :: Complete(ws[k])) <==> (forall i | 0 <= i < |es| :: !Collides(ws[i], es[i]))
  {
    hide Complete, Collides, Step, Inv;
    if forall i | 0 <= i < |es| :: !Collides(ws[i], es[i]) {
      forall k | 0 <= k <= |es|
        ensures Complete(ws[k])
      {
        CompleteUpTo(es, ws, k);
      }
    } else {
      var i :| 0 <= i < |es| && Collides(ws[i], es[i]);
      assert Turn(ws[i], es[i], ws[i + 1]);
      Safety(es, ws, i);
      CollisionIsIncomplete(ws[i], es[i]);
    }
  }

  lemma {:induction false} CompleteUpTo(es: seq<Event>, ws: seq<World>, k: nat)
    requires IsRun(es, ws) && k <= |es| && forall i | 0 <= i < k :: !Collides(ws[i], es[i])
    ensures Complete(ws[k])
  {
    hide Collides, Handle, Reap, Inv, Running;
    if k > 0 {
      CompleteUpTo(es, ws, k - 1);
      assert Turn(ws[k - 1], es[k - 1], ws[k]);
      Safety(es, ws, k - 1);
      HandleKeeps(ws[k - 1], es[k - 1]);
      HandleCompletes(ws[k - 1], es[k - 1]);
      ReapCompletes(Handle(ws[k - 1], es[k - 1]), es[k - 1].h);
    }
  }
}
