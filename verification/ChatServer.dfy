/**
 * The classes of shared_state.cpp and websocket_session.cpp, updated in place. Every method is proved
 * to do to the abstract state what the chat machine says, so the theorems about runs are about it.
 */
module ChatServer {
  import opened Octets
  import opened Chat
  import opened ChatSafety
  import Admission
  import Algorithms
  import Claims
  import Verification
  import VerificationLaws

  const CHARSET: bytes := DIGITS + UPPER + LOWER

  /** `websocket_session`. The counters and the buffers in flight are what its stream has outstanding. */
  class WebsocketSession {
    const handle: nat
    const state: SharedState
    var buffer: bytes
    var queue: seq<bytes>
    var connectionId: bytes
    var accepting: nat
    var closing: nat
    var reading: nat
    var flight: seq<bytes>
    var alive: bool
    ghost var enqueued: seq<bytes>
    ghost var delivered: seq<bytes>
    ghost var writeFailed: bool

    ghost function View(): Session
      reads this
    {
      Session(connectionId, buffer, queue, accepting, closing, reading, flight, alive, enqueued, delivered, writeFailed)
    }

    constructor (handle: nat, state: SharedState)
      ensures this.handle == handle && this.state == state
      ensures View() == Created(false).(closing := 0)
    {
      this.handle, this.state := handle, state;
      buffer, queue, connectionId := [], [], [];
      accepting, closing, reading, flight, alive := 0, 0, 0, [], true;
      enqueued, delivered, writeFailed := [], [], false;
    }

    /** `send`. */
    method Send(ss: bytes)
      modifies this`queue, this`flight, this`enqueued
      ensures View() == Push(old(View()), ss)
    {
      queue := queue + [ss];
      enqueued := enqueued + [ss];
      if |queue| > 1 { return; }
      flight := flight + [queue[0]];
    }

    /** The session is one of the server's, and the server is in a state a handler of it may find. */
    ghost predicate Known()
      reads this, state, state.all.Values
    {
      state.Valid() && handle in state.all && state.all[handle] == this
    }

    /** `generate_random_string`; the numbers drawn from the generator are given. */
    method GenerateRandomString(length: nat, draws: seq<nat>) returns (r: bytes)
      requires length <= |draws| && forall d | d in draws :: d < |CHARSET|
      ensures r == RandomText(length, draws)
    {
      r := [];
      for i := 0 to length
        invariant r == RandomText(i, draws)
      {
        assert draws[i] in draws;
        r := r + [CHARSET[draws[i]]];
      }
    }

    /** `run`: accept the handshake of a request whose token passes, or close and answer 401. */
    method Run(target: bytes, order: seq<bytes>, now: int, json: Claims.JsonText, hmac: Algorithms.Hmac)
      requires VerificationLaws.Orders(order, Admission.Checks())
      requires View() == Created(false).(closing := 0)
      modifies this`accepting, this`closing
      ensures View() == Created(Admission.Decision(target, order, now, json, hmac) == Verification.Pass)
    {
      hide Admission.Decision, Admission.Checks;
      var o := Admission.Authorize(target, order, now, json, hmac);
      if o == Verification.Pass {
        accepting := accepting + 1;
      } else {
        closing := closing + 1;
        closing := closing + 1;
      }
    }

    /** `on_accept`. */
    method OnAccept(ok: bool, draws: seq<nat>)
      requires Known() && accepting > 0 && ID_LENGTH <= |draws| && forall d | d in draws :: d < |CHARSET|
      modifies state`sessions, state.all.Values
      ensures Known() && state.all == old(state.all)
      ensures state.View() == Chat.OnAccept(old(state.View()), handle, ok, RandomText(ID_LENGTH, draws))
    {
      hide SharedState.View, SharedState.Valid, Chat.Connect;
      accepting := accepting - 1;
      state.OnlyOneChanged(this);
      if !ok { return; }
      label named:
      connectionId := GenerateRandomString(ID_LENGTH, draws);
      state.OnlyOneChanged@named(this);
      state.Connect(connectionId, this);
      label entered:
      reading := reading + 1;
      state.OnlyOneChanged@entered(this);
    }

    /** `on_read`, with the bytes that the completed read has put in the buffer. */
    method OnRead(ok: bool, data: bytes)
      requires Known() && reading > 0 && RegistryInvariant(state.View())
      modifies state`log, state.all.Values
      ensures Known() && state.all == old(state.all)
      ensures state.View() == Chat.OnRead(old(state.View()), handle, ok, data)
    {
      hide SharedState.View, SharedState.Valid, Deliver;
      reading, buffer := reading - 1, buffer + data;
      state.OnlyOneChanged(this);
      if !ok { return; }
      state.Broadcast(buffer, Relay(buffer));
      label sent:
      buffer := [];
      reading := reading + 1;
      state.OnlyOneChanged@sent(this);
    }

    /** `on_write`. */
    method OnWrite(ok: bool)
      requires Known() && flight != [] && queue != []
      modifies this
      ensures Known() && state.View() == Put(old(state.View()), handle, Written(old(View()), ok))
    {
      hide SharedState.View, SharedState.Valid;
      ghost var written := flight[0];
      flight := flight[1..];
      if !ok {
        writeFailed := true;
      } else {
        delivered := delivered + [written];
        queue := queue[1..];
        if queue != [] { flight := flight + [queue[0]]; }
      }
      state.OnlyOneChanged(this);
    }

    /** `on_close` and `on_write_401`. */
    method OnClosed()
      requires Known() && closing > 0
      modifies this`closing
      ensures Known() && state.View() == Put(old(state.View()), handle, old(View()).(closing := old(closing) - 1))
    {
      hide SharedState.View, SharedState.Valid;
      closing := closing - 1;
      state.OnlyOneChanged(this);
    }

    /** The reference of a finished handler goes away; the last one takes the session with it. */
    method Release()
      requires Known() && Running(state.View(), handle)
      modifies state`sessions, state`log, state.all.Values
      ensures Known() && state.all == old(state.all) && state.View() == Reap(old(state.View()), handle)
    {
      hide SharedState.View, SharedState.Valid, Chat.Disconnect, QueueInvariant;
      state.Sees(this);
      if accepting + closing + reading + |flight| == 0 {
        alive := false;
        state.OnlyOneChanged(this);
        DyingLeaves(old(state.View()), handle);
        state.Disconnect(connectionId);
      }
    }
  }

  function RandomText(length: nat, draws: seq<nat>): (r: bytes)
    requires length <= |draws| && forall d | d in draws :: d < |CHARSET|
    ensures |r| == length && forall i | 0 <= i < length :: draws[i] in draws && r[i] == CHARSET[draws[i]]
  {
    seq(length, i requires 0 <= i < length => assert draws[i] in draws; CHARSET[draws[i]])
  }

  lemma DyingLeaves(w: World, h: nat)
    requires Running(w, h)
    ensures var v := Put(w, h, w.sessions[h].(alive := false));
            w.sessions[h].id != [] ==> RegistryInvariant(v.(registry := v.registry - {w.sessions[h].id}))
  {
    DyingIsUnregistered(w, h);
  }

  /** `shared_state`. */
  class SharedState {
    var sessions: map<bytes, WebsocketSession>
    ghost var all: map<nat, WebsocketSession>
    ghost var log: seq<Broadcast>

    /** Handles name sessions, and the registry holds sessions that exist. */
    ghost predicate Valid()
      reads this
    {
      && (forall h | h in all :: all[h].handle == h && all[h].state == this)
      && (forall id | id in sessions :: sessions[id].handle in all && all[sessions[id].handle] == sessions[id])
    }

    ghost function View(): World
      reads this, all.Values
    {
      World(map h | h in all :: all[h].View(), map id | id in sessions :: sessions[id].handle, log)
    }

    constructor ()
      ensures Valid() && View() == EMPTY
    {
      sessions, all, log := map[], map[], [];
    }

    /** What the server's view is after one session alone has changed. */
    twostate lemma OnlyOneChanged(s: WebsocketSession)
      requires old(Valid()) && unchanged(this) && s.handle in all && all[s.handle] == s
      requires forall t | t in all.Values && t != s :: unchanged(t)
      ensures Valid() && View() == Put(old(View()), s.handle, s.View())
      ensures old(View()).sessions[s.handle] == old(s.View())
    {
      forall h | h in all && h != s.handle
        ensures all[h].View() == old(all[h].View())
      {
        assert all[h] in all.Values && all[h] != s;
      }
    }

    lemma OldRegistry()
      requires Valid()
      ensures View().registry == map id | id in sessions :: sessions[id].handle
      ensures forall id | id in sessions :: sessions[id] in all.Values
    {
      assert forall id | id in sessions :: all[sessions[id].handle] in all.Values;
    }

    /** What the server's view is after the registry alone has changed. */
    twostate lemma OnlyRegistryChanged()
      requires old(Valid()) && all == old(all) && log == old(log) && forall s | s in all.Values :: unchanged(s)
      requires forall id | id in sessions :: sessions[id] in all.Values
      ensures Valid() && View() == old(View()).(registry := map id | id in sessions :: sessions[id].handle)
    {
      forall h | h in all
        ensures all[h].View() == old(all[h].View())
      {
        assert all[h] in all.Values;
      }
    }

    /** What the server's view is after a session has been added. */
    twostate lemma OnlyOneAdded(new s: WebsocketSession)
      requires old(Valid()) && s.handle !in old(all) && all == old(all)[s.handle := s] && s.state == this
      requires sessions == old(sessions) && log == old(log)
      requires forall h | h in old(all) :: unchanged(old(all)[h])
      ensures Valid() && View() == Put(old(View()), s.handle, s.View())
    {
    }

    lemma SeesAll()
      ensures View().sessions.Keys == all.Keys
    {
    }

    lemma Sees(s: WebsocketSession)
      requires Valid() && s.handle in all && all[s.handle] == s
      ensures s.handle in View().sessions && View().sessions[s.handle] == s.View()
    {
    }

    /** `get`. */
    method Get(id: bytes) returns (session: WebsocketSession?)
      requires Valid()
      ensures session != null <==> id in View().registry
      ensures session != null ==> session.handle == View().registry[id] && session == all[session.handle]
    {
      session := if id in sessions then sessions[id] else null;
    }

    /** `send`. */
    method Send(id: bytes, message: bytes)
      requires Valid()
      modifies all.Values
      ensures Valid() && View() == SendTo(old(View()), id, message)
    {
      var session := Get(id);
      if session != null { session.Send(message); }
    }

    /** `connect`. */
    method Connect(id: bytes, session: WebsocketSession)
      requires Valid() && session.handle in all && all[session.handle] == session
      modifies this`sessions, all.Values
      ensures Valid() && all == old(all) && View() == Chat.Connect(old(View()), id, session.handle)
    {
      hide SharedState.View, SharedState.Valid;
      OldRegistry();
      sessions := sessions[id := session];
      OnlyRegistryChanged();
      assert View().registry == old(View()).registry[id := session.handle];
      Send(id, WELCOME + id);
    }

    /** The loop of `broadcast`: the entries are visited in no particular order. */
    method SendToAll(message: bytes)
      requires forall i, j | i in sessions && j in sessions && sessions[i] == sessions[j] :: i == j
      modifies sessions.Values
      ensures forall s | s in sessions.Values :: s.View() == Push(old(s.View()), message)
    {
      hide Push;
      ghost var told: set<WebsocketSession> := {};
      var todo := sessions.Keys;
      while todo != {}
        invariant todo <= sessions.Keys && told <= sessions.Values
        invariant forall id | id in sessions :: id in todo <==> sessions[id] !in told
        invariant forall s | s in sessions.Values ::
          s.View() == if s in told then Push(old(s.View()), message) else old(s.View())
        decreases |todo|
      {
        var id :| id in todo;
        var session := sessions[id];
        session.Send(message);
        todo, told := todo - {id}, told + {session};
      }
    }

    /** `broadcast`. */
    method Broadcast(message: bytes, ghost b: Broadcast)
      requires Valid() && RegistryInvariant(View()) && message == TextOf(b)
      modifies this`log, sessions.Values
      ensures Valid() && View() == Deliver(old(View()), b)
    {
      hide RegistryInvariant, SharedState.View, SharedState.Valid;
      OneEntryEach();
      log := log + [b];
      SendToAll(message);
      Sent(b);
    }

    /** What the server's view is after every registered session alone has been sent a message. */
    twostate lemma Sent(b: Broadcast)
      requires old(Valid()) && sessions == old(sessions) && all == old(all) && log == old(log) + [b]
      requires forall s | s in sessions.Values :: s.View() == Push(old(s.View()), TextOf(b))
      requires forall s | s in all.Values && s !in sessions.Values :: unchanged(s)
      ensures Valid() && View() == Deliver(old(View()), b)
    {
      hide Push;
      assert View().registry == old(View()).registry;
      forall h | h in all
        ensures Registered(old(View()), h) <==> all[h] in sessions.Values
      {
        if all[h] in sessions.Values {
          var id :| id in sessions && sessions[id] == all[h];
          assert View().registry[id] == h;
        }
      }
      forall h | h in all
        ensures View().sessions[h] == Deliver(old(View()), b).sessions[h]
      {
        assert all[h] in all.Values;
      }
    }

    /** No session has two entries. */
    lemma OneEntryEach()
      requires Valid() && RegistryInvariant(View())
      ensures forall i, j | i in sessions && j in sessions && sessions[i] == sessions[j] :: i == j
    {
      var w := View();
      forall i, j | i in sessions && j in sessions && sessions[i] == sessions[j]
        ensures i == j
      {
        assert w.registry[i] == w.registry[j];
        assert w.sessions[w.registry[i]].id == i && w.sessions[w.registry[j]].id == j;
      }
    }

    /** `disconnect`. */
    method Disconnect(id: bytes)
      requires Valid() && (id != [] ==> RegistryInvariant(View().(registry := View().registry - {id})))
      modifies this`sessions, this`log, all.Values
      ensures Valid() && View() == Chat.Disconnect(old(View()), id)
    {
      if id != [] {
        hide SharedState.View, SharedState.Valid;
        OldRegistry();
        sessions := sessions - {id};
        OnlyRegistryChanged();
        assert View().registry == old(View()).registry - {id};
        Broadcast(GONE + id, Notice(id));
      }
    }
  }

  /** An upgrade request: a session is made for its socket and started. */
  method Upgrade(state: SharedState, handle: nat, target: bytes, order: seq<bytes>, now: int,
                 json: Claims.JsonText, hmac: Algorithms.Hmac) returns (session: WebsocketSession)
    requires state.Valid() && handle !in state.all && Inv(state.View())
    requires VerificationLaws.Orders(order, Admission.Checks())
    modifies state`all
    ensures session.Known() && session.state == state && session.handle == handle && fresh(session) && Inv(state.View())
    ensures var e := Open(handle, Admission.Decision(target, order, now, json, hmac) == Verification.Pass);
            Enabled(old(state.View()), e) && state.View() == Step(old(state.View()), e)
  {
    hide SharedState.View, SharedState.Valid, Admission.Decision, Inv, Step;
    ghost var w, pass := state.View(), Admission.Decision(target, order, now, json, hmac) == Verification.Pass;
    state.SeesAll();
    Opened(w, handle, pass);
    session := new WebsocketSession(handle, state);
    session.Run(target, order, now, json, hmac);
    state.all := state.all[handle := session];
    state.OnlyOneAdded(session);
  }

  lemma Opened(w: World, h: nat, pass: bool)
    requires Inv(w) && h !in w.sessions
    ensures Enabled(w, Open(h, pass)) && Step(w, Open(h, pass)) == Put(w, h, Created(pass))
    ensures Inv(Step(w, Open(h, pass)))
  {
    hide Inv;
    StepKeeps(w, Open(h, pass));
  }

  /** One turn of the event loop: the completion handler of one operation, then the end of its reference. */
  method Dispatch(s: WebsocketSession, e: Event, draws: seq<nat>)
    requires s.Known() && s.handle == e.h && Inv(s.state.View()) && Enabled(s.state.View(), e) && !e.Open?
    requires e.AcceptDone? ==> ID_LENGTH <= |draws| && (forall d | d in draws :: d < |CHARSET|)
                               && e.newId == RandomText(ID_LENGTH, draws)
    modifies s.state`sessions, s.state`log, s.state.all.Values
    ensures s.Known() && Inv(s.state.View())
    ensures e.WriteDone? ==> old(s.state.View()).sessions[e.h].queue != []
    ensures s.state.View() == Step(old(s.state.View()), e)
  {
    hide SharedState.View, SharedState.Valid, Chat.OnAccept, Chat.OnRead, Written, QueueInvariant, Reap;
    ghost var w := s.state.View();
    s.state.Sees(s);
    HandleKeeps(w, e);
    StepKeeps(w, e);
    match e {
      case AcceptDone(_, ok, newId) => s.OnAccept(ok, draws);
      case ReadDone(_, ok, data) => s.OnRead(ok, data);
      case WriteDone(_, ok) => s.OnWrite(ok);
      case CloseDone(_) => s.OnClosed();
    }
    assert s.state.View() == Handle(w, e);
    s.Release();
  }

  /** The table of `generate_random_string`: digits, capitals, small letters. */
  lemma CharsetIs(i: nat)
    requires i < 62
    ensures |CHARSET| == 62
    ensures Code(CHARSET[i]) == if i < 10 then 48 + i else if i < 36 then 55 + i else 61 + i
  {
    TableParts(if i < 10 then i else if i < 36 then i - 10 else i - 36);
  }

  lemma TableParts(i: nat)
    requires i < 26
    ensures |DIGITS| == 10 && |UPPER| == |LOWER| == 26
    ensures Code(UPPER[i]) == 65 + i && Code(LOWER[i]) == 97 + i && (i < 10 ==> Code(DIGITS[i]) == 48 + i)
  {
    hide UPPER, LOWER;
    Capital(i);
    Small(i);
  }

  lemma Capital(i: nat)
    requires i < 26
    ensures |UPPER| == 26 && Code(UPPER[i]) == 65 + i
  {
  }

  lemma Small(i: nat)
    requires i < 26
    ensures |LOWER| == 26 && Code(LOWER[i]) == 97 + i
  {
  }
}
