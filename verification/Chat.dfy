/**
 * The chat machine on values: what each handler of websocket_session.cpp does to the sessions, and
 * each method of shared_state.cpp to the registry. A session is named by a number, its address.
 */
module Chat {
  import opened Octets

  const WELCOME: bytes := "you connected as :"
  const GONE: bytes := "a client disconnected :"

  /** What `broadcast` is called with: a client's message, or the notice of a destructor. */
  datatype Broadcast = Relay(text: bytes) | Notice(id: bytes)

  function TextOf(b: Broadcast): bytes {
    match b
    case Relay(text) => text
    case Notice(id) => GONE + id
  }

  function Texts(bs: seq<Broadcast>): (ts: seq<bytes>)
    ensures |ts| == |bs| && forall i | 0 <= i < |bs| :: ts[i] == TextOf(bs[i])
  {
    seq(|bs|, i requires 0 <= i < |bs| => TextOf(bs[i]))
  }

  /**
   * A `websocket_session`: its fields, the operations it has outstanding (each holds a reference to
   * it; a write, the buffer it was started on), and the history of its outgoing stream.
   */
  datatype Session = Session(
    id: bytes,
    buffer: bytes,
    queue: seq<bytes>,
    accepting: nat,
    closing: nat,
    reading: nat,
    flight: seq<bytes>,
    alive: bool,
    enqueued: seq<bytes>,
    delivered: seq<bytes>,
    writeFailed: bool)
  {
    /** The handlers that keep the session alive. */
    function Pending(): nat {
      accepting + closing + reading + |flight|
    }

    predicate Accepted() {
      id != []
    }
  }

  datatype World = World(sessions: map<nat, Session>, registry: map<bytes, nat>, log: seq<Broadcast>)

  const EMPTY := World(map[], map[], [])

  predicate Registered(w: World, h: nat) {
    h in w.registry.Values
  }

  // shared_state.cpp and `websocket_session::send`.

  /** `send`: queue the message, and start writing only if the queue was empty. */
  function Push(s: Session, m: bytes): Session {
    var queue := s.queue + [m];
    s.(queue := queue, enqueued := s.enqueued + [m],
       flight := if |queue| > 1 then s.flight else s.flight + [queue[0]])
  }

  function Put(w: World, h: nat, s: Session): World {
    w.(sessions := w.sessions[h := s])
  }

  /** `broadcast`: one message to every session in the registry. */
  function Deliver(w: World, b: Broadcast): World {
    World(map h | h in w.sessions :: if Registered(w, h) then Push(w.sessions[h], TextOf(b)) else w.sessions[h],
          w.registry, w.log + [b])
  }

  /** `shared_state::send`: nothing happens for an id that is not in the registry. */
  function SendTo(w: World, id: bytes, m: bytes): World {
    if id in w.registry && w.registry[id] in w.sessions
    then Put(w, w.registry[id], Push(w.sessions[w.registry[id]], m))
    else w
  }

  /** `connect`: an entry that already has this id is overwritten. */
  function Connect(w: World, id: bytes, h: nat): World {
    SendTo(w.(registry := w.registry[id := h]), id, WELCOME + id)
  }

  /** `disconnect`: whoever holds the id loses the entry, then everyone else is told. */
  function Disconnect(w: World, id: bytes): World {
    if id == [] then w else Deliver(w.(registry := w.registry - {id}), Notice(id))
  }

  // Handlers and lifetime.

  datatype Event =
    | Open(h: nat, authorized: bool)                    // a session is created and `run` decides
    | AcceptDone(h: nat, ok: bool, newId: bytes)        // `on_accept`, with the id it generates
    | ReadDone(h: nat, ok: bool, data: bytes)           // `on_read`
    | WriteDone(h: nat, ok: bool)                       // `on_write`, for the oldest outstanding write
    | CloseDone(h: nat)                                 // either handler of a refused session

  const ID_LENGTH := 16

  predicate Enabled(w: World, e: Event) {
    match e
    case Open(h, _) => h !in w.sessions
    case AcceptDone(h, _, newId) => h in w.sessions && w.sessions[h].accepting > 0 && |newId| == ID_LENGTH
    case ReadDone(h, _, _) => h in w.sessions && w.sessions[h].reading > 0
    case WriteDone(h, _) => h in w.sessions && w.sessions[h].flight != []
    case CloseDone(h) => h in w.sessions && w.sessions[h].closing > 0
  }

  function Created(authorized: bool): Session {
    Session([], [], [], if authorized then 1 else 0, if authorized then 0 else 2, 0, [], true, [], [], false)
  }

  function OnAccept(w: World, h: nat, ok: bool, newId: bytes): (v: World)
    requires h in w.sessions && w.sessions[h].accepting > 0
    ensures h in v.sessions
  {
    var s := w.sessions[h];
    var w1 := Put(w, h, s.(accepting := s.accepting - 1));
    if !ok then w1
    else
      var w2 := Connect(Put(w1, h, w1.sessions[h].(id := newId)), newId, h);
      Put(w2, h, w2.sessions[h].(reading := w2.sessions[h].reading + 1))
  }

  function OnRead(w: World, h: nat, ok: bool, data: bytes): (v: World)
    requires h in w.sessions && w.sessions[h].reading > 0
    ensures h in v.sessions
  {
    var s := w.sessions[h];
    var w1 := Put(w, h, s.(reading := s.reading - 1, buffer := s.buffer + data));
    if !ok then w1
    else
      var w2 := Deliver(w1, Relay(w1.sessions[h].buffer));
      Put(w2, h, w2.sessions[h].(buffer := [], reading := w2.sessions[h].reading + 1))
  }

  /** `on_write`; the erase at the front is only defined for a queue that is not empty. */
  function Written(s: Session, ok: bool): Session
    requires s.flight != [] && s.queue != []
  {
    var s1 := s.(flight := s.flight[1..]);
    if !ok then s1.(writeFailed := true)
    else
      var queue := s1.queue[1..];
      s1.(queue := queue, delivered := s1.delivered + [s.flight[0]],
          flight := if queue == [] then s1.flight else s1.flight + [queue[0]])
  }

  /** The destructor, run as soon as no handler holds the session. */
  function Reap(w: World, h: nat): World
    requires h in w.sessions
  {
    var s := w.sessions[h];
    if s.Pending() > 0 || !s.alive then w
    else Disconnect(Put(w, h, s.(alive := false)), s.id)
  }

  function Handle(w: World, e: Event): (v: World)
    requires Enabled(w, e) && (e.WriteDone? ==> w.sessions[e.h].queue != [])
    ensures e.h in v.sessions
  {
    match e
    case Open(h, authorized) => Put(w, h, Created(authorized))
    case AcceptDone(h, ok, newId) => OnAccept(w, h, ok, newId)
    case ReadDone(h, ok, data) => OnRead(w, h, ok, data)
    case WriteDone(h, ok) => Put(w, h, Written(w.sessions[h], ok))
    case CloseDone(h) => Put(w, h, w.sessions[h].(closing := w.sessions[h].closing - 1))
  }

  /** One turn of the event loop: a handler runs, and its reference goes away. */
  function Step(w: World, e: Event): World
    requires Enabled(w, e) && (e.WriteDone? ==> w.sessions[e.h].queue != [])
  {
    Reap(Handle(w, e), e.h)
  }
}
