/** Where the entries of the broadcast log come from. */
module ChatLog {
  import opened Octets
  import opened Chat
  import opened ChatSafety
  import opened ChatRuns
  import opened ChatEndings

  /** What one turn broadcasts: what was read, or the notice of the session it destroys. */
  ghost function Logged(w: World, e: Event): seq<Broadcast> {
    if e.ReadDone? && e.ok then [Relay(e.data)]
    else if e.h in LiveAccepted(w) && LastOne(w.sessions[e.h], e) then [Notice(w.sessions[e.h].id)]
    else []
  }

  lemma HandleLog(w: World, e: Event)
    requires Inv(w) && Enabled(w, e) && Ready(w, e)
    ensures Handle(w, e).log == w.log + if e.ReadDone? && e.ok then [Relay(e.data)] else []
  {
    hide Push, Written;
    if e.ReadDone? {
      ReadPieces(w.sessions[e.h], e.data);
      assert [] + e.data == e.data;
    }
  }

  lemma ReapLog(w: World, h: nat)
    requires h in w.sessions && w.sessions[h].alive
    ensures var s := w.sessions[h];
            Reap(w, h).log == w.log + if s.Pending() == 0 && s.Accepted() then [Notice(s.id)] else []
  {
    hide Push;
  }

  /** The session that a turn destroys, if any, and the id it had before. */
  lemma Destroys(w: World, e: Event)
    requires Inv(w) && Enabled(w, e) && Ready(w, e)
    ensures var s := Handle(w, e).sessions[e.h];
            s.Pending() == 0 && s.Accepted() <==> e.h in LiveAccepted(w) && LastOne(w.sessions[e.h], e)
    ensures var s := Handle(w, e).sessions[e.h];
            s.Pending() == 0 && s.Accepted() ==> s.id == w.sessions[e.h].id
  {
    hide Handle, LastOne, Inv, Enabled;
    DropsExactly(w, e, Handle(w, e).sessions[e.h].id);
    if e.h in LiveAccepted(w) { DropsExactly(w, e, w.sessions[e.h].id); }
  }

  /** The log grows by at most one broadcast a turn. */
  lemma StepLogs(w: World, e: Event)
    requires Inv(w) && Enabled(w, e) && Ready(w, e)
    ensures Step(w, e).log == w.log + Logged(w, e)
  {
    hide Handle, Reap, LastOne, Inv, Enabled, LiveAccepted;
    HandleAlive(w, e);
    HandleLog(w, e);
    ReapLog(Handle(w, e), e.h);
    Destroys(w, e);
    if e.h in LiveAccepted(w) && e.ReadDone? && e.ok { LiveExists(w, e.h); ReadingGoesOn(w.sessions[e.h], e); }
  }

  lemma HandleAlive(w: World, e: Event)
    requires Inv(w) && Enabled(w, e) && Ready(w, e)
    ensures Handle(w, e).sessions[e.h].alive
  {
    hide Handle, Inv;
    HandleKeeps(w, e);
  }

  lemma LiveExists(w: World, h: nat)
    requires h in LiveAccepted(w)
    ensures h in w.sessions
  {
  }

  lemma ReadingGoesOn(s: Session, e: Event)
    requires e.ReadDone? && e.ok
    ensures !LastOne(s, e)
  {
  }

  /**
   * Every entry of the log was broadcast in one turn, which logged nothing else: a message, by the session that
   * had just read it; a notice, by the destructor of a live accepted session with that id, whose last handler ran.
   */
  lemma {:induction false} LoggedBy(es: seq<Event>, ws: seq<World>, k: nat, p: nat) returns (i: nat)
    requires IsRun(es, ws) && k <= |es| && p < |ws[k].log|
    ensures i < k && |ws[i].log| == p && ws[i + 1].log == ws[i].log + [ws[k].log[p]]
    ensures Enabled(ws[i], es[i]) && Logged(ws[i], es[i]) == [ws[k].log[p]]
    ensures match ws[k].log[p]
            case Relay(text) => es[i] == ReadDone(es[i].h, true, text)
            case Notice(id) => es[i].h in LiveAccepted(ws[i]) && ws[i].sessions[es[i].h].id == id
                               && LastOne(ws[i].sessions[es[i].h], es[i])
  {
    hide Step, Inv, LastOne, Enabled, LiveAccepted;
    assert Turn(ws[k - 1], es[k - 1], ws[k]);
    Safety(es, ws, k - 1);
    StepLogs(ws[k - 1], es[k - 1]);
    if p < |ws[k - 1].log| {
      i := LoggedBy(es, ws, k - 1, p);
    } else {
      i := k - 1;
    }
  }

  /** Only sessions in the chat are read from. */
  lemma ReaderIsAccepted(w: World, e: Event)
    requires Inv(w) && Enabled(w, e) && e.ReadDone?
    ensures e.h in w.sessions && w.sessions[e.h].Accepted()
  {
  }

  /**
   * What a client gets after its welcome was either read, as it is, from a session in one turn, or tells that
   * a session with that id was destroyed in it.
   */
  lemma DeliveredWasRead(es: seq<Event>, ws: seq<World>, i: nat, k: nat, p: nat) returns (j: nat)
    requires IsRun(es, ws) && i < k <= |es| && Accepts(es[i], es[i].h) && es[i].h in ws[k].sessions
    requires |ws[i].log| <= p && Place(ws, i, p) < |ws[k].sessions[es[i].h].delivered|
    ensures j < k && |ws[j].log| == p && es[j].h in ws[j].sessions && ws[j].sessions[es[j].h].Accepted()
    ensures var m := ws[k].sessions[es[i].h].delivered[Place(ws, i, p)];
            || es[j] == ReadDone(es[j].h, true, m)
            || (&& m == "a client disconnected :" + ws[j].sessions[es[j].h].id
                && es[j].h in LiveAccepted(ws[j]) && LastOne(ws[j].sessions[es[j].h], es[j]))
  {
    hide Step, Inv, LastOne, Enabled, Turn;
    DeliveredIsLogged(es, ws, i, k, p);
    j := LoggedBy(es, ws, k, p);
    Safety(es, ws, j);
    if ws[k].log[p].Relay? { ReaderIsAccepted(ws[j], es[j]); }
  }
}
