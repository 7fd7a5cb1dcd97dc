/** What is queued can always be delivered: only a failed write or the end of the program stops it. */
module ChatDrain {
  import opened Octets
  import opened Chat
  import opened ChatSafety
  import opened ChatRuns

  lemma QueueIsWritten(s: Session)
    requires QueueInvariant(s) && s.queue != [] && !s.writeFailed
    ensures s.flight != []
  {
  }

  lemma WrittenQueue(s: Session)
    requires s.flight != [] && s.queue != []
    ensures var t := Written(s, true);
            t.queue == s.queue[1..] && t.enqueued == s.enqueued && t.writeFailed == s.writeFailed
  {
  }

  /** Whether or not it is destroyed, a session keeps its own stream: its notice goes to the others. */
  lemma ReapOwn(w: World, h: nat)
    requires Running(w, h)
    ensures h in Reap(w, h).sessions
    ensures var s, t := w.sessions[h], Reap(w, h).sessions[h];
            t.queue == s.queue && t.enqueued == s.enqueued && t.writeFailed == s.writeFailed
  {
    hide QueueInvariant, Push;
    DyingIsUnregistered(w, h);
  }

  /** One successful write. */
  lemma WriteTurn(w: World, h: nat)
    requires Inv(w) && h in w.sessions && w.sessions[h].queue != [] && !w.sessions[h].writeFailed
    ensures Enabled(w, WriteDone(h, true)) && Ready(w, WriteDone(h, true)) && h in Step(w, WriteDone(h, true)).sessions
    ensures var s, t := w.sessions[h], Step(w, WriteDone(h, true)).sessions[h];
            t.queue == s.queue[1..] && t.enqueued == s.enqueued && !t.writeFailed
  {
    hide QueueInvariant, Written, Reap;
    QueueIsWritten(w.sessions[h]);
    WrittenQueue(w.sessions[h]);
    HandleKeeps(w, WriteDone(h, true));
    ReapOwn(Handle(w, WriteDone(h, true)), h);
  }

  /**
   * From every reachable state, as many successful writes as the queue is long empty the queue of a
   * session without a failed write: it has then been delivered all that it was ever queued.
   */
  lemma {:induction false} Drains(es: seq<Event>, ws: seq<World>, h: nat) returns (fs: seq<Event>, vs: seq<World>)
    requires IsRun(es, ws) && h in ws[|es|].sessions && !ws[|es|].sessions[h].writeFailed
    ensures IsRun(fs, vs) && es <= fs && ws <= vs && |fs| == |es| + |ws[|es|].sessions[h].queue|
    ensures forall i | |es| <= i < |fs| :: fs[i] == WriteDone(h, true)
    ensures h in vs[|fs|].sessions
    ensures var s, t := ws[|es|].sessions[h], vs[|fs|].sessions[h];
            t.queue == [] && t.delivered == t.enqueued == s.enqueued
    decreases |ws[|es|].sessions[h].queue|
  {
    hide Step, Inv, Enabled, IsRun;
    RunLength(es, ws);
    var w := ws[|es|];
    Safety(es, ws, |es|);
    DeliveredIsAPrefix(es, ws, |es|, h);
    if w.sessions[h].queue == [] {
      fs, vs := es, ws;
    } else {
      var e := WriteDone(h, true);
      WriteTurn(w, h);
      Extends(es, ws, e);
      fs, vs := Drains(es + [e], ws + [Step(w, e)], h);
      assert fs[|es|] == (es + [e])[|es|];
      assert (ws + [Step(w, e)])[..|ws|] == ws;
    }
  }

  lemma RunLength(es: seq<Event>, ws: seq<World>)
    requires IsRun(es, ws)
    ensures |ws| == |es| + 1
  {
  }
}
