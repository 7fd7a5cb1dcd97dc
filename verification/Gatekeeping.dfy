/** The chat and the tokens together: who can take part in a run. */
module Gatekeeping {
  import opened Octets
  import opened Chat
  import opened ChatSafety
  import opened ChatRuns
  import ChatLog
  import opened Admission
  import Algorithms
  import Claims
  import Tokens
  import Verification
  import VerificationLaws

  /** The session is one whose handshake was started. */
  predicate Admitted(s: Session) {
    s.accepting > 0 || s.Accepted()
  }

  lemma PushAdmits(s: Session, m: bytes)
    ensures Admitted(Push(s, m)) == Admitted(s)
  {
  }

  lemma DeliverAdmits(w: World, b: Broadcast, g: nat)
    requires g in w.sessions
    ensures Admitted(Deliver(w, b).sessions[g]) == Admitted(w.sessions[g])
  {
    hide Push;
    PushAdmits(w.sessions[g], TextOf(b));
  }

  lemma WrittenAdmits(s: Session, ok: bool)
    requires s.flight != [] && s.queue != []
    ensures Admitted(Written(s, ok)) == Admitted(s)
  {
  }

  lemma HandleAdmits(w: World, e: Event, g: nat)
    requires Enabled(w, e) && Ready(w, e) && g in w.sessions && Admitted(Handle(w, e).sessions[g])
    ensures Admitted(w.sessions[g])
  {
    hide Push, Written, Deliver;
    match e
    case ReadDone(h, ok, data) =>
      var w1 := Put(w, h, w.sessions[h].(reading := w.sessions[h].reading - 1, buffer := w.sessions[h].buffer + data));
      DeliverAdmits(w1, Relay(w1.sessions[h].buffer), g);
    case WriteDone(h, ok) => WrittenAdmits(w.sessions[h], ok);
    case _ =>
  }

  lemma ReapAdmits(w: World, h: nat, g: nat)
    requires h in w.sessions && g in w.sessions
    ensures g in Reap(w, h).sessions && Reap(w, h).sessions.Keys == w.sessions.Keys
    ensures Admitted(Reap(w, h).sessions[g]) == Admitted(w.sessions[g])
  {
    hide Push;
    var dying := Put(w, h, w.sessions[h].(alive := false));
    DeliverAdmits(dying.(registry := dying.registry - {w.sessions[h].id}), Notice(w.sessions[h].id), g);
  }

  lemma StepAdmits(w: World, e: Event, g: nat)
    requires Enabled(w, e) && Ready(w, e) && g in Step(w, e).sessions && Admitted(Step(w, e).sessions[g])
    ensures if g in w.sessions then Admitted(w.sessions[g]) else e == Open(g, true)
  {
    hide Handle, Reap;
    HandleKeys(w, e);
    ReapAdmits(Handle(w, e), e.h, e.h);
    ReapAdmits(Handle(w, e), e.h, g);
    if g in w.sessions { HandleAdmits(w, e, g); }
  }

  /** Whoever is in the chat, or about to be, was opened with authority. */
  lemma {:induction false} AdmittedWasAuthorized(es: seq<Event>, ws: seq<World>, k: nat, h: nat) returns (i: nat)
    requires IsRun(es, ws) && k <= |es| && h in ws[k].sessions && Admitted(ws[k].sessions[h])
    ensures i < k && es[i] == Open(h, true)
  {
    hide Step;
    assert Turn(ws[k - 1], es[k - 1], ws[k]);
    StepAdmits(ws[k - 1], es[k - 1], h);
    if h in ws[k - 1].sessions {
      i := AdmittedWasAuthorized(es, ws, k - 1, h);
    } else {
      i := k - 1;
    }
  }

  /** An upgrade request: its target, when it came, and the order in which its checks were iterated. */
  datatype Request = Request(target: bytes, now: int, order: seq<bytes>)

  /** Sessions are opened as `Upgrade` opens them: each for a request, on the decision that `run` makes about it. */
  ghost predicate OpenedFor(es: seq<Event>, requests: map<nat, Request>, json: Claims.JsonText, hmac: Algorithms.Hmac) {
    && (forall h | h in requests :: VerificationLaws.Orders(requests[h].order, Checks()))
    && forall i | 0 <= i < |es| && es[i].Open? ::
         && es[i].h in requests
         && var r := requests[es[i].h];
            es[i].authorized == (Decision(r.target, r.order, r.now, json, hmac) == Verification.Pass)
  }

  /** Whoever has been accepted came with a token. */
  lemma HasToken(es: seq<Event>, ws: seq<World>, k: nat, h: nat, requests: map<nat, Request>,
                 json: Claims.JsonText, hmac: Algorithms.Hmac)
    requires IsRun(es, ws) && k <= |es| && OpenedFor(es, requests, json, hmac)
    requires h in ws[k].sessions && ws[k].sessions[h].Accepted()
    ensures h in requests
    ensures var d := Tokens.DecodedToken(TokenIn(requests[h].target), json);
            d.Ok? && IsGenuine(d.value, hmac) && IsTimely(d.value.payloadClaims, requests[h].now)
  {
    hide Decision, Step, Checks, IsGenuine, IsTimely, TokenIn, Tokens.DecodedToken;
    var i := AdmittedWasAuthorized(es, ws, k, h);
    assert es[i].Open? && es[i].h == h;
    AcceptedExactly(requests[h].target, requests[h].order, requests[h].now, json, hmac);
  }

  /**
   * At every state of every run, each session in the registry, so each that a broadcast can reach, came with a
   * token that was signed with the secret, names this issuer and audience, and was in time when it was presented.
   */
  lemma RegisteredHasToken(es: seq<Event>, ws: seq<World>, k: nat, h: nat, requests: map<nat, Request>,
                           json: Claims.JsonText, hmac: Algorithms.Hmac)
    requires IsRun(es, ws) && k <= |es| && OpenedFor(es, requests, json, hmac) && Registered(ws[k], h)
    ensures h in requests
    ensures var d := Tokens.DecodedToken(TokenIn(requests[h].target), json);
            d.Ok? && IsGenuine(d.value, hmac) && IsTimely(d.value.payloadClaims, requests[h].now)
  {
    hide Decision, Step, Checks, IsGenuine, IsTimely, TokenIn, Tokens.DecodedToken, OpenedFor;
    Safety(es, ws, k);
    RegisteredIsLive(ws[k], h);
    HasToken(es, ws, k, h, requests, json, hmac);
  }

  /** And every message that was ever broadcast was read from a session that came with such a token. */
  lemma RelayedHadToken(es: seq<Event>, ws: seq<World>, k: nat, p: nat, requests: map<nat, Request>,
                        json: Claims.JsonText, hmac: Algorithms.Hmac) returns (i: nat)
    requires IsRun(es, ws) && k <= |es| && OpenedFor(es, requests, json, hmac)
    requires p < |ws[k].log| && ws[k].log[p].Relay?
    ensures i < k && |ws[i].log| == p && es[i] == ReadDone(es[i].h, true, ws[k].log[p].text) && es[i].h in requests
    ensures var d := Tokens.DecodedToken(TokenIn(requests[es[i].h].target), json);
            d.Ok? && IsGenuine(d.value, hmac) && IsTimely(d.value.payloadClaims, requests[es[i].h].now)
  {
    hide Decision, Step, Checks, IsGenuine, IsTimely, TokenIn, Tokens.DecodedToken, Inv, Enabled, OpenedFor;
    i := ChatLog.LoggedBy(es, ws, k, p);
    Safety(es, ws, i);
    ChatLog.ReaderIsAccepted(ws[i], es[i]);
    HasToken(es, ws, i, es[i].h, requests, json, hmac);
  }

  /** So whatever a client is delivered after its welcome was caused by a session that came with such a token. */
  lemma DeliveredHadToken(es: seq<Event>, ws: seq<World>, i: nat, k: nat, p: nat, requests: map<nat, Request>,
                          json: Claims.JsonText, hmac: Algorithms.Hmac) returns (j: nat)
    requires IsRun(es, ws) && i < k <= |es| && OpenedFor(es, requests, json, hmac)
    requires Accepts(es[i], es[i].h) && es[i].h in ws[k].sessions
    requires |ws[i].log| <= p && Place(ws, i, p) < |ws[k].sessions[es[i].h].delivered|
    ensures j < k && |ws[j].log| == p && es[j].h in requests
    ensures var m := ws[k].sessions[es[i].h].delivered[Place(ws, i, p)];
            es[j] == ReadDone(es[j].h, true, m)
            || (es[j].h in ws[j].sessions && m == "a client disconnected :" + ws[j].sessions[es[j].h].id)
    ensures var d := Tokens.DecodedToken(TokenIn(requests[es[j].h].target), json);
            d.Ok? && IsGenuine(d.value, hmac) && IsTimely(d.value.payloadClaims, requests[es[j].h].now)
  {
    hide Decision, Step, Checks, IsGenuine, IsTimely, TokenIn, Tokens.DecodedToken, Inv, Enabled, OpenedFor;
    j := ChatLog.DeliveredWasRead(es, ws, i, k, p);
    HasToken(es, ws, j, es[j].h, requests, json, hmac);
  }
}
