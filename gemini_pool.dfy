/**
 * GeminiConnectionPool: one dedicated client per interview session, kept in a map from
 * session id to client.  Construction of the URI is the only part of createConnection that
 * is modelled; whether `new URI(...)` accepts the text is an input.
 */
module GeminiPool {
  import opened Wrappers
  import opened GeminiSession
  import opened GeminiClient

  const CreateFailure := "Failed to create Gemini connection"

  class Pool {
    const url: string
    const apiKey: string
    const defaultVoice: Option<string>
    const systemInstruction: Option<string>
    var connections: map<string, Client>

    /** Every pooled client is in a good state and was built for the session it is filed under. */
    ghost predicate Valid()
      reads this, connections.Values
    {
      forall s :: s in connections ==> connections[s].Valid() && connections[s].sessionId == Some(s)
    }

    /** `url + "?key=" + apiKey`. */
    function ConnectionUri(): string {
      url + "?key=" + apiKey
    }

    constructor (url: string, apiKey: string, defaultVoice: Option<string>, systemInstruction: Option<string>)
      ensures Valid() && connections == map[]
      ensures this.url == url && this.apiKey == apiKey
      ensures this.defaultVoice == defaultVoice && this.systemInstruction == systemInstruction
    {
      this.url := url;
      this.apiKey := apiKey;
      this.defaultVoice := defaultVoice;
      this.systemInstruction := systemInstruction;
      connections := map[];
    }

    /** Two pooled clients filed under different sessions are different objects. */
    lemma DistinctClients(s: string, t: string)
      requires Valid() && s in connections && t in connections && s != t
      ensures connections[s] != connections[t]
    {
    }

    /**
     * getConnection (computeIfAbsent): an existing client is returned as is; otherwise a new
     * one is built for this session, or the call fails and nothing is stored.
     */
    method GetConnection(s: string, uriParses: bool) returns (r: Result<Client, string>)
      requires Valid()
      modifies this
      ensures Valid()
      ensures s in old(connections) ==> r == Success(old(connections)[s]) && connections == old(connections)
      ensures s !in old(connections) && !uriParses ==> r == Failure(CreateFailure) && connections == old(connections)
      ensures s !in old(connections) && uriParses ==>
                r.Success? && fresh(r.value) && connections == old(connections)[s := r.value] &&
                r.value.uri == ConnectionUri() && r.value.sessionId == Some(s) &&
                r.value.defaultVoice == defaultVoice && r.value.systemInstruction == systemInstruction &&
                r.value.State() == Initial
    {
      if s in connections {
        return Success(connections[s]);
      }
      if !uriParses {
        return Failure(CreateFailure);
      }
      var client := new Client(ConnectionUri(), Some(s), defaultVoice, systemInstruction);
      connections := connections[s := client];
      r := Success(client);
    }

    /** removeConnection: drop the entry and close its client once; no-op for an absent id. */
    method RemoveConnection(s: string, outcome: CloseOutcome)
      requires Valid()
      modifies this, if s in connections then {connections[s]} else {}
      ensures Valid()
      ensures connections == old(connections) - {s}
      ensures s in old(connections) ==>
                old(connections)[s].Valid() &&
                old(connections)[s].State() == CloseSpec(old(connections[s].State()), outcome)
    {
      if s in connections {
        var client := connections[s];
        connections := connections - {s};
        CloseKeepsInv(client.State(), outcome);
        var _ := client.CloseBlocking(outcome);
      }
    }

    /** getActiveConnectionCount: every entry counts, open or not. */
    method ActiveConnectionCount() returns (n: nat)
      ensures n == |connections.Keys|
    {
      n := |connections.Keys|;
    }

    /** hasConnection: an entry exists and its socket is open. */
    method HasConnection(s: string) returns (b: bool)
      ensures b <==> s in connections && connections[s].readyState == Open
    {
      b := s in connections && connections[s].readyState == Open;
    }

    /**
     * closeAllConnections: every pooled client gets one close request, in whatever order the
     * map yields them, and the pool ends empty.  Once a close is interrupted the thread stays
     * interrupted, so every later close is interrupted as well.
     */
    method CloseAllConnections(outcomeOf: string -> CloseOutcome)
      requires Valid()
      modifies this, connections.Values
      ensures connections == map[]
      ensures forall s :: s in old(connections) ==>
                ClosedOnce(old(connections[s].State()), old(connections)[s].State())
    {
      ghost var before := map s | s in connections :: connections[s].State();
      ghost var after := CloseEach(connections, outcomeOf, before);
      connections := map[];
    }
  }

  /** Every client is filed under its own session. */
  ghost predicate FiledBySession(clients: map<string, Client>) {
    forall s :: s in clients ==> clients[s].sessionId == Some(s)
  }

  /** After a prefix of the forEach: the pending clients are untouched, the others closed once. */
  ghost predicate Progress(clients: map<string, Client>, pending: set<string>,
                           before: map<string, ClientState>, after: map<string, ClientState>)
    reads clients.Values
  {
    pending <= clients.Keys && before.Keys == clients.Keys && after.Keys == clients.Keys - pending &&
    (forall s :: s in pending ==> clients[s].State() == before[s]) &&
    (forall s :: s in after ==> clients[s].State() == after[s] && ClosedOnce(before[s], after[s]))
  }

  /** Closing every client once keeps each one's invariant. */
  lemma ClosedAllKeepInv(before: map<string, ClientState>, after: map<string, ClientState>)
    requires forall s :: s in before ==> Inv(before[s])
    requires forall s :: s in after ==> s in before && ClosedOnce(before[s], after[s])
    ensures forall s :: s in after ==> Inv(after[s])
  {
    forall s | s in after
      ensures Inv(after[s])
    {
      ClosedOnceKeepsInv(before[s], after[s]);
    }
  }

  /** One step of the forEach of closeAllConnections. */
  method CloseNext(clients: map<string, Client>, s: string, o: CloseOutcome, ghost pending: set<string>,
                   ghost before: map<string, ClientState>, ghost after: map<string, ClientState>)
      returns (interrupted: bool, ghost after': map<string, ClientState>)
    requires FiledBySession(clients) && s in pending
    requires Progress(clients, pending, before, after)
    modifies clients[s]
    ensures Progress(clients, pending - {s}, before, after')
    ensures interrupted <==> before[s].readyState != Closed && o == CloseInterrupted
  {
    interrupted := clients[s].CloseBlocking(o);
    after' := after[s := clients[s].State()];
  }

  /** The forEach of closeAllConnections over a map of clients filed under their own sessions. */
  method CloseEach(clients: map<string, Client>, outcomeOf: string -> CloseOutcome, ghost before: map<string, ClientState>)
      returns (ghost after: map<string, ClientState>)
    requires FiledBySession(clients) && Progress(clients, clients.Keys, before, map[])
    modifies clients.Values
    ensures Progress(clients, {}, before, after)
  {
    after := map[];
    var pending := clients.Keys;
    var interrupted := false;
    while pending != {}
      invariant Progress(clients, pending, before, after)
      decreases pending
    {
      var s :| s in pending;
      var o := if interrupted then CloseInterrupted else outcomeOf(s);
      var wasInterrupted;
      wasInterrupted, after := CloseNext(clients, s, o, pending, before, after);
      interrupted := interrupted || wasInterrupted;
      pending := pending - {s};
    }
  }
}
