/** One proxied request: the ordered candidate list, the outcome of every dispatch,
    and the commitment that forbids any replay. */
module Proxy {
  import opened Common

  // ---------- Error bodies ----------

  predicate Contains(s: string, part: string) {
    exists i :: 0 <= i <= |s| && part <= s[i..]
  }

  predicate ContainsAny(s: string, markers: seq<string>) {
    exists m :: m in markers && Contains(s, m)
  }

  const VALIDATION_MARKERS := ["validation_required", "verify your account", "verify your account to continue"]
  const QUOTA_MARKERS := ["resource_exhausted", "quota_exceeded", "rate_limit_exceeded", "quota exceeded",
    "quota exhausted", "exceeded your current quota", "insufficient quota"]
  const AUTH_MARKERS :=
    ["unauthenticated", "invalid_grant", "access_token_expired", "account is disabled", "user disabled"]

  predicate IsValidationError(status: int, body: string) {
    status == 403 && ContainsAny(Lower(body), VALIDATION_MARKERS)
  }

  predicate IsQuotaError(status: int, body: string) {
    status == 429 || (status == 403 && ContainsAny(Lower(body), QUOTA_MARKERS))
  }

  predicate IsAuthError(status: int, body: string) {
    status == 401 || (status == 403 && ContainsAny(Lower(body), AUTH_MARKERS))
  }

  // ---------- What the world answers ----------

  const MAX_BODY_BYTES := 64 * 1024 * 1024

  datatype ReadEnd = More | Eof | Broken

  /** One Read of a stream: bytes, whether passing them on fails, and how it ended. */
  datatype ReadResult = ReadResult(bytes: nat, clientGone: bool, end: ReadEnd)

  datatype Body = Whole(text: string) | Interrupted(timeout: bool)

  /** Everything that can come back for one account. */
  datatype Upstream =
    | RefreshFails(invalidCredentials: bool)
    | RequestNotBuilt
    | TransportFails(clientCanceled: bool, timeout: bool)
    | Responds(status: int, eventStream: bool, contentLength: Option<int>, body: Body, chunks: seq<ReadResult>)

  /** A token that could not be refreshed, or a fully read rejection of the account. */
  predicate Replayable(up: Upstream) {
    match up
    case RefreshFails(_) => true
    case Responds(status, _, _, Whole(text), _) =>
      && status >= 400 && |text| <= MAX_BODY_BYTES
      && (IsValidationError(status, text) || IsQuotaError(status, text) || IsAuthError(status, text))
    case _ => false
  }

  function GatewayStatus(timeout: bool): int { if timeout then 504 else 502 }

  /** The status the client is sent because of this answer, None when nothing is written. */
  function ClientStatus(up: Upstream, isSSE: bool): Option<int> {
    match up
    case RefreshFails(_) => None
    case RequestNotBuilt => None
    case TransportFails(clientCanceled, timeout) => if clientCanceled then None else Some(GatewayStatus(timeout))
    case Responds(status, eventStream, _, body, _) =>
      if Replayable(up) then None
      else if status >= 300 then
        if body.Interrupted? then Some(GatewayStatus(body.timeout))
        else if |body.text| > MAX_BODY_BYTES then Some(502) else Some(status)
      else if isSSE || eventStream || body.Whole? then Some(status)
      else Some(GatewayStatus(body.timeout))
  }

  // ---------- The committer ----------

  datatype CommitState = NotCommitted | HeadersCommitted | BodyCommitted | StreamCommitted

  class ResponseCommitter {
    var state: CommitState
    var status: Option<int>

    constructor ()
      ensures state == NotCommitted && status == None
    {
      state, status := NotCommitted, None;
    }

    /** The first status written stays. */
    method WriteHeader(s: int)
      modifies this
      ensures state == if old(state) == NotCommitted then HeadersCommitted else old(state)
      ensures status == if old(state) == NotCommitted then Some(s) else old(status)
    {
      if state == NotCommitted {
        state := HeadersCommitted;
        status := Some(s);
      }
    }

    method Write()
      modifies this`state
      ensures state == if old(state) == NotCommitted then HeadersCommitted else old(state)
    {
      if state == NotCommitted { state := HeadersCommitted; }
    }

    method MarkStream()
      modifies this`state
      ensures state == StreamCommitted
    {
      state := StreamCommitted;
    }

    method MarkBody()
      modifies this`state
      ensures state == BodyCommitted
    {
      state := BodyCommitted;
    }
  }

  /** http.Error on a committer. */
  method SendError(c: ResponseCommitter, s: int)
    modifies c
    ensures c.state != NotCommitted
    ensures old(c.state) == NotCommitted ==> c.status == Some(s)
  {
    c.WriteHeader(s);
    c.Write();
  }

  method SendBuffered(c: ResponseCommitter, s: int)
    modifies c
    ensures c.state == BodyCommitted
    ensures old(c.state) == NotCommitted ==> c.status == Some(s)
  {
    c.WriteHeader(s);
    c.Write();
    c.MarkBody();
  }

  // ---------- Streaming ----------

  datatype StreamResult = Streamed | ClientGone | Truncated

  /** The reads up to and including the one that ends the stream. */
  function Consumed(chunks: seq<ReadResult>): seq<ReadResult> {
    if chunks == [] then [] else
      var r := chunks[0];
      if (r.bytes > 0 && r.clientGone) || r.end != More then [r] else [r] + Consumed(chunks[1..])
  }

  function Bytes(chunks: seq<ReadResult>): nat {
    if chunks == [] then 0 else chunks[0].bytes + Bytes(chunks[1..])
  }

  /** A stream is good when every byte reached the client, it ended properly and
      its length is the announced one. Reads that run out end it properly. */
  predicate StreamIsGood(chunks: seq<ReadResult>, expected: Option<int>) {
    && (forall r :: r in Consumed(chunks) ==> !(r.bytes > 0 && r.clientGone) && r.end != Broken)
    && (expected.None? || Bytes(Consumed(chunks)) == expected.value)
  }

  function StreamOutcome(chunks: seq<ReadResult>, expected: Option<int>, sent: nat): StreamResult
    decreases |chunks|
  {
    if chunks == [] then
      if expected.Some? && sent != expected.value then Truncated else Streamed
    else
      var r := chunks[0];
      if r.bytes > 0 && r.clientGone then ClientGone
      else if r.end == Broken then Truncated
      else StreamOutcome(if r.end == Eof then [] else chunks[1..], expected, sent + r.bytes)
  }

  /** SendStream: commits first, then copies. */
  method SendStream(c: ResponseCommitter, s: int, expected: Option<int>, chunks: seq<ReadResult>)
    returns (r: StreamResult)
    modifies c
    ensures c.state == StreamCommitted
    ensures old(c.state) == NotCommitted ==> c.status == Some(s)
    ensures r == StreamOutcome(chunks, expected, 0)
  {
    c.WriteHeader(s);
    c.MarkStream();
    var sent: nat, i: nat := 0, 0;
    assert chunks[0..] == chunks;
    while i < |chunks|
      invariant 0 <= i <= |chunks| && c.state == StreamCommitted
      invariant old(c.state) == NotCommitted ==> c.status == Some(s)
      invariant StreamOutcome(chunks, expected, 0) == StreamOutcome(chunks[i..], expected, sent)
    {
      var one := chunks[i];
      assert chunks[i..][1..] == chunks[i + 1..];
      if one.bytes > 0 {
        sent := sent + one.bytes;
        c.Write();
        if one.clientGone { return ClientGone; }
      }
      if one.end == Broken { return Truncated; }
      if one.end == Eof { break; }
      i := i + 1;
    }
    if expected.Some? && sent != expected.value { return Truncated; }
    r := Streamed;
  }

  /** Success is reported exactly for a good stream. */
  lemma {:induction false} StreamedMeansGood(chunks: seq<ReadResult>, expected: Option<int>, sent: nat)
    ensures StreamOutcome(chunks, expected, sent) == Streamed <==>
            StreamIsGood(chunks, if expected.None? then None else Some(expected.value - sent))
    decreases |chunks|
  {
    hide Consumed, Bytes;
    if chunks == [] {
      NothingConsumed();
    } else {
      var r, tail := chunks[0], if chunks[0].end == Eof then [] else chunks[1..];
      ConsumedStep(chunks);
      if !(r.bytes > 0 && r.clientGone) && r.end != Broken {
        StreamedMeansGood(tail, expected, sent + r.bytes);
      }
    }
  }

  lemma NothingConsumed()
    ensures Consumed([]) == [] && Bytes([]) == 0
  {}

  lemma ConsumedStep(chunks: seq<ReadResult>)
    requires chunks != []
    ensures chunks[0] in Consumed(chunks)
    ensures var r, tail := chunks[0], if chunks[0].end == Eof then [] else chunks[1..];
            !(r.bytes > 0 && r.clientGone) && r.end != Broken ==>
              Bytes(Consumed(chunks)) == r.bytes + Bytes(Consumed(tail)) &&
              forall x :: x in Consumed(chunks) <==> x == r || x in Consumed(tail)
  {
    var r, tail := chunks[0], if chunks[0].end == Eof then [] else chunks[1..];
    assert Consumed([]) == [] && [r] + [] == [r];
    if !(r.bytes > 0 && r.clientGone) && r.end != Broken {
      assert Consumed(chunks) == [r] + Consumed(tail);
      assert Consumed(chunks)[1..] == Consumed(tail);
    }
  }

  // ---------- One dispatch ----------

  datatype Action = FailoverNext | Terminal

  datatype Outcome = Outcome(action: Action, reason: string)

  /** The reasons that count as a successful generation. */
  predicate IsSuccess(o: Outcome) { o.reason == "TerminalSuccess" || o.reason == "CommittedStreamSuccess" }

  predicate Succeeds(up: Upstream, isSSE: bool) {
    && up.Responds? && up.status < 300
    && if isSSE || up.eventStream then StreamIsGood(up.chunks, up.contentLength) else up.body.Whole?
  }

  /** dispatchAccount from the token refresh on. */
  method DispatchAccount(c: ResponseCommitter, up: Upstream, isSSE: bool) returns (o: Outcome)
    requires c.state == NotCommitted && c.status == None
    modifies c
    ensures o.action == FailoverNext <==> Replayable(up)
    ensures c.status == ClientStatus(up, isSSE)
    ensures c.state == NotCommitted <==> ClientStatus(up, isSSE) == None
    ensures IsSuccess(o) <==> Succeeds(up, isSSE)
  {
    hide IsValidationError, IsQuotaError, IsAuthError, StreamIsGood, StreamOutcome;
    match up
    case RefreshFails(_) => return Outcome(FailoverNext, "TokenRefreshFailed");
    case RequestNotBuilt => return Outcome(Terminal, "RequestCreationFailed");
    case TransportFails(clientCanceled, timeout) =>
      if clientCanceled { return Outcome(Terminal, "ClientDisconnected"); }
      SendError(c, if timeout then 504 else 502);
      return Outcome(Terminal, "AmbiguousTransportFailure");
    case Responds(status, eventStream, contentLength, body, chunks) =>
      if status >= 300 {
        if body.Interrupted? || |body.text| > MAX_BODY_BYTES {
          SendError(c, if body.Interrupted? && body.timeout then 504 else 502);
          return Outcome(Terminal, "AmbiguousTransportFailure:BodyReadError");
        }
        if status < 400 {
          SendBuffered(c, status);
          return Outcome(Terminal, "UpstreamRedirect");
        }
        if IsValidationError(status, body.text) {
          return Outcome(FailoverNext, "ExplicitRetryableUpstreamResponse:ValidationError");
        }
        if IsQuotaError(status, body.text) {
          return Outcome(FailoverNext, "ExplicitRetryableUpstreamResponse:QuotaExhausted");
        }
        if IsAuthError(status, body.text) {
          return Outcome(FailoverNext, "ExplicitRetryableUpstreamResponse:AuthFailure");
        }
        SendBuffered(c, status);
        return Outcome(Terminal, "ExplicitNonRetryableUpstreamResponse");
      }
      if isSSE || eventStream {
        var streamed := SendStream(c, status, contentLength, chunks);
        StreamedMeansGood(chunks, contentLength, 0);
        if streamed != Streamed { return Outcome(Terminal, "CommittedStreamTruncated"); }
        return Outcome(Terminal, "CommittedStreamSuccess");
      }
      if body.Interrupted? {
        SendError(c, if body.timeout then 504 else 502);
        return Outcome(Terminal, "AmbiguousTransportFailure:BodyReadError");
      }
      SendBuffered(c, status);
      return Outcome(Terminal, "TerminalSuccess");
  }

  // ---------- The candidate loop ----------

  datatype Candidate = Candidate(id: string, status: string)

  predicate IsRestricted(a: Candidate) { a.status == "validation_required" || a.status == "auth_error" }

  /** The candidates a request may be sent to, in order. */
  function Allowed(candidates: seq<Candidate>, isGeneration: bool): seq<Candidate> {
    if candidates == [] then [] else
      var rest := Allowed(candidates[1..], isGeneration);
      if isGeneration && IsRestricted(candidates[0]) then rest else [candidates[0]] + rest
  }

  datatype Attempt = Attempt(account: Candidate, answer: Upstream)

  /** A request that could not be built, or a transport failure after the client left. */
  predicate LeavesClientSilent(up: Upstream) {
    up.RequestNotBuilt? || (up.TransportFails? && up.clientCanceled)
  }

  /** How many attempts are made when the k-th is answered by `world[k]`: up to and
      including the first answer that is not replayable. */
  function AttemptsMade(world: seq<Upstream>): nat {
    if world == [] then 0 else if Replayable(world[0]) then 1 + AttemptsMade(world[1..]) else 1
  }

  /** HandleProxy's loop. `world[k]` answers the k-th dispatch. */
  method HandleProxy(candidates: seq<Candidate>, isGeneration: bool, isSSE: bool, world: seq<Upstream>)
    returns (c: ResponseCommitter, attempts: seq<Attempt>)
    requires |world| == |Allowed(candidates, isGeneration)|
    ensures |attempts| == AttemptsMade(world) <= |world|
    ensures forall k :: 0 <= k < |attempts| ==> attempts[k] == Attempt(Allowed(candidates, isGeneration)[k], world[k])
    ensures var exhausted := attempts == [] || Replayable(attempts[|attempts| - 1].answer);
            c.status == if exhausted then Some(503) else ClientStatus(attempts[|attempts| - 1].answer, isSSE)
    ensures c.status == None <==>
              attempts != [] && LeavesClientSilent(attempts[|attempts| - 1].answer)
  {
    hide Replayable, ClientStatus, LeavesClientSilent, IsRestricted, Allowed, AttemptsMade;
    c := new ResponseCommitter();
    attempts := [];
    ghost var allowed := Allowed(candidates, isGeneration);
    assert candidates[0..] == candidates && world[0..] == world && allowed[0..] == allowed;
    for i := 0 to |candidates|
      invariant c.state == NotCommitted && c.status == None && fresh(c)
      invariant |attempts| <= |world| && Allowed(candidates[i..], isGeneration) == allowed[|attempts|..]
      invariant forall k :: 0 <= k < |attempts| ==> attempts[k] == Attempt(allowed[k], world[k]) && Replayable(world[k])
      invariant attempts != [] ==> !LeavesClientSilent(attempts[|attempts| - 1].answer)
      invariant AttemptsMade(world) == |attempts| + AttemptsMade(world[|attempts|..])
    {
      var acc := candidates[i];
      assert candidates[i..][1..] == candidates[i + 1..];
      AllowedStep(candidates[i..], isGeneration);
      if isGeneration && IsRestricted(acc) { continue; }
      var n := |attempts|;
      assert allowed[n..][0] == acc && allowed[n..][1..] == allowed[n + 1..] && world[n..][1..] == world[n + 1..];
      AttemptsStep(world[n..]);
      var up := world[n];
      var outcome := DispatchAccount(c, up, isSSE);
      attempts := attempts + [Attempt(acc, up)];
      SilentIsFinal(up);
      if outcome.action != FailoverNext { SilentEndings(up, isSSE); }
      if c.state != NotCommitted {
        CommittedIsTerminal(up, isSSE);
        return;
      }
      if outcome.action == FailoverNext { continue; }
      return;
    }
    assert candidates[|candidates|..] == [] && world[|world|..] == [];
    AllowedStep([], isGeneration);
    AttemptsStep([]);
    SendError(c, 503);
  }

  lemma SilentIsFinal(up: Upstream)
    ensures LeavesClientSilent(up) ==> !Replayable(up)
  {}

  lemma AllowedStep(candidates: seq<Candidate>, isGeneration: bool)
    ensures candidates == [] ==> Allowed(candidates, isGeneration) == []
    ensures candidates != [] && isGeneration && IsRestricted(candidates[0]) ==>
              Allowed(candidates, isGeneration) == Allowed(candidates[1..], isGeneration)
    ensures candidates != [] && !(isGeneration && IsRestricted(candidates[0])) ==>
              Allowed(candidates, isGeneration) == [candidates[0]] + Allowed(candidates[1..], isGeneration)
  {}

  lemma AttemptsStep(world: seq<Upstream>)
    ensures world == [] ==> AttemptsMade(world) == 0
    ensures world != [] ==> AttemptsMade(world) == 1 + if Replayable(world[0]) then AttemptsMade(world[1..]) else 0
  {}

  lemma CommittedIsTerminal(up: Upstream, isSSE: bool)
    ensures ClientStatus(up, isSSE).Some? ==> !Replayable(up)
  {}

  // ---------- Main results ----------

  lemma {:induction false} AttemptsMadeMeaning(world: seq<Upstream>)
    ensures AttemptsMade(world) <= |world|
    ensures forall k :: 0 <= k < AttemptsMade(world) - 1 ==> Replayable(world[k])
    ensures AttemptsMade(world) < |world| ==> AttemptsMade(world) > 0 && !Replayable(world[AttemptsMade(world) - 1])
  {
    hide Replayable;
    if world != [] && Replayable(world[0]) {
      AttemptsMadeMeaning(world[1..]);
      assert forall k :: 0 < k < |world| ==> world[k] == world[1..][k - 1];
    }
  }

  lemma {:induction false} AllowedIsSelection(candidates: seq<Candidate>, isGeneration: bool)
    ensures forall a :: a in Allowed(candidates, isGeneration) <==>
              a in candidates && !(isGeneration && IsRestricted(a))
    ensures DistinctIds(candidates) ==> DistinctIds(Allowed(candidates, isGeneration))
  {
    hide IsRestricted;
    if candidates != [] {
      AllowedIsSelection(candidates[1..], isGeneration);
      assert candidates == [candidates[0]] + candidates[1..];
      if DistinctIds(candidates) {
        assert forall a :: a in candidates[1..] ==> a.id != candidates[0].id;
      }
    }
  }

  ghost predicate DistinctIds(s: seq<Candidate>) {
    forall i, j :: 0 <= i < j < |s| ==> s[i].id != s[j].id
  }

  /** A committed client, an ambiguous failure or any success: nothing may follow. */
  predicate FinalAnswer(up: Upstream) {
    match up
    case RefreshFails(_) => false
    case RequestNotBuilt => true
    case TransportFails(_, _) => true
    case Responds(status, _, _, body, _) => status < 400 || body.Interrupted? || |body.text| > MAX_BODY_BYTES
  }

  /** No replay, over every run: only the last dispatch may end in anything but a
      failed refresh or a fully read rejection, no account is tried twice, and no
      restricted account is sent a generation. */
  lemma NoReplay(candidates: seq<Candidate>, isGeneration: bool, world: seq<Upstream>, attempts: seq<Attempt>, i: nat,
                 j: nat)
    requires |world| == |Allowed(candidates, isGeneration)| && DistinctIds(candidates)
    requires |attempts| == AttemptsMade(world) <= |world|
    requires forall k :: 0 <= k < |attempts| ==> attempts[k] == Attempt(Allowed(candidates, isGeneration)[k], world[k])
    requires i < j < |attempts|
    ensures Replayable(attempts[i].answer) && !FinalAnswer(attempts[i].answer)
    ensures forall isSSE :: ClientStatus(attempts[i].answer, isSSE) == None && !Succeeds(attempts[i].answer, isSSE)
    ensures attempts[i].account.id != attempts[j].account.id
    ensures attempts[j].account in candidates && (isGeneration ==> !IsRestricted(attempts[j].account))
  {
    AttemptsMadeMeaning(world);
    AllowedIsSelection(candidates, isGeneration);
    assert Replayable(world[i]);
  }

  /** Which answers leave the client without any response from the handler. */
  lemma SilentEndings(up: Upstream, isSSE: bool)
    requires !Replayable(up)
    ensures ClientStatus(up, isSSE) == None <==> LeavesClientSilent(up)
  {}
}
