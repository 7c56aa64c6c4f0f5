/** Which answers move a request to the next account and what the client is sent, said
    in terms of statuses and texts alone. */
module Answers {
  import opened Common
  import opened Proxy

  // ---------- Texts ----------

  /** `c` is the letter `lower`, in either case. */
  predicate SameLetter(c: char, lower: char) {
    c == lower || ('a' <= lower <= 'z' && c as int + 32 == lower as int)
  }

  predicate MentionsAt(text: string, word: string, i: int) {
    0 <= i <= |text| - |word| && forall k :: 0 <= k < |word| ==> SameLetter(text[i + k], word[k])
  }

  /** The text contains the word, whatever the case of its letters. */
  ghost predicate Mentions(text: string, word: string) {
    exists i :: MentionsAt(text, word, i)
  }

  predicate IsLower(word: string) { forall k :: 0 <= k < |word| ==> !('A' <= word[k] <= 'Z') }

  lemma PrefixIsMention(text: string, word: string, i: int)
    requires IsLower(word) && 0 <= i <= |text|
    ensures word <= Lower(text)[i..] <==> MentionsAt(text, word, i)
  {
    var tail := Lower(text)[i..];
    assert forall k :: 0 <= k < |tail| ==> tail[k] == LowerChar(text[i + k]);
    if word <= tail {
      assert forall k :: 0 <= k < |word| ==> word[k] == tail[k];
    }
    if MentionsAt(text, word, i) {
      forall k | 0 <= k < |word|
        ensures word[k] == tail[k]
      {
        assert SameLetter(text[i + k], word[k]);
      }
      assert tail[..|word|] == word;
    }
  }

  lemma ContainsIsMention(text: string, word: string)
    requires IsLower(word)
    ensures Contains(Lower(text), word) <==> Mentions(text, word)
  {
    assert |Lower(text)| == |text|;
    hide MentionsAt, Lower, LowerChar;
    if Contains(Lower(text), word) {
      var i :| 0 <= i <= |Lower(text)| && word <= Lower(text)[i..];
      PrefixIsMention(text, word, i);
    }
    if Mentions(text, word) {
      var i :| MentionsAt(text, word, i);
      MentionInside(text, word, i);
      PrefixIsMention(text, word, i);
    }
  }

  lemma MentionInside(text: string, word: string, i: int)
    requires MentionsAt(text, word, i)
    ensures 0 <= i <= |text|
  {}

  ghost predicate MentionsAny(text: string, words: seq<string>) {
    exists j :: 0 <= j < |words| && Mentions(text, words[j])
  }

  lemma ContainsAnyIsMention(text: string, words: seq<string>)
    requires forall j :: 0 <= j < |words| ==> IsLower(words[j])
    ensures ContainsAny(Lower(text), words) <==> MentionsAny(text, words)
  {
    hide Contains, Mentions, IsLower, Lower;
    forall j | 0 <= j < |words|
      ensures Contains(Lower(text), words[j]) <==> Mentions(text, words[j])
    {
      ContainsIsMention(text, words[j]);
    }
  }

  // ---------- Rejections of an account ----------

  /** What an upstream says when the account, and not the request, is refused. */
  ghost predicate RefusesAccount(text: string) {
    || Mentions(text, "validation_required") || Mentions(text, "verify your account")
    || Mentions(text, "resource_exhausted") || Mentions(text, "quota_exceeded")
    || Mentions(text, "rate_limit_exceeded") || Mentions(text, "quota exceeded")
    || Mentions(text, "quota exhausted") || Mentions(text, "exceeded your current quota")
    || Mentions(text, "insufficient quota") || Mentions(text, "unauthenticated")
    || Mentions(text, "invalid_grant") || Mentions(text, "access_token_expired")
    || Mentions(text, "account is disabled") || Mentions(text, "user disabled")
  }

  /** A failed token refresh, or a completely read rejection of the account: 401, 429, or
      403 with a text that says so. */
  ghost predicate Rejected(up: Upstream) {
    match up
    case RefreshFails(_) => true
    case Responds(status, _, _, Whole(text), _) =>
      |text| <= 67108864 && (status == 401 || status == 429 || (status == 403 && RefusesAccount(text)))
    case _ => false
  }

  lemma MentionOfLonger(text: string, word: string, longer: string)
    requires word <= longer && Mentions(text, longer)
    ensures Mentions(text, word)
  {
    var i :| MentionsAt(text, longer, i);
    assert forall k :: 0 <= k < |word| ==> word[k] == longer[k];
    assert MentionsAt(text, word, i);
  }

  lemma ValidationWords(text: string)
    ensures ContainsAny(Lower(text), VALIDATION_MARKERS) <==>
            || Mentions(text, "validation_required")
            || Mentions(text, "verify your account")
  {
    var words := VALIDATION_MARKERS;
    assert words[0] == "validation_required";
    assert words[1] == "verify your account";
    assert words[2] == "verify your account to continue";
    ContainsAnyIsMention(text, words);
    hide ContainsAny, Lower, Mentions;
    assert words[2][..19] == words[1];
    if Mentions(text, words[2]) { MentionOfLonger(text, words[1], words[2]); }
  }

  lemma QuotaWords(text: string)
    ensures ContainsAny(Lower(text), QUOTA_MARKERS) <==>
            || Mentions(text, "resource_exhausted")
            || Mentions(text, "quota_exceeded")
            || Mentions(text, "rate_limit_exceeded")
            || Mentions(text, "quota exceeded")
            || Mentions(text, "quota exhausted")
            || Mentions(text, "exceeded your current quota")
            || Mentions(text, "insufficient quota")
  {
    var words := QUOTA_MARKERS;
    assert words[0] == "resource_exhausted";
    assert words[1] == "quota_exceeded";
    assert words[2] == "rate_limit_exceeded";
    assert words[3] == "quota exceeded";
    assert words[4] == "quota exhausted";
    assert words[5] == "exceeded your current quota";
    assert words[6] == "insufficient quota";
    ContainsAnyIsMention(text, words);
    hide ContainsAny, Lower, Mentions;
  }

  lemma AuthWords(text: string)
    ensures ContainsAny(Lower(text), AUTH_MARKERS) <==>
            || Mentions(text, "unauthenticated")
            || Mentions(text, "invalid_grant")
            || Mentions(text, "access_token_expired")
            || Mentions(text, "account is disabled")
            || Mentions(text, "user disabled")
  {
    var words := AUTH_MARKERS;
    assert words[0] == "unauthenticated";
    assert words[1] == "invalid_grant";
    assert words[2] == "access_token_expired";
    assert words[3] == "account is disabled";
    assert words[4] == "user disabled";
    ContainsAnyIsMention(text, words);
    hide ContainsAny, Lower, Mentions;
  }

  lemma ReplayableIsRejected(up: Upstream)
    ensures Replayable(up) <==> Rejected(up)
  {
    hide ContainsAny, Mentions, Lower;
    if up.Responds? && up.body.Whole? {
      ValidationWords(up.body.text);
      QuotaWords(up.body.text);
      AuthWords(up.body.text);
    }
  }

  // ---------- What the client is sent ----------

  /** A complete body, or a stream that is passed on whatever becomes of it. */
  predicate IsDelivered(up: Upstream, isSSE: bool) {
    up.Responds? && (if up.status < 300 && (isSSE || up.eventStream) then true else up.body.Whole?)
  }

  /** The status that goes out for the answer that ends a request. */
  predicate IsSent(up: Upstream, isSSE: bool, status: int) {
    match up
    case RefreshFails(_) => false
    case RequestNotBuilt => false
    case TransportFails(clientCanceled, timeout) => !clientCanceled && status == (if timeout then 504 else 502)
    case Responds(s, _, _, body, _) =>
      if !IsDelivered(up, isSSE) then status == (if body.timeout then 504 else 502)
      else if s >= 300 && |body.text| > 67108864 then status == 502
      else status == s
  }

  lemma SentIsClientStatus(up: Upstream, isSSE: bool, status: int)
    requires !Rejected(up)
    ensures ClientStatus(up, isSSE) == Some(status) <==> IsSent(up, isSSE, status)
  {
    ReplayableIsRejected(up);
    hide Replayable, Rejected;
  }

  // ---------- Main result ----------

  ghost predicate MayServe(a: Candidate, isGeneration: bool) {
    !(isGeneration && (a.status == "validation_required" || a.status == "auth_error"))
  }

  /** The positions of the candidates a request may go to, in order. */
  ghost predicate ArePositions(candidates: seq<Candidate>, isGeneration: bool, positions: seq<nat>) {
    && (forall k, l :: 0 <= k < l < |positions| ==> positions[k] < positions[l])
    && (forall p :: p in positions <==> 0 <= p < |candidates| && MayServe(candidates[p], isGeneration))
  }

  /** What stands in those positions. */
  ghost predicate Selects(candidates: seq<Candidate>, positions: seq<nat>, picked: seq<Candidate>) {
    && |positions| == |picked|
    && forall k :: 0 <= k < |positions| ==> positions[k] < |candidates| && picked[k] == candidates[positions[k]]
  }

  lemma {:induction false} AllowedPositions(candidates: seq<Candidate>, isGeneration: bool)
    returns (positions: seq<nat>)
    ensures ArePositions(candidates, isGeneration, positions)
    ensures Selects(candidates, positions, Allowed(candidates, isGeneration))
  {
    positions := [];
    if candidates == [] {
      AllowedStep(candidates, isGeneration);
    } else {
      var rest := AllowedPositions(candidates[1..], isGeneration);
      AllowedStep(candidates, isGeneration);
      var shifted := seq(|rest|, k requires 0 <= k < |rest| => rest[k] + 1);
      var picked := Allowed(candidates[1..], isGeneration);
      positions := (if MayServe(candidates[0], isGeneration) then [0] else []) + shifted;
      assert Allowed(candidates, isGeneration) ==
             if MayServe(candidates[0], isGeneration) then [candidates[0]] + picked else picked;
      hide Allowed, MayServe, IsRestricted;
      ShiftedSelection(candidates, rest, shifted, picked);
      ShiftedPositions(candidates, isGeneration, rest, shifted, positions);
      hide ArePositions;
    }
  }

  lemma ShiftedSelection(candidates: seq<Candidate>, rest: seq<nat>, shifted: seq<nat>, picked: seq<Candidate>)
    requires candidates != [] && Selects(candidates[1..], rest, picked)
    requires |shifted| == |rest| && forall k :: 0 <= k < |rest| ==> shifted[k] == rest[k] + 1
    ensures Selects(candidates, [] + shifted, picked)
    ensures Selects(candidates, [0] + shifted, [candidates[0]] + picked)
  {
    assert [] + shifted == shifted;
    forall k | 0 <= k < |rest|
      ensures shifted[k] < |candidates| && picked[k] == candidates[shifted[k]]
    {
      assert candidates[1..][rest[k]] == candidates[rest[k] + 1];
    }
    SelectsOneMore(candidates, shifted, picked);
  }

  lemma SelectsOneMore(candidates: seq<Candidate>, positions: seq<nat>, picked: seq<Candidate>)
    requires candidates != [] && Selects(candidates, positions, picked)
    ensures Selects(candidates, [0] + positions, [candidates[0]] + picked)
  {}

  lemma ShiftedPositions(candidates: seq<Candidate>, isGeneration: bool, rest: seq<nat>, shifted: seq<nat>,
                         positions: seq<nat>)
    requires candidates != [] && ArePositions(candidates[1..], isGeneration, rest)
    requires |shifted| == |rest| && forall k :: 0 <= k < |rest| ==> shifted[k] == rest[k] + 1
    requires positions == (if MayServe(candidates[0], isGeneration) then [0] else []) + shifted
    ensures ArePositions(candidates, isGeneration, positions)
  {
    hide MayServe;
    forall p
      ensures p in shifted <==> 1 <= p < |candidates| && MayServe(candidates[p], isGeneration)
    {
      if p in shifted {
        var k :| 0 <= k < |shifted| && shifted[k] == p;
        assert rest[k] in rest;
      }
      if 1 <= p < |candidates| && MayServe(candidates[p], isGeneration) {
        assert candidates[1..][p - 1] == candidates[p];
        assert p - 1 in rest;
        var k :| 0 <= k < |rest| && rest[k] == p - 1;
        assert shifted[k] == p;
      }
    }
  }

  /** A whole request. Attempts follow the allowed candidates in order; a rejected account,
      every 401 and 429 among them, is followed by the next one and nothing else is; the last
      answer decides what the client is sent, 503 when every account was rejected. */
  ghost predicate ServedInOrder(candidates: seq<Candidate>, isGeneration: bool, isSSE: bool, attempts: seq<Attempt>,
                                sent: Option<int>, positions: seq<nat>) {
    && |attempts| <= |positions|
    && (forall k :: 0 <= k < |attempts| ==>
          positions[k] < |candidates| && attempts[k].account == candidates[positions[k]])
    && (forall k :: 0 <= k < |attempts| ==>
          if Rejected(attempts[k].answer) then k + 1 < |attempts| || |attempts| == |positions| else k + 1 == |attempts|)
    && (attempts == [] <==> positions == [])
    && (if attempts == [] || Rejected(attempts[|attempts| - 1].answer) then sent == Some(503)
        else forall s :: sent == Some(s) <==> IsSent(attempts[|attempts| - 1].answer, isSSE, s))
  }

  /** ... and that is what HandleProxy does, from the facts its contract promises. */
  lemma RequestsAreServedInOrder(candidates: seq<Candidate>, isGeneration: bool, isSSE: bool, world: seq<Upstream>,
                                 attempts: seq<Attempt>, sent: Option<int>)
    returns (positions: seq<nat>)
    requires |world| == |Allowed(candidates, isGeneration)| && |attempts| == AttemptsMade(world) <= |world|
    requires forall k :: 0 <= k < |attempts| ==> attempts[k] == Attempt(Allowed(candidates, isGeneration)[k], world[k])
    requires var exhausted := attempts == [] || Replayable(attempts[|attempts| - 1].answer);
             sent == if exhausted then Some(503) else ClientStatus(attempts[|attempts| - 1].answer, isSSE)
    ensures ArePositions(candidates, isGeneration, positions)
    ensures ServedInOrder(candidates, isGeneration, isSSE, attempts, sent, positions)
  {
    positions := AllowedPositions(candidates, isGeneration);
    AttemptsMadeMeaning(world);
    AttemptsStep(world);
    hide Allowed, AttemptsMade, Replayable, Rejected, ClientStatus, IsSent, ArePositions;
    forall k | 0 <= k < |attempts|
      ensures Replayable(attempts[k].answer) <==> Rejected(attempts[k].answer)
    {
      ReplayableIsRejected(attempts[k].answer);
    }
    if attempts != [] && !Rejected(attempts[|attempts| - 1].answer) {
      forall s { SentIsClientStatus(attempts[|attempts| - 1].answer, isSSE, s); }
    }
  }

  // ---------- Streams ----------

  /** The first `n` reads are all there is to a stream that ends well: each delivered, none broken,
      and only the last at the end, or the last there is. */
  ghost predicate EndsWell(chunks: seq<ReadResult>, n: int) {
    && 0 <= n <= |chunks| && (n == |chunks| || (n > 0 && chunks[n - 1].end == Eof))
    && (forall i :: 0 <= i < n ==> chunks[i].end != Broken && (chunks[i].bytes > 0 ==> !chunks[i].clientGone))
    && forall i :: 0 <= i < n - 1 ==> chunks[i].end == More
  }

  lemma {:induction false} BytesAdd(chunks: seq<ReadResult>, one: ReadResult)
    ensures Bytes(chunks + [one]) == Bytes(chunks) + one.bytes && Bytes([]) == 0
  {
    if chunks == [] {
      assert [] + [one] == [one] && [one][1..] == [];
    } else {
      assert (chunks + [one])[1..] == chunks[1..] + [one];
      BytesAdd(chunks[1..], one);
    }
  }

  lemma {:induction false} ConsumedExactly(chunks: seq<ReadResult>) returns (n: nat)
    ensures n <= |chunks| && Consumed(chunks) == chunks[..n]
    ensures (forall r :: r in Consumed(chunks) ==> !(r.bytes > 0 && r.clientGone) && r.end != Broken) ==>
              EndsWell(chunks, n)
    ensures forall k :: EndsWell(chunks, k) ==> k == n
  {
    n := 0;
    if chunks != [] {
      var r := chunks[0];
      if (r.bytes > 0 && r.clientGone) || r.end != More {
        n := 1;
      } else {
        var m := ConsumedExactly(chunks[1..]);
        n := m + 1;
        assert Consumed(chunks) == [r] + Consumed(chunks[1..]);
        assert Consumed(chunks)[1..] == Consumed(chunks[1..]);
        EndsWellTail(chunks, m);
        if forall x :: x in Consumed(chunks) ==> !(x.bytes > 0 && x.clientGone) && x.end != Broken {
          assert forall x :: x in Consumed(chunks[1..]) ==> x in Consumed(chunks);
          EndsWellCons(chunks, m);
        }
      }
    }
  }

  lemma EndsWellTail(chunks: seq<ReadResult>, m: int)
    requires chunks != [] && chunks[0].end == More && forall k :: EndsWell(chunks[1..], k) ==> k == m
    ensures forall k :: EndsWell(chunks, k) ==> k == m + 1
  {
    forall k | EndsWell(chunks, k)
      ensures k == m + 1
    {
      assert EndsWell(chunks[1..], k - 1);
    }
  }

  lemma EndsWellCons(chunks: seq<ReadResult>, m: int)
    requires chunks != [] && EndsWell(chunks[1..], m) && chunks[0].end == More
    requires chunks[0].bytes > 0 ==> !chunks[0].clientGone
    ensures EndsWell(chunks, m + 1)
  {
    assert forall i :: 0 < i < |chunks| ==> chunks[i] == chunks[1..][i - 1];
  }

  /** A stream counts as a success exactly when it ends well and, if its length was announced, the
      reads up to that end have that many bytes. */
  lemma StreamsExactly(chunks: seq<ReadResult>, expected: Option<int>)
    ensures StreamOutcome(chunks, expected, 0) == Streamed <==>
              exists n :: EndsWell(chunks, n) && (expected.Some? ==> Bytes(chunks[..n]) == expected.value)
  {
    StreamedMeansGood(chunks, expected, 0);
    var n := ConsumedExactly(chunks);
    hide Consumed, StreamOutcome;
    forall k | EndsWell(chunks, k)
      ensures k == n && forall r :: r in chunks[..n] ==> !(r.bytes > 0 && r.clientGone) && r.end != Broken
    {}
  }

  /** A generation counts as a success exactly when its answer is below 300 and was passed on whole:
      a stream that ends well and at the announced length, or a body that was read to its end. */
  lemma SuccessExactly(up: Upstream, isSSE: bool)
    ensures Succeeds(up, isSSE) <==>
              && up.Responds? && up.status < 300
              && (if isSSE || up.eventStream then
                    exists n :: EndsWell(up.chunks, n)
                                && (up.contentLength.Some? ==> Bytes(up.chunks[..n]) == up.contentLength.value)
                  else up.body.Whole?)
  {
    if up.Responds? {
      StreamedMeansGood(up.chunks, up.contentLength, 0);
      StreamsExactly(up.chunks, up.contentLength);
    }
    hide StreamOutcome, StreamIsGood, EndsWell;
  }
}
