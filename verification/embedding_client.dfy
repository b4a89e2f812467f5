/** `SentenceTransformerEmbeddingService`: a per-text cache in front of a
    remote embedding call that is tried up to five times, with a back-off
    sleep between attempts.

    The remote is a parameter: `reply(text, n)` is what attempt `n` (counted
    from 1) for `text` gets back, and `interrupted(text, n)` says whether the
    sleep after a failed attempt `n` is interrupted. The two-second delay and
    the thirty-second timeout are timing only; a timeout is one more
    `Transport` failure.
 */
module EmbeddingClient {

  import opened Outcomes

  const MaxRetries: nat := 5

  /** What one attempt gets back. */
  datatype Reply =
    | Failed(cause: Cause)                  // the request threw
    | NoBody                                // the body decoded to `null`
    | Body(embeddings: Option<seq<seq<real>>>)  // `None`: the `embeddings` field is null

  datatype Remote = Remote(reply: (string, nat) -> Reply, interrupted: (string, nat) -> bool)

  /** An attempt that throws inside the `try`: a transport failure, or a
      body whose `embeddings` list is null and is dereferenced. */
  predicate Throws(r: Reply) {
    r.Failed? || (r.Body? && r.embeddings.None?)
  }

  function CauseOf(r: Reply): Cause
    requires Throws(r)
  {
    if r.Failed? then r.cause else NullEmbeddings
  }

  /** The vector a settled attempt returns: none for a null body or an empty
      batch, otherwise the first vector of the batch. */
  function Answer(r: Reply): (v: seq<real>)
    requires !Throws(r)
    ensures r.NoBody? || |r.embeddings.value| == 0 ==> v == []
    ensures r.Body? && |r.embeddings.value| > 0 ==> v == r.embeddings.value[0]
  {
    if r.NoBody? || |r.embeddings.value| == 0 then [] else r.embeddings.value[0]
  }

  /** The outcome of `callService`: its result, how many attempts were made
      and how many back-off sleeps were started. */
  datatype Call = Call(result: Result<seq<real>>, attempts: nat, sleeps: nat)

  /** `callService` from attempt `n` on, the earlier attempts having failed
      and their sleeps having completed. */
  function CallFrom(remote: Remote, text: string, n: nat): (c: Call)
    requires 1 <= n <= MaxRetries
    ensures n <= c.attempts <= MaxRetries
    ensures forall k :: n <= k < c.attempts ==>
              Throws(remote.reply(text, k)) && !remote.interrupted(text, k)
    ensures Settled(remote, text, c)
    decreases MaxRetries - n
  {
    var reply := remote.reply(text, n);
    if !Throws(reply) then Call(Success(Answer(reply)), n, n - 1)
    else if n >= MaxRetries then Call(Failure(RemoteFailure(CauseOf(reply))), n, n - 1)
    else if remote.interrupted(text, n) then Call(Failure(Interrupted), n, n)
    else CallFrom(remote, text, n + 1)
  }

  /** How the last attempt of a call ended: it settled and its answer is
      returned, or it was the fifth failure and that failure propagates, or
      the sleep after it was interrupted. A sleep is started after every
      failed attempt but the fifth. */
  predicate Settled(remote: Remote, text: string, c: Call)
    requires 1 <= c.attempts
  {
    var last := remote.reply(text, c.attempts);
    if !Throws(last) then
      c.result == Success(Answer(last)) && c.sleeps == c.attempts - 1
    else if c.attempts == MaxRetries then
      c.result == Failure(RemoteFailure(CauseOf(last))) && c.sleeps == c.attempts - 1
    else
      remote.interrupted(text, c.attempts) && c.result == Failure(Interrupted)
      && c.sleeps == c.attempts
  }

  /** `callService`: at most five attempts, every one before the last having
      thrown and been followed by an uninterrupted sleep. */
  function CallService(remote: Remote, text: string): (c: Call)
    ensures 1 <= c.attempts <= MaxRetries
    ensures forall k :: 1 <= k < c.attempts ==>
              Throws(remote.reply(text, k)) && !remote.interrupted(text, k)
    ensures Settled(remote, text, c)
  {
    CallFrom(remote, text, 1)
  }

  /** The `while (true)` loop of `callService`, attempt by attempt. */
  method CallServiceLoop(remote: Remote, text: string) returns (c: Call)
    ensures c == CallService(remote, text)
  {
    var attempts := 0;
    var sleeps := 0;
    while true
      invariant 0 <= attempts < MaxRetries
      invariant sleeps == attempts
      invariant CallService(remote, text) == CallFrom(remote, text, attempts + 1)
      decreases MaxRetries - attempts
    {
      attempts := attempts + 1;
      var reply := remote.reply(text, attempts);
      if !Throws(reply) {
        return Call(Success(Answer(reply)), attempts, sleeps);
      }
      if attempts >= MaxRetries {
        return Call(Failure(RemoteFailure(CauseOf(reply))), attempts, sleeps);
      }
      sleeps := sleeps + 1;
      if remote.interrupted(text, attempts) {
        return Call(Failure(Interrupted), attempts, sleeps);
      }
    }
  }

  /** The embedding service's state: vectors already computed, by text. */
  datatype Client = Client(cache: map<string, seq<real>>)

  /** The outcome of `embed`: the vector or the error, the client afterwards
      and how many remote attempts were made. */
  datatype Embedded = Embedded(result: Result<seq<real>>, client: Client, attempts: nat)

  /** `embed`: `computeIfAbsent` on the cache. A cached text is answered
      without the remote; otherwise a completed call, even one returning no
      vector, is cached, and a failed call leaves the cache as it was. */
  function Embed(client: Client, remote: Remote, text: string): (e: Embedded)
    ensures text in client.cache ==>
              e == Embedded(Success(client.cache[text]), client, 0)
    ensures text !in client.cache ==>
              e.result == CallService(remote, text).result
              && e.attempts == CallService(remote, text).attempts
    ensures e.result.Success? ==> e.client.cache == client.cache[text := e.result.value]
    ensures e.result.Failure? ==> e.client == client
  {
    if text in client.cache then Embedded(Success(client.cache[text]), client, 0)
    else
      var c := CallService(remote, text);
      match c.result
      case Success(v) => Embedded(c.result, Client(client.cache[text := v]), c.attempts)
      case Failure(_) => Embedded(c.result, client, c.attempts)
  }

  /** Asking again for a text that was embedded is answered from the cache,
      with the same vector and no remote attempt. */
  lemma EmbedTwice(client: Client, remote: Remote, later: Remote, text: string)
    requires Embed(client, remote, text).result.Success?
    ensures var first := Embed(client, remote, text);
            Embed(first.client, later, text) == Embedded(first.result, first.client, 0)
  {
  }

  /** Only the requested text's entry can change. */
  lemma EmbedKeepsOtherEntries(client: Client, remote: Remote, text: string, other: string)
    requires other != text && other in client.cache
    ensures var e := Embed(client, remote, text);
            other in e.client.cache && e.client.cache[other] == client.cache[other]
  {
  }

  /** A null body or an empty batch on the first attempt is returned as the
      empty vector at once, without a retry, and is cached. */
  lemma EmptyAnswerNoRetry(client: Client, remote: Remote, text: string)
    requires text !in client.cache
    requires remote.reply(text, 1) == NoBody || remote.reply(text, 1) == Body(Some([]))
    ensures Embed(client, remote, text)
            == Embedded(Success([]), Client(client.cache[text := []]), 1)
  {
  }

  /** Four failures followed by a batch: the fifth attempt's first vector is
      returned, after four sleeps. */
  lemma FourFailuresThenSuccess(remote: Remote, text: string, v: seq<real>, rest: seq<seq<real>>)
    requires forall k :: 1 <= k < 5 ==>
               Throws(remote.reply(text, k)) && !remote.interrupted(text, k)
    requires remote.reply(text, 5) == Body(Some([v] + rest))
    ensures CallService(remote, text) == Call(Success(v), 5, 4)
  {
  }

  /** Five failures: the last failure propagates, after four sleeps. */
  lemma FiveFailures(remote: Remote, text: string)
    requires forall k :: 1 <= k <= 5 ==>
               Throws(remote.reply(text, k)) && !remote.interrupted(text, k)
    ensures CallService(remote, text)
            == Call(Failure(RemoteFailure(CauseOf(remote.reply(text, 5)))), 5, 4)
  {
  }

  /** Whatever the remote does, no call makes more than five attempts, and a
      call that did not settle after five attempts fails. */
  lemma AtMostFiveAttempts(remote: Remote, text: string)
    ensures CallService(remote, text).attempts <= 5
    ensures CallService(remote, text).result.Failure? && !remote.interrupted(text, CallService(remote, text).attempts)
            ==> CallService(remote, text).attempts == 5
    ensures CallService(remote, text).result.Failure? && CallService(remote, text).result.error != Interrupted
            ==> CallService(remote, text).attempts == 5
  {
  }

  /** An interrupted back-off fails the call at once, with no further
      attempt: when attempt `k` throws and its sleep is interrupted, the
      call ends after `k` attempts and `k` sleeps. */
  lemma InterruptedStops(remote: Remote, text: string, k: nat)
    requires 1 <= k < 5
    requires forall j :: 1 <= j < k ==>
               Throws(remote.reply(text, j)) && !remote.interrupted(text, j)
    requires Throws(remote.reply(text, k)) && remote.interrupted(text, k)
    ensures CallService(remote, text) == Call(Failure(Interrupted), k, k)
  {
  }
}
