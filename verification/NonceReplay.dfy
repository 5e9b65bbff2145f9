/**
 * The pruned nonce cache against a set that never forgets: over every run of requests with a
 * non-decreasing clock, exactly when do both accept the same requests?
 */
module NonceReplay {
  import opened Options
  import opened Text
  import opened SignedPayload
  import opened InternalAuth

  datatype Arrival = Arrival(now: int, req: Request)

  /** The reference: a nonce that was ever accepted stays refused. */
  function SeenStep(cfg: Config, seen: set<string>, now: int, req: Request): (set<string>, AuthResult) {
    match Precheck(cfg, now, req)
    case Some(reason) => (seen, Rejected(401, reason))
    case None =>
      if req.nonce.value in seen then (seen, Rejected(401, NonceReplayed))
      else
        var result := Authenticate(cfg, req);
        if result.Accepted? then (seen + {req.nonce.value}, result) else (seen, result)
  }

  /** The cache and the reference set after the first `k` arrivals. */
  function CacheAt(cfg: Config, run: seq<Arrival>, k: nat): Cache
    requires k <= |run|
  {
    if k == 0 then EMPTY_CACHE else CacheStep(cfg, CacheAt(cfg, run, k - 1), run[k - 1].now, run[k - 1].req).0
  }

  function SeenAt(cfg: Config, run: seq<Arrival>, k: nat): set<string>
    requires k <= |run|
  {
    if k == 0 then {} else SeenStep(cfg, SeenAt(cfg, run, k - 1), run[k - 1].now, run[k - 1].req).0
  }

  function CacheAnswer(cfg: Config, run: seq<Arrival>, k: nat): AuthResult
    requires k < |run|
  {
    CacheStep(cfg, CacheAt(cfg, run, k), run[k].now, run[k].req).1
  }

  function SeenAnswer(cfg: Config, run: seq<Arrival>, k: nat): AuthResult
    requires k < |run|
  {
    SeenStep(cfg, SeenAt(cfg, run, k), run[k].now, run[k].req).1
  }

  /** Both accept for the same scope, or both reject. */
  predicate SameDecision(a: AuthResult, b: AuthResult) {
    a == b || (a.Rejected? && b.Rejected?)
  }

  ghost predicate ClockNeverBack(run: seq<Arrival>) {
    forall i, j :: 0 <= i <= j < |run| ==> run[i].now <= run[j].now
  }

  /** The request is fresh at its arrival and its signature verifies. */
  predicate Authentic(cfg: Config, a: Arrival) {
    Precheck(cfg, a.now, a.req) == None && Authenticate(cfg, a.req).Accepted?
  }

  function Stamp(cfg: Config, a: Arrival): int
    requires Authentic(cfg, a)
  {
    cfg.parseMs(a.req.timestamp.value).value
  }

  /** No nonce is ever signed under two timestamps. */
  ghost predicate NonceBound(cfg: Config, run: seq<Arrival>) {
    forall i, j | 0 <= i < |run| && 0 <= j < |run| && Authentic(cfg, run[i]) && Authentic(cfg, run[j]) ::
      run[i].req.nonce == run[j].req.nonce ==> Stamp(cfg, run[i]) == Stamp(cfg, run[j])
  }

  /** What the configuration must satisfy; the defaults, whose TTL is exactly twice the skew, do not. */
  predicate SafeWindow(skewMs: int, nonceTtlMs: int) {
    skewMs <= 0 || nonceTtlMs > 2 * skewMs
  }

  // ----- The refinement

  /** `n` was accepted at arrival `i`, and is still cached or has been swept since. */
  ghost predicate Explains(cfg: Config, run: seq<Arrival>, k: nat, n: string, i: nat)
    requires k <= |run|
  {
    var c := CacheAt(cfg, run, k);
    && i < k && Authentic(cfg, run[i]) && run[i].req.nonce == Some(n)
    && (n in c.expiry ==> c.expiry[n] == run[i].now + cfg.nonceTtlMs && run[i].now - c.lastPrune < PRUNE_INTERVAL_MS)
    && (n !in c.expiry ==> run[i].now + cfg.nonceTtlMs <= run[k - 1].now && run[i].now < run[k - 1].now)
  }

  ghost predicate Explained(cfg: Config, run: seq<Arrival>, k: nat, n: string)
    requires k <= |run|
  {
    exists i: nat :: Explains(cfg, run, k, n, i)
  }

  ghost predicate Refines(cfg: Config, run: seq<Arrival>, k: nat)
    requires k <= |run|
  {
    && CacheAt(cfg, run, k).expiry.Keys <= SeenAt(cfg, run, k)
    && forall n :: n in SeenAt(cfg, run, k) ==> Explained(cfg, run, k, n)
  }

  /** A swept nonce can no longer arrive fresh. */
  lemma SweptMeansStale(cfg: Config, run: seq<Arrival>, k: nat, n: string, i: nat)
    requires ClockNeverBack(run) && NonceBound(cfg, run) && SafeWindow(cfg.skewMs, cfg.nonceTtlMs)
    requires k < |run| && Explains(cfg, run, k, n, i)
    requires run[i].now + cfg.nonceTtlMs <= run[k].now && run[i].now < run[k].now
    ensures !(Authentic(cfg, run[k]) && run[k].req.nonce == Some(n))
  {
  }

  /** A nonce that the arrival at `k` finds no longer cached belongs to no fresh authentic request. */
  lemma UncachedIsStale(cfg: Config, run: seq<Arrival>, k: nat, n: string, i: nat)
    requires ClockNeverBack(run) && NonceBound(cfg, run) && SafeWindow(cfg.skewMs, cfg.nonceTtlMs)
    requires k < |run| && Explains(cfg, run, k, n, i)
    requires n !in PrunedCache(CacheAt(cfg, run, k), run[k].now).expiry
    ensures !(Authentic(cfg, run[k]) && run[k].req.nonce == Some(n))
  {
    assert k > 0 && run[k - 1].now <= run[k].now;
    SweptMeansStale(cfg, run, k, n, i);
  }

  /** One arrival does not accept an explained nonce again. */
  lemma NotAcceptedAgain(cfg: Config, run: seq<Arrival>, k: nat, n: string, i: nat)
    requires ClockNeverBack(run) && NonceBound(cfg, run) && SafeWindow(cfg.skewMs, cfg.nonceTtlMs)
    requires k < |run| && Explains(cfg, run, k, n, i)
    ensures CacheAnswer(cfg, run, k).Accepted? ==> run[k].req.nonce != Some(n)
  {
    if n !in PrunedCache(CacheAt(cfg, run, k), run[k].now).expiry {
      UncachedIsStale(cfg, run, k, n, i);
    }
  }

  /** An arrival that does not accept `n` leaves its entry alone or, in a sweep, drops it when expired. */
  lemma EntryAfterStep(cfg: Config, c: Cache, now: int, req: Request, n: string)
    requires CacheStep(cfg, c, now, req).1.Accepted? ==> req.nonce != Some(n)
    ensures var c' := CacheStep(cfg, c, now, req).0;
            && (n in c'.expiry ==> n in c.expiry && c'.expiry[n] == c.expiry[n])
            && (c'.lastPrune == c.lastPrune || (c'.lastPrune == now && now - c.lastPrune >= PRUNE_INTERVAL_MS))
            && (n in c'.expiry && c'.lastPrune != c.lastPrune ==> c.expiry[n] > now)
            && (n in c.expiry && n !in c'.expiry ==> c.expiry[n] <= now && now - c.lastPrune >= PRUNE_INTERVAL_MS)
  {
  }

  /** And it keeps the nonce explained. */
  lemma ExplainedStep(cfg: Config, run: seq<Arrival>, k: nat, n: string, i: nat)
    requires ClockNeverBack(run)
    requires k < |run| && Explains(cfg, run, k, n, i)
    requires CacheAnswer(cfg, run, k).Accepted? ==> run[k].req.nonce != Some(n)
    ensures Explains(cfg, run, k + 1, n, i)
  {
    assert k > 0 && run[k - 1].now <= run[k].now && run[i].now <= run[k].now;
    EntryAfterStep(cfg, CacheAt(cfg, run, k), run[k].now, run[k].req, n);
    assert CacheAt(cfg, run, k + 1) == CacheStep(cfg, CacheAt(cfg, run, k), run[k].now, run[k].req).0;
  }

  /** The arrival at `k` neither replays a seen nonce nor loses the explanation of one. */
  lemma SeenStaysExplained(cfg: Config, run: seq<Arrival>, k: nat, n: string)
    requires ClockNeverBack(run) && NonceBound(cfg, run) && SafeWindow(cfg.skewMs, cfg.nonceTtlMs)
    requires k < |run| && Refines(cfg, run, k) && n in SeenAt(cfg, run, k)
    ensures Explained(cfg, run, k + 1, n)
    ensures CacheAnswer(cfg, run, k).Accepted? ==> run[k].req.nonce != Some(n)
  {
    var i: nat :| Explains(cfg, run, k, n, i);
    NotAcceptedAgain(cfg, run, k, n, i);
    ExplainedStep(cfg, run, k, n, i);
  }

  lemma SameAnswer(cfg: Config, run: seq<Arrival>, k: nat)
    requires k < |run|
    requires CacheAt(cfg, run, k).expiry.Keys <= SeenAt(cfg, run, k)
    requires forall n :: n in SeenAt(cfg, run, k) && CacheAnswer(cfg, run, k).Accepted? ==> run[k].req.nonce != Some(n)
    ensures SameDecision(CacheAnswer(cfg, run, k), SeenAnswer(cfg, run, k))
    ensures CacheAt(cfg, run, k + 1).expiry.Keys <= SeenAt(cfg, run, k + 1)
    ensures SeenAt(cfg, run, k + 1) ==
            SeenAt(cfg, run, k) + if CacheAnswer(cfg, run, k).Accepted? then {run[k].req.nonce.value} else {}
  {
  }

  lemma AcceptedIsExplained(cfg: Config, run: seq<Arrival>, k: nat)
    requires k < |run| && CacheAnswer(cfg, run, k).Accepted?
    ensures Explains(cfg, run, k + 1, run[k].req.nonce.value, k)
  {
  }

  lemma AnswersAgree(cfg: Config, run: seq<Arrival>, k: nat)
    requires ClockNeverBack(run) && NonceBound(cfg, run) && SafeWindow(cfg.skewMs, cfg.nonceTtlMs)
    requires k < |run| && Refines(cfg, run, k)
    ensures SameDecision(CacheAnswer(cfg, run, k), SeenAnswer(cfg, run, k))
    ensures Refines(cfg, run, k + 1)
  {
    forall n | n in SeenAt(cfg, run, k)
      ensures Explained(cfg, run, k + 1, n) && (CacheAnswer(cfg, run, k).Accepted? ==> run[k].req.nonce != Some(n))
    {
      SeenStaysExplained(cfg, run, k, n);
    }
    SameAnswer(cfg, run, k);
    if CacheAnswer(cfg, run, k).Accepted? {
      AcceptedIsExplained(cfg, run, k);
    }
  }

  lemma RefinesAtStart(cfg: Config, run: seq<Arrival>)
    ensures Refines(cfg, run, 0)
  {
  }

  lemma {:induction false} RefinesOnRun(cfg: Config, run: seq<Arrival>, k: nat)
    requires ClockNeverBack(run) && NonceBound(cfg, run) && SafeWindow(cfg.skewMs, cfg.nonceTtlMs)
    requires k <= |run|
    ensures Refines(cfg, run, k)
  {
    if k == 0 {
      RefinesAtStart(cfg, run);
    } else {
      RefinesOnRun(cfg, run, k - 1);
      AnswersAgree(cfg, run, k - 1);
    }
  }

  /** With a safe window the pruned cache decides every request of every run as the seen-set does. */
  lemma CacheAgreesWithSeenSet(cfg: Config, run: seq<Arrival>, k: nat)
    requires ClockNeverBack(run) && NonceBound(cfg, run) && SafeWindow(cfg.skewMs, cfg.nonceTtlMs)
    requires k < |run|
    ensures SameDecision(CacheAnswer(cfg, run, k), SeenAnswer(cfg, run, k))
  {
    RefinesOnRun(cfg, run, k);
    AnswersAgree(cfg, run, k);
  }

  lemma {:induction false} SeenOnlyGrows(cfg: Config, run: seq<Arrival>, i: nat, j: nat)
    requires i <= j <= |run|
    ensures SeenAt(cfg, run, i) <= SeenAt(cfg, run, j)
    decreases j
  {
    if i < j {
      SeenOnlyGrows(cfg, run, i, j - 1);
    }
  }

  lemma SeenFromNowOn(cfg: Config, run: seq<Arrival>, i: nat)
    requires i < |run| && SeenAnswer(cfg, run, i).Accepted?
    ensures run[i].req.nonce.Some? && run[i].req.nonce.value in SeenAt(cfg, run, i + 1)
  {
  }

  lemma AcceptedBySeenSet(cfg: Config, run: seq<Arrival>, k: nat)
    requires ClockNeverBack(run) && NonceBound(cfg, run) && SafeWindow(cfg.skewMs, cfg.nonceTtlMs)
    requires k < |run| && CacheAnswer(cfg, run, k).Accepted?
    ensures SeenAnswer(cfg, run, k).Accepted?
  {
    CacheAgreesWithSeenSet(cfg, run, k);
  }

  lemma AcceptedIsUnseen(cfg: Config, run: seq<Arrival>, j: nat, n: string)
    requires j < |run| && n in SeenAt(cfg, run, j) && SeenAnswer(cfg, run, j).Accepted?
    ensures run[j].req.nonce != Some(n)
  {
  }

  lemma SeenLater(cfg: Config, run: seq<Arrival>, i: nat, j: nat)
    requires i < j <= |run| && SeenAnswer(cfg, run, i).Accepted?
    ensures run[i].req.nonce.Some? && run[i].req.nonce.value in SeenAt(cfg, run, j)
  {
    SeenFromNowOn(cfg, run, i);
    SeenOnlyGrows(cfg, run, i + 1, j);
  }

  lemma SeenSetAcceptsOnce(cfg: Config, run: seq<Arrival>, i: nat, j: nat)
    requires i < j < |run| && SeenAnswer(cfg, run, i).Accepted? && SeenAnswer(cfg, run, j).Accepted?
    ensures run[i].req.nonce != run[j].req.nonce
  {
    SeenLater(cfg, run, i, j);
    AcceptedIsUnseen(cfg, run, j, run[i].req.nonce.value);
  }

  /** Hence no nonce is accepted twice. */
  lemma NoDoubleAcceptance(cfg: Config, run: seq<Arrival>, i: nat, j: nat)
    requires ClockNeverBack(run) && NonceBound(cfg, run) && SafeWindow(cfg.skewMs, cfg.nonceTtlMs)
    requires i < j < |run|
    requires CacheAnswer(cfg, run, i).Accepted? && CacheAnswer(cfg, run, j).Accepted?
    ensures run[i].req.nonce != run[j].req.nonce
  {
    AcceptedBySeenSet(cfg, run, i);
    AcceptedBySeenSet(cfg, run, j);
    SeenSetAcceptsOnce(cfg, run, i, j);
  }

  // ----- Without a safe window the promise fails

  const FIRST_USE := 2 * PRUNE_INTERVAL_MS

  /** The last sweep before the first use, placed so that the next one falls on the replay. */
  function SweepTime(skewMs: nat): nat {
    if 2 * skewMs < PRUNE_INTERVAL_MS then FIRST_USE + 2 * skewMs - PRUNE_INTERVAL_MS else FIRST_USE
  }

  /** How timestamps are printed and read; the program uses decimal digits and `Number.parseInt`. */
  datatype Notation = Notation(parse: string -> Option<int>, written: nat -> string)

  const DECIMAL := Notation(ParseInt, Decimal)

  ghost predicate ReadsBack(d: Notation) {
    forall n: nat :: d.written(n) != "" && d.parse(d.written(n)) == Some(n)
  }

  /** Signed by a client whose clock is `skewMs` ahead when the request is first used. */
  function Sample(d: Notation, skewMs: nat): SignatureInput {
    SignatureInput(d.written(FIRST_USE + skewMs), "n", "POST", "/", "")
  }

  /** One key, which verifies one signature on one request. */
  function SampleConfig(d: Notation, skewMs: nat, nonceTtlMs: int): Config {
    Config(skewMs, nonceTtlMs, d.parse,
           (key, payload, signature) => payload == RequestPayload("telegram", Sample(d, skewMs)) && signature == "good",
           [ScopeKey("telegram", Some("key"))])
  }

  function SampleRequest(d: Notation, timeMs: nat, nonce: string, signature: string): Request {
    Request(Some(d.written(timeMs)), Some(nonce), Some(signature), Some("asymmetric"), Some("POST"), Some("/"), "")
  }

  function SignedRequest(d: Notation, skewMs: nat): Request {
    SampleRequest(d, FIRST_USE + skewMs, "n", "good")
  }

  /** A probe whose only effect is a sweep, the signed request, and the same request again at the window's end. */
  function ReplayRun(d: Notation, skewMs: nat): seq<Arrival> {
    [Arrival(SweepTime(skewMs), SampleRequest(d, SweepTime(skewMs), "m", "bad")),
     Arrival(FIRST_USE, SignedRequest(d, skewMs)),
     Arrival(FIRST_USE + 2 * skewMs, SignedRequest(d, skewMs))]
  }

  lemma SignedRequestAuthenticates(d: Notation, skewMs: nat, nonceTtlMs: int)
    requires ReadsBack(d)
    ensures Authenticate(SampleConfig(d, skewMs, nonceTtlMs), SignedRequest(d, skewMs)) == Accepted("telegram")
  {
  }

  lemma ProbeOnlySweeps(d: Notation, skewMs: nat, nonceTtlMs: int)
    requires ReadsBack(d) && skewMs > 0
    ensures CacheAt(SampleConfig(d, skewMs, nonceTtlMs), ReplayRun(d, skewMs), 1) == Cache(map[], SweepTime(skewMs))
    ensures SeenAt(SampleConfig(d, skewMs, nonceTtlMs), ReplayRun(d, skewMs), 1) == {}
  {
  }

  lemma FirstUseIsAccepted(d: Notation, skewMs: nat, nonceTtlMs: int)
    requires ReadsBack(d) && skewMs > 0
    ensures CacheAnswer(SampleConfig(d, skewMs, nonceTtlMs), ReplayRun(d, skewMs), 1) == Accepted("telegram")
    ensures CacheAt(SampleConfig(d, skewMs, nonceTtlMs), ReplayRun(d, skewMs), 2) ==
            Cache(map["n" := FIRST_USE + nonceTtlMs], SweepTime(skewMs))
    ensures SeenAt(SampleConfig(d, skewMs, nonceTtlMs), ReplayRun(d, skewMs), 2) == {"n"}
  {
    var cfg := SampleConfig(d, skewMs, nonceTtlMs);
    var run := ReplayRun(d, skewMs);
    SignedRequestAuthenticates(d, skewMs, nonceTtlMs);
    ProbeOnlySweeps(d, skewMs, nonceTtlMs);
    assert run[1] == Arrival(FIRST_USE, SignedRequest(d, skewMs));
    assert Precheck(cfg, FIRST_USE, SignedRequest(d, skewMs)) == None;
    assert PrunedCache(CacheAt(cfg, run, 1), FIRST_USE) == CacheAt(cfg, run, 1);
  }

  lemma SecondUseIsDecided(d: Notation, skewMs: nat, nonceTtlMs: int)
    requires ReadsBack(d) && !SafeWindow(skewMs, nonceTtlMs)
    ensures CacheAnswer(SampleConfig(d, skewMs, nonceTtlMs), ReplayRun(d, skewMs), 2).Accepted?
    ensures SeenAnswer(SampleConfig(d, skewMs, nonceTtlMs), ReplayRun(d, skewMs), 2).Rejected?
  {
    var cfg := SampleConfig(d, skewMs, nonceTtlMs);
    var run := ReplayRun(d, skewMs);
    var again := FIRST_USE + 2 * skewMs;
    SignedRequestAuthenticates(d, skewMs, nonceTtlMs);
    FirstUseIsAccepted(d, skewMs, nonceTtlMs);
    assert run[2] == Arrival(again, SignedRequest(d, skewMs));
    assert Precheck(cfg, again, SignedRequest(d, skewMs)) == None;
    assert PrunedCache(CacheAt(cfg, run, 2), again).expiry == map[];
  }

  /**
   * For every other configuration some run accepts one signed request twice, at the instant its cache entry
   * expires.
   */
  lemma UnsafeWindowReplays(d: Notation, skewMs: nat, nonceTtlMs: int)
    requires ReadsBack(d) && !SafeWindow(skewMs, nonceTtlMs)
    ensures ReplayRun(d, skewMs)[1].req == ReplayRun(d, skewMs)[2].req
    ensures ClockNeverBack(ReplayRun(d, skewMs))
        && NonceBound(SampleConfig(d, skewMs, nonceTtlMs), ReplayRun(d, skewMs))
    ensures CacheAnswer(SampleConfig(d, skewMs, nonceTtlMs), ReplayRun(d, skewMs), 1).Accepted?
    ensures CacheAnswer(SampleConfig(d, skewMs, nonceTtlMs), ReplayRun(d, skewMs), 2).Accepted?
    ensures SeenAnswer(SampleConfig(d, skewMs, nonceTtlMs), ReplayRun(d, skewMs), 2).Rejected?
  {
    FirstUseIsAccepted(d, skewMs, nonceTtlMs);
    SecondUseIsDecided(d, skewMs, nonceTtlMs);
    SampleIsBound(d, skewMs, nonceTtlMs);
  }

  lemma SampleIsBound(d: Notation, skewMs: nat, nonceTtlMs: int)
    requires ReadsBack(d) && skewMs > 0
    ensures ClockNeverBack(ReplayRun(d, skewMs))
        && NonceBound(SampleConfig(d, skewMs, nonceTtlMs), ReplayRun(d, skewMs))
  {
    var run := ReplayRun(d, skewMs);
    assert run[1].req == run[2].req == SignedRequest(d, skewMs) && run[0].req.nonce != SignedRequest(d, skewMs).nonce;
    assert forall i, j :: 0 <= i < |run| && 0 <= j < |run| && run[i].req.nonce == run[j].req.nonce ==>
        run[i].req == run[j].req;
  }

  ghost predicate AlwaysAgrees(d: Notation, skewMs: int, nonceTtlMs: int) {
    forall cfg: Config, run: seq<Arrival>, k: nat |
      cfg.skewMs == skewMs && cfg.nonceTtlMs == nonceTtlMs && cfg.parseMs == d.parse
      && ClockNeverBack(run) && NonceBound(cfg, run) && k < |run| ::
      SameDecision(CacheAnswer(cfg, run, k), SeenAnswer(cfg, run, k))
  }

  lemma AgreesExactlyWhenSafeIn(d: Notation, skewMs: int, nonceTtlMs: int)
    requires ReadsBack(d)
    ensures AlwaysAgrees(d, skewMs, nonceTtlMs) <==> SafeWindow(skewMs, nonceTtlMs)
  {
    if SafeWindow(skewMs, nonceTtlMs) {
      forall cfg: Config, run: seq<Arrival>, k: nat |
        cfg.skewMs == skewMs && cfg.nonceTtlMs == nonceTtlMs && cfg.parseMs == d.parse
        && ClockNeverBack(run) && NonceBound(cfg, run) && k < |run|
        ensures SameDecision(CacheAnswer(cfg, run, k), SeenAnswer(cfg, run, k))
      {
        CacheAgreesWithSeenSet(cfg, run, k);
      }
    } else {
      UnsafeWindowReplays(d, skewMs, nonceTtlMs);
      var cfg, run := SampleConfig(d, skewMs, nonceTtlMs), ReplayRun(d, skewMs);
      assert !SameDecision(CacheAnswer(cfg, run, 2), SeenAnswer(cfg, run, 2));
    }
  }

  lemma DecimalReadsBack()
    ensures ReadsBack(DECIMAL)
  {
    forall n: nat ensures DECIMAL.written(n) != "" && DECIMAL.parse(DECIMAL.written(n)) == Some(n) {
      ParseIntReadsDecimal(n);
    }
  }

  /** With decimal timestamps the cache is as good as a set that never forgets if and only if the window is safe. */
  lemma AgreesExactlyWhenSafe(skewMs: int, nonceTtlMs: int)
    ensures AlwaysAgrees(DECIMAL, skewMs, nonceTtlMs) <==> SafeWindow(skewMs, nonceTtlMs)
  {
    DecimalReadsBack();
    AgreesExactlyWhenSafeIn(DECIMAL, skewMs, nonceTtlMs);
  }

  /** The shipped defaults sit exactly on the boundary, on the unsafe side. */
  lemma DefaultsAreOnTheBoundary()
    ensures DEFAULT_SKEW_MS == 300_000 && DEFAULT_NONCE_TTL_MS == 600_000
    ensures !SafeWindow(DEFAULT_SKEW_MS, DEFAULT_NONCE_TTL_MS)
    ensures SafeWindow(DEFAULT_SKEW_MS, DEFAULT_NONCE_TTL_MS + 1)
    ensures !AlwaysAgrees(DECIMAL, DEFAULT_SKEW_MS, DEFAULT_NONCE_TTL_MS)
  {
    AgreesExactlyWhenSafe(DEFAULT_SKEW_MS, DEFAULT_NONCE_TTL_MS);
  }

  // ----- Where the nonce binding comes from

  datatype Signed = Signed(scope: string, input: SignatureInput)

  /**
   * Ideal signatures: what verifies under a key was signed with it. A key may sign requests and, being the
   * relay's, response proofs as well. Requests have one-line fields and no nonce is used for two timestamps.
   */
  ghost predicate HonestSigners(cfg: Config, signed: set<Signed>, proofs: set<UnsignedProof>) {
    && (forall key, payload, signature :: cfg.verifies(key, payload, signature) ==>
          || (exists s :: s in signed && payload == RequestPayload(s.scope, s.input))
          || (exists p :: p in proofs && payload == ProofPayload(p)))
    && (forall s :: s in signed ==> OneLineFields(s.scope, s.input))
    && (forall s, t :: s in signed && t in signed && s.input.nonce == t.input.nonce ==>
          s.input.timestamp == t.input.timestamp)
  }

  /** HTTP headers, the request line and the configured scope names contain no line break. */
  ghost predicate OneLineHeaders(cfg: Config, run: seq<Arrival>) {
    && (forall k :: 0 <= k < |cfg.scopes| ==> OneLine(cfg.scopes[k].scope))
    && (forall i :: 0 <= i < |run| && run[i].req.timestamp.Some? && run[i].req.nonce.Some? ==>
          OneLineFields("", Input(run[i].req)))
  }

  /** The fields of a request that a signature covers, as they stand on the wire. */
  predicate SameRequest(input: SignatureInput, req: Request) {
    && req.timestamp == Some(input.timestamp) && req.nonce == Some(input.nonce)
    && Upper(input.verb) == Upper(if req.verb.Some? then req.verb.value else "POST")
    && input.path == (if req.url.Some? then req.url.value else "") && input.body == req.body
  }

  /** What a configured key verifies for a request was signed for that very request, or is no request at all. */
  lemma VerifiedWasSigned(cfg: Config, signed: set<Signed>, proofs: set<UnsignedProof>, req: Request, k: nat)
    returns (s: Signed)
    requires HonestSigners(cfg, signed, proofs) && k < |cfg.scopes| && OneLine(cfg.scopes[k].scope)
    requires req.timestamp.Some? && req.nonce.Some? && req.signature.Some?
    requires OneLineFields("", Input(req)) && ScopeVerifies(cfg, cfg.scopes[k], req)
    ensures s in signed && s.scope == cfg.scopes[k].scope && SameRequest(s.input, req)
  {
    var scope, input := cfg.scopes[k].scope, Input(req);
    if p :| p in proofs && RequestPayload(scope, input) == ProofPayload(p) {
      RequestIsNoProof(scope, input, p);
    }
    s :| s in signed && RequestPayload(scope, input) == RequestPayload(s.scope, s.input);
    RequestPayloadInjective(scope, input, s.scope, s.input);
  }

  /** An authentic request carries the nonce and the timestamp of something that was signed. */
  lemma AuthenticWasSigned(cfg: Config, signed: set<Signed>, proofs: set<UnsignedProof>, run: seq<Arrival>, i: nat)
    returns (s: Signed)
    requires HonestSigners(cfg, signed, proofs) && OneLineHeaders(cfg, run) && i < |run| && Authentic(cfg, run[i])
    ensures s in signed && Some(s.input.nonce) == run[i].req.nonce && Some(s.input.timestamp) == run[i].req.timestamp
  {
    var req := run[i].req;
    var k :| 0 <= k < |cfg.scopes| && ScopeVerifies(cfg, cfg.scopes[k], req);
    s := VerifiedWasSigned(cfg, signed, proofs, req, k);
  }

  // ----- The size of the cache: what a sweep leaves is recent

  lemma {:induction false} ExpiriesOutliveTheSweep(cfg: Config, run: seq<Arrival>, k: nat)
    requires ClockNeverBack(run) && k <= |run| && cfg.nonceTtlMs > 0
    requires |run| > 0 ==> run[0].now >= 0
    ensures k > 0 ==> CacheAt(cfg, run, k).lastPrune <= run[k - 1].now
    ensures CacheAt(cfg, run, k).lastPrune >= 0
    ensures forall n :: n in CacheAt(cfg, run, k).expiry ==>
                          CacheAt(cfg, run, k).expiry[n] > CacheAt(cfg, run, k).lastPrune
  {
    if k > 0 {
      ExpiriesOutliveTheSweep(cfg, run, k - 1);
      assert run[0].now <= run[k - 1].now;
    }
  }

  /** Although most calls skip the sweep, after `pruneNonces` no entry expired a prune interval ago or more. */
  lemma PruneKeepsRecentOnly(cfg: Config, run: seq<Arrival>, k: nat, n: string)
    requires ClockNeverBack(run) && k < |run| && cfg.nonceTtlMs > 0 && run[0].now >= 0
    requires n in PrunedCache(CacheAt(cfg, run, k), run[k].now).expiry
    ensures PrunedCache(CacheAt(cfg, run, k), run[k].now).expiry[n] > run[k].now - 30_000
  {
    ExpiriesOutliveTheSweep(cfg, run, k);
  }
}
