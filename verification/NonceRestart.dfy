/**
 * The nonce cache lives in the memory of one process, so a restart forgets every nonce. A history is a
 * sequence of lives, each with a cache of its own; how long must the process stay silent around a restart
 * for no nonce to be accepted in two lives?
 */
module NonceRestart {
  import opened Options
  import opened SignedPayload
  import opened InternalAuth
  import opened NonceReplay

  type History = seq<seq<Arrival>>

  /** Arrival `i` of life `a` comes no later than arrival `j` of life `b`. */
  predicate NotAfter(a: nat, i: nat, b: nat, j: nat) {
    a < b || (a == b && i <= j)
  }

  ghost predicate ClockForwardThroughout(lives: History) {
    forall a, i, b, j | 0 <= a < |lives| && 0 <= i < |lives[a]| && 0 <= b < |lives| && 0 <= j < |lives[b]| ::
      NotAfter(a, i, b, j) ==> lives[a][i].now <= lives[b][j].now
  }

  ghost predicate NonceBoundThroughout(cfg: Config, lives: History) {
    forall a, i, b, j | 0 <= a < |lives| && 0 <= i < |lives[a]| && 0 <= b < |lives| && 0 <= j < |lives[b]| ::
      Authentic(cfg, lives[a][i]) && Authentic(cfg, lives[b][j]) && lives[a][i].req.nonce == lives[b][j].req.nonce ==>
        Stamp(cfg, lives[a][i]) == Stamp(cfg, lives[b][j])
  }

  /** Between any arrival of one life and any of a later one at least `gapMs` pass. */
  ghost predicate SilentFor(lives: History, gapMs: int) {
    forall a, i, b, j | 0 <= a < b < |lives| && 0 <= i < |lives[a]| && 0 <= j < |lives[b]| ::
      lives[b][j].now - lives[a][i].now >= gapMs
  }

  ghost predicate AcceptedAt(cfg: Config, lives: History, a: nat, i: nat) {
    a < |lives| && i < |lives[a]| && CacheAnswer(cfg, lives[a], i).Accepted?
  }

  /** No nonce is accepted at two places of the history. */
  ghost predicate AcceptsOnce(cfg: Config, lives: History) {
    forall a: nat, i: nat, b: nat, j: nat | AcceptedAt(cfg, lives, a, i) && AcceptedAt(cfg, lives, b, j) ::
      lives[a][i].req.nonce == lives[b][j].req.nonce ==> a == b && i == j
  }

  lemma AcceptedIsAuthentic(cfg: Config, run: seq<Arrival>, k: nat)
    requires k < |run| && CacheAnswer(cfg, run, k).Accepted?
    ensures Authentic(cfg, run[k])
  {
  }

  lemma AuthenticIsNear(cfg: Config, a: Arrival)
    requires Authentic(cfg, a)
    ensures Stamp(cfg, a) - cfg.skewMs <= a.now <= Stamp(cfg, a) + cfg.skewMs
  {
  }

  /** In two lives: both arrivals lie within the skew of one timestamp. */
  lemma NotInTwoLives(cfg: Config, lives: History, a: nat, i: nat, b: nat, j: nat)
    requires NonceBoundThroughout(cfg, lives) && SilentFor(lives, 2 * cfg.skewMs + 1) && a < b
    requires AcceptedAt(cfg, lives, a, i) && AcceptedAt(cfg, lives, b, j)
    ensures lives[a][i].req.nonce != lives[b][j].req.nonce
  {
    AcceptedIsAuthentic(cfg, lives[a], i);
    AcceptedIsAuthentic(cfg, lives[b], j);
    AuthenticIsNear(cfg, lives[a][i]);
    AuthenticIsNear(cfg, lives[b][j]);
  }

  lemma NotTwiceInOneLife(cfg: Config, lives: History, a: nat, i: nat, j: nat)
    requires ClockForwardThroughout(lives) && NonceBoundThroughout(cfg, lives)
    requires SafeWindow(cfg.skewMs, cfg.nonceTtlMs) && i < j
    requires AcceptedAt(cfg, lives, a, i) && AcceptedAt(cfg, lives, a, j)
    ensures lives[a][i].req.nonce != lives[a][j].req.nonce
  {
    forall k, l | 0 <= k <= l < |lives[a]| ensures lives[a][k].now <= lives[a][l].now {
      assert NotAfter(a, k, a, l);
    }
    NoDoubleAcceptance(cfg, lives[a], i, j);
  }

  lemma Distinguished(cfg: Config, lives: History, a: nat, i: nat, b: nat, j: nat)
    requires ClockForwardThroughout(lives) && NonceBoundThroughout(cfg, lives)
    requires SafeWindow(cfg.skewMs, cfg.nonceTtlMs) && SilentFor(lives, 2 * cfg.skewMs + 1)
    requires AcceptedAt(cfg, lives, a, i) && AcceptedAt(cfg, lives, b, j)
    requires lives[a][i].req.nonce == lives[b][j].req.nonce
    ensures a == b && i == j
  {
    if a < b {
      NotInTwoLives(cfg, lives, a, i, b, j);
    } else if b < a {
      NotInTwoLives(cfg, lives, b, j, a, i);
    } else if i < j {
      NotTwiceInOneLife(cfg, lives, a, i, j);
    } else if j < i {
      NotTwiceInOneLife(cfg, lives, a, j, i);
    }
  }

  /** Over any number of restarts, each with more than twice the skew of silence, no nonce is accepted twice. */
  lemma AcceptsOnceAcrossRestarts(cfg: Config, lives: History)
    requires ClockForwardThroughout(lives) && NonceBoundThroughout(cfg, lives)
    requires SafeWindow(cfg.skewMs, cfg.nonceTtlMs) && SilentFor(lives, 2 * cfg.skewMs + 1)
    ensures AcceptsOnce(cfg, lives)
  {
    forall a: nat, i: nat, b: nat, j: nat | AcceptedAt(cfg, lives, a, i) && AcceptedAt(cfg, lives, b, j)
      && lives[a][i].req.nonce == lives[b][j].req.nonce
      ensures a == b && i == j
    {
      Distinguished(cfg, lives, a, i, b, j);
    }
  }

  // ----- A shorter silence is not enough, whatever the TTL

  /** A new process accepts the sample request at any instant within the skew of its timestamp. */
  lemma NewProcessAccepts(d: Notation, skewMs: nat, nonceTtlMs: int, afterMs: nat)
    requires ReadsBack(d) && afterMs <= 2 * skewMs
    ensures CacheAnswer(SampleConfig(d, skewMs, nonceTtlMs),
                        [Arrival(FIRST_USE + afterMs, SignedRequest(d, skewMs))], 0) == Accepted("telegram")
  {
    var cfg, req, now := SampleConfig(d, skewMs, nonceTtlMs), SignedRequest(d, skewMs), FIRST_USE + afterMs;
    SignedRequestAuthenticates(d, skewMs, nonceTtlMs);
    assert Precheck(cfg, now, req) == None;
    assert PrunedCache(EMPTY_CACHE, now).expiry == map[];
    assert CacheAt(cfg, [Arrival(now, req)], 0) == EMPTY_CACHE;
  }

  /** The sample request, a restart, and the same request again `gapMs` later. */
  function RestartHistory(d: Notation, skewMs: nat, gapMs: nat): History {
    [[Arrival(FIRST_USE, SignedRequest(d, skewMs))], [Arrival(FIRST_USE + gapMs, SignedRequest(d, skewMs))]]
  }

  /** Every silence of at most twice the skew lets a restart accept one signed request a second time. */
  lemma ShortSilenceReplays(d: Notation, skewMs: nat, nonceTtlMs: int, gapMs: nat)
    requires ReadsBack(d) && gapMs <= 2 * skewMs
    ensures var cfg, lives := SampleConfig(d, skewMs, nonceTtlMs), RestartHistory(d, skewMs, gapMs);
            && ClockForwardThroughout(lives) && NonceBoundThroughout(cfg, lives) && SilentFor(lives, gapMs)
            && AcceptedAt(cfg, lives, 0, 0) && AcceptedAt(cfg, lives, 1, 0)
            && lives[0][0].req == lives[1][0].req
  {
    NewProcessAccepts(d, skewMs, nonceTtlMs, 0);
    NewProcessAccepts(d, skewMs, nonceTtlMs, gapMs);
    var lives: History := RestartHistory(d, skewMs, gapMs);
    assert lives[0][0].req == lives[1][0].req == SignedRequest(d, skewMs);
    assert forall a, i | 0 <= a < |lives| && 0 <= i < |lives[a]| :: lives[a][i].req == SignedRequest(d, skewMs);
  }

  /** One life without a restart is a history. */
  lemma OneLife(cfg: Config, run: seq<Arrival>, i: nat, j: nat)
    requires ClockNeverBack(run) && NonceBound(cfg, run) && i < j < |run|
    requires CacheAnswer(cfg, run, i).Accepted? && CacheAnswer(cfg, run, j).Accepted?
    requires run[i].req.nonce == run[j].req.nonce
    ensures ClockForwardThroughout([run]) && NonceBoundThroughout(cfg, [run]) && !AcceptsOnce(cfg, [run])
    ensures forall gapMs :: SilentFor([run], gapMs)
  {
    assert [run][0] == run;
    assert AcceptedAt(cfg, [run], 0, i) && AcceptedAt(cfg, [run], 0, j);
  }

  ghost predicate AlwaysAcceptsOnce(d: Notation, skewMs: int, nonceTtlMs: int, gapMs: nat) {
    forall cfg: Config, lives: History |
      cfg.skewMs == skewMs && cfg.nonceTtlMs == nonceTtlMs && cfg.parseMs == d.parse
      && ClockForwardThroughout(lives) && NonceBoundThroughout(cfg, lives) && SilentFor(lives, gapMs) ::
      AcceptsOnce(cfg, lives)
  }

  lemma SafeHistories(d: Notation, skewMs: int, nonceTtlMs: int, gapMs: nat)
    requires SafeWindow(skewMs, nonceTtlMs) && gapMs > 2 * skewMs
    ensures AlwaysAcceptsOnce(d, skewMs, nonceTtlMs, gapMs)
  {
    forall cfg: Config, lives: History |
      cfg.skewMs == skewMs && cfg.nonceTtlMs == nonceTtlMs && cfg.parseMs == d.parse
      && ClockForwardThroughout(lives) && NonceBoundThroughout(cfg, lives) && SilentFor(lives, gapMs)
      ensures AcceptsOnce(cfg, lives)
    {
      AcceptsOnceAcrossRestarts(cfg, lives);
    }
  }

  lemma UnsafeHistories(d: Notation, skewMs: int, nonceTtlMs: int, gapMs: nat)
    requires ReadsBack(d) && !(SafeWindow(skewMs, nonceTtlMs) && gapMs > 2 * skewMs)
    ensures !AlwaysAcceptsOnce(d, skewMs, nonceTtlMs, gapMs)
  {
    var cfg := SampleConfig(d, skewMs, nonceTtlMs);
    if !SafeWindow(skewMs, nonceTtlMs) {
      UnsafeWindowReplays(d, skewMs, nonceTtlMs);
      OneLife(cfg, ReplayRun(d, skewMs), 1, 2);
    } else {
      ShortSilenceReplays(d, skewMs, nonceTtlMs, gapMs);
      assert !AcceptsOnce(cfg, RestartHistory(d, skewMs, gapMs));
    }
  }

  /**
   * No nonce is accepted twice on any history with `gapMs` of silence around each restart if and only if the
   * window is safe and the silence is longer than twice the skew.
   */
  lemma AcceptsOnceExactly(skewMs: int, nonceTtlMs: int, gapMs: nat)
    ensures AlwaysAcceptsOnce(DECIMAL, skewMs, nonceTtlMs, gapMs)
       <==> SafeWindow(skewMs, nonceTtlMs) && gapMs > 2 * skewMs
  {
    if SafeWindow(skewMs, nonceTtlMs) && gapMs > 2 * skewMs {
      SafeHistories(DECIMAL, skewMs, nonceTtlMs, gapMs);
    } else {
      DecimalReadsBack();
      UnsafeHistories(DECIMAL, skewMs, nonceTtlMs, gapMs);
    }
  }

  // ----- End to end

  lemma HonestSignersBindThroughout(
    cfg: Config, signed: set<Signed>, proofs: set<UnsignedProof>, lives: History)
    requires HonestSigners(cfg, signed, proofs)
    requires forall a :: 0 <= a < |lives| ==> OneLineHeaders(cfg, lives[a])
    ensures NonceBoundThroughout(cfg, lives)
  {
    forall a, i, b, j | 0 <= a < |lives| && 0 <= i < |lives[a]| && 0 <= b < |lives| && 0 <= j < |lives[b]|
      && Authentic(cfg, lives[a][i]) && Authentic(cfg, lives[b][j])
      && lives[a][i].req.nonce == lives[b][j].req.nonce
      ensures Stamp(cfg, lives[a][i]) == Stamp(cfg, lives[b][j])
    {
      var s := AuthenticWasSigned(cfg, signed, proofs, lives[a], i);
      var t := AuthenticWasSigned(cfg, signed, proofs, lives[b], j);
    }
  }

  /**
   * What an honest client signed once is accepted at most once, whatever proofs the same key signs and
   * however often the process restarts, given the silence around every restart.
   */
  lemma SignedOnceAcceptedOnce(cfg: Config, signed: set<Signed>, proofs: set<UnsignedProof>, lives: History)
    requires HonestSigners(cfg, signed, proofs)
    requires forall a :: 0 <= a < |lives| ==> OneLineHeaders(cfg, lives[a])
    requires ClockForwardThroughout(lives) && SilentFor(lives, 2 * cfg.skewMs + 1)
    requires SafeWindow(cfg.skewMs, cfg.nonceTtlMs)
    ensures AcceptsOnce(cfg, lives)
  {
    HonestSignersBindThroughout(cfg, signed, proofs, lives);
    AcceptsOnceAcrossRestarts(cfg, lives);
  }
}
