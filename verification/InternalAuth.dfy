/** Verification of signed internal requests, with the lazily pruned nonce cache. */
module InternalAuth {
  import opened Options
  import opened SignedPayload

  const PRUNE_INTERVAL_MS := 30_000
  const MAX_NONCE_LENGTH := 128
  const DEFAULT_SKEW_MS := 300_000
  const DEFAULT_NONCE_TTL_MS := 600_000

  datatype ScopeKey = ScopeKey(scope: string, publicKey: Option<string>)

  /**
   * Reading a number and Ed25519 verification of a payload's UTF-8 bytes are ideal functions; different
   * payloads have different bytes. The scopes come from the environment.
   */
  datatype Config = Config(
    skewMs: int, nonceTtlMs: int,
    parseMs: string -> Option<int>,
    verifies: (string, string, string) -> bool,
    scopes: seq<ScopeKey>)

  datatype Request = Request(
    timestamp: Option<string>, nonce: Option<string>, signature: Option<string>, authType: Option<string>,
    verb: Option<string>, url: Option<string>, body: string)

  datatype Reason =
    | MissingHeaders | NonceTooLong | InvalidTimestamp | OutsideWindow
    | NonceReplayed | NotAsymmetric | NoKeyConfigured | BadSignature

  datatype AuthResult = Accepted(scope: string) | Rejected(status: int, reason: Reason)

  datatype Cache = Cache(expiry: map<string, int>, lastPrune: int)

  const EMPTY_CACHE := Cache(map[], 0)

  // ----- The decision, one stage at a time

  /** A header that is absent or empty. */
  predicate Blank(h: Option<string>) {
    h == None || h.value == ""
  }

  function Abs(x: int): nat {
    if x < 0 then -x else x
  }

  function Precheck(cfg: Config, now: int, req: Request): Option<Reason> {
    if Blank(req.timestamp) || Blank(req.nonce) || Blank(req.signature) then Some(MissingHeaders)
    else if |req.nonce.value| > MAX_NONCE_LENGTH then Some(NonceTooLong)
    else match cfg.parseMs(req.timestamp.value)
      case None => Some(InvalidTimestamp)
      case Some(ms) => if Abs(now - ms) > cfg.skewMs then Some(OutsideWindow) else None
  }

  function Input(req: Request): SignatureInput
    requires req.timestamp.Some? && req.nonce.Some?
  {
    SignatureInput(req.timestamp.value, req.nonce.value,
                   if req.verb.Some? then req.verb.value else "POST",
                   if req.url.Some? then req.url.value else "", req.body)
  }

  predicate ScopeVerifies(cfg: Config, key: ScopeKey, req: Request)
    requires req.timestamp.Some? && req.nonce.Some? && req.signature.Some?
  {
    !Blank(key.publicKey)
    && cfg.verifies(key.publicKey.value, RequestPayload(key.scope, Input(req)), req.signature.value)
  }

  /** The first configured scope whose key verifies the signature. */
  function FirstScope(cfg: Config, keys: seq<ScopeKey>, req: Request): (r: Option<string>)
    requires req.timestamp.Some? && req.nonce.Some? && req.signature.Some?
    ensures r == None <==> forall k :: 0 <= k < |keys| ==> !ScopeVerifies(cfg, keys[k], req)
    ensures r.Some? ==> exists k :: 0 <= k < |keys| && ScopeVerifies(cfg, keys[k], req) && keys[k].scope == r.value
                                    && forall i :: 0 <= i < k ==> !ScopeVerifies(cfg, keys[i], req)
  {
    if keys == [] then None
    else if ScopeVerifies(cfg, keys[0], req) then Some(keys[0].scope)
    else FirstScope(cfg, keys[1..], req)
  }

  predicate AnyKeyConfigured(keys: seq<ScopeKey>) {
    keys != [] && (!Blank(keys[0].publicKey) || AnyKeyConfigured(keys[1..]))
  }

  function Authenticate(cfg: Config, req: Request): AuthResult
    requires req.timestamp.Some? && req.nonce.Some? && req.signature.Some?
  {
    if req.authType != Some("asymmetric") then Rejected(401, NotAsymmetric)
    else match FirstScope(cfg, cfg.scopes, req)
      case Some(scope) => Accepted(scope)
      case None =>
        if AnyKeyConfigured(cfg.scopes) then Rejected(401, BadSignature)
        else Rejected(500, NoKeyConfigured)
  }

  // ----- The cache as the code keeps it

  function PrunedCache(c: Cache, now: int): Cache {
    if now - c.lastPrune < PRUNE_INTERVAL_MS then c
    else Cache(map n | n in c.expiry && c.expiry[n] > now :: c.expiry[n], now)
  }

  function CacheStep(cfg: Config, c: Cache, now: int, req: Request): (Cache, AuthResult) {
    match Precheck(cfg, now, req)
    case Some(reason) => (c, Rejected(401, reason))
    case None =>
      var p := PrunedCache(c, now);
      if req.nonce.value in p.expiry then (p, Rejected(401, NonceReplayed))
      else
        var result := Authenticate(cfg, req);
        if result.Accepted?
        then (p.(expiry := p.expiry[req.nonce.value := now + cfg.nonceTtlMs]), result)
        else (p, result)
  }

  predicate Fresh(cfg: Config, now: int, req: Request) {
    && req.timestamp.Some? && req.timestamp.value != "" && cfg.parseMs(req.timestamp.value).Some?
    && now - cfg.skewMs <= cfg.parseMs(req.timestamp.value).value <= now + cfg.skewMs
  }

  /** The nonce is remembered: its entry is live, or expired and not swept yet. */
  predicate Remembered(c: Cache, now: int, nonce: string) {
    nonce in c.expiry && (c.expiry[nonce] > now || now < c.lastPrune + 30_000)
  }

  /** The conditions of acceptance, in no particular order, and what acceptance and refusal leave behind. */
  lemma AcceptedExactly(cfg: Config, c: Cache, now: int, req: Request)
    ensures CacheStep(cfg, c, now, req).1.Accepted? <==>
            && Fresh(cfg, now, req) && !Blank(req.signature)
            && !Blank(req.nonce) && |req.nonce.value| <= 128 && !Remembered(c, now, req.nonce.value)
            && req.authType == Some("asymmetric")
            && exists k :: 0 <= k < |cfg.scopes| && ScopeVerifies(cfg, cfg.scopes[k], req)
    ensures CacheStep(cfg, c, now, req).1.Accepted? ==>
              var c' := CacheStep(cfg, c, now, req).0;
              req.nonce.value in c'.expiry && c'.expiry[req.nonce.value] == now + cfg.nonceTtlMs
    ensures forall n :: n in CacheStep(cfg, c, now, req).0.expiry && n !in c.expiry ==>
                          CacheStep(cfg, c, now, req).1.Accepted? && req.nonce == Some(n)
  {
    if Precheck(cfg, now, req) == None {
      assert Remembered(c, now, req.nonce.value) <==> req.nonce.value in PrunedCache(c, now).expiry;
    }
  }

  /** Headers that are there, not empty, and with a nonce that is not too long. */
  predicate Complete(req: Request) {
    && req.timestamp.Some? && req.timestamp.value != "" && req.nonce.Some? && req.nonce.value != ""
    && req.signature.Some? && req.signature.value != "" && |req.nonce.value| <= 128
  }

  predicate RefusedFor(r: AuthResult, reason: Reason) {
    r.Rejected? && r.reason == reason
  }

  /** Why a request is refused before its signature is looked at; the first reason in this order counts. */
  lemma RefusedEarly(cfg: Config, c: Cache, now: int, req: Request)
    ensures var r := CacheStep(cfg, c, now, req).1;
            && (RefusedFor(r, MissingHeaders) <==>
                  !(req.timestamp.Some? && req.timestamp.value != "" && req.nonce.Some? && req.nonce.value != ""
                    && req.signature.Some? && req.signature.value != ""))
            && (Complete(req) ==>
                  && (RefusedFor(r, InvalidTimestamp) <==> cfg.parseMs(req.timestamp.value) == None)
                  && (RefusedFor(r, OutsideWindow) <==>
                        cfg.parseMs(req.timestamp.value).Some? && !Fresh(cfg, now, req))
                  && (RefusedFor(r, NonceReplayed) <==> Fresh(cfg, now, req) && Remembered(c, now, req.nonce.value)))
            && (RefusedFor(r, NonceTooLong) <==>
                  !RefusedFor(r, MissingHeaders) && !Complete(req))
  {
    if Precheck(cfg, now, req) == None {
      assert Remembered(c, now, req.nonce.value) <==> req.nonce.value in PrunedCache(c, now).expiry;
    }
  }

  lemma {:induction false} SomeKey(keys: seq<ScopeKey>)
    ensures AnyKeyConfigured(keys) <==>
              exists k :: 0 <= k < |keys| && keys[k].publicKey.Some? && keys[k].publicKey.value != ""
  {
    if keys != [] {
      SomeKey(keys[1..]);
      assert forall k :: 0 < k < |keys| ==> keys[k] == keys[1..][k - 1];
      assert forall k :: 0 <= k < |keys| - 1 ==> keys[1..][k] == keys[k + 1];
    }
  }

  /** What a fresh and new request is answered: the scope of the first key that verifies it, or the refusal. */
  lemma AnsweredExactly(cfg: Config, c: Cache, now: int, req: Request)
    requires Complete(req) && Fresh(cfg, now, req) && !Remembered(c, now, req.nonce.value)
    ensures var r := CacheStep(cfg, c, now, req).1;
            && (RefusedFor(r, NotAsymmetric) <==> req.authType != Some("asymmetric"))
            && (r.Accepted? ==>
                  exists k :: 0 <= k < |cfg.scopes| && cfg.scopes[k].scope == r.scope
                    && ScopeVerifies(cfg, cfg.scopes[k], req)
                    && forall i :: 0 <= i < k ==> !ScopeVerifies(cfg, cfg.scopes[i], req))
            && (RefusedFor(r, NoKeyConfigured) <==>
                  req.authType == Some("asymmetric")
                  && forall k :: 0 <= k < |cfg.scopes| ==>
                       cfg.scopes[k].publicKey == None || cfg.scopes[k].publicKey.value == "")
            && (RefusedFor(r, BadSignature) <==>
                  !r.Accepted? && !RefusedFor(r, NotAsymmetric) && !RefusedFor(r, NoKeyConfigured))
  {
    assert req.nonce.value !in PrunedCache(c, now).expiry;
    SomeKey(cfg.scopes);
  }

  /** Only a missing configuration is the server's fault. */
  lemma StatusOfRefusal(cfg: Config, c: Cache, now: int, req: Request)
    ensures var r := CacheStep(cfg, c, now, req).1;
            r.Rejected? ==> r.status == if r.reason == NoKeyConfigured then 500 else 401
  {
  }

  /** A request that is not fresh leaves the cache alone, any other gives it the chance to sweep. */
  lemma CacheAfter(cfg: Config, c: Cache, now: int, req: Request)
    ensures var (c', r) := CacheStep(cfg, c, now, req);
            && (!(Complete(req) && Fresh(cfg, now, req)) ==> c' == c)
            && (Complete(req) && Fresh(cfg, now, req) && r.Rejected? ==> c' == PrunedCache(c, now))
            && (r.Accepted? ==>
                  && c'.lastPrune == PrunedCache(c, now).lastPrune
                  && c'.expiry == PrunedCache(c, now).expiry[req.nonce.value := now + cfg.nonceTtlMs])
  {
  }

  /** After a sweep the next one is 30 seconds away. */
  lemma SweepsAreSpaced(c: Cache, now: int, later: int)
    requires now - c.lastPrune >= 30_000
    ensures PrunedCache(c, now).lastPrune == now
    ensures later < now + 30_000 ==> PrunedCache(PrunedCache(c, now), later) == PrunedCache(c, now)
    ensures forall n :: n in PrunedCache(c, now).expiry <==> n in c.expiry && c.expiry[n] > now
    ensures forall n :: n in PrunedCache(c, now).expiry ==> PrunedCache(c, now).expiry[n] == c.expiry[n]
  {
  }

  class Verifier {
    const cfg: Config
    var nonceCache: map<string, int>
    var lastPrune: int

    constructor (cfg: Config)
      ensures this.cfg == cfg && State() == EMPTY_CACHE
    {
      this.cfg := cfg;
      nonceCache := map[];
      lastPrune := 0;
    }

    function State(): Cache
      reads this
    {
      Cache(nonceCache, lastPrune)
    }

    method PruneNonces(now: int)
      modifies this
      ensures State() == PrunedCache(old(State()), now)
    {
      if now - lastPrune < PRUNE_INTERVAL_MS {
        return;
      }
      lastPrune := now;
      var entries := nonceCache;
      var rest := entries.Keys;
      while rest != {}
        invariant rest <= entries.Keys
        invariant nonceCache == map n | n in entries && (n in rest || entries[n] > now) :: entries[n]
        invariant lastPrune == now
        decreases rest
      {
        var nonce :| nonce in rest;
        rest := rest - {nonce};
        if entries[nonce] <= now {
          nonceCache := nonceCache - {nonce};
        }
      }
    }

    /** The loop over the discovered scopes, and whether any of them has a key. */
    method TryScopes(req: Request) returns (scope: Option<string>, anyKey: bool)
      requires req.timestamp.Some? && req.nonce.Some? && req.signature.Some?
      ensures scope == FirstScope(cfg, cfg.scopes, req)
      ensures scope == None ==> anyKey == AnyKeyConfigured(cfg.scopes)
    {
      scope, anyKey := None, false;
      for k := 0 to |cfg.scopes|
        invariant FirstScope(cfg, cfg.scopes, req) == FirstScope(cfg, cfg.scopes[k..], req)
        invariant AnyKeyConfigured(cfg.scopes) == (anyKey || AnyKeyConfigured(cfg.scopes[k..]))
      {
        assert cfg.scopes[k..][0] == cfg.scopes[k] && cfg.scopes[k..][1..] == cfg.scopes[k + 1..];
        if !Blank(cfg.scopes[k].publicKey) {
          anyKey := true;
          if ScopeVerifies(cfg, cfg.scopes[k], req) {
            scope := Some(cfg.scopes[k].scope);
            return;
          }
        }
      }
      scope := None;
    }

    method VerifyInternalAuth(now: int, req: Request) returns (r: AuthResult)
      modifies this
      ensures (State(), r) == CacheStep(cfg, old(State()), now, req)
    {
      if Blank(req.timestamp) || Blank(req.nonce) || Blank(req.signature) {
        return Rejected(401, MissingHeaders);
      }
      if |req.nonce.value| > MAX_NONCE_LENGTH {
        return Rejected(401, NonceTooLong);
      }
      var timestampMs := cfg.parseMs(req.timestamp.value);
      if timestampMs == None {
        return Rejected(401, InvalidTimestamp);
      }
      if Abs(now - timestampMs.value) > cfg.skewMs {
        return Rejected(401, OutsideWindow);
      }
      PruneNonces(now);
      if req.nonce.value in nonceCache {
        return Rejected(401, NonceReplayed);
      }
      if req.authType != Some("asymmetric") {
        return Rejected(401, NotAsymmetric);
      }
      var scope, anyKey := TryScopes(req);
      if scope.Some? {
        nonceCache := nonceCache[req.nonce.value := now + cfg.nonceTtlMs];
        return Accepted(scope.value);
      }
      if !anyKey {
        return Rejected(500, NoKeyConfigured);
      }
      return Rejected(401, BadSignature);
    }
  }
}
