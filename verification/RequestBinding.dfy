/** Which request an accepted signature is for: no field can be swapped, and an honest request gets through. */
module RequestBinding {
  import opened Options
  import opened SignedPayload
  import opened InternalAuth
  import opened NonceReplay

  /** HTTP headers, the request line and the configured scope names contain no line break. */
  predicate OneLineRequest(cfg: Config, req: Request) {
    && (forall k :: 0 <= k < |cfg.scopes| ==> OneLine(cfg.scopes[k].scope))
    && (req.timestamp.Some? ==> OneLine(req.timestamp.value)) && (req.nonce.Some? ==> OneLine(req.nonce.value))
    && (req.verb.Some? ==> OneLine(req.verb.value)) && (req.url.Some? ==> OneLine(req.url.value))
  }

  /**
   * An accepted request was signed under the scope that is granted, with this timestamp, nonce, method up to
   * case, path and body. A request without method counts as POST, one without URL has the empty path.
   */
  lemma AcceptedWasSigned(
    cfg: Config, signed: set<Signed>, proofs: set<UnsignedProof>, c: Cache, now: int, req: Request)
    returns (s: Signed)
    requires HonestSigners(cfg, signed, proofs) && OneLineRequest(cfg, req)
    requires CacheStep(cfg, c, now, req).1.Accepted?
    ensures s in signed && s.scope == CacheStep(cfg, c, now, req).1.scope
    ensures req.timestamp == Some(s.input.timestamp) && req.nonce == Some(s.input.nonce)
    ensures Upper(s.input.verb) == Upper(if req.verb.Some? then req.verb.value else "POST")
    ensures s.input.path == if req.url.Some? then req.url.value else ""
    ensures s.input.body == req.body
  {
    AcceptedExactly(cfg, c, now, req);
    AnsweredExactly(cfg, c, now, req);
    var k :| 0 <= k < |cfg.scopes| && cfg.scopes[k].scope == CacheStep(cfg, c, now, req).1.scope
      && ScopeVerifies(cfg, cfg.scopes[k], req);
    s := VerifiedWasSigned(cfg, signed, proofs, req, k);
  }

  /** The bytes that a client signs for a request under a scope, written out. */
  function WireText(scope: string, req: Request): string
    requires req.timestamp.Some? && req.nonce.Some?
  {
    "v2\n" + (scope + "\n" + (req.timestamp.value + "\n" + (req.nonce.value + "\n"
    + (Upper(if req.verb.Some? then req.verb.value else "POST") + "\n"
    + ((if req.url.Some? then req.url.value else "") + "\n" + req.body)))))
  }

  /** A fresh and new request whose text a configured key verifies is accepted, and only such a one is. */
  lemma AcceptedExactlyOnWire(cfg: Config, c: Cache, now: int, req: Request)
    requires Complete(req)
    ensures CacheStep(cfg, c, now, req).1.Accepted? <==>
              && Fresh(cfg, now, req) && !Remembered(c, now, req.nonce.value)
              && req.authType == Some("asymmetric")
              && exists k :: 0 <= k < |cfg.scopes| && cfg.scopes[k].publicKey.Some? && cfg.scopes[k].publicKey.value != ""
                   && cfg.verifies(cfg.scopes[k].publicKey.value, WireText(cfg.scopes[k].scope, req), req.signature.value)
  {
    AcceptedExactly(cfg, c, now, req);
    forall k | 0 <= k < |cfg.scopes|
      ensures WireText(cfg.scopes[k].scope, req) == RequestPayload(cfg.scopes[k].scope, Input(req))
    {
      RequestSpelled(cfg.scopes[k].scope, Input(req));
    }
  }
}
