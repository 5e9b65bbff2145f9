/** The newline-joined texts that the internal RPC signs, as UTF-8 bytes. */
module SignedPayload {
  import opened Utf8

  const REQUEST_VERSION := "v2"
  const PROOF_VERSION := "v1"
  const PROOF_TAG := "relay-response"

  datatype SignatureInput = SignatureInput(timestamp: string, nonce: string, verb: string, path: string, body: string)

  datatype UnsignedProof = UnsignedProof(
    scope: string, timestamp: string, nonce: string, verb: string, path: string,
    requestBodySha256: string, responseBodySha256: string)

  function Join(parts: seq<string>): string {
    if parts == [] then ""
    else if |parts| == 1 then parts[0]
    else parts[0] + "\n" + Join(parts[1..])
  }

  /** ASCII upper case, which is all that HTTP method names need. */
  function Upper(s: string): (u: string)
    ensures |u| == |s|
    ensures '\n' in u <==> '\n' in s
  {
    if s == "" then ""
    else
      var c := if 'a' <= s[0] <= 'z' then (s[0] as int - 32) as char else s[0];
      assert s == [s[0]] + s[1..];
      assert c == '\n' <==> s[0] == '\n';
      [c] + Upper(s[1..])
  }

  function RequestParts(scope: string, input: SignatureInput): seq<string> {
    [REQUEST_VERSION, scope, input.timestamp, input.nonce, Upper(input.verb), input.path, input.body]
  }

  function RequestPayload(scope: string, input: SignatureInput): string {
    Join(RequestParts(scope, input))
  }

  function ProofPayload(p: UnsignedProof): string {
    Join([PROOF_VERSION, PROOF_TAG, p.scope, p.timestamp, p.nonce, Upper(p.verb), p.path,
          p.requestBodySha256, p.responseBodySha256])
  }

  /** The request payload written out. */
  lemma RequestSpelled(scope: string, input: SignatureInput)
    ensures RequestPayload(scope, input)
         == "v2\n" + (scope + "\n" + (input.timestamp + "\n" + (input.nonce + "\n" + (Upper(input.verb) + "\n"
            + (input.path + "\n" + input.body)))))
  {
    var parts := RequestParts(scope, input);
    assert parts[1..][1..] == parts[2..] && parts[2..][1..] == parts[3..] && parts[3..][1..] == parts[4..];
    assert parts[4..][1..] == parts[5..] && parts[5..][1..] == parts[6..];
    assert Join(parts[6..]) == input.body;
    assert Join(parts[5..]) == input.path + "\n" + Join(parts[6..]);
    assert Join(parts[4..]) == Upper(input.verb) + "\n" + Join(parts[5..]);
    assert Join(parts[3..]) == input.nonce + "\n" + Join(parts[4..]);
    assert Join(parts[2..]) == input.timestamp + "\n" + Join(parts[3..]);
    assert Join(parts[1..]) == scope + "\n" + Join(parts[2..]);
    assert "v2" + "\n" == "v2\n";
  }

  /** The response-proof payload written out. */
  lemma ProofSpelled(p: UnsignedProof)
    ensures ProofPayload(p)
         == "v1" + "\n" + ("relay-response" + "\n" + (p.scope + "\n" + (p.timestamp + "\n" + (p.nonce + "\n"
            + (Upper(p.verb) + "\n" + (p.path + "\n" + (p.requestBodySha256 + "\n" + p.responseBodySha256)))))))
  {
    var parts := [PROOF_VERSION, PROOF_TAG, p.scope, p.timestamp, p.nonce, Upper(p.verb), p.path,
                  p.requestBodySha256, p.responseBodySha256];
    assert parts[1..][1..] == parts[2..] && parts[2..][1..] == parts[3..] && parts[3..][1..] == parts[4..];
    assert parts[4..][1..] == parts[5..] && parts[5..][1..] == parts[6..] && parts[6..][1..] == parts[7..];
    assert parts[7..][1..] == parts[8..];
    assert Join(parts[8..]) == p.responseBodySha256;
    assert Join(parts[7..]) == p.requestBodySha256 + "\n" + Join(parts[8..]);
    assert Join(parts[6..]) == p.path + "\n" + Join(parts[7..]);
    assert Join(parts[5..]) == Upper(p.verb) + "\n" + Join(parts[6..]);
    assert Join(parts[4..]) == p.nonce + "\n" + Join(parts[5..]);
    assert Join(parts[3..]) == p.timestamp + "\n" + Join(parts[4..]);
    assert Join(parts[2..]) == p.scope + "\n" + Join(parts[3..]);
    assert Join(parts[1..]) == PROOF_TAG + "\n" + Join(parts[2..]);
  }

  /** Letters a..z lose 32, everything else stays. */
  lemma {:induction false} UpperExact(s: string, i: nat)
    requires i < |s|
    ensures Upper(s)[i] as int == if 97 <= s[i] as int <= 122 then s[i] as int - 32 else s[i] as int
  {
    if i > 0 {
      UpperExact(s[1..], i - 1);
    }
  }

  predicate OneLine(s: string) {
    '\n' !in s
  }

  /** Everything before the body fits on a line of its own. */
  predicate OneLineFields(scope: string, input: SignatureInput) {
    OneLine(scope) && OneLine(input.timestamp) && OneLine(input.nonce) && OneLine(input.verb) && OneLine(input.path)
  }

  predicate OneLineProof(p: UnsignedProof) {
    OneLine(p.scope) && OneLine(p.timestamp) && OneLine(p.nonce) && OneLine(p.verb) && OneLine(p.path)
    && OneLine(p.requestBodySha256)
  }

  lemma FirstLine(x: string, u: string, y: string, v: string)
    requires OneLine(x) && OneLine(y)
    requires x + "\n" + u == y + "\n" + v
    ensures x == y && u == v
  {
    var s := x + "\n" + u;
    assert s[|x|] == '\n' && s[|y|] == '\n';
    assert forall k :: 0 <= k < |x| ==> s[k] == x[k] && x[k] in x;
    assert forall k :: 0 <= k < |y| ==> s[k] == y[k] && y[k] in y;
    assert |x| == |y|;
    assert x == s[..|x|] && y == s[..|y|];
    assert u == s[|x| + 1..] && v == s[|y| + 1..];
  }

  /** Joined fields can be told apart when only the last of them may span lines. */
  lemma {:induction false} JoinInjective(a: seq<string>, b: seq<string>)
    requires |a| == |b| > 0
    requires forall i :: 0 <= i < |a| - 1 ==> OneLine(a[i]) && OneLine(b[i])
    requires Join(a) == Join(b)
    ensures a == b
  {
    if |a| == 1 {
      assert a[0] == b[0];
    } else {
      FirstLine(a[0], Join(a[1..]), b[0], Join(b[1..]));
      JoinInjective(a[1..], b[1..]);
      assert a == [a[0]] + a[1..] && b == [b[0]] + b[1..];
    }
  }

  /** Equal bytes of request payloads carry equal fields, the method up to case, and the same body. */
  lemma RequestPayloadInjective(scope: string, input: SignatureInput, scope': string, input': SignatureInput)
    requires OneLineFields(scope, input) && OneLineFields(scope', input')
    requires Encode(RequestPayload(scope, input)) == Encode(RequestPayload(scope', input'))
    ensures scope == scope' && Upper(input.verb) == Upper(input'.verb)
    ensures input == input'.(verb := input.verb)
  {
    var a := [REQUEST_VERSION, scope, input.timestamp, input.nonce, Upper(input.verb), input.path, input.body];
    var b := [REQUEST_VERSION, scope', input'.timestamp, input'.nonce, Upper(input'.verb), input'.path, input'.body];
    EncodeInjective(RequestPayload(scope, input), RequestPayload(scope', input'));
    JoinInjective(a, b);
    assert a[1] == b[1] && a[2] == b[2] && a[3] == b[3] && a[4] == b[4] && a[5] == b[5] && a[6] == b[6];
  }

  lemma ProofPayloadInjective(p: UnsignedProof, p': UnsignedProof)
    requires OneLineProof(p) && OneLineProof(p')
    requires Encode(ProofPayload(p)) == Encode(ProofPayload(p'))
    ensures Upper(p.verb) == Upper(p'.verb) && p == p'.(verb := p.verb)
  {
    var a := [PROOF_VERSION, PROOF_TAG, p.scope, p.timestamp, p.nonce, Upper(p.verb), p.path,
              p.requestBodySha256, p.responseBodySha256];
    var b := [PROOF_VERSION, PROOF_TAG, p'.scope, p'.timestamp, p'.nonce, Upper(p'.verb), p'.path,
              p'.requestBodySha256, p'.responseBodySha256];
    EncodeInjective(ProofPayload(p), ProofPayload(p'));
    JoinInjective(a, b);
    assert a[2] == b[2] && a[3] == b[3] && a[4] == b[4] && a[5] == b[5] && a[6] == b[6] && a[7] == b[7] && a[8] == b[8];
  }

  /** A signature on a request never passes for one on a response proof, whatever the fields contain. */
  lemma RequestIsNoProof(scope: string, input: SignatureInput, p: UnsignedProof)
    ensures Encode(RequestPayload(scope, input)) != Encode(ProofPayload(p))
  {
    assert RequestPayload(scope, input)[1] == '2';
    assert ProofPayload(p)[1] == '1';
    if Encode(RequestPayload(scope, input)) == Encode(ProofPayload(p)) {
      EncodeInjective(RequestPayload(scope, input), ProofPayload(p));
    }
  }

  // ----- Which payloads have one reading only

  /** The line breaks of a text. */
  function Breaks(s: string): nat {
    if s == "" then 0 else (if s[0] == '\n' then 1 else 0) + Breaks(s[1..])
  }

  lemma {:induction false} BreaksAppend(s: string, t: string)
    ensures Breaks(s + t) == Breaks(s) + Breaks(t)
  {
    if s == "" {
      assert s + t == t;
    } else {
      assert (s + t)[0] == s[0] && (s + t)[1..] == s[1..] + t;
      BreaksAppend(s[1..], t);
    }
  }

  lemma {:induction false} NoBreaks(s: string)
    ensures Breaks(s) == 0 <==> OneLine(s)
  {
    if s != "" {
      NoBreaks(s[1..]);
      assert s == [s[0]] + s[1..];
    }
  }

  function TotalBreaks(parts: seq<string>): nat {
    if parts == [] then 0 else Breaks(parts[0]) + TotalBreaks(parts[1..])
  }

  lemma {:induction false} JoinedBreaks(parts: seq<string>)
    requires parts != []
    ensures Breaks(Join(parts)) == TotalBreaks(parts) + |parts| - 1
  {
    if |parts| > 1 {
      JoinedBreaks(parts[1..]);
      BreaksAppend(parts[0] + "\n", Join(parts[1..]));
      BreaksAppend(parts[0], "\n");
    }
  }

  lemma {:induction false} NoPartBreaks(parts: seq<string>)
    ensures TotalBreaks(parts) == 0 <==> forall i :: 0 <= i < |parts| ==> OneLine(parts[i])
  {
    if parts != [] {
      NoBreaks(parts[0]);
      NoPartBreaks(parts[1..]);
      assert forall i :: 0 < i < |parts| ==> parts[i] == parts[1..][i - 1];
    }
  }

  /** Six line breaks are the ones that join the seven parts. */
  lemma SixBreaks(scope: string, input: SignatureInput)
    ensures Breaks(RequestPayload(scope, input)) == 6
       <==> forall i :: 0 <= i < 7 ==> OneLine(RequestParts(scope, input)[i])
  {
    JoinedBreaks(RequestParts(scope, input));
    NoPartBreaks(RequestParts(scope, input));
  }

  /** The same fields, the method up to case. */
  predicate SameReading(scope: string, input: SignatureInput, scope': string, input': SignatureInput) {
    scope == scope' && Upper(input.verb) == Upper(input'.verb) && input' == input.(verb := input'.verb)
  }

  ghost predicate ReadsOneWay(scope: string, input: SignatureInput) {
    forall scope': string, input': SignatureInput :: RequestPayload(scope', input') == RequestPayload(scope, input) ==>
      SameReading(scope, input, scope', input')
  }

  /** A line break can move from the end of one part to the next. */
  lemma {:induction false} MoveBreak(front: seq<string>, u: string, v: string, w: string, back: seq<string>)
    ensures Join(front + [u + "\n" + v, w] + back) == Join(front + [u, v + "\n" + w] + back)
  {
    var a, b := front + [u + "\n" + v, w] + back, front + [u, v + "\n" + w] + back;
    if front == [] {
      assert a[1..] == [w] + back && b[1..] == [v + "\n" + w] + back;
      if back == [] {
        assert a[1..] == [w] && b[1..] == [v + "\n" + w];
      } else {
        assert ([w] + back)[1..] == back && ([v + "\n" + w] + back)[1..] == back;
        assert Join(a) == u + "\n" + v + "\n" + (w + "\n" + Join(back));
        assert Join(b) == u + "\n" + (v + "\n" + w + "\n" + Join(back));
      }
    } else {
      MoveBreak(front[1..], u, v, w, back);
      assert a[1..] == front[1..] + [u + "\n" + v, w] + back;
      assert b[1..] == front[1..] + [u, v + "\n" + w] + back;
    }
  }

  lemma AtBreak(s: string) returns (u: string, v: string)
    requires !OneLine(s)
    ensures s == u + "\n" + v
  {
    var k :| 0 <= k < |s| && s[k] == '\n';
    u, v := s[..k], s[k + 1..];
  }

  lemma {:induction false} UpperAppend(s: string, t: string)
    ensures Upper(s + t) == Upper(s) + Upper(t)
  {
    if s == "" {
      assert s + t == t;
    } else {
      assert (s + t)[0] == s[0] && (s + t)[1..] == s[1..] + t;
      UpperAppend(s[1..], t);
    }
  }

  /** The parts `k` and `k + 1`, of which the first holds a line break, are read in another way. */
  lemma BreakMoves(parts: seq<string>, k: nat, u: string, v: string)
    requires k + 1 < |parts| && parts[k] == u + "\n" + v
    ensures Join(parts) == Join(parts[k := u][k + 1 := v + "\n" + parts[k + 1]])
  {
    var front, back := parts[..k], parts[k + 2..];
    MoveBreak(front, u, v, parts[k + 1], back);
    assert parts == front + [parts[k], parts[k + 1]] + back;
    assert parts[k := u][k + 1 := v + "\n" + parts[k + 1]] == front + [u, v + "\n" + parts[k + 1]] + back;
  }

  /** The same, when the second holds it. */
  lemma BreakMovesBack(parts: seq<string>, k: nat, u: string, v: string)
    requires k + 1 < |parts| && parts[k + 1] == u + "\n" + v
    ensures Join(parts) == Join(parts[k := parts[k] + "\n" + u][k + 1 := v])
  {
    var other := parts[k := parts[k] + "\n" + u][k + 1 := v];
    BreakMoves(other, k, parts[k], u);
    assert other[k := parts[k]][k + 1 := u + "\n" + v] == parts;
  }

  // The second reading of a payload with a line break inside a part, part by part.

  lemma BreakInScope(scope: string, input: SignatureInput, u: string, v: string)
    requires scope == u + "\n" + v
    ensures RequestPayload(u, input.(timestamp := v + "\n" + input.timestamp)) == RequestPayload(scope, input)
  {
    var parts := RequestParts(scope, input);
    BreakMoves(parts, 1, u, v);
    assert RequestParts(u, input.(timestamp := v + "\n" + input.timestamp)) == parts[1 := u][2 := v + "\n" + parts[2]];
  }

  lemma BreakInTimestamp(scope: string, input: SignatureInput, u: string, v: string)
    requires input.timestamp == u + "\n" + v
    ensures RequestPayload(scope, input.(timestamp := u, nonce := v + "\n" + input.nonce))
         == RequestPayload(scope, input)
  {
    var parts := RequestParts(scope, input);
    BreakMoves(parts, 2, u, v);
    assert RequestParts(scope, input.(timestamp := u, nonce := v + "\n" + input.nonce))
        == parts[2 := u][3 := v + "\n" + parts[3]];
  }

  lemma BreakInNonce(scope: string, input: SignatureInput, u: string, v: string)
    requires input.nonce == u + "\n" + v
    ensures RequestPayload(scope, input.(timestamp := input.timestamp + "\n" + u, nonce := v))
         == RequestPayload(scope, input)
  {
    var parts := RequestParts(scope, input);
    BreakMovesBack(parts, 2, u, v);
    assert RequestParts(scope, input.(timestamp := input.timestamp + "\n" + u, nonce := v))
        == parts[2 := parts[2] + "\n" + u][3 := v];
  }

  lemma UpperAtBreak(u: string, v: string)
    ensures Upper(u + "\n" + v) == Upper(u) + "\n" + Upper(v)
  {
    UpperAppend(u + "\n", v);
    UpperAppend(u, "\n");
    assert Upper("\n") == "\n";
  }

  lemma BreakInVerb(scope: string, input: SignatureInput, u: string, v: string)
    requires input.verb == u + "\n" + v
    ensures RequestPayload(scope, input.(verb := u, path := Upper(v) + "\n" + input.path))
         == RequestPayload(scope, input)
    ensures Upper(input.verb) == Upper(u) + "\n" + Upper(v)
  {
    var parts := RequestParts(scope, input);
    UpperAtBreak(u, v);
    assert parts[4] == Upper(u) + "\n" + Upper(v);
    BreakMoves(parts, 4, Upper(u), Upper(v));
    assert RequestParts(scope, input.(verb := u, path := Upper(v) + "\n" + input.path))
        == parts[4 := Upper(u)][5 := Upper(v) + "\n" + parts[5]];
  }

  lemma BreakInPath(scope: string, input: SignatureInput, u: string, v: string)
    requires input.path == u + "\n" + v
    ensures RequestPayload(scope, input.(path := u, body := v + "\n" + input.body)) == RequestPayload(scope, input)
  {
    var parts := RequestParts(scope, input);
    BreakMoves(parts, 5, u, v);
    assert RequestParts(scope, input.(path := u, body := v + "\n" + input.body))
        == parts[5 := u][6 := v + "\n" + parts[6]];
  }

  /** The one-line condition matters: a line break can move between the path and the body unnoticed. */
  lemma LineBreakInPathIsAmbiguous(scope: string, input: SignatureInput, first: string, rest: string)
    requires input.body == first + "\n" + rest
    ensures RequestPayload(scope, input)
         == RequestPayload(scope, input.(path := input.path + "\n" + first, body := rest))
  {
    var parts := RequestParts(scope, input);
    BreakMovesBack(parts, 5, first, rest);
    assert RequestParts(scope, input.(path := input.path + "\n" + first, body := rest))
        == parts[5 := parts[5] + "\n" + first][6 := rest];
  }

  lemma SecondReading(scope: string, input: SignatureInput, i: nat)
    requires i < 7 && !OneLine(RequestParts(scope, input)[i])
    ensures !ReadsOneWay(scope, input)
  {
    var parts := RequestParts(scope, input);
    var u, v := AtBreak(if i == 4 then input.verb else parts[i]);
    var scope', input' := scope, input;
    match i {
      case 1 =>
        BreakInScope(scope, input, u, v);
        scope', input' := u, input.(timestamp := v + "\n" + input.timestamp);
      case 2 =>
        BreakInTimestamp(scope, input, u, v);
        input' := input.(timestamp := u, nonce := v + "\n" + input.nonce);
      case 3 =>
        BreakInNonce(scope, input, u, v);
        input' := input.(timestamp := input.timestamp + "\n" + u, nonce := v);
      case 4 =>
        BreakInVerb(scope, input, u, v);
        input' := input.(verb := u, path := Upper(v) + "\n" + input.path);
      case 5 =>
        BreakInPath(scope, input, u, v);
        input' := input.(path := u, body := v + "\n" + input.body);
      case _ =>
        LineBreakInPathIsAmbiguous(scope, input, u, v);
        input' := input.(path := input.path + "\n" + u, body := v);
    }
    assert !SameReading(scope, input, scope', input');
    assert RequestPayload(scope', input') == RequestPayload(scope, input);
  }

  lemma OneReading(scope: string, input: SignatureInput, scope': string, input': SignatureInput)
    requires Breaks(RequestPayload(scope, input)) == 6
    requires RequestPayload(scope', input') == RequestPayload(scope, input)
    ensures SameReading(scope, input, scope', input')
  {
    SixBreaks(scope, input);
    SixBreaks(scope', input');
    var a, b := RequestParts(scope, input), RequestParts(scope', input');
    JoinInjective(a, b);
    assert a[1] == b[1] && a[2] == b[2] && a[3] == b[3] && a[4] == b[4] && a[5] == b[5] && a[6] == b[6];
  }

  /** Among all inputs a payload has one reading, the method up to case, if and only if it holds six line breaks. */
  lemma ReadsOneWayExactly(scope: string, input: SignatureInput)
    ensures ReadsOneWay(scope, input) <==> Breaks(RequestPayload(scope, input)) == 6
  {
    if Breaks(RequestPayload(scope, input)) == 6 {
      forall scope': string, input': SignatureInput | RequestPayload(scope', input') == RequestPayload(scope, input)
        ensures SameReading(scope, input, scope', input')
      {
        OneReading(scope, input, scope', input');
      }
    } else {
      SixBreaks(scope, input);
      var i :| 0 <= i < 7 && !OneLine(RequestParts(scope, input)[i]);
      SecondReading(scope, input, i);
    }
  }
}
