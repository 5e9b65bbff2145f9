/** Raw-mode secret entry: the chunk scanner, against a machine that reads one code unit at a time. */
module SecretInput {

  /** A UTF-16 code unit. */
  type Unit = x: int | 0 <= x < 0x1_0000

  const EOT: Unit := 0x04
  const ETX: Unit := 0x03
  const BS: Unit := 0x08
  const LF: Unit := 0x0a
  const CR: Unit := 0x0d
  const ESC: Unit := 0x1b
  const DEL: Unit := 0x7f
  const LBRACKET: Unit := 0x5b
  const LETTER_O: Unit := 0x4f
  const LETTER_X: Unit := 0x78

  // ESC [ 2 0 0 ~  and  ESC [ 2 0 1 ~
  const PASTE_START: seq<Unit> := [0x1b, 0x5b, 0x32, 0x30, 0x30, 0x7e]
  const PASTE_END: seq<Unit> := [0x1b, 0x5b, 0x32, 0x30, 0x31, 0x7e]

  /** The value of the accumulator object at one moment. */
  datatype Entry = Entry(value: seq<Unit>, done: bool, cancelled: bool)

  const FRESH := Entry([], false, false)

  predicate Stopped(e: Entry) {
    e.done || e.cancelled
  }

  // ----- The reference: one code unit at a time

  datatype Mode = Ground | AfterEsc | InSequence

  predicate IsFinalByte(c: Unit) {
    0x40 <= c <= 0x7e
  }

  function PressKey(e: Entry, c: Unit): Entry {
    if c == LF || c == CR || c == EOT then e.(done := true)
    else if c == ETX then e.(cancelled := true)
    else if c == DEL || c == BS then e.(value := if e.value == [] then [] else e.value[..|e.value| - 1])
    else if c >= 32 then e.(value := e.value + [c])
    else e
  }

  function Feed(m: Mode, e: Entry, c: Unit): (Mode, Entry) {
    if Stopped(e) then (Ground, e)
    else match m
      case Ground => if c == ESC then (AfterEsc, e) else (Ground, PressKey(e, c))
      case AfterEsc => (if c == LBRACKET || c == LETTER_O then InSequence else Ground, e)
      case InSequence => (if IsFinalByte(c) then Ground else InSequence, e)
  }

  function Run(m: Mode, e: Entry, units: seq<Unit>): (Mode, Entry)
    decreases |units|
  {
    if units == [] then (if Stopped(e) then Ground else m, e)
    else
      var (m', e') := Feed(m, e, units[0]);
      Run(m', e', units[1..])
  }

  /** What one chunk does: the machine forgets an unfinished sequence at the end of the chunk. */
  function Scan(e: Entry, chunk: seq<Unit>): Entry {
    Run(Ground, e, chunk).1
  }

  lemma {:induction false} StoppedAbsorbs(m: Mode, e: Entry, units: seq<Unit>)
    requires Stopped(e)
    ensures Run(m, e, units) == (Ground, e)
    decreases |units|
  {
    if units != [] {
      StoppedAbsorbs(Ground, e, units[1..]);
    }
  }

  lemma {:induction false} RunAppend(m: Mode, e: Entry, a: seq<Unit>, b: seq<Unit>)
    ensures Run(m, e, a + b) == Run(Run(m, e, a).0, Run(m, e, a).1, b)
    decreases |a|
  {
    if a == [] {
      assert a + b == b;
      if Stopped(e) {
        StoppedAbsorbs(m, e, b);
        StoppedAbsorbs(Ground, e, b);
      }
    } else {
      assert (a + b)[0] == a[0] && (a + b)[1..] == a[1..] + b;
      var (m', e') := Feed(m, e, a[0]);
      RunAppend(m', e', a[1..], b);
    }
  }

  /** A bracketed-paste marker is an ordinary control sequence: it leaves everything as it was. */
  lemma MarkerIsSkipped(e: Entry, rest: seq<Unit>)
    ensures Run(Ground, e, PASTE_START + rest) == Run(Ground, e, rest)
    ensures Run(Ground, e, PASTE_END + rest) == Run(Ground, e, rest)
  {
    RunAppend(Ground, e, PASTE_START, rest);
    RunAppend(Ground, e, PASTE_END, rest);
    if Stopped(e) {
      StoppedAbsorbs(Ground, e, PASTE_START);
      StoppedAbsorbs(Ground, e, PASTE_END);
    } else {
      SixUnits(e, PASTE_START);
      SixUnits(e, PASTE_END);
    }
  }

  lemma SixUnits(e: Entry, s: seq<Unit>)
    requires !Stopped(e) && |s| == 6 && s[0] == ESC && s[1] == LBRACKET && IsFinalByte(s[5])
    requires !IsFinalByte(s[2]) && !IsFinalByte(s[3]) && !IsFinalByte(s[4])
    ensures Run(Ground, e, s) == (Ground, e)
  {
    assert Run(Ground, e, s) == Run(AfterEsc, e, s[1..]);
    assert s[1..][1..] == s[2..] && s[2..][1..] == s[3..] && s[3..][1..] == s[4..] && s[4..][1..] == s[5..];
    assert Run(AfterEsc, e, s[1..]) == Run(InSequence, e, s[2..]);
    assert Run(InSequence, e, s[2..]) == Run(InSequence, e, s[3..]);
    assert Run(InSequence, e, s[3..]) == Run(InSequence, e, s[4..]);
    assert Run(InSequence, e, s[4..]) == Run(InSequence, e, s[5..]);
    assert s[5..][1..] == [];
    assert Run(InSequence, e, s[5..]) == Run(Ground, e, []);
  }

  // ----- The scanner of the source, with its two indices

  class SecretInputState {
    var value: seq<Unit>
    var done: bool
    var cancelled: bool

    constructor ()
      ensures Get() == FRESH
    {
      value := [];
      done := false;
      cancelled := false;
    }

    function Get(): Entry
      reads this
    {
      Entry(value, done, cancelled)
    }
  }

  predicate StartsWith(chunk: seq<Unit>, marker: seq<Unit>, i: nat) {
    i + |marker| <= |chunk| && chunk[i..i + |marker|] == marker
  }

  lemma SkipMarker(e: Entry, chunk: seq<Unit>, i: nat, marker: seq<Unit>)
    requires marker == PASTE_START || marker == PASTE_END
    requires StartsWith(chunk, marker, i)
    ensures Run(Ground, e, chunk[i..]) == Run(Ground, e, chunk[i + |marker|..])
  {
    assert chunk[i..] == marker + chunk[i + |marker|..];
    MarkerIsSkipped(e, chunk[i + |marker|..]);
  }

  lemma OneUnit(m: Mode, e: Entry, chunk: seq<Unit>, i: nat)
    requires i < |chunk|
    ensures Run(m, e, chunk[i..]) == Run(Feed(m, e, chunk[i]).0, Feed(m, e, chunk[i]).1, chunk[i + 1..])
  {
  }

  /** The generic branch: from ESC at `i` to the index of the first unit after the sequence. */
  method SkipSequence(chunk: seq<Unit>, i: nat, ghost e: Entry) returns (j: nat)
    requires i < |chunk| && chunk[i] == ESC && !Stopped(e)
    ensures i < j <= |chunk|
    ensures Run(Ground, e, chunk[j..]).1 == Run(Ground, e, chunk[i..]).1
  {
    OneUnit(Ground, e, chunk, i);
    j := i + 1;
    if j < |chunk| && (chunk[j] == LBRACKET || chunk[j] == LETTER_O) {
      OneUnit(AfterEsc, e, chunk, j);
      j := j + 1;
      while j < |chunk|
        invariant i < j <= |chunk|
        invariant Run(InSequence, e, chunk[j..]).1 == Run(Ground, e, chunk[i..]).1
      {
        OneUnit(InSequence, e, chunk, j);
        var code := chunk[j];
        j := j + 1;
        if 0x40 <= code <= 0x7e {
          return;
        }
      }
    } else if j < |chunk| {
      OneUnit(AfterEsc, e, chunk, j);
      j := j + 1;
    }
  }

  method ApplySecretInputChunk(state: SecretInputState, chunk: seq<Unit>)
    modifies state
    ensures state.Get() == Scan(old(state.Get()), chunk)
  {
    ghost var before := state.Get();
    if state.done || state.cancelled {
      StoppedAbsorbs(Ground, before, chunk);
      return;
    }
    var i := 0;
    while i < |chunk|
      invariant i <= |chunk|
      invariant !Stopped(state.Get())
      invariant Run(Ground, state.Get(), chunk[i..]).1 == Scan(before, chunk)
    {
      var ch := chunk[i];
      ghost var e := state.Get();
      if ch == ESC {
        if StartsWith(chunk, PASTE_START, i) {
          SkipMarker(e, chunk, i, PASTE_START);
          i := i + |PASTE_START|;
        } else if StartsWith(chunk, PASTE_END, i) {
          SkipMarker(e, chunk, i, PASTE_END);
          i := i + |PASTE_END|;
        } else {
          i := SkipSequence(chunk, i, e);
        }
      } else {
        OneUnit(Ground, e, chunk, i);
        i := i + 1;
        if ch == LF || ch == CR || ch == EOT {
          state.done := true;
          StoppedAbsorbs(Ground, state.Get(), chunk[i..]);
          return;
        }
        if ch == ETX {
          state.cancelled := true;
          StoppedAbsorbs(Ground, state.Get(), chunk[i..]);
          return;
        }
        if ch == DEL || ch == BS {
          if |state.value| > 0 {
            state.value := state.value[..|state.value| - 1];
          }
        } else if ch >= 32 {
          state.value := state.value + [ch];
        }
      }
    }
  }

  // ----- Chunk boundaries

  /** The chunk does not break off inside an escape sequence that is still being read. */
  predicate EndsOutsideSequence(chunk: seq<Unit>) {
    Run(Ground, FRESH, chunk).0 == Ground
  }

  /** Modes and stops depend on the input alone, not on the value typed so far. */
  lemma {:induction false} ModeIgnoresValue(m: Mode, e: Entry, f: Entry, units: seq<Unit>)
    requires e.done == f.done && e.cancelled == f.cancelled
    ensures Run(m, e, units).0 == Run(m, f, units).0
    ensures Run(m, e, units).1.done == Run(m, f, units).1.done
    ensures Run(m, e, units).1.cancelled == Run(m, f, units).1.cancelled
    decreases |units|
  {
    if units != [] {
      ModeIgnoresValue(Feed(m, e, units[0]).0, Feed(m, e, units[0]).1, Feed(m, f, units[0]).1, units[1..]);
    }
  }

  /** Splitting input after such a chunk changes nothing, from any state. */
  lemma SplitAfter(e: Entry, a: seq<Unit>, b: seq<Unit>)
    requires EndsOutsideSequence(a)
    ensures Scan(e, a + b) == Scan(Scan(e, a), b)
  {
    RunAppend(Ground, e, a, b);
    if Stopped(e) {
      StoppedAbsorbs(Ground, e, a);
    } else {
      ModeIgnoresValue(Ground, e, FRESH, a);
    }
  }

  ghost predicate SplitsFreely(a: seq<Unit>) {
    forall e: Entry, b: seq<Unit> :: Scan(e, a + b) == Scan(Scan(e, a), b)
  }

  lemma {:induction false} OpenModeIsNotStopped(m: Mode, e: Entry, units: seq<Unit>)
    ensures Run(m, e, units).0 != Ground ==> !Stopped(Run(m, e, units).1)
    decreases |units|
  {
    if units != [] {
      var (m', e') := Feed(m, e, units[0]);
      OpenModeIsNotStopped(m', e', units[1..]);
    }
  }

  /** After a broken sequence an ordinary letter is typed that the whole sequence would have swallowed. */
  lemma LetterShowsBreak(a: seq<Unit>)
    requires !EndsOutsideSequence(a)
    ensures Scan(FRESH, a + [LETTER_X]) != Scan(Scan(FRESH, a), [LETTER_X])
  {
    var (m, e) := Run(Ground, FRESH, a);
    OpenModeIsNotStopped(Ground, FRESH, a);
    RunAppend(Ground, FRESH, a, [LETTER_X]);
    assert Run(m, e, [LETTER_X]).1 == e;
    assert Run(Ground, e, [LETTER_X]) == Run(Ground, PressKey(e, LETTER_X), []);
  }

  /** A chunk boundary is invisible if and only if it does not fall inside a sequence. */
  lemma SplitsFreelyExactly(a: seq<Unit>)
    ensures SplitsFreely(a) <==> EndsOutsideSequence(a)
  {
    if EndsOutsideSequence(a) {
      forall e: Entry, b: seq<Unit> ensures Scan(e, a + b) == Scan(Scan(e, a), b) {
        SplitAfter(e, a, b);
      }
    } else {
      LetterShowsBreak(a);
    }
  }

  function ScanAll(e: Entry, chunks: seq<seq<Unit>>): Entry
    decreases |chunks|
  {
    if chunks == [] then e else ScanAll(Scan(e, chunks[0]), chunks[1..])
  }

  function Concat(chunks: seq<seq<Unit>>): seq<Unit> {
    if chunks == [] then [] else chunks[0] + Concat(chunks[1..])
  }

  /** However the terminal cuts the input between sequences, the result is that of one big chunk. */
  lemma {:induction false} AnyCutting(e: Entry, chunks: seq<seq<Unit>>)
    requires forall k :: 0 <= k < |chunks| ==> EndsOutsideSequence(chunks[k])
    ensures ScanAll(e, chunks) == Scan(e, Concat(chunks))
    decreases |chunks|
  {
    if chunks != [] {
      AnyCutting(Scan(e, chunks[0]), chunks[1..]);
      SplitAfter(e, chunks[0], Concat(chunks[1..]));
    }
  }

  // ----- Paste

  /** Wrapping a paste in bracketed-paste markers makes no difference. */
  lemma WrappedPasteIsPlain(e: Entry, text: seq<Unit>)
    requires EndsOutsideSequence(text)
    ensures Scan(e, PASTE_START + text + PASTE_END) == Scan(e, text)
  {
    assert PASTE_START + text + PASTE_END == PASTE_START + (text + PASTE_END);
    MarkerIsSkipped(e, text + PASTE_END);
    SplitAfter(e, text, PASTE_END);
    MarkerIsSkipped(Scan(e, text), []);
    assert PASTE_END + [] == PASTE_END;
  }

  predicate Printable(c: Unit) {
    c >= 32 && c != DEL
  }

  lemma {:induction false} PrintableIsTyped(e: Entry, text: seq<Unit>)
    requires !Stopped(e) && forall k :: 0 <= k < |text| ==> Printable(text[k])
    ensures Run(Ground, e, text) == (Ground, e.(value := e.value + text))
    decreases |text|
  {
    if text != [] {
      PrintableIsTyped(PressKey(e, text[0]), text[1..]);
      assert e.value + text == e.value + [text[0]] + text[1..];
    } else {
      assert e.value + text == e.value;
    }
  }

  /** A pasted secret arrives verbatim, wrapped or not. */
  lemma PasteIsVerbatim(e: Entry, text: seq<Unit>)
    requires !Stopped(e) && forall k :: 0 <= k < |text| ==> Printable(text[k])
    ensures Scan(e, text) == e.(value := e.value + text)
    ensures Scan(e, PASTE_START + text + PASTE_END) == e.(value := e.value + text)
  {
    PrintableIsTyped(FRESH, text);
    PrintableIsTyped(e, text);
    WrappedPasteIsPlain(e, text);
  }

  predicate Submits(c: Unit) {
    c == LF || c == CR || c == EOT
  }

  /**
   * A submit key takes what was typed before it and ignores the rest of the chunk; so does Ctrl+C, as a
   * cancellation.
   */
  lemma StopKeyEndsInput(e: Entry, text: seq<Unit>, key: Unit, rest: seq<Unit>)
    requires !Stopped(e) && forall k :: 0 <= k < |text| ==> Printable(text[k])
    requires Submits(key) || key == ETX
    ensures Scan(e, text + [key] + rest) == Entry(e.value + text, Submits(key), key == ETX)
  {
    var typed := e.(value := e.value + text);
    PrintableIsTyped(e, text);
    RunAppend(Ground, e, text, [key] + rest);
    assert text + [key] + rest == text + ([key] + rest);
    assert ([key] + rest)[1..] == rest;
    StoppedAbsorbs(Ground, PressKey(typed, key), rest);
  }

  /** A backspace takes back exactly the last unit typed, and nothing at the start of the entry. */
  lemma BackspaceUndoesOneUnit(e: Entry, c: Unit, erase: Unit)
    requires !Stopped(e) && Printable(c) && (erase == DEL || erase == BS)
    ensures Scan(e, [c, erase]) == e
    ensures e.value == [] ==> Scan(e, [erase]) == e
  {
    var typed := PressKey(e, c);
    assert [c, erase][1..] == [erase] && [erase][1..] == [];
    assert Run(Ground, e, [c, erase]) == Run(Ground, typed, [erase]);
    assert Run(Ground, typed, [erase]) == Run(Ground, PressKey(typed, erase), []);
    assert PressKey(typed, erase).value == e.value;
    assert Run(Ground, e, [erase]) == Run(Ground, PressKey(e, erase), []);
  }

  lemma MarkersEndOutside()
    ensures EndsOutsideSequence(PASTE_START) && EndsOutsideSequence(PASTE_END)
  {
  }

  /** The same when the markers and the pieces of the paste come as separate chunks. */
  lemma PasteInPieces(e: Entry, pieces: seq<seq<Unit>>)
    requires !Stopped(e)
    requires forall k, i :: 0 <= k < |pieces| && 0 <= i < |pieces[k]| ==> Printable(pieces[k][i])
    ensures ScanAll(e, [PASTE_START] + pieces + [PASTE_END]) == e.(value := e.value + Concat(pieces))
  {
    var chunks := [PASTE_START] + pieces + [PASTE_END];
    MarkersEndOutside();
    forall k | 0 <= k < |chunks| ensures EndsOutsideSequence(chunks[k]) {
      if 0 < k <= |pieces| {
        assert chunks[k] == pieces[k - 1];
        PrintableIsTyped(FRESH, chunks[k]);
      }
    }
    AnyCutting(e, chunks);
    assert chunks[1..] == pieces + [PASTE_END];
    ConcatAppend(pieces, PASTE_END);
    PrintablePieces(pieces);
    PasteIsVerbatim(e, Concat(pieces));
    assert PASTE_START + (Concat(pieces) + PASTE_END) == PASTE_START + Concat(pieces) + PASTE_END;
  }

  lemma {:induction false} ConcatAppend(chunks: seq<seq<Unit>>, last: seq<Unit>)
    ensures Concat(chunks + [last]) == Concat(chunks) + last
  {
    if chunks == [] {
      assert chunks + [last] == [last];
      assert Concat([last]) == last + Concat([]);
    } else {
      ConcatAppend(chunks[1..], last);
      assert (chunks + [last])[1..] == chunks[1..] + [last];
    }
  }

  lemma {:induction false} PrintablePieces(pieces: seq<seq<Unit>>)
    requires forall k, i :: 0 <= k < |pieces| && 0 <= i < |pieces[k]| ==> Printable(pieces[k][i])
    ensures forall i :: 0 <= i < |Concat(pieces)| ==> Printable(Concat(pieces)[i])
  {
    if pieces != [] {
      PrintablePieces(pieces[1..]);
    }
  }

  // ----- The scanner as a fold over tokens

  datatype Token = Sequence(units: seq<Unit>) | Key(unit: Unit)

  /** The length of the escape sequence that `chunk` starts with; a broken-off one runs to the end. */
  function SequenceLength(chunk: seq<Unit>): (n: nat)
    requires chunk != [] && chunk[0] == ESC
    ensures 1 <= n <= |chunk|
  {
    if |chunk| == 1 then 1
    else if chunk[1] == LBRACKET || chunk[1] == LETTER_O then 2 + ParameterLength(chunk[2..])
    else 2
  }

  function ParameterLength(units: seq<Unit>): (n: nat)
    ensures n <= |units|
  {
    if units == [] then 0 else if IsFinalByte(units[0]) then 1 else 1 + ParameterLength(units[1..])
  }

  function Tokens(chunk: seq<Unit>): seq<Token> {
    if chunk == [] then []
    else if chunk[0] == ESC then
      var n := SequenceLength(chunk);
      [Sequence(chunk[..n])] + Tokens(chunk[n..])
    else [Key(chunk[0])] + Tokens(chunk[1..])
  }

  function ApplyToken(e: Entry, t: Token): Entry {
    if Stopped(e) || t.Sequence? then e else PressKey(e, t.unit)
  }

  function Fold(e: Entry, tokens: seq<Token>): Entry
    decreases |tokens|
  {
    if tokens == [] then e else Fold(ApplyToken(e, tokens[0]), tokens[1..])
  }

  lemma {:induction false} StoppedFold(e: Entry, tokens: seq<Token>)
    requires Stopped(e)
    ensures Fold(e, tokens) == e
    decreases |tokens|
  {
    if tokens != [] {
      StoppedFold(e, tokens[1..]);
    }
  }

  lemma {:induction false} RunParameters(e: Entry, units: seq<Unit>)
    requires !Stopped(e)
    ensures Run(InSequence, e, units).1 == Run(Ground, e, units[ParameterLength(units)..]).1
  {
    if units != [] && !IsFinalByte(units[0]) {
      RunParameters(e, units[1..]);
      assert units[1..][ParameterLength(units[1..])..] == units[ParameterLength(units)..];
    }
  }

  lemma RunSequence(e: Entry, chunk: seq<Unit>)
    requires chunk != [] && chunk[0] == ESC && !Stopped(e)
    ensures Scan(e, chunk) == Scan(e, chunk[SequenceLength(chunk)..])
  {
    assert Scan(e, chunk) == Run(AfterEsc, e, chunk[1..]).1;
    if |chunk| > 1 {
      assert chunk[1..][1..] == chunk[2..];
      if chunk[1] == LBRACKET || chunk[1] == LETTER_O {
        RunParameters(e, chunk[2..]);
        assert chunk[2..][ParameterLength(chunk[2..])..] == chunk[SequenceLength(chunk)..];
      }
    }
  }

  /** Scanning is folding key presses over the token list; control sequences are inert. */
  lemma {:induction false} ScanIsFold(e: Entry, chunk: seq<Unit>)
    ensures Scan(e, chunk) == Fold(e, Tokens(chunk))
    decreases |chunk|
  {
    if Stopped(e) {
      StoppedAbsorbs(Ground, e, chunk);
      StoppedFold(e, Tokens(chunk));
    } else if chunk == [] {
    } else if chunk[0] == ESC {
      var n := SequenceLength(chunk);
      RunSequence(e, chunk);
      ScanIsFold(e, chunk[n..]);
      assert Tokens(chunk)[1..] == Tokens(chunk[n..]);
    } else {
      ScanIsFold(PressKey(e, chunk[0]), chunk[1..]);
      assert Tokens(chunk)[1..] == Tokens(chunk[1..]);
    }
  }

  function Spell(tokens: seq<Token>): seq<Unit> {
    if tokens == [] then []
    else (match tokens[0] case Sequence(units) => units case Key(c) => [c]) + Spell(tokens[1..])
  }

  lemma FirstToken(chunk: seq<Unit>) returns (n: nat)
    requires chunk != []
    ensures 1 <= n <= |chunk| && Spell(Tokens(chunk)) == chunk[..n] + Spell(Tokens(chunk[n..]))
  {
    n := if chunk[0] == ESC then SequenceLength(chunk) else 1;
    assert Tokens(chunk)[1..] == Tokens(chunk[n..]);
  }

  lemma NoTokens()
    ensures Spell(Tokens([])) == []
  {
  }

  lemma SplitAt(chunk: seq<Unit>, n: nat)
    requires n <= |chunk|
    ensures chunk == chunk[..n] + chunk[n..]
  {
  }

  /** The tokens cover the chunk: nothing is skipped and nothing is read twice. */
  lemma {:induction false} TokensCoverChunk(chunk: seq<Unit>)
    ensures Spell(Tokens(chunk)) == chunk
    decreases |chunk|
  {
    if chunk == [] {
      NoTokens();
    } else {
      var n := FirstToken(chunk);
      SplitAt(chunk, n);
      TokensCoverChunk(chunk[n..]);
    }
  }

  /** A chunk never adds more units than it holds. */
  lemma {:induction false} NoDuplication(m: Mode, e: Entry, units: seq<Unit>)
    ensures |Run(m, e, units).1.value| <= |e.value| + |units|
    decreases |units|
  {
    if units != [] {
      var (m', e') := Feed(m, e, units[0]);
      NoDuplication(m', e', units[1..]);
    }
  }

  // ----- Key by key, in numbers

  lemma OneKey(e: Entry, c: Unit)
    requires !Stopped(e) && c != ESC
    ensures Scan(e, [c]) == PressKey(e, c)
  {
    assert [c][1..] == [];
    assert Run(Ground, e, [c]) == Run(Ground, PressKey(e, c), []);
  }

  /** What each single unit does to an entry that is still open. */
  lemma KeyByKey(e: Entry, c: Unit)
    requires !e.done && !e.cancelled
    ensures c in {4, 10, 13} ==> Scan(e, [c]) == Entry(e.value, true, false)
    ensures c == 3 ==> Scan(e, [c]) == Entry(e.value, false, true)
    ensures c in {8, 127} && e.value != [] ==> Scan(e, [c]) == Entry(e.value[..|e.value| - 1], false, false)
    ensures c in {8, 127} && e.value == [] ==> Scan(e, [c]) == e
    ensures c < 32 && c !in {3, 4, 8, 10, 13} ==> Scan(e, [c]) == e
    ensures c >= 32 && c != 127 ==> Scan(e, [c]) == Entry(e.value + [c], false, false)
  {
    if c == 27 {
      assert [c][1..] == [];
      assert Run(Ground, e, [c]) == Run(AfterEsc, e, []);
    } else {
      OneKey(e, c);
    }
  }

  /** ESC and any unit but `[` and `O` are skipped together. */
  lemma ShortSequence(e: Entry, c: Unit, rest: seq<Unit>)
    requires !e.done && !e.cancelled && c != 91 && c != 79
    ensures Scan(e, [27, c] + rest) == Scan(e, rest)
  {
    var chunk: seq<Unit> := [27, c] + rest;
    OneUnit(Ground, e, chunk, 0);
    OneUnit(AfterEsc, e, chunk, 1);
    assert chunk[0..] == chunk && chunk[2..] == rest;
  }

  lemma {:induction false} ParametersAreSkipped(e: Entry, parameters: seq<Unit>, rest: seq<Unit>)
    requires !e.done && !e.cancelled
    requires forall k :: 0 <= k < |parameters| ==> !(64 <= parameters[k] <= 126)
    ensures Run(InSequence, e, parameters + rest) == Run(InSequence, e, rest)
    decreases |parameters|
  {
    if parameters == [] {
      assert parameters + rest == rest;
    } else {
      assert (parameters + rest)[0] == parameters[0] && (parameters + rest)[1..] == parameters[1..] + rest;
      ParametersAreSkipped(e, parameters[1..], rest);
    }
  }

  lemma Introduced(e: Entry, kind: Unit, tail: seq<Unit>)
    requires !e.done && !e.cancelled && kind in {79, 91}
    ensures Run(Ground, e, [27, kind] + tail) == Run(InSequence, e, tail)
  {
    var chunk: seq<Unit> := [27, kind] + tail;
    OneUnit(Ground, e, chunk, 0);
    OneUnit(AfterEsc, e, chunk, 1);
    assert chunk[0..] == chunk && chunk[2..] == tail;
  }

  /**
   * ESC [ or ESC O, any units outside 64..126, and one final unit inside that range are skipped together;
   * without the final unit the rest of the chunk is.
   */
  lemma LongSequence(e: Entry, kind: Unit, parameters: seq<Unit>, final: Unit, rest: seq<Unit>)
    requires !e.done && !e.cancelled && kind in {79, 91} && 64 <= final <= 126
    requires forall k :: 0 <= k < |parameters| ==> !(64 <= parameters[k] <= 126)
    ensures Scan(e, [27, kind] + (parameters + ([final] + rest))) == Scan(e, rest)
    ensures Scan(e, [27, kind] + parameters) == e
  {
    Introduced(e, kind, parameters + ([final] + rest));
    ParametersAreSkipped(e, parameters, [final] + rest);
    assert ([final] + rest)[1..] == rest;
    Introduced(e, kind, parameters);
    ParametersAreSkipped(e, parameters, []);
    assert parameters + [] == parameters;
  }

  /** An ended entry takes nothing more. */
  lemma EndedEntryIsFinal(e: Entry, chunk: seq<Unit>)
    requires e.done || e.cancelled
    ensures Scan(e, chunk) == e
  {
    StoppedAbsorbs(Ground, e, chunk);
  }
}
