/**
 * Secret entry from the bytes of stdin: the handler decodes every buffer on its own before it scans it, so
 * a buffer boundary can fall inside a character as well as inside an escape sequence.
 */
module SecretBytes {
  import opened Utf8
  import opened SecretInput

  // ----- A JavaScript string: UTF-16 code units

  function CharUnits(c: char): (r: seq<Unit>)
    ensures 1 <= |r| <= 2
  {
    var n := c as int;
    if n < 0x1_0000 then [n] else [0xd800 + (n - 0x1_0000) / 0x400, 0xdc00 + (n - 0x1_0000) % 0x400]
  }

  /** UTF-16: a character of the basic plane is one unit, any other a high and a low surrogate of ten bits each. */
  lemma CharUnitsExact(c: char)
    ensures c as int < 0x1_0000 ==> CharUnits(c) == [c as int]
    ensures c as int >= 0x1_0000 ==>
              var u := CharUnits(c);
              && |u| == 2 && 0xd800 <= u[0] <= 0xdbff && 0xdc00 <= u[1] <= 0xdfff
              && 0x1_0000 + (u[0] as int - 0xd800) * 0x400 + (u[1] as int - 0xdc00) == c as int
  {
  }

  function Units(s: string): seq<Unit> {
    if s == "" then [] else CharUnits(s[0]) + Units(s[1..])
  }

  lemma {:induction false} UnitsAppend(s: string, t: string)
    ensures Units(s + t) == Units(s) + Units(t)
  {
    if s == "" {
      assert s + t == t;
    } else {
      assert (s + t)[0] == s[0] && (s + t)[1..] == s[1..] + t;
      UnitsAppend(s[1..], t);
    }
  }

  // ----- The data handler

  function ScanBytes(e: Entry, buffer: Buffer): Entry {
    Scan(e, Units(Decode(buffer)))
  }

  method HandleData(state: SecretInputState, buffer: Buffer)
    modifies state
    ensures state.Get() == ScanBytes(old(state.Get()), buffer)
  {
    var chunk := Units(Decode(buffer));
    ApplySecretInputChunk(state, chunk);
  }

  // ----- Buffer boundaries

  /** Mode and entry after the complete characters of a buffer, from an empty entry. */
  function Progress(a: Buffer): (Mode, Entry) {
    Run(Ground, FRESH, Units(Chars(Start, a)))
  }

  /** Entry is over, or the buffer breaks off inside neither an escape sequence nor a character. */
  predicate EndsCleanly(a: Buffer) {
    Stopped(Progress(a).1) || (Progress(a).0 == Ground && EndsOutsideCharacter(a))
  }

  ghost predicate BytesSplitFreely(a: Buffer) {
    forall e: Entry, b: Buffer :: ScanBytes(e, a + b) == ScanBytes(ScanBytes(e, a), b)
  }

  lemma DecodedUnits(a: Buffer)
    ensures Units(Decode(a)) == Units(Chars(Start, a)) + Units(Flush(After(Start, a)))
  {
    UnitsAppend(Chars(Start, a), Flush(After(Start, a)));
  }

  /** What a buffer that follows `p` contributes to one big buffer. */
  function Rest(p: Partial, b: Buffer): string {
    Chars(p, b) + Flush(After(p, b))
  }

  lemma DecodedTogether(a: Buffer, b: Buffer)
    ensures Units(Decode(a + b)) == Units(Chars(Start, a)) + Units(Rest(After(Start, a), b))
  {
    ReadAppend(Start, a, b);
    var rest := Rest(After(Start, a), b);
    assert Decode(a + b) == Chars(Start, a) + rest;
    UnitsAppend(Chars(Start, a), rest);
  }

  /** Nothing after a key that ends the entry matters, however it is decoded. */
  lemma StoppedSplits(e: Entry, a: Buffer, b: Buffer)
    requires Stopped(Progress(a).1)
    ensures ScanBytes(e, a + b) == ScanBytes(ScanBytes(e, a), b)
  {
    var front, rest := Units(Chars(Start, a)), Units(Rest(After(Start, a), b));
    var (m, f) := Run(Ground, e, front);
    var flushed := Units(Flush(After(Start, a)));
    DecodedUnits(a);
    DecodedTogether(a, b);
    RunAppend(Ground, e, front, flushed);
    RunAppend(Ground, e, front, rest);
    StoppedEither(e, front);
    StoppedAbsorbs(m, f, flushed);
    StoppedAbsorbs(m, f, rest);
    StoppedAbsorbs(Ground, f, Units(Decode(b)));
  }

  lemma StoppedEither(e: Entry, front: seq<Unit>)
    requires Stopped(Run(Ground, FRESH, front).1)
    ensures Stopped(Run(Ground, e, front).1)
  {
    if Stopped(e) {
      StoppedAbsorbs(Ground, e, front);
    } else {
      ModeIgnoresValue(Ground, e, FRESH, front);
    }
  }

  lemma CleanSplits(e: Entry, a: Buffer, b: Buffer)
    requires EndsCleanly(a)
    ensures ScanBytes(e, a + b) == ScanBytes(ScanBytes(e, a), b)
  {
    if Stopped(Progress(a).1) {
      StoppedSplits(e, a, b);
    } else {
      DecodesFreelyExactly(a);
      assert Decode(a + b) == Decode(a) + Decode(b);
      UnitsAppend(Decode(a), Decode(b));
      assert Decode(a) == Chars(Start, a);
      SplitAfter(e, Units(Decode(a)), Units(Decode(b)));
    }
  }

  // ----- The other direction: what a broken character does to the entry

  const MARK: Unit := 0xfffd

  predicate AllMarks(s: seq<Unit>) {
    forall k :: 0 <= k < |s| ==> s[k] == MARK
  }

  /** A unit beyond ASCII is typed or swallowed. */
  lemma HighUnit(m: Mode, e: Entry, u: Unit) returns (typed: seq<Unit>)
    requires !Stopped(e) && u >= 0x80
    ensures Feed(m, e, u).1 == e.(value := e.value + typed)
    ensures typed == [] || typed == [u]
  {
    typed := if m == Ground then [u] else [];
    assert e.value + [] == e.value;
  }

  /** A character that is neither ASCII nor the replacement character, read in one piece, types no mark. */
  lemma WholeCharacter(m: Mode, e: Entry, c: char) returns (typed: seq<Unit>)
    requires !Stopped(e) && c as int >= 0x80 && c != REPLACEMENT
    ensures Run(m, e, CharUnits(c)).1 == e.(value := e.value + typed)
    ensures MARK !in typed
  {
    var u := CharUnits(c);
    typed := HighUnit(m, e, u[0]);
    var (m1, e1) := Feed(m, e, u[0]);
    assert Run(m, e, u) == Run(m1, e1, u[1..]);
    if |u| == 2 {
      var second := HighUnit(m1, e1, u[1]);
      var (m2, e2) := Feed(m1, e1, u[1]);
      assert u[1..][0] == u[1] && u[1..][1..] == [];
      assert Run(m1, e1, u[1..]) == Run(m2, e2, []);
      assert e.value + (typed + second) == e.value + typed + second;
      typed := typed + second;
    }
  }

  /** Read in two pieces it types marks, at least one of them. */
  lemma BrokenCharacter(m: Mode, e: Entry, marks: seq<Unit>)
    requires !Stopped(e) && marks != [] && AllMarks(marks)
    ensures exists typed :: typed != [] && AllMarks(typed)
              && Run(Ground, Run(m, e, [MARK]).1, marks).1 == e.(value := e.value + typed)
  {
    var (m1, e1) := Feed(m, e, MARK);
    assert [MARK][1..] == [];
    assert Run(m, e, [MARK]) == Run(m1, e1, []);
    PrintableIsTyped(e1, marks);
    var typed := e1.value[|e.value|..] + marks;
    assert e1.value + marks == e.value + typed;
  }

  lemma StrayUnits(s: string)
    requires forall k :: 0 <= k < |s| ==> s[k] == REPLACEMENT
    ensures |Units(s)| == |s| && AllMarks(Units(s))
  {
  }

  /** The bytes that finish a broken character, decoded with its beginning and without. */
  lemma BrokenUnits(a: Buffer) returns (c: char)
    requires !EndsOutsideCharacter(a)
    ensures c as int >= 0x80 && c != REPLACEMENT
    ensures var front, b := Units(Chars(Start, a)), Completion(After(Start, a));
            && Units(Decode(a + b)) == front + CharUnits(c)
            && Units(Decode(a)) == front + [MARK]
            && Units(Decode(b)) != [] && AllMarks(Units(Decode(b)))
  {
    var b := Completion(After(Start, a));
    c := Completed(After(Start, a));
    DecodedUnits(a);
    DecodedTogether(a, b);
    Stray(b);
    StrayUnits(Chars(Start, b));
    assert Decode(b) == Chars(Start, b);
    OneCharacter(c);
    OneCharacter(REPLACEMENT);
    assert Rest(After(Start, a), b) == [c] + "";
  }

  lemma BrokenCharacterShows(a: Buffer)
    requires !Stopped(Progress(a).1) && !EndsOutsideCharacter(a)
    ensures !BytesSplitFreely(a)
  {
    var front, b := Units(Chars(Start, a)), Completion(After(Start, a));
    var (m, e) := Progress(a);
    var c := BrokenUnits(a);
    RunAppend(Ground, FRESH, front, CharUnits(c));
    RunAppend(Ground, FRESH, front, [MARK]);
    var whole := WholeCharacter(m, e, c);
    BrokenCharacter(m, e, Units(Decode(b)));
    var broken :| broken != [] && AllMarks(broken)
      && Run(Ground, Run(m, e, [MARK]).1, Units(Decode(b))).1 == e.(value := e.value + broken);
    assert (e.value + broken)[|e.value|] == MARK;
    assert |whole| > 0 ==> (e.value + whole)[|e.value|] == whole[0] && whole[0] in whole;
    assert ScanBytes(FRESH, a + b) != ScanBytes(ScanBytes(FRESH, a), b);
  }

  lemma OneCharacter(c: char)
    ensures Units([c] + "") == CharUnits(c) && Units([c]) == CharUnits(c)
  {
    assert [c] + "" == [c] && [c][1..] == "";
  }

  lemma BrokenSequenceShows(a: Buffer)
    requires EndsOutsideCharacter(a) && Progress(a).0 != Ground
    ensures !BytesSplitFreely(a)
  {
    var b: Buffer := [LETTER_X];
    assert Decode(a) == Chars(Start, a);
    LetterShowsBreak(Units(Decode(a)));
    DecodesFreelyExactly(a);
    assert Decode(a + b) == Decode(a) + Decode(b);
    UnitsAppend(Decode(a), Decode(b));
    ReadOne(Start, LETTER_X);
    assert Decode(b) == [LETTER_X as char];
    OneCharacter(LETTER_X as char);
    assert ScanBytes(FRESH, a + b) != ScanBytes(ScanBytes(FRESH, a), b);
  }

  /** A buffer boundary is invisible if and only if it falls inside neither a sequence nor a character. */
  lemma BytesSplitFreelyExactly(a: Buffer)
    ensures BytesSplitFreely(a) <==> EndsCleanly(a)
  {
    if EndsCleanly(a) {
      forall e: Entry, b: Buffer ensures ScanBytes(e, a + b) == ScanBytes(ScanBytes(e, a), b) {
        CleanSplits(e, a, b);
      }
    } else if !EndsOutsideCharacter(a) {
      BrokenCharacterShows(a);
    } else {
      BrokenSequenceShows(a);
    }
  }

  function ScanBuffers(e: Entry, buffers: seq<Buffer>): Entry
    decreases |buffers|
  {
    if buffers == [] then e else ScanBuffers(ScanBytes(e, buffers[0]), buffers[1..])
  }

  function Stream(buffers: seq<Buffer>): Buffer {
    if buffers == [] then [] else buffers[0] + Stream(buffers[1..])
  }

  /** However stdin cuts the input between characters and sequences, the result is that of one big buffer. */
  lemma {:induction false} AnyCuttingOfBytes(e: Entry, buffers: seq<Buffer>)
    requires forall k :: 0 <= k < |buffers| ==> EndsCleanly(buffers[k])
    ensures ScanBuffers(e, buffers) == ScanBytes(e, Stream(buffers))
    decreases |buffers|
  {
    if buffers != [] {
      AnyCuttingOfBytes(ScanBytes(e, buffers[0]), buffers[1..]);
      CleanSplits(e, buffers[0], Stream(buffers[1..]));
    }
  }

  // ----- Text that a terminal sends as UTF-8

  predicate PrintableText(s: string) {
    forall k :: 0 <= k < |s| ==> s[k] as int >= 32 && s[k] as int != 0x7f
  }

  lemma {:induction false} PrintableUnits(s: string)
    requires PrintableText(s)
    ensures forall k :: 0 <= k < |Units(s)| ==> Printable(Units(s)[k])
  {
    if s != "" {
      PrintableUnits(s[1..]);
    }
  }

  lemma {:induction false} AsciiDecodes(bytes: Buffer)
    requires forall k :: 0 <= k < |bytes| ==> bytes[k] < 0x80
    ensures After(Start, bytes) == Start && Units(Chars(Start, bytes)) == bytes
    decreases |bytes|
  {
    if bytes != [] {
      AsciiDecodes(bytes[1..]);
      var c := [bytes[0] as char];
      UnitsAppend(c, Chars(Start, bytes[1..]));
      OneCharacter(bytes[0] as char);
      assert bytes == [bytes[0]] + bytes[1..];
    }
  }

  lemma MarkersDecode()
    ensures After(Start, PASTE_START) == Start && Units(Chars(Start, PASTE_START)) == PASTE_START
    ensures After(Start, PASTE_END) == Start && Units(Chars(Start, PASTE_END)) == PASTE_END
  {
    AsciiDecodes(PASTE_START);
    AsciiDecodes(PASTE_END);
  }

  /** The bytes of a bracketed paste. */
  function Wrapped(text: string): Buffer {
    PASTE_START + Encode(text) + PASTE_END
  }

  lemma WrappedDecodes(text: string)
    ensures Units(Decode(Wrapped(text))) == PASTE_START + Units(text) + PASTE_END
  {
    MarkersDecode();
    ReadsEncoded(text);
    ReadAppend(Start, PASTE_START, Encode(text));
    ReadAppend(Start, PASTE_START + Encode(text), PASTE_END);
    var front := Chars(Start, PASTE_START);
    assert Decode(Wrapped(text)) == front + text + Chars(Start, PASTE_END);
    UnitsAppend(front + text, Chars(Start, PASTE_END));
    UnitsAppend(front, text);
  }

  /** A pasted text arrives verbatim, in any script, wrapped in paste markers or not. */
  lemma PastedTextIsVerbatim(e: Entry, text: string)
    requires !Stopped(e) && PrintableText(text)
    ensures ScanBytes(e, Encode(text)) == e.(value := e.value + Units(text))
    ensures ScanBytes(e, Wrapped(text)) == e.(value := e.value + Units(text))
  {
    RoundTrip(text);
    WrappedDecodes(text);
    PrintableUnits(text);
    PasteIsVerbatim(e, Units(text));
  }
}
