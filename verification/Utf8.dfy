/** UTF-8, with the decoder's treatment of bytes that are none. */
module Utf8 {

  type Byte = x: int | 0 <= x < 256
  type Buffer = seq<Byte>

  const REPLACEMENT: char := 0xfffd as char

  // ----- Encoding

  function EncodeChar(c: char): (r: Buffer)
    ensures 1 <= |r| <= 4
  {
    var n := c as int;
    if n < 0x80 then [n]
    else if n < 0x800 then [0xc0 + n / 64, 0x80 + n % 64]
    else if n < 0x1_0000 then [0xe0 + n / 4096, 0x80 + n / 64 % 64, 0x80 + n % 64]
    else [0xf0 + n / 262144, 0x80 + n / 4096 % 64, 0x80 + n / 64 % 64, 0x80 + n % 64]
  }

  function Encode(s: string): Buffer {
    if s == "" then [] else EncodeChar(s[0]) + Encode(s[1..])
  }

  // ----- Decoding

  /**
   * What the decoder remembers between two bytes: nothing, or an unfinished character that needs `need`
   * more bytes, the next one between `lo` and `hi`, after the leading bits `high`.
   */
  datatype State = Start | More(need: nat, lo: Byte, hi: Byte, high: nat)

  /** The first of the characters that share the leading bits `bits`, up to and including the next byte. */
  function FirstOf(bits: int, need: nat): int {
    if need == 1 then bits else if need == 2 then bits * 64 else bits * 4096
  }

  /** The continuations allowed by `lo` and `hi` all lead to scalar values outside ASCII. */
  predicate Sound(p: State) {
    p.More? ==>
      && 1 <= p.need <= 3 && 0x80 <= p.lo <= p.hi <= 0xbf && (p.need == 1 ==> p.lo == 0x80)
      && 0x80 <= FirstOf(p.high * 64 + p.lo - 0x80, p.need)
      && (FirstOf(p.high * 64 + p.hi - 0x7f, p.need) <= 0xd800
          || (0xe000 <= FirstOf(p.high * 64 + p.lo - 0x80, p.need)
              && FirstOf(p.high * 64 + p.hi - 0x7f, p.need) <= 0x11_0000))
  }

  type Partial = p: State | Sound(p) witness Start

  /** The first byte of a character. */
  function Lead(b: Byte): (Partial, string) {
    if b < 0x80 then (Start, [b as char])
    else if 0xc2 <= b <= 0xdf then (More(1, 0x80, 0xbf, b - 0xc0), "")
    else if 0xe0 <= b <= 0xef then
      (More(2, if b == 0xe0 then 0xa0 else 0x80, if b == 0xed then 0x9f else 0xbf, b - 0xe0), "")
    else if 0xf0 <= b <= 0xf4 then
      (More(3, if b == 0xf0 then 0x90 else 0x80, if b == 0xf4 then 0x8f else 0xbf, b - 0xf0), "")
    else (Start, [REPLACEMENT])
  }

  /** A byte that does not continue the character ends it as one replacement character and is read afresh. */
  function Next(p: Partial, b: Byte): (Partial, string) {
    if p == Start then Lead(b)
    else if !(p.lo <= b <= p.hi) then (Lead(b).0, [REPLACEMENT] + Lead(b).1)
    else
      var bits := p.high * 64 + b - 0x80;
      if p.need == 1 then (Start, [bits as char]) else (More(p.need - 1, 0x80, 0xbf, bits), "")
  }

  function After(p: Partial, bytes: Buffer): Partial
    decreases |bytes|
  {
    if bytes == [] then p else After(Next(p, bytes[0]).0, bytes[1..])
  }

  /** The characters that are complete when all of `bytes` has been read. */
  function Chars(p: Partial, bytes: Buffer): string
    decreases |bytes|
  {
    if bytes == [] then "" else Next(p, bytes[0]).1 + Chars(Next(p, bytes[0]).0, bytes[1..])
  }

  /** An unfinished character at the end of the buffer becomes one replacement character. */
  function Flush(p: Partial): string {
    if p == Start then "" else [REPLACEMENT]
  }

  /** `buffer.toString()`, which substitutes maximal subparts as section 3.9 of the Unicode Standard says. */
  function Decode(bytes: Buffer): string {
    Chars(Start, bytes) + Flush(After(Start, bytes))
  }

  lemma {:induction false} AfterAppend(p: Partial, a: Buffer, b: Buffer)
    ensures After(p, a + b) == After(After(p, a), b)
    decreases |a|
  {
    if a == [] {
      assert a + b == b;
    } else {
      assert (a + b)[0] == a[0] && (a + b)[1..] == a[1..] + b;
      AfterAppend(Next(p, a[0]).0, a[1..], b);
    }
  }

  lemma Regroup(s: string, t: string, u: string)
    ensures s + (t + u) == s + t + u
  {
  }

  lemma ReadsOneByte(p: Partial, bytes: Buffer)
    requires bytes != []
    ensures After(p, bytes) == After(Next(p, bytes[0]).0, bytes[1..])
    ensures Chars(p, bytes) == Next(p, bytes[0]).1 + Chars(Next(p, bytes[0]).0, bytes[1..])
  {
  }

  lemma {:induction false} CharsAppend(p: Partial, a: Buffer, b: Buffer)
    ensures Chars(p, a + b) == Chars(p, a) + Chars(After(p, a), b)
    decreases |a|
  {
    if a == [] {
      assert a + b == b;
    } else {
      var (q, t) := Next(p, a[0]);
      assert (a + b)[0] == a[0] && (a + b)[1..] == a[1..] + b;
      ReadsOneByte(p, a);
      ReadsOneByte(p, a + b);
      CharsAppend(q, a[1..], b);
      Regroup(t, Chars(q, a[1..]), Chars(After(p, a), b));
    }
  }

  lemma ReadAppend(p: Partial, a: Buffer, b: Buffer)
    ensures After(p, a + b) == After(After(p, a), b)
    ensures Chars(p, a + b) == Chars(p, a) + Chars(After(p, a), b)
  {
    AfterAppend(p, a, b);
    CharsAppend(p, a, b);
  }

  lemma ReadOne(p: Partial, x: Byte)
    ensures After(p, [x]) == Next(p, x).0 && Chars(p, [x]) == Next(p, x).1
  {
  }

  /** One byte at the front of others. */
  lemma ReadFirst(p: Partial, x: Byte, rest: Buffer)
    ensures After(p, [x] + rest) == After(Next(p, x).0, rest)
    ensures Chars(p, [x] + rest) == Next(p, x).1 + Chars(Next(p, x).0, rest)
  {
    ReadOne(p, x);
    ReadAppend(p, [x], rest);
  }

  /** Bytes that only lead from one unfinished character to the next emit nothing. */
  lemma ReadThrough(p: Partial, x: Byte, rest: Buffer)
    requires Next(p, x).1 == ""
    ensures After(p, [x] + rest) == After(Next(p, x).0, rest)
    ensures Chars(p, [x] + rest) == Chars(Next(p, x).0, rest)
  {
    ReadFirst(p, x, rest);
  }

  // ----- Round trip

  predicate IsScalar(n: int) {
    0 <= n < 0xd800 || 0xe000 <= n < 0x11_0000
  }

  /** The continuation bytes of a character, six bits in each, after the leading bits in `p`. */
  lemma LastByte(p: Partial, z: nat)
    requires p.More? && p.need == 1 && p.hi == 0xbf && z < 64 && IsScalar(p.high * 64 + z)
    ensures After(p, [0x80 + z]) == Start && Chars(p, [0x80 + z]) == [(p.high * 64 + z) as char]
  {
    ReadOne(p, 0x80 + z);
  }

  lemma LastTwoBytes(p: Partial, y: nat, z: nat)
    requires p.More? && p.need == 2 && p.lo <= 0x80 + y <= p.hi && z < 64
    requires IsScalar(p.high * 4096 + y * 64 + z)
    ensures After(p, [0x80 + y, 0x80 + z]) == Start
    ensures Chars(p, [0x80 + y, 0x80 + z]) == [(p.high * 4096 + y * 64 + z) as char]
  {
    LastByte(Next(p, 0x80 + y).0, z);
    ReadThrough(p, 0x80 + y, [0x80 + z]);
    assert [0x80 + y, 0x80 + z] == [0x80 + y] + [0x80 + z];
  }

  lemma LastThreeBytes(p: Partial, x: nat, y: nat, z: nat)
    requires p.More? && p.need == 3 && p.lo <= 0x80 + x <= p.hi && y < 64 && z < 64
    requires IsScalar(p.high * 262144 + x * 4096 + y * 64 + z)
    ensures After(p, [0x80 + x, 0x80 + y, 0x80 + z]) == Start
    ensures Chars(p, [0x80 + x, 0x80 + y, 0x80 + z]) == [(p.high * 262144 + x * 4096 + y * 64 + z) as char]
  {
    LastTwoBytes(Next(p, 0x80 + x).0, y, z);
    ReadThrough(p, 0x80 + x, [0x80 + y, 0x80 + z]);
    assert [0x80 + x, 0x80 + y, 0x80 + z] == [0x80 + x] + [0x80 + y, 0x80 + z];
  }

  /** A number in groups of six bits. */
  lemma SixBits(n: nat)
    ensures n == n / 64 * 64 + n % 64
    ensures n / 64 == n / 4096 * 64 + n / 64 % 64
    ensures n / 4096 == n / 262144 * 64 + n / 4096 % 64
  {
    assert n / 64 / 64 == n / 4096;
    assert n / 4096 / 64 == n / 262144;
  }

  /** A lead byte that leaves the character unfinished is followed by what finishes it. */
  lemma LeadThenRest(x: Byte, rest: Buffer, c: char)
    requires Lead(x).0.More? && After(Lead(x).0, rest) == Start && Chars(Lead(x).0, rest) == [c]
    ensures After(Start, [x] + rest) == Start && Chars(Start, [x] + rest) == [c]
  {
    ReadThrough(Start, x, rest);
  }

  lemma TwoByteChar(n: nat)
    requires 0x80 <= n < 0x800
    ensures After(Start, [0xc0 + n / 64, 0x80 + n % 64]) == Start
    ensures Chars(Start, [0xc0 + n / 64, 0x80 + n % 64]) == [n as char]
  {
    var x, rest := 0xc0 + n / 64, [0x80 + n % 64];
    LastByte(Lead(x).0, n % 64);
    LeadThenRest(x, rest, n as char);
    assert [x, rest[0]] == [x] + rest;
  }

  lemma ThreeByteChar(c: char)
    requires 0x800 <= c as int < 0x1_0000
    ensures After(Start, EncodeChar(c)) == Start && Chars(Start, EncodeChar(c)) == [c]
  {
    var n := c as int;
    SixBits(n);
    var x, rest := 0xe0 + n / 4096, [0x80 + n / 64 % 64, 0x80 + n % 64];
    LastTwoBytes(Lead(x).0, n / 64 % 64, n % 64);
    LeadThenRest(x, rest, c);
    assert EncodeChar(c) == [x] + rest;
  }

  lemma FourBytes(w: nat, x: nat, y: nat, z: nat)
    requires x < 64 && y < 64 && z < 64 && 0x1_0000 <= w * 262144 + x * 4096 + y * 64 + z < 0x11_0000
    ensures After(Start, [0xf0 + w, 0x80 + x, 0x80 + y, 0x80 + z]) == Start
    ensures Chars(Start, [0xf0 + w, 0x80 + x, 0x80 + y, 0x80 + z])
         == [(w * 262144 + x * 4096 + y * 64 + z) as char]
  {
    var rest := [0x80 + x, 0x80 + y, 0x80 + z];
    LastThreeBytes(Lead(0xf0 + w).0, x, y, z);
    LeadThenRest(0xf0 + w, rest, (w * 262144 + x * 4096 + y * 64 + z) as char);
    assert [0xf0 + w, 0x80 + x, 0x80 + y, 0x80 + z] == [0xf0 + w] + rest;
  }

  lemma FourByteChar(c: char)
    requires 0x1_0000 <= c as int
    ensures After(Start, EncodeChar(c)) == Start && Chars(Start, EncodeChar(c)) == [c]
  {
    var n := c as int;
    SixBits(n);
    FourBytes(n / 262144, n / 4096 % 64, n / 64 % 64, n % 64);
  }

  lemma CharRoundTrip(c: char)
    ensures After(Start, EncodeChar(c)) == Start && Chars(Start, EncodeChar(c)) == [c]
  {
    var n := c as int;
    if n < 0x80 {
      ReadOne(Start, n);
    } else if n < 0x800 {
      TwoByteChar(n);
    } else if n < 0x1_0000 {
      ThreeByteChar(c);
    } else {
      FourByteChar(c);
    }
  }

  lemma {:induction false} ReadsEncoded(s: string)
    ensures After(Start, Encode(s)) == Start && Chars(Start, Encode(s)) == s
  {
    if s != "" {
      CharRoundTrip(s[0]);
      ReadsEncoded(s[1..]);
      ReadAppend(Start, EncodeChar(s[0]), Encode(s[1..]));
      assert s == [s[0]] + s[1..];
    }
  }

  /** Decoding is the inverse of encoding, and so different texts have different bytes. */
  lemma RoundTrip(s: string)
    ensures Decode(Encode(s)) == s
  {
    ReadsEncoded(s);
  }

  lemma EncodeInjective(s: string, t: string)
    requires Encode(s) == Encode(t)
    ensures s == t
  {
    RoundTrip(s);
    RoundTrip(t);
  }

  // ----- Buffer boundaries

  /** Bytes that finish the character `p`. */
  function Completion(p: Partial): Buffer
    requires p != Start
  {
    if p.need == 1 then [p.lo] else if p.need == 2 then [p.lo, 0x80] else [p.lo, 0x80, 0x80]
  }

  /** Read on their own such bytes are one replacement character each. */
  lemma {:induction false} Stray(bytes: Buffer)
    requires forall k :: 0 <= k < |bytes| ==> 0x80 <= bytes[k] <= 0xbf
    ensures After(Start, bytes) == Start && |Chars(Start, bytes)| == |bytes|
    ensures forall k :: 0 <= k < |bytes| ==> Chars(Start, bytes)[k] == REPLACEMENT
    decreases |bytes|
  {
    if bytes != [] {
      Stray(bytes[1..]);
    }
  }

  lemma {:induction false} Completed(p: Partial) returns (c: char)
    requires p != Start
    ensures After(p, Completion(p)) == Start && Chars(p, Completion(p)) == [c]
    ensures c as int >= 0x80 && c != REPLACEMENT
    decreases if p.More? then p.need else 0
  {
    if p.need == 1 {
      ReadOne(p, p.lo);
      c := Next(p, p.lo).1[0];
    } else {
      var q := Next(p, p.lo).0;
      c := Completed(q);
      ReadThrough(p, p.lo, Completion(q));
      assert Completion(p) == [p.lo] + Completion(q);
    }
  }

  ghost predicate DecodesFreely(a: Buffer) {
    forall b: Buffer :: Decode(a + b) == Decode(a) + Decode(b)
  }

  /** The buffer does not break off inside a character. */
  predicate EndsOutsideCharacter(a: Buffer) {
    After(Start, a) == Start
  }

  /** Decoding buffer by buffer is decoding the stream if and only if the buffer ends between characters. */
  lemma DecodesFreelyExactly(a: Buffer)
    ensures DecodesFreely(a) <==> EndsOutsideCharacter(a)
  {
    if EndsOutsideCharacter(a) {
      forall b: Buffer ensures Decode(a + b) == Decode(a) + Decode(b) {
        ReadAppend(Start, a, b);
        assert Decode(a + b) == Chars(Start, a) + Chars(Start, b) + Flush(After(Start, b));
      }
    } else {
      var p := After(Start, a);
      var c := Completed(p);
      var b := Completion(p);
      ReadAppend(Start, a, b);
      var n := |Chars(Start, a)|;
      assert Decode(a + b)[n] == c;
      assert (Decode(a) + Decode(b))[n] == REPLACEMENT;
    }
  }

  // ----- The numbers of the standard

  /** The forms of a character, each with the bits of its bytes; none is longer than it has to be. */
  lemma EncodeCharExact(c: char)
    ensures var n, r := c as int, EncodeChar(c);
            && (n < 0x80 ==> r == [n])
            && (0x80 <= n < 0x800 ==>
                  |r| == 2 && 0xc2 <= r[0] <= 0xdf && (r[0] as int - 0xc0) * 64 + (r[1] as int - 0x80) == n)
            && (0x800 <= n < 0x1_0000 ==>
                  |r| == 3 && 0xe0 <= r[0] <= 0xef
                  && (r[0] as int - 0xe0) * 4096 + (r[1] as int - 0x80) * 64 + (r[2] as int - 0x80) == n)
            && (0x1_0000 <= n ==>
                  |r| == 4 && 0xf0 <= r[0] <= 0xf4
                  && (r[0] as int - 0xf0) * 262144 + (r[1] as int - 0x80) * 4096
                     + (r[2] as int - 0x80) * 64 + (r[3] as int - 0x80) == n)
            && forall k :: 0 < k < |r| ==> 0x80 <= r[k] <= 0xbf
  {
    SixBits(c as int);
  }

  /** Bytes that begin no character. */
  lemma NoLead(b: Byte)
    requires 0x80 <= b <= 0xc1 || 0xf5 <= b
    ensures After(Start, [b]) == Start && Chars(Start, [b]) == [0xfffd as char]
  {
    ReadOne(Start, b);
  }

  /** The second bytes that each longer character allows, as table 3-7 of the Unicode Standard lists them. */
  lemma SecondByteExactly(b: Byte, c: Byte)
    requires 0xe0 <= b <= 0xf4
    ensures Next(Lead(b).0, c).1 == "" <==>
              if b == 0xe0 then 0xa0 <= c <= 0xbf
              else if b == 0xed then 0x80 <= c <= 0x9f
              else if b == 0xf0 then 0x90 <= c <= 0xbf
              else if b == 0xf4 then 0x80 <= c <= 0x8f
              else 0x80 <= c <= 0xbf
  {
  }

  /** A character that breaks off is one replacement character, and the byte that broke it is read afresh. */
  lemma BrokenOff(p: Partial, b: Byte, rest: Buffer)
    requires p.More? && !(p.lo <= b <= p.hi)
    ensures After(p, [b] + rest) == After(Start, [b] + rest)
    ensures Chars(p, [b] + rest) == [0xfffd as char] + Chars(Start, [b] + rest)
  {
    ReadFirst(p, b, rest);
    ReadFirst(Start, b, rest);
    Regroup([REPLACEMENT], Lead(b).1, Chars(Lead(b).0, rest));
  }
}
