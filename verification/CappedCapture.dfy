/** Bounded capture of a child process's output stream. */
module CappedCapture {

  import opened Utf8

  function Flatten(chunks: seq<Buffer>): Buffer {
    if chunks == [] then [] else Flatten(chunks[..|chunks| - 1]) + chunks[|chunks| - 1]
  }

  function Take(bytes: Buffer, n: nat): (r: Buffer)
    ensures |r| == if |bytes| < n then |bytes| else n
    ensures r <= bytes
  {
    if |bytes| <= n then bytes else bytes[..n]
  }

  lemma TakeAgain(bytes: Buffer, chunk: Buffer, n: nat)
    ensures Take(Take(bytes, n) + chunk, n) == Take(bytes + chunk, n)
  {
  }

  /** `existingBytes`: the running sum over the collected buffers. */
  method ByteCount(chunks: seq<Buffer>) returns (sum: nat)
    ensures sum == |Flatten(chunks)|
  {
    sum := 0;
    for k := 0 to |chunks|
      invariant sum == |Flatten(chunks[..k])|
    {
      sum := sum + |chunks[k]|;
      assert chunks[..k + 1][..k] == chunks[..k];
    }
    assert chunks[..|chunks|] == chunks;
  }

  method AppendCapped(current: seq<Buffer>, chunk: Buffer, maxBytes: nat) returns (chunks: seq<Buffer>, truncated: bool)
    ensures Flatten(current) <= Flatten(chunks)
    ensures |Flatten(current)| <= maxBytes ==> Flatten(chunks) == Take(Flatten(current) + chunk, maxBytes)
    ensures |Flatten(current)| > maxBytes ==> chunks == current
    ensures truncated <==> |Flatten(current)| >= maxBytes || |Flatten(current) + chunk| > maxBytes
  {
    var existingBytes := ByteCount(current);
    if existingBytes >= maxBytes {
      return current, true;
    }
    var remaining := maxBytes - existingBytes;
    if |chunk| <= remaining {
      assert (current + [chunk])[..|current|] == current;
      return current + [chunk], false;
    }
    assert (current + [chunk[..remaining]])[..|current|] == current;
    return current + [chunk[..remaining]], true;
  }

  /** The two variables that a `data` handler of one stream reassigns, and what it has been sent so far. */
  class StreamCapture {
    const cap: nat
    var chunks: seq<Buffer>
    var truncated: bool
    ghost var received: seq<Buffer>

    ghost predicate Valid()
      reads this
    {
      Flatten(chunks) == Take(Flatten(received), cap) && (truncated <==> Overflowed(received, cap))
    }

    constructor (cap: nat)
      ensures Valid() && this.cap == cap && received == []
    {
      this.cap := cap;
      chunks, truncated, received := [], false, [];
    }

    method OnData(chunk: Buffer)
      requires Valid()
      modifies this
      ensures Valid()
      ensures received == old(received) + [chunk]
    {
      var next, cut := AppendCapped(chunks, chunk, cap);
      CaptureStep(received, chunk, cap);
      chunks := next;
      truncated := truncated || cut;
      received := received + [chunk];
    }

    /** `Buffer.concat` when the child closes: the exact prefix, and an exact flag. */
    method Close() returns (output: Buffer, wasTruncated: bool)
      requires Valid()
      ensures output == Take(Flatten(received), cap)
      ensures wasTruncated <==> Overflowed(received, cap)
      ensures (forall k :: 0 <= k < |received| ==> received[k] != []) ==> (wasTruncated <==> |Flatten(received)| > cap)
    {
      NonEmptyChunksOverflowExactly(received, cap);
      output := Flatten(chunks);
      wasTruncated := truncated;
    }
  }

  /** The stream was longer than the cap, or a chunk, even an empty one, arrived after the cap was reached. */
  ghost predicate Overflowed(stream: seq<Buffer>, cap: nat) {
    |Flatten(stream)| > cap || exists k :: 0 <= k < |stream| && |Flatten(stream[..k])| >= cap
  }

  lemma {:induction false} PrefixIsShorter(stream: seq<Buffer>, k: nat)
    requires k <= |stream|
    ensures Flatten(stream[..k]) <= Flatten(stream)
  {
    if k == |stream| {
      assert stream[..k] == stream;
    } else {
      var front := stream[..|stream| - 1];
      PrefixIsShorter(front, k);
      assert front[..k] == stream[..k];
    }
  }

  lemma OverflowStep(stream: seq<Buffer>, chunk: Buffer, cap: nat)
    ensures Overflowed(stream + [chunk], cap)
       <==> Overflowed(stream, cap) || |Flatten(stream)| >= cap || |Flatten(stream) + chunk| > cap
  {
    var longer := stream + [chunk];
    assert longer[..|stream|] == stream;
    assert Flatten(longer) == Flatten(stream) + chunk;
    assert forall k :: 0 <= k <= |stream| ==> longer[..k] == stream[..k];
    if exists k :: 0 <= k < |stream| && |Flatten(stream[..k])| >= cap {
      var k :| 0 <= k < |stream| && |Flatten(stream[..k])| >= cap;
      assert |Flatten(longer[..k])| >= cap;
    }
    if |Flatten(stream)| >= cap {
      assert |Flatten(longer[..|stream|])| >= cap;
    }
    if Overflowed(longer, cap) && |Flatten(longer)| <= cap {
      var k :| 0 <= k < |longer| && |Flatten(longer[..k])| >= cap;
      assert |Flatten(stream[..k])| >= cap;
      assert k == |stream| ==> stream[..k] == stream;
    }
  }

  lemma CaptureStep(stream: seq<Buffer>, chunk: Buffer, cap: nat)
    ensures Flatten(stream + [chunk]) == Flatten(stream) + chunk
    ensures Take(Take(Flatten(stream), cap) + chunk, cap) == Take(Flatten(stream + [chunk]), cap)
    ensures Overflowed(stream + [chunk], cap) <==>
            Overflowed(stream, cap) || |Take(Flatten(stream), cap)| >= cap || |Take(Flatten(stream), cap) + chunk| > cap
  {
    OverflowStep(stream, chunk, cap);
    assert (stream + [chunk])[..|stream|] == stream;
    TakeAgain(Flatten(stream), chunk, cap);
  }

  /** Without empty chunks the flag means exactly that the stream was longer than the cap. */
  lemma NonEmptyChunksOverflowExactly(stream: seq<Buffer>, cap: nat)
    ensures (forall k :: 0 <= k < |stream| ==> stream[k] != []) ==>
              (Overflowed(stream, cap) <==> |Flatten(stream)| > cap)
  {
    if forall k :: 0 <= k < |stream| ==> stream[k] != [] {
      forall k | 0 <= k < |stream| ensures |Flatten(stream[..k])| < |Flatten(stream)| {
        PrefixIsShorter(stream, k + 1);
        assert stream[..k + 1][..k] == stream[..k];
      }
    }
  }

  /**
   * The flag means exactly "longer than the cap", except on one family of streams: those that fill the
   * cap to the byte and end in an empty chunk.
   */
  lemma FlagIsExactUnlessTrailingEmpty(stream: seq<Buffer>, cap: nat)
    ensures (Overflowed(stream, cap) <==> |Flatten(stream)| > cap) <==>
            !(|Flatten(stream)| == cap && |stream| > 0 && stream[|stream| - 1] == [])
  {
    forall k | 0 <= k <= |stream| ensures |Flatten(stream[..k])| <= |Flatten(stream)| {
      PrefixIsShorter(stream, k);
    }
    if |stream| > 0 {
      var last := |stream| - 1;
      assert |Flatten(stream)| == |Flatten(stream[..last])| + |stream[last]|;
      forall k | 0 <= k <= last ensures |Flatten(stream[..k])| <= |Flatten(stream[..last])| {
        PrefixIsShorter(stream[..last], k);
        assert stream[..last][..k] == stream[..k];
      }
    }
  }

  /**
   * Called with an empty chunk at the cap, `appendCapped` sets the flag although the stream fits. A Node
   * stream of bytes emits no empty chunk, so the handlers do not meet this case.
   */
  lemma EmptyChunkAtTheCap(b: Byte)
    ensures Overflowed([[b], []], 1) && |Flatten([[b], []])| == 1
  {
    var stream: seq<Buffer> := [[b], []];
    assert stream[..1] == [[b]];
    assert Flatten([[b]]) == Flatten([[b]][..0]) + [b];
    assert |Flatten(stream[..1])| >= 1;
  }

  /** That stream through the handler: one byte, then an empty chunk, with a cap of one byte. */
  method EmptyChunkSetsFlag(b: Byte) returns (output: Buffer, flagged: bool)
    ensures output == [b] && flagged
  {
    var capture := new StreamCapture(1);
    capture.OnData([b]);
    capture.OnData([]);
    assert capture.received == [[b], []];
    EmptyChunkAtTheCap(b);
    output, flagged := capture.Close();
    assert Flatten([[b], []]) == [b];
  }
}
