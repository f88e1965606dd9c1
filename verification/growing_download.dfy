/** The chunked download of `utils.js`: the body is streamed into a
    `Uint8Array` pre-sized from `Content-Length`; the buffer grows when a chunk
    would overflow it and is cut to the received length at the end, so the
    declared length may under- or over-report without changing the bytes
    returned. */
module GrowingDownload {
  import opened Common
  import opened Http

  /** The capacity after making room for a chunk of `len` bytes at `offset`:
      unchanged when it fits, otherwise `Math.max(cap * 1.25, offset + len)`
      truncated to an integer by the `Uint8Array` constructor. */
  function Grow(cap: nat, offset: nat, len: nat): (c: nat)
    ensures c >= cap && c >= offset + len
    ensures offset + len <= cap ==> c == cap
    ensures offset + len > cap ==> c == Max(cap * 5 / 4, offset + len)
  {
    if offset + len > cap then Max(cap * 5 / 4, offset + len) else cap
  }

  /** The values passed to the progress callback for the remaining `chunks`,
      when `loaded` bytes sit in a buffer of capacity `cap`: after each chunk,
      the bytes loaded so far over the (possibly grown) capacity. */
  function Reports(cap: nat, loaded: nat, chunks: seq<seq<byte>>): (r: seq<Fraction>)
    decreases |chunks|
    ensures |r| == |chunks|
    ensures forall i :: 0 <= i < |r| ==> loaded <= r[i].num <= r[i].den && cap <= r[i].den
  {
    if |chunks| == 0 then []
    else
      var c := Grow(cap, loaded, |chunks[0]|);
      [Fraction(loaded + |chunks[0]|, c)] + Reports(c, loaded + |chunks[0]|, chunks[1..])
  }

  /** `new Uint8Array(capacity)` followed by `newBuffer.set(buffer, 0)`. */
  method Enlarge(buffer: array<byte>, offset: nat, capacity: nat) returns (b: array<byte>)
    requires offset <= buffer.Length <= capacity
    ensures fresh(b) && b.Length == capacity
    ensures b[..offset] == buffer[..offset]
  {
    b := new byte[capacity];
    forall k | 0 <= k < buffer.Length {
      b[k] := buffer[k];
    }
    assert b[..offset] == buffer[..offset];
  }

  /** `buffer.set(value, offset)` when the chunk fits. */
  method CopyAt(buffer: array<byte>, offset: nat, value: seq<byte>)
    requires offset + |value| <= buffer.Length
    modifies buffer
    ensures buffer[..offset + |value|] == old(buffer[..offset]) + value
  {
    forall k | 0 <= k < |value| {
      buffer[offset + k] := value[k];
    }
    assert buffer[..offset + |value|] == old(buffer[..offset]) + value;
  }

  /** One turn of the read loop: grow the buffer if the chunk would overflow
      it, then copy the chunk in at the write offset. */
  method Append(buffer: array<byte>, offset: nat, value: seq<byte>) returns (b: array<byte>)
    requires offset <= buffer.Length
    modifies buffer
    ensures b == buffer || fresh(b)
    ensures b.Length == Grow(buffer.Length, offset, |value|)
    ensures b[..offset + |value|] == old(buffer[..offset]) + value
  {
    b := buffer;
    if offset + |value| > buffer.Length {
      b := Enlarge(buffer, offset, Grow(buffer.Length, offset, |value|));
    }
    CopyAt(b, offset, value);
  }

  /** The chunked path: a buffer of the declared `n` bytes, grown on
      overflow, filled chunk by chunk and cut to the received length. */
  method Stream(n: nat, body: seq<seq<byte>>, hasCallback: bool)
    returns (bytes: seq<byte>, reports: seq<Fraction>)
    requires n > 0
    ensures bytes == Flatten(body)
    ensures reports == if hasCallback then Reports(n, 0, body) else []
  {
    var buffer := new byte[n];
    var offset: nat := 0;
    var loadedSize: nat := 0;
    var i := 0;
    reports := [];
    ghost var made: seq<Fraction> := [];
    while i < |body|
      invariant 0 <= i <= |body|
      invariant offset == loadedSize == TotalLength(body[..i])
      invariant fresh(buffer)
      invariant 0 < buffer.Length && offset <= buffer.Length
      invariant buffer[..offset] == Flatten(body[..i])
      invariant made + Reports(buffer.Length, offset, body[i..]) == Reports(n, 0, body)
      invariant reports == if hasCallback then made else []
    {
      var value := body[i];
      buffer, offset, made, reports := Receive(buffer, body, i, offset, hasCallback, made, reports);
      loadedSize := loadedSize + |value|;
      i := i + 1;
    }
    assert body[..i] == body;
    if buffer.Length > loadedSize {
      // `slice` copies, so the grown capacity is released
      bytes := buffer[..loadedSize];
    } else {
      assert buffer[..] == buffer[..offset];
      bytes := buffer[..];
    }
  }

  /** One turn of the read loop for chunk `i`: the chunk lands after the
      bytes already received, in a buffer grown if need be, the count
      advances, and the report after it is the first of the pending ones. */
  method Receive(buffer: array<byte>, body: seq<seq<byte>>, i: nat, offset: nat, hasCallback: bool,
                 ghost made: seq<Fraction>, reports: seq<Fraction>)
    returns (b: array<byte>, next: nat, ghost made': seq<Fraction>, reports': seq<Fraction>)
    requires i < |body| && offset == TotalLength(body[..i]) && offset <= buffer.Length
    requires buffer[..offset] == Flatten(body[..i])
    requires reports == if hasCallback then made else []
    modifies buffer
    ensures b == buffer || fresh(b)
    ensures next == offset + |body[i]| == TotalLength(body[..i + 1]) && next <= b.Length
    ensures b.Length == Grow(buffer.Length, offset, |body[i]|)
    ensures b[..next] == Flatten(body[..i + 1])
    ensures made' + Reports(b.Length, next, body[i + 1..]) == made + Reports(buffer.Length, offset, body[i..])
    ensures reports' == if hasCallback then made' else []
  {
    var value := body[i];
    ReportsStep(made, buffer.Length, offset, body, i);
    b := Append(buffer, offset, value);
    FlattenSnoc(body[..i], value);
    assert body[..i + 1] == body[..i] + [value];
    next := offset + |value|;
    made' := made + [Fraction(next, b.Length)];
    reports' := reports;
    if hasCallback {
      reports' := reports + [Fraction(next, b.Length)];
    }
  }

  /** Peeling one chunk off the pending reports. */
  lemma ReportsStep(made: seq<Fraction>, cap: nat, offset: nat, body: seq<seq<byte>>, i: nat)
    requires i < |body|
    ensures made + Reports(cap, offset, body[i..])
         == (made + [Fraction(offset + |body[i]|, Grow(cap, offset, |body[i]|))])
            + Reports(Grow(cap, offset, |body[i]|), offset + |body[i]|, body[i + 1..])
  {
    assert body[i..][1..] == body[i + 1..];
  }

  /** `downloadFileWithChunking` with the grow-and-truncate buffer.
      `hasCallback` says whether a progress callback was supplied; `reports`
      is the sequence of values it receives. */
  method Download(fetch: Fetch, hasCallback: bool)
    returns (r: Result<seq<byte>, DownloadError>, reports: seq<Fraction>)
    ensures fetch.NetworkFailure? ==> r == Err(NetworkError) && reports == []
    ensures fetch.Fetched? && DeclaredSize(fetch.contentLength).None? ==>
              r == Ok(Flatten(fetch.body)) && reports == []
    ensures fetch.Fetched? && DeclaredSize(fetch.contentLength).Some? && DeclaredSize(fetch.contentLength).value < 0 ==>
              r == Err(RangeError) && reports == []
    ensures fetch.Fetched? && DeclaredSize(fetch.contentLength).Some? && DeclaredSize(fetch.contentLength).value > 0 ==>
              && r == Ok(Flatten(fetch.body))
              && reports == (if hasCallback then Reports(DeclaredSize(fetch.contentLength).value, 0, fetch.body) else [])
  {
    if fetch.NetworkFailure? {
      return Err(NetworkError), [];
    }
    var totalSize := DeclaredSize(fetch.contentLength);
    if totalSize.None? {
      // the whole body through `response.arrayBuffer()`, no progress calls
      return Ok(Flatten(fetch.body)), [];
    }
    if totalSize.value < 0 {
      return Err(RangeError), [];
    }
    var bytes;
    bytes, reports := Stream(totalSize.value, fetch.body, hasCallback);
    r := Ok(bytes);
  }

  /** One report per chunk, each a fraction in [0, 1] whose numerator is the
      number of bytes received so far, and whose denominator is at least that
      many. */
  lemma {:induction false} ReportsShape(cap: nat, loaded: nat, chunks: seq<seq<byte>>)
    requires 0 < cap && loaded <= cap
    decreases |chunks|
    ensures |Reports(cap, loaded, chunks)| == |chunks|
    ensures forall i :: 0 <= i < |chunks| ==>
              && Reports(cap, loaded, chunks)[i].InUnitInterval()
              && Reports(cap, loaded, chunks)[i].num == loaded + TotalLength(chunks[..i + 1])
  {
    if |chunks| > 0 {
      var c := Grow(cap, loaded, |chunks[0]|);
      var l := loaded + |chunks[0]|;
      ReportsShape(c, l, chunks[1..]);
      var rs := Reports(cap, loaded, chunks);
      forall i | 0 <= i < |chunks|
        ensures rs[i].InUnitInterval() && rs[i].num == loaded + TotalLength(chunks[..i + 1])
      {
        TotalLengthFront(chunks, i + 1);
        assert chunks[1..][..i] == chunks[1..i + 1];
      }
    }
  }

  /** The progress is not monotone: with `Content-Length: 8` and chunks of 8
      and 1 bytes, the first report is 8/8 and the buffer then grows to 10,
      so the second report is 9/10. */
  lemma ProgressCanDecrease()
    ensures var rs := Reports(8, 0, [Zeros(8), Zeros(1)]);
            |rs| == 2 && rs[0] == Fraction(8, 8) && rs[1] == Fraction(9, 10) && !rs[0].AtMost(rs[1])
  {
    var chunks := [Zeros(8), Zeros(1)];
    assert chunks[1..] == [Zeros(1)];
  }

  /** A declared length that under-reports: with `Content-Length: 2` and
      chunks of 3 and 4 bytes, the capacity becomes 3 and then 7 (each time
      the chunk, not the 1.25 factor, decides), and the reports are 3/3 and
      7/7. */
  lemma UnderReportedLength()
    ensures Reports(2, 0, [Zeros(3), Zeros(4)]) == [Fraction(3, 3), Fraction(7, 7)]
  {
    var chunks := [Zeros(3), Zeros(4)];
    assert chunks[1..] == [Zeros(4)];
  }
}
