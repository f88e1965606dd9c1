/** The chunked download of `caching.js`: the body is streamed into a
    `Uint8Array` of exactly the declared `Content-Length`, which never grows
    and is never cut. Bytes past the received ones stay zero; a chunk that
    does not fit makes `set` throw. */
module FixedDownload {
  import opened Common
  import opened Http

  /** The progress values for the remaining `chunks` when `loaded` bytes have
      arrived out of a declared `total`. */
  function Reports(total: nat, loaded: nat, chunks: seq<seq<byte>>): (r: seq<Fraction>)
    decreases |chunks|
    ensures |r| == |chunks|
    ensures forall i :: 0 <= i < |r| ==> r[i].den == total && r[i].num >= loaded
  {
    if |chunks| == 0 then []
    else [Fraction(loaded + |chunks[0]|, total)] + Reports(total, loaded + |chunks[0]|, chunks[1..])
  }

  /** How many leading chunks fit into `room` bytes; the chunk after them,
      if any, is the one whose `set` throws. */
  function FitCount(room: nat, chunks: seq<seq<byte>>): (k: nat)
    decreases |chunks|
    ensures k <= |chunks|
    ensures TotalLength(chunks[..k]) <= room
    ensures k < |chunks| ==> TotalLength(chunks[..k + 1]) > room
  {
    if |chunks| == 0 || |chunks[0]| > room then 0
    else
      var k := 1 + FitCount(room - |chunks[0]|, chunks[1..]);
      assert chunks[1..][..k - 1] == chunks[1..k];
      assert k < |chunks| ==> chunks[1..][..k] == chunks[1..k + 1];
      TotalLengthFrontAll(chunks);
      k
  }

  /** `buffer.set(value, offset)`; the caller has checked that it fits. */
  method CopyAt(buffer: array<byte>, offset: nat, value: seq<byte>)
    requires offset + |value| <= buffer.Length
    modifies buffer
    ensures buffer[..offset + |value|] == old(buffer[..offset]) + value
    ensures buffer[offset + |value|..] == old(buffer[offset + |value|..])
  {
    forall k | 0 <= k < |value| {
      buffer[offset + k] := value[k];
    }
    assert buffer[..offset + |value|] == old(buffer[..offset]) + value;
  }

  /** `buffer.set(value, offset)` into the zero-filled part of the buffer:
      the received bytes grow by `value`, the rest stays zero. */
  method Place(buffer: array<byte>, offset: nat, value: seq<byte>, ghost received: seq<byte>)
    requires |received| == offset && offset + |value| <= buffer.Length
    requires buffer[..] == received + Zeros(buffer.Length - offset)
    modifies buffer
    ensures buffer[..] == (received + value) + Zeros(buffer.Length - offset - |value|)
  {
    assert buffer[..offset] == received;
    assert buffer[offset + |value|..] == Zeros(buffer.Length - offset)[|value|..];
    ZerosDrop(buffer.Length - offset, |value|);
    CopyAt(buffer, offset, value);
    assert buffer[..] == buffer[..offset + |value|] + buffer[offset + |value|..];
  }

  /** The chunked path with a buffer of exactly `n` bytes. */
  method Stream(n: nat, body: seq<seq<byte>>, hasCallback: bool)
    returns (r: Result<seq<byte>, DownloadError>, reports: seq<Fraction>)
    requires n > 0
    ensures TotalLength(body) <= n ==> r == Ok(Flatten(body) + Zeros(n - TotalLength(body)))
    ensures TotalLength(body) > n ==> r == Err(RangeError)
    ensures reports == if hasCallback then Reports(n, 0, body[..FitCount(n, body)]) else []
  {
    var buffer := new byte[n](_ => 0);
    var offset: nat := 0;
    var loadedSize: nat := 0;
    var i := 0;
    ghost var fit := FitCount(n, body);
    reports := [];
    assert buffer[..] == Flatten(body[..0]) + Zeros(n);
    while i < |body|
      invariant 0 <= i <= fit
      invariant offset == loadedSize == TotalLength(body[..i]) <= n
      invariant buffer.Length == n
      invariant buffer[..] == Flatten(body[..i]) + Zeros(n - offset)
      invariant reports == if hasCallback then Reports(n, 0, body[..i]) else []
    {
      var value := body[i];
      NextChunk(n, body, i);
      if offset + |value| > buffer.Length {
        // `set` past the end throws before the callback runs
        return Err(RangeError), reports;
      }
      offset, reports := Receive(buffer, body, i, offset, hasCallback, reports);
      loadedSize := loadedSize + |value|;
      i := i + 1;
    }
    assert body[..i] == body;
    r := Ok(buffer[..]);
  }

  /** One chunk that fits: `buffer.set(value, offset)`, the offset and
      the count advanced, and the progress reported. */
  method Receive(buffer: array<byte>, body: seq<seq<byte>>, i: nat, offset: nat, hasCallback: bool, reports: seq<Fraction>)
    returns (next: nat, nextReports: seq<Fraction>)
    requires i < |body| && offset == TotalLength(body[..i]) && offset + |body[i]| <= buffer.Length
    requires buffer[..] == Flatten(body[..i]) + Zeros(buffer.Length - offset)
    requires reports == if hasCallback then Reports(buffer.Length, 0, body[..i]) else []
    modifies buffer
    ensures next == offset + |body[i]| == TotalLength(body[..i + 1])
    ensures buffer[..] == Flatten(body[..i + 1]) + Zeros(buffer.Length - next)
    ensures nextReports == if hasCallback then Reports(buffer.Length, 0, body[..i + 1]) else []
  {
    Advance(body, i);
    Place(buffer, offset, body[i], Flatten(body[..i]));
    next := offset + |body[i]|;
    nextReports := Notify(buffer.Length, body, i, hasCallback, next, reports);
  }

  /** `onProgress(loadedSize / contentLength)` after chunk `i`, when a
      callback was given: the reports so far grow by one. */
  method Notify(n: nat, body: seq<seq<byte>>, i: nat, hasCallback: bool, loadedSize: nat, reports: seq<Fraction>)
    returns (next: seq<Fraction>)
    requires i < |body| && loadedSize == TotalLength(body[..i + 1])
    requires reports == if hasCallback then Reports(n, 0, body[..i]) else []
    ensures next == if hasCallback then Reports(n, 0, body[..i + 1]) else []
  {
    AdvanceReports(n, body, i);
    next := reports;
    if hasCallback {
      next := reports + [Fraction(loadedSize, n)];
    }
  }

  /** Within the fitting prefix, chunk `i` either fits too, or it is the
      chunk after the prefix and the body is longer than the buffer. */
  lemma NextChunk(n: nat, body: seq<seq<byte>>, i: nat)
    requires i < |body| && i <= FitCount(n, body)
    ensures TotalLength(body[..i]) + |body[i]| <= n ==> i + 1 <= FitCount(n, body)
    ensures TotalLength(body[..i]) + |body[i]| > n ==> i == FitCount(n, body) && TotalLength(body) > n
  {
    Advance(body, i);
    var fit := FitCount(n, body);
    if TotalLength(body[..i + 1]) > n {
      if i < fit {
        TotalLengthMonotone(body, i + 1, fit);
      }
      TotalLengthMonotone(body, i + 1, |body|);
      assert body[..|body|] == body;
    }
  }

  lemma ZerosDrop(m: nat, k: nat)
    requires k <= m
    ensures Zeros(m)[k..] == Zeros(m - k)
  {
  }

  /** Receiving chunk `i` extends the byte count, the bytes and the
      reports by that chunk. */
  lemma Advance(body: seq<seq<byte>>, i: nat)
    requires i < |body|
    ensures TotalLength(body[..i + 1]) == TotalLength(body[..i]) + |body[i]|
    ensures Flatten(body[..i + 1]) == Flatten(body[..i]) + body[i]
  {
    assert body[..i + 1] == body[..i] + [body[i]];
    FlattenSnoc(body[..i], body[i]);
  }

  /** The progress reports after chunk `i` extend those before it by one. */
  lemma AdvanceReports(total: nat, body: seq<seq<byte>>, i: nat)
    requires i < |body|
    ensures Reports(total, 0, body[..i + 1])
         == Reports(total, 0, body[..i]) + [Fraction(TotalLength(body[..i + 1]), total)]
  {
    assert body[..i + 1] == body[..i] + [body[i]];
    ReportsSnoc(total, 0, body[..i], body[i]);
    FlattenSnoc(body[..i], body[i]);
  }

  /** One more chunk adds one report: everything received over the total. */
  lemma {:induction false} ReportsSnoc(total: nat, loaded: nat, chunks: seq<seq<byte>>, c: seq<byte>)
    decreases |chunks|
    ensures Reports(total, loaded, chunks + [c])
         == Reports(total, loaded, chunks) + [Fraction(loaded + TotalLength(chunks) + |c|, total)]
  {
    if |chunks| > 0 {
      assert (chunks + [c])[1..] == chunks[1..] + [c];
      ReportsSnoc(total, loaded + |chunks[0]|, chunks[1..], c);
      TotalLengthFront(chunks, |chunks|);
      assert chunks[..|chunks|] == chunks && chunks[1..|chunks|] == chunks[1..];
    } else {
      assert ([] + [c])[1..] == [];
    }
  }

  /** `downloadFileWithChunking` with the fixed-size buffer. */
  method Download(fetch: Fetch, hasCallback: bool)
    returns (r: Result<seq<byte>, DownloadError>, reports: seq<Fraction>)
    ensures fetch.NetworkFailure? ==> r == Err(NetworkError) && reports == []
    ensures fetch.Fetched? && DeclaredSize(fetch.contentLength).None? ==>
              r == Ok(Flatten(fetch.body)) && reports == []
    ensures fetch.Fetched? && DeclaredSize(fetch.contentLength).Some? && DeclaredSize(fetch.contentLength).value < 0 ==>
              r == Err(RangeError) && reports == []
    ensures fetch.Fetched? && DeclaredSize(fetch.contentLength).Some? && DeclaredSize(fetch.contentLength).value > 0 ==>
              var n := DeclaredSize(fetch.contentLength).value;
              && (TotalLength(fetch.body) <= n ==> r == Ok(Flatten(fetch.body) + Zeros(n - TotalLength(fetch.body))))
              && (TotalLength(fetch.body) > n ==> r == Err(RangeError))
              && reports == (if hasCallback then Reports(n, 0, fetch.body[..FitCount(n, fetch.body)]) else [])
  {
    if fetch.NetworkFailure? {
      return Err(NetworkError), [];
    }
    var totalSize := DeclaredSize(fetch.contentLength);
    if totalSize.None? {
      // the whole body through `response.arrayBuffer()`, no progress calls
      return Ok(Flatten(fetch.body)), [];
    }
    if totalSize.value < 0 {
      return Err(RangeError), [];
    }
    var n: nat := totalSize.value;
    r, reports := Stream(n, fetch.body, hasCallback);
  }

  /** Each report is the number of bytes received so far over the declared
      total; it is 1 exactly when the two agree. */
  lemma {:induction false} ReportsShape(total: nat, loaded: nat, chunks: seq<seq<byte>>)
    decreases |chunks|
    ensures |Reports(total, loaded, chunks)| == |chunks|
    ensures forall i :: 0 <= i < |chunks| ==>
              && Reports(total, loaded, chunks)[i].den == total
              && Reports(total, loaded, chunks)[i].num == loaded + TotalLength(chunks[..i + 1])
              && (0 < total ==> (Reports(total, loaded, chunks)[i].IsOne() <==> loaded + TotalLength(chunks[..i + 1]) == total))
  {
    if |chunks| > 0 {
      ReportsShape(total, loaded + |chunks[0]|, chunks[1..]);
      var rs := Reports(total, loaded, chunks);
      forall i | 0 <= i < |chunks|
        ensures rs[i].num == loaded + TotalLength(chunks[..i + 1])
      {
        TotalLengthFront(chunks, i + 1);
        assert chunks[1..][..i] == chunks[1..i + 1];
      }
    }
  }

  /** Over one download the reported progress never decreases and stays
      within [0, 1]: the chunk that overflows the buffer throws before it is
      reported. */
  lemma DownloadProgress(n: nat, body: seq<seq<byte>>)
    requires n > 0
    ensures var rs := Reports(n, 0, body[..FitCount(n, body)]);
            && (forall i :: 0 <= i < |rs| ==> rs[i].InUnitInterval())
            && (forall i, j :: 0 <= i <= j < |rs| ==> rs[i].AtMost(rs[j]))
  {
    var k := FitCount(n, body);
    var chunks := body[..k];
    ReportsShape(n, 0, chunks);
    var rs := Reports(n, 0, chunks);
    forall i | 0 <= i < |rs|
      ensures rs[i].InUnitInterval()
    {
      TotalLengthMonotone(chunks, i + 1, k);
      assert chunks[..k] == chunks;
    }
    forall i, j | 0 <= i <= j < |rs|
      ensures rs[i].AtMost(rs[j])
    {
      TotalLengthMonotone(chunks, i + 1, j + 1);
      SameDenominator(rs[i], rs[j]);
    }
  }

  lemma SameDenominator(a: Fraction, b: Fraction)
    requires a.den == b.den && 0 <= a.num <= b.num
    ensures a.AtMost(b)
  {
    MulMonotone(a.den, a.num, b.num);
  }

  /** Five 2 MiB chunks against `Content-Length: 10485760` report 1/5, 2/5,
      3/5, 4/5 and 5/5, in that order, and fill the buffer exactly. */
  lemma FiveEqualChunks()
    ensures var c := Zeros(2097152);
            var body := [c, c, c, c, c];
            var rs := Reports(10485760, 0, body);
            && TotalLength(body) == 10485760
            && |rs| == 5
            && (forall k :: 0 <= k < 5 ==> rs[k].num * 5 == rs[k].den * (k + 1))
  {
    var c := Zeros(2097152);
    var body := [c, c, c, c, c];
    assert body[..5] == body;
    assert body[..5][..4] == body[..4] && body[..4][..3] == body[..3];
    assert body[..3][..2] == body[..2] && body[..2][..1] == body[..1] && body[..1][..0] == [];
    assert TotalLength(body[..1]) == 2097152;
    assert TotalLength(body[..2]) == 4194304;
    assert TotalLength(body[..3]) == 6291456;
    assert TotalLength(body[..4]) == 8388608;
    assert TotalLength(body[..5]) == 10485760;
    ReportsShape(10485760, 0, body);
  }
}
