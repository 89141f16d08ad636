/**
 * CustomYouTube.DownloadAsync: the chunked range downloader.
 *
 * The network is replaced by a server function from the requested byte range
 * to a response (its status code and the successive buffers its body yields
 * to ReadAsync). The destination file is an OutputStream over the bytes the
 * file held before. Progress reports are collected in order.
 */
module RangeDownload {
  import opened Wrappers

  newtype byte = x: int | 0 <= x < 256

  /** Bytes per range request (CustomYouTubeClient.cs:23). */
  const CHUNK_SIZE: int := 10_485_760
  /** Size of the copy buffer, the most one ReadAsync returns. */
  const BUFFER_SIZE: int := 81_920

  /** An inclusive byte range `bytes=from-to`, as in an HTTP Range header. */
  datatype ByteRange = ByteRange(from: int, to: int)

  predicate InRange(b: int, r: ByteRange) {
    r.from <= b <= r.to
  }

  /**
   * A response: its status code, the non-empty buffers its body yields, and whether
   * the connection then breaks, so that the next ReadAsync throws instead of returning
   * zero bytes. A SendAsync that throws is a broken response with an empty body.
   */
  datatype Response = Response(status: int, body: seq<seq<byte>>, broken: bool)

  /** What Stream.ReadAsync promises: every read before the end returns between 1 and BUFFER_SIZE bytes. */
  predicate WellFormedBody(body: seq<seq<byte>>) {
    forall k :: 0 <= k < |body| ==> 0 < |body[k]| <= BUFFER_SIZE
  }

  /** One progress report: (totalBytesCopied, file_size). */
  datatype Report = Report(copied: int, size: int)

  /**
   * How DownloadAsync ends. Interrupted is the exception of a broken connection, with
   * what was requested, reported and written to the already opened file until then.
   */
  datatype DownloadOutcome =
    | NoContent   // "File has no any content!", thrown before the file is opened or any range requested
    | Completed(requests: seq<ByteRange>, reports: seq<Report>, totalBytesCopied: int, file: seq<byte>)
    | Interrupted(requests: seq<ByteRange>, reports: seq<Report>, totalBytesCopied: int, file: seq<byte>)

  // ---------------------------------------------------------------- HTTP status

  predicate IsSuccessStatusCode(status: int) {
    200 <= status <= 299
  }

  /** HttpResponseMessage.EnsureSuccessStatusCode: fails exactly on a non-success status. */
  function EnsureSuccessStatusCode(status: int): (r: Result<(), int>)
    ensures r.Failure? <==> !IsSuccessStatusCode(status)
  {
    if IsSuccessStatusCode(status) then Success(()) else Failure(status)
  }

  /** The guard of CustomYouTubeClient.cs:52-53, which only ensures success when the status already is one. */
  function StatusGuard(status: int): (r: Result<(), int>)
    ensures r.Success?
  {
    if IsSuccessStatusCode(status) then EnsureSuccessStatusCode(status) else Success(())
  }

  // ---------------------------------------------------------------- segments

  /** Math.Ceiling(file_size / CHUNK_SIZE) as integer ceiling division. */
  function SegmentCount(fileSize: int): (n: int)
    requires fileSize > 0
    ensures n >= 1
    ensures (n - 1) * CHUNK_SIZE < fileSize <= n * CHUNK_SIZE
  {
    (fileSize + CHUNK_SIZE - 1) / CHUNK_SIZE
  }

  /** The range requested for segment `i`; the last one is not clamped to the file size. */
  function SegmentRange(i: int): ByteRange {
    ByteRange(i * CHUNK_SIZE, (i + 1) * CHUNK_SIZE - 1)
  }

  /** The range requests of the first `n` segments, in the order they are sent. */
  function Requests(n: nat): (r: seq<ByteRange>)
    ensures |r| == n
    ensures forall i :: 0 <= i < n ==> r[i] == SegmentRange(i)
  {
    if n == 0 then [] else Requests(n - 1) + [SegmentRange(n - 1)]
  }

  // ---------------------------------------------------------------- reads, bytes, reports

  /** The k-th ReadAsync on a response body: the next buffer, or zero bytes at the end. */
  function ReadAt(body: seq<seq<byte>>, k: nat): seq<byte> {
    if k < |body| then body[k] else []
  }

  /** The buffers the do-while loop reads from one response: its body, then a zero-length read unless the connection breaks. */
  function SegmentReads(r: Response): seq<seq<byte>> {
    if r.broken then r.body else r.body + [[]]
  }

  /** Every buffer the do-while loop reads from the first `n` segments, including each zero-length read. */
  function Reads(server: ByteRange -> Response, n: nat): seq<seq<byte>> {
    if n == 0 then [] else Reads(server, n - 1) + SegmentReads(server(SegmentRange(n - 1)))
  }

  /** How many of the first `n` segments come before the first broken connection. */
  function Intact(server: ByteRange -> Response, n: nat): (m: nat)
    ensures m <= n
    ensures forall j :: 0 <= j < m ==> !server(SegmentRange(j)).broken
    ensures m < n ==> server(SegmentRange(m)).broken
  {
    if n == 0 then 0
    else
      var m := Intact(server, n - 1);
      if m < n - 1 || server(SegmentRange(n - 1)).broken then m else n
  }

  /** The buffers written one after another. */
  function Concat(bufs: seq<seq<byte>>): seq<byte> {
    if bufs == [] then [] else Concat(bufs[..|bufs| - 1]) + bufs[|bufs| - 1]
  }

  /** The sum of the read lengths. */
  function TotalLength(bufs: seq<seq<byte>>): nat {
    if bufs == [] then 0 else TotalLength(bufs[..|bufs| - 1]) + |bufs[|bufs| - 1]|
  }

  /** One report after each read, carrying the running byte count. */
  function Reports(bufs: seq<seq<byte>>, size: int): seq<Report> {
    if bufs == [] then [] else Reports(bufs[..|bufs| - 1], size) + [Report(|Concat(bufs)|, size)]
  }

  /** Stream.Write at `pos`: overwrites from `pos`, extends the file when needed, keeps what lies beyond. */
  function Overwrite(existing: seq<byte>, pos: nat, buf: seq<byte>): (r: seq<byte>)
    requires pos <= |existing|
    ensures |r| == if pos + |buf| > |existing| then pos + |buf| else |existing|
    ensures r[..pos] == existing[..pos] && r[pos..pos + |buf|] == buf
    ensures forall k :: pos + |buf| <= k < |existing| ==> r[k] == existing[k]
  {
    existing[..pos] + buf + (if pos + |buf| < |existing| then existing[pos + |buf|..] else [])
  }

  lemma OverwriteAppend(existing: seq<byte>, a: seq<byte>, b: seq<byte>)
    requires |a| <= |Overwrite(existing, 0, a)|
    ensures Overwrite(Overwrite(existing, 0, a), |a|, b) == Overwrite(existing, 0, a + b)
  {
    var lhs := Overwrite(Overwrite(existing, 0, a), |a|, b);
    var rhs := Overwrite(existing, 0, a + b);
    assert |lhs| == |rhs|;
    forall k | 0 <= k < |lhs| ensures lhs[k] == rhs[k] {
      if k < |a| {
        assert lhs[..|a|][k] == lhs[k];
        assert rhs[..|a + b|][k] == rhs[k];
      } else if k < |a| + |b| {
        assert lhs[|a|..|a| + |b|][k - |a|] == lhs[k];
        assert rhs[..|a + b|][k] == rhs[k];
      }
    }
  }

  lemma ConcatSnoc(bufs: seq<seq<byte>>, b: seq<byte>)
    ensures Concat(bufs + [b]) == Concat(bufs) + b
  {
    assert (bufs + [b])[..|bufs|] == bufs;
  }

  lemma ReportsSnoc(bufs: seq<seq<byte>>, b: seq<byte>, size: int)
    ensures Reports(bufs + [b], size) == Reports(bufs, size) + [Report(|Concat(bufs)| + |b|, size)]
  {
    assert (bufs + [b])[..|bufs|] == bufs;
    ConcatSnoc(bufs, b);
  }

  // ---------------------------------------------------------------- specification

  /** Some range of a nonzero-length download meets a broken connection. */
  predicate Breaks(contentLength: Option<nat>, server: ByteRange -> Response) {
    var fileSize := contentLength.GetOr(0);
    fileSize > 0 && Intact(server, SegmentCount(fileSize)) < SegmentCount(fileSize)
  }

  /**
   * What DownloadAsync does, given the content length the HEAD request reported: the
   * segments are requested in turn up to the first broken connection, if any.
   */
  function Downloaded(contentLength: Option<nat>, server: ByteRange -> Response, existing: seq<byte>): (o: DownloadOutcome)
    ensures o.NoContent? <==> contentLength.GetOr(0) == 0
    ensures o.Interrupted? <==> Breaks(contentLength, server)
  {
    var fileSize := contentLength.GetOr(0);
    if fileSize == 0 then NoContent
    else
      var n := SegmentCount(fileSize);
      var m := Intact(server, n);
      var tried := if m < n then m + 1 else n;
      var done := Reads(server, tried);
      if m < n then Interrupted(Requests(tried), Reports(done, fileSize), |Concat(done)|, Overwrite(existing, 0, Concat(done)))
      else Completed(Requests(tried), Reports(done, fileSize), |Concat(done)|, Overwrite(existing, 0, Concat(done)))
  }

  // ---------------------------------------------------------------- properties of the specification

  /** Every byte offset lies in the range of exactly one segment, segment `b / CHUNK_SIZE`. */
  lemma SegmentOfOffset(b: int, i: int)
    requires 0 <= b && 0 <= i
    ensures InRange(b, SegmentRange(i)) <==> i == b / CHUNK_SIZE
  {
    var q := b / CHUNK_SIZE;
    assert q * CHUNK_SIZE <= b < (q + 1) * CHUNK_SIZE;
    if i < q {
      assert (i + 1) * CHUNK_SIZE <= q * CHUNK_SIZE;
    } else if i > q {
      assert i * CHUNK_SIZE >= (q + 1) * CHUNK_SIZE;
    }
  }

  /** The requested ranges cover every byte of the file, each byte exactly once. */
  lemma RequestsCoverFile(fileSize: int, b: int)
    requires fileSize > 0 && 0 <= b < fileSize
    ensures var rs := Requests(SegmentCount(fileSize));
      && 0 <= b / CHUNK_SIZE < |rs|
      && forall i :: 0 <= i < |rs| ==> (InRange(b, rs[i]) <==> i == b / CHUNK_SIZE)
  {
    var n := SegmentCount(fileSize);
    var q := b / CHUNK_SIZE;
    assert q * CHUNK_SIZE <= b;
    forall i | 0 <= i < n
      ensures InRange(b, Requests(n)[i]) <==> i == q
    {
      SegmentOfOffset(b, i);
    }
  }

  /**
   * The ranges start at 0, are contiguous and CHUNK_SIZE long, and the last one
   * ends at segmentCount * CHUNK_SIZE - 1: at or past the last byte of the file,
   * and exactly on it only when the size is a multiple of CHUNK_SIZE.
   */
  lemma RequestsTile(fileSize: int)
    requires fileSize > 0
    ensures var rs := Requests(SegmentCount(fileSize));
      && rs[0].from == 0
      && (forall i :: 0 <= i < |rs| ==> rs[i].to - rs[i].from + 1 == CHUNK_SIZE)
      && (forall i :: 0 <= i < |rs| - 1 ==> rs[i + 1].from == rs[i].to + 1)
      && rs[|rs| - 1].to == |rs| * CHUNK_SIZE - 1 >= fileSize - 1
      && (rs[|rs| - 1].to == fileSize - 1 <==> fileSize % CHUNK_SIZE == 0)
  {
    var n := SegmentCount(fileSize);
    var rs := Requests(n);
    assert rs[n - 1] == SegmentRange(n - 1);
    if fileSize % CHUNK_SIZE == 0 {
      var q := fileSize / CHUNK_SIZE;
      assert q * CHUNK_SIZE == fileSize;
    }
  }

  /** A one-byte file is still requested as a whole 10 MiB range. */
  lemma LastRangeNotClamped()
    ensures Requests(SegmentCount(1)) == [ByteRange(0, CHUNK_SIZE - 1)]
  {
    assert SegmentCount(1) == 1;
  }

  /** The bytes copied are the sum of the read lengths. */
  lemma {:induction false} ConcatLength(bufs: seq<seq<byte>>)
    ensures |Concat(bufs)| == TotalLength(bufs)
    decreases |bufs|
  {
    if bufs != [] {
      ConcatLength(bufs[..|bufs| - 1]);
    }
  }

  /** Report `j` carries (the sum of the first j+1 read lengths, the file size). */
  lemma {:induction false} ReportsRunningTotal(bufs: seq<seq<byte>>, size: int)
    ensures |Reports(bufs, size)| == |bufs|
    ensures forall j :: 0 <= j < |bufs| ==> Reports(bufs, size)[j] == Report(TotalLength(bufs[..j + 1]), size)
    decreases |bufs|
  {
    if bufs != [] {
      var init := bufs[..|bufs| - 1];
      ReportsRunningTotal(init, size);
      forall j | 0 <= j < |bufs|
        ensures Reports(bufs, size)[j] == Report(TotalLength(bufs[..j + 1]), size)
      {
        if j < |bufs| - 1 {
          assert init[..j + 1] == bufs[..j + 1];
        } else {
          assert bufs[..j + 1] == bufs;
          ConcatLength(bufs);
        }
      }
    }
  }

  lemma {:induction false} TotalLengthGrows(bufs: seq<seq<byte>>, j: nat, k: nat)
    requires j <= k <= |bufs|
    ensures TotalLength(bufs[..j]) <= TotalLength(bufs[..k])
    decreases k - j
  {
    if j < k {
      TotalLengthGrows(bufs, j, k - 1);
      assert bufs[..k][..k - 1] == bufs[..k - 1];
    }
  }

  /**
   * The reported totals never decrease, every report carries the file size, and
   * a zero-length read repeats the previous total.
   */
  lemma ReportsMonotone(bufs: seq<seq<byte>>, size: int)
    ensures var rs := Reports(bufs, size);
      && |rs| == |bufs|
      && (forall j :: 0 <= j < |rs| ==> rs[j].size == size)
      && (forall j, k :: 0 <= j <= k < |rs| ==> rs[j].copied <= rs[k].copied)
      && (forall j :: 0 < j < |rs| && bufs[j] == [] ==> rs[j].copied == rs[j - 1].copied)
  {
    ReportsRunningTotal(bufs, size);
    var rs := Reports(bufs, size);
    forall j, k | 0 <= j <= k < |rs|
      ensures rs[j].copied <= rs[k].copied
    {
      TotalLengthGrows(bufs, j + 1, k + 1);
    }
    forall j | 0 < j < |rs| && bufs[j] == []
      ensures rs[j].copied == rs[j - 1].copied
    {
      assert bufs[..j + 1][..j] == bufs[..j];
    }
  }

  /** The number of zero-length reads. */
  function EmptyReads(bufs: seq<seq<byte>>): nat {
    if bufs == [] then 0 else EmptyReads(bufs[..|bufs| - 1]) + (if bufs[|bufs| - 1] == [] then 1 else 0)
  }

  lemma {:induction false} EmptyReadsAppend(a: seq<seq<byte>>, b: seq<seq<byte>>)
    ensures EmptyReads(a + b) == EmptyReads(a) + EmptyReads(b)
    decreases |b|
  {
    if b == [] {
      assert a + b == a;
    } else {
      var b' := b[..|b| - 1];
      EmptyReadsAppend(a, b');
      assert (a + b)[..|a + b| - 1] == a + b';
    }
  }

  lemma {:induction false} NoEmptyRead(body: seq<seq<byte>>)
    requires WellFormedBody(body)
    ensures EmptyReads(body) == 0
    decreases |body|
  {
    if body != [] {
      NoEmptyRead(body[..|body| - 1]);
    }
  }

  /** The number of broken connections among the first `n` segments. */
  function BrokenCount(server: ByteRange -> Response, n: nat): nat {
    if n == 0 then 0 else BrokenCount(server, n - 1) + (if server(SegmentRange(n - 1)).broken then 1 else 0)
  }

  /**
   * Each segment read to its end ends with exactly one zero-length read, a broken one
   * with none; the last read of all is zero-length when the last segment is intact.
   */
  lemma {:induction false} OneEmptyReadPerSegment(server: ByteRange -> Response, n: nat)
    requires forall r :: WellFormedBody(server(r).body)
    ensures EmptyReads(Reads(server, n)) + BrokenCount(server, n) == n
    ensures n > 0 && !server(SegmentRange(n - 1)).broken ==> Reads(server, n)[|Reads(server, n)| - 1] == []
  {
    if n > 0 {
      var response := server(SegmentRange(n - 1));
      var before, seg := Reads(server, n - 1), SegmentReads(response);
      OneEmptyReadPerSegment(server, n - 1);
      EmptyReadsAppend(before, seg);
      NoEmptyRead(response.body);
      if !response.broken {
        EmptyReadsAppend(response.body, [[]]);
        assert EmptyReads([[]]) == 1 by {
          var one: seq<seq<byte>> := [[]];
          assert one[..0] == [];
        }
        assert Reads(server, n)[|Reads(server, n)| - 1] == seg[|seg| - 1] == [];
      }
    }
  }

  lemma {:induction false} ReadsIgnoreStatus(s1: ByteRange -> Response, s2: ByteRange -> Response, n: nat)
    requires forall r :: s1(r).body == s2(r).body && s1(r).broken == s2(r).broken
    ensures Reads(s1, n) == Reads(s2, n) && Intact(s1, n) == Intact(s2, n)
  {
    if n > 0 {
      ReadsIgnoreStatus(s1, s2, n - 1);
      assert s1(SegmentRange(n - 1)).body == s2(SegmentRange(n - 1)).body;
      assert s1(SegmentRange(n - 1)).broken == s2(SegmentRange(n - 1)).broken;
    }
  }

  /** The outcome depends on the bodies and broken connections only: no status code makes a difference. */
  lemma StatusIgnored(contentLength: Option<nat>, s1: ByteRange -> Response, s2: ByteRange -> Response, existing: seq<byte>)
    requires forall r :: s1(r).body == s2(r).body && s1(r).broken == s2(r).broken
    ensures Downloaded(contentLength, s1, existing) == Downloaded(contentLength, s2, existing)
  {
    if contentLength.GetOr(0) != 0 {
      var n := SegmentCount(contentLength.GetOr(0));
      ReadsIgnoreStatus(s1, s2, n);
      if Intact(s1, n) < n {
        ReadsIgnoreStatus(s1, s2, Intact(s1, n) + 1);
      }
    }
  }

  /** The ranges requested do not depend on what the file held before it was opened. */
  lemma RequestsIgnoreExisting(contentLength: Option<nat>, server: ByteRange -> Response, e1: seq<byte>, e2: seq<byte>)
    ensures Downloaded(contentLength, server, e1).NoContent? || Downloaded(contentLength, server, e1).requests == Downloaded(contentLength, server, e2).requests
  {
  }

  /**
   * The first totalBytesCopied bytes of the file are the bytes read, in order;
   * bytes of a longer earlier file beyond them are left in place.
   */
  lemma FileHoldsReadBytes(contentLength: Option<nat>, server: ByteRange -> Response, existing: seq<byte>)
    requires !Downloaded(contentLength, server, existing).NoContent?
    ensures var o := Downloaded(contentLength, server, existing);
      var bytes := Concat(Reads(server, |o.requests|));
      && o.totalBytesCopied == |bytes|
      && o.file[..o.totalBytesCopied] == bytes
      && (|existing| > o.totalBytesCopied ==> |o.file| == |existing| && o.file[o.totalBytesCopied..] == existing[o.totalBytesCopied..])
  {
    var o := Downloaded(contentLength, server, existing);
    if |existing| > o.totalBytesCopied {
      var t := o.totalBytesCopied;
      assert forall k :: 0 <= k < |existing| - t ==> o.file[t..][k] == o.file[t + k];
    }
  }

  /**
   * A broken connection interrupts the download at the first segment it breaks, after
   * the segments before it were requested and read to their ends; a download with no
   * broken connection requests every segment and completes.
   */
  lemma BrokenConnectionInterrupts(contentLength: Option<nat>, server: ByteRange -> Response, existing: seq<byte>)
    requires contentLength.GetOr(0) > 0
    ensures var o := Downloaded(contentLength, server, existing);
      var n := SegmentCount(contentLength.value);
      && (o.Interrupted? <==> exists j :: 0 <= j < n && server(SegmentRange(j)).broken)
      && (o.Completed? <==> !o.Interrupted?)
      && (o.Completed? ==> o.requests == Requests(n))
      && (o.Interrupted? ==> var k := |o.requests| - 1;
            && 0 <= k < n && o.requests == Requests(k + 1) && server(SegmentRange(k)).broken
            && forall j :: 0 <= j < k ==> !server(SegmentRange(j)).broken)
  {
    var n := SegmentCount(contentLength.value);
    var m := Intact(server, n);
    if exists j :: 0 <= j < n && server(SegmentRange(j)).broken {
      var j :| 0 <= j < n && server(SegmentRange(j)).broken;
      assert m <= j;
    }
  }

  /**
   * Neither the status nor the number of bytes received is checked: a server
   * answering every range with an empty body, whatever its status, completes a
   * 5-byte download with 0 bytes copied, and an earlier file keeps all its bytes.
   */
  lemma EmptyBodiesComplete(server: ByteRange -> Response, existing: seq<byte>)
    requires forall r :: server(r).body == [] && !server(r).broken
    ensures Downloaded(Some(5), server, existing)
         == Completed([ByteRange(0, CHUNK_SIZE - 1)], [Report(0, 5)], 0, existing)
  {
    var one: seq<seq<byte>> := [[]];
    assert one[..0] == [];
    assert SegmentCount(5) == 1;
    assert Reads(server, 1) == one by {
      assert server(SegmentRange(0)).body == [];
    }
    assert Concat(one) == [];
    assert Reports(one, 5) == [Report(0, 5)];
    assert Overwrite(existing, 0, []) == existing;
  }

  /** A body longer than the declared size is copied in full and the download still completes. */
  lemma OverLengthCompletes(server: ByteRange -> Response)
    requires forall r :: server(r).body == [[1, 2]] && !server(r).broken
    ensures Downloaded(Some(1), server, []) == Completed([ByteRange(0, CHUNK_SIZE - 1)], [Report(2, 1), Report(2, 1)], 2, [1, 2])
  {
    var got: seq<seq<byte>> := [[1, 2], []];
    assert SegmentCount(1) == 1;
    assert Reads(server, 1) == got by {
      assert server(SegmentRange(0)).body == [[1, 2]];
    }
    assert got[..1] == [[1, 2]];
    assert got[..1][..0] == [];
    assert Concat(got[..1]) == [1, 2];
    assert Concat(got) == [1, 2];
    assert Reports(got[..1], 1) == [Report(2, 1)];
  }

  // ---------------------------------------------------------------- the output stream

  /** The stream File.OpenWrite returns: the file's bytes and the write position. */
  class OutputStream {
    var content: seq<byte>
    var position: nat

    ghost predicate Valid()
      reads this
    {
      position <= |content|
    }

    /** File.OpenWrite: positioned at offset 0, prior content kept (no truncation). */
    constructor OpenWrite(existing: seq<byte>)
      ensures Valid() && content == existing && position == 0
    {
      content := existing;
      position := 0;
    }

    method Write(buf: seq<byte>)
      requires Valid()
      modifies this
      ensures Valid()
      ensures content == Overwrite(old(content), old(position), buf)
      ensures position == old(position) + |buf|
    {
      content := Overwrite(content, position, buf);
      position := position + |buf|;
    }
  }

  // ---------------------------------------------------------------- the method

  /** `output` holds `existing` overwritten from offset 0 by the buffers `done`, and is positioned after them. */
  ghost predicate Holds(output: OutputStream, existing: seq<byte>, done: seq<seq<byte>>, total: int)
    reads output
  {
    output.Valid() && output.position == total == |Concat(done)|
    && output.content == Overwrite(existing, 0, Concat(done))
  }

  /**
   * The do-while loop of one segment: read, write, count and report until a zero-length
   * read, or until the read after the body throws because the connection broke.
   */
  method CopyBody(output: OutputStream, response: Response, fileSize: int, existing: seq<byte>,
                  ghost done: seq<seq<byte>>, totalIn: int, reportsIn: seq<Report>)
    returns (totalBytesCopied: int, reports: seq<Report>)
    requires WellFormedBody(response.body)
    requires Holds(output, existing, done, totalIn) && reportsIn == Reports(done, fileSize)
    modifies output
    ensures Holds(output, existing, done + SegmentReads(response), totalBytesCopied)
    ensures reports == Reports(done + SegmentReads(response), fileSize)
  {
    var body := response.body;
    totalBytesCopied, reports := totalIn, reportsIn;
    ghost var copied := done;
    var k := 0;
    while true
      invariant 0 <= k <= |body|
      invariant copied == done + body[..k]
      invariant Holds(output, existing, copied, totalBytesCopied)
      invariant reports == Reports(copied, fileSize)
      decreases |body| - k
    {
      if k == |body| && response.broken {
        assert body[..k] == body;
        assert copied == done + SegmentReads(response);
        return;
      }
      var buffer := ReadAt(body, k);
      var bytesCopied := |buffer|;
      OverwriteAppend(existing, Concat(copied), buffer);
      ConcatSnoc(copied, buffer);
      ReportsSnoc(copied, buffer, fileSize);
      output.Write(buffer);
      totalBytesCopied := totalBytesCopied + bytesCopied;
      copied := copied + [buffer];
      reports := reports + [Report(totalBytesCopied, fileSize)];
      if bytesCopied == 0 {
        assert k == |body| && !response.broken;
        break;
      }
      assert body[..k + 1] == body[..k] + [buffer];
      k := k + 1;
    }
    assert body[..k] == body;
    assert copied == done + SegmentReads(response);
  }

  method DownloadAsync(contentLength: Option<nat>, server: ByteRange -> Response, existing: seq<byte>)
    returns (outcome: DownloadOutcome)
    requires forall r :: WellFormedBody(server(r).body)
    ensures outcome == Downloaded(contentLength, server, existing)
  {
    var totalBytesCopied := 0;
    var fileSize := contentLength.GetOr(0);
    if fileSize == 0 {
      return NoContent;
    }
    var output := new OutputStream.OpenWrite(existing);
    var segmentCount := SegmentCount(fileSize);
    var requests: seq<ByteRange> := [];
    var reports: seq<Report> := [];
    var i := 0;
    while i < segmentCount
      invariant 0 <= i <= segmentCount
      invariant requests == Requests(i)
      invariant Holds(output, existing, Reads(server, i), totalBytesCopied)
      invariant reports == Reports(Reads(server, i), fileSize)
      invariant forall j :: 0 <= j < i ==> !server(SegmentRange(j)).broken
    {
      var range := SegmentRange(i);
      requests := requests + [range];
      var response := server(range);
      var guard := StatusGuard(response.status);
      assert guard.Success?;  // so the body is copied whatever the status
      totalBytesCopied, reports := CopyBody(output, response, fileSize, existing, Reads(server, i), totalBytesCopied, reports);
      if response.broken {
        assert Intact(server, segmentCount) == i;
        return Interrupted(requests, reports, totalBytesCopied, output.content);
      }
      i := i + 1;
    }
    assert Intact(server, segmentCount) == segmentCount;
    outcome := Completed(requests, reports, totalBytesCopied, output.content);
  }
}
