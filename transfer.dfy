/**
 * What `DownloadFileWithProgress` shows on the progress bar while it copies a
 * response body to a file: after every read of at most 8192 bytes, and only
 * when the response announced its length, the integer percentage
 * `min(read * 100 / total, 100)` of the bytes read so far.
 */
module Transfer {

  /** The length of the read buffer, hence the most one read returns. */
  const BufferSize := 8192

  /** The content length the response reports, or -1 when it reports none. */
  predicate KnownLength(totalBytes: int) {
    totalBytes != -1
  }

  /** The successive results of `ReadAsync` before the one that returns 0. */
  predicate ValidChunks(chunks: seq<int>) {
    forall i :: 0 <= i < |chunks| ==> 0 < chunks[i] <= BufferSize
  }

  /**
   * What the response can deliver: a known length is never negative and the
   * body holds no more bytes than it announces.
   */
  predicate ValidTransfer(chunks: seq<int>, totalBytes: int) {
    ValidChunks(chunks) && totalBytes >= -1 && (totalBytes >= 0 ==> Sum(chunks) <= totalBytes)
  }

  /** `totalBytesRead` after the given reads. */
  function Sum(chunks: seq<int>): int {
    if chunks == [] then 0 else Sum(chunks[..|chunks| - 1]) + chunks[|chunks| - 1]
  }

  /** Reads are positive, so the count only grows and is positive once anything was read. */
  lemma {:induction false} SumBounds(chunks: seq<int>)
    requires ValidChunks(chunks)
    ensures 0 <= Sum(chunks) <= BufferSize * |chunks|
    ensures chunks != [] ==> Sum(chunks) >= chunks[|chunks| - 1] > 0
  {
    if chunks != [] {
      var init := chunks[..|chunks| - 1];
      assert ValidChunks(init) by {
        forall i | 0 <= i < |init| ensures 0 < init[i] <= BufferSize {
          assert init[i] == chunks[i];
        }
      }
      SumBounds(init);
    }
  }

  /** A longer prefix of the reads has read at least as much. */
  lemma {:induction false} SumPrefixMonotone(chunks: seq<int>, i: nat, j: nat)
    requires ValidChunks(chunks) && i <= j <= |chunks|
    ensures Sum(chunks[..i]) <= Sum(chunks[..j])
    decreases j
  {
    if i < j {
      assert chunks[..j][..j - 1] == chunks[..j - 1];
      assert chunks[..j][j - 1] == chunks[j - 1];
      SumPrefixMonotone(chunks, i, j - 1);
    }
  }

  /** `Math.Min((int)((totalBytesRead * 100) / totalBytes), 100)`; both operands are non-negative, so the division truncates as Dafny's does. */
  function Percent(read: int, total: int): (p: int)
    requires 0 <= read && 0 < total
    ensures 0 <= p <= 100
    ensures read >= total ==> p == 100
    ensures read < total ==> p == read * 100 / total
  {
    PercentOfWhole(read, total);
    if read * 100 / total < 100 then read * 100 / total else 100
  }

  lemma PercentOfWhole(read: int, total: int)
    requires 0 <= read && 0 < total
    ensures read >= total ==> read * 100 / total >= 100
    ensures read < total ==> read * 100 / total < 100
  {
    if read >= total {
      DivAtLeast(read * 100, total, 100);
    } else {
      DivBelow(read * 100, total, 100);
    }
  }

  /** Multiplying by a positive number keeps the order. */
  lemma MulMonotone(d: int, x: int, y: int)
    requires 0 < d && x <= y
    ensures d * x <= d * y
  {
    assert d * y - d * x == d * (y - x);
  }

  /** A dividend of at least `d * q` has a quotient of at least `q`. */
  lemma DivAtLeast(a: int, d: int, q: int)
    requires 0 < d && d * q <= a
    ensures a / d >= q
  {
    assert a == d * (a / d) + a % d;
    assert d * (q - 1) == d * q - d;
    if a / d < q {
      MulMonotone(d, a / d, q - 1);
    }
  }

  /** A non-negative dividend below `d * q` has a quotient below `q`. */
  lemma DivBelow(a: int, d: int, q: int)
    requires 0 < d && 0 <= a < d * q
    ensures a / d < q
  {
    assert a == d * (a / d) + a % d;
    if a / d >= q {
      MulMonotone(d, q, a / d);
    }
  }

  /** Integer division by a positive number is monotone. */
  lemma DivMonotone(a: int, b: int, d: int)
    requires 0 <= a <= b && 0 < d
    ensures a / d <= b / d
  {
    assert a == d * (a / d) + a % d;
    assert b == d * (b / d) + b % d;
    assert d * (b / d + 1) == d * (b / d) + d;
    if a / d > b / d {
      MulMonotone(d, b / d + 1, a / d);
    }
  }

  /** The percentage never falls while more bytes are read. */
  lemma PercentMonotone(a: int, b: int, total: int)
    requires 0 <= a <= b && 0 < total
    ensures Percent(a, total) <= Percent(b, total)
  {
    DivMonotone(a * 100, b * 100, total);
  }

  /**
   * The values written to the progress bar during the loop, one after each
   * read when the length is known and none otherwise.
   */
  function Reports(chunks: seq<int>, totalBytes: int): (r: seq<int>)
    requires ValidTransfer(chunks, totalBytes)
    ensures |r| == (if KnownLength(totalBytes) then |chunks| else 0)
  {
    if !KnownLength(totalBytes) || chunks == [] then []
    else
      var init := chunks[..|chunks| - 1];
      SumBounds(chunks);
      PrefixValid(chunks, |chunks| - 1, totalBytes);
      assert init == chunks[..|chunks| - 1];
      Reports(init, totalBytes) + [Percent(Sum(chunks), totalBytes)]
  }

  /** A prefix of a valid transfer is a valid transfer. */
  lemma PrefixValid(chunks: seq<int>, n: nat, totalBytes: int)
    requires ValidTransfer(chunks, totalBytes) && n <= |chunks|
    ensures ValidTransfer(chunks[..n], totalBytes)
  {
    assert chunks[..|chunks|] == chunks;
    SumPrefixMonotone(chunks, n, |chunks|);
  }

  /** The `i`-th value written is the percentage of the first `i + 1` reads. */
  lemma {:induction false} ReportAt(chunks: seq<int>, totalBytes: int, i: nat)
    requires ValidTransfer(chunks, totalBytes) && KnownLength(totalBytes) && i < |chunks|
    ensures Sum(chunks[..i + 1]) > 0 && totalBytes > 0
    ensures Reports(chunks, totalBytes)[i] == Percent(Sum(chunks[..i + 1]), totalBytes)
    decreases |chunks|
  {
    var n := |chunks|;
    var init := chunks[..n - 1];
    PrefixValid(chunks, i + 1, totalBytes);
    SumBounds(chunks[..i + 1]);
    PrefixValid(chunks, n - 1, totalBytes);
    if i < n - 1 {
      assert init[..i + 1] == chunks[..i + 1];
      ReportAt(init, totalBytes, i);
    } else {
      assert chunks[..i + 1] == chunks;
    }
  }

  /** Every value written to the bar lies between 0 and 100. */
  lemma ReportsBounded(chunks: seq<int>, totalBytes: int)
    requires ValidTransfer(chunks, totalBytes)
    ensures forall i :: 0 <= i < |Reports(chunks, totalBytes)| ==> 0 <= Reports(chunks, totalBytes)[i] <= 100
  {
    forall i | 0 <= i < |Reports(chunks, totalBytes)| ensures 0 <= Reports(chunks, totalBytes)[i] <= 100 {
      ReportAt(chunks, totalBytes, i);
    }
  }

  /** The bar never moves back while a file is copied. */
  lemma ReportsMonotone(chunks: seq<int>, totalBytes: int, i: nat, j: nat)
    requires ValidTransfer(chunks, totalBytes) && i <= j < |Reports(chunks, totalBytes)|
    ensures Reports(chunks, totalBytes)[i] <= Reports(chunks, totalBytes)[j]
  {
    ReportAt(chunks, totalBytes, i);
    ReportAt(chunks, totalBytes, j);
    SumPrefixMonotone(chunks, i + 1, j + 1);
    PercentMonotone(Sum(chunks[..i + 1]), Sum(chunks[..j + 1]), totalBytes);
  }

  /** Once the whole announced body has been read, the last value written is 100. */
  lemma ReportsReachFull(chunks: seq<int>, totalBytes: int)
    requires ValidTransfer(chunks, totalBytes) && KnownLength(totalBytes)
    requires chunks != [] && Sum(chunks) == totalBytes
    ensures Reports(chunks, totalBytes)[|chunks| - 1] == 100
  {
    ReportAt(chunks, totalBytes, |chunks| - 1);
    assert chunks[..|chunks|] == chunks;
  }

  /** Without a reported length nothing is written to the bar during the loop. */
  lemma UnknownLengthNoReports(chunks: seq<int>)
    requires ValidChunks(chunks)
    ensures Reports(chunks, -1) == []
  {
  }

  /** Before the whole body has arrived, the value is the truncated percentage, so below 100. */
  lemma ReportsBelowFull(chunks: seq<int>, totalBytes: int, i: nat)
    requires ValidTransfer(chunks, totalBytes) && KnownLength(totalBytes) && i < |chunks|
    requires 0 < totalBytes && Sum(chunks[..i + 1]) < totalBytes
    ensures Reports(chunks, totalBytes)[i] == Sum(chunks[..i + 1]) * 100 / totalBytes < 100
  {
    ReportAt(chunks, totalBytes, i);
  }
}
