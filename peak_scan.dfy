/** The peak reduction of read_audio.c: getMax, the running-maximum scan over an
    inclusive index range, and getPeakPointInChunk, which walks the spectrum and
    stores one scanned maximum each time its trigger condition fires. Samples are
    modelled as `real`, so there is no NaN and comparison is a total order. */
module PeakScan {

  /** The running maximum of a non-empty sequence, folded from the left and
      replaced only by a strictly larger element. */
  function SeqMax(s: seq<real>): (max: real)
    requires |s| > 0
  {
    if |s| == 1 then s[0]
    else
      var m := SeqMax(s[..|s| - 1]);
      if s[|s| - 1] > m then s[|s| - 1] else m
  }

  /** SeqMax is the maximum: no element exceeds it and some element equals it. */
  lemma {:induction false} SeqMaxIsMaximum(s: seq<real>)
    requires |s| > 0
    ensures forall k :: 0 <= k < |s| ==> s[k] <= SeqMax(s)
    ensures exists k :: 0 <= k < |s| && s[k] == SeqMax(s)
  {
    if |s| > 1 {
      var init := s[..|s| - 1];
      SeqMaxIsMaximum(init);
      assert forall k :: 0 <= k < |s| - 1 ==> s[k] == init[k];
      var k :| 0 <= k < |init| && init[k] == SeqMax(init);
      assert SeqMax(init) <= SeqMax(s) && s[|s| - 1] <= SeqMax(s);
      if s[|s| - 1] > SeqMax(init) {
        assert s[|s| - 1] == SeqMax(s);
      } else {
        assert s[k] == SeqMax(s);
      }
    } else {
      assert s[0] == SeqMax(s);
    }
  }

  /** getMax: seeded with resArr[startIndex] and replaced only by a strictly larger
      element while scanning startIndex..endIndex inclusive, so for a non-empty
      range the result is the maximum of exactly that slice (at least every element
      in it and equal to one of them, by SeqMax's contract) and depends on no other
      element; for an empty range the seed is returned. The array is only read. */
  method GetMax(resArr: array<real>, startIndex: int, endIndex: int) returns (max: real)
    requires 0 <= startIndex < resArr.Length
    requires endIndex < resArr.Length
    ensures startIndex <= endIndex ==> max == SeqMax(resArr[startIndex..endIndex + 1])
    ensures endIndex < startIndex ==> max == resArr[startIndex]
  {
    max := resArr[startIndex];
    var i := startIndex;
    while i <= endIndex
      invariant startIndex <= i && (i <= endIndex + 1 || i == startIndex)
      invariant i == startIndex ==> max == resArr[startIndex]
      invariant startIndex < i ==> max == SeqMax(resArr[startIndex..i])
    {
      assert resArr[startIndex..i + 1][..i - startIndex] == resArr[startIndex..i];
      if resArr[i] > max {
        max := resArr[i];
      }
      i := i + 1;
    }
  }

  /** The trigger of getPeakPointInChunk's loop, `i % chunkSize-1 == 0`. C binds `%`
      tighter than `-`, so it reads `(i % chunkSize) - 1 == 0`: it fires at the
      second sample of each window, and never when the window has one sample.
      For i >= 0 and chunkSize >= 1, C's truncating `%` and Dafny's agree. */
  function IsPeakTrigger(chunkSize: int, i: int): (fires: bool)
    requires chunkSize >= 1 && i >= 0
    ensures fires <==> chunkSize >= 2 && i % chunkSize == 1
  {
    i % chunkSize - 1 == 0
  }

  /** How many times the trigger fires for i in [0, n): the number of peaks
      getPeakPointInChunk writes for a spectrum of size n. */
  function PeakCount(chunkSize: int, n: int): (count: nat)
    requires chunkSize >= 1
    decreases n
  {
    if n <= 0 then 0
    else PeakCount(chunkSize, n - 1) + (if IsPeakTrigger(chunkSize, n - 1) then 1 else 0)
  }

  lemma DivModUnique(n: int, c: int, q: int, r: int)
    requires c > 0 && 0 <= r < c && n == q * c + r
    ensures n / c == q && n % c == r
  {
    var q', r' := n / c, n % c;
    assert (q - q') * c == r' - r;
    if q > q' {
      MulAtLeastOnce(q - q', c);
    } else if q < q' {
      MulAtLeastOnce(q' - q, c);
    }
  }

  lemma MulAtLeastOnce(a: int, c: int)
    requires a >= 1 && c > 0
    ensures a * c >= c
  {
    assert a * c == (a - 1) * c + c;
  }

  lemma MulSucc(a: int, c: int)
    ensures (a + 1) * c == a * c + c
  {
  }

  /** Stepping a non-negative index by one either moves to the next remainder in
      the same quotient, or wraps the remainder to 0 and bumps the quotient. */
  lemma DivModStep(i: int, c: int)
    requires i >= 0 && c > 0
    ensures i % c < c - 1 ==> (i + 1) / c == i / c && (i + 1) % c == i % c + 1
    ensures i % c == c - 1 ==> (i + 1) / c == i / c + 1 && (i + 1) % c == 0
  {
    if i % c < c - 1 {
      DivModUnique(i + 1, c, i / c, i % c + 1);
    } else {
      DivModUnique(i + 1, c, i / c + 1, 0);
    }
  }

  /** The number of peaks in closed form: one per full window, plus one for a
      partial last window that reaches its second sample; none at all for
      one-sample windows. */
  lemma {:induction false} PeakCountClosedForm(chunkSize: int, n: int)
    requires chunkSize >= 1 && n >= 0
    ensures PeakCount(chunkSize, n) ==
      if chunkSize == 1 then 0 else n / chunkSize + (if n % chunkSize >= 2 then 1 else 0)
  {
    if n > 0 {
      PeakCountClosedForm(chunkSize, n - 1);
      if chunkSize > 1 {
        DivModStep(n - 1, chunkSize);
      }
    }
  }

  /** A spectrum made of exactly w windows of at least two samples yields exactly
      w peaks, so a peaks buffer of resSize / chunkSize elements is never overrun. */
  lemma PeakCountOfTiledLength(chunkSize: int, w: int)
    requires chunkSize >= 2 && w >= 0
    ensures PeakCount(chunkSize, w * chunkSize) == w
  {
    PeakCountClosedForm(chunkSize, w * chunkSize);
    DivModUnique(w * chunkSize, chunkSize, w, 0);
  }

  /** The value of getPeakPointInChunk's startIndex once j peaks have been written:
      it starts at 0 and grows by chunkSize after each peak. */
  function WindowStart(chunkSize: int, j: nat): (start: int)
    requires chunkSize >= 1
    ensures start >= j
  {
    if j == 0 then 0 else WindowStart(chunkSize, j - 1) + chunkSize
  }

  lemma {:induction false} WindowStartIsProduct(chunkSize: int, j: nat)
    requires chunkSize >= 1
    ensures WindowStart(chunkSize, j) == j * chunkSize
  {
    if j > 0 {
      WindowStartIsProduct(chunkSize, j - 1);
      MulSucc(j - 1, chunkSize);
    }
  }

  /** At the j-th firing of the trigger, j == PeakCount(chunkSize, i), the window
      start j * chunkSize is exactly i - 1. */
  lemma PeakTriggerPosition(chunkSize: int, i: int)
    requires chunkSize >= 1 && i >= 0 && IsPeakTrigger(chunkSize, i)
    ensures WindowStart(chunkSize, PeakCount(chunkSize, i)) == i - 1
  {
    PeakCountClosedForm(chunkSize, i);
    DivModSplit(i, chunkSize);
    WindowStartIsProduct(chunkSize, PeakCount(chunkSize, i));
  }

  lemma DivModSplit(n: int, c: int)
    requires c > 0
    ensures n == n / c * c + n % c
  {
  }

  lemma {:induction false} PeakCountMonotone(chunkSize: int, a: int, b: int)
    requires chunkSize >= 1 && a <= b
    ensures PeakCount(chunkSize, a) <= PeakCount(chunkSize, b)
    decreases b - a
  {
    if a < b {
      PeakCountMonotone(chunkSize, a, b - 1);
    }
  }

  /** The peaks getPeakPointInChunk has written once its loop has looked at
      i = 0 .. n - 1: at each firing of the trigger, the maximum of the bins from
      the current window start, peak number times chunkSize, up to i. */
  function TwoBinPeaks(s: seq<real>, chunkSize: int, n: int): (peaks: seq<real>)
    requires chunkSize >= 1 && n <= |s|
    ensures |peaks| == PeakCount(chunkSize, n)
    decreases n
  {
    if n <= 0 then []
    else if IsPeakTrigger(chunkSize, n - 1) then
      PeakTriggerPosition(chunkSize, n - 1);
      TwoBinPeaks(s, chunkSize, n - 1) + [SeqMax(s[WindowStart(chunkSize, PeakCount(chunkSize, n - 1))..n])]
    else TwoBinPeaks(s, chunkSize, n - 1)
  }

  /** The j-th peak covers only the two bins at j * chunkSize and j * chunkSize + 1. */
  lemma {:induction false} TwoBinPeaksAt(s: seq<real>, chunkSize: int, n: int, j: int)
    requires chunkSize >= 1 && n <= |s| && 0 <= j < PeakCount(chunkSize, n)
    ensures j * chunkSize + 2 <= n
    ensures TwoBinPeaks(s, chunkSize, n)[j] == SeqMax(s[j * chunkSize..j * chunkSize + 2])
    decreases n
  {
    if j < PeakCount(chunkSize, n - 1) {
      TwoBinPeaksAt(s, chunkSize, n - 1, j);
    } else {
      PeakTriggerPosition(chunkSize, n - 1);
      WindowStartIsProduct(chunkSize, j);
    }
  }

  /** Overwriting the first element after a written prefix extends the prefix. */
  lemma AppendOverwrites(written: seq<real>, rest: seq<real>, x: real)
    requires |rest| > 0
    ensures (written + rest)[|written| := x] == written + [x] + rest[1..]
  {
  }

  /** One step of getPeakPointInChunk's loop at index i: the trigger either adds
      the peak over the window start up to i, which is i - 1, or adds nothing. */
  lemma ScanStep(s: seq<real>, chunkSize: int, i: int, size: int)
    requires chunkSize >= 1 && 0 <= i < size <= |s|
    ensures IsPeakTrigger(chunkSize, i) ==>
      && WindowStart(chunkSize, PeakCount(chunkSize, i)) == i - 1
      && PeakCount(chunkSize, i + 1) == PeakCount(chunkSize, i) + 1 <= PeakCount(chunkSize, size)
      && TwoBinPeaks(s, chunkSize, i + 1) == TwoBinPeaks(s, chunkSize, i) + [SeqMax(s[i - 1..i + 1])]
    ensures !IsPeakTrigger(chunkSize, i) ==>
      && PeakCount(chunkSize, i + 1) == PeakCount(chunkSize, i)
      && TwoBinPeaks(s, chunkSize, i + 1) == TwoBinPeaks(s, chunkSize, i)
  {
    PeakCountMonotone(chunkSize, i + 1, size);
    if IsPeakTrigger(chunkSize, i) {
      PeakTriggerPosition(chunkSize, i);
    }
  }

  /** getPeakPointInChunk as written. The j-th peak is the maximum of the two bins
      resArr[j * chunkSize] and resArr[j * chunkSize + 1], not of the whole window,
      and PeakCount(chunkSize, size) peaks are written; the rest of peaks and all
      of resArr are left alone. */
  method GetPeakPointInChunk(chunkSize: int, resArr: array<real>, size: int, peaks: array<real>)
    requires chunkSize >= 1
    requires size <= resArr.Length
    requires PeakCount(chunkSize, size) <= peaks.Length
    requires peaks != resArr
    modifies peaks
    ensures peaks[..PeakCount(chunkSize, size)] == TwoBinPeaks(resArr[..], chunkSize, size)
    ensures peaks[PeakCount(chunkSize, size)..] == old(peaks[PeakCount(chunkSize, size)..])
  {
    ghost var bins := resArr[..];
    var i, peakIndex := 0, 0;
    var startIndex := 0;
    while i < size
      invariant 0 <= i && (i <= size || i == 0)
      invariant peakIndex == PeakCount(chunkSize, i) && startIndex == WindowStart(chunkSize, peakIndex)
      invariant peakIndex <= PeakCount(chunkSize, size)
      invariant peaks[..] == TwoBinPeaks(bins, chunkSize, i) + old(peaks[..])[peakIndex..]
      invariant resArr[..] == bins
    {
      ScanStep(bins, chunkSize, i, size);
      if IsPeakTrigger(chunkSize, i) {
        var max := GetMax(resArr, startIndex, i);
        AppendOverwrites(TwoBinPeaks(bins, chunkSize, i), old(peaks[..])[peakIndex..], max);
        peaks[peakIndex] := max;
        peakIndex := peakIndex + 1;
        startIndex := startIndex + chunkSize;
      }
      assert peaks[..] == TwoBinPeaks(bins, chunkSize, i + 1) + old(peaks[..])[peakIndex..];
      i := i + 1;
    }
    assert TwoBinPeaks(bins, chunkSize, i) == TwoBinPeaks(bins, chunkSize, size);
  }

  /** The maxima of the first w full windows of s, each over all chunkSize bins. */
  function WindowMaxima(s: seq<real>, chunkSize: int, w: nat): (peaks: seq<real>)
    requires chunkSize >= 1 && WindowStart(chunkSize, w) <= |s|
    ensures |peaks| == w
  {
    if w == 0 then []
    else
      WindowMaxima(s, chunkSize, w - 1)
        + [SeqMax(s[WindowStart(chunkSize, w - 1)..WindowStart(chunkSize, w)])]
  }

  lemma {:induction false} WindowMaximaAt(s: seq<real>, chunkSize: int, w: nat, j: nat)
    requires chunkSize >= 1 && WindowStart(chunkSize, w) <= |s| && j < w
    ensures (j + 1) * chunkSize <= |s|
    ensures WindowMaxima(s, chunkSize, w)[j] == SeqMax(s[j * chunkSize..(j + 1) * chunkSize])
  {
    if j < w - 1 {
      WindowMaximaAt(s, chunkSize, w - 1, j);
    } else {
      WindowStartIsProduct(chunkSize, j);
      WindowStartIsProduct(chunkSize, j + 1);
    }
  }

  /** With two-bin windows the trigger fires on the last bin of every window, so
      the code as written does compute the maximum of each window. */
  lemma {:induction false} TwoBinPeaksMatchWindowsOfTwo(s: seq<real>, w: nat)
    requires 2 * w <= |s|
    ensures WindowStart(2, w) == 2 * w
    ensures TwoBinPeaks(s, 2, 2 * w) == WindowMaxima(s, 2, w)
  {
    WindowStartIsProduct(2, w);
    if w > 0 {
      TwoBinPeaksMatchWindowsOfTwo(s, w - 1);
      assert !IsPeakTrigger(2, 2 * w - 2);
      assert IsPeakTrigger(2, 2 * w - 1);
      PeakCountOfTiledLength(2, w - 1);
    }
  }

  /** The number of windows of chunkSize bins taken from the front of size bins
      while one still fits; the loop of GetWindowPeaks counts down with it. */
  function FullWindows(chunkSize: int, size: int): (windows: nat)
    requires chunkSize >= 1
    decreases size
  {
    if size < chunkSize then 0 else 1 + FullWindows(chunkSize, size - chunkSize)
  }

  /** FullWindows is the quotient size / chunkSize, and the windows it counts fit. */
  lemma {:induction false} FullWindowsIsQuotient(chunkSize: int, size: nat)
    requires chunkSize >= 1
    ensures FullWindows(chunkSize, size) == size / chunkSize
    ensures WindowStart(chunkSize, FullWindows(chunkSize, size)) <= size
    decreases size
  {
    if size < chunkSize {
      DivModUnique(size, chunkSize, 0, size);
    } else {
      FullWindowsIsQuotient(chunkSize, size - chunkSize);
      DivModSplit(size - chunkSize, chunkSize);
      DivModUnique(size, chunkSize, (size - chunkSize) / chunkSize + 1, (size - chunkSize) % chunkSize);
      assert WindowStart(chunkSize, FullWindows(chunkSize, size))
        == WindowStart(chunkSize, FullWindows(chunkSize, size - chunkSize)) + chunkSize;
    }
  }

  /** One step of the corrected loop: the j-th window, at start, fits; writing its
      maximum over entry j of peaks extends the written prefix by one, and the
      next window starts chunkSize bins later. */
  lemma WindowStep(s: seq<real>, chunkSize: int, size: int, start: int, j: nat, orig: seq<real>, max: real)
    requires chunkSize >= 1 && start == WindowStart(chunkSize, j) && start + chunkSize <= size <= |s|
    requires j < |orig| && max == SeqMax(s[start..start + chunkSize])
    ensures WindowStart(chunkSize, j + 1) == start + chunkSize
    ensures FullWindows(chunkSize, size - start) == 1 + FullWindows(chunkSize, size - (start + chunkSize))
    ensures (WindowMaxima(s, chunkSize, j) + orig[j..])[j := max] == WindowMaxima(s, chunkSize, j + 1) + orig[j + 1..]
  {
    AppendOverwrites(WindowMaxima(s, chunkSize, j), orig[j..], max);
    assert orig[j..][1..] == orig[j + 1..];
  }

  /** Corrected reduction: one peak per full window, the maximum over all of that
      window's chunkSize bins; a window is taken while it fits in size bins. */
  method GetWindowPeaks(chunkSize: int, resArr: array<real>, size: nat, peaks: array<real>)
    requires chunkSize >= 1
    requires size <= resArr.Length
    requires FullWindows(chunkSize, size) <= peaks.Length
    requires peaks != resArr
    modifies peaks
    ensures WindowStart(chunkSize, FullWindows(chunkSize, size)) <= size
    ensures peaks[..FullWindows(chunkSize, size)] == WindowMaxima(resArr[..], chunkSize, FullWindows(chunkSize, size))
    ensures peaks[FullWindows(chunkSize, size)..] == old(peaks[FullWindows(chunkSize, size)..])
  {
    ghost var bins := resArr[..];
    var peakIndex, startIndex := 0, 0;
    while startIndex + chunkSize <= size
      invariant startIndex == WindowStart(chunkSize, peakIndex) <= size
      invariant peakIndex + FullWindows(chunkSize, size - startIndex) == FullWindows(chunkSize, size)
      invariant peaks[..] == WindowMaxima(bins, chunkSize, peakIndex) + old(peaks[..])[peakIndex..]
      invariant resArr[..] == bins
      decreases size - startIndex
    {
      var max := GetMax(resArr, startIndex, startIndex + chunkSize - 1);
      WindowStep(bins, chunkSize, size, startIndex, peakIndex, old(peaks[..]), max);
      peaks[peakIndex] := max;
      peakIndex, startIndex := peakIndex + 1, startIndex + chunkSize;
    }
    assert peakIndex == FullWindows(chunkSize, size);
  }

  /** One window of four bins, [0, 0, 5, 0], reduced both ways: the code as written
      reports 0 for it, while the window's maximum is 5. */
  method TwoBinPeakCounterexample() returns (asWritten: real, windowMax: real)
    ensures asWritten == 0.0 && windowMax == 5.0
  {
    var resArr := new real[4](i => if i == 2 then 5.0 else 0.0);
    ghost var bins := resArr[..];
    assert bins == [0.0, 0.0, 5.0, 0.0];
    var peaks := new real[1];
    PeakCountOfTiledLength(4, 1);
    GetPeakPointInChunk(4, resArr, 4, peaks);
    TwoBinPeaksAt(bins, 4, 4, 0);
    assert bins[0..2] == [0.0, 0.0];
    asWritten := peaks[0];
    var fixed := new real[1];
    GetWindowPeaks(4, resArr, 4, fixed);
    WindowMaximaAt(bins, 4, 1, 0);
    assert bins[0..4] == bins && bins[..3] == [0.0, 0.0, 5.0] && bins[..3][..2] == [0.0, 0.0];
    windowMax := fixed[0];
  }
}
