/** The window loop of main in read_audio.c: the samples are cut into windows of
    WINDOWSIZE, each window is copied into a scratch buffer, transformed in place
    by the external FFT routine together with the imaginary buffer img_part, and
    copied to the window's offset in fft_res. img_part is zeroed once, before the
    first window, and then carries whatever each FFT call leaves in it into the
    next window. */
module Windowing {

  /** WINDOWSIZE; main's chunkSize. */
  const WindowSize: nat := 4

  /** m, the log2 of the transform size handed to FFT. main fixes it to 2 instead
      of computing log2(chunkSize); with WINDOWSIZE = 4 the two agree. */
  const LogWindowSize: nat := 2

  /** The direction argument main passes to FFT. */
  const Forward: int := 1

  ghost predicate KeepsLengths(f: (int, int, seq<real>, seq<real>) -> (seq<real>, seq<real>))
  {
    forall dir, m, re, im :: |f(dir, m, re, im).0| == |re| && |f(dir, m, re, im).1| == |im|
  }

  /** The external FFT routine, seen as a function of its direction, its log2 size
      and the contents of its real and imaginary buffers to their new contents.
      It works in place, so each buffer keeps its length. */
  type Fft = f: (int, int, seq<real>, seq<real>) -> (seq<real>, seq<real>) | KeepsLengths(f)
    witness (dir: int, m: int, re: seq<real>, im: seq<real>) => (re, im)

  function Zeros(n: nat): (z: seq<real>)
    ensures |z| == n && forall k :: 0 <= k < n ==> z[k] == 0.0
  {
    seq(n, _ => 0.0)
  }

  /** resSize: the samples covered by whole windows. It never exceeds the sample
      count, and fewer than one window's worth of trailing samples is left over. */
  function TiledLength(size: nat): (resSize: nat)
    ensures resSize <= size && size - resSize < WindowSize
    ensures resSize % WindowSize == 0
  {
    WindowSize * (size / WindowSize)
  }

  /** Window j of the samples. */
  function Window(samples: seq<real>, j: nat): (window: seq<real>)
    requires (j + 1) * WindowSize <= |samples|
    ensures |window| == WindowSize
  {
    samples[j * WindowSize..(j + 1) * WindowSize]
  }

  /** main's fft_res and img_part after w trips through the window loop. */
  datatype WindowState = WindowState(fftRes: seq<real>, imgPart: seq<real>)

  /** The window loop after w windows: each window is transformed together with
      the img_part the previous window left behind, and its real part appended. */
  function AfterWindows(samples: seq<real>, fft: Fft, w: nat): (st: WindowState)
    requires w * WindowSize <= |samples|
    ensures |st.fftRes| == w * WindowSize && |st.imgPart| == WindowSize
  {
    if w == 0 then WindowState([], Zeros(WindowSize))
    else
      var prev := AfterWindows(samples, fft, w - 1);
      var out := fft(Forward, LogWindowSize, Window(samples, w - 1), prev.imgPart);
      WindowState(prev.fftRes + out.0, out.1)
  }

  /** The spectrum main builds from all of the samples. */
  function Spectrum(samples: seq<real>, fft: Fft): (spectrum: seq<real>)
    ensures |spectrum| == TiledLength(|samples|)
  {
    AfterWindows(samples, fft, |samples| / WindowSize).fftRes
  }

  /** The windows tile fft_res: its slice j is the real output of FFT on window j
      of the samples and on the img_part left by window j - 1, which is all zeros
      for the first window and need not be afterwards (CarriedImagSpectrum). */
  lemma {:induction false} TransformedWindow(samples: seq<real>, fft: Fft, w: nat, j: nat)
    requires w * WindowSize <= |samples| && j < w
    ensures (j + 1) * WindowSize <= |samples|
    ensures AfterWindows(samples, fft, w).fftRes[j * WindowSize..(j + 1) * WindowSize]
      == fft(Forward, LogWindowSize, Window(samples, j), AfterWindows(samples, fft, j).imgPart).0
    ensures j == 0 ==> AfterWindows(samples, fft, j).imgPart == Zeros(WindowSize)
  {
    var prev := AfterWindows(samples, fft, w - 1);
    var out := fft(Forward, LogWindowSize, Window(samples, w - 1), prev.imgPart);
    assert AfterWindows(samples, fft, w).fftRes == prev.fftRes + out.0;
    if j < w - 1 {
      TransformedWindow(samples, fft, w - 1, j);
      assert (prev.fftRes + out.0)[j * WindowSize..(j + 1) * WindowSize]
        == prev.fftRes[j * WindowSize..(j + 1) * WindowSize];
    } else {
      assert (prev.fftRes + out.0)[j * WindowSize..(j + 1) * WindowSize] == out.0;
    }
  }

  /** Samples past the last whole window are never read: two signals that agree on
      their first w windows give the same fft_res and img_part after w windows. */
  lemma {:induction false} TailNeverRead(a: seq<real>, b: seq<real>, fft: Fft, w: nat)
    requires w * WindowSize <= |a| && w * WindowSize <= |b|
    requires a[..w * WindowSize] == b[..w * WindowSize]
    ensures AfterWindows(a, fft, w) == AfterWindows(b, fft, w)
  {
    if w > 0 {
      assert a[..(w - 1) * WindowSize] == a[..w * WindowSize][..(w - 1) * WindowSize];
      assert b[..(w - 1) * WindowSize] == b[..w * WindowSize][..(w - 1) * WindowSize];
      TailNeverRead(a, b, fft, w - 1);
      assert Window(a, w - 1) == a[..w * WindowSize][(w - 1) * WindowSize..];
      assert Window(b, w - 1) == b[..w * WindowSize][(w - 1) * WindowSize..];
    }
  }

  /** The FFT call: both buffers are overwritten with the transform of their
      previous contents. */
  method CallFft(fft: Fft, dir: int, m: int, re: array<real>, im: array<real>)
    requires re != im
    modifies re, im
    ensures (re[..], im[..]) == fft(dir, m, old(re[..]), old(im[..]))
  {
    var out := fft(dir, m, re[..], im[..]);
    assert |out.0| == re.Length && |out.1| == im.Length;
    forall k | 0 <= k < re.Length {
      re[k] := out.0[k];
    }
    forall k | 0 <= k < im.Length {
      im[k] := out.1[k];
    }
    assert re[..] == out.0 && im[..] == out.1;
  }

  /** The loop that clears img_part before the window loop. */
  method ZeroFill(a: array<real>)
    modifies a
    ensures a[..] == Zeros(a.Length)
  {
    for i := 0 to a.Length
      invariant a[..i] == Zeros(i)
    {
      a[i] := 0.0;
    }
  }

  /** The copy loop that fills temp with the window starting at k. */
  method CopyWindowIn(ad: array<real>, k: nat, temp: array<real>)
    requires k + temp.Length <= ad.Length && ad != temp
    modifies temp
    ensures temp[..] == ad[k..k + temp.Length]
  {
    for i := 0 to temp.Length
      invariant temp[..i] == ad[k..k + i]
    {
      temp[i] := ad[i + k];
    }
  }

  /** The copy loop that stores the transformed window at offset k of fft_res. */
  method CopyWindowOut(temp: array<real>, fftRes: array<real>, k: nat)
    requires k + temp.Length <= fftRes.Length && temp != fftRes
    modifies fftRes
    ensures fftRes[..] == old(fftRes[..k]) + temp[..] + old(fftRes[k + temp.Length..])
  {
    for i := 0 to temp.Length
      invariant fftRes[..k] == old(fftRes[..k]) && fftRes[k..k + i] == temp[..i]
      invariant fftRes[k + temp.Length..] == old(fftRes[k + temp.Length..])
    {
      fftRes[i + k] := temp[i];
    }
    assert fftRes[..] == fftRes[..k] + fftRes[k..k + temp.Length] + fftRes[k + temp.Length..];
  }

  /** One more trip through the window loop, from the window starting at k. */
  lemma AfterNextWindow(samples: seq<real>, fft: Fft, w: nat, k: nat)
    requires k == w * WindowSize && k + WindowSize <= |samples|
    ensures (w + 1) * WindowSize == k + WindowSize
    ensures Window(samples, w) == samples[k..k + WindowSize]
    ensures AfterWindows(samples, fft, w + 1)
      == var prev := AfterWindows(samples, fft, w);
         var out := fft(Forward, LogWindowSize, samples[k..k + WindowSize], prev.imgPart);
         WindowState(prev.fftRes + out.0, out.1)
  {
  }

  /** The window loop as written: fft_res holds the transformed windows and
      img_part what the last FFT call left in it. */
  method ChunkAndTransform(ad: array<real>, fft: Fft) returns (fftRes: array<real>, imgPart: array<real>)
    ensures fresh(fftRes) && fresh(imgPart)
    ensures fftRes.Length == TiledLength(ad.Length)
    ensures AfterWindows(ad[..], fft, ad.Length / WindowSize) == WindowState(fftRes[..], imgPart[..])
  {
    var size := ad.Length;
    var m := LogWindowSize;
    var chunkSize := WindowSize;
    var chunkSampleSize := size / chunkSize;
    imgPart := new real[chunkSize];
    ZeroFill(imgPart);
    var resSize := chunkSize * chunkSampleSize;
    fftRes := new real[resSize];
    var temp := new real[chunkSize];
    ghost var samples := ad[..];
    ghost var w := 0;
    var k := 0;
    while k < resSize
      invariant 0 <= w <= chunkSampleSize && k == w * WindowSize
      invariant AfterWindows(samples, fft, w) == WindowState(fftRes[..k], imgPart[..])
      invariant ad[..] == samples
      decreases resSize - k
    {
      assert w + 1 <= chunkSampleSize;
      AfterNextWindow(samples, fft, w, k);
      CopyWindowIn(ad, k, temp);
      CallFft(fft, Forward, m, temp, imgPart);
      CopyWindowOut(temp, fftRes, k);
      k := k + 4;
      w := w + 1;
    }
    assert w == chunkSampleSize;
  }

  /** The window loop as evidently intended: every window is transformed with an
      all-zero imaginary part, so fft_res slice j depends on window j alone. */
  function ZeroedSpectrum(samples: seq<real>, fft: Fft, w: nat): (spectrum: seq<real>)
    requires w * WindowSize <= |samples|
    ensures |spectrum| == w * WindowSize
  {
    if w == 0 then []
    else ZeroedSpectrum(samples, fft, w - 1) + fft(Forward, LogWindowSize, Window(samples, w - 1), Zeros(WindowSize)).0
  }

  /** Slice j of the intended spectrum is the transform of window j alone. */
  lemma {:induction false} ZeroedWindow(samples: seq<real>, fft: Fft, w: nat, j: nat)
    requires w * WindowSize <= |samples| && j < w
    ensures (j + 1) * WindowSize <= |samples|
    ensures ZeroedSpectrum(samples, fft, w)[j * WindowSize..(j + 1) * WindowSize]
      == fft(Forward, LogWindowSize, Window(samples, j), Zeros(WindowSize)).0
  {
    var prev := ZeroedSpectrum(samples, fft, w - 1);
    var out := fft(Forward, LogWindowSize, Window(samples, w - 1), Zeros(WindowSize)).0;
    assert ZeroedSpectrum(samples, fft, w) == prev + out;
    if j < w - 1 {
      ZeroedWindow(samples, fft, w - 1, j);
      assert (prev + out)[j * WindowSize..(j + 1) * WindowSize] == prev[j * WindowSize..(j + 1) * WindowSize];
    } else {
      assert (prev + out)[j * WindowSize..(j + 1) * WindowSize] == out;
    }
  }

  /** The two loops agree on the first window, whose img_part is still all zeros,
      and agree on every window when the FFT always hands back an all-zero
      imaginary part. */
  lemma {:induction false} CarriedMatchesZeroed(samples: seq<real>, fft: Fft, w: nat)
    requires w * WindowSize <= |samples|
    ensures 1 <= w ==> AfterWindows(samples, fft, w).fftRes[..WindowSize] == ZeroedSpectrum(samples, fft, w)[..WindowSize]
    ensures (forall re: seq<real> :: fft(Forward, LogWindowSize, re, Zeros(WindowSize)).1 == Zeros(WindowSize))
      ==> AfterWindows(samples, fft, w) == WindowState(ZeroedSpectrum(samples, fft, w), Zeros(WindowSize))
  {
    if 1 <= w {
      TransformedWindow(samples, fft, w, 0);
      ZeroedWindow(samples, fft, w, 0);
    }
    if w > 0 {
      CarriedMatchesZeroed(samples, fft, w - 1);
    }
  }

  /** The window loop with img_part cleared before every FFT call. */
  method ChunkAndTransformZeroed(ad: array<real>, fft: Fft) returns (fftRes: array<real>)
    ensures fresh(fftRes)
    ensures fftRes.Length == TiledLength(ad.Length)
    ensures fftRes[..] == ZeroedSpectrum(ad[..], fft, ad.Length / WindowSize)
  {
    var size := ad.Length;
    var m := LogWindowSize;
    var chunkSize := WindowSize;
    var chunkSampleSize := size / chunkSize;
    var imgPart := new real[chunkSize];
    var resSize := chunkSize * chunkSampleSize;
    fftRes := new real[resSize];
    var temp := new real[chunkSize];
    ghost var samples := ad[..];
    ghost var w := 0;
    var k := 0;
    while k < resSize
      invariant 0 <= w <= chunkSampleSize && k == w * WindowSize
      invariant ZeroedSpectrum(samples, fft, w) == fftRes[..k]
      invariant ad[..] == samples
      decreases resSize - k
    {
      assert w + 1 <= chunkSampleSize;
      CopyWindowIn(ad, k, temp);
      ZeroFill(imgPart);
      CallFft(fft, Forward, m, temp, imgPart);
      CopyWindowOut(temp, fftRes, k);
      k := k + 4;
      w := w + 1;
    }
    assert w == chunkSampleSize;
  }

  /** An exact 4-point discrete Fourier transform (kernel e^(-2 pi i jk / 4)) on
      buffers of length 4, and the identity on other lengths; dir and m are
      ignored. It is one FFT the window loop can be given. */
  function Dft4(dir: int, m: int, re: seq<real>, im: seq<real>): (out: (seq<real>, seq<real>))
    ensures |out.0| == |re| && |out.1| == |im|
  {
    if |re| == 4 && |im| == 4 then
      ([re[0] + re[1] + re[2] + re[3], re[0] + im[1] - re[2] - im[3],
        re[0] - re[1] + re[2] - re[3], re[0] - im[1] - re[2] + im[3]],
       [im[0] + im[1] + im[2] + im[3], im[0] - re[1] - im[2] + re[3],
        im[0] - im[1] + im[2] - im[3], im[0] + re[1] - im[2] - re[3]])
    else (re, im)
  }

  /** Eight samples 0, 1, 0, 0, 0, 0, 0, 0 under Dft4: the second window is
      silent, yet the loop as written gives it a non-zero spectrum, inherited from
      the imaginary part the first window left. */
  lemma CarriedImagSpectrum(samples: seq<real>)
    requires samples == [0.0, 1.0, 0.0, 0.0, 0.0, 0.0, 0.0, 0.0]
    ensures AfterWindows(samples, Dft4, 2).fftRes[4..8] == [0.0, -2.0, 0.0, 2.0]
  {
    TransformedWindow(samples, Dft4, 2, 1);
    assert Zeros(WindowSize) == [0.0, 0.0, 0.0, 0.0];
    assert Window(samples, 0) == [0.0, 1.0, 0.0, 0.0];
    assert Window(samples, 1) == [0.0, 0.0, 0.0, 0.0];
    AfterNextWindow(samples, Dft4, 0, 0);
    assert AfterWindows(samples, Dft4, 1).imgPart == [0.0, -1.0, 0.0, 1.0];
  }

  /** The same samples under the intended loop: the silent window has an all-zero
      spectrum. */
  lemma ZeroedSilentSpectrum(samples: seq<real>)
    requires samples == [0.0, 1.0, 0.0, 0.0, 0.0, 0.0, 0.0, 0.0]
    ensures ZeroedSpectrum(samples, Dft4, 2)[4..8] == [0.0, 0.0, 0.0, 0.0]
  {
    ZeroedWindow(samples, Dft4, 2, 1);
    assert Zeros(WindowSize) == [0.0, 0.0, 0.0, 0.0];
    assert Window(samples, 1) == [0.0, 0.0, 0.0, 0.0];
  }

  /** The same eight samples passed through both loops. */
  method CarriedImagCounterexample() returns (asWritten: seq<real>, intended: seq<real>)
    ensures asWritten == [0.0, -2.0, 0.0, 2.0]
    ensures intended == [0.0, 0.0, 0.0, 0.0]
  {
    var ad := new real[8](i => if i == 1 then 1.0 else 0.0);
    assert ad[..] == [0.0, 1.0, 0.0, 0.0, 0.0, 0.0, 0.0, 0.0];
    var fftRes, imgPart := ChunkAndTransform(ad, Dft4);
    var zeroed := ChunkAndTransformZeroed(ad, Dft4);
    CarriedImagSpectrum(ad[..]);
    ZeroedSilentSpectrum(ad[..]);
    asWritten := fftRes[4..8];
    intended := zeroed[4..8];
  }
}
