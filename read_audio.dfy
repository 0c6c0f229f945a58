/** The analysis part of main in read_audio.c: the samples go through the window
    loop, and the resulting spectrum through getPeakPointInChunk, which writes one
    peak per window. Next to it stands the analysis as evidently intended: every
    window transformed on its own, and every peak taken over its whole window. */
module ReadAudio {
  import opened PeakScan
  import opened Windowing

  /** main's analysis as written: fft_res and peaks for the samples ad.data, where
      fft is the external FFT routine. */
  method AnalyseSamples(ad: array<real>, fft: Fft) returns (fftRes: array<real>, peaks: array<real>)
    ensures fresh(fftRes) && fresh(peaks)
    ensures fftRes[..] == Spectrum(ad[..], fft)
    ensures peaks.Length == ad.Length / WindowSize
    ensures peaks[..] == TwoBinPeaks(fftRes[..], WindowSize, fftRes.Length)
  {
    var imgPart;
    fftRes, imgPart := ChunkAndTransform(ad, fft);
    var chunkSize := WindowSize;
    var resSize := fftRes.Length;
    var pSize := resSize / chunkSize;
    peaks := new real[pSize];
    DivModSplit(resSize, chunkSize);
    PeakCountOfTiledLength(chunkSize, pSize);
    GetPeakPointInChunk(chunkSize, fftRes, resSize, peaks);
  }

  /** main's analysis as intended: every window is transformed with a zero
      imaginary part, and every peak is the maximum over its whole window. */
  method AnalyseSamplesIntended(ad: array<real>, fft: Fft) returns (fftRes: array<real>, peaks: array<real>)
    ensures fresh(fftRes) && fresh(peaks)
    ensures peaks.Length == ad.Length / WindowSize
    ensures WindowStart(WindowSize, peaks.Length) == fftRes.Length
    ensures fftRes[..] == ZeroedSpectrum(ad[..], fft, peaks.Length)
    ensures peaks[..] == WindowMaxima(fftRes[..], WindowSize, peaks.Length)
  {
    fftRes := ChunkAndTransformZeroed(ad, fft);
    var chunkSize := WindowSize;
    var resSize := fftRes.Length;
    var pSize := resSize / chunkSize;
    peaks := new real[pSize];
    FullWindowsIsQuotient(chunkSize, resSize);
    DivModSplit(resSize, chunkSize);
    WindowStartIsProduct(chunkSize, pSize);
    GetWindowPeaks(chunkSize, fftRes, resSize, peaks);
  }

  /** As written, peak j is the larger of the first two real outputs of the FFT
      of window j, applied with the imaginary part left by window j - 1. */
  lemma PeakOfWindow(samples: seq<real>, fft: Fft, j: nat)
    requires j < |samples| / WindowSize
    ensures (j + 1) * WindowSize <= |samples|
    ensures j < |TwoBinPeaks(Spectrum(samples, fft), WindowSize, |Spectrum(samples, fft)|)|
    ensures TwoBinPeaks(Spectrum(samples, fft), WindowSize, |Spectrum(samples, fft)|)[j]
      == SeqMax(fft(Forward, LogWindowSize, Window(samples, j), AfterWindows(samples, fft, j).imgPart).0[..2])
  {
    var w := |samples| / WindowSize;
    var spectrum := Spectrum(samples, fft);
    assert |spectrum| == w * WindowSize;
    PeakCountOfTiledLength(WindowSize, w);
    TwoBinPeaksAt(spectrum, WindowSize, |spectrum|, j);
    TransformedWindow(samples, fft, w, j);
    var out := fft(Forward, LogWindowSize, Window(samples, j), AfterWindows(samples, fft, j).imgPart).0;
    assert spectrum[j * WindowSize..j * WindowSize + 2] == spectrum[j * WindowSize..(j + 1) * WindowSize][..2];
  }

  /** As intended, peak j is the maximum of all real outputs of the FFT of window j
      alone. */
  lemma PeakOfWindowIntended(samples: seq<real>, fft: Fft, j: nat)
    requires j < |samples| / WindowSize
    ensures (j + 1) * WindowSize <= |samples|
    ensures WindowStart(WindowSize, |samples| / WindowSize) == |ZeroedSpectrum(samples, fft, |samples| / WindowSize)|
    ensures WindowMaxima(ZeroedSpectrum(samples, fft, |samples| / WindowSize), WindowSize, |samples| / WindowSize)[j]
      == SeqMax(fft(Forward, LogWindowSize, Window(samples, j), Zeros(WindowSize)).0)
  {
    var w := |samples| / WindowSize;
    DivModSplit(|samples|, WindowSize);
    var spectrum := ZeroedSpectrum(samples, fft, w);
    WindowStartIsProduct(WindowSize, w);
    WindowMaximaAt(spectrum, WindowSize, w, j);
    ZeroedWindow(samples, fft, w, j);
  }
}
