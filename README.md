# read_audio: windowed FFT and peak extraction

`read_audio.c` reads an audio file through FFmpeg and stores one value per
decoded frame in the array `ad.data`: the first byte of that frame's first data
plane (read_audio.c:100). `main` treats these values as the samples of the
signal. It cuts them into windows of `WINDOWSIZE` (4) values and runs an in-place
FFT on each window, using a real buffer `temp` and an imaginary buffer `img_part`. The real
outputs are concatenated into the spectrum `fft_res`. `getPeakPointInChunk` then
reduces the spectrum to one "peak" per window, using `getMax`.

This project models that pipeline in Dafny, in the form the C code has:

- `PeakScan` (`peak_scan.dfy`) models `getMax` and `getPeakPointInChunk` as methods
  over arrays with loop invariants. Each method is proved against a specification
  function: `SeqMax` is the running maximum, `TwoBinPeaks` is the sequence of peaks
  the trigger produces, and `PeakCount` is how often the trigger fires. Lemmas then
  pin down what those functions mean.
- `Windowing` (`windowing.dfy`) models the window loop of `main` (lines 147-174).
  It covers the tiled length, the copy into `temp`, the FFT call on `temp` and
  `img_part`, the copy back into `fft_res`, and the `img_part` that each FFT call
  leaves behind for the next window. The FFT is a parameter `fft: Fft`: a function
  from direction, log2 size, real and imaginary buffer contents to the new
  contents, which keeps both lengths.
- `ReadAudio` (`read_audio.dfy`) models lines 147-181 of `main`. The samples go
  through the window loop, `pSize` peaks are allocated, and the spectrum goes
  through `getPeakPointInChunk`.

Samples and spectrum values are `real`. The as-written members follow the code
exactly: the trigger `i % chunkSize-1 == 0`, the hard-coded `m = 2`, the step
`k = k + 4`, and `img_part` zeroed once. Two behaviours of the code differ from
what its own comments say it does:

- Each peak covers two bins, not a whole window. The comment at line 29 says
  `getPeakPointInChunk` stores the peak "for each window".
- `img_part` is carried from one window to the next. The comment at line 153
  says the imaginary part is initialised with zeros, and a forward FFT of a
  real-valued window starts from an all-zero imaginary part. Only the first
  window gets one.

Both are logged under Findings. Each one has a corrected member next to the
as-written one, and `ReadAudio.AnalyseSamplesIntended` runs the corrected pipeline.
The as-written members follow the code: `img_part` is zeroed once (line 154).
The corrected members zero it before every FFT call.

## Model

| member | source | states |
|---|---|---|
| PeakScan.SeqMaxIsMaximum | read_audio.c:19-24 | The running maximum, seeded with the first element and replaced only by a strictly larger one, is at least every element of the range and equals one of them. |
| PeakScan.GetMax | read_audio.c:17-26 | For `startIndex <= endIndex`, getMax returns the maximum of `res_arr[startIndex..endIndex]`. The result depends only on that slice, and the method modifies nothing. For `endIndex < startIndex` it returns `res_arr[startIndex]`. |
| PeakScan.IsPeakTrigger | read_audio.c:36 | `i % chunkSize-1 == 0` holds exactly when `chunkSize >= 2` and `i % chunkSize == 1`. For `chunkSize == 1` it never fires. |
| PeakScan.PeakCountClosedForm | read_audio.c:35-41 | Over `i` in `[0, n)` the trigger fires `n / chunkSize` times, plus once more when `n % chunkSize >= 2`. It never fires when `chunkSize == 1`. |
| PeakScan.PeakCountOfTiledLength | read_audio.c:179-181 | A spectrum of `w` whole windows of at least two bins gives exactly `w` peaks, so `pSize = resSize / chunkSize` entries are enough. |
| PeakScan.WindowStartIsProduct | read_audio.c:32-39 | After `j` peaks, `startIndex == j * chunkSize`. |
| PeakScan.PeakTriggerPosition | read_audio.c:36-39 | At the j-th firing, `startIndex == j * chunkSize == i - 1`. |
| PeakScan.TwoBinPeaks | read_audio.c:35-42 | After the loop has looked at `[0, n)`, exactly `PeakCount(chunkSize, n)` peaks have been written. |
| PeakScan.TwoBinPeaksAt | read_audio.c:31-40 | Peak `j` is the maximum of the two bins `res_arr[j*chunkSize]` and `res_arr[j*chunkSize+1]` only, and both lie below `n`. |
| PeakScan.GetPeakPointInChunk | read_audio.c:30-43 | getPeakPointInChunk writes exactly the two-bin peaks into `peaks[0..PeakCount)`. It leaves the rest of `peaks` and all of `res_arr` unchanged. |
| PeakScan.WindowMaximaAt | read_audio.c:29 | In the corrected reduction, peak `j` is the maximum of the whole window `[j*chunkSize, (j+1)*chunkSize)`, which lies inside the spectrum. |
| PeakScan.TwoBinPeaksMatchWindowsOfTwo | read_audio.c:36 | With windows of two bins, the code as written computes exactly the per-window maxima. |
| PeakScan.FullWindowsIsQuotient | read_audio.c:179 | The number of windows taken while one fits equals `size / chunkSize`, and they fit in `size` bins. |
| PeakScan.GetWindowPeaks | read_audio.c:29-43 | The corrected getPeakPointInChunk writes the maximum of each full window into `peaks[0..size/chunkSize)` and leaves the rest unchanged. |
| PeakScan.TwoBinPeakCounterexample | read_audio.c:36-38 | On the window `[0, 0, 5, 0]`, the code as written reports `0`, while the window's maximum is `5`. |
| Windowing.TiledLength | read_audio.c:150-155 | `resSize = chunkSize * (size / chunkSize)` is a multiple of the window size, with `resSize <= size` and `size - resSize < chunkSize`. |
| Windowing.Window | read_audio.c:165-167 | Window `j` is the `WINDOWSIZE` samples starting at `j * WINDOWSIZE`. |
| Windowing.AfterWindows | read_audio.c:162-174 | After `w` windows, `fft_res` holds `w * WINDOWSIZE` values and `img_part` keeps its `WINDOWSIZE` entries. |
| Windowing.Spectrum | read_audio.c:150-174 | The spectrum has exactly `resSize` entries. |
| Windowing.TransformedWindow | read_audio.c:154-174 | The windows tile `fft_res`. Slice `j` is the real output of FFT on window `j` and on the `img_part` left by window `j - 1`. That `img_part` is all zeros for `j = 0`, and need not be afterwards (see CarriedImagCounterexample). |
| Windowing.TailNeverRead | read_audio.c:163-167 | Samples past the last whole window are never read. Two signals that agree on their first `w` windows give the same `fft_res` and `img_part`. |
| Windowing.ZeroFill | read_audio.c:154 | The initialisation loop sets every entry of `img_part` to zero. |
| Windowing.CopyWindowIn | read_audio.c:165-167 | `temp` receives `ad.data[k..k+chunkSize)`. That range must lie within the samples. |
| Windowing.CallFft | read_audio.c:168 | The FFT call replaces `temp` and `img_part` by the transform of their previous contents. |
| Windowing.CopyWindowOut | read_audio.c:170-172 | `fft_res[k..k+chunkSize)` receives `temp`, and the rest of `fft_res` is unchanged. |
| Windowing.ChunkAndTransform | read_audio.c:147-174 | The window loop as written leaves `fft_res` of length `resSize` equal to the spectrum of all `size / 4` windows. It leaves `img_part` equal to what the last FFT call produced. |
| Windowing.ZeroedWindow | read_audio.c:154-168 | In the corrected loop, slice `j` of the spectrum is the FFT of window `j` alone, with an all-zero imaginary part. |
| Windowing.CarriedMatchesZeroed | read_audio.c:154 | The as-written and corrected loops agree on the first window. They agree on every window when the FFT always returns an all-zero imaginary part. |
| Windowing.ChunkAndTransformZeroed | read_audio.c:147-174 | The corrected window loop clears `img_part` before every FFT call, and its `fft_res` is the spectrum of independently transformed windows. |
| Windowing.CarriedImagCounterexample | read_audio.c:154-168 | Take the samples `0,1,0,0,0,0,0,0` and an exact 4-point DFT as the FFT. The loop as written gives the silent second window the spectrum `0,-2,0,2` (lemma CarriedImagSpectrum). The corrected loop gives it `0,0,0,0` (lemma ZeroedSilentSpectrum). Both array loops, applied to those samples, return these two spectra. |
| ReadAudio.AnalyseSamples | read_audio.c:147-181 | main's analysis as written: `fft_res` is the spectrum of the samples. `pSize = size / 4` peaks are allocated, and they are exactly the two-bin peaks of the spectrum. |
| ReadAudio.PeakOfWindow | read_audio.c:163-181 | As written, peak `j` is the larger of the first two real outputs of the FFT of window `j`, applied with the `img_part` left by window `j - 1`. |
| ReadAudio.AnalyseSamplesIntended | read_audio.c:147-181 | The corrected analysis: independently transformed windows, and one peak per window equal to the maximum of that window's spectrum. |
| ReadAudio.PeakOfWindowIntended | read_audio.c:179-181 | As intended, peak `j` is the maximum of all real outputs of the FFT of window `j` alone. |

## Left out

- `readAudio` (read_audio.c:47-122) is not modelled. It is FFmpeg demultiplexing and decoding, which is I/O through a library outside this model. It also never allocates `a->data`. It stores one value per decoded frame, the first byte of that frame's first data plane (read_audio.c:100), not the frame's samples, so `nsamples` counts frames (read_audio.c:107). The model takes `ad` as given, as a parameter.
- The FFT routine declared in `fft.h` is not part of this model. It is a foreign call and floating-point numerics. It is a length-preserving parameter `fft: Fft`, and `Windowing.Dft4` is one concrete instance, used only in the counterexample.
- The console I/O is not modelled: the `argc`/`argv` handling and the `printf` dumps of samples, spectrum and peaks.
- `malloc` and the missing `free` calls are not modelled: arrays are allocated with the lengths the code requests. Allocation failure is not modelled.
- IEEE double semantics (NaN, infinities, rounding) are not modelled. Values are mathematical reals, so `>` is a total order.
- 32-bit `int` overflow of `size`, `resSize`, `i` and `k` is not modelled. Integers are unbounded.
- `main` hard-codes `m = 2` and the step `k = k + 4` instead of deriving them from `WINDOWSIZE`. The model keeps them as the constants `LogWindowSize` and 4, which agree with `WINDOWSIZE = 4`. Other window sizes are not modelled.
- PeakScan.GetPeakPointInChunk: requires `chunkSize >= 1`. C's `%` by zero is undefined, and a negative `chunkSize` would read `res_arr` at a negative index.
- PeakScan.GetPeakPointInChunk: requires `peaks` and `res_arr` to be distinct arrays, so aliasing between them is not modelled. `main` passes two separate allocations.
- PeakScan.GetWindowPeaks: requires `peaks` and `res_arr` to be distinct arrays, for the same reason.
- Windowing.CallFft: requires `temp` and `img_part` to be distinct arrays. `main` passes two separate allocations.

## Findings

| source | as written | input that shows it | evidently intended | confidence | as-written member | corrected member |
|---|---|---|---|---|---|---|
| read_audio.c:36 | `i % chunkSize-1 == 0` parses as `(i % chunkSize) - 1 == 0`. The peak for window `j` is therefore taken at `i = j*chunkSize + 1`, over the bins `j*chunkSize` and `j*chunkSize+1` only. | `chunkSize = 4`, `res_arr = [0, 0, 5, 0]`, `size = 4`: `peaks[0] = 0` | the maximum over the whole window, `5` (comment at read_audio.c:29) | not executed | PeakScan.TwoBinPeakCounterexample | PeakScan.GetWindowPeaks |
| read_audio.c:154 | `img_part` is zeroed once, before the window loop. Each FFT call leaves its imaginary output there, and that output becomes the next window's imaginary input. | samples `0,1,0,0,0,0,0,0`, with an exact 4-point DFT as the FFT: the silent second window gets the spectrum `0,-2,0,2` | each window transformed with an all-zero imaginary part, as the comment at read_audio.c:153 ("initialize imaginary part with zeros") and a forward FFT of a real window call for: `0,0,0,0` | not executed | Windowing.CarriedImagCounterexample | Windowing.ChunkAndTransformZeroed |
