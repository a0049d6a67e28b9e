# RoomSync in Dafny

A model of RoomSync's CPU audio pipeline and of its two encryption sessions, with proofs of what they
guarantee. The audio part is over exact reals and keeps the loops that update arrays in place; each loop is
proved against a mathematical definition, and the theorems are about those definitions and about whole runs.

What is proved, in short:

- **Transform** (`BitReversal`, `Fft`, `Fourier`, `FourierInverse`). For every power-of-two length and every
  input, the reversed-carry swaps and butterfly stages leave exactly the discrete Fourier sum at the last
  stage's root, written out in cosines and sines. Transform and inverse undo each other, energy is preserved
  (Parseval), and real signals have mirrored spectra.
- **Noise suppressor** (`Spectral`, `NoiseSuppression`). The gain-and-mirror loop is one gain per pair of
  mirrored bins, each gain is the one Boll's subtraction rule asks for, the inverse transform is then
  exactly real, and the output never has more energy than the input, whatever non-negative noise estimate
  has been reached. Which frames are learned as noise, and what the estimate then is.
- **Concealment** (`Toeplitz`, `Autocorrelation`, `Stability`, `LinearPrediction`, `Synthesis`,
  `PacketLoss`). Without a clamp the Levinson loop solves the normal equations, is the best predictor of its
  order, and no synthesised sample, however far on, exceeds the energy of the history. Clamped or not, the
  synthesis is bounded for ever. Exactly when the recursion goes on and when a clamp fires.
- **Echo canceller** (`EchoCancellation`, `EchoProcessor`). An exact conservation law for the distance to
  the echo path over any run; exactly which references are safe, sample by sample and frame by frame;
  convergence over runs of safe references, a bound on all the echo left in the output, and a run that
  diverges.
- **Pipeline** (`PipelineModel`, `PipelineObject`). Reset cannot be told from a fresh start; the history is
  the recent good output; every loss of every run is one frame, fixed by the history, at the fade its place
  since the last good frame gives it; the stages inside a run see exactly the frames they should.
- **Sessions** (`SignalModel`, `GroupModel`, `Sorting`). Ratchet positions, lockstep and what a forgery
  costs, strictly increasing nonces, group keys that are equal exactly for equal member sets, and exactly
  which plaintexts survive padding.

Hypotheses, always written out as `requires`: `MathLib.Lawful` (Pythagoras, angle doubling, cos(-pi) = -1
and sin(-pi) = 0, and the square root); only where a sum is written in cosines and sines `MathLib.Adds`
(their addition laws); only where a decibel figure is judged `MathLib.GrowingLog` (log10 increases and is
zero at one); `Bytes.Ideal` (opening undoes sealing under the same key and nonce, and a tag is 16 bytes)
and, only where a frame must fail to open, `SignalModel.Separates` (a frame sealed at one of the first N
positions of the chain does not open at another; the number N is left open, since 16-byte tags cannot tell
all keys apart). `SignalModel.ToySeparates` shows these two can be met together. For group keys,
`GroupModel.Tells` (HMAC does not collide at the two messages at hand), `Encodes` (names encoded to one
length, differently) and `Apart` (a text sealed under one of two given keys does not open under the other).
The library functions are parameters of these types, and so are random nonces. The transform length is a
power of two, frames have 160 samples, and synthesis has at least 12 samples of history, as the callers
guarantee; the pipeline is initialised before it is used (pipeline/aec/aec_processor.h:15-17). Loops nested
in the source are methods of their own here. The mathematics is kept general: any transform length, any
prediction order, any number of taps in the one-sample laws.

Where the code and its comments differ, the model follows the code:

- The ratchet's comment derives message key i from chain key i; the code advances the chain first and
  derives from the new key (encryption/signal/session.py:42-45). A full-size frame advances the receiving
  ratchet before its tag is checked: `SignalModel.FrameOpensAtItsPosition` says a genuine frame opens if and
  only if the receiver has consumed as many full-size frames as were sent before it, and
  `ForgeryDesynchronises` that one forged frame at the start makes every genuine frame after it a bad tag.
- Group frames are unpadded by stripping zeros, so "decrypt returns the plaintext" is false for plaintexts
  ending in a zero byte; `GroupModel.SurvivesExactlyWhen` gives the exact condition.
- The echo canceller is documented to converge, but its step size looks only at the newest reference frame.
  `EchoProcessor.SilenceAfterSoundDiverges` is an input on which it moves away: a frame of ones, a frame of
  silence, and an echo one sample late. `EchoCancellation.FrameConvergesIff` gives the exact condition for
  one `process` call. `FrameSafeIff` gives it in terms of the reference alone, so before the call: for every
  echo path no sample loses ground, if and only if each sample's 512 taps carry at most 160 times the newest
  frame's energy plus 1/2000, or the samples before it in the frame have already learned all its taps could
  show.
- Group names are joined without separators, so names of different lengths can make one string
  (`GroupModel.JoinsCanAgree`). The key tells apart exactly what differs in the sorted concatenation
  (`KeysEqualIff`); for names of one length that is the member set (`KeyIffSameMembers`).
- The pipeline header says a null frame asks for concealment; the code looks only at the `packet_lost`
  argument (pipeline/pipeline.cpp:68), and so does the model.
- The header of the concealment stage lists Opus redundancy below 40 ms; that call is a stub, and without a
  model every loss goes to linear prediction.

## Model

| member | source | states |
|---|---|---|
| BitReversal.RevInvolution | pipeline/noise/noise_suppressor.cpp:18-23 | reversing the digits of an index twice gives the index back, within range |
| BitReversal.ReversedIncrement | pipeline/noise/noise_suppressor.cpp:19-21 | the carry loop always finds a zero digit, and takes the reversal of i to the reversal of i+1 |
| BitReversal.Permute | pipeline/noise/noise_suppressor.cpp:18-23 | the guarded swaps put at position k what was at its reversal, for every k |
| BitReversal.PermuteTwice | pipeline/noise/noise_suppressor.cpp:18-23 | the permutation is its own inverse |
| Fourier.WlenIsRoot | pipeline/noise/noise_suppressor.cpp:26-27 | every stage's twiddle has magnitude one and its half-length power is -1 |
| Fourier.RootIsPrimitive | pipeline/noise/noise_suppressor.cpp:26-27 | no smaller positive power of it is one |
| Fourier.Combine | pipeline/noise/noise_suppressor.cpp:28-37 | a butterfly of the transforms of even and odd samples is the transform of all of them |
| Fft.ButterflyBlock | pipeline/noise/noise_suppressor.cpp:29-36 | one block becomes the butterfly of its halves under a running twiddle; nothing else changes |
| Fft.Stage | pipeline/noise/noise_suppressor.cpp:28-37 | from transforms of all blocks of half the length to transforms of all blocks |
| Fft.Radix2Fft | pipeline/noise/noise_suppressor.cpp:15-39 | the array ends as the plain transform of its old contents, for any power-of-two length |
| Fourier.DftIsTheSum | pipeline/noise/noise_suppressor.cpp:15-39 | entry k of the plain transform is the sum over t of y[t] times the root to the power k t |
| Fourier.DftInSines | pipeline/noise/noise_suppressor.cpp:24-38 | at the last stage's root that is the sum of y[t] (cos(-2 pi k t / n) + i sin(-2 pi k t / n)), the usual sign |
| Fft.Radix2Ifft | pipeline/noise/noise_suppressor.cpp:41-46 | the array ends as the conjugated, transformed, conjugated and scaled old contents |
| Fft.RoundTrip | pipeline/noise/noise_suppressor.cpp:15-46 | both calls in a row leave every array unchanged |
| Fourier.Orthogonality | pipeline/noise/noise_suppressor.cpp:41-46 | the powers of the ratio of two roots sum to n if they are equal and to zero otherwise |
| FourierInverse.InverseOfDft | pipeline/noise/noise_suppressor.cpp:41-46 | the inverse of the transform is the identity on every signal of power-of-two length |
| FourierInverse.DftOfInverse | pipeline/noise/noise_suppressor.cpp:41-46 | and the transform of the inverse is the identity on every spectrum |
| FourierInverse.Parseval | pipeline/noise/noise_suppressor.cpp:15-39 | the spectrum's energy is n times the signal's |
| FourierInverse.RealHasSymmetricDft | pipeline/noise/noise_suppressor.cpp:127-134 | the spectrum of a real signal is conjugate-symmetric |
| FourierInverse.SymmetricHasRealIdft | pipeline/noise/noise_suppressor.cpp:178-189 | a conjugate-symmetric spectrum goes back to an exactly real signal |
| Spectral.HannBound | pipeline/noise/noise_suppressor.cpp:79-82 | window values lie in [0, 1] |
| Spectral.HannIsSquaredSine | pipeline/noise/noise_suppressor.cpp:79-82 | the window is the square of sin(pi i / 159) |
| Spectral.WindowedSpelledOut | pipeline/noise/noise_suppressor.cpp:127-131 | sample t is frame[t] times that square for the first 160 samples, zero from there on |
| Spectral.GainBound | pipeline/noise/noise_suppressor.cpp:170-174 | gains lie in [0.05, 1] for any non-negative power and noise |
| Spectral.GainLaw | pipeline/noise/noise_suppressor.cpp:168-174 | g^2 (P + 1e-12) is P + 1e-12 less 1.5 times the noise, or g is 0.05 where that would leave less than 1/400 |
| NoiseSuppression.ApplyGains | pipeline/noise/noise_suppressor.cpp:167-183 | on a mirrored spectrum every bin k ends scaled by the gain of bin min(k, n-k), and the returned power is the gained half-spectrum's |
| Spectral.ShapedIsSymmetric | pipeline/noise/noise_suppressor.cpp:178-183 | that scaling keeps the spectrum conjugate-symmetric |
| Spectral.NothingDropped | pipeline/noise/noise_suppressor.cpp:127-189 | before `.real()` the suppressor's signal has no imaginary part |
| Spectral.CleanedSpectrum | pipeline/noise/noise_suppressor.cpp:127-189 | the output is the start of a real signal of full length whose every bin is the windowed frame's bin under the gain that rule asks for |
| Spectral.SubtractedPower | pipeline/noise/noise_suppressor.cpp:168-176 | so each bin's power falls by 1.5 times the noise in proportion, or to 1/400 |
| Spectral.NeverAddsEnergy | pipeline/noise/noise_suppressor.cpp:127-189 | the output's sum of squares is at most the input's, for every frame and every non-negative noise estimate |
| NoiseSuppression.PowerSpectrum | pipeline/noise/noise_suppressor.cpp:136-142 | bin powers and their total |
| NoiseSuppression.SmoothInPlace | pipeline/noise/noise_suppressor.cpp:161-165 | the estimate moves to the exponential average with the bin powers |
| NoiseSuppression.SmoothedIsValid | pipeline/noise/noise_suppressor.cpp:161-165 | the averaged estimate stays non-negative in every bin |
| NoiseSuppression.Bootstrap | pipeline/noise/noise_suppressor.cpp:144-165 | the first five frames are learned whatever their level: every bin is the exponential average of 1e-6 and their powers |
| NoiseSuppression.LearnsIff | pipeline/noise/noise_suppressor.cpp:144-165 | a frame is learned if and only if it is among the first five or its power is less than three decibels above the estimate |
| NoiseSuppression.ReductionNonneg | pipeline/noise/noise_suppressor.cpp:191-193 | the reported noise reduction is never negative |
| NoiseSuppression.NoiseSuppressor.constructor | pipeline/noise/noise_suppressor.cpp:76-83 | the initial estimate and the window |
| NoiseSuppression.NoiseSuppressor.Process | pipeline/noise/noise_suppressor.cpp:125-196 | output and next state (bootstrap count, noise-only decision, estimate, dB figure) as defined on the plain transform; energy never rises |
| NoiseSuppression.NoiseSuppressor.Reset | pipeline/noise/noise_suppressor.cpp:198-202 | back to the initial state |
| Toeplitz.Deflate | pipeline/plc/plc_processor.cpp:22-47 | removing a vector's first coordinate along the prediction filter lowers its Toeplitz form by exactly that coordinate squared times the error |
| Toeplitz.LevinsonStep | pipeline/plc/plc_processor.cpp:31-43 | one step of order growth solves the next order and leaves the error times 1 - k^2 |
| LinearPrediction.NormalEquations | pipeline/plc/plc_processor.cpp:22-47 | with no clamp so far the coefficients solve the normal equations of their order, early exits included |
| LinearPrediction.NormalEquationsSpelledOut | pipeline/plc/plc_processor.cpp:22-47 | the same as sums: sum_j a[j] R[\|m-j\|] = -R[m+1], and err = R[0] + sum_j a[j] R[j+1] |
| LinearPrediction.ErrorNeverRises | pipeline/plc/plc_processor.cpp:26-46 | in every run, clamped or not, the error never increases; it stays positive for R[0] at least 1e-12, and below that nothing is predicted |
| LinearPrediction.OrderGrows | pipeline/plc/plc_processor.cpp:26-45 | step i adds a coefficient if and only if all before it did and the error left is above 1e-12 (at the start: at least 1e-12); otherwise nothing changes any more |
| LinearPrediction.OrderReached | pipeline/plc/plc_processor.cpp:26-45 | after i steps there are i coefficients or the error is at most 1e-12 |
| LinearPrediction.ClampBound | pipeline/plc/plc_processor.cpp:36 | the clamp takes the nearest value of its range, leaves a coefficient alone exactly when it is within 0.999, and keeps 1 - k^2 positive |
| LinearPrediction.ClampedIff | pipeline/plc/plc_processor.cpp:31-36 | a run counts as clamped if and only if some step that took place had a coefficient outside 0.999 |
| LinearPrediction.RawReflectionBound | pipeline/plc/plc_processor.cpp:31-36 | for R from any samples the unclamped coefficient is within [-1, 1] until a clamp fires |
| LinearPrediction.MatchedSolves | pipeline/plc/plc_processor.cpp:29-45 | clamped coefficients solve exactly the normal equations of a matched correlation sequence |
| LinearPrediction.BestPredictor | pipeline/plc/plc_processor.cpp:20-47 | no filter of the same order with leading one leaves less residual energy |
| Autocorrelation.FormIsEnergy | pipeline/plc/plc_processor.cpp:148-154 | M times the Toeplitz form of the autocorrelation at v is the squared output of the filter v over the samples |
| PacketLoss.Autocorrelate | pipeline/plc/plc_processor.cpp:148-154 | the biased autocorrelation up to the order, zero for no samples |
| PacketLoss.GrowInPlace | pipeline/plc/plc_processor.cpp:38-41 | the in-place update with a saved copy is the simultaneous one; later entries untouched |
| PacketLoss.LevinsonDurbin | pipeline/plc/plc_processor.cpp:22-47 | array and returned error are those of the recursion, zeros after an early exit |
| PacketLoss.LpcSynthesise | pipeline/plc/plc_processor.cpp:52-69 | the output continues the last samples by the zero-excitation recursion |
| Stability.StepKeepsBound | pipeline/plc/plc_processor.cpp:61-67 | a bound of all combinations of the filter state by the Toeplitz form survives a synthesis step |
| Synthesis.NeverLouderThanHistory | pipeline/plc/plc_processor.cpp:52-69 | without a clamp every synthesised sample, for any count, has its square at most the history's energy |
| Synthesis.AlwaysBounded | pipeline/plc/plc_processor.cpp:29-67 | clamped or not, one constant bounds every sample ever synthesised, from any correlation values and any start |
| Synthesis.ExtendRecurs | pipeline/plc/plc_processor.cpp:61-67 | every synthesised sample is minus the sum of a[k] times the sample k+1 before it |
| PacketLoss.Flatten | pipeline/plc/plc_processor.cpp:136-146 | walking frames and samples backwards and reversing gives the last n samples of the concatenation in time order |
| PacketLoss.PlcProcessor.PushGoodFrame | pipeline/plc/plc_processor.cpp:101-105 | the history is the last 20 of itself and the new frame |
| PacketLoss.PlcProcessor.Conceal | pipeline/plc/plc_processor.cpp:135-171 | a lost frame is the base frame of the history times the fade; the history is unchanged |
| PacketLoss.BaseFramePredicts | pipeline/plc/plc_processor.cpp:135-161 | the base frame continues the flattened history by a recurrence with twelve coefficients; without a clamp they solve the twelve normal equations of its autocorrelation, fewer only when the error is down to 1e-12 |
| PacketLoss.PlcProcessor.Reset | pipeline/plc/plc_processor.cpp:181-183 | the history is empty |
| EchoCancellation.StepIdentity | pipeline/aec/aec_processor.cpp:98-108 | with an exact echo one update lowers the squared weight error by exactly mu e^2 (2 - mu \|\|x\|\|^2) |
| EchoCancellation.StepConverges | pipeline/aec/aec_processor.cpp:102-108 | so it does not grow if and only if there is no error or mu \|\|x\|\|^2 is at most 2 |
| EchoCancellation.SafeTapEnergy | pipeline/aec/aec_processor.cpp:86-92 | mu times an energy is at most 2 if and only if that energy is at most 160 times the newest frame's plus 1/2000 |
| EchoCancellation.SampleConverges | pipeline/aec/aec_processor.cpp:95-109 | sample n of a frame does not lose ground if and only if it has no error or its taps are that safe |
| EchoCancellation.FrameConvergesIff | pipeline/aec/aec_processor.cpp:83-109 | no sample of the frame loses ground if and only if every sample has no error or safe taps |
| EchoCancellation.VisibleError | pipeline/aec/aec_processor.cpp:95-109 | the error of a later sample is the earlier gap to the path, seen through its taps with the directions adapted in between taken out |
| EchoCancellation.FrameSafeIff | pipeline/aec/aec_processor.cpp:83-109 | for the reference and weights held, no echo path makes any sample lose ground if and only if every sample has safe taps or sees nothing of the gap |
| EchoCancellation.SampleSafeIff | pipeline/aec/aec_processor.cpp:83-109 | one step is safe for all paths and weights if and only if the tap energy is |
| EchoCancellation.SilentFrame | pipeline/aec/aec_processor.cpp:86-92 | when the newest frame is silent, sample n is safe for all paths and weights if and only if its buffered taps carry at most 1/2000 |
| EchoCancellation.FrameConverges | pipeline/aec/aec_processor.cpp:83-109 | no sample loses ground when the four preceding frames together have at most 159 times the newest frame's energy plus 1/2000 |
| EchoCancellation.ErrorSpelledOut | pipeline/aec/aec_processor.cpp:95-104 | the error of sample n is the microphone less the sum of w[k] x[N - 160 + n - k] |
| EchoCancellation.DelayedEcho | pipeline/aec/aec_processor.cpp:95-100 | the echo of a delay by d taps is the newest frame taken d samples earlier, for d = 0 the newest frame itself |
| EchoCancellation.KnownPath | pipeline/aec/aec_processor.cpp:95-109 | weights that are the echo path make no error and do not move |
| EchoProcessor.SilenceAfterSoundDiverges | pipeline/aec/aec_processor.cpp:59-109 | on a fresh canceller, sound then silence and an exact echo one sample late: the first sample raises the squared weight error |
| EchoProcessor.RunConservation | pipeline/aec/aec_processor.cpp:59-109 | over any run of pushes and frames the drops add up to what the squared weight error loses |
| EchoProcessor.FreshRunConservation | pipeline/aec/aec_processor.cpp:39-109 | from zero weights they add up to the echo path's energy minus the final squared error, so to at most that energy |
| EchoProcessor.BufferIsStreamTail | pipeline/aec/aec_processor.cpp:59-66 | the buffer is always the newest 2400 samples of the padded reference stream |
| EchoProcessor.RunFrameConverges | pipeline/aec/aec_processor.cpp:59-109 | the frame-energy condition stated on the stream of everything pushed |
| EchoProcessor.RunConverges | pipeline/aec/aec_processor.cpp:59-109 | over any run whose frames meet safe references the squared weight error never rises from one point to a later one |
| EchoProcessor.FreshRunConverges | pipeline/aec/aec_processor.cpp:39-109 | such a run from zero weights takes off between nothing and the echo path's energy in all |
| EchoProcessor.EchoDiesOut | pipeline/aec/aec_processor.cpp:39-109 | from zero weights, if the steps keep a margin below 2, all output energy of the run, weighted with the step sizes, is at most the echo path's energy divided by the margin |
| EchoProcessor.OutputSpelledOut | pipeline/aec/aec_processor.cpp:95-104 | each output sample is the microphone less the reference filtered with the weights reached by then |
| EchoProcessor.KnownPathIsSilent | pipeline/aec/aec_processor.cpp:95-109 | a canceller holding the echo path puts out silence and keeps its weights |
| EchoProcessor.DelayIsSilent | pipeline/aec/aec_processor.cpp:95-109 | for a pure delay, exactly on the buffer's samples that many back |
| EchoProcessor.PowersAreAverages | pipeline/aec/aec_processor.cpp:59-112 | over any run the two power estimates are the exponential averages of the pushed and the output frames' mean powers |
| EchoProcessor.ErleSign | pipeline/aec/aec_processor.cpp:130-132 | the echo return loss changes only above the floor, and is non-negative if and only if the echo power is at least the residual's plus the floor |
| EchoProcessor.EchoEstimate | pipeline/aec/aec_processor.cpp:98-100 | the inner product of weights and taps, every index in range |
| EchoProcessor.UpdateWeights | pipeline/aec/aec_processor.cpp:106-108 | the weights move by the step along the taps |
| EchoProcessor.Adapt | pipeline/aec/aec_processor.cpp:95-109 | the frame's output is the error signal and the weights those after all its updates |
| EchoProcessor.AecProcessor.Init | pipeline/aec/aec_processor.cpp:39-57 | 2400 and 512 zeros; power estimates untouched |
| EchoProcessor.AecProcessor.PushReference | pipeline/aec/aec_processor.cpp:59-71 | the buffer slides by one frame and the echo power is smoothed; weights untouched |
| EchoProcessor.AecProcessor.Process | pipeline/aec/aec_processor.cpp:73-135 | before Init the frame passes through; afterwards output and state are those of the adapting filter |
| EchoProcessor.AecProcessor.Reset | pipeline/aec/aec_processor.cpp:137-143 | back to the state after a first Init |
| PipelineModel.ResetForgets | pipeline/pipeline.cpp:114-122 | after any run and a reset, every frame and every stats reading is that of a fresh pipeline |
| PipelineModel.BurstFrame | pipeline/pipeline.cpp:68-72 | after a good frame, a reset or a fresh start, with any reference frames between the losses, the j-th concealed frame is max(0, 1 - j/10) times one frame fixed by the history at the start |
| PipelineModel.BurstCounts | pipeline/pipeline.cpp:68-72 | after a good frame or a reset, whatever came before, the counter is 10 ms for each loss since; history and suppressor are as they were |
| PipelineModel.CounterAndStats | pipeline/pipeline.cpp:62-105 | over any run the counter is 10 ms for each loss since the last good frame or reset, and the stats are always current |
| PipelineModel.AnyLoss | pipeline/pipeline.cpp:68-70 | any loss of any run, the j-th since then, is max(0, 1 - j/10) times the frame the history determines |
| PipelineModel.BurstPredicts | pipeline/plc/plc_processor.cpp:135-169 | its samples are that fade times a sequence that continues the flattened history by a fixed recurrence of order 12; the coefficients solve the normal equations when no clamp fired |
| PipelineModel.NothingToConceal | pipeline/plc/plc_processor.cpp:171-172 | with no history a loss is silence |
| PipelineModel.BurstState | pipeline/pipeline.cpp:51-70 | a burst leaves history and suppressor alone and counts 10 ms for each loss |
| PipelineModel.BurstFadesOut | pipeline/plc/plc_processor.cpp:163-166 | the energy never rises from one loss of a burst to a later one, and from the tenth on the output is silence |
| PipelineModel.ConcealedSampleBound | pipeline/plc/plc_processor.cpp:135-169 | every sample concealed anywhere in a burst has its square at most the flattened history's energy when no clamp fired |
| PipelineModel.HistoryIsRecentOutputs | pipeline/pipeline.cpp:92 | over any run the history is the last 20 good outputs since the reset |
| PipelineModel.FlattenedHistory | pipeline/plc/plc_processor.cpp:136-146 | what concealment flattens is the last 320 samples of all good output since the reset |
| PipelineModel.SuppressionNeverAdds | pipeline/pipeline.cpp:79-86 | a good frame leaves with at most the energy the echo canceller gave it |
| PipelineModel.GoodFrameSpectrum | pipeline/pipeline.cpp:79-86 | a good frame is the start of a real signal whose every bin is that of the windowed, cancelled frame under Boll's rule |
| PipelineModel.CancellerRuns | pipeline/pipeline.cpp:51-86 | between resets the canceller's state is its run on the references and good frames in order; losses do not touch it |
| PipelineModel.SuppressorRuns | pipeline/pipeline.cpp:79-86 | and the suppressor's is its run on the cancelled good frames |
| PipelineModel.KnownEchoIsSilenced | pipeline/pipeline.cpp:79-86 | once the canceller holds the echo path, a frame of echo alone comes out as silence |
| PipelineModel.OutputDiesOut | pipeline/pipeline.cpp:62-93 | end to end on a fresh pipeline hearing echo alone: all good output, weighted with the step sizes, is at most the path's energy divided by the margin, losses or not |
| PipelineObject.Pipeline.Init | pipeline/pipeline.cpp:35-49 | a newly built pipeline reaches the initial state |
| PipelineObject.Pipeline.PushReference | pipeline/pipeline.cpp:51-60 | the state moves as the model's reference command |
| PipelineObject.Pipeline.Process | pipeline/pipeline.cpp:62-107 | output, stage states, loss counter and stats move as the model's lost or good command; a lost frame's argument is never looked at |
| PipelineObject.Pipeline.ProcessLost | pipeline/pipeline.cpp:68-70 | a loss only moves the counter and stats, and conceals with the counted milliseconds |
| PipelineObject.Pipeline.ProcessGood | pipeline/pipeline.cpp:71-93 | stages in order, counter cleared, output remembered; energy at most the cancelled frame's |
| PipelineObject.Pipeline.Reset | pipeline/pipeline.cpp:114-122 | an initialised pipeline is exactly in the fresh state |
| SignalModel.UnpadPad | encryption/signal/session.py:74-77 | the length byte makes unpadding exact up to 227 bytes, trailing zeros included |
| SignalModel.PadLayout | encryption/signal/session.py:74-76 | 228 bytes: the length, the plaintext cut to 227, zeros |
| SignalModel.UnpadLaw | encryption/signal/session.py:94-95 | from anything that opens, as many bytes as the first one says, or all that follow it |
| SignalModel.FrameKeyUnrolled | encryption/signal/session.py:40-47 | frame 0 is keyed from the advanced chain key, and frame i + 1 is frame i of the advanced chain |
| SignalModel.ReceiverPosition | encryption/signal/session.py:86-95 | whatever arrives, the receiving chain has advanced once per 256-byte frame |
| SignalModel.FrameOpensAtItsPosition | encryption/signal/session.py:40-47 | frame i opens, to its plaintext, if and only if the receiver has consumed i full-size frames, genuine or forged; anywhere else it is a bad tag |
| SignalModel.DeliveredFrameOpensIff | encryption/signal/session.py:67-95 | in any list of arriving frames a genuine one opens if and only if as many full-size frames arrived before it as were sent before it |
| SignalModel.ForgeryDesynchronises | encryption/signal/session.py:86-95 | after one forged full-size frame every genuine frame of an in-order run is a bad tag |
| SignalModel.Lockstep | encryption/signal/session.py:67-95 | in order and without loss: 256-byte wires, equal chain keys, and the i-th answer is the i-th plaintext cut to 227 bytes |
| SignalModel.DoubleRatchetSession.NextMessageKey | encryption/signal/session.py:40-47 | the chain advances by HKDF with 1 and "chain" first, then the key is HKDF of the new chain key with 2 and "msg" |
| SignalModel.SignalSession.Encrypt | encryption/signal/session.py:67-84 | nonce and sealed layout, 256 bytes, under the next frame key; the size check cannot fail; only the sending ratchet moves |
| SignalModel.SignalSession.Decrypt | encryption/signal/session.py:86-95 | wrong sizes are refused with no change; a bad tag is reported after the ratchet has moved |
| SignalModel.Transmit | encryption/signal/session.py:67-95 | one frame between sessions with equal keys arrives, and the keys are equal again |
| Sorting.SortCanonical | encryption/mls/group.py:38 | sorting gives one list for all orders of the same byte strings |
| Sorting.LexMeans | encryption/mls/group.py:38 | the order is decided by the first differing byte, and a prefix comes first |
| GroupModel.KeyOfSet | encryption/mls/group.py:36-39 | the epoch key depends only on the secret and the set of members |
| GroupModel.EpochKeyOfSorted | encryption/mls/group.py:36-39 | names in order are joined as they are; one name alone is the message |
| GroupModel.JoinDecodes | encryption/mls/group.py:38 | names of one length can be read back from their concatenation |
| GroupModel.EpochKeyIff | encryption/mls/group.py:36-39 | for encoded names of one length two keys are equal if and only if the names are, unless HMAC collides |
| GroupModel.KeysEqualIff | encryption/mls/group.py:36-39 | for names of any lengths two keys are equal if and only if their sorted concatenations are, unless HMAC collides |
| GroupModel.JoinsCanAgree | encryption/mls/group.py:36-39 | for names of different lengths that fails: an input |
| GroupModel.KeyIffSameMembers | encryption/mls/group.py:71-76 | two member lists have one key if and only if they name the same members |
| GroupModel.KeyForgetsHistory | encryption/mls/group.py:61-76 | two histories of joins and leaves that end in the same set end in the same key |
| GroupModel.KeyIffSameOutcome | encryption/mls/group.py:61-76 | and only then: two histories end in one key if and only if they end with the same members |
| GroupModel.NeverOverfull | encryption/mls/group.py:61-69 | no run takes a group past 50 members |
| GroupModel.NonceDecodes | encryption/mls/group.py:110-112 | the 12 bytes determine epoch and sequence number |
| GroupModel.NoncesIncrease | encryption/mls/group.py:71-88 | over any interleaving of joins, leaves and frames the nonces strictly increase |
| GroupModel.NoncesNeverRepeat | encryption/mls/group.py:71-88 | so no two frames of one session share a nonce |
| GroupModel.ConsecutiveNonces | encryption/mls/group.py:80-88 | frames in a row carry the epoch and consecutive numbers |
| GroupModel.SurvivesExactlyWhen | encryption/mls/group.py:82-99 | padding and stripping return a plaintext if and only if it fits 228 bytes and does not end in a zero byte |
| GroupModel.StripPad | encryption/mls/group.py:82-99 | what comes back in general: the first 228 bytes without trailing zeros |
| GroupModel.MlsGroupSession.constructor | encryption/mls/group.py:50-57 | epoch zero with the key of the empty group |
| GroupModel.MlsGroupSession.AddMember | encryption/mls/group.py:61-65 | refused with no change at 50 members, even for a known member; otherwise the set grows and the epoch rotates |
| GroupModel.MlsGroupSession.RemoveMember | encryption/mls/group.py:67-69 | the member is gone and the epoch rotates, known or not |
| GroupModel.MlsGroupSession.RotateEpoch | encryption/mls/group.py:71-76 | key of the current set, next epoch, sequence zero |
| GroupModel.MlsGroupSession.Encrypt | encryption/mls/group.py:80-88 | a 256-byte frame under the counted nonce, or a field overflow with no change |
| GroupModel.MlsGroupSession.Decrypt | encryption/mls/group.py:90-99 | exactly when the size, overflow and tag errors arise; otherwise the opened text without its trailing zeros, never ending in one |
| GroupModel.Transmit | encryption/mls/group.py:80-99 | a frame between sessions with one secret and one member set, however reached, arrives cut and stripped |
| GroupModel.TransmitOutside | encryption/mls/group.py:80-99 | between sessions with different member sets a frame is a bad tag |

## Left out

- Floating-point rounding and overflow: the model is over exact reals.
- Decibel figures: log10 enters only as an increasing function that is zero at one, so decisions and signs
  are proved but no level such as 10 dB is claimed.
- The ONNX, LPCNet and Maxine branches, and `decode_fec`, which always returns false.
- Source separation: without its model it passes frames through, and the pipeline model does the same.
- Wall-clock latency and the stats mutex: calls are sequential, and `pipeline_ms` is not part of the stats.
- Frame buffers: a frame passed between stages is a value, so sharing of its memory is not modelled; the
  arrays the stages own are.
- NoiseSuppression.ApplyGains: requires a mirrored spectrum, which `Process` always supplies; for other
  spectra nothing is said.
- Synthesis.NeverLouderThanHistory: only for runs in which no clamp fired; for clamped runs `AlwaysBounded`
  gives a constant, not the history's energy.
- EchoCancellation.FrameConverges: a sufficient condition on frame energies; the exact ones are
  `FrameConvergesIff` and `FrameSafeIff`.
- Agreement of the ratchets made by `from_x3dh`: both ends derive the same sending key, so matching keys are
  a hypothesis of the session theorems.
- Nonces shared by different group sessions: not excluded, and nothing is claimed.
- Freshness of group keys: removing and re-adding a member gives the old key back, so no rotation property
  is claimed.
- The coordinator, the desktop application, the training scripts and the test harnesses.
