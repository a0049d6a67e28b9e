/** The pipeline object: it owns the stages and moves exactly as the model says. */
module PipelineObject {
  import opened Sums
  import opened Frames
  import opened MathLib
  import opened Spectral
  import opened NoiseSuppression
  import opened EchoCancellation
  import opened EchoProcessor
  import opened PacketLoss
  import opened PipelineModel

  class Pipeline {
    const lib: Lib
    const aec: AecProcessor
    const noise: NoiseSuppressor
    const plc: PlcProcessor
    var plcLossMs: int
    var lastStats: Stats

    ghost predicate Valid()
      reads this, aec, noise, plc, noise.noisePsd, noise.hannWin
    {
      && aec.lib == lib && noise.lib == lib
      && aec.Valid() && noise.Valid()
      && {aec.refBuf, aec.w} !! {noise.noisePsd, noise.hannWin}
      && |plc.history| <= HISTORY_FRAMES && AllFrames(plc.history)
    }

    ghost function State(): Pipe
      reads this, aec, noise, plc, aec.refBuf, aec.w, noise.noisePsd
    {
      Pipe(aec.State(), noise.State(), plc.history, plcLossMs, lastStats)
    }

    constructor (m: Lib)
      requires Lawful(m)
      ensures Valid() && lib == m
      ensures fresh(aec) && fresh(noise) && fresh(plc)
      ensures fresh(aec.refBuf) && fresh(aec.w) && fresh(noise.noisePsd)
      ensures aec.refBuf.Length == 0 && aec.echoPower == aec.errorPower == POWER_FLOOR && aec.erleDb == 0.0
      ensures noise.State() == InitialNoise() && plc.history == [] && plcLossMs == 0
      ensures lastStats == Stats(0.0, 0.0, 0)
    {
      lib := m;
      aec := new AecProcessor(m);
      noise := new NoiseSuppressor(m);
      plc := new PlcProcessor();
      plcLossMs := 0;
      lastStats := Stats(0.0, 0.0, 0);
    }

    /** The CPU path of init: allocate the echo canceller; the other stages need nothing.
        On a newly built pipeline this reaches the initial state. */
    method Init()
      requires Valid()
      modifies aec
      ensures Valid() && aec.Initialised() && fresh(aec.refBuf) && fresh(aec.w)
      ensures old(aec.echoPower == POWER_FLOOR && aec.errorPower == POWER_FLOOR && aec.erleDb == 0.0
                  && noise.State() == InitialNoise() && plc.history == [] && plcLossMs == 0
                  && lastStats == Stats(0.0, 0.0, 0))
        ==> State() == InitialPipe()
    {
      aec.Init();
    }

    method PushReference(frame: seq<real>)
      requires Valid() && aec.Initialised() && |frame| == FRAME_SIZE
      modifies aec, aec.refBuf
      ensures Valid() && aec.Initialised() && aec.refBuf == old(aec.refBuf) && aec.w == old(aec.w)
      ensures PipeReady(old(State())) && State() == Next(lib, old(State()), Reference(frame))
    {
      aec.PushReference(frame);
    }

    /** A lost packet: count it and conceal. */
    method ProcessLost() returns (out: seq<real>)
      requires Valid() && aec.Initialised()
      modifies this
      ensures Valid() && aec.Initialised()
      ensures PipeReady(old(State())) && State() == Next(lib, old(State()), Lost)
      ensures out == Output(lib, old(State()), Lost)
    {
      hide BaseFrame, Fade, Faded, Concat, Lawful, Hann, TakeLast;
      HistorySuffices(plc.history);
      plcLossMs := plcLossMs + FRAME_SIZE_MS;
      out := plc.Conceal(plcLossMs);
      lastStats := Stats(aec.erleDb, noise.reductionDb, plcLossMs);
    }

    /** A received packet: cancel, suppress, pass through the separator, remember. */
    method ProcessGood(frame: seq<real>) returns (out: seq<real>)
      requires Valid() && aec.Initialised() && |frame| == FRAME_SIZE
      modifies this, aec, aec.w, noise, noise.noisePsd, plc
      ensures Valid() && aec.Initialised() && aec.refBuf == old(aec.refBuf) && aec.w == old(aec.w)
      ensures noise.noisePsd == old(noise.noisePsd)
      ensures PipeReady(old(State())) && State() == Next(lib, old(State()), Good(frame))
      ensures out == Output(lib, old(State()), Good(frame))
      ensures Energy(out) <= Energy(Cancelled(old(State()).aec, frame))
    {
      hide Cancelled, Processed, NextNoise, Cleaned, Spectrum, Energy, TakeLast, AllFrames, Lawful, Hann;
      plcLossMs := 0;
      out := aec.Process(frame);
      out := noise.Process(out);
      RememberFrame(plc.history, out);
      plc.PushGoodFrame(out);
      lastStats := Stats(aec.erleDb, noise.reductionDb, plcLossMs);
    }

    /** One 10 ms frame; what is passed for a lost one is never looked at. */
    method Process(frame: seq<real>, packetLost: bool) returns (out: seq<real>)
      requires Valid() && aec.Initialised() && (packetLost || |frame| == FRAME_SIZE)
      modifies this, aec, aec.w, noise, noise.noisePsd, plc
      ensures Valid() && aec.Initialised() && aec.refBuf == old(aec.refBuf) && aec.w == old(aec.w)
      ensures noise.noisePsd == old(noise.noisePsd)
      ensures PipeReady(old(State()))
      ensures State() == Next(lib, old(State()), if packetLost then Lost else Good(frame))
      ensures out == Output(lib, old(State()), if packetLost then Lost else Good(frame))
    {
      if packetLost {
        out := ProcessLost();
      } else {
        out := ProcessGood(frame);
      }
    }

    /** Reset brings an initialised pipeline to exactly the state of a fresh one. */
    method Reset()
      requires Valid() && aec.Initialised()
      modifies this, aec, aec.refBuf, aec.w, noise, noise.noisePsd, plc
      ensures Valid() && aec.Initialised() && aec.refBuf == old(aec.refBuf) && aec.w == old(aec.w)
      ensures noise.noisePsd == old(noise.noisePsd)
      ensures State() == InitialPipe()
    {
      aec.Reset();
      noise.Reset();
      plc.Reset();
      plcLossMs := 0;
      lastStats := Stats(0.0, 0.0, 0);
    }
  }
}
