/**
 The receiver's one static state: gates, pause snapshot, timing and buffer, changed in
 place by the control operations. Each method equals its specification in Receiver.
 */
module ReceiverState {
  import opened Words
  import opened AudioBuffer
  import opened Playout
  import opened SeekGates
  import opened Receiver

  class AudioReceiver {
    const timing: Playout
    const buffer: AudioBuffer
    var discardAll: bool
    var armNext: bool
    var beforeRtp: u32
    var beforeOn: bool
    var aboveRtp: u32
    var aboveOn: bool
    var pausedRtp: u32
    var pausedValid: bool

    ghost predicate Valid()
      reads this, buffer, buffer.slots, buffer.sorted, buffer.freeStack
    {
      buffer.Valid()
    }

    ghost function GateState(): Gates
      reads this
    {
      Gates(discardAll, armNext, beforeRtp, beforeOn, aboveRtp, aboveOn)
    }

    ghost function State(): Receiver
      requires Valid()
      reads this, timing, buffer, buffer.slots, buffer.sorted, buffer.freeStack
    {
      Receiver(timing.State(), buffer.Frames(), GateState(), pausedRtp, pausedValid)
    }

    constructor (timing: Playout, buffer: AudioBuffer)
      requires buffer.Valid()
      ensures Valid() && this.timing == timing && this.buffer == buffer
      ensures State() == Receiver(timing.State(), buffer.Frames(), Gates(false, false, 0, false, 0, false), 0, false)
    {
      this.timing, this.buffer := timing, buffer;
      discardAll, armNext, beforeRtp, beforeOn, aboveRtp, aboveOn := false, false, 0, false, 0, false;
      pausedRtp, pausedValid := 0, false;
    }

    /** The gate check at the head of frame processing. */
    method GateFrame(ts: u32) returns (passed: bool)
      modifies this`beforeOn, this`aboveOn
      ensures (GateState(), passed) == Check(old(GateState()), ts)
    {
      if discardAll {
        return false;
      }
      if beforeOn {
        if Signed32(ts - beforeRtp) < 0 {
          return false;
        }
        beforeOn := false;
      }
      if aboveOn {
        if Signed32(ts - aboveRtp) > 0 {
          return false;
        }
        aboveOn := false;
      }
      passed := true;
    }

    method ArmGates(rtp: u32, rate: nat)
      modifies this`beforeRtp, this`beforeOn, this`aboveRtp, this`aboveOn
      ensures GateState() == ArmedAt(old(GateState()), rtp, rate)
    {
      beforeRtp := rtp;
      beforeOn := true;
      aboveRtp := Wrap32(rtp + 10 * rate);
      aboveOn := true;
    }

    method Restart()
      requires Valid()
      modifies buffer, buffer.freeStack, timing
      ensures Valid() && State() == Restarted(old(State()))
    {
      buffer.FlushAll();
      timing.Restart();
    }

    /** Gates are armed before the blanket gate opens. */
    method ArmForAnchor(rtp: u32, nowUs: int, rate: nat) returns (armed: bool)
      requires Valid()
      modifies this, buffer, buffer.freeStack, timing
      ensures Valid() && State() == AnchorPhase1(old(State()), rtp, nowUs, rate)
      ensures armed == (old(armNext) || JumpsFromPosition(old(State()), rtp, nowUs, rate))
    {
      hide ExpectedRtp, Distance;
      armed := false;
      if armNext {
        armNext := false;
        ArmGates(rtp, rate);
        armed := true;
      }
      if !armed && timing.anchorValid {
        var reference: u32;
        if pausedValid {
          reference := pausedRtp;
          pausedValid := false;
        } else {
          reference := ExpectedRtp(timing.anchor, nowUs, rate);
        }
        if Distance(rtp, reference) > 5 * rate {
          Restart();
          ArmGates(rtp, rate);
          armed := true;
        }
      }
      discardAll := false;
    }

    method SetAnchorTime(netNs: int, rtp: u32, nowUs: int, sampleRate: int)
      requires Valid()
      modifies this, buffer, buffer.freeStack, timing
      ensures Valid() && State() == SetAnchor(old(State()), netNs, rtp, nowUs, sampleRate)
    {
      hide Distance, AnchorPhase1, JumpsFromPosition;
      var rate := RateOf(sampleRate);
      var armed := ArmForAnchor(rtp, nowUs, rate);
      var oldest := buffer.OldestTimestamp();
      if oldest.Some? && Distance(oldest.value, rtp) > 5 * rate {
        Restart();
        if !armed {
          ArmGates(rtp, rate);
        }
      }
      timing.SetAnchor(netNs, rtp, nowUs);
    }

    method SetPlaying(playing: bool, nowUs: int, sampleRate: int)
      requires Valid()
      modifies this, timing
      ensures Valid() && State() == WithPlaying(old(State()), playing, nowUs, sampleRate)
    {
      timing.SetPlaying(playing);
      if !playing {
        if timing.anchorValid {
          pausedRtp, pausedValid := ExpectedRtp(timing.anchor, nowUs, RateOf(sampleRate)), true;
        }
      }
    }

    /** audio_receiver_pause: stop the consumer, leave the buffer filling. */
    method Pause()
      requires Valid()
      modifies timing
      ensures Valid() && State() == Paused(old(State()))
    {
      timing.SetPlaying(false);
    }

    method Flush()
      requires Valid()
      modifies this, buffer, buffer.freeStack, timing
      ensures Valid() && State() == Emptied(old(State()))
    {
      buffer.FlushAll();
      timing.Reset();
      beforeOn, aboveOn, armNext, discardAll, pausedValid := false, false, false, false, false;
    }

    method SeekFlush()
      requires Valid()
      modifies this, buffer, buffer.freeStack, timing
      ensures Valid() && State() == SeekEmptied(old(State()))
    {
      Flush();
      timing.quickStart := true;
      armNext := true;
      discardAll := true;
    }

    /** The time is written before the flag that makes it count. */
    method SetDeferredFlush(until: u32)
      requires Valid()
      modifies timing
      ensures Valid() && State() == DeferFlush(old(State()), until)
    {
      timing.flushUntil := until;
      timing.deferred := true;
    }
  }
}
