/**
  How the speed phases of module Sampling feed the workers of module Protocol: each sample the
  consumer receives is one step of the worker, and the end of the phase is its last.
*/
module Phases {
  import opened Options
  import opened Counting
  import opened Protocol
  import opened ProtocolSafety
  import opened ProtocolMessages
  import opened ProtocolDeterminism
  import opened ProtocolStreams
  import Sampling

  // ------------------------------------------------- what a phase hands over

  /** The samples the consumer has received, in order. */
  function Received(evs: seq<Sampling.Event>): seq<nat> {
    if evs == [] then []
    else
      var before, e := evs[..|evs| - 1], evs[|evs| - 1];
      var s := Sampling.After(before);
      Received(before) + if e.Receive? && Sampling.Enabled(s, e) then [s.buffer[0]] else []
  }

  lemma ReceiveOnly(s: Sampling.State, e: Sampling.Event)
    requires !e.Receive? || !Sampling.Enabled(s, e)
    ensures Sampling.Apply(s, e).sum == s.sum && Sampling.Apply(s, e).peak == s.peak
  {
  }

  lemma ReceiveOne(s: Sampling.State, e: Sampling.Event, got: seq<nat>)
    requires e.Receive? && Sampling.Enabled(s, e) && Sum(got, SELF) == s.sum && Sampling.Largest(got) == s.peak
    ensures Sum(got + [s.buffer[0]], SELF) == Sampling.Apply(s, e).sum
    ensures Sampling.Largest(got + [s.buffer[0]]) == Sampling.Apply(s, e).peak
  {
    hide Sum, Sampling.Largest;
    SumSnoc(got, s.buffer[0]);
    Sampling.LargestAppend(got, s.buffer[0]);
  }

  lemma {:induction false} ReceivedTotals(evs: seq<Sampling.Event>)
    ensures Sum(Received(evs), SELF) == Sampling.After(evs).sum
    ensures Sampling.Largest(Received(evs)) == Sampling.After(evs).peak
  {
    if evs != [] {
      hide Sum, Sampling.Largest, Sampling.Apply, Sampling.Enabled;
      var before, e := evs[..|evs| - 1], evs[|evs| - 1];
      var s := Sampling.After(before);
      ReceivedTotals(before);
      if e.Receive? && Sampling.Enabled(s, e) {
        ReceiveOne(s, e, Received(before));
      } else {
        ReceiveOnly(s, e);
        assert Received(before) + [] == Received(before);
      }
    }
  }

  /** runSpeedPhase closes with a message of no speed when the phase returned less than 1. */
  predicate Closes(s: Sampling.State) {
    s.producer.Returned? && s.producer.peak < 1
  }

  /** In every phase that is over: the closing message is sent if and only if no byte was ever swapped out. */
  lemma ClosingExactly(evs: seq<Sampling.Event>)
    requires Sampling.Over(Sampling.After(evs))
    ensures Closes(Sampling.After(evs)) <==> Sampling.After(evs).total == 0
  {
    Sampling.AlwaysConserved(evs);
  }

  // ------------------------------------------------- what a worker makes of it

  /** A stretch of a worker's log whose choices are samples of these sizes. */
  ghost predicate Carries(samples: seq<(Choice, bool)>, received: seq<nat>) {
    if samples == [] || received == [] then samples == [] && received == []
    else
      var (ch, _) := samples[|samples| - 1];
      && ch.Sample? && ch.bytes == received[|received| - 1]
      && Carries(samples[..|samples| - 1], received[..|received| - 1])
  }

  /** A stretch of a worker's log that a phase produced. */
  ghost predicate Feeds(phase: seq<(Choice, bool)>, received: seq<nat>, failed: bool) {
    && phase != []
    && Carries(phase[..|phase| - 1], received)
    && phase[|phase| - 1].0 == Finish(failed)
  }

  /** The messages of the samples. */
  function Reports(i: nat, samples: seq<(Choice, bool)>): seq<Message> {
    if samples == [] then []
    else
      var (ch, _) := samples[|samples| - 1];
      Reports(i, samples[..|samples| - 1]) + if ch.Sample? then [GotSpeed(i, ch.avg, ch.bytes)] else []
  }

  lemma OneSample(p: Params, i: nat, log: seq<(Choice, bool)>, d: nat, ch: Choice, cancelled: bool)
    requires p.Valid() && i < p.N() && Replay(p, i, log) == (Speed, d) && ch.Sample?
    ensures Replay(p, i, log + [(ch, cancelled)]) == (Speed, d + ch.bytes)
    ensures Emitted(p, i, log + [(ch, cancelled)]) == Emitted(p, i, log) + [GotSpeed(i, ch.avg, ch.bytes)]
  {
    ReplayAppend(p, i, log, ch, cancelled);
    EmittedSnoc(p, i, log, ch, cancelled);
    hide Replay, Emitted;
  }

  lemma OneFinish(p: Params, i: nat, log: seq<(Choice, bool)>, d: nat, failed: bool, cancelled: bool)
    requires p.Valid() && i < p.N() && Replay(p, i, log) == (Speed, d)
    ensures Replay(p, i, log + [(Finish(failed), cancelled)]) == (SpeedDone, d)
    ensures Emitted(p, i, log + [(Finish(failed), cancelled)])
         == Emitted(p, i, log) + if failed then [GotSpeed(i, 0, 0)] else []
  {
    ReplayAppend(p, i, log, Finish(failed), cancelled);
    EmittedSnoc(p, i, log, Finish(failed), cancelled);
    hide Replay, Emitted;
  }

  lemma Regroup<T>(a: seq<T>, b: seq<T>, x: T)
    ensures a + (b + [x]) == a + b + [x]
  {
  }

  lemma {:induction false} SamplesReplay(p: Params, i: nat, log: seq<(Choice, bool)>, d: nat,
                                         samples: seq<(Choice, bool)>, received: seq<nat>)
    requires p.Valid() && i < p.N() && Replay(p, i, log) == (Speed, d) && Carries(samples, received)
    ensures Replay(p, i, log + samples) == (Speed, d + Sum(received, SELF))
    ensures Emitted(p, i, log + samples) == Emitted(p, i, log) + Reports(i, samples)
  {
    hide Emitted, Replay;
    if samples == [] {
      assert log + samples == log;
      assert Emitted(p, i, log) + [] == Emitted(p, i, log);
    } else {
      hide Sum;
      var front, got := samples[..|samples| - 1], received[..|received| - 1];
      var (ch, cancelled) := samples[|samples| - 1];
      SamplesReplay(p, i, log, d, front, got);
      OneSample(p, i, log + front, d + Sum(got, SELF), ch, cancelled);
      SumSnoc(got, ch.bytes);
      assert received == got + [ch.bytes] && samples == front + [(ch, cancelled)];
      Regroup(log, front, (ch, cancelled));
      Regroup(Emitted(p, i, log), Reports(i, front), GotSpeed(i, ch.avg, ch.bytes));
    }
  }

  /** A phase takes the worker through its download: the bytes add up, and each sample is reported. */
  lemma PhaseReplay(p: Params, i: nat, log: seq<(Choice, bool)>, d: nat,
                    phase: seq<(Choice, bool)>, received: seq<nat>, failed: bool)
    requires p.Valid() && i < p.N() && Replay(p, i, log) == (Speed, d) && Feeds(phase, received, failed)
    ensures Replay(p, i, log + phase) == (SpeedDone, d + Sum(received, SELF))
    ensures Emitted(p, i, log + phase)
         == Emitted(p, i, log) + Reports(i, phase[..|phase| - 1]) + if failed then [GotSpeed(i, 0, 0)] else []
  {
    hide Emitted, Replay, Sum, Reports, Carries;
    var samples := phase[..|phase| - 1];
    var (ch, cancelled) := phase[|phase| - 1];
    SamplesReplay(p, i, log, d, samples, received);
    OneFinish(p, i, log + samples, d + Sum(received, SELF), failed, cancelled);
    assert phase == samples + [(ch, cancelled)];
    Regroup(log, samples, (ch, cancelled));
  }

  predicate Downloaded(pc: Pc) {
    pc.SpeedDone? || pc.Upload? || pc.Sending? || pc.Returning?
  }

  lemma DownloadedStep(p: Params, i: nat, cancelled: bool, down: nat, pc: Pc, ch: Choice)
    requires p.Valid() && i < p.N() && Downloaded(pc) && Local(p, i, cancelled, down, pc, ch).Some?
    ensures
      var eff := Local(p, i, cancelled, down, pc, ch).value;
      Downloaded(eff.next) && eff.bytes == 0
  {
  }

  /** After the download no step adds bytes. */
  lemma {:induction false} DownloadedStays(p: Params, i: nat, log: seq<(Choice, bool)>, rest: seq<(Choice, bool)>)
    requires p.Valid() && i < p.N() && Downloaded(Replay(p, i, log).0)
    ensures Downloaded(Replay(p, i, log + rest).0) && Replay(p, i, log + rest).1 == Replay(p, i, log).1
  {
    if rest == [] {
      assert log + rest == log;
    } else {
      hide Replay, Local;
      var last := |rest| - 1;
      var (ch, cancelled) := rest[last];
      DownloadedStays(p, i, log, rest[..last]);
      assert log + rest == (log + rest[..last]) + [(ch, cancelled)];
      ReplayAppend(p, i, log + rest[..last], ch, cancelled);
      var (pc, down) := Replay(p, i, log + rest[..last]);
      if Local(p, i, cancelled, down, pc, ch).Some? {
        DownloadedStep(p, i, cancelled, down, pc, ch);
      }
    }
  }

  lemma QuietStep(p: Params, i: nat, cancelled: bool, down: nat, pc: Pc, ch: Choice)
    requires p.Valid() && i < p.N() && Local(p, i, cancelled, down, pc, ch).Some?
    ensures !Local(p, i, cancelled, down, pc, ch).value.next.Sampled() ==>
              !pc.Sampled() && Local(p, i, cancelled, down, pc, ch).value.bytes == 0
  {
  }

  lemma {:induction false} NoBytesBefore(p: Params, i: nat, log: seq<(Choice, bool)>)
    requires p.Valid() && i < p.N() && !Replay(p, i, log).0.Sampled()
    ensures Replay(p, i, log).1 == 0
  {
    if log != [] {
      var front := log[..|log| - 1];
      var (ch, cancelled) := log[|log| - 1];
      var (pc, down) := Replay(p, i, front);
      hide Local;
      if Local(p, i, cancelled, down, pc, ch).Some? {
        QuietStep(p, i, cancelled, down, pc, ch);
      }
      NoBytesBefore(p, i, front);
    }
  }

  /**
    If the log of a worker whose node was collected holds, as its download, the samples and the
    closing of a speed phase that is over, the traffic of the node is what the consumer of that phase
    added up.
  */
  lemma NodeTrafficIsPhaseSum(p: Params, evs: seq<Event>, i: nat, start: seq<(Choice, bool)>, cancelled: bool,
                              phase: seq<(Choice, bool)>, rest: seq<(Choice, bool)>, steps: seq<Sampling.Event>)
    requires p.Valid() && i < p.N() && After(p, evs).nodes[i].Some?
    requires Log(p, evs, i) == start + [(Go, cancelled)] + phase + rest
    requires Replay(p, i, start).0 == SpeedStart
    requires Sampling.Over(Sampling.After(steps))
    requires Feeds(phase, Received(steps), Closes(Sampling.After(steps)))
    ensures After(p, evs).nodes[i].value.traffic == Sampling.After(steps).sum
  {
    hide After, Log, Replay, Received, Sum, Sampling.After, Sampling.Over, Feeds;
    NodeFollows(p, evs, i);
    ReceivedTotals(steps);
    DownloadedBytes(p, i, start, cancelled, phase, rest, Received(steps), Closes(Sampling.After(steps)));
  }

  lemma DownloadedBytes(p: Params, i: nat, start: seq<(Choice, bool)>, cancelled: bool, phase: seq<(Choice, bool)>,
                        rest: seq<(Choice, bool)>, received: seq<nat>, failed: bool)
    requires p.Valid() && i < p.N() && Replay(p, i, start).0 == SpeedStart && Feeds(phase, received, failed)
    ensures Replay(p, i, start + [(Go, cancelled)] + phase + rest).1 == Sum(received, SELF)
  {
    NoBytesBefore(p, i, start);
    ReplayAppend(p, i, start, Go, cancelled);
    hide Replay, Sum, Feeds;
    var log := start + [(Go, cancelled)];
    PhaseReplay(p, i, log, 0, phase, received, failed);
    DownloadedStays(p, i, log + phase, rest);
  }
}
