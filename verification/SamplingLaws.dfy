/** What ends a speed phase, and which samples it offers: one for each tick, with the bytes since the one before. */
module SamplingLaws {
  import opened Counting
  import opened Sampling
  import Phases

  lemma AfterSnoc(evs: seq<Event>, e: Event)
    ensures After(evs + [e]) == Apply(After(evs), e)
  {
    assert (evs + [e])[..|evs|] == evs;
  }

  // ------------------------------------------------- what ends a phase

  /** The dialer fails, all connections have ended, the time is up, or it is late and nothing came. */
  predicate Finishes(s: State, e: Event) {
    match e
    case DialFail => s.producer.Dialing?
    case AllEnded => s.producer.Selecting? && s.running == 0
    case Expiry => s.producer.Selecting? && s.expired
    case Judge(late) => s.producer.Judging? && late && s.total == 0
    case _ => false
  }

  /** The producer has returned, or does so as soon as it is rid of its last sample. */
  predicate Finished(s: State) {
    s.producer.Returned? || (s.producer.Offering? && s.producer.final)
  }

  lemma FinishedStep(s: State, e: Event)
    ensures Finished(Apply(s, e)) <==> Finished(s) || Finishes(s, e)
  {
  }

  ghost predicate FinishedBy(evs: seq<Event>, k: nat) {
    k < |evs| && Finishes(After(evs[..k]), evs[k])
  }

  lemma FinishedBySnoc(evs: seq<Event>, e: Event)
    ensures (exists k: nat :: FinishedBy(evs + [e], k)) <==> (exists k: nat :: FinishedBy(evs, k)) || Finishes(After(evs), e)
  {
    hide After, Finishes;
    var more := evs + [e];
    assert forall k: nat :: k < |evs| ==> more[..k] == evs[..k];
    assert more[..|evs|] == evs;
    if k: nat :| FinishedBy(evs, k) {
      assert FinishedBy(more, k);
    }
    if Finishes(After(evs), e) {
      assert FinishedBy(more, |evs|);
    }
    if k: nat :| FinishedBy(more, k) {
      assert k < |evs| ==> FinishedBy(evs, k);
    }
  }

  lemma {:induction false} FinishedWhen(evs: seq<Event>)
    ensures Finished(After(evs)) <==> exists k: nat :: FinishedBy(evs, k)
  {
    hide Finished, Finishes, Apply, FinishedBy;
    if evs == [] {
      NotFinishedYet();
    } else {
      hide After;
      var before, e := evs[..|evs| - 1], evs[|evs| - 1];
      assert evs == before + [e];
      AfterSnoc(before, e);
      FinishedWhen(before);
      FinishedStep(After(before), e);
      FinishedBySnoc(before, e);
    }
  }

  lemma NotFinishedYet()
    ensures !Finished(After([])) && forall k: nat :: !FinishedBy([], k)
  {
  }

  lemma {:induction false} ExpiredBy(evs: seq<Event>)
    ensures After(evs).expired ==> After(evs).producer.Returned? || Deadline in evs || Cancel in evs
  {
    if evs != [] {
      var before, e := evs[..|evs| - 1], evs[|evs| - 1];
      ExpiredBy(before);
      assert evs == before + [e];
      ExpiredStep(After(before), e);
      hide Apply;
    }
  }

  lemma ExpiredStep(s: State, e: Event)
    ensures
      Apply(s, e).expired ==>
        || Apply(s, e).producer.Returned? || e.Deadline? || e.Cancel?
        || (s.expired && !s.producer.Returned?)
  {
    hide Max;
  }

  /**
    The producer has returned, or is at its last send, exactly if the dialer failed, or all connections
    had ended, or the phase was past its deadline or cancelled, or five seconds had gone by without a
    byte; a tick alone never ends a phase.
  */
  lemma EndsExactly(evs: seq<Event>)
    ensures Finished(After(evs)) <==> exists k: nat :: FinishedBy(evs, k)
    ensures forall k: nat :: FinishedBy(evs, k) && evs[k].Expiry? ==> Deadline in evs[..k] || Cancel in evs[..k]
  {
    hide After, Finished;
    FinishedWhen(evs);
    forall k: nat | FinishedBy(evs, k) && evs[k].Expiry?
      ensures Deadline in evs[..k] || Cancel in evs[..k]
    {
      ExpiredBy(evs[..k]);
    }
  }

  // ------------------------------------------------- the connections

  /** How many connections were opened, at least one once the dialer is there, and how many have ended. */
  function Connections(evs: seq<Event>): (nat, nat) {
    if evs == [] then (0, 0)
    else
      var s, e := After(evs[..|evs| - 1]), evs[|evs| - 1];
      var (begun, ended) := Connections(evs[..|evs| - 1]);
      if e.DialOk? && s.producer.Dialing? then (Max(e.threads, 1), ended)
      else if e.ConnectionEnds? && s.running > 0 then (begun, ended + 1)
      else (begun, ended)
  }

  lemma RunningStep(s: State, e: Event)
    requires s.producer.Dialing? ==> s.running == 0
    ensures
      var s' := Apply(s, e);
      && s'.running == (if e.DialOk? && s.producer.Dialing? then Max(e.threads, 1)
                        else if e.ConnectionEnds? && s.running > 0 then s.running - 1 else s.running)
      && (s'.producer.Dialing? ==> s.producer.Dialing? && s'.running == 0)
  {
    if e.Tick? || e.AllEnded? || e.Expiry? {
      FlushRuns(s);
      hide Flush;
    } else if !e.DialOk? {
      hide Max, Flush;
    }
  }

  lemma FlushRuns(s: State)
    ensures Flush(s, true).running == Flush(s, false).running == s.running
    ensures !Flush(s, true).producer.Dialing? && !Flush(s, false).producer.Dialing?
  {
  }

  /** All connections have ended exactly when as many have ended as were opened. */
  lemma {:induction false} RunningExactly(evs: seq<Event>)
    ensures var (begun, ended) := Connections(evs); After(evs).running == begun - ended
    ensures After(evs).producer.Dialing? ==> Connections(evs) == (0, 0)
  {
    if evs != [] {
      hide Apply, Max;
      RunningExactly(evs[..|evs| - 1]);
      RunningStep(After(evs[..|evs| - 1]), evs[|evs| - 1]);
    }
  }

  // ------------------------------------------------- the samples

  /** The bytes of each finished second, zeros included, and those that have come since. */
  function Counted(s: State, e: Event, seconds: (seq<nat>, nat)): (seq<nat>, nat) {
    var (done, now) := seconds;
    if e.Add? && s.running > 0 then (done, now + e.bytes)
    else if e.Tick? && s.producer.Selecting? then (done + [now], 0)
    else if (e.AllEnded? || e.Expiry?) && Finishes(s, e) && now > 0 then (done + [now], 0)
    else (done, now)
  }

  function Seconds(evs: seq<Event>): (seq<nat>, nat) {
    if evs == [] then ([], 0) else Counted(After(evs[..|evs| - 1]), evs[|evs| - 1], Seconds(evs[..|evs| - 1]))
  }

  /** What was offered: the sample, and whether it went into the channel or was given up. */
  function Offered(evs: seq<Event>): seq<(nat, bool)> {
    if evs == [] then []
    else
      var s, e := After(evs[..|evs| - 1]), evs[|evs| - 1];
      Offered(evs[..|evs| - 1]) +
      if (e.Offer? || e.Drop?) && Enabled(s, e) then [(s.producer.sample, e.Offer?)] else []
  }

  function Samples(offered: seq<(nat, bool)>): seq<nat> {
    if offered == [] then [] else Samples(offered[..|offered| - 1]) + [offered[|offered| - 1].0]
  }

  /** The samples that went one way. */
  function Gone(offered: seq<(nat, bool)>, passed: bool): seq<nat> {
    if offered == [] then []
    else
      var (sample, way) := offered[|offered| - 1];
      Gone(offered[..|offered| - 1], passed) + if way == passed then [sample] else []
  }

  function Hand(s: State): seq<nat> {
    if s.producer.Offering? then [s.producer.sample] else []
  }

  lemma OfferedSnoc(offered: seq<(nat, bool)>, x: nat, way: bool)
    ensures Samples(offered + [(x, way)]) == Samples(offered) + [x]
    ensures Gone(offered + [(x, way)], way) == Gone(offered, way) + [x]
    ensures Gone(offered + [(x, way)], !way) == Gone(offered, !way)
  {
    assert (offered + [(x, way)])[..|offered|] == offered;
    assert Gone(offered, !way) + [] == Gone(offered, !way);
  }

  /** What is true of the samples: they are the seconds, in order, and each went into the channel or was given up. */
  ghost predicate Sampled(s: State, seconds: (seq<nat>, nat), offered: seq<(nat, bool)>, received: seq<nat>) {
    && Samples(offered) + Hand(s) == seconds.0 && s.counter == seconds.1
    && Gone(offered, true) == received + s.buffer
    && Gone(offered, false) == s.dropped
  }

  lemma OfferSamples(s: State, e: Event, seconds: (seq<nat>, nat), offered: seq<(nat, bool)>, received: seq<nat>)
    requires Sampled(s, seconds, offered, received) && Enabled(s, e) && (e.Offer? || e.Drop?)
    ensures Sampled(Apply(s, e), seconds, offered + [(s.producer.sample, e.Offer?)], received)
  {
    hide Samples, Gone, Apply, Enabled;
    OfferPasses(s, e);
    var x := s.producer.sample;
    OfferedSnoc(offered, x, e.Offer?);
    assert Hand(s) == [x] && Hand(Apply(s, e)) == [];
    hide Hand;
    assert Samples(offered) + [x] + [] == seconds.0;
    assert received + (s.buffer + [x]) == received + s.buffer + [x];
  }

  lemma OfferPasses(s: State, e: Event)
    requires Enabled(s, e) && (e.Offer? || e.Drop?)
    ensures
      var x, s' := s.producer.sample, Apply(s, e);
      && s.producer.Offering? && !s'.producer.Offering? && s'.counter == s.counter
      && s'.buffer == (if e.Offer? then s.buffer + [x] else s.buffer)
      && s'.dropped == if e.Drop? then s.dropped + [x] else s.dropped
  {
  }

  lemma CountSamples(s: State, e: Event, seconds: (seq<nat>, nat), offered: seq<(nat, bool)>, received: seq<nat>)
    requires Sampled(s, seconds, offered, received) && !e.Offer? && !e.Drop? && !e.Receive?
    ensures Sampled(Apply(s, e), Counted(s, e, seconds), offered, received)
  {
    hide Samples, Gone;
    assert Samples(offered) + [] == Samples(offered);
  }

  lemma ReceiveSamples(s: State, seconds: (seq<nat>, nat), offered: seq<(nat, bool)>, received: seq<nat>)
    requires Sampled(s, seconds, offered, received) && s.consumer.Reading? && s.buffer != []
    ensures Sampled(Apply(s, Event.Receive), seconds, offered, received + [s.buffer[0]])
  {
    hide Samples, Gone;
    assert s.buffer == [s.buffer[0]] + s.buffer[1..];
    assert received + s.buffer == received + [s.buffer[0]] + s.buffer[1..];
  }

  /** What the consumer has received after an event. */
  function Taken(s: State, e: Event, received: seq<nat>): seq<nat> {
    if e.Receive? && Enabled(s, e) then received + [s.buffer[0]] else received
  }

  function OfferedAfter(s: State, e: Event, offered: seq<(nat, bool)>): seq<(nat, bool)> {
    if (e.Offer? || e.Drop?) && Enabled(s, e) then offered + [(s.producer.sample, e.Offer?)] else offered
  }

  lemma StepSamples(s: State, e: Event, seconds: (seq<nat>, nat), offered: seq<(nat, bool)>, received: seq<nat>)
    requires Sampled(s, seconds, offered, received)
    ensures Sampled(Apply(s, e), Counted(s, e, seconds), OfferedAfter(s, e, offered), Taken(s, e, received))
  {
    hide Sampled;
    if (e.Offer? || e.Drop?) && Enabled(s, e) {
      hide Apply, Enabled;
      OfferSamples(s, e, seconds, offered, received);
    } else if e.Receive? && Enabled(s, e) {
      hide Apply;
      ReceiveSamples(s, seconds, offered, received);
    } else if !e.Offer? && !e.Drop? && !e.Receive? {
      hide Apply, Enabled, Counted;
      CountSamples(s, e, seconds, offered, received);
    }
  }

  /**
    In every phase, cancelled or not, the samples are the seconds: each tick while the producer waits
    offers all bytes since the one before, none too, and what is left at the end is offered if there is
    any. In that order they went into the channel, where the consumer received or will receive them in
    order, or were given up.
  */
  lemma {:induction false} SamplesAreSeconds(evs: seq<Event>)
    ensures Sampled(After(evs), Seconds(evs), Offered(evs), Phases.Received(evs))
  {
    if evs != [] {
      var before, e := evs[..|evs| - 1], evs[|evs| - 1];
      var s := After(before);
      SamplesAreSeconds(before);
      hide Apply, Enabled, Counted, Sampled;
      StepSamples(s, e, Seconds(before), Offered(before), Phases.Received(before));
      assert Offered(before) + [] == Offered(before) && Phases.Received(before) + [] == Phases.Received(before);
    }
  }

  lemma {:induction false} NoneGivenUp(offered: seq<(nat, bool)>)
    requires Gone(offered, false) == []
    ensures Gone(offered, true) == Samples(offered)
  {
    if offered != [] {
      NoneGivenUp(offered[..|offered| - 1]);
    }
  }

  /** So a phase that is over and gave up nothing has handed its consumer the bytes of every second, in order. */
  lemma ConsumerGetsSeconds(evs: seq<Event>)
    requires Over(After(evs)) && !After(evs).cancelled && After(evs).dropped == []
    ensures Phases.Received(evs) == Seconds(evs).0
  {
    SamplesAreSeconds(evs);
    AlwaysConserved(evs);
    NoneGivenUp(Offered(evs));
    hide After, Offered, Seconds, Phases.Received, Samples, Gone;
    assert Samples(Offered(evs)) + [] == Samples(Offered(evs));
    assert Phases.Received(evs) + [] == Phases.Received(evs);
  }
}
