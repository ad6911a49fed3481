/**
  One speed phase: connections add to a shared counter, a ticker swaps it to zero and offers the
  value as a sample, a consumer adds the samples up. Events interleave in any order.
*/
module Sampling {
  import opened Counting

  /** The goroutine that runs DownloadWithURLThreads or UploadWithURLThreads. */
  datatype Producer =
    | Dialing
    | Selecting
    | Offering(sample: nat, final: bool)   // inside flush, at the send
    | Judging                              // after a tick's flush
    | Returned(peak: nat)

  datatype Consumer = Reading | Stopped

  datatype State = State(
    producer: Producer,
    consumer: Consumer,
    running: nat,        // connections still at work
    counter: nat,        // the atomic counter
    total: nat,
    max: nat,
    buffer: seq<nat>,    // the sample channel, capacity 1
    closed: bool,
    cancelled: bool,     // the caller's context
    expired: bool,       // the context of this phase: deadline, cancellation or return
    sum: nat,            // what the consumer has added up
    peak: nat,
    added: nat,          // bytes counted by all connections, ever
    dropped: seq<nat>)   // samples given up at the send

  datatype Event =
    | DialOk(threads: nat) | DialFail
    | Add(bytes: nat) | ConnectionEnds
    | Deadline | Cancel
    | Tick | AllEnded | Expiry
    | Offer | Drop | Judge(late: bool)
    | Close
    | Receive | SeeClosed | Quit

  const START := State(Dialing, Reading, 0, 0, 0, 0, [], false, false, false, 0, 0, 0, [])

  predicate Enabled(s: State, e: Event) {
    match e
    case DialOk(_) => s.producer.Dialing?
    case DialFail => s.producer.Dialing?
    case Add(b) => s.running > 0
    case ConnectionEnds => s.running > 0
    case Deadline => true
    case Cancel => true
    case Tick => s.producer.Selecting?
    case AllEnded => s.producer.Selecting? && s.running == 0
    case Expiry => s.producer.Selecting? && s.expired
    case Offer => s.producer.Offering? && |s.buffer| < 1
    case Drop => s.producer.Offering? && s.expired
    case Judge(_) => s.producer.Judging?
    case Close => s.producer.Returned? && !s.closed
    case Receive => s.consumer.Reading? && s.buffer != []
    case SeeClosed => s.consumer.Reading? && s.closed && s.buffer == []
    case Quit => s.consumer.Reading? && s.cancelled
  }

  function Max(a: nat, b: nat): nat {
    if a < b then b else a
  }

  /** The flush closure up to its send: a zero is offered only by a tick. */
  function Flush(s: State, reportZero: bool): State {
    var v := s.counter;
    var s' := s.(counter := 0, total := s.total + v, max := Max(s.max, v));
    if reportZero || v > 0 then s'.(producer := Offering(v, !reportZero)) else Return(s', s'.max)
  }

  /** Returning also ends the phase's own context. */
  function Return(s: State, peak: nat): State {
    s.(producer := Returned(peak), expired := true)
  }

  /** What follows the send of a flush. */
  function Sent(s: State): State
    requires s.producer.Offering?
  {
    if s.producer.final then Return(s, s.max) else s.(producer := Judging)
  }

  function Apply(s: State, e: Event): State {
    if !Enabled(s, e) then s
    else
      match e
      case DialOk(threads) => s.(producer := Selecting, running := if threads < 1 then 1 else threads)
      case DialFail => Return(s, 0)
      case Add(b) => s.(counter := s.counter + b, added := s.added + b)
      case ConnectionEnds => s.(running := s.running - 1)
      case Deadline => s.(expired := true)
      case Cancel => s.(cancelled := true, expired := true)
      case Tick => Flush(s, true)
      case AllEnded => Flush(s, false)
      case Expiry => Flush(s, false)
      case Offer => Sent(s.(buffer := s.buffer + [s.producer.sample]))
      case Drop => Sent(s.(dropped := s.dropped + [s.producer.sample]))
      case Judge(late) => if s.total == 0 && late then Return(s, 0) else s.(producer := Selecting)
      case Close => s.(closed := true)
      case Receive =>
        var v := s.buffer[0];
        s.(buffer := s.buffer[1..], sum := s.sum + v, peak := Max(s.peak, v))
      case SeeClosed => s.(consumer := Stopped)
      case Quit => s.(consumer := Stopped)
  }

  function After(evs: seq<Event>): State {
    if evs == [] then START else Apply(After(evs[..|evs| - 1]), evs[|evs| - 1])
  }

  function Largest(s: seq<nat>): nat {
    if s == [] then 0 else Max(s[0], Largest(s[1..]))
  }

  function InHand(s: State): nat {
    if s.producer.Offering? then s.producer.sample else 0
  }

  lemma {:induction false} LargestAppend(s: seq<nat>, x: nat)
    ensures Largest(s + [x]) == Max(Largest(s), x)
  {
    if s != [] {
      assert (s + [x])[1..] == s[1..] + [x];
      LargestAppend(s[1..], x);
    } else {
      assert [x][1..] == [];
    }
  }

  /** Bytes are conserved on their way from the connections to the consumer. */
  ghost predicate Conserved(s: State) {
    && s.added == s.total + s.counter
    && s.total == s.sum + Sum(s.buffer, SELF) + InHand(s) + Sum(s.dropped, SELF)
  }

  /** The largest value swapped out is the largest sample, wherever it got to. */
  ghost predicate Peaked(s: State) {
    && s.peak <= s.max && Largest(s.buffer) <= s.max && InHand(s) <= s.max && Largest(s.dropped) <= s.max
    && (s.max == s.peak || s.max == Largest(s.buffer) || s.max == InHand(s) || s.max == Largest(s.dropped))
    && (s.max == 0 <==> s.total == 0)
  }

  ghost predicate Orderly(s: State) {
    && |s.buffer| <= 1
    && (s.producer.Returned? ==> s.producer.peak == s.max && s.expired)
    && (s.producer.Dialing? ==> s.total == 0 && s.counter == 0 && s.running == 0)
    && (s.dropped != [] ==> s.expired)
    && (s.cancelled ==> s.expired)
    && (s.closed ==> s.producer.Returned?)
    && (s.consumer.Stopped? ==> s.cancelled || (s.closed && s.buffer == []))
  }

  lemma OfferConserves(s: State)
    requires Conserved(s) && Enabled(s, Offer)
    ensures Conserved(Apply(s, Offer))
  {
    assert Apply(s, Offer).buffer == s.buffer + [s.producer.sample];
    SumSnoc(s.buffer, s.producer.sample);
  }

  lemma DropConserves(s: State)
    requires Conserved(s) && Enabled(s, Drop)
    ensures Conserved(Apply(s, Drop))
  {
    assert Apply(s, Drop).dropped == s.dropped + [s.producer.sample];
    SumSnoc(s.dropped, s.producer.sample);
  }

  lemma FlushConserves(s: State, reportZero: bool)
    requires Conserved(s) && s.producer.Selecting?
    ensures Conserved(Flush(s, reportZero))
  {
  }

  lemma FirstSample(s: seq<nat>)
    requires s != []
    ensures Sum(s, SELF) == s[0] + Sum(s[1..], SELF) && Largest(s) == Max(s[0], Largest(s[1..]))
  {
  }

  lemma ReceiveConserves(s: State)
    requires Conserved(s) && Enabled(s, Event.Receive)
    ensures Conserved(Apply(s, Event.Receive))
  {
    FirstSample(s.buffer);
    hide Sum;
  }

  lemma StepConserves(s: State, e: Event)
    requires Conserved(s)
    ensures Conserved(Apply(s, e))
  {
    hide Sum;
    if Enabled(s, e) {
      match e
      case Offer => OfferConserves(s);
      case Drop => DropConserves(s);
      case Tick => FlushConserves(s, true);
      case AllEnded => FlushConserves(s, false);
      case Expiry => FlushConserves(s, false);
      case Receive => ReceiveConserves(s);
      case _ =>
    }
  }

  lemma LargestNone()
    ensures Largest([]) == 0
  {
  }

  lemma OfferPeaks(s: State)
    requires Peaked(s) && Enabled(s, Offer)
    ensures Peaked(Apply(s, Offer))
  {
    hide Largest;
    LargestNone();
    var x := s.producer.sample;
    assert s.buffer == [] && Apply(s, Offer).buffer == s.buffer + [x];
    LargestAppend(s.buffer, x);
  }

  lemma DropPeaks(s: State)
    requires Peaked(s) && Enabled(s, Drop)
    ensures Peaked(Apply(s, Drop))
  {
    hide Largest;
    var x := s.producer.sample;
    assert Apply(s, Drop).dropped == s.dropped + [x];
    LargestAppend(s.dropped, x);
  }

  lemma FlushPeaks(s: State, reportZero: bool)
    requires Peaked(s) && s.producer.Selecting?
    ensures Peaked(Flush(s, reportZero))
  {
    var s' := Flush(s, reportZero);
    assert s'.buffer == s.buffer && s'.dropped == s.dropped && s'.peak == s.peak;
    assert InHand(s') == s.counter && s'.total == s.total + s.counter && s'.max == Max(s.max, s.counter);
  }

  lemma ReceivePeaks(s: State)
    requires Peaked(s) && Enabled(s, Event.Receive)
    ensures Peaked(Apply(s, Event.Receive))
  {
    FirstSample(s.buffer);
    hide Largest, Sum;
  }

  lemma StepPeaks(s: State, e: Event)
    requires Peaked(s)
    ensures Peaked(Apply(s, e))
  {
    hide Largest;
    if Enabled(s, e) {
      match e
      case Offer => OfferPeaks(s);
      case Drop => DropPeaks(s);
      case Tick => FlushPeaks(s, true);
      case AllEnded => FlushPeaks(s, false);
      case Expiry => FlushPeaks(s, false);
      case Receive => ReceivePeaks(s);
      case _ =>
    }
  }

  lemma StepOrderly(s: State, e: Event)
    requires Peaked(s) && Orderly(s)
    ensures Orderly(Apply(s, e))
  {
    hide Largest;
  }

  lemma {:induction false} AlwaysConserved(evs: seq<Event>)
    ensures Conserved(After(evs)) && Peaked(After(evs)) && Orderly(After(evs))
  {
    if evs != [] {
      var s, e := After(evs[..|evs| - 1]), evs[|evs| - 1];
      AlwaysConserved(evs[..|evs| - 1]);
      StepConserves(s, e);
      StepPeaks(s, e);
      StepOrderly(s, e);
    }
  }

  /** At every moment each byte added is in exactly one place. */
  lemma BytesAccounted(evs: seq<Event>)
    ensures
      var s := After(evs);
      s.added == s.sum + Sum(s.buffer, SELF) + InHand(s) + Sum(s.dropped, SELF) + s.counter
  {
    AlwaysConserved(evs);
  }

  ghost predicate Over(s: State) {
    s.closed && s.consumer.Stopped?
  }

  /**
    When an uncancelled phase is over, the consumer's sum lacks exactly the samples given up after
    the deadline and the bytes that arrived after the last swap; its peak is at most the peak that
    is returned, and equal to it if no sample was given up. Zero is returned exactly if nothing was
    ever swapped out.
  */
  lemma PhaseConserves(evs: seq<Event>)
    requires Over(After(evs)) && !After(evs).cancelled
    ensures
      var s := After(evs);
      && s.added == s.sum + Sum(s.dropped, SELF) + s.counter
      && s.producer.Returned? && s.peak <= s.producer.peak
      && (s.dropped == [] ==> s.sum == s.total && s.peak == s.producer.peak)
      && (s.producer.peak == 0 <==> s.total == 0)
  {
    AlwaysConserved(evs);
  }

  /** A sample is given up only after the deadline. */
  lemma NothingDroppedInTime(evs: seq<Event>)
    requires !After(evs).expired
    ensures After(evs).dropped == []
  {
    AlwaysConserved(evs);
  }

  lemma NeverSticks(s: State)
    requires Orderly(s)
    ensures s.producer.Offering? ==> Enabled(s, Offer) || Enabled(s, Drop) || Enabled(s, Event.Receive)
    ensures s.producer.Returned? && !Over(s) ==> Enabled(s, Close) || Enabled(s, Event.Receive) || Enabled(s, SeeClosed)
  {
  }

  /**
    Nobody waits for ever: a producer at its send can send, give up, or is about to see the buffer
    emptied; after it has returned the channel is closed and the consumer reads to the end.
  */
  lemma PhaseNeverSticks(evs: seq<Event>)
    ensures
      var s := After(evs);
      && (s.producer.Offering? ==> Enabled(s, Offer) || Enabled(s, Drop) || Enabled(s, Event.Receive))
      && (s.producer.Returned? && !Over(s) ==> Enabled(s, Close) || Enabled(s, Event.Receive) || Enabled(s, SeeClosed))
  {
    AlwaysConserved(evs);
    NeverSticks(After(evs));
  }
}
