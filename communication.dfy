/** The watch-side transmitter: three flags (comm_ready, transmit_in_progress,
    eventsInMessage) driven by the connection, outbox and retry-timer
    callbacks, sending the whole event log as one message and purging on
    acknowledgement exactly the events that message carried.

    The state machine is first given on values (Session and its transitions,
    with the lemmas about them), then as the class Comm whose methods are
    proved to follow it. */
module Communication {
  import opened EventLog

  /** What the platform answers during one attempt to send:
      bluetooth_connection_service_peek, app_message_outbox_begin, the
      returned iterator, dict_write_data and app_message_outbox_send. */
  datatype Transport = Transport(connected: bool, beginOk: bool, iteratorOk: bool, writeOk: bool, sendOk: bool)
  {
    /** The outbox took the message: every step from begin to send succeeded. */
    predicate Accepts()
    {
      beginOk && iteratorOk && writeOk && sendOk
    }
  }

  /** The transmitter's state together with the contents of the log.
      timers counts retry timers armed and not yet fired; registered says
      whether the callbacks are subscribed; lastSent is the payload of the
      last message the outbox accepted. */
  datatype Session = Session(
    log: seq<Event>,
    ready: bool,
    inProgress: bool,
    eventsInMessage: nat,
    timers: nat,
    registered: bool,
    lastSent: seq<byte>)
  {
    /** A call to comm_transmit gets past its three guards. */
    predicate MaySend(t: Transport)
    {
      ready && !inProgress && t.connected
    }

    /** comm_transmit. The empty log is not a guard: an empty batch is sent. */
    function Transmit(t: Transport): Session
      requires |log| <= Capacity
    {
      if !MaySend(t) || !t.Accepts() then this
      else this.(inProgress := true, eventsInMessage := |log|, lastSent := SerializeLog(log))
    }

    /** outbox_sent: purge what the message carried, clear the flag, and
        send again if the log is not empty. */
    function OutboxSent(t: Transport): Session
      requires |log| <= Capacity
    {
      var s := this.(log := Purged(log, eventsInMessage), inProgress := false);
      if s.ready && |s.log| != 0 then s.Transmit(t) else s
    }

    /** outbox_failed: clear the flag and arm one retry timer. */
    function OutboxFailed(): Session
    {
      this.(inProgress := false, timers := timers + 1)
    }

    /** retry_timer_handler, fired by one of the armed timers. */
    function RetryTimerFired(t: Transport): Session
      requires |log| <= Capacity && timers > 0
    {
      var s := this.(timers := timers - 1);
      if s.ready then s.Transmit(t) else s
    }

    /** bluetooth_connection_handler: a connect attempts a transmit, a
        disconnect changes nothing (comm_ready is not touched). */
    function ConnectionChanged(connected: bool, t: Transport): Session
      requires |log| <= Capacity
    {
      if connected then Transmit(t) else this
    }

    /** log_event called by the host while the transmitter runs. */
    function EventLogged(e: Event): Session
    {
      this.(log := Appended(log, e))
    }

    /** comm_init: subscribe, record whether the message system opened, and
        transmit if the log already holds events. */
    function Init(openOk: bool, t: Transport): Session
      requires |log| <= Capacity
    {
      var s := this.(registered := true, ready := openOk);
      if |s.log| > 0 then s.Transmit(t) else s
    }

    /** comm_deinit. transmit_in_progress is left as it was. */
    function Deinit(): Session
    {
      this.(ready := false, registered := false)
    }
  }

  /** The static initial state, over a given log. */
  function Initial(log: seq<Event>): Session
  {
    Session(log, false, false, 0, 0, false, [])
  }

  /** The invariant the callbacks keep: while a message is in flight, the
      events it carried are still the oldest events of the log. */
  ghost predicate Inv(s: Session)
  {
    |s.log| <= Capacity &&
    s.eventsInMessage <= Capacity &&
    (s.inProgress ==>
      s.eventsInMessage <= |s.log| &&
      s.lastSent == SerializeLog(s.log[..s.eventsInMessage]))
  }

  /** One callback delivered by the platform (or one call from the host). */
  datatype Callback =
    | Connection(connected: bool, t: Transport)
    | Sent(t: Transport)
    | Failed
    | TimerFired(t: Transport)
    | Logged(e: Event)
    | TransmitCall(t: Transport)
    | Started(openOk: bool, t: Transport)
    | Stopped

  /** The effect of one callback. The connection and outbox callbacks are
      delivered only while they are subscribed (between comm_init and
      comm_deinit); a retry timer is never cancelled, and fires only when one
      is armed. */
  function Step(s: Session, c: Callback): Session
    requires |s.log| <= Capacity
  {
    match c
    case Connection(connected, t) => if s.registered then s.ConnectionChanged(connected, t) else s
    case Sent(t) => if s.registered then s.OutboxSent(t) else s
    case Failed => if s.registered then s.OutboxFailed() else s
    case TimerFired(t) => if s.timers > 0 then s.RetryTimerFired(t) else s
    case Logged(e) => s.EventLogged(e)
    case TransmitCall(t) => s.Transmit(t)
    case Started(openOk, t) => s.Init(openOk, t)
    case Stopped => s.Deinit()
  }

  function Run(s: Session, trace: seq<Callback>): Session
    requires Inv(s)
    decreases |trace|
  {
    if trace == [] then s
    else
      StepPreservesInv(s, trace[0]);
      Run(Step(s, trace[0]), trace[1..])
  }

  // ---------------------------------------------------------------------------
  // comm_transmit

  /** comm_transmit changes nothing unless it gets past its guards and the
      outbox accepts the message; when it does, the message is the whole log,
      the in-flight flag is set and the count is the log size. The log is
      never changed. */
  lemma TransmitOutcome(s: Session, t: Transport)
    requires |s.log| <= Capacity
    ensures s.Transmit(t) == s <==> !(s.MaySend(t) && t.Accepts())
    ensures s.MaySend(t) && t.Accepts() ==>
      s.Transmit(t) == s.(inProgress := true, eventsInMessage := |s.log|, lastSent := SerializeLog(s.log))
    ensures s.Transmit(t).log == s.log
  {
  }

  /** An empty log does not stop a transmit: an empty batch (count byte 0)
      goes out and the count in flight is 0. */
  lemma EmptyLogIsSent(s: Session, t: Transport)
    requires s.log == [] && s.MaySend(t) && t.Accepts()
    ensures s.Transmit(t).inProgress && s.Transmit(t).eventsInMessage == 0
    ensures s.Transmit(t).lastSent == [0]
  {
  }

  /** The state after a series of comm_transmit calls. */
  function TransmitAll(s: Session, ts: seq<Transport>): (r: Session)
    requires |s.log| <= Capacity
    ensures r.log == s.log
    decreases |ts|
  {
    if ts == [] then s else TransmitAll(s.Transmit(ts[0]), ts[1..])
  }

  /** How many of those calls started a send. */
  function Starts(s: Session, ts: seq<Transport>): nat
    requires |s.log| <= Capacity
    decreases |ts|
  {
    if ts == [] then 0
    else
      var s1 := s.Transmit(ts[0]);
      (if !s.inProgress && s1.inProgress then 1 else 0) + Starts(s1, ts[1..])
  }

  /** Repeated comm_transmit calls start at most one send, and none at all
      while a send is in flight, which they then leave untouched. */
  lemma {:induction false} AtMostOneOutstanding(s: Session, ts: seq<Transport>)
    requires |s.log| <= Capacity
    ensures Starts(s, ts) <= 1
    ensures s.inProgress ==> Starts(s, ts) == 0 && TransmitAll(s, ts) == s
    decreases |ts|
  {
    if ts != [] {
      var s1 := s.Transmit(ts[0]);
      AtMostOneOutstanding(s1, ts[1..]);
      if !s.inProgress && s1.inProgress {
        assert Starts(s1, ts[1..]) == 0;
      }
    }
  }

  // ---------------------------------------------------------------------------
  // Outbox callbacks, retry timer, connection

  /** On acknowledgement of an in-flight message, the purge of
      eventsInMessage is never rejected, and it removes exactly the events
      that message carried; events logged during the flight remain. A new
      send starts only if the transmitter is ready and the log non-empty. */
  lemma AckPurgesSentEvents(s: Session, t: Transport)
    requires Inv(s) && s.inProgress
    ensures s.eventsInMessage <= |s.log|
    ensures s.lastSent == SerializeLog(s.log[..s.eventsInMessage])
    ensures s.OutboxSent(t).log == s.log[s.eventsInMessage..]
    ensures s.OutboxSent(t).inProgress <==>
      s.ready && s.eventsInMessage < |s.log| && t.connected && t.Accepts()
  {
  }

  /** A failed send leaves the log, the readiness and the count alone, clears
      the in-flight flag and arms exactly one retry timer. */
  lemma FailureArmsOneRetry(s: Session)
    ensures s.OutboxFailed().log == s.log && !s.OutboxFailed().inProgress
    ensures s.OutboxFailed().timers == s.timers + 1
    ensures s.OutboxFailed().ready == s.ready && s.OutboxFailed().eventsInMessage == s.eventsInMessage
  {
  }

  /** The retry handler transmits only when the transmitter is ready; it never
      changes the log. After comm_deinit a stale timer does nothing but expire. */
  lemma RetryOnlyWhenReady(s: Session, t: Transport)
    requires |s.log| <= Capacity && s.timers > 0
    ensures s.RetryTimerFired(t).log == s.log
    ensures !s.ready ==> s.RetryTimerFired(t) == s.(timers := s.timers - 1)
    ensures s.Deinit().RetryTimerFired(t) == s.Deinit().(timers := s.timers - 1)
  {
  }

  /** A disconnect changes nothing; a connect is a comm_transmit. */
  lemma ConnectionEffect(s: Session, t: Transport)
    requires |s.log| <= Capacity
    ensures s.ConnectionChanged(false, t) == s
    ensures s.ConnectionChanged(true, t) == s.Transmit(t)
  {
  }

  // ---------------------------------------------------------------------------
  // The invariant

  lemma PrefixOfAppended(log: seq<Event>, e: Event, n: nat)
    requires n <= |log|
    ensures Appended(log, e)[..n] == log[..n]
  {
  }

  /** A freshly started send satisfies the invariant. */
  lemma TransmitInv(s: Session, t: Transport)
    requires Inv(s)
    ensures Inv(s.Transmit(t))
  {
    if s.MaySend(t) && t.Accepts() {
      assert s.log[..|s.log|] == s.log;
    }
  }

  /** Every callback keeps the invariant: in particular the log may grow while
      a message is in flight without disturbing the events it carried. */
  lemma StepPreservesInv(s: Session, c: Callback)
    requires Inv(s)
    ensures Inv(Step(s, c))
  {
    match c
    case Connection(connected, t) =>
      TransmitInv(s, t);
    case Sent(t) =>
      if s.registered {
        var s1 := s.(log := Purged(s.log, s.eventsInMessage), inProgress := false);
        assert Inv(s1);
        TransmitInv(s1, t);
      }
    case Failed =>
    case TimerFired(t) =>
      if s.timers > 0 {
        TransmitInv(s.(timers := s.timers - 1), t);
      }
    case Logged(e) =>
      if s.inProgress {
        PrefixOfAppended(s.log, e, s.eventsInMessage);
      }
    case TransmitCall(t) =>
      TransmitInv(s, t);
    case Started(openOk, t) =>
      TransmitInv(s.(registered := true, ready := openOk), t);
    case Stopped =>
  }

  /** The invariant holds after any sequence of callbacks, so on every
      acknowledgement AckPurgesSentEvents applies. */
  lemma {:induction false} RunPreservesInv(s: Session, trace: seq<Callback>)
    requires Inv(s)
    ensures Inv(Run(s, trace))
    decreases |trace|
  {
    if trace != [] {
      StepPreservesInv(s, trace[0]);
      RunPreservesInv(Step(s, trace[0]), trace[1..]);
    }
  }

  /** Whether a callback reports the outcome of the in-flight send. */
  predicate IsOutcome(c: Callback)
  {
    c.Sent? || c.Failed?
  }

  /** At most one send is outstanding: while one is in flight, no callback
      other than its own outcome (a connect, a retry fire, a direct transmit,
      comm_init, comm_deinit or a logged event) starts another; the flag, the
      count and the payload in flight all stay as they were. */
  lemma {:induction false} NoSecondSend(s: Session, trace: seq<Callback>)
    requires Inv(s) && s.inProgress
    requires forall i :: 0 <= i < |trace| ==> !IsOutcome(trace[i])
    ensures Run(s, trace).inProgress
    ensures Run(s, trace).eventsInMessage == s.eventsInMessage
    ensures Run(s, trace).lastSent == s.lastSent
    decreases |trace|
  {
    if trace != [] {
      assert !IsOutcome(trace[0]);
      StepPreservesInv(s, trace[0]);
      StepKeepsFlight(s, trace[0]);
      assert forall i :: 0 <= i < |trace[1..]| ==> trace[1..][i] == trace[i + 1];
      NoSecondSend(Step(s, trace[0]), trace[1..]);
    }
  }

  /** One step of NoSecondSend: a callback other than an outcome leaves the
      send in flight as it was. */
  lemma StepKeepsFlight(s: Session, c: Callback)
    requires |s.log| <= Capacity && s.inProgress && !IsOutcome(c)
    ensures Step(s, c).inProgress
    ensures Step(s, c).eventsInMessage == s.eventsInMessage
    ensures Step(s, c).lastSent == s.lastSent
  {
    match c
    case Connection(connected, t) =>
    case TimerFired(t) =>
    case Logged(e) =>
    case TransmitCall(t) =>
    case Started(openOk, t) =>
    case Stopped =>
  }

  /** Three events are logged, the message system opens and sends them; two
      more are logged during the flight; the acknowledgement purges exactly
      the three, and a new send carrying the remaining two starts at once. */
  lemma GrowthDuringFlight(e0: Event, e1: Event, e2: Event, e3: Event, e4: Event, t: Transport)
    requires t.connected && t.Accepts()
    ensures var s := Initial([]).EventLogged(e0).EventLogged(e1).EventLogged(e2).Init(true, t);
      s.inProgress && s.eventsInMessage == 3 && s.lastSent == SerializeLog([e0, e1, e2])
    ensures var s := Initial([]).EventLogged(e0).EventLogged(e1).EventLogged(e2).Init(true, t)
                       .EventLogged(e3).EventLogged(e4).OutboxSent(t);
      s.log == [e3, e4] && s.inProgress && s.eventsInMessage == 2 && s.lastSent == SerializeLog([e3, e4])
  {
    var s3 := Initial([]).EventLogged(e0).EventLogged(e1).EventLogged(e2);
    assert s3.log == [e0, e1, e2];
    var s6 := s3.Init(true, t).EventLogged(e3).EventLogged(e4);
    assert s6.log == [e0, e1, e2, e3, e4];
    assert s6.log[3..] == [e3, e4];
  }

  // ---------------------------------------------------------------------------
  // The transmitter as the source has it: static flags updated in place,
  // sharing the event log object.

  class Comm {
    var log: Log
    var ready: bool
    var inProgress: bool
    var eventsInMessage: byte
    var armedTimers: nat
    var registered: bool
    var lastSent: seq<byte>

    function State(): Session
      reads this, log, log.events
      requires log.Valid()
    {
      Session(log.Contents(), ready, inProgress, eventsInMessage, armedTimers, registered, lastSent)
    }

    ghost predicate Valid()
      reads this, log, log.events
    {
      log.Valid() && Inv(State())
    }

    /** The statics before comm_init: nothing ready, nothing in flight. */
    constructor (log: Log)
      requires log.Valid()
      ensures Valid() && this.log == log
      ensures State() == Initial(log.Contents())
    {
      this.log := log;
      ready, inProgress, eventsInMessage := false, false, 0;
      armedTimers, registered, lastSent := 0, false, [];
    }

    /** comm_transmit */
    method Transmit(t: Transport)
      requires Valid()
      modifies this
      ensures Valid() && log == old(log)
      ensures State() == old(State()).Transmit(t)
    {
      if !ready {
        return;
      }
      if inProgress {
        return;
      }
      if !t.connected {
        return;
      }
      var size := log.Size();
      // An empty log is only reported; the transmit goes on.
      var buffer := SerializeLog(log.Contents());
      if !t.beginOk {
        return;
      }
      if !t.iteratorOk {
        return;
      }
      if !t.writeOk {
        return;
      }
      if !t.sendOk {
        return;
      }
      inProgress := true;
      eventsInMessage := size;
      lastSent := buffer;
      TransmitInv(old(State()), t);
    }

    /** outbox_sent */
    method OutboxSent(t: Transport)
      requires Valid()
      modifies this, log
      ensures Valid() && log == old(log)
      ensures State() == old(State()).OutboxSent(t)
    {
      StepPreservesInv(State(), Sent(t));
      log.PurgeFromStart(eventsInMessage);
      inProgress := false;
      var size := log.Size();
      if ready && size != 0 {
        Transmit(t);
      }
    }

    /** outbox_failed */
    method OutboxFailed()
      requires Valid()
      modifies this
      ensures Valid() && log == old(log)
      ensures State() == old(State()).OutboxFailed()
    {
      inProgress := false;
      armedTimers := armedTimers + 1;
    }

    /** retry_timer_handler, run by one of the armed timers. */
    method RetryTimerHandler(t: Transport)
      requires Valid() && armedTimers > 0
      modifies this
      ensures Valid() && log == old(log)
      ensures State() == old(State()).RetryTimerFired(t)
    {
      armedTimers := armedTimers - 1;
      if ready {
        Transmit(t);
      }
    }

    /** bluetooth_connection_handler */
    method BluetoothConnectionHandler(connected: bool, t: Transport)
      requires Valid()
      modifies this
      ensures Valid() && log == old(log)
      ensures State() == old(State()).ConnectionChanged(connected, t)
    {
      if connected {
        Transmit(t);
      }
    }

    /** comm_init, with the result of app_message_open. */
    method Init(openOk: bool, t: Transport)
      requires Valid()
      modifies this
      ensures Valid() && log == old(log)
      ensures State() == old(State()).Init(openOk, t)
    {
      registered := true;
      ready := openOk;
      var size := log.Size();
      if size > 0 {
        Transmit(t);
      }
    }

    /** comm_deinit */
    method Deinit()
      requires Valid()
      modifies this
      ensures Valid() && log == old(log)
      ensures State() == old(State()).Deinit()
    {
      ready := false;
      registered := false;
    }

    /** A log_event call from the host's click handlers while the transmitter
        runs: the log grows (maybe during a flight), no transmit is started. */
    method RecordEvent(kind: EventType, timestamp: int) returns (ok: bool)
      requires Valid()
      modifies log, log.events
      ensures Valid() && log == old(log)
      ensures ok <==> |old(State()).log| < Capacity
      ensures State() == old(State()).EventLogged(Event(kind, timestamp))
    {
      StepPreservesInv(State(), Logged(Event(kind, timestamp)));
      ok := log.LogEvent(kind, timestamp);
    }
  }
}
