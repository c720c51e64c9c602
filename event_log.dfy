/** The watch-side event log: a ring buffer of at most 50 events, addressed
    as (first + i) % 50, together with the 5-byte record encoding of one event
    and the whole-log encoding that the transmitter sends. */
module EventLog {

  /** EVENT_LOG_MAX_SIZE */
  const Capacity: nat := 50

  /** Bytes in one serialized event: a type byte and four timestamp bytes. */
  const RecordSize: nat := 5

  /** 2^32: the encoder keeps the low four bytes of a timestamp. */
  const TimestampModulus: nat := 0x1_0000_0000

  /** uint8_t */
  type byte = x: int | 0 <= x < 256

  datatype Option<T> = None | Some(value: T)

  /** EventType: the four caregiving events and their wire codes 0..3. */
  datatype EventType = Feed | DiaperChange | SleepStart | SleepStop

  function Code(kind: EventType): (c: byte)
    ensures c < 4
  {
    match kind
    case Feed => 0
    case DiaperChange => 1
    case SleepStart => 2
    case SleepStop => 3
  }

  /** The event type a type byte stands for, if any. */
  function KindOf(c: byte): (r: Option<EventType>)
    ensures r.Some? <==> c < 4
    ensures r.Some? ==> Code(r.value) == c
  {
    if c == 0 then Some(Feed)
    else if c == 1 then Some(DiaperChange)
    else if c == 2 then Some(SleepStart)
    else if c == 3 then Some(SleepStop)
    else None
  }

  lemma KindOfCode(kind: EventType)
    ensures KindOf(Code(kind)) == Some(kind)
  {
    match kind
    case Feed =>
    case DiaperChange =>
    case SleepStart =>
    case SleepStop =>
  }

  /** An event: its type and a time_t timestamp (seconds since the epoch). */
  datatype Event = Event(kind: EventType, timestamp: int)

  // ---------------------------------------------------------------------------
  // The abstract log: a sequence of events, oldest first.

  /** The log after log_event of e: appended when there is room, else unchanged. */
  function Appended(s: seq<Event>, e: Event): seq<Event>
  {
    if |s| < Capacity then s + [e] else s
  }

  /** The log after a purge of count events: the oldest count are dropped,
      or nothing happens when count exceeds the size. */
  function Purged(s: seq<Event>, count: nat): seq<Event>
  {
    if count <= |s| then s[count..] else s
  }

  // ---------------------------------------------------------------------------
  // Ring-buffer addressing.

  /** The array slot that holds logical index i when the oldest event is at first. */
  function Slot(first: nat, i: nat): (k: nat)
    ensures k < Capacity
  {
    (first + i) % Capacity
  }

  /** The logical contents of the buffer: size events starting at slot first. */
  function Window(slots: seq<Event>, first: nat, size: nat): (r: seq<Event>)
    requires |slots| == Capacity
    ensures |r| == size
  {
    seq(size, i requires 0 <= i < size => slots[Slot(first, i)])
  }

  /** Writing slot (first + size) % 50 adds exactly one event at the logical end
      and leaves every earlier logical entry as it was. */
  lemma WindowAppend(slots: seq<Event>, first: nat, size: nat, e: Event)
    requires |slots| == Capacity && first < Capacity && size < Capacity
    ensures Window(slots[Slot(first, size) := e], first, size + 1) == Window(slots, first, size) + [e]
  {
    var after := Window(slots[Slot(first, size) := e], first, size + 1);
    var before := Window(slots, first, size);
    forall i | 0 <= i < size
      ensures after[i] == before[i]
    {
      assert Slot(first, i) != Slot(first, size);
    }
  }

  /** Advancing first by count (mod 50) and shrinking size by count drops the
      count oldest logical entries: new entry i is old entry count + i. */
  lemma WindowPurge(slots: seq<Event>, first: nat, size: nat, count: nat)
    requires |slots| == Capacity && first < Capacity && size <= Capacity && count <= size
    ensures Window(slots, Slot(first, count), size - count) == Window(slots, first, size)[count..]
  {
    var after := Window(slots, Slot(first, count), size - count);
    var before := Window(slots, first, size);
    forall i | 0 <= i < size - count
      ensures after[i] == before[count + i]
    {
      assert Slot(Slot(first, count), i) == Slot(first, count + i);
    }
  }

  // ---------------------------------------------------------------------------
  // The 5-byte record encoding (log_serialize_event) and its decoder.

  /** 256^n */
  function Pow256(n: nat): (p: nat)
    ensures p > 0
  {
    if n == 0 then 1 else 256 * Pow256(n - 1)
  }

  /** The low n bytes of t, least significant first: byte k is
      (t >> 8k) & 0xFF, with >> an arithmetic shift (floor division). */
  function LittleEndian(t: int, n: nat): (r: seq<byte>)
    ensures |r| == n
    decreases n
  {
    if n == 0 then [] else [t % 256] + LittleEndian(t / 256, n - 1)
  }

  /** t shifted right by n bytes (floor division by 256^n). */
  function Shifted(t: int, n: nat): int
    decreases n
  {
    if n == 0 then t else Shifted(t / 256, n - 1)
  }

  /** The unsigned value of a little-endian byte string. */
  function FromLittleEndian(bs: seq<byte>): (v: nat)
    ensures v < Pow256(|bs|)
  {
    if bs == [] then 0 else bs[0] + 256 * FromLittleEndian(bs[1..])
  }

  /** The n bytes and what is left after shifting them out rebuild t. */
  lemma {:induction false} LittleEndianSplit(t: int, n: nat)
    ensures t == Pow256(n) * Shifted(t, n) + FromLittleEndian(LittleEndian(t, n))
    decreases n
  {
    if n > 0 {
      var q := t / 256;
      LittleEndianSplit(q, n - 1);
      var p, s, f := Pow256(n - 1), Shifted(q, n - 1), FromLittleEndian(LittleEndian(q, n - 1));
      assert LittleEndian(t, n)[1..] == LittleEndian(q, n - 1);
      assert FromLittleEndian(LittleEndian(t, n)) == t % 256 + 256 * f;
      assert q == p * s + f;
      calc {
        t;
        256 * q + t % 256;
        256 * (p * s + f) + t % 256;
        { assert 256 * (p * s) == (256 * p) * s; }
        (256 * p) * s + (256 * f + t % 256);
      }
    }
  }

  /** Re-assembling four little-endian bytes yields the timestamp mod 2^32. */
  lemma TimestampRoundTrip(t: int)
    ensures FromLittleEndian(LittleEndian(t, 4)) == t % TimestampModulus
  {
    LittleEndianSplit(t, 4);
    assert Pow256(4) == TimestampModulus;
  }

  /** log_serialize_event: the type byte, then the timestamp least significant byte first. */
  function EncodeEvent(e: Event): (r: seq<byte>)
    ensures |r| == RecordSize
  {
    [Code(e.kind)] + LittleEndian(e.timestamp, 4)
  }

  /** Reads one record back; fails on a type byte outside 0..3. */
  function DecodeEvent(bs: seq<byte>): (r: Option<Event>)
    requires |bs| == RecordSize
    ensures r.Some? <==> bs[0] < 4
  {
    match KindOf(bs[0])
    case None => None
    case Some(kind) => Some(Event(kind, FromLittleEndian(bs[1..])))
  }

  /** The record round trip: the type is kept and the timestamp comes back mod 2^32. */
  lemma DecodeEncodeEvent(e: Event)
    ensures DecodeEvent(EncodeEvent(e)) == Some(Event(e.kind, e.timestamp % TimestampModulus))
  {
    var bs := EncodeEvent(e);
    KindOfCode(e.kind);
    assert bs[1..] == LittleEndian(e.timestamp, 4);
    TimestampRoundTrip(e.timestamp);
  }

  /** The byte layout of one record, spelled out. */
  lemma EncodeEventLayout(e: Event)
    ensures EncodeEvent(e)[0] == Code(e.kind)
    ensures forall k :: 0 <= k < 4 ==> EncodeEvent(e)[1 + k] == Shifted(e.timestamp, k) % 256
  {
    forall k | 0 <= k < 4
      ensures EncodeEvent(e)[1 + k] == Shifted(e.timestamp, k) % 256
    {
      LittleEndianAt(e.timestamp, 4, k);
    }
  }

  lemma {:induction false} LittleEndianAt(t: int, n: nat, k: nat)
    requires k < n
    ensures LittleEndian(t, n)[k] == Shifted(t, k) % 256
    decreases k
  {
    if k > 0 {
      LittleEndianAt(t / 256, n - 1, k - 1);
    }
  }

  /** log_serialize_event: writes the record of e into buffer[at..at + 5]. */
  method SerializeEvent(e: Event, buffer: array<byte>, at: nat)
    requires at + RecordSize <= buffer.Length
    modifies buffer
    ensures buffer[at..at + RecordSize] == EncodeEvent(e)
    ensures forall j :: 0 <= j < buffer.Length && !(at <= j < at + RecordSize) ==> buffer[j] == old(buffer[j])
  {
    buffer[at] := Code(e.kind);
    var timestamp := e.timestamp;
    var i := 0;
    while i < 4
      invariant 0 <= i <= 4
      invariant buffer[at] == Code(e.kind)
      invariant buffer[at + 1..at + 1 + i] + LittleEndian(timestamp, 4 - i) == LittleEndian(e.timestamp, 4)
      invariant forall j :: 0 <= j < buffer.Length && !(at <= j < at + RecordSize) ==> buffer[j] == old(buffer[j])
    {
      ghost var done := buffer[at + 1..at + 1 + i];
      assert LittleEndian(timestamp, 4 - i) == [timestamp % 256] + LittleEndian(timestamp / 256, 4 - i - 1);
      buffer[at + 1 + i] := timestamp % 256;
      assert buffer[at + 1..at + 1 + (i + 1)] == done + [timestamp % 256];
      timestamp := timestamp / 256;
      i := i + 1;
    }
    assert buffer[at..at + RecordSize] == [buffer[at]] + buffer[at + 1..at + 1 + 4];
  }

  // ---------------------------------------------------------------------------
  // The whole-log encoding handed to the transport: a count byte followed by
  // one record per event, oldest first.

  function Records(s: seq<Event>): (r: seq<byte>)
    ensures |r| == RecordSize * |s|
  {
    if s == [] then [] else EncodeEvent(s[0]) + Records(s[1..])
  }

  function SerializeLog(s: seq<Event>): (r: seq<byte>)
    requires |s| <= Capacity
    ensures |r| == 1 + RecordSize * |s|
    ensures r[0] == |s|
  {
    [|s|] + Records(s)
  }

  /** Record k of the encoding is the encoding of event k. */
  lemma {:induction false} RecordsAt(s: seq<Event>, k: nat)
    requires k < |s|
    ensures Records(s)[RecordSize * k..RecordSize * k + RecordSize] == EncodeEvent(s[k])
  {
    if k > 0 {
      RecordsAt(s[1..], k - 1);
      assert Records(s)[RecordSize..] == Records(s[1..]);
    }
  }

  /** Reads records back one by one; fails if any type byte is invalid. */
  function DecodeRecords(bs: seq<byte>): Option<seq<Event>>
    decreases |bs|
  {
    if |bs| < RecordSize then (if bs == [] then Some([]) else None)
    else
      match DecodeEvent(bs[..RecordSize])
      case None => None
      case Some(e) =>
        match DecodeRecords(bs[RecordSize..])
        case None => None
        case Some(rest) => Some([e] + rest)
  }

  /** A log reader: the count byte must match the number of records. */
  function DecodeLog(bs: seq<byte>): (r: Option<seq<Event>>)
    ensures r.Some? ==> |bs| >= 1 && |r.value| == bs[0]
  {
    if bs == [] || bs[0] > Capacity then None
    else
      match DecodeRecords(bs[1..])
      case None => None
      case Some(s) => if |s| == bs[0] then Some(s) else None
  }

  /** Every timestamp cut to its low 32 bits: what the encoding preserves. */
  function Truncated(s: seq<Event>): (r: seq<Event>)
    ensures |r| == |s|
    ensures forall i :: 0 <= i < |s| ==> r[i] == Event(s[i].kind, s[i].timestamp % TimestampModulus)
  {
    if s == [] then [] else [Event(s[0].kind, s[0].timestamp % TimestampModulus)] + Truncated(s[1..])
  }

  lemma {:induction false} DecodeRecordsRoundTrip(s: seq<Event>)
    ensures DecodeRecords(Records(s)) == Some(Truncated(s))
  {
    if s != [] {
      var bs := Records(s);
      assert bs[..RecordSize] == EncodeEvent(s[0]);
      assert bs[RecordSize..] == Records(s[1..]);
      DecodeEncodeEvent(s[0]);
      DecodeRecordsRoundTrip(s[1..]);
    }
  }

  /** The log round trip: reading the serialized log back gives the same
      events in the same order, with timestamps mod 2^32. */
  lemma SerializeLogRoundTrip(s: seq<Event>)
    requires |s| <= Capacity
    ensures DecodeLog(SerializeLog(s)) == Some(Truncated(s))
  {
    var bs := SerializeLog(s);
    assert bs[1..] == Records(s);
    DecodeRecordsRoundTrip(s);
  }

  // ---------------------------------------------------------------------------
  // The log itself: the static eventLog[50] array with eventLogSize and
  // firstEventIdx.

  class Log {
    var events: array<Event>
    var size: nat
    var first: nat

    ghost predicate Valid()
      reads this
    {
      events.Length == Capacity && size <= Capacity && first < Capacity
    }

    /** The logical log, oldest first. */
    function Contents(): (s: seq<Event>)
      reads this, events
      requires Valid()
      ensures |s| == size
    {
      Window(events[..], first, size)
    }

    /** The zero-initialised static state: empty, first slot 0. */
    constructor ()
      ensures Valid() && fresh(events)
      ensures size == 0 && first == 0 && Contents() == []
    {
      events := new Event[Capacity](_ => Event(Feed, 0));
      size, first := 0, 0;
    }

    /** event_log_size */
    method Size() returns (n: byte)
      requires Valid()
      ensures n == |Contents()|
    {
      n := size;
    }

    /** log_full */
    method Full() returns (full: bool)
      requires Valid()
      ensures full <==> |Contents()| == Capacity
    {
      full := size == Capacity;
    }

    /** log_event: fails on a full log without touching any state; otherwise
        stores the event at slot (first + size) % 50 and grows size by one. */
    method LogEvent(kind: EventType, timestamp: int) returns (ok: bool)
      requires Valid()
      modifies this, events
      ensures Valid() && events == old(events) && first == old(first)
      ensures ok <==> old(size) < Capacity
      ensures !ok ==> size == old(size) && events[..] == old(events[..])
      ensures ok ==> (size == old(size) + 1 &&
                      events[..] == old(events[..])[Slot(first, old(size)) := Event(kind, timestamp)])
      ensures Contents() == Appended(old(Contents()), Event(kind, timestamp))
    {
      var full := Full();
      if full {
        return false;
      }
      ghost var before := events[..];
      events[Slot(first, size)] := Event(kind, timestamp);
      assert events[..] == before[Slot(first, size) := Event(kind, timestamp)];
      WindowAppend(before, first, size, Event(kind, timestamp));
      size := size + 1;
      ok := true;
    }

    /** log_get_event: the slot the returned pointer designates. It is NULL
        only for an index of 50 or more; an index between size and 49 still
        yields a slot, one that holds no live event. */
    method GetEvent(index: byte) returns (slot: Option<nat>)
      requires Valid()
      ensures slot.None? <==> index >= Capacity
      ensures slot.Some? ==> slot.value == Slot(first, index)
      ensures index < |Contents()| ==> slot.Some? && events[slot.value] == Contents()[index]
    {
      if index >= Capacity {
        return None;
      }
      slot := Some(Slot(first, index));
    }

    /** log_purge_from_start: rejected (no change at all) when count exceeds
        the size; otherwise first advances by count mod 50 and size shrinks. */
    method PurgeFromStart(count: byte)
      requires Valid()
      modifies this
      ensures Valid() && events == old(events)
      ensures count > old(size) ==> size == old(size) && first == old(first)
      ensures count <= old(size) ==> size == old(size) - count && first == Slot(old(first), count)
      ensures Contents() == Purged(old(Contents()), count)
    {
      if count > size {
        return;
      }
      WindowPurge(events[..], first, size, count);
      first := Slot(first, count);
      size := size - count;
    }
  }
}
