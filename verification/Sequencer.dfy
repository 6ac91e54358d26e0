/**
 The sequencer's event buffer: macros that format events of four or eight bytes into a
 buffer, which is dumped to the device when the next event does not fit.
 */
module Sequencer {
  import opened Common

  const SEQ_MIDIPUTC: Byte := 5
  const SEQ_CONTROLLER: Byte := 10
  const SEQ_VOLMODE: Byte := 12
  const EV_SEQ_LOCAL: Byte := 0x80
  const EV_TIMING: Byte := 0x81
  const EV_CHN_COMMON: Byte := 0x92
  const EV_CHN_VOICE: Byte := 0x93
  const EV_SYSEX: Byte := 0x94
  const SEQ_EXTENDED: Byte := 0xff

  /** The arguments of the event macros, each as wide as its place in the event. */
  datatype Event =
    | VolumeMode(dev: Byte, mode: Byte)
    | ChnVoice(dev: Byte, event: Byte, chn: Byte, note: Byte, parm: Byte)
    | ChnCommon(dev: Byte, event: Byte, chn: Byte, p1: Byte, p2: Byte, w14: Half)
    | Sysex(dev: Byte, data: seq<Byte>)
    | Control(dev: Byte, voice: Byte, controller: Byte, value: Half)
    | Timing(ev: Byte, parm32: Word)
    | Local(ev: Byte, parm32: Word)
    | MidiOut(device: Byte, byte: Byte)

  // ---------------------------------------------------------------------------
  // Bytes of an event
  // ---------------------------------------------------------------------------

  /** Stores as the little-endian machine does. */
  function Low(n: int): Byte {
    n % 0x100
  }

  function HalfBytes(n: Half): seq<Byte> {
    [Low(n), Low(n / 0x100)]
  }

  function WordBytes(n: Word): (bytes: seq<Byte>)
    ensures |bytes| == 4
  {
    [Low(n), Low(n / 0x100), Low(n / 0x1_0000), Low(n / 0x100_0000)]
  }

  /** At most six bytes of data, filled up with 0xff. */
  function Padded(data: seq<Byte>): (six: seq<Byte>)
    ensures |six| == 6
  {
    seq(6, i requires 0 <= i < 6 => if i < |data| then data[i] else 0xff)
  }

  function Format(e: Event): (bytes: seq<Byte>) {
    match e
    case VolumeMode(dev, mode) => [SEQ_EXTENDED, SEQ_VOLMODE, dev, mode, 0, 0, 0, 0]
    case ChnVoice(dev, event, chn, note, parm) => [EV_CHN_VOICE, dev, event, chn, note, parm, 0, 0]
    case ChnCommon(dev, event, chn, p1, p2, w14) => [EV_CHN_COMMON, dev, event, chn, p1, p2] + HalfBytes(w14)
    case Sysex(dev, data) => [EV_SYSEX, dev] + Padded(data)
    case Control(dev, voice, controller, value) =>
      [SEQ_EXTENDED, SEQ_CONTROLLER, dev, voice, controller] + HalfBytes(value) + [0]
    case Timing(ev, parm) => [EV_TIMING, ev, 0, 0] + WordBytes(parm)
    case Local(ev, parm) => [EV_SEQ_LOCAL, ev, 0, 0] + WordBytes(parm)
    case MidiOut(device, byte) => [SEQ_MIDIPUTC, byte, device, 0]
  }

  function Stream(es: seq<Event>): seq<Byte> {
    if es == [] then [] else Format(es[0]) + Stream(es[1..])
  }

  lemma {:induction false} StreamSum(a: seq<Event>, b: seq<Event>)
    ensures Stream(a + b) == Stream(a) + Stream(b)
  {
    hide Format;
    if a == [] {
      assert a + b == b;
    } else {
      assert (a + b)[1..] == a[1..] + b;
      StreamSum(a[1..], b);
    }
  }

  /** The bytes a device sees: the codes of the protocol, the arguments in their places, what is
      left filled up. */
  lemma {:induction false} EventBytes(e: Event)
    ensures var b := Format(e);
            match e
            case VolumeMode(dev, mode) => b == [0xff, 12, dev, mode, 0, 0, 0, 0]
            case ChnVoice(dev, event, chn, note, parm) => b == [0x93, dev, event, chn, note, parm, 0, 0]
            case ChnCommon(dev, event, chn, p1, p2, w14) =>
              |b| == 8 && b[..6] == [0x92, dev, event, chn, p1, p2] && b[6] as int + 256 * b[7] as int == w14
            case Sysex(dev, data) =>
              |b| == 8 && b[0] == 0x94 && b[1] == dev
              && forall k :: 0 <= k < 6 ==> b[2 + k] == if k < |data| then data[k] else 0xff
            case Control(dev, voice, controller, value) =>
              |b| == 8 && b[..5] == [0xff, 10, dev, voice, controller] && b[7] == 0
              && b[5] as int + 256 * b[6] as int == value
            case Timing(ev, parm) =>
              |b| == 8 && b[..4] == [0x81, ev, 0, 0]
              && b[4] as int + 0x100 * b[5] as int + 0x1_0000 * b[6] as int + 0x100_0000 * b[7] as int == parm
            case Local(ev, parm) =>
              |b| == 8 && b[..4] == [0x80, ev, 0, 0]
              && b[4] as int + 0x100 * b[5] as int + 0x1_0000 * b[6] as int + 0x100_0000 * b[7] as int == parm
            case MidiOut(device, byte) => b == [5, byte, device, 0]
  {
    match e
    case Timing(_, parm) => BytesOf(parm);
    case Local(_, parm) => BytesOf(parm);
    case _ =>
  }

  // ---------------------------------------------------------------------------
  // Reading events
  // ---------------------------------------------------------------------------

  /** The documented rule: the first byte tells the size. */
  function Size(first: Byte): nat {
    if first >= 0x80 then 8 else 4
  }

  function HalfAt(b: seq<Byte>, k: nat): Half
    requires k + 2 <= |b|
  {
    b[k] as int + 0x100 * b[k + 1] as int
  }

  function WordAt(b: seq<Byte>, k: nat): Word
    requires k + 4 <= |b|
  {
    b[k] as int + 0x100 * b[k + 1] as int + 0x1_0000 * b[k + 2] as int + 0x100_0000 * b[k + 3] as int
  }

  /** The event in the given bytes, if they are one. */
  function Parse(b: seq<Byte>): Option<Event>
    requires b != [] && |b| == Size(b[0])
  {
    if b[0] == SEQ_MIDIPUTC then Some(MidiOut(b[2], b[1]))
    else if b[0] == EV_CHN_VOICE then Some(ChnVoice(b[1], b[2], b[3], b[4], b[5]))
    else if b[0] == EV_CHN_COMMON then Some(ChnCommon(b[1], b[2], b[3], b[4], b[5], HalfAt(b, 6)))
    else if b[0] == EV_SYSEX then Some(Sysex(b[1], b[2..]))
    else if b[0] == EV_TIMING then Some(Timing(b[1], WordAt(b, 4)))
    else if b[0] == EV_SEQ_LOCAL then Some(Local(b[1], WordAt(b, 4)))
    else if b[0] == SEQ_EXTENDED && b[1] == SEQ_CONTROLLER then Some(Control(b[2], b[3], b[4], HalfAt(b, 5)))
    else if b[0] == SEQ_EXTENDED && b[1] == SEQ_VOLMODE then Some(VolumeMode(b[2], b[3]))
    else None
  }

  function ReadAll(b: seq<Byte>): Option<seq<Event>> {
    if b == [] then Some([])
    else if |b| < Size(b[0]) then None
    else
      var first, rest := Parse(b[..Size(b[0])]), ReadAll(b[Size(b[0])..]);
      if first.Some? && rest.Some? then Some([first.value] + rest.value) else None
  }

  /** What arrives of an event: system-exclusive data comes as six bytes. */
  function Received(e: Event): Event {
    if e.Sysex? then e.(data := Padded(e.data)) else e
  }

  function AllReceived(es: seq<Event>): seq<Event> {
    if es == [] then [] else [Received(es[0])] + AllReceived(es[1..])
  }

  lemma {:induction false} BytesOf(n: Word)
    ensures Low(n) + 0x100 * Low(n / 0x100) + 0x1_0000 * Low(n / 0x1_0000) + 0x100_0000 * Low(n / 0x100_0000) == n
  {
    Digit(n, 0x100);
    Digit(n / 0x100, 0x100);
    assert n / 0x1_0000 == n / 0x100 / 0x100 && n / 0x100_0000 == n / 0x1_0000 / 0x100;
    Digit(n / 0x1_0000, 0x100);
    assert n / 0x100_0000 < 0x100;
  }

  lemma {:induction false} Digit(n: nat, base: nat)
    requires base == 0x100
    ensures n == n % base + base * (n / base)
  {
  }

  ghost predicate ReadsBack(e: Event) {
    var b := Format(e);
    b != [] && |b| == Size(b[0]) && Parse(b) == Some(Received(e))
  }

  lemma {:induction false} ByteEventReadsBack(e: Event)
    requires e.VolumeMode? || e.ChnVoice? || e.MidiOut?
    ensures ReadsBack(e)
  {
  }

  lemma {:induction false} HalfEventReadsBack(e: Event)
    requires e.ChnCommon? || e.Control?
    ensures ReadsBack(e)
  {
    hide WordBytes, WordAt, Padded;
  }

  lemma {:induction false} WordReadsBack(front: seq<Byte>, n: Word)
    requires |front| == 4
    ensures WordAt(front + WordBytes(n), 4) == n
  {
    BytesOf(n);
    hide Low;
  }

  lemma {:induction false} WordEventReadsBack(e: Event)
    requires e.Timing? || e.Local?
    ensures ReadsBack(e)
  {
    WordReadsBack([if e.Timing? then EV_TIMING else EV_SEQ_LOCAL, e.ev, 0, 0], e.parm32);
    hide WordBytes, WordAt, Padded, HalfBytes, HalfAt;
  }

  lemma {:induction false} SysexReadsBack(e: Event)
    requires e.Sysex?
    ensures ReadsBack(e)
  {
    assert Format(e)[2..] == Padded(e.data);
    hide WordBytes, WordAt, Padded, HalfBytes, HalfAt;
  }

  /** An event reads back as itself, system-exclusive data as six bytes. */
  lemma {:induction false} EventReadsBack(e: Event)
    ensures var b := Format(e);
            b != [] && |b| == Size(b[0]) && Parse(b) == Some(Received(e))
  {
    if e.Sysex? {
      SysexReadsBack(e);
    } else if e.Timing? || e.Local? {
      WordEventReadsBack(e);
    } else if e.ChnCommon? || e.Control? {
      HalfEventReadsBack(e);
    } else {
      ByteEventReadsBack(e);
    }
    hide Format, Parse, Received, Size;
  }

  /** A system-exclusive event arrives unchanged exactly when it has six bytes; every other
      event does. */
  lemma {:induction false} ArrivesUnchangedExactly(e: Event)
    ensures Received(e) == e <==> (e.Sysex? ==> |e.data| == 6)
  {
    if e.Sysex? && |e.data| == 6 { assert Padded(e.data) == e.data; }
  }

  /** A stream of events reads back event by event. */
  lemma {:induction false} StreamReadsBack(es: seq<Event>)
    ensures ReadAll(Stream(es)) == Some(AllReceived(es))
  {
    if es != [] {
      var b, rest := Format(es[0]), Stream(es[1..]);
      EventReadsBack(es[0]);
      StreamReadsBack(es[1..]);
      assert (b + rest)[..|b|] == b && (b + rest)[|b|..] == rest && (b + rest)[0] == b[0];
      hide Format, Parse, Received;
    }
  }

  // ---------------------------------------------------------------------------
  // The buffer
  // ---------------------------------------------------------------------------

  function Concat<T>(parts: seq<seq<T>>): seq<T> {
    if parts == [] then [] else Concat(parts[..|parts| - 1]) + parts[|parts| - 1]
  }

  /** Each dump is a whole number of events. */
  ghost predicate WholeEvents(dumps: seq<seq<Byte>>, groups: seq<seq<Event>>) {
    |dumps| == |groups| && forall i :: 0 <= i < |dumps| ==> dumps[i] == Stream(groups[i])
  }

  lemma {:induction false} DumpsAreStream(dumps: seq<seq<Byte>>, groups: seq<seq<Event>>)
    requires WholeEvents(dumps, groups)
    ensures Concat(dumps) == Stream(Concat(groups))
  {
    if dumps != [] {
      var n := |dumps| - 1;
      DumpsAreStream(dumps[..n], groups[..n]);
      StreamSum(Concat(groups[..n]), groups[n]);
    }
  }

  class SeqBuffer {
    const buf: array<Byte>
    var ptr: nat
    /** What the device has been given, one write after the other. */
    var dumps: seq<seq<Byte>>
    ghost var groups: seq<seq<Event>>
    ghost var pending: seq<Event>

    ghost predicate Valid()
      reads this, buf
    {
      && buf.Length >= 8 && ptr <= buf.Length && buf[..ptr] == Stream(pending)
      && WholeEvents(dumps, groups)
    }

    /** The events issued so far. */
    ghost function Issued(): seq<Event>
      reads this
    {
      Concat(groups) + pending
    }

    constructor (length: nat)
      requires length >= 8
      ensures Valid() && Issued() == [] && dumps == [] && fresh(buf)
    {
      buf := new Byte[length](_ => 0);
      ptr, dumps, groups, pending := 0, [], [], [];
    }

    /** Writes what is pending, if anything. */
    method Dump()
      requires Valid()
      modifies this
      ensures Valid() && ptr == 0 && Issued() == old(Issued())
      ensures dumps == if old(ptr) == 0 then old(dumps) else old(dumps) + [old(buf[..ptr])]
    {
      if ptr != 0 {
        dumps := dumps + [buf[..ptr]];
        groups := groups + [pending];
        assert groups[..|groups| - 1] == old(groups);
        pending := [];
      } else {
        NothingPending(pending);
      }
      ptr := 0;
    }

    method NeedBuf(len: nat)
      requires Valid() && len <= 8
      modifies this
      ensures Valid() && ptr + len <= buf.Length && Issued() == old(Issued())
      ensures dumps ==
                if old(ptr) + len <= buf.Length || old(ptr) == 0 then old(dumps)
                else old(dumps) + [old(buf[..ptr])]
    {
      if ptr + len > buf.Length {
        Dump();
      }
    }

    /** Stores the bytes of an event in place. */
    method Store(bytes: seq<Byte>)
      requires ptr + |bytes| <= buf.Length
      modifies buf
      ensures buf[..ptr + |bytes|] == old(buf[..ptr]) + bytes
    {
      ghost var before := buf[..ptr];
      for k := 0 to |bytes|
        invariant buf[..ptr] == before
        invariant forall m :: 0 <= m < k ==> buf[ptr + m] == bytes[m]
      {
        buf[ptr + k] := bytes[k];
      }
    }

    /** One event macro: make room, store the bytes in place, advance. */
    method Issue(e: Event)
      requires Valid()
      modifies this, buf
      ensures Valid() && Issued() == old(Issued()) + [e]
      ensures old(dumps) <= dumps
    {
      EventReadsBack(e);
      StreamOfOne(e);
      hide Format, Stream;
      NeedBuf(|Format(e)|);
      StreamSum(pending, [e]);
      Store(Format(e));
      ptr := ptr + |Format(e)|;
      pending := pending + [e];
    }

    /** Any sequence of events: what was dumped and what is pending is exactly their stream,
        and each dump reads back on its own. */
    method IssueAll(es: seq<Event>)
      requires Valid()
      modifies this, buf
      ensures Valid() && Issued() == old(Issued()) + es
      ensures Concat(dumps) + buf[..ptr] == Stream(old(Issued()) + es)
      ensures forall i :: 0 <= i < |dumps| ==> ReadAll(dumps[i]).Some?
    {
      hide Stream, ReadAll, Concat, WholeEvents;
      for i := 0 to |es|
        invariant Valid() && Issued() == old(Issued()) + es[..i]
      {
        hide Valid;
        Issue(es[i]);
        assert es[..i + 1] == es[..i] + [es[i]];
      }
      assert es[..|es|] == es;
      OutputIsStream(dumps, groups, pending);
    }
  }

  lemma {:induction false} OutputIsStream(dumps: seq<seq<Byte>>, groups: seq<seq<Event>>, pending: seq<Event>)
    requires WholeEvents(dumps, groups)
    ensures Concat(dumps) + Stream(pending) == Stream(Concat(groups) + pending)
    ensures forall i :: 0 <= i < |dumps| ==> ReadAll(dumps[i]).Some?
  {
    DumpsAreStream(dumps, groups);
    StreamSum(Concat(groups), pending);
    DumpsReadBack(dumps, groups);
    hide Stream, ReadAll, Concat, WholeEvents;
  }

  lemma {:induction false} DumpsReadBack(dumps: seq<seq<Byte>>, groups: seq<seq<Event>>)
    requires WholeEvents(dumps, groups)
    ensures forall i :: 0 <= i < |dumps| ==> ReadAll(dumps[i]).Some?
  {
    hide ReadAll, Stream;
    forall i | 0 <= i < |dumps| ensures ReadAll(dumps[i]).Some? {
      StreamReadsBack(groups[i]);
    }
  }

  lemma {:induction false} NothingPending(es: seq<Event>)
    ensures Stream(es) == [] ==> es == []
  {
    if es != [] { EventReadsBack(es[0]); }
  }

  lemma {:induction false} StreamOfOne(e: Event)
    ensures Stream([e]) == Format(e)
  {
    assert [e][1..] == [];
    assert Format(e) + [] == Format(e);
  }
}
