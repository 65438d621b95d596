/** The MTC timecode decoder: connection lifecycle, the per-message callback that
    drives the quarter-frame buffer, and the consumer's non-blocking poll.

    The MIDI transport is abstract: whether it initialises is a `bool` parameter
    and opening a port is a function `open` that may fail. Parsing raw bytes into
    a `MidiMsg` is a function `parse` that may fail, and the conversion of an
    assembled fragment into a `Timecode` is a function `convert`. The callback is
    an atomic step that interleaves with the consumer's calls. */
module MtcDecoder {
  import opened Wrappers
  import opened Timecodes
  import opened QuarterFrames

  /** A MIDI input port as handed out by the transport. */
  datatype Port = Port(id: nat)

  /** An open transport connection. */
  datatype Handle = Handle(id: nat)

  type Bytes = seq<bv8>

  /** The consumer end of one channel: which channel it belongs to and the values
      sent on it that have not been received yet, oldest first. */
  datatype Receiver = Receiver(channel: nat, queue: seq<Timecode>)

  /** A registered connection: the transport handle, the channel its callback
      sends on, and the quarter-frame buffer the callback owns. */
  datatype Connection = Connection(handle: Handle, channel: nat, buffer: Slots)

  /** `MtcTimecodeDecoder`. `channels` counts the channels created so far, so
      every new channel gets an identity no earlier one had. */
  datatype Decoder = Decoder(
    fps: uint8,
    port: Option<Port>,
    timecodeRx: Option<Receiver>,
    connection: Option<Connection>,
    connected: bool,
    channels: nat)

  datatype DecoderError = MidiInitFailed | NoPortSpecified | PortConnectFailed | NoConnectionOpen

  /** The state after a fallible operation together with what it reported. */
  datatype Transition = Transition(state: Decoder, status: Outcome<DecoderError>)

  /** The values waiting to be polled (none when there is no receiver). */
  function Pending(d: Decoder): seq<Timecode> {
    if d.timecodeRx.Some? then d.timecodeRx.value.queue else []
  }

  /** The decoder's bookkeeping agrees with itself: the flag says whether a
      connection is open, an open connection's callback sends on the channel
      whose receiver the decoder holds, and channel identities in use are older
      than the next fresh one. */
  predicate Coherent(d: Decoder) {
    && (d.connected <==> d.connection.Some?)
    && (d.connection.Some? ==>
          d.timecodeRx.Some? && d.timecodeRx.value.channel == d.connection.value.channel)
    && (d.timecodeRx.Some? ==> d.timecodeRx.value.channel < d.channels)
  }

  /** `MtcTimecodeDecoder::new`: fails only if the MIDI backend cannot start. */
  function New(midiInit: bool): (r: Result<Decoder, DecoderError>)
    ensures r.Failure? <==> !midiInit
    ensures r.Failure? ==> r.error == MidiInitFailed
    ensures r.Success? ==> && r.value.port.None? && r.value.timecodeRx.None? && r.value.connection.None?
                           && !r.value.connected && r.value.fps == 0
    ensures r.Success? ==> Coherent(r.value) && Pending(r.value) == []
  {
    if !midiInit then Failure(MidiInitFailed)
    else Success(Decoder(0, None, None, None, false, 0))
  }

  /** `connected`. */
  function Connected(d: Decoder): (b: bool)
    ensures Coherent(d) ==> (b <==> d.connection.Some?)
  {
    d.connected
  }

  /** Assigning the public `port` field. */
  function SelectPort(d: Decoder, p: Port): (r: Decoder)
    ensures r.port == Some(p)
    ensures r.fps == d.fps && r.timecodeRx == d.timecodeRx && r.connection == d.connection
    ensures r.connected == d.connected && r.channels == d.channels
    ensures Coherent(d) ==> Coherent(r)
  {
    d.(port := Some(p))
  }

  /** The first stage of `connect` as written: the selected port is taken and a
      fresh channel's receiver replaces the old one, before the transport is
      asked anything and while any old connection is still open. */
  function SwapReceiver(d: Decoder): Decoder {
    d.(port := None, timecodeRx := Some(Receiver(d.channels, [])), channels := d.channels + 1)
  }

  /** `connect`, as written: a fresh MIDI input must start, then the selected port
      is taken, a fresh channel replaces the receiver, and only then is the
      transport asked to connect. */
  function Connect(d: Decoder, midiInit: bool, open: Port -> Option<Handle>): (r: Transition)
    ensures r.state.fps == d.fps
    ensures r.status.Pass? <==> midiInit && d.port.Some? && open(d.port.value).Some?
    ensures !midiInit ==> r == Transition(d, Fail(MidiInitFailed))
    ensures midiInit && d.port.None? ==> r == Transition(d, Fail(NoPortSpecified))
    ensures midiInit && d.port.Some? ==>
              && r.state.port.None?
              && r.state.timecodeRx == Some(Receiver(d.channels, []))
              && r.state.channels > d.channels
    ensures r.status.Pass? ==>
              && r.state.connected
              && r.state.connection == Some(Connection(open(d.port.value).value, d.channels, Empty()))
    ensures r.status == Fail(PortConnectFailed) ==>
              r.state.connection == d.connection && r.state.connected == d.connected
  {
    if !midiInit then Transition(d, Fail(MidiInitFailed))
    else
      match d.port
      case None => Transition(d, Fail(NoPortSpecified))
      case Some(p) =>
        var taken := SwapReceiver(d);
        match open(p)
        case None => Transition(taken, Fail(PortConnectFailed))
        case Some(h) =>
          Transition(taken.(connection := Some(Connection(h, d.channels, Empty())), connected := true), Pass)
  }

  /** `disconnect`: closes the open connection. The port stays consumed and the
      receiver, with whatever is still queued in it, stays in place. */
  function Disconnect(d: Decoder): (r: Transition)
    ensures d.connection.None? ==> r == Transition(d, Fail(NoConnectionOpen))
    ensures d.connection.Some? ==>
              && r.status == Pass
              && r.state.connection.None? && !r.state.connected
              && r.state.port == d.port && r.state.timecodeRx == d.timecodeRx && r.state.fps == d.fps
    ensures Coherent(d) ==> Coherent(r.state)
  {
    match d.connection
    case None => Transition(d, Fail(NoConnectionOpen))
    case Some(_) => Transition(d.(connection := None, connected := false), Pass)
  }

  /** The state after a poll and the value it returned. */
  datatype Polled = Polled(state: Decoder, value: Option<Timecode>)

  function OptionToSeq<T>(o: Option<T>): seq<T> {
    if o.Some? then [o.value] else []
  }

  /** `get_current_timecode`: takes the oldest queued value, if any, without
      blocking. What was pending is exactly what it returned followed by what is
      still pending. */
  function GetCurrentTimecode(d: Decoder): (r: Polled)
    ensures r.value.Some? <==> Pending(d) != []
    ensures Pending(d) == OptionToSeq(r.value) + Pending(r.state)
    ensures r.value.None? ==> r.state == d
    ensures r.state.timecodeRx.Some? <==> d.timecodeRx.Some?
    ensures r.state.port == d.port && r.state.connection == d.connection && r.state.connected == d.connected
    ensures r.state.fps == d.fps
    ensures Coherent(d) ==> Coherent(r.state)
  {
    match d.timecodeRx
    case None => Polled(d, None)
    case Some(rx) =>
      if |rx.queue| == 0 then Polled(d, None)
      else Polled(d.(timecodeRx := Some(rx.(queue := rx.queue[1..]))), Some(rx.queue[0]))
  }

  // ---------------------------------------------------------------------------
  // The per-message pipeline of the decoder's callback
  // ---------------------------------------------------------------------------

  /** One callback step on the buffer: `add`, then try `construct_timecode`.
      A value comes out exactly when the message leaves every slot filled, and
      then the buffer starts over; otherwise the message is simply recorded. A
      message that is not a quarter-frame only retries the construction. */
  function Step(b: Slots, m: MidiMsg): (r: Completion)
    ensures r.value.Some? <==> IsFilled(Add(b, m))
    ensures r.value.Some? ==> r.buffer == Empty()
    ensures r.value.Some? ==>
              var a := Add(b, m);
              r.value.value == Fragment(a[0].value.frames ^ a[1].value.frames, a[2].value.seconds ^ a[3].value.seconds,
                                        a[4].value.minutes ^ a[5].value.minutes, a[6].value.hours ^ a[7].value.hours,
                                        a[7].value.codeType)
    ensures r.value.None? ==> r.buffer == Add(b, m)
    ensures TargetOf(m).None? ==> r == Construct(b)
  {
    Construct(Add(b, m))
  }

  /** What feeding a whole message sequence through `Step` leaves and emits. */
  datatype Fed = Fed(buffer: Slots, emitted: seq<Fragment>)

  function Feed(b: Slots, ms: seq<MidiMsg>): (r: Fed)
    decreases |ms|
  {
    if |ms| == 0 then Fed(b, [])
    else
      var c := Step(b, ms[0]);
      var rest := Feed(c.buffer, ms[1..]);
      Fed(rest.buffer, (if c.value.Some? then [c.value.value] else []) + rest.emitted)
  }

  /** As long as no prefix fills the buffer, the pipeline emits nothing and keeps
      exactly the slots that plain `add`s would. */
  lemma {:induction false} FeedWithoutCompletion(b: Slots, ms: seq<MidiMsg>)
    requires forall k :: 0 < k <= |ms| ==> !IsFilled(AddAll(b, ms[..k]))
    ensures Feed(b, ms) == Fed(AddAll(b, ms), [])
    decreases |ms|
  {
    if |ms| > 0 {
      assert ms[..1] == [ms[0]];
      assert AddAll(b, ms[..1]) == Add(b, ms[0]);
      forall k | 0 < k <= |ms[1..]|
        ensures !IsFilled(AddAll(Add(b, ms[0]), ms[1..][..k]))
      {
        assert ms[..k + 1][0] == ms[0] && ms[..k + 1][1..] == ms[1..][..k];
      }
      FeedWithoutCompletion(Add(b, ms[0]), ms[1..]);
    }
  }


  /** The scenario of one full cycle: quarter-frames 1 to 7 leave nothing to
      read, and quarter-frame 8 then completes exactly one value merged from all
      eight, leaving the buffer empty. */
  lemma FullCycle(f: seq<Fragment>)
    requires |f| == SlotCount
    ensures Feed(Empty(), InOrder(f, 7)).emitted == []
    ensures Step(Feed(Empty(), InOrder(f, 7)).buffer, QuarterFrame(7, f[7])) ==
              Completion(Empty(), Some(Fragment(f[0].frames ^ f[1].frames, f[2].seconds ^ f[3].seconds,
                                                f[4].minutes ^ f[5].minutes, f[6].hours ^ f[7].hours,
                                                f[7].codeType)))
  {
    SevenEmitNothing(f);
    InOrderFills(f);
    var full := Add(AddAll(Empty(), InOrder(f, 7)), QuarterFrame(7, f[7]));
    assert IsFilled(full);
  }

  lemma SevenEmitNothing(f: seq<Fragment>)
    requires |f| == SlotCount
    ensures Feed(Empty(), InOrder(f, 7)) == Fed(AddAll(Empty(), InOrder(f, 7)), [])
  {
    var first := InOrder(f, 7);
    forall k | 0 < k <= |first|
      ensures !IsFilled(AddAll(Empty(), first[..k]))
    {
      MissingKindNeverCompletes(first[..k], 7);
    }
    FeedWithoutCompletion(Empty(), first);
  }

  /** The result of one callback invocation: the new state and the value sent,
      or the panic of sending on a channel whose receiver has been dropped. */
  datatype Delivery = Delivered(state: Decoder, sent: Option<Timecode>) | SendPanicked

  /** The callback registered by `connect`, for one incoming byte message:
      unparsable bytes change nothing; otherwise the message goes through `add`
      and `construct_timecode`, and a completed value is converted and sent on
      the connection's channel. Without an open connection no callback fires. */
  function OnMessage(d: Decoder, bytes: Bytes, parse: Bytes -> Option<MidiMsg>, convert: Fragment -> Timecode): (r: Delivery)
    ensures d.connection.None? || parse(bytes).None? ==> r == Delivered(d, None)
    ensures d.connection.Some? && parse(bytes).Some? ==>
              var c := Step(d.connection.value.buffer, parse(bytes).value);
              && (r.SendPanicked? <==>
                    c.value.Some? && (d.timecodeRx.None? || d.timecodeRx.value.channel != d.connection.value.channel))
              && (r.Delivered? ==>
                    && r.state.connection == Some(d.connection.value.(buffer := c.buffer))
                    && (r.sent.Some? <==> c.value.Some?)
                    && (r.sent.Some? ==> r.sent.value == convert(c.value.value)))
    ensures r.Delivered? ==>
              && Pending(r.state) == Pending(d) + OptionToSeq(r.sent)
              && r.state.port == d.port && r.state.connected == d.connected && r.state.fps == d.fps
    ensures Coherent(d) ==> r.Delivered? && Coherent(r.state)
  {
    match d.connection
    case None => Delivered(d, None)
    case Some(conn) =>
      match parse(bytes)
      case None => Delivered(d, None)
      case Some(msg) =>
        var c := Step(conn.buffer, msg);
        var stepped := d.(connection := Some(conn.(buffer := c.buffer)));
        match c.value
        case None => Delivered(stepped, None)
        case Some(tc) =>
          if d.timecodeRx.Some? && d.timecodeRx.value.channel == conn.channel then
            var rx := d.timecodeRx.value;
            Delivered(stepped.(timecodeRx := Some(rx.(queue := rx.queue + [convert(tc)]))), Some(convert(tc)))
          else SendPanicked
  }

  // ---------------------------------------------------------------------------
  // Interleavings of callback steps, polls and disconnects
  // ---------------------------------------------------------------------------

  datatype Event = Poll | Incoming(bytes: Bytes) | Close

  /** What a run of events received through polls and sent from the callback. */
  datatype Run = Ran(state: Decoder, received: seq<Timecode>, sent: seq<Timecode>) | Panicked

  function RunEvents(d: Decoder, evs: seq<Event>, parse: Bytes -> Option<MidiMsg>, convert: Fragment -> Timecode): Run
    decreases |evs|
  {
    if |evs| == 0 then Ran(d, [], [])
    else
      match evs[0]
      case Poll =>
        var p := GetCurrentTimecode(d);
        var rest := RunEvents(p.state, evs[1..], parse, convert);
        if rest.Panicked? then Panicked else Ran(rest.state, OptionToSeq(p.value) + rest.received, rest.sent)
      case Incoming(bytes) =>
        (match OnMessage(d, bytes, parse, convert)
         case SendPanicked => Panicked
         case Delivered(s, sent) =>
           var rest := RunEvents(s, evs[1..], parse, convert);
           if rest.Panicked? then Panicked else Ran(rest.state, rest.received, OptionToSeq(sent) + rest.sent))
      case Close =>
        var rest := RunEvents(Disconnect(d).state, evs[1..], parse, convert);
        if rest.Panicked? then Panicked else Ran(rest.state, rest.received, rest.sent)
  }

  /** From a coherent state, any interleaving of callback steps, polls and
      disconnects never panics, and the consumer receives what was pending and
      what was sent, in order, each exactly once: received values followed by
      those still pending equal the values pending before followed by those sent. */
  lemma {:induction false} RunConservesValues(d: Decoder, evs: seq<Event>, parse: Bytes -> Option<MidiMsg>, convert: Fragment -> Timecode)
    requires Coherent(d)
    ensures RunEvents(d, evs, parse, convert).Ran?
    ensures var r := RunEvents(d, evs, parse, convert);
            Coherent(r.state) && r.received + Pending(r.state) == Pending(d) + r.sent
    decreases |evs|, 1
  {
    if |evs| > 0 {
      match evs[0]
      case Poll => PollThenRun(d, evs, parse, convert);
      case Incoming(bytes) => IncomingThenRun(d, evs, parse, convert);
      case Close =>
        RunConservesValues(Disconnect(d).state, evs[1..], parse, convert);
        var rest := RunEvents(Disconnect(d).state, evs[1..], parse, convert);
        assert RunEvents(d, evs, parse, convert) == Ran(rest.state, rest.received, rest.sent);
    }
  }

  lemma {:induction false} PollThenRun(d: Decoder, evs: seq<Event>, parse: Bytes -> Option<MidiMsg>, convert: Fragment -> Timecode)
    requires Coherent(d) && |evs| > 0 && evs[0].Poll?
    ensures RunEvents(d, evs, parse, convert).Ran?
    ensures var r := RunEvents(d, evs, parse, convert);
            Coherent(r.state) && r.received + Pending(r.state) == Pending(d) + r.sent
    decreases |evs|, 0
  {
    var p := GetCurrentTimecode(d);
    RunConservesValues(p.state, evs[1..], parse, convert);
    var rest := RunEvents(p.state, evs[1..], parse, convert);
    assert RunEvents(d, evs, parse, convert) == Ran(rest.state, OptionToSeq(p.value) + rest.received, rest.sent);
    calc {
      OptionToSeq(p.value) + rest.received + Pending(rest.state);
      OptionToSeq(p.value) + (rest.received + Pending(rest.state));
      OptionToSeq(p.value) + (Pending(p.state) + rest.sent);
      OptionToSeq(p.value) + Pending(p.state) + rest.sent;
      Pending(d) + rest.sent;
    }
  }

  lemma {:induction false} IncomingThenRun(d: Decoder, evs: seq<Event>, parse: Bytes -> Option<MidiMsg>, convert: Fragment -> Timecode)
    requires Coherent(d) && |evs| > 0 && evs[0].Incoming?
    ensures RunEvents(d, evs, parse, convert).Ran?
    ensures var r := RunEvents(d, evs, parse, convert);
            Coherent(r.state) && r.received + Pending(r.state) == Pending(d) + r.sent
    decreases |evs|, 0
  {
    var del := OnMessage(d, evs[0].bytes, parse, convert);
    RunConservesValues(del.state, evs[1..], parse, convert);
    var rest := RunEvents(del.state, evs[1..], parse, convert);
    assert RunEvents(d, evs, parse, convert) == Ran(rest.state, rest.received, OptionToSeq(del.sent) + rest.sent);
    calc {
      rest.received + Pending(rest.state);
      Pending(del.state) + rest.sent;
      Pending(d) + OptionToSeq(del.sent) + rest.sent;
      Pending(d) + (OptionToSeq(del.sent) + rest.sent);
    }
  }

  /** Polling twice with one value pending returns it once: the second poll finds
      nothing unless the callback has sent something in between. */
  lemma PollTakes(d: Decoder)
    requires |Pending(d)| == 1
    ensures GetCurrentTimecode(d).value == Some(Pending(d)[0])
    ensures GetCurrentTimecode(GetCurrentTimecode(d).state) == Polled(GetCurrentTimecode(d).state, None)
  {
  }

  /** Without a receiver there is never anything to poll. */
  lemma NoReceiverNothingToPoll(d: Decoder)
    requires d.timecodeRx.None?
    ensures GetCurrentTimecode(d) == Polled(d, None)
  {
  }

  /** A successful `connect` from a coherent state yields a coherent, connected
      state with a fresh empty buffer and an empty fresh channel. */
  lemma ConnectSuccessCoherent(d: Decoder, midiInit: bool, open: Port -> Option<Handle>)
    requires Coherent(d) && Connect(d, midiInit, open).status.Pass?
    ensures var s := Connect(d, midiInit, open).state;
            Coherent(s) && Connected(s) && Pending(s) == [] && s.connection.value.buffer == Empty()
  {
  }

  /** From an idle coherent state, `connect` keeps the state coherent whatever
      the transport does; after a transport failure the port is gone and the
      receiver has been swapped for a new, empty one. */
  lemma ConnectFromIdleCoherent(d: Decoder, midiInit: bool, open: Port -> Option<Handle>)
    requires Coherent(d) && d.connection.None?
    ensures Coherent(Connect(d, midiInit, open).state)
    ensures Connect(d, midiInit, open).status == Fail(PortConnectFailed) ==>
              var s := Connect(d, midiInit, open).state;
              s.port.None? && Pending(s) == [] && !Connected(s)
  {
  }

  /** `connect` on a connected decoder whose transport then refuses the port
      leaves the old connection open but replaces its receiver: the old callback
      now sends on a channel nobody holds, so the next message that completes a
      timecode panics. */
  lemma ReconnectFailureStrandsCallback(d: Decoder, open: Port -> Option<Handle>, bytes: Bytes,
                                        parse: Bytes -> Option<MidiMsg>, convert: Fragment -> Timecode)
    requires Coherent(d) && d.connection.Some? && d.port.Some? && open(d.port.value).None?
    ensures var s := Connect(d, true, open).state;
            && Connect(d, true, open).status == Fail(PortConnectFailed)
            && Connected(s) && !Coherent(s)
            && (parse(bytes).Some? && Step(d.connection.value.buffer, parse(bytes).value).value.Some? ==>
                  OnMessage(s, bytes, parse, convert) == SendPanicked)
  {
  }

  /** Reconnecting while connected opens a window whatever the transport then
      does: after the receiver swap the old connection is still open and its
      callback sends on a channel nobody holds, so a message that completes a
      timecode in that window panics. The receiver the swap installs is the one
      `connect` finishes with. */
  lemma ReconnectWindowPanics(d: Decoder, open: Port -> Option<Handle>, bytes: Bytes,
                              parse: Bytes -> Option<MidiMsg>, convert: Fragment -> Timecode)
    requires Coherent(d) && d.connection.Some? && d.port.Some?
    ensures !Coherent(SwapReceiver(d))
    ensures parse(bytes).Some? && Step(d.connection.value.buffer, parse(bytes).value).value.Some? ==>
              OnMessage(SwapReceiver(d), bytes, parse, convert) == SendPanicked
    ensures Connect(d, true, open).state.timecodeRx == SwapReceiver(d).timecodeRx
  {
  }

  /** The first stage of the corrected `connect`: the open connection, if any,
      is closed, so its callback stops, and the selected port is taken. */
  function Release(d: Decoder): (r: Decoder)
    ensures r.connection.None? && !r.connected && r.port.None?
    ensures Pending(r) == Pending(d) && r.channels == d.channels && r.fps == d.fps
  {
    d.(port := None, connection := None, connected := false)
  }

  /** `connect` corrected: the old connection is closed first, and the fresh
      channel's receiver is installed only once the transport has accepted the
      port, in the same step as the connection whose callback sends on it. A
      refused port leaves the decoder disconnected with its receiver, and what
      is still queued in it, in place. */
  function ConnectFixed(d: Decoder, midiInit: bool, open: Port -> Option<Handle>): (r: Transition)
    ensures r.state.fps == d.fps
    ensures r.status.Pass? <==> midiInit && d.port.Some? && open(d.port.value).Some?
    ensures !midiInit ==> r == Transition(d, Fail(MidiInitFailed))
    ensures midiInit && d.port.None? ==> r == Transition(d, Fail(NoPortSpecified))
    ensures midiInit && d.port.Some? ==>
              && r.state.port.None?
              && (r.state.connection.Some? ==> r.state.connection.value.channel == d.channels)
    ensures r.status.Fail? ==> r.state.timecodeRx == d.timecodeRx
    ensures r.status == Fail(PortConnectFailed) ==> r.state.connection.None? && !r.state.connected
    ensures r.status.Pass? ==>
              && r.state.connected && Pending(r.state) == []
              && r.state.timecodeRx == Some(Receiver(d.channels, []))
              && r.state.connection == Some(Connection(open(d.port.value).value, d.channels, Empty()))
  {
    if !midiInit then Transition(d, Fail(MidiInitFailed))
    else
      match d.port
      case None => Transition(d, Fail(NoPortSpecified))
      case Some(p) =>
        var released := Release(d);
        match open(p)
        case None => Transition(released, Fail(PortConnectFailed))
        case Some(h) =>
          Transition(released.(timecodeRx := Some(Receiver(d.channels, [])), channels := d.channels + 1,
                               connection := Some(Connection(h, d.channels, Empty())), connected := true), Pass)
  }

  /** With the corrected `connect` every operation keeps the decoder coherent, so
      by `RunConservesValues` no callback can ever send into a dropped channel.
      This holds at the intermediate stage too: once the old connection is
      released no callback fires until the new one is installed. */
  lemma ConnectFixedPreservesCoherence(d: Decoder, midiInit: bool, open: Port -> Option<Handle>,
                                       bytes: Bytes, parse: Bytes -> Option<MidiMsg>, convert: Fragment -> Timecode)
    requires Coherent(d)
    ensures Coherent(Release(d))
    ensures OnMessage(Release(d), bytes, parse, convert) == Delivered(Release(d), None)
    ensures Coherent(ConnectFixed(d, midiInit, open).state)
  {
  }

  /** A concrete trace: connect to port 1, select port 2 while still connected,
      and fail to connect to it. The as-written decoder is left incoherent; the
      corrected one is not. */
  lemma ReconnectFailureExample()
    ensures var d0 := New(true).value;
            var d1 := Connect(SelectPort(d0, Port(1)), true, p => Some(Handle(1))).state;
            var d2 := SelectPort(d1, Port(2));
            var bad := p => if p == Port(1) then Some(Handle(1)) else None;
            && Connected(d1) && Coherent(d1)
            && Connect(d2, true, bad).status == Fail(PortConnectFailed)
            && !Coherent(Connect(d2, true, bad).state)
            && Coherent(ConnectFixed(d2, true, bad).state)
  {
  }
}
