/** The quarter-frame reassembly buffer: eight slots, one per MTC quarter-frame
    kind (System Common status 0xF1 of the MIDI 1.0 Detailed Specification's MTC
    supplement), filled first-arrival-wins and merged into one timecode once all
    eight are present. */
module QuarterFrames {
  import opened Wrappers

  /** The frame-rate tag carried by a timecode message. */
  datatype CodeType = Fps24 | Fps25 | DropFrame30 | NonDropFrame30

  /** The timecode a parsed quarter-frame message carries. How the MIDI parser
      fills its fields from the message's nibble is outside this model, so the
      fields are opaque bytes. */
  datatype Fragment = Fragment(frames: bv8, seconds: bv8, minutes: bv8, hours: bv8, codeType: CodeType)

  /** The System Common messages, of which only the eight quarter-frame kinds
      matter here; every other one is `OtherCommon`. */
  datatype SystemCommonMsg =
    | QuarterFrame1(tc: Fragment)
    | QuarterFrame2(tc: Fragment)
    | QuarterFrame3(tc: Fragment)
    | QuarterFrame4(tc: Fragment)
    | QuarterFrame5(tc: Fragment)
    | QuarterFrame6(tc: Fragment)
    | QuarterFrame7(tc: Fragment)
    | QuarterFrame8(tc: Fragment)
    | OtherCommon

  /** A parsed MIDI message: System Common or anything else. */
  datatype MidiMsg = SystemCommon(msg: SystemCommonMsg) | OtherMsg

  const SlotCount: nat := 8

  type Slots = b: seq<Option<Fragment>> | |b| == SlotCount
    witness [None, None, None, None, None, None, None, None]

  /** The slot a message targets and the fragment it carries. */
  datatype Target = Target(index: nat, tc: Fragment)

  /** Which slot a message belongs to: `QuarterFrameK` goes to slot K-1, every
      other message to none. */
  function TargetOf(m: MidiMsg): (r: Option<Target>)
    ensures r.Some? ==> r.value.index < SlotCount
    ensures r.Some? <==> m.SystemCommon? && !m.msg.OtherCommon?
    ensures r.Some? ==> r.value.tc == m.msg.tc
  {
    match m
    case OtherMsg => None
    case SystemCommon(msg) =>
      match msg
      case QuarterFrame1(tc) => Some(Target(0, tc))
      case QuarterFrame2(tc) => Some(Target(1, tc))
      case QuarterFrame3(tc) => Some(Target(2, tc))
      case QuarterFrame4(tc) => Some(Target(3, tc))
      case QuarterFrame5(tc) => Some(Target(4, tc))
      case QuarterFrame6(tc) => Some(Target(5, tc))
      case QuarterFrame7(tc) => Some(Target(6, tc))
      case QuarterFrame8(tc) => Some(Target(7, tc))
      case OtherCommon => None
  }

  /** `QuarterFrameK` and slot K-1 determine each other: a message targets slot
      `index` with fragment `tc` exactly when it is that quarter-frame message. */
  lemma TargetOfQuarterFrame(m: MidiMsg, index: nat, tc: Fragment)
    requires index < SlotCount
    ensures TargetOf(m) == Some(Target(index, tc)) <==> m == QuarterFrame(index, tc)
  {
  }

  /** The quarter-frame message of kind `index` (0..7) carrying `tc`. */
  function QuarterFrame(index: nat, tc: Fragment): (m: MidiMsg)
    requires index < SlotCount
    ensures TargetOf(m) == Some(Target(index, tc))
  {
    SystemCommon(
      if index == 0 then QuarterFrame1(tc)
      else if index == 1 then QuarterFrame2(tc)
      else if index == 2 then QuarterFrame3(tc)
      else if index == 3 then QuarterFrame4(tc)
      else if index == 4 then QuarterFrame5(tc)
      else if index == 5 then QuarterFrame6(tc)
      else if index == 6 then QuarterFrame7(tc)
      else QuarterFrame8(tc))
  }

  /** `TimeCodeQuarterFrameBuffer::new`. */
  function Empty(): (b: Slots)
    ensures forall i :: 0 <= i < |b| ==> b[i].None?
  {
    [None, None, None, None, None, None, None, None]
  }

  /** `add`: a quarter-frame fills its slot if that slot is still empty; a filled
      slot is never overwritten, and other messages change nothing. */
  function Add(b: Slots, m: MidiMsg): (r: Slots)
    ensures TargetOf(m).None? ==> r == b
    ensures forall i :: 0 <= i < SlotCount && b[i].Some? ==> r[i] == b[i]
    ensures forall i :: 0 <= i < SlotCount && (TargetOf(m).None? || i != TargetOf(m).value.index) ==> r[i] == b[i]
    ensures TargetOf(m).Some? ==> r[TargetOf(m).value.index].Some?
    ensures TargetOf(m).Some? && b[TargetOf(m).value.index].None? ==>
              r[TargetOf(m).value.index] == Some(TargetOf(m).value.tc)
  {
    match TargetOf(m)
    case None => b
    case Some(t) => if b[t.index].None? then b[t.index := Some(t.tc)] else b
  }

  /** `is_filled`: every slot holds a fragment, checked slot by slot. */
  function IsFilled(s: seq<Option<Fragment>>): (r: bool)
    ensures r <==> forall i :: 0 <= i < |s| ==> s[i].Some?
  {
    |s| == 0 || (s[0].Some? && IsFilled(s[1..]))
  }

  /** What `construct_timecode` returns alongside the buffer it leaves behind. */
  datatype Completion = Completion(buffer: Slots, value: Option<Fragment>)

  /** `construct_timecode`: nothing, and an untouched buffer, until all eight
      slots are filled; then the XOR of each slot pair, the code type of the last
      slot, and an emptied buffer. */
  function Construct(b: Slots): (r: Completion)
    ensures !IsFilled(b) ==> r == Completion(b, None)
    ensures IsFilled(b) ==> r.buffer == Empty() && r.value.Some?
    ensures IsFilled(b) ==>
              && r.value.value.frames == b[0].value.frames ^ b[1].value.frames
              && r.value.value.seconds == b[2].value.seconds ^ b[3].value.seconds
              && r.value.value.minutes == b[4].value.minutes ^ b[5].value.minutes
              && r.value.value.hours == b[6].value.hours ^ b[7].value.hours
              && r.value.value.codeType == b[7].value.codeType
  {
    if !IsFilled(b) then Completion(b, None)
    else
      Completion(Empty(), Some(Fragment(
        b[0].value.frames ^ b[1].value.frames,
        b[2].value.seconds ^ b[3].value.seconds,
        b[4].value.minutes ^ b[5].value.minutes,
        b[6].value.hours ^ b[7].value.hours,
        b[7].value.codeType)))
  }

  /** A successful construction cannot be repeated: the second call finds the
      buffer empty. */
  lemma ConstructClears(b: Slots)
    requires Construct(b).value.Some?
    ensures Construct(Construct(b).buffer) == Completion(Empty(), None)
  {
    assert Empty()[0].None?;
  }

  /** On disjoint nibbles XOR is OR, and each nibble survives the merge. */
  lemma XorMergesNibbles(low: bv8, high: bv8)
    requires SplitNibbles(low, high)
    ensures low ^ high == low | high
    ensures (low ^ high) & 0x0F == low && (low ^ high) & 0xF0 == high
  {
  }

  /** How the parser leaves one field of a quarter-frame pair: the first of the
      pair holds only the low nibble, the second only the high nibble. */
  predicate SplitNibbles(low: bv8, high: bv8) {
    low & 0xF0 == 0 && high & 0x0F == 0
  }

  /** With every pair split into nibbles, `construct_timecode` puts each field
      back together: the low nibble from the first slot of the pair, the high
      nibble from the second, neither disturbed by the other. */
  lemma ConstructMergesNibbles(b: Slots)
    requires IsFilled(b)
    requires SplitNibbles(b[0].value.frames, b[1].value.frames)
    requires SplitNibbles(b[2].value.seconds, b[3].value.seconds)
    requires SplitNibbles(b[4].value.minutes, b[5].value.minutes)
    requires SplitNibbles(b[6].value.hours, b[7].value.hours)
    ensures var v := Construct(b).value.value;
            && v.frames == b[0].value.frames | b[1].value.frames
            && v.frames & 0x0F == b[0].value.frames && v.frames & 0xF0 == b[1].value.frames
            && v.seconds == b[2].value.seconds | b[3].value.seconds
            && v.seconds & 0x0F == b[2].value.seconds && v.seconds & 0xF0 == b[3].value.seconds
            && v.minutes == b[4].value.minutes | b[5].value.minutes
            && v.minutes & 0x0F == b[4].value.minutes && v.minutes & 0xF0 == b[5].value.minutes
            && v.hours == b[6].value.hours | b[7].value.hours
            && v.hours & 0x0F == b[6].value.hours && v.hours & 0xF0 == b[7].value.hours
  {
    XorMergesNibbles(b[0].value.frames, b[1].value.frames);
    XorMergesNibbles(b[2].value.seconds, b[3].value.seconds);
    XorMergesNibbles(b[4].value.minutes, b[5].value.minutes);
    XorMergesNibbles(b[6].value.hours, b[7].value.hours);
  }

  /** Splitting a fragment into nibble pairs and constructing from them gives the
      fragment back. */
  lemma ConstructReassembles(b: Slots, v: Fragment)
    requires IsFilled(b)
    requires b[0].value.frames == v.frames & 0x0F && b[1].value.frames == v.frames & 0xF0
    requires b[2].value.seconds == v.seconds & 0x0F && b[3].value.seconds == v.seconds & 0xF0
    requires b[4].value.minutes == v.minutes & 0x0F && b[5].value.minutes == v.minutes & 0xF0
    requires b[6].value.hours == v.hours & 0x0F && b[7].value.hours == v.hours & 0xF0
    requires b[7].value.codeType == v.codeType
    ensures Construct(b) == Completion(Empty(), Some(v))
  {
    NibblesRejoin(v.frames);
    NibblesRejoin(v.seconds);
    NibblesRejoin(v.minutes);
    NibblesRejoin(v.hours);
  }

  lemma NibblesRejoin(x: bv8)
    ensures (x & 0x0F) ^ (x & 0xF0) == x
  {
  }

  // ---------------------------------------------------------------------------
  // Sequences of messages
  // ---------------------------------------------------------------------------

  /** Feeds messages to `add` in arrival order, without constructing. */
  function AddAll(b: Slots, ms: seq<MidiMsg>): Slots
    decreases |ms|
  {
    if |ms| == 0 then b else AddAll(Add(b, ms[0]), ms[1..])
  }

  /** The fragment of the first message in `ms` that targets slot `index`. */
  function FirstArrival(ms: seq<MidiMsg>, index: nat): (r: Option<Fragment>)
    ensures r.None? <==> forall k :: 0 <= k < |ms| ==> TargetOf(ms[k]).None? || TargetOf(ms[k]).value.index != index
  {
    if |ms| == 0 then None
    else if TargetOf(ms[0]).Some? && TargetOf(ms[0]).value.index == index then Some(TargetOf(ms[0]).value.tc)
    else FirstArrival(ms[1..], index)
  }

  /** After a run of `add`s every slot holds what it held before or, if it was
      empty, the first fragment that arrived for it. */
  lemma {:induction false} AddAllKeepsFirst(b: Slots, ms: seq<MidiMsg>, index: nat)
    requires index < SlotCount
    ensures AddAll(b, ms)[index] == if b[index].Some? then b[index] else FirstArrival(ms, index)
    decreases |ms|
  {
    if |ms| > 0 {
      AddAllKeepsFirst(Add(b, ms[0]), ms[1..], index);
    }
  }

  /** Order independence: from an empty buffer, two message sequences that agree
      on the first-arriving fragment of every kind fill the same buffer, and so
      complete to the same value. */
  lemma OrderIndependent(ms1: seq<MidiMsg>, ms2: seq<MidiMsg>)
    requires forall i :: 0 <= i < SlotCount ==> FirstArrival(ms1, i) == FirstArrival(ms2, i)
    ensures AddAll(Empty(), ms1) == AddAll(Empty(), ms2)
    ensures Construct(AddAll(Empty(), ms1)) == Construct(AddAll(Empty(), ms2))
  {
    var b1, b2 := AddAll(Empty(), ms1), AddAll(Empty(), ms2);
    forall i | 0 <= i < SlotCount
      ensures b1[i] == b2[i]
    {
      AddAllKeepsFirst(Empty(), ms1, i);
      AddAllKeepsFirst(Empty(), ms2, i);
    }
  }

  /** A repeated quarter-frame for a kind that has already arrived changes
      nothing, wherever it is inserted. */
  lemma {:induction false} DuplicateIgnored(pre: seq<MidiMsg>, dup: MidiMsg, post: seq<MidiMsg>)
    requires TargetOf(dup).Some? && FirstArrival(pre, TargetOf(dup).value.index).Some?
    ensures AddAll(Empty(), pre + [dup] + post) == AddAll(Empty(), pre + post)
  {
    var j := TargetOf(dup).value.index;
    forall i | 0 <= i < SlotCount
      ensures FirstArrival(pre + [dup] + post, i) == FirstArrival(pre + post, i)
    {
      FirstArrivalPrefix(pre, [dup] + post, i);
      FirstArrivalPrefix(pre, post, i);
      if FirstArrival(pre, i).None? {
        assert i != j;
        assert ([dup] + post)[1..] == post;
      }
      assert pre + [dup] + post == pre + ([dup] + post);
    }
    OrderIndependent(pre + [dup] + post, pre + post);
  }

  lemma {:induction false} FirstArrivalPrefix(pre: seq<MidiMsg>, post: seq<MidiMsg>, index: nat)
    ensures FirstArrival(pre + post, index) ==
              if FirstArrival(pre, index).Some? then FirstArrival(pre, index) else FirstArrival(post, index)
    decreases |pre|
  {
    if |pre| > 0 {
      assert (pre + post)[0] == pre[0];
      assert (pre + post)[1..] == pre[1..] + post;
      FirstArrivalPrefix(pre[1..], post, index);
    } else {
      assert pre + post == post;
    }
  }

  /** While some kind has never arrived, no timecode can be constructed. */
  lemma MissingKindNeverCompletes(ms: seq<MidiMsg>, index: nat)
    requires index < SlotCount && FirstArrival(ms, index).None?
    ensures !IsFilled(AddAll(Empty(), ms))
    ensures Construct(AddAll(Empty(), ms)) == Completion(AddAll(Empty(), ms), None)
  {
    AddAllKeepsFirst(Empty(), ms, index);
  }

  // ---------------------------------------------------------------------------
  // Quarter-frames in transmission order
  // ---------------------------------------------------------------------------

  /** Quarter-frames 1 to `n` in index order, carrying `f[0]` to `f[n-1]`. */
  function InOrder(f: seq<Fragment>, n: nat): (ms: seq<MidiMsg>)
    requires n <= |f| && n <= SlotCount
    ensures |ms| == n && forall j :: 0 <= j < n ==> TargetOf(ms[j]) == Some(Target(j, f[j]))
  {
    if n == 0 then [] else InOrder(f, n - 1) + [QuarterFrame(n - 1, f[n - 1])]
  }

  /** Quarter-frames 1 to 7 in order followed by quarter-frame 8 fill every slot
      with its own fragment. */
  lemma InOrderFills(f: seq<Fragment>)
    requires |f| == SlotCount
    ensures Add(AddAll(Empty(), InOrder(f, 7)), QuarterFrame(7, f[7])) == seq(SlotCount, i requires 0 <= i < SlotCount => Some(f[i]))
  {
    var first := InOrder(f, 7);
    var b8 := Add(AddAll(Empty(), first), QuarterFrame(7, f[7]));
    forall i | 0 <= i < SlotCount
      ensures b8[i] == Some(f[i])
    {
      AddAllKeepsFirst(Empty(), first, i);
      if i < 7 {
        FirstArrivalAt(first, i, i);
      }
    }
  }

  /** The first message with the wanted target decides `FirstArrival`. */
  lemma {:induction false} FirstArrivalAt(ms: seq<MidiMsg>, k: nat, index: nat)
    requires k < |ms| && TargetOf(ms[k]).Some? && TargetOf(ms[k]).value.index == index
    requires forall j :: 0 <= j < k ==> TargetOf(ms[j]).None? || TargetOf(ms[j]).value.index != index
    ensures FirstArrival(ms, index) == Some(TargetOf(ms[k]).value.tc)
    decreases k
  {
    if k > 0 {
      FirstArrivalAt(ms[1..], k - 1, index);
    }
  }
}
