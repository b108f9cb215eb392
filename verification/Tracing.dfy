/**
 Scheduling traces: the recorder on the target (libs/bsw/runtime/src/runtime/Tracer.cpp), which packs events into a
 buffer in RAM, and the parser of the dumped buffer on the host (tools/tracing/trace_convert.py).
 */
module Tracing {
  import opened Results
  import opened Bytes

  const TWO_32 := 0x1_0000_0000
  const RELATIVE_CYCLES_MAX := 0xF_FFFF

  // ----- The recorder -----

  /** An event as it happens: event number, argument, and the tick counter at that moment. */
  datatype Occurrence = Occurrence(event: nat, arg: byte, tick: u32)
  {
    /** The enumeration of events fits the three bits of the frame. */
    predicate Valid() {
      event < 8
    }
  }

  /** The ticks since the previous frame, on a counter that wraps around. */
  function Elapsed(previous: u32, tick: u32): (diff: u32) {
    if tick > previous then tick - previous else (0xFFFF_FFFF - previous + tick + 1) % TWO_32
  }

  /** Whether a normal frame is used; the first frame and any frame after tick 0 are extended. */
  predicate IsNormal(previous: u32, tick: u32) {
    previous != 0 && Elapsed(previous, tick) <= RELATIVE_CYCLES_MAX
  }

  /** (ctrl << 24) | (id << 16) | low. */
  function Word(ctrl: byte, arg: byte, low: u16): (word: u32) {
    ctrl * 0x100_0000 + arg * 0x1_0000 + low
  }

  /** The words of one frame. */
  function Frame(previous: u32, e: Occurrence): (words: seq<u32>)
    requires e.Valid()
    ensures 1 <= |words| <= 2
  {
    if IsNormal(previous, e.tick) then
      var diff := Elapsed(previous, e.tick);
      var high := if diff > 0xFFFF then diff / 0x1_0000 else 0;
      [Word(e.event * 0x10 + high, e.arg, diff % 0x1_0000)]
    else [Word(0x80 + e.event * 0x10, e.arg, 0), e.tick]
  }

  predicate AllValid(es: seq<Occurrence>) {
    forall i :: 0 <= i < |es| ==> es[i].Valid()
  }

  function LastTick(es: seq<Occurrence>): (tick: u32) {
    if es == [] then 0 else es[|es| - 1].tick
  }

  /** The frames of a sequence of events. */
  function Frames(es: seq<Occurrence>): (words: seq<u32>)
    requires AllValid(es)
  {
    if es == [] then []
    else Frames(es[..|es| - 1]) + Frame(LastTick(es[..|es| - 1]), es[|es| - 1])
  }

  function ZeroWords(n: nat): (words: seq<u32>)
    ensures |words| == n && forall i :: 0 <= i < n ==> words[i] == 0
  {
    seq(n, i requires 0 <= i < n => 0)
  }

  class Tracer {
    const ramTraces: array<u32>
    var running: bool
    var pos: nat
    var prevCycles: u32

    /** The buffer holds the frequency, the frames of the recorded events, and zeros. */
    ghost predicate Holds(frequency: u32, recorded: seq<Occurrence>)
      reads this, ramTraces
    {
      && AllValid(recorded) && pos == 1 + |Frames(recorded)| <= ramTraces.Length && prevCycles == LastTick(recorded)
      && ramTraces[..] == [frequency] + Frames(recorded) + ZeroWords(ramTraces.Length - pos)
    }

    constructor (ramTraces: array<u32>)
      ensures this.ramTraces == ramTraces && !running
    {
      this.ramTraces := ramTraces;
      running := false;
      pos := 0;
      prevCycles := 0;
    }

    method Init(frequency: u32)
      requires ramTraces.Length > 0
      modifies this, ramTraces
      ensures Holds(frequency, []) && !running
    {
      running := false;
      pos := 0;
      prevCycles := 0;
      for i := 0 to ramTraces.Length
        invariant !running && prevCycles == 0
        invariant forall j :: 0 <= j < i ==> ramTraces[j] == 0
      {
        ramTraces[i] := 0;
      }
      ramTraces[0] := frequency;
      pos := 1;
      assert ramTraces[..] == [frequency] + ZeroWords(ramTraces.Length - 1);
      assert [frequency] + Frames([]) == [frequency];
    }

    method Start()
      modifies this`running
      ensures running
    {
      running := true;
    }

    method Stop()
      modifies this`running
      ensures !running
    {
      running := false;
    }

    predicate BufferFull()
      reads this
    {
      pos >= ramTraces.Length - 1
    }

    /** traceEvent(): records the event, unless tracing is off or there is no room for an extended frame. */
    method TraceEvent(e: Occurrence, ghost frequency: u32, ghost recorded: seq<Occurrence>)
      requires Holds(frequency, recorded) && e.Valid()
      modifies this`pos, this`prevCycles, ramTraces
      ensures Holds(frequency, if running && old(pos) + 2 <= ramTraces.Length then recorded + [e] else recorded)
    {
      if !running || BufferFull() {
        return;
      }
      hide Frames, ZeroWords, Frame, LastTick, AllValid;
      FramesOfNext(recorded, e);
      StoreFrame(e, [frequency] + Frames(recorded));
      prevCycles := e.tick;
      assert [frequency] + (Frames(recorded) + Frame(old(prevCycles), e))
          == [frequency] + Frames(recorded) + Frame(old(prevCycles), e);
    }

    /** The two forms of a frame. */
    method StoreFrame(e: Occurrence, ghost before: seq<u32>)
      requires e.Valid() && |before| == pos && pos + 2 <= ramTraces.Length
      requires ramTraces[..] == before + ZeroWords(ramTraces.Length - pos)
      modifies this`pos, ramTraces
      ensures pos == old(pos) + |Frame(prevCycles, e)|
      ensures ramTraces[..] == before + Frame(prevCycles, e) + ZeroWords(ramTraces.Length - pos)
    {
      hide ZeroWords, Word, Frame;
      FrameCases(prevCycles, e);
      var diff := Elapsed(prevCycles, e.tick);
      if prevCycles != 0 && diff <= RELATIVE_CYCLES_MAX {
        var ctrl := e.event * 0x10;
        if diff > 0xFFFF {
          ctrl := ctrl + diff / 0x1_0000;
        }
        Store(Word(ctrl, e.arg, diff % 0x1_0000), before);
      } else {
        var ctrl := 0x80 + e.event * 0x10;
        Store(Word(ctrl, e.arg, 0), before);
        Store(e.tick, before + [Word(ctrl, e.arg, 0)]);
        assert before + [Word(ctrl, e.arg, 0)] + [e.tick] == before + Frame(prevCycles, e);
      }
    }

    /** _ramTraces[_pos++] = word, behind the words that are there already. */
    method Store(word: u32, ghost before: seq<u32>)
      requires |before| == pos < ramTraces.Length
      requires ramTraces[..] == before + ZeroWords(ramTraces.Length - pos)
      modifies this`pos, ramTraces
      ensures pos == old(pos) + 1
      ensures ramTraces[..] == before + [word] + ZeroWords(ramTraces.Length - pos)
    {
      ramTraces[pos] := word;
      pos := pos + 1;
      assert ramTraces[..] == old(ramTraces[..])[old(pos) := word];
    }
  }

  lemma {:induction false} FrameCases(previous: u32, e: Occurrence)
    requires e.Valid()
    ensures IsNormal(previous, e.tick) ==>
              var diff := Elapsed(previous, e.tick);
              var high := if diff > 0xFFFF then diff / 0x1_0000 else 0;
              Frame(previous, e) == [Word(e.event * 0x10 + high, e.arg, diff % 0x1_0000)]
    ensures !IsNormal(previous, e.tick) ==> Frame(previous, e) == [Word(0x80 + e.event * 0x10, e.arg, 0), e.tick]
  {
  }

  /** The fields of a frame: flag, event, upper bits of the distance, argument, lower bits; or a second word. */
  lemma {:induction false} FrameExactly(previous: u32, e: Occurrence)
    requires e.Valid()
    ensures var distance, words := (e.tick - previous) % 0x1_0000_0000, Frame(previous, e);
      if previous != 0 && distance < 0x10_0000 then
        |words| == 1
        && words[0] == e.event * 0x1000_0000 + distance / 0x1_0000 * 0x100_0000 + e.arg * 0x1_0000 + distance % 0x1_0000
      else |words| == 2 && words[0] == 0x8000_0000 + e.event * 0x1000_0000 + e.arg * 0x1_0000 && words[1] == e.tick
  {
  }

  lemma {:induction false} FramesOfNext(es: seq<Occurrence>, e: Occurrence)
    requires AllValid(es) && e.Valid()
    ensures AllValid(es + [e]) && LastTick(es + [e]) == e.tick
    ensures Frames(es + [e]) == Frames(es) + Frame(LastTick(es), e)
  {
    assert (es + [e])[..|es|] == es;
  }

  // ----- The parser -----

  /** An event as it is read back; the model keeps the cycle count instead of the time computed from it. */
  datatype Event = Event(cycles: nat, id: nat, arg: byte)

  function Le32(v: u32): (s: seq<byte>)
    ensures |s| == 4
  {
    [v % 0x100, v / 0x100 % 0x100, v / 0x1_0000 % 0x100, v / 0x100_0000]
  }

  function FromLe32(s: seq<byte>): (v: u32)
    requires |s| == 4
  {
    s[0] as int + s[1] as int * 0x100 + s[2] as int * 0x1_0000 + s[3] as int * 0x100_0000
  }

  /** The least significant byte comes first. */
  lemma {:induction false} LittleEndian(v: u32)
    ensures var s := Le32(v); v == Appended(Appended(Appended(s[3], s[2]), s[1]), s[0])
  {
    assert v / 0x100_0000 * 0x100 + v / 0x1_0000 % 0x100 == v / 0x1_0000;
    assert v / 0x1_0000 * 0x100 + v / 0x100 % 0x100 == v / 0x100;
  }

  lemma {:induction false} Le32RoundTrip(v: u32)
    ensures FromLe32(Le32(v)) == v
  {
    var q2 := v / 0x1_0000;
    assert v / 0x100 / 0x100 == q2;
    assert q2 / 0x100 == v / 0x100_0000;
  }

  datatype ParsedFrame = ParsedFrame(ext: nat, id: nat, arg: byte, relCycles: nat)

  /** _parse_normal_frame. */
  function ParseNormalFrame(value: u32): (f: ParsedFrame) {
    var ctrl := value / 0x100_0000;
    ParsedFrame(ctrl / 0x80, ctrl / 0x10 % 8, value / 0x1_0000 % 0x100, ctrl % 0x10 * 0x1_0000 + value % 0x1_0000)
  }

  /** The events from a file position on; `cycles` is not bound before the first absolute frame. */
  function ParseFrom(s: seq<byte>, cycles: Option<nat>): (r: Result<seq<Event>>)
    decreases |s|
  {
    if |s| < 4 then Ok([])
    else
      var f := ParseNormalFrame(FromLe32(s[..4]));
      if f.ext == 0 then
        if f.relCycles == 0 then Ok([])
        else if cycles.None? then Err(UnboundVariable)
        else
          var c := cycles.value + f.relCycles;
          var rest :- ParseFrom(s[4..], Some(c));
          Ok([Event(c, f.id, f.arg)] + rest)
      else if |s| < 8 then Ok([])
      else
        var c := FromLe32(s[4..8]);
        var rest :- ParseFrom(s[8..], Some(c));
        Ok([Event(c, f.id, f.arg)] + rest)
  }

  function Parsed(file: seq<byte>): (r: Result<seq<Event>>) {
    if |file| < 4 then Ok([]) else ParseFrom(file[4..], None)
  }

  function Prepend(events: seq<Event>, r: Result<seq<Event>>): (r': Result<seq<Event>>) {
    if r.Err? then r else Ok(events + r.value)
  }

  lemma {:induction false} PrependMore(events: seq<Event>, e: Event, r: Result<seq<Event>>)
    ensures Prepend([], r) == r && Prepend(events, Ok([])) == Ok(events)
    ensures Prepend(events, Prepend([e], r)) == Prepend(events + [e], r)
  {
    assert r.Ok? ==> [] + r.value == r.value && events + ([e] + r.value) == events + [e] + r.value;
    assert events + [] == events;
  }

  /** One round of the parser's loop, at an absolute or a relative frame. */
  lemma {:induction false} ParseStep(s: seq<byte>, cycles: Option<nat>, c: nat, n: nat)
    requires 4 <= n <= |s|
    requires var f := ParseNormalFrame(FromLe32(s[..4]));
      if f.ext == 0 then n == 4 && f.relCycles != 0 && cycles.Some? && c == cycles.value + f.relCycles
      else n == 8 && c == FromLe32(s[4..8])
    ensures var f := ParseNormalFrame(FromLe32(s[..4]));
      ParseFrom(s, cycles) == Prepend([Event(c, f.id, f.arg)], ParseFrom(s[n..], Some(c)))
  {
  }

  /** f.read(4). */
  method ReadFour(file: seq<byte>, pos: nat) returns (bytes: seq<byte>, next: nat)
    requires pos <= |file|
    ensures next == if |file| - pos < 4 then |file| else pos + 4
    ensures bytes == file[pos..next]
  {
    next := if |file| - pos < 4 then |file| else pos + 4;
    bytes := file[pos..next];
  }

  /** TraceParser.read(). */
  method Read(file: seq<byte>) returns (r: Result<seq<Event>>)
    ensures r == Parsed(file)
  {
    hide ParseNormalFrame, FromLe32, Prepend;
    var raw, pos := ReadFour(file, 0);
    var events: seq<Event> := [];
    var cycles: Option<nat> := None;
    PrependMore([], Event(0, 0, 0), ParseFrom(file[pos..], cycles));
    while true
      invariant pos <= |file|
      invariant Parsed(file) == Prepend(events, ParseFrom(file[pos..], cycles))
      decreases |file| - pos
    {
      ghost var start, unread := cycles, file[pos..];
      PrependMore(events, Event(0, 0, 0), Ok([]));
      raw, pos := ReadFour(file, pos);
      if |raw| != 4 {
        break;
      }
      assert unread[..4] == raw && unread[4..] == file[pos..];
      var f := ParseNormalFrame(FromLe32(raw));
      if f.ext == 0 {
        if f.relCycles == 0 {
          break;
        }
        if cycles.None? {
          PrependError(events, UnboundVariable);
          return Err(UnboundVariable);
        }
        cycles := Some(cycles.value + f.relCycles);
      } else {
        raw, pos := ReadFour(file, pos);
        if |raw| != 4 {
          break;
        }
        assert unread[4..8] == raw && unread[8..] == file[pos..];
        cycles := Some(FromLe32(raw));
      }
      ParseStep(unread, start, cycles.value, |unread| - (|file| - pos));
      PrependMore(events, Event(cycles.value, f.id, f.arg), ParseFrom(file[pos..], cycles));
      events := events + [Event(cycles.value, f.id, f.arg)];
    }
    r := Ok(events);
  }

  lemma {:induction false} PrependError(events: seq<Event>, e: Error)
    ensures Prepend(events, Err(e)) == Err(e)
  {
  }

  // ----- Parsing what was recorded -----

  function LeBytes(words: seq<u32>): (s: seq<byte>)
    ensures |s| == 4 * |words|
  {
    if words == [] then [] else Le32(words[0]) + LeBytes(words[1..])
  }

  /** The dump of a buffer with these recorded events. */
  function Dump(frequency: u32, es: seq<Occurrence>, free: nat): (file: seq<byte>)
    requires AllValid(es)
  {
    LeBytes([frequency] + Frames(es) + ZeroWords(free))
  }

  /** The frames of events that follow a frame at tick `previous`. */
  function FramesAfter(previous: u32, es: seq<Occurrence>): (words: seq<u32>)
    requires AllValid(es)
    decreases |es|
  {
    if es == [] then [] else Frame(previous, es[0]) + FramesAfter(es[0].tick, es[1..])
  }

  function TickAfter(previous: u32, es: seq<Occurrence>): (tick: u32) {
    if es == [] then previous else es[|es| - 1].tick
  }

  lemma {:induction false} FramesAfterAppend(previous: u32, es: seq<Occurrence>, e: Occurrence)
    requires AllValid(es) && e.Valid()
    decreases |es|
    ensures AllValid(es + [e])
    ensures FramesAfter(previous, es + [e]) == FramesAfter(previous, es) + Frame(TickAfter(previous, es), e)
  {
    hide Frame;
    if es == [] {
      assert es + [e] == [e];
      assert FramesAfter(previous, [e]) == Frame(previous, e) + FramesAfter(e.tick, [e][1..]);
    } else {
      assert (es + [e])[1..] == es[1..] + [e];
      FramesAfterAppend(es[0].tick, es[1..], e);
    }
  }

  lemma {:induction false} FramesAreFramesAfter(es: seq<Occurrence>)
    requires AllValid(es)
    ensures Frames(es) == FramesAfter(0, es)
  {
    hide Frame;
    if es != [] {
      var n := |es| - 1;
      FramesAreFramesAfter(es[..n]);
      FramesAfterAppend(0, es[..n], es[n]);
      assert es == es[..n] + [es[n]];
    }
  }

  /** What the parser makes of the recorded events: it takes a frame without elapsed ticks for the end. */
  function Decoded(previous: u32, cycles: nat, es: seq<Occurrence>): (events: seq<Event>)
    requires AllValid(es)
    decreases |es|
  {
    if es == [] then []
    else
      var e := es[0];
      if !IsNormal(previous, e.tick) then [Event(e.tick, e.event, e.arg)] + Decoded(e.tick, e.tick, es[1..])
      else if Elapsed(previous, e.tick) == 0 then []
      else
        var c := cycles + Elapsed(previous, e.tick);
        [Event(c, e.event, e.arg)] + Decoded(e.tick, c, es[1..])
  }

  lemma {:induction false} ParseOfWord(ctrl: byte, arg: byte, low: u16)
    ensures ParseNormalFrame(Word(ctrl, arg, low))
        == ParsedFrame(ctrl / 0x80, ctrl / 0x10 % 8, arg, ctrl % 0x10 * 0x1_0000 + low)
  {
    WordFields(ctrl, arg, low);
    hide Word;
  }

  lemma {:induction false} WordFields(ctrl: byte, arg: byte, low: u16)
    ensures var w := Word(ctrl, arg, low);
      w / 0x100_0000 == ctrl && w / 0x1_0000 % 0x100 == arg && w % 0x1_0000 == low
  {
    var w := Word(ctrl, arg, low);
    var high := ctrl * 0x100 + arg;
    assert w == high * 0x1_0000 + low;
    Fields(high, low, 0x1_0000);
    Fields(ctrl, arg, 0x100);
    Fields(ctrl, arg * 0x1_0000 + low, 0x100_0000);
  }

  lemma {:induction false} Fields(high: nat, low: nat, base: nat)
    requires low < base && base in {0x100, 0x1_0000, 0x100_0000}
    ensures (high * base + low) / base == high && (high * base + low) % base == low
  {
  }

  /** The first word of a frame, parsed. */
  lemma {:induction false} ParseOfFrame(previous: u32, e: Occurrence)
    requires e.Valid()
    ensures ParseNormalFrame(Frame(previous, e)[0])
         == if IsNormal(previous, e.tick) then ParsedFrame(0, e.event, e.arg, Elapsed(previous, e.tick))
            else ParsedFrame(1, e.event, e.arg, 0)
  {
    hide Frame, Word, ParseNormalFrame, Elapsed;
    FrameCases(previous, e);
    if IsNormal(previous, e.tick) {
      var diff := Elapsed(previous, e.tick);
      var high := if diff > 0xFFFF then diff / 0x1_0000 else 0;
      ParseOfWord(e.event * 0x10 + high, e.arg, diff % 0x1_0000);
    } else {
      ParseOfWord(0x80 + e.event * 0x10, e.arg, 0);
    }
  }

  lemma {:induction false} ZerosInFront(n: nat)
    ensures n == 0 ==> LeBytes(ZeroWords(n)) == []
    ensures n > 0 ==> |LeBytes(ZeroWords(n))| >= 4 && LeBytes(ZeroWords(n))[..4] == [0, 0, 0, 0]
  {
    if n > 0 {
      var words := ZeroWords(n);
      assert LeBytes(words) == Le32(words[0]) + LeBytes(words[1..]);
    }
  }

  /** Four zeros are a relative frame without elapsed ticks, at which the parser stops. */
  lemma {:induction false} ParseOfZero(s: seq<byte>, cycles: Option<nat>)
    requires |s| >= 4 ==> s[..4] == [0, 0, 0, 0]
    ensures ParseFrom(s, cycles) == Ok([])
  {
    assert FromLe32([0, 0, 0, 0]) == 0;
    assert ParseNormalFrame(0) == ParsedFrame(0, 0, 0, 0);
  }

  lemma {:induction false} ParseOfZeros(n: nat, cycles: Option<nat>)
    ensures ParseFrom(LeBytes(ZeroWords(n)), cycles) == Ok([])
  {
    hide *;
    ZerosInFront(n);
    ParseOfZero(LeBytes(ZeroWords(n)), cycles);
  }

  lemma {:induction false} LeBytesFirst(words: seq<u32>)
    requires words != []
    ensures FromLe32(LeBytes(words)[..4]) == words[0] && LeBytes(words)[4..] == LeBytes(words[1..])
    ensures |words| > 1 ==> FromLe32(LeBytes(words)[4..8]) == words[1] && LeBytes(words)[8..] == LeBytes(words[2..])
  {
    var s := LeBytes(words);
    Le32RoundTrip(words[0]);
    assert s[..4] == Le32(words[0]);
    if |words| > 1 {
      Le32RoundTrip(words[1]);
      assert words[1..][0] == words[1] && words[1..][1..] == words[2..];
      assert s[4..] == LeBytes(words[1..]) == Le32(words[1]) + LeBytes(words[2..]);
      assert s[4..8] == s[4..][..4] == Le32(words[1]);
      assert s[8..] == s[4..][4..];
    }
  }

  lemma {:induction false} ParseDecodes(previous: u32, cycles: Option<nat>, es: seq<Occurrence>, free: nat)
    requires AllValid(es) && (previous != 0 ==> cycles.Some?)
    ensures ParseFrom(LeBytes(FramesAfter(previous, es) + ZeroWords(free)), cycles)
         == Ok(Decoded(previous, if cycles.Some? then cycles.value else 0, es))
    decreases |es|
  {
    hide ZeroWords, Word, Elapsed, LeBytes, ParseNormalFrame, FromLe32;
    if es == [] {
      assert FramesAfter(previous, es) + ZeroWords(free) == ZeroWords(free);
      ParseOfZeros(free, cycles);
    } else {
      var e, rest := es[0], FramesAfter(es[0].tick, es[1..]) + ZeroWords(free);
      var words := FramesAfter(previous, es) + ZeroWords(free);
      assert words == Frame(previous, e) + rest;
      LeBytesFirst(words);
      ParseOfFrame(previous, e);
      if IsNormal(previous, e.tick) {
        assert words[1..] == rest;
        ParseDecodes(e.tick, Some(cycles.value + Elapsed(previous, e.tick)), es[1..], free);
      } else {
        assert words[1] == e.tick && words[2..] == rest;
        ParseDecodes(e.tick, Some(e.tick), es[1..], free);
      }
    }
  }

  /** Parsing the dump of the recorder's buffer. */
  lemma {:induction false} DumpIsDecoded(frequency: u32, es: seq<Occurrence>, free: nat)
    requires AllValid(es)
    ensures Parsed(Dump(frequency, es, free)) == Ok(Decoded(0, 0, es))
  {
    var words := [frequency] + Frames(es) + ZeroWords(free);
    LeBytesFirst(words);
    FramesAreFramesAfter(es);
    assert words[1..] == FramesAfter(0, es) + ZeroWords(free);
    ParseDecodes(0, None, es, free);
  }

  // ----- Parsing any choice of frames -----

  /** An event with its absolute time, or with its distance from the event in front of it. */
  datatype Timed = Absolute(event: nat, arg: byte, tick: u32) | Relative(event: nat, arg: byte, delta: nat)
  {
    /** Distance 0 is the mark for the end. */
    predicate Valid() {
      event < 8 && (Relative? ==> 0 < delta <= RELATIVE_CYCLES_MAX)
    }

    /** The words of its frame. */
    function Words(): (words: seq<u32>)
      requires Valid()
    {
      match this
      case Absolute(event, arg, tick) => [Word(0x80 + event * 0x10, arg, 0), tick]
      case Relative(event, arg, delta) => [Word(event * 0x10 + delta / 0x1_0000, arg, delta % 0x1_0000)]
    }

    /** The cycle count at this event. */
    function Cycles(before: nat): (cycles: nat) {
      match this
      case Absolute(_, _, tick) => tick
      case Relative(_, _, delta) => before + delta
    }
  }

  predicate AllTimed(ts: seq<Timed>) {
    forall i :: 0 <= i < |ts| ==> ts[i].Valid()
  }

  function AllWords(ts: seq<Timed>): (words: seq<u32>)
    requires AllTimed(ts)
  {
    if ts == [] then [] else ts[0].Words() + AllWords(ts[1..])
  }

  /** The events with their cycle counts; the distances of relative ones are summed up. */
  function EventsOf(before: nat, ts: seq<Timed>): (events: seq<Event>)
    decreases |ts|
  {
    if ts == [] then []
    else
      var c := ts[0].Cycles(before);
      [Event(c, ts[0].event, ts[0].arg)] + EventsOf(c, ts[1..])
  }

  lemma {:induction false} ParseOfTimed(e: Timed)
    requires e.Valid()
    ensures ParseNormalFrame(e.Words()[0])
         == ParsedFrame(if e.Absolute? then 1 else 0, e.event, e.arg, if e.Absolute? then 0 else e.delta)
  {
    hide Word, ParseNormalFrame;
    match e
    case Absolute(event, arg, tick) => ParseOfWord(0x80 + event * 0x10, arg, 0);
    case Relative(event, arg, delta) => ParseOfWord(event * 0x10 + delta / 0x1_0000, arg, delta % 0x1_0000);
  }

  lemma {:induction false} AllTimedParse(cycles: Option<nat>, ts: seq<Timed>, free: nat)
    requires AllTimed(ts) && (cycles.None? && ts != [] ==> ts[0].Absolute?)
    ensures ParseFrom(LeBytes(AllWords(ts) + ZeroWords(free)), cycles)
         == Ok(EventsOf(if cycles.Some? then cycles.value else 0, ts))
    decreases |ts|
  {
    hide ZeroWords, Word, LeBytes, ParseNormalFrame, FromLe32;
    if ts == [] {
      assert AllWords(ts) + ZeroWords(free) == ZeroWords(free);
      ParseOfZeros(free, cycles);
    } else {
      var e, rest := ts[0], AllWords(ts[1..]) + ZeroWords(free);
      var words, n := AllWords(ts) + ZeroWords(free), |e.Words()|;
      var c := e.Cycles(if cycles.Some? then cycles.value else 0);
      assert words == e.Words() + rest && words[n..] == rest;
      LeBytesFirst(words);
      ParseOfTimed(e);
      ParseStep(LeBytes(words), cycles, c, 4 * n);
      AllTimedParse(Some(c), ts[1..], free);
    }
  }

  /**
   Round trip for any choice of frames, not only the recorder's: if the first one is absolute, the parser recovers
   every event with its exact cycle count.
   */
  lemma {:induction false} AnyFramesRoundTrip(frequency: u32, ts: seq<Timed>, free: nat)
    requires AllTimed(ts) && (ts != [] ==> ts[0].Absolute?)
    ensures Parsed(LeBytes([frequency] + AllWords(ts) + ZeroWords(free))) == Ok(EventsOf(0, ts))
  {
    hide AllWords, LeBytes, ZeroWords;
    var words := [frequency] + AllWords(ts) + ZeroWords(free);
    LeBytesFirst(words);
    assert words[1..] == AllWords(ts) + ZeroWords(free);
    assert |LeBytes(words)| >= 4;
    AllTimedParse(None, ts, free);
  }

  // ----- Which events are recovered -----

  lemma {:induction false} ElapsedZero(previous: u32, tick: u32)
    ensures Elapsed(previous, tick) == 0 <==> tick == previous
    ensures (previous + Elapsed(previous, tick)) % TWO_32 == tick
  {
  }

  /** No event but the first has the tick of its predecessor, unless it is tick 0. */
  ghost predicate NoRepeatAfter(previous: u32, es: seq<Occurrence>)
    decreases |es|
  {
    es != [] ==> !(es[0].tick == previous != 0) && NoRepeatAfter(es[0].tick, es[1..])
  }

  lemma {:induction false} DecodedLength(previous: u32, cycles: nat, es: seq<Occurrence>)
    requires AllValid(es)
    ensures |Decoded(previous, cycles, es)| <= |es|
    ensures |Decoded(previous, cycles, es)| == |es| <==> NoRepeatAfter(previous, es)
    decreases |es|
  {
    hide Elapsed;
    if es != [] {
      var e := es[0];
      ElapsedZero(previous, e.tick);
      DecodedLength(e.tick, if IsNormal(previous, e.tick) then cycles + Elapsed(previous, e.tick) else e.tick, es[1..]);
    }
  }

  /** What is decoded is right: same event, same argument, and the tick counter up to its wrap-around. */
  lemma {:induction false} DecodedFaithful(previous: u32, cycles: nat, es: seq<Occurrence>, i: nat)
    requires AllValid(es) && i < |Decoded(previous, cycles, es)| && (previous != 0 ==> cycles % TWO_32 == previous)
    ensures i < |es|
    ensures var d := Decoded(previous, cycles, es)[i];
      d.id == es[i].event && d.arg == es[i].arg && d.cycles % TWO_32 == es[i].tick
    decreases |es|
  {
    hide Elapsed;
    var e := es[0];
    ElapsedZero(previous, e.tick);
    var c := if IsNormal(previous, e.tick) then cycles + Elapsed(previous, e.tick) else e.tick;
    assert c % TWO_32 == e.tick by {
      if IsNormal(previous, e.tick) {
        SumModulo(cycles, previous, Elapsed(previous, e.tick));
      }
    }
    if i > 0 {
      DecodedFaithful(e.tick, c, es[1..], i - 1);
    }
  }

  lemma {:induction false} SumModulo(cycles: nat, previous: u32, diff: nat)
    requires cycles % TWO_32 == previous
    ensures (cycles + diff) % TWO_32 == (previous + diff) % TWO_32
  {
    var q := cycles / TWO_32;
    assert cycles + diff == q * TWO_32 + (previous + diff);
  }

  /**
   Round trip: the parser recovers all recorded events from a dump of the buffer, if and only if no two events in
   a row were recorded at the same tick other than 0; what it returns is right in any case, and a prefix.
   */
  lemma {:induction false} TraceRoundTrip(frequency: u32, es: seq<Occurrence>, free: nat)
    requires AllValid(es)
    ensures var r := Parsed(Dump(frequency, es, free));
      && r.Ok? && |r.value| <= |es|
      && (|r.value| == |es| <==> NoRepeatAfter(0, es))
      && forall i :: 0 <= i < |r.value| ==>
           r.value[i].id == es[i].event && r.value[i].arg == es[i].arg && r.value[i].cycles % TWO_32 == es[i].tick
  {
    hide Decoded, Dump;
    DumpIsDecoded(frequency, es, free);
    DecodedLength(0, 0, es);
    var events := Decoded(0, 0, es);
    forall i | 0 <= i < |events|
      ensures events[i].id == es[i].event && events[i].arg == es[i].arg && events[i].cycles % TWO_32 == es[i].tick
    {
      DecodedFaithful(0, 0, es, i);
    }
  }

  /** Two events at one tick: the second one, and all that follow, are lost to the parser. */
  lemma {:induction false} SameTickEndsTrace(frequency: u32, a: Occurrence, b: Occurrence, more: seq<Occurrence>,
      free: nat)
    requires AllValid([a, b] + more) && a.tick == b.tick != 0
    ensures Parsed(Dump(frequency, [a, b] + more, free)) == Ok([Event(a.tick, a.event, a.arg)])
  {
    var es := [a, b] + more;
    DumpIsDecoded(frequency, es, free);
    ElapsedZero(a.tick, b.tick);
    assert es[1..][0] == b;
    assert Decoded(a.tick, a.tick, es[1..]) == [];
    assert Decoded(0, 0, es) == [Event(a.tick, a.event, a.arg)];
  }

  /** A file that is cut off after the frequency gives a prefix of the events, whatever the file holds. */
  lemma {:induction false} CutGivesPrefix(s: seq<byte>, n: nat, cycles: Option<nat>)
    requires n <= |s| && ParseFrom(s, cycles).Ok?
    ensures ParseFrom(s[..n], cycles).Ok? && ParseFrom(s[..n], cycles).value <= ParseFrom(s, cycles).value
    decreases |s|
  {
    hide ParseNormalFrame, FromLe32;
    if n >= 4 {
      assert s[..n][..4] == s[..4];
      var f := ParseNormalFrame(FromLe32(s[..4]));
      if f.ext == 0 {
        if f.relCycles != 0 {
          assert s[..n][4..] == s[4..][..n - 4];
          CutGivesPrefix(s[4..], n - 4, Some(cycles.value + f.relCycles));
        }
      } else if n >= 8 {
        assert s[..n][4..8] == s[4..8] && s[..n][8..] == s[8..][..n - 8];
        CutGivesPrefix(s[8..], n - 8, Some(FromLe32(s[4..8])));
      }
    }
  }

  lemma {:induction false} BoundNeverFails(s: seq<byte>, cycles: nat)
    ensures ParseFrom(s, Some(cycles)).Ok?
    decreases |s|
  {
    hide ParseNormalFrame, FromLe32;
    if |s| >= 4 {
      var f := ParseNormalFrame(FromLe32(s[..4]));
      if f.ext == 0 {
        BoundNeverFails(s[4..], cycles + f.relCycles);
      } else if |s| >= 8 {
        BoundNeverFails(s[8..], FromLe32(s[4..8]));
      }
    }
  }

  /** The parser fails on a file if and only if its first frame is a relative one; the recorder never writes that. */
  lemma {:induction false} ParserFailsExactly(file: seq<byte>)
    ensures Parsed(file).Err? <==>
            && |file| >= 8
            && ParseNormalFrame(FromLe32(file[4..8])).ext == 0
            && ParseNormalFrame(FromLe32(file[4..8])).relCycles != 0
  {
    hide ParseNormalFrame, FromLe32;
    if |file| >= 12 {
      BoundNeverFails(file[4..][8..], FromLe32(file[4..][4..8]));
    }
    if |file| >= 8 {
      assert file[4..][..4] == file[4..8];
    }
  }
}
