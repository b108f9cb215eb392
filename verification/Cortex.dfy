/**
 Two groups of functions of the CMSIS core headers: interrupt priorities (libs/3rdparty/cmsis/core_cm4.h) and
 maintenance of the data cache (libs/3rdparty/cmsis/m-profile/armv7m_cachel1.h).
 */
module Cortex {
  import opened Bytes

  const TWO_32 := 0x1_0000_0000

  // ----- Arithmetic of bit fields -----

  lemma {:induction false} TwiceProduct(x: nat, y: nat)
    ensures 2 * (x * y) == (2 * x) * y
  {
  }

  lemma {:induction false} PowerSum(a: nat, b: nat)
    ensures Power2(a + b) == Power2(a) * Power2(b)
  {
    if a > 0 {
      PowerSum(a - 1, b);
      PowerStep(a);
      PowerStep(a + b);
      hide Power2;
      TwiceProduct(Power2(a - 1), Power2(b));
    }
  }

  lemma {:induction false} PowerStep(n: nat)
    requires n > 0
    ensures Power2(n) == 2 * Power2(n - 1)
  {
  }

  /** Two fields, the upper one above a lower one of width s, stay within their joint width. */
  lemma {:induction false} FieldsFit(high: nat, low: nat, p: nat, s: nat)
    requires high < Power2(p) && low < Power2(s)
    ensures high * Power2(s) + low < Power2(p + s)
  {
    PowerSum(p, s);
    hide Power2;
    MulMonotone(high + 1, Power2(p), Power2(s));
  }

  lemma {:induction false} FieldsOrder(h: nat, l: nat, h': nat, l': nat, s: nat)
    requires l < s && l' < s
    ensures h * s + l < h' * s + l' <==> h < h' || (h == h' && l < l')
  {
    MulMonotone(h + 1, h', s);
    MulMonotone(h' + 1, h, s);
  }

  // ----- Interrupt priorities -----

  /** The width of the preemption field, of `bits` implemented priority bits. */
  function PreemptBits(bits: nat, group: u32): (n: nat) {
    var g := group % 8;
    if 7 - g > bits then bits else 7 - g
  }

  /** The width of the subpriority field; the subtraction in it wraps around and the addition wraps back. */
  function SubBits(bits: nat, group: u32): (n: nat) {
    var g := group % 8;
    if g + bits < 7 then 0 else ((g - 7) % TWO_32 + bits) % TWO_32
  }

  lemma {:induction false} WidthsSumUp(bits: nat, group: u32)
    requires 1 <= bits <= 8
    ensures PreemptBits(bits, group) + SubBits(bits, group) == bits
  {
  }

  /** The split lies above bit `group` of a byte whose upper `bits` bits are implemented, if that is among them. */
  lemma {:induction false} SplitExactly(bits: nat, group: nat)
    requires 1 <= bits <= 8 && group < 8
    ensures PreemptBits(bits, group) == if 8 - bits <= group then 7 - group else bits
    ensures SubBits(bits, group) == if 8 - bits <= group then bits - (7 - group) else 0
  {
  }

  /** NVIC_EncodePriority(); the fields do not overlap, so joining them is a sum. */
  function EncodePriority(bits: nat, group: u32, preempt: u32, sub: u32): (priority: nat) {
    preempt % Power2(PreemptBits(bits, group)) * Power2(SubBits(bits, group)) + sub % Power2(SubBits(bits, group))
  }

  /** NVIC_DecodePriority(). */
  function DecodePriority(bits: nat, group: u32, priority: int): (r: (int, int)) {
    (priority / Power2(SubBits(bits, group)) % Power2(PreemptBits(bits, group)),
     priority % Power2(SubBits(bits, group)))
  }

  /** Decoding gives the two priorities back, reduced to the widths of their fields. */
  lemma {:induction false} DecodeOfEncode(bits: nat, group: u32, preempt: u32, sub: u32)
    requires 1 <= bits <= 8
    ensures EncodePriority(bits, group, preempt, sub) < Power2(bits)
    ensures DecodePriority(bits, group, EncodePriority(bits, group, preempt, sub))
         == (preempt % Power2(PreemptBits(bits, group)), sub % Power2(SubBits(bits, group)))
  {
    WidthsSumUp(bits, group);
    var p, s := PreemptBits(bits, group), SubBits(bits, group);
    var high, low := preempt % Power2(p), sub % Power2(s);
    FieldsFit(high, low, p, s);
    DivMod(high, low, Power2(s));
    DivMod(0, high, Power2(p));
  }

  /** Encoded priorities compare as the reduced pairs do: by preemption, then by subpriority. */
  lemma {:induction false} EncodeKeepsOrder(bits: nat, group: u32, a: u32, b: u32, c: u32, d: u32)
    ensures var p, s := Power2(PreemptBits(bits, group)), Power2(SubBits(bits, group));
      EncodePriority(bits, group, a, b) < EncodePriority(bits, group, c, d)
      <==> a % p < c % p || (a % p == c % p && b % s < d % s)
  {
    hide Power2;
    var p, s := Power2(PreemptBits(bits, group)), Power2(SubBits(bits, group));
    FieldsOrder(a % p, b % s, c % p, d % s, s);
  }

  function ShiftRight(x: int, n: nat): (y: int) {
    x / Power2(n)
  }

  /** The priority registers: one byte for each device interrupt, and one for each system exception from -12 on. */
  class Nvic {
    const bits: nat
    const ipr: array<byte>
    const shpr: array<byte>

    ghost predicate Valid() {
      1 <= bits <= 8 && shpr.Length == 12 && ipr != shpr
    }

    /** The interrupt numbers that have a priority register. */
    predicate Settable(irq: int) {
      -12 <= irq < ipr.Length
    }

    function Register(irq: int): (r: byte)
      requires Valid() && Settable(irq)
      reads ipr, shpr
    {
      if irq >= 0 then ipr[irq] else shpr[irq % 0x10 - 4]
    }

    constructor (bits: nat, ipr: array<byte>, shpr: array<byte>)
      requires 1 <= bits <= 8 && shpr.Length == 12 && ipr != shpr
      ensures Valid() && this.bits == bits && this.ipr == ipr && this.shpr == shpr
    {
      this.bits := bits;
      this.ipr := ipr;
      this.shpr := shpr;
    }

    /** __NVIC_SetPriority(): the register of this interrupt, and no other. */
    method SetPriority(irq: int, priority: u32)
      requires Valid() && Settable(irq)
      modifies ipr, shpr
      ensures Register(irq) == priority * Power2(8 - bits) % 0x100
      ensures forall other :: Settable(other) && other != irq ==> Register(other) == old(Register(other))
    {
      var value: byte := priority * Power2(8 - bits) % 0x100;
      if irq >= 0 {
        ipr[irq] := value;
      } else {
        shpr[irq % 0x10 - 4] := value;
      }
    }

    /** __NVIC_GetPriority(). */
    method GetPriority(irq: int) returns (priority: int)
      requires Valid() && Settable(irq)
      ensures priority == ShiftRight(Register(irq), 8 - bits)
    {
      hide ShiftRight;
      if irq >= 0 {
        return ShiftRight(ipr[irq], 8 - bits);
      } else {
        return ShiftRight(shpr[irq % 0x10 - 4], 8 - bits);
      }
    }
  }

  /** The system exceptions -12 to -1 have the registers 0 to 11, in this order. */
  lemma {:induction false} RegisterExactly(nvic: Nvic, irq: int)
    requires nvic.Valid() && -12 <= irq < nvic.ipr.Length
    ensures nvic.Settable(irq) && (irq < 0 ==> irq + 12 < nvic.shpr.Length)
    ensures nvic.Register(irq) == if irq >= 0 then nvic.ipr[irq] else nvic.shpr[irq + 12]
  {
  }

  /** A priority of the implemented width is read back as it was set. */
  lemma {:induction false} GetAfterSet(bits: nat, priority: int)
    requires 1 <= bits <= 8 && 0 <= priority < Power2(bits)
    ensures priority * Power2(8 - bits) < 0x100
    ensures ShiftRight(priority * Power2(8 - bits) % 0x100, 8 - bits) == priority
  {
    PowerSum(bits, 8 - bits);
    BytesHaveEightBits();
    var d := Power2(8 - bits);
    MulMonotone(priority + 1, Power2(bits), d);
    DivMod(priority, 0, d);
  }

  /** Encode, set, get, decode: the pair that was meant, reduced to its field widths. */
  method SetAndGet(nvic: Nvic, irq: int, group: u32, preempt: u32, sub: u32) returns (r: (int, int))
    requires nvic.Valid() && nvic.Settable(irq)
    modifies nvic.ipr, nvic.shpr
    ensures r == (preempt % Power2(PreemptBits(nvic.bits, group)), sub % Power2(SubBits(nvic.bits, group)))
  {
    DecodeOfEncode(nvic.bits, group, preempt, sub);
    var encoded := EncodePriority(nvic.bits, group, preempt, sub);
    GetAfterSet(nvic.bits, encoded);
    EightBitsAreBelow(nvic.bits);
    nvic.SetPriority(irq, encoded);
    var priority := nvic.GetPriority(irq);
    r := DecodePriority(nvic.bits, group, priority);
  }

  lemma {:induction false} EightBitsAreBelow(bits: nat)
    requires bits <= 8
    ensures Power2(bits) <= 0x100
  {
    PowerSum(bits, 8 - bits);
    BytesHaveEightBits();
    assert Power2(bits) * Power2(8 - bits) >= Power2(bits);
  }

  // ----- Maintenance by address -----

  const LINE_SIZE := 32
  const MAX_INT32 := 0x7FFF_FFFF

  /** A set of the cache, by its index, and a way. */
  datatype SetWay = SetWay(index: nat, way: nat)

  /** What is written to the cache maintenance registers, in order. */
  class CacheRegisters {
    var byAddress: seq<u32>
    var bySetWay: seq<nat>

    constructor ()
      ensures byAddress == [] && bySetWay == []
    {
      byAddress := [];
      bySetWay := [];
    }
  }

  /** The value of a uint32_t as an int32_t. */
  function AsSigned(x: int): (y: int) {
    var u := x % TWO_32;
    if u > MAX_INT32 then u - TWO_32 else u
  }

  lemma {:induction false} AsSignedExactly(x: int)
    ensures -0x8000_0000 <= AsSigned(x) < 0x8000_0000 && (AsSigned(x) - x) % 0x1_0000_0000 == 0
  {
  }

  /** The addresses written by n rounds. */
  function Addresses(addr: u32, n: nat): (ws: seq<u32>)
    ensures |ws| == n && forall i :: 0 <= i < n ==> ws[i] == (addr + LINE_SIZE * i) % TWO_32
  {
    seq(n, i requires 0 <= i < n => (addr + LINE_SIZE * i) % TWO_32)
  }

  /** How many lines a block touches if its size, counted from the start of its first line, is `total`. */
  function Rounds(total: nat): (n: nat) {
    (total + LINE_SIZE - 1) / LINE_SIZE
  }

  lemma {:induction false} OneMoreRound(addr: u32, total: nat, n: nat)
    requires LINE_SIZE * n < total < MAX_INT32 + LINE_SIZE
    ensures Addresses(addr, n + 1) == Addresses(addr, n) + [(addr + LINE_SIZE * n) % TWO_32]
    ensures var next := AsSigned(AsSigned(total - LINE_SIZE * n) - LINE_SIZE);
      next == AsSigned(total - LINE_SIZE * (n + 1)) && (next <= 0 <==> LINE_SIZE * (n + 1) >= total)
    ensures ((addr + LINE_SIZE * n) % TWO_32 + LINE_SIZE) % TWO_32 == (addr + LINE_SIZE * (n + 1)) % TWO_32
  {
  }

  lemma {:induction false} RoundsCounted(total: nat, n: nat)
    requires LINE_SIZE * n < total <= LINE_SIZE * (n + 1)
    ensures Rounds(total) == n + 1
  {
  }

  /**
   The by-address loops (invalidate, clean, both): a do-while over a signed size. Sum and difference are computed
   unsigned and converted back, so that the size may be negative in the first round, and is right from the second on.
   */
  method MaintainByAddress(registers: CacheRegisters, addr: u32, dsize: int)
    requires -MAX_INT32 - 1 <= dsize <= MAX_INT32
    modifies registers`byAddress
    ensures registers.byAddress
         == old(registers.byAddress) + if dsize <= 0 then [] else Addresses(addr, Rounds(dsize + addr % LINE_SIZE))
    ensures 0 < dsize <= TWO_32 - addr ==>
              Covers(LinesOf(registers.byAddress[|old(registers.byAddress)|..]), addr, dsize)
  {
    if dsize > 0 {
      hide AsSigned, Addresses, LinesOf, Covers, Rounds;
      ghost var total, n := dsize + addr % LINE_SIZE, 0;
      assert registers.byAddress + Addresses(addr, 0) == registers.byAddress;
      var opSize := AsSigned(dsize + addr % LINE_SIZE);
      var opAddr := addr;
      while true
        invariant opSize == AsSigned(total - LINE_SIZE * n) && LINE_SIZE * n < total
        invariant opAddr == (addr + LINE_SIZE * n) % TWO_32
        invariant registers.byAddress == old(registers.byAddress) + Addresses(addr, n)
        decreases total - LINE_SIZE * n
      {
        OneMoreRound(addr, total, n);
        registers.byAddress := registers.byAddress + [opAddr];
        opAddr := (opAddr + LINE_SIZE) % TWO_32;
        opSize := AsSigned(opSize - LINE_SIZE);
        n := n + 1;
        if opSize <= 0 {
          break;
        }
      }
      RoundsCounted(total, n - 1);
      if addr + dsize <= TWO_32 {
        BlockIsCovered(addr, dsize);
      }
    }
  }

  /** Line l has bytes in common with the memory block. */
  predicate Overlaps(l: nat, addr: u32, dsize: nat) {
    32 * l < addr + dsize && addr < 32 * (l + 1)
  }

  /** The registers take the line of an address: the bits above the offset in the line. */
  function LinesOf(ws: seq<u32>): (ls: seq<nat>)
    ensures |ls| == |ws| && forall i :: 0 <= i < |ws| ==> ls[i] == ws[i] / 32
  {
    seq(|ws|, i requires 0 <= i < |ws| => ws[i] / 32)
  }

  /** Exactly the overlapping lines, each once. */
  ghost predicate Covers(ls: seq<nat>, addr: u32, dsize: nat) {
    && (forall i, j :: 0 <= i < j < |ls| ==> ls[i] != ls[j])
    && (forall l: nat :: l in ls <==> Overlaps(l, addr, dsize))
  }

  lemma {:induction false} LineNumbers(addr: u32, n: nat)
    requires addr + LINE_SIZE * n <= TWO_32 + addr % LINE_SIZE
    ensures forall i :: 0 <= i < n ==> LinesOf(Addresses(addr, n))[i] == addr / LINE_SIZE + i
  {
    forall i | 0 <= i < n ensures LinesOf(Addresses(addr, n))[i] == addr / LINE_SIZE + i {
      assert LINE_SIZE * i + LINE_SIZE <= LINE_SIZE * n;
      assert addr + LINE_SIZE * i < TWO_32;
    }
  }

  /**
   For every block that does not run over the end of the address space, unaligned or not: the rounds touch exactly
   the lines that overlap it, each once.
   */
  lemma {:induction false} BlockIsCovered(addr: u32, dsize: nat)
    requires 0 < dsize && addr + dsize <= TWO_32
    ensures Covers(LinesOf(Addresses(addr, Rounds(dsize + addr % LINE_SIZE))), addr, dsize)
  {
    var first, n := addr / LINE_SIZE, Rounds(dsize + addr % LINE_SIZE);
    var ls := LinesOf(Addresses(addr, n));
    LineNumbers(addr, n);
    forall l: nat ensures l in ls <==> Overlaps(l, addr, dsize) {
      if Overlaps(l, addr, dsize) {
        assert ls[l - first] == l;
      }
    }
  }

  // ----- Maintenance by set and way -----

  /** All pairs down from (set, way), in the order of the loops. */
  function PairsDown(set_: nat, way: nat, ways: nat): (ps: seq<SetWay>)
    requires way <= ways
    decreases set_, way
  {
    [SetWay(set_, way)] + if way > 0 then PairsDown(set_, way - 1, ways)
                    else if set_ > 0 then PairsDown(set_ - 1, ways, ways) else []
  }

  /** The word for a pair: the fields of the register are 9 and 2 bits wide. */
  function SetWayWord(pair: SetWay): (word: nat) {
    pair.index % 0x200 * 0x20 + pair.way % 4 * 0x4000_0000
  }

  /** The set stands in bits 5 to 13, the way in bits 30 and 31, and all other bits are 0. */
  lemma {:induction false} WordExactly(pair: SetWay)
    ensures var word := SetWayWord(pair);
      && word % 0x20 == 0 && word / 0x20 % 0x200 == pair.index % 0x200 && word / 0x4000 % 0x1_0000 == 0
      && word / 0x4000_0000 == pair.way % 4
  {
  }

  function WordsOf(ps: seq<SetWay>): (words: seq<nat>)
    ensures |words| == |ps| && forall i :: 0 <= i < |ps| ==> words[i] == SetWayWord(ps[i])
  {
    seq(|ps|, i requires 0 <= i < |ps| => SetWayWord(ps[i]))
  }

  /** The set and way loops: both counters run down to 0 and stop there. */
  method MaintainAll(registers: CacheRegisters, numSets: nat, numWays: nat)
    modifies registers`bySetWay
    ensures registers.bySetWay == old(registers.bySetWay) + WordsOf(PairsDown(numSets, numWays, numWays))
  {
    hide PairsDown, SetWayWord;
    var sets: nat := numSets;
    while true
      invariant registers.bySetWay + WordsOf(PairsDown(sets, numWays, numWays))
             == old(registers.bySetWay) + WordsOf(PairsDown(numSets, numWays, numWays))
      decreases sets
    {
      var ways: nat := numWays;
      while true
        invariant ways <= numWays
        invariant registers.bySetWay + WordsOf(PairsDown(sets, ways, numWays))
               == old(registers.bySetWay) + WordsOf(PairsDown(numSets, numWays, numWays))
        decreases ways
      {
        WordsDownStep(registers.bySetWay, sets, ways, numWays);
        registers.bySetWay := registers.bySetWay + [SetWayWord(SetWay(sets, ways))];
        if ways == 0 {
          break;
        }
        ways := ways - 1;
      }
      if sets == 0 {
        break;
      }
      sets := sets - 1;
    }
  }

  lemma {:induction false} WordsDownStep(before: seq<nat>, set_: nat, way: nat, ways: nat)
    requires way <= ways
    ensures before + WordsOf(PairsDown(set_, way, ways))
         == before + [SetWayWord(SetWay(set_, way))]
            + (if way > 0 then WordsOf(PairsDown(set_, way - 1, ways))
               else if set_ > 0 then WordsOf(PairsDown(set_ - 1, ways, ways)) else [])
  {
    hide SetWayWord;
    assert PairsDown(set_, way, ways) == [SetWay(set_, way)] + Behind(set_, way, ways);
  }

  /** Pair p comes at or after (set, way) in the order of the loops. */
  predicate AtOrBelow(p: SetWay, set_: nat, way: nat, ways: nat) {
    (p.index < set_ && p.way <= ways) || (p.index == set_ && p.way <= way)
  }

  /** The pairs behind the first one. */
  function Behind(set_: nat, way: nat, ways: nat): (ps: seq<SetWay>)
    requires way <= ways
  {
    if way > 0 then PairsDown(set_, way - 1, ways) else if set_ > 0 then PairsDown(set_ - 1, ways, ways) else []
  }

  /** The ways of one set, from `way` down to 0. */
  function WaysDown(set_: nat, way: nat): (ps: seq<SetWay>)
    ensures |ps| == way + 1 && forall k :: 0 <= k <= way ==> ps[k] == SetWay(set_, way - k)
  {
    seq(way + 1, k requires 0 <= k <= way => SetWay(set_, way - k))
  }

  /** The order of the loops: all ways of a set from the last way down, then those of the set before it. */
  lemma {:induction false} PairsInOrder(set_: nat, way: nat, ways: nat)
    requires way <= ways
    ensures PairsDown(set_, way, ways)
         == WaysDown(set_, way) + if set_ > 0 then PairsDown(set_ - 1, ways, ways) else []
    decreases way
  {
    hide PairsDown;
    PairsStep(set_, way, ways);
    var behind := if set_ > 0 then PairsDown(set_ - 1, ways, ways) else [];
    var first := [SetWay(set_, way)];
    if way > 0 {
      PairsInOrder(set_, way - 1, ways);
      assert first + WaysDown(set_, way - 1) == WaysDown(set_, way);
      assert first + (WaysDown(set_, way - 1) + behind) == (first + WaysDown(set_, way - 1)) + behind;
    } else {
      assert WaysDown(set_, 0) == first;
    }
  }

  lemma {:induction false} PairsStep(set_: nat, way: nat, ways: nat)
    requires way <= ways
    ensures PairsDown(set_, way, ways) == [SetWay(set_, way)] + Behind(set_, way, ways)
  {
  }

  ghost predicate DistinctPairs(ps: seq<SetWay>) {
    forall i, j :: 0 <= i < j < |ps| ==> ps[i] != ps[j]
  }

  lemma {:induction false} ConsDistinct(first: SetWay, rest: seq<SetWay>)
    requires first !in rest && DistinctPairs(rest)
    ensures DistinctPairs([first] + rest)
  {
  }

  lemma {:induction false} PairsAreAll(set_: nat, way: nat, ways: nat, p: SetWay)
    requires way <= ways
    ensures p in PairsDown(set_, way, ways) <==> AtOrBelow(p, set_, way, ways)
    decreases set_, way
  {
    var rest := Behind(set_, way, ways);
    assert PairsDown(set_, way, ways) == [SetWay(set_, way)] + rest;
    assert p in PairsDown(set_, way, ways) <==> p == SetWay(set_, way) || p in rest;
    if way > 0 {
      PairsAreAll(set_, way - 1, ways, p);
    } else if set_ > 0 {
      PairsAreAll(set_ - 1, ways, ways, p);
    }
  }

  /** Every pair of a set and a way, each exactly once. */
  lemma {:induction false} AllPairsOnce(set_: nat, way: nat, ways: nat)
    requires way <= ways
    ensures var ps := PairsDown(set_, way, ways);
      && (forall p :: p in ps <==> AtOrBelow(p, set_, way, ways))
      && DistinctPairs(ps)
    decreases set_, way
  {
    forall p ensures p in PairsDown(set_, way, ways) <==> AtOrBelow(p, set_, way, ways) {
      PairsAreAll(set_, way, ways, p);
    }
    PairsDistinct(set_, way, ways);
  }

  lemma {:induction false} PairsDistinct(set_: nat, way: nat, ways: nat)
    requires way <= ways
    ensures DistinctPairs(PairsDown(set_, way, ways))
    decreases set_, way
  {
    var first, rest := SetWay(set_, way), Behind(set_, way, ways);
    assert PairsDown(set_, way, ways) == [first] + rest;
    hide PairsDown;
    if way > 0 {
      PairsDistinct(set_, way - 1, ways);
      PairsAreAll(set_, way - 1, ways, first);
    } else if set_ > 0 {
      PairsDistinct(set_ - 1, ways, ways);
      PairsAreAll(set_ - 1, ways, ways, first);
    }
    ConsDistinct(first, rest);
  }

  lemma {:induction false} WordsDiffer(p: SetWay, q: SetWay)
    requires p.index < 0x200 && p.way < 4 && q.index < 0x200 && q.way < 4 && p != q
    ensures SetWayWord(p) != SetWayWord(q)
  {
  }

  /**
   The hardware is told each pair once: the words that the loops write are pairwise distinct, if and only if the cache
   has at most 512 sets and 4 ways.
   */
  lemma {:induction false} WordsDistinctExactly(numSets: nat, numWays: nat)
    ensures var words := WordsOf(PairsDown(numSets, numWays, numWays));
      (forall i, j :: 0 <= i < j < |words| ==> words[i] != words[j]) <==> numSets < 0x200 && numWays < 4
  {
    hide *;
    AllPairsOnce(numSets, numWays, numWays);
    var ps := PairsDown(numSets, numWays, numWays);
    if numSets < 0x200 && numWays < 4 {
      forall p | p in ps ensures p.index < 0x200 && p.way < 4 {
        BelowCounts(p, numSets, numWays);
      }
      WordsDistinct(ps);
    } else {
      var p := if numSets >= 0x200 then SetWay(0x200, 0) else SetWay(0, 4);
      assert p != SetWay(0, 0) && p.index <= numSets && p.way <= numWays;
      WordsCoincide(p);
      BelowCounts(p, numSets, numWays);
      BelowCounts(SetWay(0, 0), numSets, numWays);
      SameWordTwice(ps, p, SetWay(0, 0));
    }
  }

  lemma {:induction false} BelowCounts(p: SetWay, numSets: nat, numWays: nat)
    ensures AtOrBelow(p, numSets, numWays, numWays) <==> p.index <= numSets && p.way <= numWays
  {
  }

  lemma {:induction false} WordsDistinct(ps: seq<SetWay>)
    requires forall p :: p in ps ==> p.index < 0x200 && p.way < 4
    requires DistinctPairs(ps)
    ensures forall i, j :: 0 <= i < j < |ps| ==> WordsOf(ps)[i] != WordsOf(ps)[j]
  {
    hide SetWayWord;
    forall i, j | 0 <= i < j < |ps| ensures WordsOf(ps)[i] != WordsOf(ps)[j] {
      assert ps[i] in ps && ps[j] in ps;
      WordsDiffer(ps[i], ps[j]);
    }
  }

  lemma {:induction false} WordsCoincide(p: SetWay)
    requires p == SetWay(0x200, 0) || p == SetWay(0, 4)
    ensures SetWayWord(p) == SetWayWord(SetWay(0, 0))
  {
  }

  lemma {:induction false} SameWordTwice(ps: seq<SetWay>, p: SetWay, q: SetWay)
    requires p in ps && q in ps && p != q && SetWayWord(p) == SetWayWord(q)
    ensures exists i, j :: 0 <= i < j < |ps| && WordsOf(ps)[i] == WordsOf(ps)[j]
  {
    hide SetWayWord;
    var i :| 0 <= i < |ps| && ps[i] == p;
    var j :| 0 <= j < |ps| && ps[j] == q;
    var lo, hi := if i < j then i else j, if i < j then j else i;
    assert WordsOf(ps)[lo] == WordsOf(ps)[hi];
  }
}
