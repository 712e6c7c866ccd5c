/** The bitwise CRC-32 of the package writer, against the table-driven algorithm of section 8 of RFC 1952
    and against what a CRC is for: telling damaged data from the original. */
module Crc32 {
  import opened Bytes
  import opened ShiftRegister

  const POLYNOMIAL: bv32 := 0xedb8_8320
  const ALL_ONES: bv32 := 0xffff_ffff

  function Bits(b: byte): bv8 { b as bv8 }

  function Word(b: byte): bv32 { Bits(b) as bv32 }

  /** One turn of the inner loop: the mask is all ones exactly when the low bit is set. */
  function Step(crc: bv32): bv32 {
    (crc >> 1) ^ (POLYNOMIAL & (0 - (crc & 1)))
  }

  function Xor(a: bv32, b: bv32): bv32 { a ^ b }

  const CRC: Register<bv32> := Register(Step, Xor, Word, 8)

  function Checksum(data: seq<byte>): bv32 { !CRC.Fold(ALL_ONES, data) }

  method Compute(data: seq<byte>) returns (crc: bv32)
    ensures crc == Checksum(data)
  {
    crc := ALL_ONES;
    var i := 0;
    while i < |data|
      invariant i <= |data|
      invariant CRC.Fold(crc, data[i..]) == CRC.Fold(ALL_ONES, data)
    {
      ghost var rest := data[i..];
      assert rest[0] == data[i] && rest[1..] == data[i + 1..];
      crc := AddByte(crc, data[i]);
      i := i + 1;
    }
    crc := !crc;
  }

  method AddByte(before: bv32, b: byte) returns (crc: bv32)
    ensures crc == CRC.Feed(before, b)
  {
    crc := before ^ Word(b);
    ghost var mixed := crc;
    var k := 0;
    while k < 8
      invariant k <= 8 && CRC.Steps(crc, CRC.width - k) == CRC.Steps(mixed, CRC.width)
    {
      crc := Step(crc);
      k := k + 1;
    }
  }

  // ---------------------------------------------------------------------------------------------
  // The table-driven algorithm
  // ---------------------------------------------------------------------------------------------

  lemma LowBit(c: bv32)
    ensures c & 1 == 0 || c & 1 == 1
  {
  }

  /** The branching step of the table computation is the branchless one. */
  function TableStep(c: bv32): (next: bv32)
    ensures next == Step(c)
  {
    LowBit(c);
    if c & 1 == 1 then POLYNOMIAL ^ (c >> 1) else c >> 1
  }

  function TableEntry(c: bv32, k: nat): bv32
    decreases k
  {
    if k == 0 then c else TableEntry(TableStep(c), k - 1)
  }

  function TableUpdate(crc: bv32, b: byte): bv32 {
    Xor(TableEntry((crc ^ Word(b)) & 0xff, CRC.width), crc >> 8)
  }

  function TableFold(crc: bv32, data: seq<byte>): bv32
    decreases data
  {
    if data == [] then crc else TableFold(TableUpdate(crc, data[0]), data[1..])
  }

  function TableChecksum(data: seq<byte>): bv32 { TableFold(0 ^ ALL_ONES, data) ^ ALL_ONES }

  lemma {:induction false} StepsAreTableEntry(c: bv32, k: nat)
    ensures CRC.Steps(c, k) == TableEntry(c, k)
    decreases k
  {
    if k > 0 {
      StepsAreTableEntry(Step(c), k - 1);
    }
  }

  lemma StepEven(c: bv32)
    requires c & 1 == 0
    ensures Step(c) == c >> 1
  {
  }

  lemma StepOdd(c: bv32)
    requires c & 1 == 1
    ensures Step(c) == (c >> 1) ^ POLYNOMIAL
  {
  }

  /** The step is linear over exclusive or. */
  lemma StepLinear(a: bv32, b: bv32)
    ensures Step(a ^ b) == Step(a) ^ Step(b)
  {
    LowBit(a);
    LowBit(b);
    assert (a ^ b) & 1 == (a & 1) ^ (b & 1);
    assert (a ^ b) >> 1 == (a >> 1) ^ (b >> 1);
    if a & 1 == 0 {
      if b & 1 == 0 {
        StepEven(a); StepEven(b); StepEven(a ^ b);
      } else {
        StepEven(a); StepOdd(b); StepOdd(a ^ b);
      }
    } else {
      if b & 1 == 0 {
        StepOdd(a); StepEven(b); StepOdd(a ^ b);
      } else {
        StepOdd(a); StepOdd(b); StepEven(a ^ b);
      }
    }
  }

  lemma LinearAt(a: bv32, b: bv32)
    ensures CRC.step(CRC.xor(a, b)) == CRC.xor(CRC.step(a), CRC.step(b))
  {
    StepLinear(a, b);
  }

  lemma CrcIsLinear()
    ensures CRC.Linear()
  {
    forall a: bv32, b: bv32 ensures CRC.step(CRC.xor(a, b)) == CRC.xor(CRC.step(a), CRC.step(b)) {
      LinearAt(a, b);
    }
  }

  function Lift(x: bv32): bv32 { x << 8 }

  predicate Narrow(x: bv32) { x <= 0x00ff_ffff }

  lemma UnstepLow(c: bv32)
    ensures (((c ^ 0xedb8_8320) << 1) | 1) & 1 == 1
    ensures c & 0x8000_0000 != 0 ==> ((((c ^ 0xedb8_8320) << 1) | 1) >> 1) ^ 0xedb8_8320 == c
    ensures (c << 1) & 1 == 0
    ensures c & 0x8000_0000 == 0 ==> (c << 1) >> 1 == c
  {
  }

  lemma StepUnstepHigh(c: bv32)
    requires c & 0x8000_0000 != 0
    ensures Step(((c ^ 0xedb8_8320) << 1) | 1) == c
  {
    UnstepLow(c);
    StepOdd(((c ^ 0xedb8_8320) << 1) | 1);
  }

  lemma StepUnstepLow(c: bv32)
    requires c & 0x8000_0000 == 0
    ensures Step(c << 1) == c
  {
    UnstepLow(c);
    StepEven(c << 1);
  }

  predicate Halved(c: bv32, d: bv32) { c & 1 == 0 && c >> 1 == d }

  lemma StepHalves(c: bv32, d: bv32)
    requires Halved(c, d)
    ensures CRC.step(c) == d
  {
    StepEven(c);
  }

  lemma ShiftsAreHalves(x: bv32)
    requires Narrow(x)
    ensures Halved(x << 8, x << 7)
    ensures Halved(x << 7, x << 6)
    ensures Halved(x << 6, x << 5)
    ensures Halved(x << 5, x << 4)
    ensures Halved(x << 4, x << 3)
    ensures Halved(x << 3, x << 2)
    ensures Halved(x << 2, x << 1)
    ensures Halved(x << 1, x)
  {
  }

  lemma StepsDown(x: bv32)
    requires Narrow(x)
    ensures CRC.step(x << 8) == x << 7
    ensures CRC.step(x << 7) == x << 6
    ensures CRC.step(x << 6) == x << 5
    ensures CRC.step(x << 5) == x << 4
    ensures CRC.step(x << 4) == x << 3
    ensures CRC.step(x << 3) == x << 2
    ensures CRC.step(x << 2) == x << 1
    ensures CRC.step(x << 1) == x
  {
    ShiftsAreHalves(x);
    StepHalves(x << 8, x << 7); StepHalves(x << 7, x << 6); StepHalves(x << 6, x << 5); StepHalves(x << 5, x << 4);
    StepHalves(x << 4, x << 3); StepHalves(x << 3, x << 2); StepHalves(x << 2, x << 1); StepHalves(x << 1, x);
  }

  /** Eight steps of a word whose low byte is zero only shift. */
  lemma EightStepsShift(x: bv32)
    requires Narrow(x)
    ensures CRC.Steps(Lift(x), CRC.width) == x
  {
    StepsDown(x);
    CRC.EightSteps(x << 8, x << 7, x << 6, x << 5, x << 4, x << 3, x << 2, x << 1, x);
  }

  lemma XorAt(a: bv32, b: bv32)
    ensures CRC.xor(a, b) == a ^ b
  {
  }

  lemma LiftsAt(c: bv32)
    ensures Narrow(c) ==> CRC.Steps(Lift(c), CRC.width) == c
    ensures CRC.xor(c, 0) == c
  {
    if Narrow(c) {
      EightStepsShift(c);
    }
  }

  lemma XorAssociates(a: bv32, b: bv32, c: bv32)
    ensures (a ^ b) ^ c == a ^ (b ^ c)
  {
  }

  lemma AssociatesAt(a: bv32, b: bv32, c: bv32)
    ensures CRC.xor(CRC.xor(a, b), c) == CRC.xor(a, CRC.xor(b, c))
  {
    XorAt(a, b); XorAt(b, c); XorAt(a ^ b, c); XorAt(a, b ^ c);
    XorAssociates(a, b, c);
  }

  lemma CrcLifts()
    ensures CRC.Lifts(0, Lift, Narrow)
  {
    forall c: bv32
      ensures Narrow(c) ==> CRC.Steps(Lift(c), CRC.width) == c
    {
      LiftsAt(c);
    }
    forall c: bv32 ensures CRC.xor(c, 0) == c {
      LiftsAt(c);
    }
    forall a: bv32, b: bv32, c: bv32
      ensures CRC.xor(CRC.xor(a, b), c) == CRC.xor(a, CRC.xor(b, c))
    {
      AssociatesAt(a, b, c);
    }
  }

  lemma FeedIsSplit(crc: bv32, w: bv32, low: bv32, high: bv32, b: byte)
    requires w == Word(b) && crc ^ w == low ^ Lift(high) && Narrow(high)
    ensures CRC.Feed(crc, b) == CRC.xor(CRC.Steps(low, CRC.width), high)
  {
    XorAt(crc, w);
    XorAt(low, Lift(high));
    CrcIsLinear();
    CrcLifts();
    CRC.FeedSplits(crc, b, low, high, 0, Lift, Narrow);
  }

  lemma TableUpdateNamed(crc: bv32, b: byte, low: bv32, high: bv32, entry: bv32)
    requires low == (crc ^ Word(b)) & 0xff && high == crc >> 8 && entry == TableEntry(low, CRC.width)
    ensures CRC.xor(entry, high) == TableUpdate(crc, b)
  {
  }

  lemma UpdateIsTableUpdate(crc: bv32, b: byte)
    ensures CRC.Feed(crc, b) == TableUpdate(crc, b)
  {
    var low, high := SplitLowByte(crc, b);
    FeedIsSplit(crc, Word(b), low, high, b);
    StepsAreTableEntry(low, CRC.width);
    TableUpdateNamed(crc, b, low, high, TableEntry(low, CRC.width));
  }

  lemma SplitLowByte(crc: bv32, b: byte) returns (low: bv32, high: bv32)
    ensures low == (crc ^ Word(b)) & 0xff && high == crc >> 8
    ensures crc ^ Word(b) == low ^ Lift(high) && Narrow(high)
  {
    WordBound(b);
    low, high := (crc ^ Word(b)) & 0xff, crc >> 8;
    SplitWord(crc, Word(b));
  }

  lemma SplitWord(c: bv32, w: bv32)
    requires w <= 0xff
    ensures c ^ w == ((c ^ w) & 0xff) ^ ((c >> 8) << 8)
    ensures c >> 8 <= 0x00ff_ffff
  {
  }

  lemma {:induction false} FoldIsTableFold(crc: bv32, data: seq<byte>)
    ensures CRC.Fold(crc, data) == TableFold(crc, data)
    decreases data
  {
    if data != [] {
      UpdateIsTableUpdate(crc, data[0]);
      FoldIsTableFold(TableUpdate(crc, data[0]), data[1..]);
    }
  }

  /** The bit loop computes the checksum of section 8 of RFC 1952. */
  lemma ChecksumIsTableChecksum(data: seq<byte>)
    ensures Checksum(data) == TableChecksum(data)
  {
    FoldIsTableFold(ALL_ONES, data);
    Complement(CRC.Fold(ALL_ONES, data));
  }

  lemma KnownSteps()
    ensures CRC.step(0xffff_ff9e) == 0x7fff_ffcf && CRC.step(0x7fff_ffcf) == 0xd247_7cc7
    ensures CRC.step(0xd247_7cc7) == 0x849b_3d43 && CRC.step(0x849b_3d43) == 0xaff5_1d81
    ensures CRC.step(0xaff5_1d81) == 0xba42_0de0 && CRC.step(0xba42_0de0) == 0x5d21_06f0
    ensures CRC.step(0x5d21_06f0) == 0x2e90_8378 && CRC.step(0x2e90_8378) == 0x1748_41bc
  {
  }

  lemma KnownMix(b: byte)
    requires b == 97
    ensures CRC.xor(ALL_ONES, CRC.load(b)) == 0xffff_ff9e && !(0x1748_41bc as bv32) == 0xe8b7_be43
  {
    assert Bits(b) == 97;
  }

  /** The checksums of the empty data and of the letter `a`. */
  lemma KnownAnswers()
    ensures Checksum([]) == 0 && Checksum([97]) == 0xe8b7_be43
  {
    var b: byte := 97;
    KnownMix(b);
    KnownSteps();
    CRC.EightSteps(
      0xffff_ff9e, 0x7fff_ffcf, 0xd247_7cc7, 0x849b_3d43, 0xaff5_1d81, 0xba42_0de0, 0x5d21_06f0, 0x2e90_8378,
      0x1748_41bc);
    assert CRC.Feed(ALL_ONES, b) == 0x1748_41bc;
    assert [b][1..] == [];
    assert CRC.Fold(ALL_ONES, [b]) == CRC.Fold(0x1748_41bc, []);
  }

  lemma Complement(c: bv32)
    ensures !c == c ^ 0xffff_ffff
    ensures 0 ^ c == c
  {
  }

  // ---------------------------------------------------------------------------------------------
  // Nothing is lost in the register
  // ---------------------------------------------------------------------------------------------

  function Unstep(c: bv32): (before: bv32)
    ensures Step(before) == c
  {
    if c & 0x8000_0000 != 0 then
      StepUnstepHigh(c);
      ((c ^ POLYNOMIAL) << 1) | 1
    else
      StepUnstepLow(c);
      c << 1
  }

  lemma UnstepStep(c: bv32)
    ensures Unstep(Step(c)) == c
  {
    LowBit(c);
  }

  /** Each step is a bijection on register states. */
  lemma StepIsBijective(c: bv32)
    ensures Unstep(Step(c)) == c && Step(Unstep(c)) == c
  {
    UnstepStep(c);
  }

  lemma XorCancels(a: bv32, b: bv32, w: bv32)
    ensures a ^ w == b ^ w ==> a == b
    ensures w ^ a == w ^ b ==> a == b
  {
    assert (a ^ w) ^ w == a && (b ^ w) ^ w == b;
    assert w ^ (w ^ a) == a && w ^ (w ^ b) == b;
  }

  lemma CrcIsLossless()
    ensures CRC.Lossless()
  {
    forall a: bv32, b: bv32 ensures CRC.step(a) == CRC.step(b) ==> a == b {
      UnstepStep(a);
      UnstepStep(b);
    }
    forall a: bv32, b: bv32, c: bv32
      ensures CRC.xor(a, c) == CRC.xor(b, c) ==> a == b
      ensures CRC.xor(c, a) == CRC.xor(c, b) ==> a == b
    {
      XorCancels(a, b, c);
    }
  }

  // ---------------------------------------------------------------------------------------------
  // Bursts of up to four bytes
  // ---------------------------------------------------------------------------------------------

  /** Up to four bytes as one little-endian word. */
  function Pack(w: seq<byte>): bv32 { CRC.Pack(w, 0, Lift) }

  function Limit(k: nat): bv32
    requires k <= 4
  {
    if k == 0 then 0 else if k == 1 then 0xff else if k == 2 then 0xffff else if k == 3 then 0xff_ffff else ALL_ONES
  }

  lemma PackShift(b: bv32, p: bv32)
    requires b <= 0xff
    ensures p <= 0 ==> b ^ (p << 8) <= 0xff
    ensures p <= 0xff ==> b ^ (p << 8) <= 0xffff
    ensures p <= 0xffff ==> b ^ (p << 8) <= 0xff_ffff
    ensures (b ^ (p << 8)) & 0xff == b
    ensures p <= 0xff_ffff ==> (b ^ (p << 8)) >> 8 == p
  {
  }

  lemma {:induction false} PackBound(w: seq<byte>)
    requires |w| <= 4
    ensures Pack(w) <= Limit(|w|)
    decreases w
  {
    if w != [] {
      var rest := w[1..];
      PackBound(rest);
      WordBound(w[0]);
      PackShift(Word(w[0]), Pack(rest));
    }
  }

  lemma WordBound(b: byte)
    ensures Word(b) <= 0xff
  {
  }

  function FromNibbles(high: nat, low: nat): bv8
    requires high < 16 && low < 16
  {
    ((high as bv8) << 4) | (low as bv8)
  }

  lemma SmallRoundTrip(n: nat)
    requires n < 16
    ensures (n as bv8) as int == n && (n as bv8) <= 15
  {
  }

  lemma NibbleValue(high: bv8, low: bv8)
    requires high <= 15 && low <= 15
    ensures ((high << 4) | low) as int == 16 * (high as int) + (low as int)
  {
  }

  lemma BitsRoundTrip(x: bv8)
    ensures Bits(x as int) == x
  {
  }

  lemma ByteRoundTrip(b: byte)
    ensures Bits(b) as int == b
  {
    var high, low := b / 16, b % 16;
    SmallRoundTrip(high);
    SmallRoundTrip(low);
    NibbleValue(high as bv8, low as bv8);
    BitsRoundTrip(FromNibbles(high, low));
  }

  lemma WordInjective(a: byte, b: byte)
    requires Word(a) == Word(b)
    ensures a == b
  {
    assert Bits(a) == Bits(b);
    ByteRoundTrip(a);
    ByteRoundTrip(b);
  }

  lemma {:induction false} PackInjective(v: seq<byte>, w: seq<byte>)
    requires |v| == |w| <= 4 && Pack(v) == Pack(w)
    ensures v == w
    decreases v
  {
    if v != [] {
      var p, q := Pack(v[1..]), Pack(w[1..]);
      WordBound(v[0]); WordBound(w[0]);
      PackBound(v[1..]); PackBound(w[1..]);
      PackShift(Word(v[0]), p);
      PackShift(Word(w[0]), q);
      WordInjective(v[0], w[0]);
      PackInjective(v[1..], w[1..]);
      assert v == [v[0]] + v[1..] && w == [w[0]] + w[1..];
    }
  }

  lemma {:induction false} ShortWindowHasRoom(w: seq<byte>)
    requires |w| <= 4
    ensures CRC.HasRoom(w, 0, Lift, Narrow)
    decreases w
  {
    if w != [] {
      PackBound(w[1..]);
      ShortWindowHasRoom(w[1..]);
    }
  }

  lemma EqualFoldsEqualWindows(before: seq<byte>, v: seq<byte>, w: seq<byte>, after: seq<byte>)
    requires |v| == |w| <= 4
    requires CRC.Fold(ALL_ONES, before + v + after) == CRC.Fold(ALL_ONES, before + w + after)
    ensures v == w
  {
    CrcIsLinear();
    CrcIsLossless();
    CrcLifts();
    ShortWindowHasRoom(v);
    ShortWindowHasRoom(w);
    CRC.WindowShows(ALL_ONES, before, v, w, after, 0, Lift, Narrow);
    PackInjective(v, w);
  }

  /** Equal-length data that differ, but only inside four consecutive bytes, have different checksums. */
  lemma BurstIsDetected(before: seq<byte>, v: seq<byte>, w: seq<byte>, after: seq<byte>)
    requires |v| == |w| <= 4 && v != w
    ensures Checksum(before + v + after) != Checksum(before + w + after)
  {
    if Checksum(before + v + after) == Checksum(before + w + after) {
      SameChecksumSameFold(before + v + after, before + w + after,
                           CRC.Fold(ALL_ONES, before + v + after), CRC.Fold(ALL_ONES, before + w + after));
      EqualFoldsEqualWindows(before, v, w, after);
    }
  }

  lemma SameChecksumSameFold(a: seq<byte>, b: seq<byte>, x: bv32, y: bv32)
    requires x == CRC.Fold(ALL_ONES, a) && y == CRC.Fold(ALL_ONES, b)
    requires Checksum(a) == Checksum(b)
    ensures x == y
  {
    assert !x == !y;
    NotInjective(x, y);
  }

  lemma NotInjective(a: bv32, b: bv32)
    requires !a == !b
    ensures a == b
  {
  }

  // ---------------------------------------------------------------------------------------------
  // The checksum is affine
  // ---------------------------------------------------------------------------------------------

  function XorBytes(a: seq<byte>, b: seq<byte>): (r: seq<byte>)
    requires |a| == |b|
    ensures |r| == |a|
  {
    seq(|a|, i requires 0 <= i < |a| => (Bits(a[i]) ^ Bits(b[i])) as int)
  }

  lemma WordOfBits(x: bv8)
    ensures Word(x as int) == x as bv32
  {
    BitsRoundTrip(x);
  }

  lemma WidenXor(a: bv8, b: bv8)
    ensures (a ^ b) as bv32 == (a as bv32) ^ (b as bv32)
  {
  }

  lemma WordOfXor(a: byte, b: byte)
    ensures Word((Bits(a) ^ Bits(b)) as int) == Word(a) ^ Word(b)
  {
    WordOfBits(Bits(a) ^ Bits(b));
    WidenXor(Bits(a), Bits(b));
  }

  lemma CommutesAt(a: bv32, b: bv32)
    ensures CRC.xor(a, b) == CRC.xor(b, a)
  {
  }

  lemma CrcIsAbelian()
    ensures CRC.Abelian()
  {
    forall a: bv32, b: bv32 ensures CRC.xor(a, b) == CRC.xor(b, a) {
      CommutesAt(a, b);
    }
    forall a: bv32, b: bv32, c: bv32 ensures CRC.xor(CRC.xor(a, b), c) == CRC.xor(a, CRC.xor(b, c)) {
      AssociatesAt(a, b, c);
    }
  }

  lemma FoldOfXor(s: bv32, t: bv32, a: seq<byte>, b: seq<byte>)
    requires |a| == |b|
    ensures CRC.Fold(s ^ t, XorBytes(a, b)) == CRC.Fold(s, a) ^ CRC.Fold(t, b)
  {
    CrcIsLinear();
    CrcIsAbelian();
    forall i | 0 <= i < |a| ensures CRC.load(XorBytes(a, b)[i]) == CRC.xor(CRC.load(a[i]), CRC.load(b[i])) {
      WordOfXor(a[i], b[i]);
    }
    CRC.FoldLinear(s, t, a, b, XorBytes(a, b));
  }

  /** Over equal-length data the checksum is affine: it commutes with the exclusive or of three texts. */
  lemma ChecksumIsAffine(a: seq<byte>, b: seq<byte>, c: seq<byte>)
    requires |a| == |b| == |c|
    ensures Checksum(XorBytes(XorBytes(a, b), c)) == Checksum(a) ^ Checksum(b) ^ Checksum(c)
  {
    FoldOfXor(0, ALL_ONES, XorBytes(a, b), c);
    FoldOfXor(ALL_ONES, ALL_ONES, a, b);
    assert ALL_ONES ^ ALL_ONES == 0 && 0 ^ ALL_ONES == ALL_ONES;
    NotOfThree(CRC.Fold(ALL_ONES, a), CRC.Fold(ALL_ONES, b), CRC.Fold(ALL_ONES, c));
  }

  lemma NotOfThree(a: bv32, b: bv32, c: bv32)
    ensures !((a ^ b) ^ c) == (!a ^ !b) ^ !c
  {
  }
}
