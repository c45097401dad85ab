/**
  The block cipher of the network protocol: XTEA, "TEA extensions" by Needham and
  Wheeler (1997), on blocks of eight bytes that are changed in place.  Words wrap around at 32 bits.
*/
module Xtea {
  type Byte = bv8
  type Word = bv32

  const DELTA: Word := 0x9E37_79B9

  datatype Key = Key(k0: Word, k1: Word, k2: Word, k3: Word)

  datatype Halves = Halves(v0: Word, v1: Word)

  function Add(a: Word, b: Word): Word {
    a + b
  }

  function Sub(a: Word, b: Word): Word {
    a - b
  }

  function Xor(a: Word, b: Word): Word {
    a ^ b
  }

  /** The part of the key that the two lowest bits name. */
  function Part(key: Key, i: Word): Word {
    match i & 3
    case 0 => key.k0
    case 1 => key.k1
    case 2 => key.k2
    case _ => key.k3
  }

  /** The shifted halves of a word, mixed into it; shifting up loses the highest bits. */
  function Mix(v: Word): Word {
    Add((v << 4) ^ (v >> 5), v)
  }

  function EvenPart(key: Key, v: Word, sum: Word): Word {
    Xor(Mix(v), Add(sum, Part(key, sum)))
  }

  function OddPart(key: Key, v: Word, sum: Word): Word {
    Xor(Mix(v), Add(sum, Part(key, sum >> 11)))
  }

  // ---------------------------------------------------------- rounds

  /** The running sum at the beginning of a round. */
  function Sum(round: nat): Word {
    if round == 0 then 0 else Add(Sum(round - 1), DELTA)
  }

  function Round(key: Key, h: Halves, sum: Word): Halves {
    var v0 := Add(h.v0, EvenPart(key, h.v1, sum));
    Halves(v0, Add(h.v1, OddPart(key, v0, Add(sum, DELTA))))
  }

  function RoundBack(key: Key, h: Halves, sum: Word): Halves {
    var v1 := Sub(h.v1, OddPart(key, h.v0, sum));
    Halves(Sub(h.v0, EvenPart(key, v1, Sub(sum, DELTA))), v1)
  }

  /** The halves after the first `n` rounds. */
  function Rounds(key: Key, h: Halves, n: nat): Halves {
    if n == 0 then h else Round(key, Rounds(key, h, n - 1), Sum(n - 1))
  }

  /** Undoing the rounds from the `from`-th down to the last `n`. */
  function RoundsBack(key: Key, h: Halves, from: nat, n: nat): Halves
    requires n <= from
    decreases from - n
  {
    if n == from then h else RoundBack(key, RoundsBack(key, h, from, n + 1), Sum(n + 1))
  }

  lemma AddSub(a: Word, b: Word)
    ensures Sub(Add(a, b), b) == a && Add(Sub(a, b), b) == a
  {
    var sum, difference := a + b, a - b;
    TakenBack(a, b);
    AddedBack(a, b);
    assert Add(a, b) == sum;
    assert Sub(a, b) == difference;
  }

  lemma TakenBack(a: Word, b: Word)
    ensures (a + b) - b == a
  {
  }

  lemma AddedBack(a: Word, b: Word)
    ensures (a - b) + b == a
  {
  }

  /** One round is undone, in either order. */
  lemma RoundInverse(key: Key, h: Halves, sum: Word)
    ensures RoundBack(key, Round(key, h, sum), Add(sum, DELTA)) == h
    ensures Round(key, RoundBack(key, h, Add(sum, DELTA)), sum) == h
  {
    hide Add, Sub, EvenPart, OddPart;
    AddSub(sum, DELTA);
    var r := Round(key, h, sum);
    AddSub(h.v1, OddPart(key, r.v0, Add(sum, DELTA)));
    AddSub(h.v0, EvenPart(key, h.v1, sum));
    var b := RoundBack(key, h, Add(sum, DELTA));
    AddSub(h.v1, OddPart(key, h.v0, Add(sum, DELTA)));
    AddSub(h.v0, EvenPart(key, b.v1, sum));
  }

  lemma {:induction false} RoundsInverse(key: Key, h: Halves, from: nat, n: nat)
    requires n <= from
    ensures RoundsBack(key, Rounds(key, h, from), from, n) == Rounds(key, h, n)
    decreases from - n
  {
    hide Round, RoundBack, Add, Sub;
    if n < from {
      RoundsInverse(key, h, from, n + 1);
      RoundInverse(key, Rounds(key, h, n), Sum(n));
    }
  }

  lemma {:induction false} RoundsBackInverse(key: Key, h: Halves, from: nat, n: nat)
    requires n <= from
    ensures Rounds(key, RoundsBack(key, h, from, 0), n) == RoundsBack(key, h, from, n)
    decreases n
  {
    hide Round, RoundBack, Add, Sub;
    if n > 0 {
      RoundsBackInverse(key, h, from, n - 1);
      RoundInverse(key, RoundsBack(key, h, from, n), Sum(n - 1));
    }
  }

  /** The sum after all rounds is the one that undoing starts from. */
  lemma LastSum()
    ensures Sum(32) == 0xC6EF_3720
  {
    assert Sum(8) == 0xF1BB_CDC8;
    assert Sum(16) == 0xE377_9B90;
    assert Sum(24) == 0xD533_6958;
  }

  // ---------------------------------------------------------- blocks

  /** Four bytes in little endian order. */
  function Load(b: seq<Byte>): Word
    requires |b| == 4
  {
    (b[0] as Word) | ((b[1] as Word) << 8) | ((b[2] as Word) << 16) | ((b[3] as Word) << 24)
  }

  function Store(v: Word): (b: seq<Byte>)
    ensures |b| == 4
  {
    [Low(v), Low(v >> 8), Low(v >> 16), Low(v >> 24)]
  }

  function Low(v: Word): Byte {
    (v & 0xFF) as Byte
  }

  lemma StoreLoad(v: Word)
    ensures Load(Store(v)) == v
  {
  }

  lemma LoadStore(b: seq<Byte>)
    requires |b| == 4
    ensures Store(Load(b)) == b
  {
  }

  type Block = b: seq<Byte> | |b| == 8 witness [0, 0, 0, 0, 0, 0, 0, 0]

  function Split(b: Block): Halves {
    Halves(Load(b[..4]), Load(b[4..]))
  }

  function Joined(h: Halves): Block {
    Store(h.v0) + Store(h.v1)
  }

  lemma JoinSplit(b: Block)
    ensures Joined(Split(b)) == b
  {
    hide Load, Store;
    LoadStore(b[..4]);
    LoadStore(b[4..]);
  }

  lemma SplitJoin(h: Halves)
    ensures Split(Joined(h)) == h
  {
    hide Load, Store;
    StoreLoad(h.v0);
    StoreLoad(h.v1);
    assert Joined(h)[..4] == Store(h.v0) && Joined(h)[4..] == Store(h.v1);
  }

  function Encrypted(key: Key, b: Block): Block {
    Joined(Rounds(key, Split(b), 32))
  }

  function Decrypted(key: Key, b: Block): Block {
    Joined(RoundsBack(key, Split(b), 32, 0))
  }

  /** With the same key, each of the two undoes the other, on every block. */
  lemma CipherInverse(key: Key, b: Block)
    ensures Decrypted(key, Encrypted(key, b)) == b
    ensures Encrypted(key, Decrypted(key, b)) == b
  {
    hide Split, Joined, Rounds, RoundsBack;
    SplitJoin(Rounds(key, Split(b), 32));
    RoundsInverse(key, Split(b), 32, 0);
    SplitJoin(RoundsBack(key, Split(b), 32, 0));
    RoundsBackInverse(key, Split(b), 32, 32);
    NoRounds(key, Split(b), 32);
    JoinSplit(b);
  }

  lemma NoRounds(key: Key, h: Halves, from: nat)
    ensures Rounds(key, h, 0) == h && RoundsBack(key, h, from, from) == h && Sum(0) == 0
  {
  }

  // ---------------------------------------------------------- the cipher on bits

  /** Which of the four parts of the key is taken. */
  predicate IsPart(part: Word, key: Key, i: Word) {
    && (i & 3 == 0 ==> part == key.k0) && (i & 3 == 1 ==> part == key.k1)
    && (i & 3 == 2 ==> part == key.k2) && (i & 3 == 3 ==> part == key.k3)
  }

  lemma PartIsIt(part: Word, key: Key, i: Word)
    requires IsPart(part, key, i)
    ensures Part(key, i) == part
  {
  }

  lemma MixOnBits(v: Word, mixed: Word)
    requires mixed == ((v << 4) ^ (v >> 5)) + v
    ensures Mix(v) == mixed
  {
  }

  lemma AddOnBits(a: Word, b: Word, sum: Word)
    requires sum == a + b
    ensures Add(a, b) == sum
  {
  }

  lemma XorOnBits(a: Word, b: Word, bits: Word)
    requires bits == a ^ b
    ensures Xor(a, b) == bits
  {
  }

  lemma PartsOnBits(key: Key, v: Word, sum: Word, part: Word, mixed: Word, added: Word, bits: Word)
    requires mixed == ((v << 4) ^ (v >> 5)) + v && added == sum + part && bits == mixed ^ added
    ensures IsPart(part, key, sum) ==> EvenPart(key, v, sum) == bits
    ensures IsPart(part, key, sum >> 11) ==> OddPart(key, v, sum) == bits
  {
    hide Add, Xor, Mix, Part, IsPart, EvenPart, OddPart;
    MixOnBits(v, mixed);
    AddOnBits(sum, part, added);
    XorOnBits(mixed, added, bits);
    Parts(key, v, sum, part);
  }

  lemma Parts(key: Key, v: Word, sum: Word, part: Word)
    ensures IsPart(part, key, sum) ==> EvenPart(key, v, sum) == Xor(Mix(v), Add(sum, part))
    ensures IsPart(part, key, sum >> 11) ==> OddPart(key, v, sum) == Xor(Mix(v), Add(sum, part))
  {
    hide Add, Xor, Mix, Part, IsPart;
    if IsPart(part, key, sum) {
      PartIsIt(part, key, sum);
    }
    if IsPart(part, key, sum >> 11) {
      PartIsIt(part, key, sum >> 11);
    }
  }

  /** What one round replaces the words v0 and v1 by, bit by bit: a and b. */
  lemma RoundOnBits(key: Key, v0: Word, v1: Word, sum: Word, next: Word, a: Word, b: Word,
                    part0: Word, mixed0: Word, added0: Word, bits0: Word,
                    part1: Word, mixed1: Word, added1: Word, bits1: Word)
    requires mixed0 == ((v1 << 4) ^ (v1 >> 5)) + v1 && IsPart(part0, key, sum) && added0 == sum + part0
    requires bits0 == mixed0 ^ added0 && a == v0 + bits0
    requires next == sum + 0x9E37_79B9
    requires mixed1 == ((a << 4) ^ (a >> 5)) + a && IsPart(part1, key, next >> 11) && added1 == next + part1
    requires bits1 == mixed1 ^ added1 && b == v1 + bits1
    ensures Round(key, Halves(v0, v1), sum) == Halves(a, b)
  {
    hide Add, EvenPart, OddPart, IsPart;
    PartsOnBits(key, v1, sum, part0, mixed0, added0, bits0);
    AddOnBits(v0, bits0, a);
    AddOnBits(sum, DELTA, next);
    PartsOnBits(key, a, next, part1, mixed1, added1, bits1);
    AddOnBits(v1, bits1, b);
  }

  // ---------------------------------------------------------- a published block

  const PUBLISHED_KEY := Key(0x0001_0203, 0x0405_0607, 0x0809_0A0B, 0x0C0D_0E0F)

  const PUBLISHED_HALVES := Halves(0x4142_4344, 0x4546_4748)

  /** Nothing but a round whose words are known. */
  lemma Next(n: nat, r: Halves, sum: Word, after: Halves)
    requires Rounds(PUBLISHED_KEY, PUBLISHED_HALVES, n) == r && Sum(n) == sum
    requires Round(PUBLISHED_KEY, r, sum) == after
    ensures Rounds(PUBLISHED_KEY, PUBLISHED_HALVES, n + 1) == after && Sum(n + 1) == Add(sum, DELTA)
  {
    hide Round, Add;
  }

  lemma FirstEight()
    ensures Rounds(PUBLISHED_KEY, PUBLISHED_HALVES, 8) == Halves(0x8F65_016F, 0xCE36_8FE5) && Sum(8) == 0xF1BB_CDC8
  {
    hide Rounds, Sum;
    NoRounds(PUBLISHED_KEY, PUBLISHED_HALVES, 0);
    Next(0, Halves(0x4142_4344, 0x4546_4748), 0x0000_0000, Halves(0xDCD7_CF45, 0x477C_E5EF));
    Next(1, Halves(0xDCD7_CF45, 0x477C_E5EF), 0x9E37_79B9, Halves(0xFC26_AF53, 0xCD42_78CF));
    Next(2, Halves(0xFC26_AF53, 0xCD42_78CF), 0x3C6E_F372, Halves(0xD80E_94CB, 0x4DDF_38A2));
    Next(3, Halves(0xD80E_94CB, 0x4DDF_38A2), 0xDAA6_6D2B, Halves(0xA3DE_6C88, 0xF1E7_792D));
    Next(4, Halves(0xA3DE_6C88, 0xF1E7_792D), 0x78DD_E6E4, Halves(0x171D_3729, 0x9186_2A1F));
    Next(5, Halves(0x171D_3729, 0x9186_2A1F), 0x1715_609D, Halves(0xCC8C_1344, 0xEBEE_AA9A));
    Next(6, Halves(0xCC8C_1344, 0xEBEE_AA9A), 0xB54C_DA56, Halves(0xE57D_7733, 0x59E5_FC40));
    Next(7, Halves(0xE57D_7733, 0x59E5_FC40), 0x5384_540F, Halves(0x8F65_016F, 0xCE36_8FE5));
  }

  lemma SecondEight()
    requires Rounds(PUBLISHED_KEY, PUBLISHED_HALVES, 8) == Halves(0x8F65_016F, 0xCE36_8FE5) && Sum(8) == 0xF1BB_CDC8
    ensures Rounds(PUBLISHED_KEY, PUBLISHED_HALVES, 16) == Halves(0xDEA0_B0B4, 0x0966_B066) && Sum(16) == 0xE377_9B90
  {
    hide Rounds, Sum;
    Next(8, Halves(0x8F65_016F, 0xCE36_8FE5), 0xF1BB_CDC8, Halves(0xD258_174E, 0x48D6_1211));
    Next(9, Halves(0xD258_174E, 0x48D6_1211), 0x8FF3_4781, Halves(0x165E_0567, 0x9E71_7B10));
    Next(10, Halves(0x165E_0567, 0x9E71_7B10), 0x2E2A_C13A, Halves(0xCAC4_8414, 0x4AFF_1B86));
    Next(11, Halves(0xCAC4_8414, 0x4AFF_1B86), 0xCC62_3AF3, Halves(0xEB8E_9954, 0x24E5_DFEF));
    Next(12, Halves(0xEB8E_9954, 0x24E5_DFEF), 0x6A99_B4AC, Halves(0x0A88_B2A5, 0xE4A3_F5F5));
    Next(13, Halves(0x0A88_B2A5, 0xE4A3_F5F5), 0x08D1_2E65, Halves(0x47F0_B53D, 0x52CC_1B88));
    Next(14, Halves(0x47F0_B53D, 0x52CC_1B88), 0xA708_A81E, Halves(0x7622_F70A, 0xE54C_9980));
    Next(15, Halves(0x7622_F70A, 0xE54C_9980), 0x4540_21D7, Halves(0xDEA0_B0B4, 0x0966_B066));
  }

  lemma ThirdEight()
    requires Rounds(PUBLISHED_KEY, PUBLISHED_HALVES, 16) == Halves(0xDEA0_B0B4, 0x0966_B066) && Sum(16) == 0xE377_9B90
    ensures Rounds(PUBLISHED_KEY, PUBLISHED_HALVES, 24) == Halves(0xC1CD_CCFE, 0x6F59_3666) && Sum(24) == 0xD533_6958
  {
    hide Rounds, Sum;
    Next(16, Halves(0xDEA0_B0B4, 0x0966_B066), 0xE377_9B90, Halves(0x5B9F_2A8E, 0xA8DC_137C));
    Next(17, Halves(0x5B9F_2A8E, 0xA8DC_137C), 0x81AF_1549, Halves(0x1077_1C15, 0xE45E_1448));
    Next(18, Halves(0x1077_1C15, 0xE45E_1448), 0x1FE6_8F02, Halves(0x1145_6D7C, 0xC85F_792D));
    Next(19, Halves(0x1145_6D7C, 0xC85F_792D), 0xBE1E_08BB, Halves(0x9785_6208, 0x1099_631C));
    Next(20, Halves(0x9785_6208, 0x1099_631C), 0x5C55_8274, Halves(0xDD80_3B8B, 0xCB8F_61E7));
    Next(21, Halves(0xDD80_3B8B, 0xCB8F_61E7), 0xFA8C_FC2D, Halves(0x522C_00DD, 0x9E3F_7329));
    Next(22, Halves(0x522C_00DD, 0x9E3F_7329), 0x98C4_75E6, Halves(0x77B7_44A0, 0x69C1_348C));
    Next(23, Halves(0x77B7_44A0, 0x69C1_348C), 0x36FB_EF9F, Halves(0xC1CD_CCFE, 0x6F59_3666));
  }

  lemma FourthEight()
    requires Rounds(PUBLISHED_KEY, PUBLISHED_HALVES, 24) == Halves(0xC1CD_CCFE, 0x6F59_3666) && Sum(24) == 0xD533_6958
    ensures Rounds(PUBLISHED_KEY, PUBLISHED_HALVES, 32) == Halves(0x497D_F3D0, 0x7261_2CB5) && Sum(32) == 0xC6EF_3720
  {
    hide Rounds, Sum;
    Next(24, Halves(0xC1CD_CCFE, 0x6F59_3666), 0xD533_6958, Halves(0x7544_5A60, 0x2DB1_708D));
    Next(25, Halves(0x7544_5A60, 0x2DB1_708D), 0x736A_E311, Halves(0xF488_7559, 0x8BB6_51D7));
    Next(26, Halves(0xF488_7559, 0x8BB6_51D7), 0x11A2_5CCA, Halves(0x47CC_DC59, 0xFCD8_F11C));
    Next(27, Halves(0x47CC_DC59, 0xFCD8_F11C), 0xAFD9_D683, Halves(0xC471_004F, 0x5097_C822));
    Next(28, Halves(0xC471_004F, 0x5097_C822), 0x4E11_503C, Halves(0xD6F3_570B, 0x00D3_5711));
    Next(29, Halves(0xD6F3_570B, 0x00D3_5711), 0xEC48_C9F5, Halves(0xD53D_E450, 0xA108_22D4));
    Next(30, Halves(0xD53D_E450, 0xA108_22D4), 0x8A80_43AE, Halves(0xF959_A6E3, 0x6076_A570));
    Next(31, Halves(0xF959_A6E3, 0x6076_A570), 0x28B7_BD67, Halves(0x497D_F3D0, 0x7261_2CB5));
  }

  /** The words 41424344 45464748 become 497DF3D0 72612CB5. */
  lemma PublishedBlock()
    ensures Encrypted(PUBLISHED_KEY, [0x44, 0x43, 0x42, 0x41, 0x48, 0x47, 0x46, 0x45])
         == [0xD0, 0xF3, 0x7D, 0x49, 0xB5, 0x2C, 0x61, 0x72]
  {
    hide Rounds, Sum;
    FirstEight();
    SecondEight();
    ThirdEight();
    FourthEight();
  }

  class SymmetricKey {
    const key: Key

    constructor (key: Key)
      ensures this.key == key
    {
      this.key := key;
    }

    /** Encrypts the first eight bytes. */
    method Encrypt(data: array<Byte>)
      requires data.Length >= 8
      modifies data
      ensures data[..8] == Encrypted(key, old(data[..8])) && data[8..] == old(data[8..])
    {
      hide Add, Sub, EvenPart, OddPart, Load, Store, Joined;
      var sum: Word := 0;
      var v0, v1 := LoadAt(data, 0), LoadAt(data, 4);
      ghost var h := Split(data[..8]);
      assert data[..8][..4] == data[0..4] && data[..8][4..] == data[4..8];
      for i := 0 to 32
        invariant Halves(v0, v1) == Rounds(key, h, i) && sum == Sum(i) && data[..] == old(data[..])
      {
        v0 := Add(v0, EvenPart(key, v1, sum));
        sum := Add(sum, DELTA);
        v1 := Add(v1, OddPart(key, v0, sum));
      }
      StoreBlock(data, v0, v1);
    }

    /** Decrypts the first eight bytes. */
    method Decrypt(data: array<Byte>)
      requires data.Length >= 8
      modifies data
      ensures data[..8] == Decrypted(key, old(data[..8])) && data[8..] == old(data[8..])
    {
      hide Add, Sub, EvenPart, OddPart, Load, Store, Joined;
      var sum: Word := 0xC6EF_3720;
      LastSum();
      var v0, v1 := LoadAt(data, 0), LoadAt(data, 4);
      ghost var h := Split(data[..8]);
      assert data[..8][..4] == data[0..4] && data[..8][4..] == data[4..8];
      for i := 0 to 32
        invariant Halves(v0, v1) == RoundsBack(key, h, 32, 32 - i) && sum == Sum(32 - i) && data[..] == old(data[..])
      {
        AddSub(Sum(31 - i), DELTA);
        v1 := Sub(v1, OddPart(key, v0, sum));
        sum := Sub(sum, DELTA);
        v0 := Sub(v0, EvenPart(key, v1, sum));
      }
      StoreBlock(data, v0, v1);
    }

    function LoadAt(data: array<Byte>, at: nat): Word
      requires at + 4 <= data.Length
      reads data
    {
      Load(data[at..at + 4])
    }

    method StoreBlock(data: array<Byte>, v0: Word, v1: Word)
      requires data.Length >= 8
      modifies data
      ensures data[..8] == Joined(Halves(v0, v1)) && data[8..] == old(data[8..])
    {
      hide Store;
      var block := Store(v0) + Store(v1);
      forall i | 0 <= i < 8 {
        data[i] := block[i];
      }
    }
  }
}
