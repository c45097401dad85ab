/**
  Byte streams: numbers in little endian order, and strings behind their length.  What
  is written to a growing buffer is read back from its bytes.
*/
module Streams {
  import opened Common

  type Byte = b: int | 0 <= b < 0x100
  type Word = w: int | 0 <= w < 0x1_0000
  type Quad = q: int | 0 <= q < 0x1_0000_0000

  /** Strings have no zero byte inside, and their length fits into a signed number. */
  type Text = s: seq<Byte> | 0 !in s && |s| < 0x8000_0000 witness []

  datatype Item = Flag(flag: bool) | Number8(byte: Byte) | Number16(word: Word) | Number32(quad: Quad)
                | String(text: Text) | Bytes(bytes: seq<Byte>)

  // ---------------------------------------------------------- what is written

  function EncodeWord(w: Word): (r: seq<Byte>)
    ensures |r| == 2
  {
    [w % 0x100, w / 0x100]
  }

  function EncodeQuad(q: Quad): (r: seq<Byte>)
    ensures |r| == 4
  {
    [q % 0x100, q / 0x100 % 0x100, q / 0x1_0000 % 0x100, q / 0x100_0000]
  }

  function EncodeLength(n: nat): seq<Byte>
    requires n < 0x8000_0000
  {
    if n < 0xFFFF then EncodeWord(n) else EncodeWord(0xFFFF) + EncodeQuad(n)
  }

  function Encode(item: Item): seq<Byte> {
    match item
    case Flag(flag) => [if flag then 1 else 0]
    case Number8(byte) => [byte]
    case Number16(word) => EncodeWord(word)
    case Number32(quad) => EncodeQuad(quad)
    case String(text) => EncodeLength(|text|) + text
    case Bytes(bytes) => bytes
  }

  function EncodeAll(items: seq<Item>): seq<Byte> {
    if items == [] then [] else Encode(items[0]) + EncodeAll(items[1..])
  }

  // ---------------------------------------------------------- what is read

  /** The value that was read, none for an error, and the bytes that are still to be read. */
  datatype Reading<T> = Reading(value: Option<T>, rest: seq<Byte>)

  function Join(b0: Byte, b1: Byte): Word {
    var high: int := b1;
    high * 0x100 + b0
  }

  function Join4(b0: Byte, b1: Byte, b2: Byte, b3: Byte): Quad {
    var c3: int, c2: int, c1: int := b3, b2, b1;
    c3 * 0x100_0000 + c2 * 0x1_0000 + c1 * 0x100 + b0
  }

  function ParseWord(s: seq<Byte>): Reading<Word> {
    if |s| < 2 then Reading(None, s) else Reading(Some(Join(s[0], s[1])), s[2..])
  }

  function ParseQuad(s: seq<Byte>): Reading<Quad> {
    if |s| < 4 then Reading(None, s)
    else Reading(Some(Join4(s[0], s[1], s[2], s[3])), s[4..])
  }

  /** Reading no bytes at all is an error. */
  function ParseBytes(count: int, s: seq<Byte>): Reading<seq<Byte>> {
    if count <= 0 || |s| < count then Reading(None, s) else Reading(Some(s[..count]), s[count..])
  }

  /** A quad as a signed number. */
  function Signed(q: Quad): int {
    if q < 0x8000_0000 then q else q - 0x1_0000_0000
  }

  function ParseLength(s: seq<Byte>): (r: Reading<int>)
    ensures r.value.Some? ==> r.value.value < 0x8000_0000
    ensures r.value.Some? ==> |r.rest| < |s| && r.rest == s[|s| - |r.rest|..]
    ensures r.value.None? ==> |r.rest| <= |s| && r.rest == s[|s| - |r.rest|..]
  {
    var w := ParseWord(s);
    if w.value.None? then Reading(None, s)
    else if w.value.value < 0xFFFF then Reading(Some(w.value.value), w.rest)
    else
      var q := ParseQuad(w.rest);
      if q.value.None? then Reading(None, w.rest) else Reading(Some(Signed(q.value.value)), q.rest)
  }

  /** A string for a buffer of `max` bytes, its terminator included; a negative `max` is no limit. */
  function ParseString(max: int, s: seq<Byte>): (r: Reading<seq<Byte>>)
    ensures r.value.Some? ==> |r.value.value| < 0x8000_0000
  {
    var n := ParseLength(s);
    if max == 0 then Reading(None, s)
    else if n.value.None? then Reading(None, n.rest)
    else if n.value.value <= 0 then Reading(Some([]), n.rest)
    else ParseText(max, n.value.value, n.rest)
  }

  function ParseText(max: int, length: int, s: seq<Byte>): (r: Reading<seq<Byte>>)
    requires max != 0 && length > 0
    ensures r.value.Some? ==> |r.value.value| <= length
  {
    if max < 0 || max > length then ParseBytes(length, s)
    else
      var b := ParseBytes(max - 1, s);
      if b.value.None? || |b.rest| < length - max + 1 then Reading(None, b.rest)
      else Reading(b.value, b.rest[length - max + 1..])
  }

  // ---------------------------------------------------------- single bytes

  /** Numbers are written with the lowest byte first. */
  lemma NumberBytes(w: Word, q: Quad)
    ensures var r := EncodeWord(w);
      r[0] as int + 0x100 * r[1] as int == w
    ensures var r := EncodeQuad(q);
      r[0] as int + 0x100 * r[1] as int + 0x1_0000 * r[2] as int + 0x100_0000 * r[3] as int == q
  {
    hide EncodeQuad;
    QuadJoins(q);
  }

  /** A length takes two bytes, or six from 0xFFFF on, of which the first two are 0xFF. */
  lemma LengthBytes(n: nat)
    requires n < 0x8000_0000
    ensures var r := EncodeLength(n);
      if n < 0xFFFF then |r| == 2 && r[0] as int + 0x100 * r[1] as int == n
      else
        && |r| == 6 && r[0] == r[1] == 0xFF
        && r[2] as int + 0x100 * r[3] as int + 0x1_0000 * r[4] as int + 0x100_0000 * r[5] as int == n
  {
    hide EncodeQuad;
    NumberBytes(0, n);
  }

  /** The length that any bytes begin with; one with the highest bit set is negative. */
  lemma ParsedLength(s: seq<Byte>)
    ensures var r := ParseLength(s);
      if |s| < 2 then r == Reading(None, s)
      else if s[0] < 0xFF || s[1] < 0xFF then r == Reading(Some(s[0] as int + 0x100 * s[1] as int), s[2..])
      else if |s| < 6 then r == Reading(None, s[2..])
      else
        var n := s[2] as int + 0x100 * s[3] as int + 0x1_0000 * s[4] as int + 0x100_0000 * s[5] as int;
        r == Reading(Some(if n < 0x8000_0000 then n else n - 0x1_0000_0000), s[6..])
  {
  }

  // ---------------------------------------------------------- round trips

  lemma WordRound(w: Word, tail: seq<Byte>)
    ensures ParseWord(EncodeWord(w) + tail) == Reading(Some(w), tail)
  {
    assert (EncodeWord(w) + tail)[2..] == tail;
  }

  /** The four bytes of a quad join to it. */
  lemma QuadJoins(q: Quad)
    ensures var e := EncodeQuad(q); Join4(e[0], e[1], e[2], e[3]) == q
  {
    var c1: int := q / 0x100;
    var c2: int := c1 / 0x100;
    var c3: int := c2 / 0x100;
    assert c2 == q / 0x1_0000 && c3 == q / 0x100_0000;
  }

  /** Four bytes are those of the quad they join to. */
  lemma QuadSplits(b0: Byte, b1: Byte, b2: Byte, b3: Byte)
    ensures EncodeQuad(Join4(b0, b1, b2, b3)) == [b0, b1, b2, b3]
  {
    var q: int := Join4(b0, b1, b2, b3);
    Cut(q, ((b3 as int) * 0x100 + b2) * 0x100 + b1, b0);
    Cut(q / 0x100, (b3 as int) * 0x100 + b2, b1);
    Cut(q / 0x100 / 0x100, b3, b2);
    assert q / 0x100 / 0x100 == q / 0x1_0000 && q / 0x1_0000 / 0x100 == q / 0x100_0000;
  }

  lemma Cut(q: int, high: int, low: Byte)
    requires q == high * 0x100 + low
    ensures q / 0x100 == high && q % 0x100 == low
  {
  }

  lemma QuadRound(q: Quad, tail: seq<Byte>)
    ensures ParseQuad(EncodeQuad(q) + tail) == Reading(Some(q), tail)
  {
    hide EncodeQuad;
    QuadJoins(q);
    assert (EncodeQuad(q) + tail)[4..] == tail && (EncodeQuad(q) + tail)[..4] == EncodeQuad(q);
  }

  /** Every length comes back, also those behind the escape. */
  lemma LengthRound(n: nat, tail: seq<Byte>)
    requires n < 0x8000_0000
    ensures ParseLength(EncodeLength(n) + tail) == Reading(Some(n), tail)
  {
    if n < 0xFFFF {
      WordRound(n, tail);
    } else {
      assert EncodeLength(n) + tail == EncodeWord(0xFFFF) + (EncodeQuad(n) + tail);
      WordRound(0xFFFF, EncodeQuad(n) + tail);
      QuadRound(n, tail);
    }
  }

  /** What a buffer of `max` bytes keeps of a string. */
  function Kept(text: Text, max: int): (r: seq<Byte>)
    ensures 0 !in r && |r| <= |text|
  {
    if max < 0 || max > |text| then text else if max == 0 then [] else text[..max - 1]
  }

  /**
    A string that is read with a limit is cut to what the buffer holds, and the
    reader stands exactly behind it.  This holds if and only if the buffer has room
    for more than the terminator, or the string is empty and there is room for that.
  */
  lemma StringRound(text: Text, max: int, tail: seq<Byte>)
    ensures var read := ParseString(max, Encode(String(text)) + tail);
      (read == Reading(Some(Kept(text, max)), tail)) <==> (max != 0 && (max != 1 || text == []))
    ensures (max == 0 || (max == 1 && text != [])) ==> ParseString(max, Encode(String(text)) + tail).value.None?
  {
    hide EncodeLength, ParseText, ParseLength;
    assert Encode(String(text)) + tail == EncodeLength(|text|) + (text + tail);
    LengthRound(|text|, text + tail);
    if text != [] {
      if max != 0 {
        TextRound(text, max, tail);
      }
    } else {
      assert text + tail == tail;
    }
  }

  lemma TextRound(text: seq<Byte>, max: int, tail: seq<Byte>)
    requires max != 0 && text != []
    ensures (max < 0 || max > |text|) ==> ParseText(max, |text|, text + tail) == Reading(Some(text), tail)
    ensures 2 <= max <= |text| ==> ParseText(max, |text|, text + tail) == Reading(Some(text[..max - 1]), tail)
    ensures max == 1 ==> ParseText(max, |text|, text + tail).value.None?
  {
    hide ParseText;
    if max < 0 || max > |text| {
      WholeText(text, max, tail);
    } else if max >= 2 {
      CutText(text, max, tail);
    } else {
      NoText(|text|, text + tail);
    }
  }

  lemma WholeText(text: seq<Byte>, max: int, tail: seq<Byte>)
    requires text != [] && (max < 0 || max > |text|)
    ensures ParseText(max, |text|, text + tail) == Reading(Some(text), tail)
  {
    hide ParseBytes;
    Front(text, tail, |text|);
    assert text[..|text|] == text;
  }

  lemma CutText(text: seq<Byte>, max: int, tail: seq<Byte>)
    requires 2 <= max <= |text|
    ensures ParseText(max, |text|, text + tail) == Reading(Some(text[..max - 1]), tail)
  {
    hide ParseBytes;
    Front(text, tail, max - 1);
    DropJoined(text[max - 1..], tail);
  }

  lemma NoText(length: nat, s: seq<Byte>)
    requires length > 0
    ensures ParseText(1, length, s).value.None?
  {
  }

  /** The first bytes of a longer sequence. */
  lemma Front(text: seq<Byte>, tail: seq<Byte>, count: nat)
    requires 0 < count <= |text|
    ensures ParseBytes(count, text + tail) == Reading(Some(text[..count]), text[count..] + tail)
    ensures count == |text| ==> text[count..] + tail == tail
  {
    assert text + tail == text[..count] + (text[count..] + tail);
    DropJoined(text[..count], text[count..] + tail);
    assert count == |text| ==> text[count..] == [];
  }

  lemma DropJoined(a: seq<Byte>, b: seq<Byte>)
    ensures (a + b)[|a|..] == b && (a + b)[..|a|] == a
  {
  }

  /** How an item is asked for: strings with a limit, bytes with their number. */
  datatype Request = AskFlag | Ask8 | Ask16 | Ask32 | AskString(max: int) | AskBytes(count: int)

  /** The request is of the item's kind, and bytes are asked for by their number. */
  predicate Suits(item: Item, ask: Request) {
    match item
    case Flag(_) => ask.AskFlag?
    case Number8(_) => ask.Ask8?
    case Number16(_) => ask.Ask16?
    case Number32(_) => ask.Ask32?
    case String(_) => ask.AskString?
    case Bytes(bytes) => ask.AskBytes? && ask.count == |bytes|
  }

  /** A request that can be met: no empty bytes, and room for a string's terminator and more. */
  predicate Answers(item: Item, ask: Request) {
    && Suits(item, ask)
    && (item.String? ==> ask.max != 0 && (ask.max != 1 || item.text == []))
    && (item.Bytes? ==> item.bytes != [])
  }

  /** What a request gets: strings are cut to their limit. */
  function Got(item: Item, ask: Request): Item
    requires Suits(item, ask)
  {
    if item.String? then String(Kept(item.text, ask.max)) else item
  }

  function Parse(ask: Request, s: seq<Byte>): Reading<Item> {
    match ask
    case AskFlag => if |s| < 1 then Reading(None, s) else Reading(Some(Flag(s[0] != 0)), s[1..])
    case Ask8 => if |s| < 1 then Reading(None, s) else Reading(Some(Number8(s[0])), s[1..])
    case Ask16 => var r := ParseWord(s); if r.value.Some? then Reading(Some(Number16(r.value.value)), r.rest) else Reading(None, r.rest)
    case Ask32 => var r := ParseQuad(s); if r.value.Some? then Reading(Some(Number32(r.value.value)), r.rest) else Reading(None, r.rest)
    case AskString(max) =>
      var r := ParseString(max, s);
      if r.value.Some? then Reading(Some(String(Until(r.value.value))), r.rest) else Reading(None, r.rest)
    case AskBytes(count) =>
      var r := ParseBytes(count, s);
      if r.value.Some? then Reading(Some(Bytes(r.value.value)), r.rest) else Reading(None, r.rest)
  }

  /** The string in a buffer ends at the first zero byte. */
  function Until(s: seq<Byte>): (r: seq<Byte>)
    ensures 0 !in r && |r| <= |s|
  {
    if s == [] || s[0] == 0 then [] else [s[0]] + Until(s[1..])
  }

  lemma {:induction false} UntilIsAll(text: seq<Byte>)
    requires 0 !in text
    ensures Until(text) == text
  {
    if text != [] {
      UntilIsAll(text[1..]);
    }
  }

  lemma ItemRound(item: Item, ask: Request, tail: seq<Byte>)
    requires Suits(item, ask)
    ensures Answers(item, ask) ==> Parse(ask, Encode(item) + tail) == Reading(Some(Got(item, ask)), tail)
    ensures !Answers(item, ask) ==> Parse(ask, Encode(item) + tail).value == None
  {
    hide EncodeWord, EncodeQuad, EncodeLength, ParseWord, ParseQuad, ParseString, Until, Kept;
    match item
    case Number16(word) => WordRound(word, tail);
    case Number32(quad) => QuadRound(quad, tail);
    case String(text) =>
      StringRound(text, ask.max, tail);
      UntilIsAll(Kept(text, ask.max));
    case Bytes(bytes) =>
      assert (bytes + tail)[..|bytes|] == bytes && (bytes + tail)[|bytes|..] == tail;
    case _ =>
      assert (Encode(item) + tail)[1..] == tail;
  }

  predicate AllSuit(items: seq<Item>, asks: seq<Request>) {
    |asks| == |items| && forall i :: 0 <= i < |items| ==> Suits(items[i], asks[i])
  }

  predicate AllAnswer(items: seq<Item>, asks: seq<Request>)
    requires |asks| == |items|
  {
    forall i :: 0 <= i < |items| ==> Answers(items[i], asks[i])
  }

  function GotAll(items: seq<Item>, asks: seq<Request>): seq<Item>
    requires AllSuit(items, asks)
  {
    seq(|items|, i requires 0 <= i < |items| => Got(items[i], asks[i]))
  }

  function ParseAll(asks: seq<Request>, s: seq<Byte>): Reading<seq<Item>> {
    if asks == [] then Reading(Some([]), s)
    else
      var r := Parse(asks[0], s);
      if r.value.None? then Reading(None, r.rest)
      else
        var more := ParseAll(asks[1..], r.rest);
        if more.value.None? then more else Reading(Some([r.value.value] + more.value.value), more.rest)
  }

  /**
    Whatever was written in whatever order comes back, strings cut to their limits,
    and nothing else is read; if and only if every request can be met.
  */
  lemma {:induction false} RoundTrip(items: seq<Item>, asks: seq<Request>, tail: seq<Byte>)
    requires AllSuit(items, asks)
    ensures AllAnswer(items, asks) ==> ParseAll(asks, EncodeAll(items) + tail) == Reading(Some(GotAll(items, asks)), tail)
    ensures !AllAnswer(items, asks) ==> ParseAll(asks, EncodeAll(items) + tail).value == None
    decreases |items|
  {
    hide Parse, Got, Answers, Suits, Encode;
    if items == [] {
      assert EncodeAll(items) + tail == tail;
    } else {
      var more := EncodeAll(items[1..]) + tail;
      assert EncodeAll(items) + tail == Encode(items[0]) + more;
      ItemRound(items[0], asks[0], more);
      RoundTrip(items[1..], asks[1..], tail);
      assert GotAll(items, asks) == [Got(items[0], asks[0])] + GotAll(items[1..], asks[1..]);
      assert AllAnswer(items, asks) <==> Answers(items[0], asks[0]) && AllAnswer(items[1..], asks[1..]);
    }
  }

  // ---------------------------------------------------------- the writer

  class DynamicWriteBuffer {
    var data: array<Byte>
    var position: nat

    ghost predicate Valid()
      reads this
    {
      position <= data.Length && data.Length > 0
    }

    ghost function Written(): seq<Byte>
      requires Valid()
      reads this, data
    {
      data[..position]
    }

    constructor (initialSize: nat)
      requires initialSize > 0
      ensures Valid() && fresh(data) && Written() == []
    {
      data := new Byte[initialSize](_ => 0);
      position := 0;
    }

    method ResizeBuffer()
      requires Valid()
      modifies this
      ensures Valid() && fresh(data) && Written() == old(Written()) && data.Length == 2 * old(data.Length)
    {
      var smaller := data;
      var bigger := new Byte[data.Length * 2](_ => 0);
      forall i | 0 <= i < smaller.Length {
        bigger[i] := smaller[i];
      }
      data := bigger;
      assert bigger[..position] == smaller[..position];
    }

    /** Makes room for some more bytes. */
    method Reserve(count: nat)
      requires Valid()
      modifies this
      ensures Valid() && Written() == old(Written()) && (data == old(data) || fresh(data)) && data.Length - position >= count
    {
      while data.Length - position < count
        invariant Valid() && Written() == old(Written()) && (data == old(data) || fresh(data))
        decreases count - (data.Length - position)
      {
        ResizeBuffer();
      }
    }

    method WriteByte(b: Byte)
      requires Valid()
      modifies this, data
      ensures Valid() && (data == old(data) || fresh(data)) && Written() == old(Written()) + [b]
    {
      Reserve(1);
      data[position] := b;
      position := position + 1;
    }

    method WriteFlag(flag: bool)
      requires Valid()
      modifies this, data
      ensures Valid() && (data == old(data) || fresh(data)) && Written() == old(Written()) + Encode(Flag(flag))
      ensures Written() == old(Written()) + [if flag then 1 else 0]
    {
      WriteByte(if flag then 1 else 0);
    }

    method WriteWord(w: Word)
      requires Valid()
      modifies this, data
      ensures Valid() && (data == old(data) || fresh(data)) && Written() == old(Written()) + EncodeWord(w)
    {
      Reserve(2);
      data[position] := w % 0x100;
      data[position + 1] := w / 0x100;
      position := position + 2;
    }

    method WriteQuad(q: Quad)
      requires Valid()
      modifies this, data
      ensures Valid() && (data == old(data) || fresh(data)) && Written() == old(Written()) + EncodeQuad(q)
    {
      Reserve(4);
      data[position] := q % 0x100;
      data[position + 1] := q / 0x100 % 0x100;
      data[position + 2] := q / 0x1_0000 % 0x100;
      data[position + 3] := q / 0x100_0000;
      position := position + 4;
    }

    method WriteBytes(bytes: seq<Byte>)
      requires Valid()
      modifies this, data
      ensures Valid() && (data == old(data) || fresh(data)) && Written() == old(Written()) + bytes
    {
      Reserve(|bytes|);
      forall i | 0 <= i < |bytes| {
        data[position + i] := bytes[i];
      }
      position := position + |bytes|;
    }

    /** A string behind its length; no string at all is written as an empty one. */
    method WriteString(text: Option<Text>)
      requires Valid()
      modifies this, data
      ensures Valid() && (data == old(data) || fresh(data))
      ensures Written() == old(Written()) + Encode(String(if text.Some? then text.value else []))
    {
      hide Encode, EncodeLength, EncodeWord, EncodeQuad;
      ghost var before := Written();
      if text.None? {
        EmptyString();
        WriteWord(0);
        return;
      }
      var length := |text.value|;
      WriteLength(length);
      StringBehindLength(before, text.value);
      if length > 0 {
        WriteBytes(text.value);
      }
    }

    method WriteLength(length: nat)
      requires Valid() && length < 0x8000_0000
      modifies this, data
      ensures Valid() && (data == old(data) || fresh(data)) && Written() == old(Written()) + EncodeLength(length)
    {
      hide EncodeWord, EncodeQuad;
      if length < 0xFFFF {
        WriteWord(length);
      } else {
        WriteWord(0xFFFF);
        WriteQuad(length);
      }
    }
  }

  lemma EmptyString()
    ensures Encode(String([])) == EncodeWord(0)
  {
  }

  lemma StringBehindLength(before: seq<Byte>, text: Text)
    ensures before + EncodeLength(|text|) + text == before + Encode(String(text))
    ensures text == [] ==> before + EncodeLength(|text|) == before + Encode(String(text))
  {
    hide EncodeLength;
    assert text == [] ==> EncodeLength(|text|) + text == EncodeLength(|text|);
  }

  lemma BytesRead(count: int, s: seq<Byte>)
    ensures var r := ParseBytes(count, s); r.value.Some? ==> |r.value.value| == count
  {
  }

  // ---------------------------------------------------------- the reader

  class ReadBuffer {
    const data: seq<Byte>
    var position: int

    ghost predicate Valid()
      reads this
    {
      0 <= position <= |data|
    }

    ghost function Rest(): seq<Byte>
      requires Valid()
      reads this
    {
      data[position..]
    }

    constructor (data: seq<Byte>)
      ensures Valid() && Rest() == data
    {
      this.data := data;
      position := 0;
    }

    method Eof() returns (eof: bool)
      requires Valid()
      ensures eof <==> Rest() == []
    {
      return |data| <= position;
    }

    method ReadByte() returns (r: Option<Byte>)
      requires Valid()
      modifies this
      ensures Valid() && (r.Some? <==> old(Rest()) != [])
      ensures if r.Some? then old(Rest()) == [r.value] + Rest() else Rest() == old(Rest())
    {
      if |data| - position < 1 {
        return None;
      }
      r := Some(data[position]);
      position := position + 1;
    }

    method ReadFlag() returns (r: Option<bool>)
      requires Valid()
      modifies this
      ensures Valid() && (r.Some? <==> old(Rest()) != [])
      ensures if r.Some? then Rest() == old(Rest())[1..] && (r.value <==> old(Rest())[0] != 0) else Rest() == old(Rest())
    {
      var b := ReadByte();
      return if b.Some? then Some(b.value != 0) else None;
    }

    method ReadWord() returns (r: Option<Word>)
      requires Valid()
      modifies this
      ensures Valid() && Reading(r, Rest()) == ParseWord(old(Rest()))
    {
      if |data| - position < 2 {
        return None;
      }
      r := Some(Join(data[position], data[position + 1]));
      position := position + 2;
    }

    method ReadQuad() returns (r: Option<Quad>)
      requires Valid()
      modifies this
      ensures Valid() && Reading(r, Rest()) == ParseQuad(old(Rest()))
    {
      if |data| - position < 4 {
        return None;
      }
      r := Some(Join4(data[position], data[position + 1], data[position + 2], data[position + 3]));
      position := position + 4;
    }

    /** Fills the front of a buffer. */
    method ReadBytes(buffer: array<Byte>, count: int) returns (ok: bool)
      requires Valid() && count <= buffer.Length
      modifies this, buffer
      ensures Valid() && Rest() == ParseBytes(count, old(Rest())).rest && (ok <==> ParseBytes(count, old(Rest())).value.Some?)
      ensures ok ==> buffer[..count] == ParseBytes(count, old(Rest())).value.value && buffer[count..] == old(buffer[count..])
      ensures !ok ==> buffer[..] == old(buffer[..])
    {
      if count <= 0 {
        return false;
      }
      if |data| - position < count {
        return false;
      }
      forall i | 0 <= i < count {
        buffer[i] := data[position + i];
      }
      position := position + count;
      return true;
    }

    /** A negative count moves back, perhaps in front of the first byte. */
    method Skip(count: int) returns (ok: bool)
      requires Valid()
      modifies this
      ensures Valid() <==> !ok || old(position) + count >= 0
      ensures (ok <==> count <= |old(Rest())|) && position == old(position) + if ok then count else 0
      ensures ok && count >= 0 ==> Rest() == old(Rest())[count..]
    {
      if |data| - position < count {
        return false;
      }
      position := position + count;
      return true;
    }

    /**
      Reads a string with its terminator into a buffer of `max` bytes; a negative `max`
      promises a buffer that is large enough.
    */
    method ReadString(buffer: array<Byte>, max: int) returns (ok: bool)
      requires Valid() && max <= buffer.Length
      requires max < 0 ==> var r := ParseLength(Rest()); r.value.Some? ==> r.value.value < buffer.Length && 0 < buffer.Length
      modifies this, buffer
      ensures Valid() && Rest() == ParseString(max, old(Rest())).rest && (ok <==> ParseString(max, old(Rest())).value.Some?)
      ensures ok ==> var s := ParseString(max, old(Rest())).value.value;
        |s| < buffer.Length && buffer[..|s| + 1] == s + [0]
    {
      hide ParseBytes, ParseLength, ParseText;
      if max == 0 {
        return false;
      }
      var length;
      ok, length := ReadLength();
      if !ok {
        return;
      }
      if length > 0 {
        ok := ReadText(buffer, max, length);
      } else {
        buffer[0] := 0;
      }
    }

    method Terminate(buffer: array<Byte>, length: nat)
      requires length < buffer.Length
      modifies buffer
      ensures buffer[..length + 1] == old(buffer[..length]) + [0]
    {
      buffer[length] := 0;
    }

    /** The characters of a string of known length, as far as the buffer holds them. */
    method ReadText(buffer: array<Byte>, max: int, length: int) returns (ok: bool)
      requires Valid() && max <= buffer.Length && max != 0 && length > 0 && (max < 0 ==> length < buffer.Length)
      modifies this, buffer
      ensures Valid() && Rest() == ParseText(max, length, old(Rest())).rest
      ensures ok <==> ParseText(max, length, old(Rest())).value.Some?
      ensures ok ==> var s := ParseText(max, length, old(Rest())).value.value;
        |s| < buffer.Length && buffer[..|s| + 1] == s + [0]
    {
      hide ParseBytes;
      ghost var start := Rest();
      BytesRead(if max < 0 || max > length then length else max - 1, start);
      if max < 0 || max > length {
        ok := ReadBytes(buffer, length);
        if ok {
          Terminate(buffer, length);
        }
      } else {
        ok := ReadBytes(buffer, max - 1);
        if ok {
          ok := Skip(length - max + 1);
          if ok {
            Terminate(buffer, max - 1);
          }
        }
      }
    }

    method ReadLength() returns (ok: bool, length: int)
      requires Valid()
      modifies this
      ensures Valid() && Reading(if ok then Some(length) else None, Rest()) == ParseLength(old(Rest()))
    {
      var w := ReadWord();
      if w.None? {
        return false, 0;
      }
      length := w.value;
      if length == 0xFFFF {
        var q := ReadQuad();
        if q.None? {
          return false, 0;
        }
        length := Signed(q.value);
      }
      return true, length;
    }
  }
}
