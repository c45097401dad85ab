/**
  The lock-free ring buffer between one producer and one consumer thread.

  Both threads are split into their atomic steps: the load of the own position,
  the load of the other thread's position, the copying of single bytes, and the
  store of the own position.  A load of the other thread's position may return
  an old value, but never one older than the thread has already seen.  Positions
  are unsigned 32-bit counters that wrap around.
*/
module SpscRing {
  import opened Common

  type Byte = bv8

  // ------------------------------------------------------- 32-bit arithmetic

  function Pow2(k: nat): (r: nat)
    ensures r > 0
  {
    if k == 0 then 1 else 2 * Pow2(k - 1)
  }

  /** Unsigned subtraction of positions. */
  function Minus(a: nat, b: nat): nat {
    (a - b) % TWO_TO_32
  }

  lemma {:induction false} PowersMultiply(a: nat, b: nat)
    ensures Pow2(a + b) == Pow2(a) * Pow2(b)
  {
    if a > 0 {
      PowersMultiply(a - 1, b);
      assert Pow2(a + b) == 2 * Pow2(a - 1 + b);
    }
  }

  lemma Pow2Of32()
    ensures Pow2(32) == TWO_TO_32
  {
    assert Pow2(4) == 16;
    PowersMultiply(4, 4);
    PowersMultiply(8, 8);
    PowersMultiply(16, 16);
  }

  /** Masking a wrapped position is masking the position itself. */
  lemma WrapThenMask(x: nat, k: nat)
    requires k <= 32
    ensures (x % TWO_TO_32) % Pow2(k) == x % Pow2(k)
  {
    Pow2Of32();
    PowersMultiply(k, 32 - k);
    ModOfMod(x, Pow2(k), Pow2(32 - k));
  }

  lemma ModOfMod(x: nat, a: nat, b: nat)
    requires a > 0 && b > 0
    ensures (x % (a * b)) % a == x % a
  {
    var m := a * b;
    var y := x % m;
    var q := x / m;
    assert x == m * q + y;
    assert m * q == a * (b * q);
    ModShift(y, a, b * q);
  }

  lemma {:induction false} ModShift(y: nat, a: nat, n: nat)
    requires a > 0
    ensures (y + a * n) % a == y % a
    decreases n
  {
    if n > 0 {
      ModShift(y, a, n - 1);
      assert y + a * n == (y + a * (n - 1)) + a;
      AddModulus(y + a * (n - 1), a);
    }
  }

  lemma AddModulus(z: nat, a: nat)
    requires a > 0
    ensures (z + a) % a == z % a
  {
    var q, r := z / a, z % a;
    assert z == a * q + r;
    assert z + a == a * (q + 1) + r;
    UniqueRemainder(z + a, a, q + 1, r);
  }

  lemma UniqueRemainder(x: nat, a: nat, q: int, r: nat)
    requires a > 0 && x == a * q + r && r < a
    ensures x % a == r
  {
    Division(x, a);
    OnlyOneQuotient(a, q, r, x / a, x % a);
  }

  lemma Division(x: nat, a: nat)
    requires a > 0
    ensures x == a * (x / a) + x % a && 0 <= x % a < a
  {
  }

  lemma OnlyOneQuotient(a: nat, q: int, r: nat, p: int, s: nat)
    requires a > 0 && a * q + r == a * p + s && r < a && s < a
    ensures q == p && r == s
  {
    assert a * (q - p) == s - r;
    if q > p {
      Larger(a, q - p);
    } else if q < p {
      assert a * (p - q) == r - s;
      Larger(a, p - q);
    }
  }

  lemma Larger(a: nat, d: int)
    requires d >= 1
    ensures a * d >= a
  {
  }

  /** The difference of wrapped positions is the difference of the positions. */
  lemma WrappedDifference(a: nat, b: nat)
    requires b <= a < b + TWO_TO_32
    ensures Minus(a % TWO_TO_32, b % TWO_TO_32) == a - b
  {
  }

  /** The cell of the `j`-th byte of a copy that starts at position `pos`: the copy
      goes to the end of the buffer first and then continues at its beginning. */
  function Cell(size: nat, pos: nat, j: nat): int
    requires size > 0
  {
    var at := pos % size;
    var first := size - at;
    if j < first then at + j else j - first
  }

  lemma CellArithmetic(size: nat, pos: nat, x: nat, j: nat)
    requires size > 0 && j < size && pos % size == x % size
    ensures Cell(size, pos, j) == (x + j) % size
  {
    Division(x, size);
    var q, at := x / size, x % size;
    if at + j < size {
      UniqueRemainder(x + j, size, q, at + j);
    } else {
      assert size * (q + 1) == size * q + size;
      UniqueRemainder(x + j, size, q + 1, at + j - size);
    }
  }

  /** The cell of an unwrapped position. */
  function Slot(exp: nat, k: nat): (r: nat)
    ensures r < Pow2(exp)
  {
    k % Pow2(exp)
  }

  lemma CellIsSlot(k: nat, x: nat, j: nat)
    requires k <= 32 && j < Pow2(k)
    ensures Cell(Pow2(k), x % TWO_TO_32, j) == Slot(k, x + j)
  {
    hide Pow2, Cell;
    WrapThenMask(x, k);
    CellArithmetic(Pow2(k), x % TWO_TO_32, x, j);
  }

  /** Positions less than a buffer apart use different cells. */
  lemma SlotsDiffer(exp: nat, a: nat, b: nat)
    requires a < b < a + Pow2(exp)
    ensures Slot(exp, a) != Slot(exp, b)
  {
    var size := Pow2(exp);
    hide Pow2;
    if a % size == b % size {
      Division(a, size);
      Division(b, size);
      var d := b / size - a / size;
      Distribute(size, b / size, a / size);
      Positive(size, d);
      Larger(size, d);
    }
  }

  lemma Distribute(a: int, b: int, c: int)
    ensures a * (b - c) == a * b - a * c
  {
  }

  lemma Positive(a: nat, d: int)
    requires a * d > 0
    ensures d >= 1
  {
  }

  // ------------------------------------------------------------- the machine

  datatype Producer =
    | PIdle
    | PLoaded(data: seq<Byte>, w: nat)
    | PCopying(data: seq<Byte>, w: nat, i: nat)

  datatype Consumer =
    | CIdle
    | CLoaded(maxLen: nat, r: nat)
    | CCopying(maxLen: nat, r: nat, avail: nat, out: seq<Byte>)

  /** `writePos`, `readPos` and `buffer` are the memory of the buffer.  The other
      fields record the past: all bytes whose write has been published, all bytes
      whose read has been published, and the latest positions each side has seen
      of the other. */
  datatype State = State(
    exp: nat,
    buffer: seq<Byte>,
    writePos: nat,
    readPos: nat,
    producer: Producer,
    consumer: Consumer,
    written: seq<Byte>,
    consumed: seq<Byte>,
    seenByProducer: nat,
    seenByConsumer: nat)

  function Size(s: State): (r: nat)
    ensures r > 0
  {
    Pow2(s.exp)
  }

  predicate IsInit(s: State) {
    && 1 <= s.exp <= 31 && |s.buffer| == Size(s)
    && s.writePos == 0 && s.readPos == 0 && s.producer.PIdle? && s.consumer.CIdle?
    && s.written == [] && s.consumed == [] && s.seenByProducer == 0 && s.seenByConsumer == 0
  }

  function FreeSpace(s: State, w: nat, r: nat): int {
    (Size(s) - 1) - Minus(w, r)
  }

  /** `write` is called with at least one byte and loads its own position. */
  predicate BeginWrite(s: State, t: State, data: seq<Byte>) {
    s.producer.PIdle? && 0 < |data| < 0x8000_0000 && t == s.(producer := PLoaded(data, s.writePos))
  }

  /** The producer loads the read position, perhaps an old one, and either gives
      up or starts to copy. */
  predicate CheckSpace(s: State, t: State, seen: nat) {
    && s.producer.PLoaded? && s.seenByProducer <= seen <= |s.consumed|
    && if |s.producer.data| > FreeSpace(s, s.producer.w, seen % TWO_TO_32)
       then t == s.(producer := PIdle, seenByProducer := seen)
       else t == s.(producer := PCopying(s.producer.data, s.producer.w, 0), seenByProducer := seen)
  }

  predicate CopyIn(s: State, t: State) {
    && s.producer.PCopying? && s.producer.i < |s.producer.data|
    && var cell := Cell(Size(s), s.producer.w, s.producer.i);
       && 0 <= cell < |s.buffer|
       && t == s.(buffer := s.buffer[cell := s.producer.data[s.producer.i]],
                  producer := s.producer.(i := s.producer.i + 1))
  }

  /** The producer publishes its new position; `write` returns true. */
  predicate EndWrite(s: State, t: State) {
    && s.producer.PCopying? && s.producer.i == |s.producer.data|
    && t == s.(writePos := (s.producer.w + |s.producer.data|) % TWO_TO_32,
               written := s.written + s.producer.data,
               producer := PIdle)
  }

  /** `read` is called with room for at least one byte and loads its own position. */
  predicate BeginRead(s: State, t: State, maxLen: nat) {
    s.consumer.CIdle? && maxLen > 0 && t == s.(consumer := CLoaded(maxLen, s.readPos))
  }

  /** The consumer loads the write position, perhaps an old one, and starts to copy
      unless there is nothing to read. */
  predicate CheckAvailable(s: State, t: State, seen: nat) {
    && s.consumer.CLoaded? && s.seenByConsumer <= seen <= |s.written|
    && var avail := Minus(seen % TWO_TO_32, s.consumer.r);
       var count := if avail > s.consumer.maxLen then s.consumer.maxLen else avail;
       if avail == 0 then t == s.(consumer := CIdle, seenByConsumer := seen)
       else t == s.(consumer := CCopying(s.consumer.maxLen, s.consumer.r, count, []), seenByConsumer := seen)
  }

  predicate CopyOut(s: State, t: State) {
    && s.consumer.CCopying? && |s.consumer.out| < s.consumer.avail
    && var cell := Cell(Size(s), s.consumer.r, |s.consumer.out|);
       && 0 <= cell < |s.buffer|
       && t == s.(consumer := s.consumer.(out := s.consumer.out + [s.buffer[cell]]))
  }

  /** The consumer publishes its new position and returns the bytes it copied. */
  predicate EndRead(s: State, t: State) {
    && s.consumer.CCopying? && |s.consumer.out| == s.consumer.avail
    && t == s.(readPos := (s.consumer.r + s.consumer.avail) % TWO_TO_32,
               consumed := s.consumed + s.consumer.out,
               consumer := CIdle)
  }

  ghost predicate Next(s: State, t: State) {
    || (exists data :: BeginWrite(s, t, data))
    || (exists seen :: CheckSpace(s, t, seen))
    || CopyIn(s, t)
    || EndWrite(s, t)
    || (exists maxLen :: BeginRead(s, t, maxLen))
    || (exists seen :: CheckAvailable(s, t, seen))
    || CopyOut(s, t)
    || EndRead(s, t)
  }

  // ------------------------------------------------------------- invariant

  /** What is true of the positions at all times. */
  ghost predicate Positions(s: State) {
    && 1 <= s.exp <= 31 && |s.buffer| == Size(s)
    && s.writePos == |s.written| % TWO_TO_32 && s.readPos == |s.consumed| % TWO_TO_32
    && s.seenByProducer <= |s.consumed| <= s.seenByConsumer <= |s.written|
    && |s.written| <= s.seenByProducer + Size(s) - 1
  }

  /** The buffer holds every published byte that has not been read. */
  ghost predicate Holds(s: State)
    requires |s.buffer| == Size(s)
  {
    forall k :: |s.consumed| <= k < |s.written| ==> s.buffer[Slot(s.exp, k)] == s.written[k]
  }

  ghost predicate ProducerInv(s: State)
    requires |s.buffer| == Size(s)
  {
    match s.producer
    case PIdle => true
    case PLoaded(data, w) => w == |s.written| % TWO_TO_32 && |data| > 0
    case PCopying(data, w, i) =>
      && w == |s.written| % TWO_TO_32 && i <= |data|
      && |s.written| + |data| <= s.seenByProducer + Size(s) - 1
      && (forall k :: |s.written| <= k < |s.written| + i ==> s.buffer[Slot(s.exp, k)] == data[k - |s.written|])
  }

  ghost predicate ConsumerInv(s: State) {
    match s.consumer
    case CIdle => true
    case CLoaded(maxLen, r) => r == |s.consumed| % TWO_TO_32 && maxLen > 0
    case CCopying(maxLen, r, avail, out) =>
      && r == |s.consumed| % TWO_TO_32 && |out| <= avail && 1 <= avail <= maxLen
      && |s.consumed| + avail <= s.seenByConsumer <= |s.written|
      && out == s.written[|s.consumed|..|s.consumed| + |out|]
  }

  ghost predicate Inv(s: State) {
    && Positions(s) && Holds(s) && ProducerInv(s) && ConsumerInv(s)
    && s.consumed <= s.written
  }

  lemma InitInv(s: State)
    requires IsInit(s)
    ensures Inv(s)
  {
  }

  /** A producer that goes on to copy has found enough room, whatever it has seen. */
  lemma CheckSpaceKeeps(s: State, t: State, seen: nat)
    requires Inv(s) && CheckSpace(s, t, seen)
    ensures Inv(t)
  {
    hide Pow2;
    SizeBound(s.exp);
    WrappedDifference(|s.written|, seen);
  }

  lemma {:induction false} SizeBound(k: nat)
    requires k <= 31
    ensures 2 * Pow2(k) <= TWO_TO_32
  {
    Pow2Of32();
    PowGrows(k, 31);
    assert Pow2(32) == 2 * Pow2(31);
  }

  lemma {:induction false} PowGrows(a: nat, b: nat)
    requires a <= b
    ensures Pow2(a) <= Pow2(b)
    decreases b
  {
    if a < b {
      PowGrows(a, b - 1);
    }
  }

  /** A copied byte lands in a cell that holds no unread byte and no byte copied before. */
  lemma CopyInCell(s: State)
    requires Inv(s) && s.producer.PCopying? && s.producer.i < |s.producer.data|
    ensures var cell := Cell(Size(s), s.producer.w, s.producer.i);
      && cell == Slot(s.exp, |s.written| + s.producer.i)
      && (forall k :: |s.consumed| <= k < |s.written| + s.producer.i ==> Slot(s.exp, k) != cell)
  {
    hide Pow2, Slot, Cell, Holds;
    var n := |s.written| + s.producer.i;
    CellIsSlot(s.exp, |s.written|, s.producer.i);
    forall k | |s.consumed| <= k < n ensures Slot(s.exp, k) != Slot(s.exp, n) {
      SlotsDiffer(s.exp, k, n);
    }
  }

  lemma CopyInKeeps(s: State, t: State)
    requires Inv(s) && CopyIn(s, t)
    ensures Inv(t)
  {
    hide Pow2, Cell, Slot;
    CopyInCell(s);
  }

  lemma AddWrapped(a: nat, b: nat)
    ensures (a % TWO_TO_32 + b) % TWO_TO_32 == (a + b) % TWO_TO_32
  {
  }

  lemma EndWriteKeeps(s: State, t: State)
    requires Inv(s) && EndWrite(s, t)
    ensures Inv(t)
  {
    hide Pow2, Slot;
    AddWrapped(|s.written|, |s.producer.data|);
  }

  lemma CheckAvailableKeeps(s: State, t: State, seen: nat)
    requires Inv(s) && CheckAvailable(s, t, seen)
    ensures Inv(t)
  {
    hide Pow2;
    SizeBound(s.exp);
    WrappedDifference(seen, |s.consumed|);
  }

  /** The consumer copies the byte that was written at its position. */
  lemma CopyOutKeeps(s: State, t: State)
    requires Inv(s) && CopyOut(s, t)
    ensures Inv(t)
  {
    hide Pow2, Cell, Slot;
    CellIsSlot(s.exp, |s.consumed|, |s.consumer.out|);
  }

  lemma EndReadKeeps(s: State, t: State)
    requires Inv(s) && EndRead(s, t)
    ensures Inv(t)
  {
    hide Pow2, Slot;
    AddWrapped(|s.consumed|, s.consumer.avail);
  }

  /** Every step of either thread keeps the invariant. */
  lemma NextKeeps(s: State, t: State)
    requires Inv(s) && Next(s, t)
    ensures Inv(t)
  {
    hide Inv, CheckSpace, CopyIn, EndWrite, CheckAvailable, CopyOut, EndRead;
    if data :| BeginWrite(s, t, data) {
      BeginKeeps(s, t);
    } else if seen :| CheckSpace(s, t, seen) {
      CheckSpaceKeeps(s, t, seen);
    } else if CopyIn(s, t) {
      CopyInKeeps(s, t);
    } else if EndWrite(s, t) {
      EndWriteKeeps(s, t);
    } else if maxLen :| BeginRead(s, t, maxLen) {
      BeginKeeps(s, t);
    } else if seen :| CheckAvailable(s, t, seen) {
      CheckAvailableKeeps(s, t, seen);
    } else if CopyOut(s, t) {
      CopyOutKeeps(s, t);
    } else {
      EndReadKeeps(s, t);
    }
  }

  lemma BeginKeeps(s: State, t: State)
    requires Inv(s) && ((exists data :: BeginWrite(s, t, data)) || exists maxLen :: BeginRead(s, t, maxLen))
    ensures Inv(t)
  {
    hide Pow2;
  }

  // ------------------------------------------------------------ whole runs

  ghost predicate IsRun(run: seq<State>) {
    && |run| > 0 && IsInit(run[0])
    && (forall i :: 0 <= i < |run| - 1 ==> Next(run[i], run[i + 1]))
  }

  lemma {:induction false} RunInv(run: seq<State>, i: nat)
    requires IsRun(run) && i < |run|
    ensures Inv(run[i])
  {
    hide Inv, Next;
    if i == 0 {
      InitInv(run[0]);
    } else {
      RunInv(run, i - 1);
      assert Next(run[i - 1], run[i - 1 + 1]);
      NextKeeps(run[i - 1], run[i]);
    }
  }

  /** In every interleaving the bytes read are a prefix of the bytes written, what
      is being read continues that prefix and fits into the room the caller has for
      it, at most Size - 1 bytes are in flight,
      unread bytes are still in their cells, and the cells of a write under way
      are none of those of a read under way. */
  lemma RunIsSafe(run: seq<State>, i: nat)
    requires IsRun(run) && i < |run|
    ensures var s := run[i];
      && s.consumed <= s.written
      && (s.consumer.CCopying? ==> s.consumed + s.consumer.out <= s.written && 1 <= s.consumer.avail <= s.consumer.maxLen)
      && (s.consumer.CCopying? ==> |s.consumer.out| <= s.consumer.avail)
      && |s.written| - |s.consumed| <= Size(s) - 1
      && |s.buffer| == Size(s)
      && (forall k :: |s.consumed| <= k < |s.written| ==> s.buffer[Slot(s.exp, k)] == s.written[k])
      && NoRace(s)
  {
    hide Pow2, Slot, NoRace;
    RunInv(run, i);
    CellsApart(run[i]);
  }

  /** No byte is copied in and out at the same time. */
  ghost predicate NoRace(s: State) {
    s.producer.PCopying? && s.consumer.CCopying? ==>
      forall i: nat, j: nat :: i < |s.producer.data| && j < s.consumer.avail ==>
        Cell(Size(s), s.producer.w, i) != Cell(Size(s), s.consumer.r, j)
  }

  lemma CellsApart(s: State)
    requires Inv(s)
    ensures NoRace(s)
  {
    hide Pow2, Slot, Cell, Holds;
    if s.producer.PCopying? && s.consumer.CCopying? {
      forall i: nat, j: nat | i < |s.producer.data| && j < s.consumer.avail
        ensures Cell(Size(s), s.producer.w, i) != Cell(Size(s), s.consumer.r, j)
      {
        CellIsSlot(s.exp, |s.written|, i);
        CellIsSlot(s.exp, |s.consumed|, j);
        SlotsDiffer(s.exp, |s.consumed| + j, |s.written| + i);
      }
    }
  }

  /** The bytes in flight. */
  ghost function Unread(s: State): seq<Byte>
    requires s.consumed <= s.written
  {
    s.written[|s.consumed|..]
  }

  /** Seen from outside the buffer is a queue: a step appends the whole data of a
      write, takes the bytes a read returns off the front, or leaves the queue
      alone; a write that gives up touches no memory at all, and a read returns
      no more bytes than its caller has room for. */
  lemma StepIsQueueStep(s: State, t: State)
    requires Inv(s) && Next(s, t)
    ensures t.consumed <= t.written
    ensures
      || Unread(t) == Unread(s)
      || (s.producer.PCopying? && t.producer.PIdle? && Unread(t) == Unread(s) + s.producer.data)
      || (s.consumer.CCopying? && t.consumer.CIdle? && Unread(s) == s.consumer.out + Unread(t)
          && 1 <= |s.consumer.out| <= s.consumer.maxLen)
    ensures s.producer.PLoaded? && t.producer.PIdle? ==>
      t.buffer == s.buffer && t.writePos == s.writePos && t.readPos == s.readPos && Unread(t) == Unread(s)
  {
    hide *;
    NextKeeps(s, t);
    Prefixes(s);
    Prefixes(t);
    if EndRead(s, t) {
      EndReadTakes(s, t);
    } else if EndWrite(s, t) {
      EndWriteAppends(s, t);
    } else {
      OtherSteps(s, t);
    }
  }

  lemma Prefixes(s: State)
    requires Inv(s)
    ensures s.consumed <= s.written && ConsumerInv(s)
  {
  }

  lemma EndReadTakes(s: State, t: State)
    requires s.consumed <= s.written && t.consumed <= t.written && EndRead(s, t) && ConsumerInv(s)
    ensures 1 <= |s.consumer.out| <= s.consumer.maxLen
    ensures s.consumer.CCopying? && t.consumer.CIdle? && Unread(s) == s.consumer.out + Unread(t)
    ensures s.producer.PLoaded? ==> t.producer.PLoaded?
  {
    assert s.written == s.consumed + Unread(s);
    assert t.written == t.consumed + Unread(t);
  }

  lemma EndWriteAppends(s: State, t: State)
    requires s.consumed <= s.written && t.consumed <= t.written && EndWrite(s, t)
    ensures s.producer.PCopying? && t.producer.PIdle? && Unread(t) == Unread(s) + s.producer.data
  {
  }

  lemma OtherSteps(s: State, t: State)
    requires Next(s, t) && !EndRead(s, t) && !EndWrite(s, t) && s.consumed <= s.written && t.consumed <= t.written
    ensures Unread(t) == Unread(s)
    ensures s.producer.PLoaded? && t.producer.PIdle? ==>
      t.buffer == s.buffer && t.writePos == s.writePos && t.readPos == s.readPos
  {
    hide Minus, Cell, Size, FreeSpace;
  }

  /** Until a call returns, its arguments are those it was called with. */
  lemma ArgumentsStay(s: State, t: State)
    requires Next(s, t)
    ensures !s.producer.PIdle? && !t.producer.PIdle? ==> t.producer.data == s.producer.data
    ensures !s.consumer.CIdle? && !t.consumer.CIdle? ==> t.consumer.maxLen == s.consumer.maxLen
  {
    hide Minus, Cell, Size, FreeSpace;
  }

  /** A write goes on exactly if it fits into the space that is free as far as the
      producer has seen, which is all there is once it has seen the latest position. */
  lemma FittingWrite(s: State, t: State, seen: nat)
    requires Inv(s) && CheckSpace(s, t, seen)
    ensures t.producer.PCopying? <==> |s.written| + |s.producer.data| - seen <= Size(s) - 1
    ensures t.producer.PIdle? || t.producer.PCopying?
  {
    hide Pow2;
    SizeBound(s.exp);
    WrappedDifference(|s.written|, seen);
  }

  /** A read gives up exactly if the consumer has seen nothing to read, and otherwise
      takes as much as it has seen, up to the room there is for it. */
  lemma FittingRead(s: State, t: State, seen: nat)
    requires Inv(s) && CheckAvailable(s, t, seen)
    ensures t.consumer.CIdle? <==> seen == |s.consumed|
    ensures !t.consumer.CIdle? ==>
      t.consumer.CCopying? && t.consumer.avail == Min(s.consumer.maxLen, seen - |s.consumed|) && t.consumer.out == []
  {
    hide Pow2;
    SizeBound(s.exp);
    WrappedDifference(seen, |s.consumed|);
  }

  /** How many steps the producer, or the consumer, still needs for its call at most. */
  function WriteWork(p: Producer): int {
    match p
    case PIdle => 0
    case PLoaded(data, w) => |data| + 2
    case PCopying(data, w, i) => |data| - i + 1
  }

  function ReadWork(c: Consumer): int {
    match c
    case CIdle => 0
    case CLoaded(maxLen, r) => maxLen + 2
    case CCopying(maxLen, r, avail, out) => avail - |out| + 1
  }

  /** No thread ever waits for the other: inside a call it always has a step of its
      own to take, and with each one the call is nearer to its end. */
  lemma WaitFree(s: State)
    requires Inv(s)
    ensures !s.producer.PIdle? ==>
      exists t :: Next(s, t) && t.consumer == s.consumer && 0 <= WriteWork(t.producer) < WriteWork(s.producer)
    ensures !s.consumer.CIdle? ==>
      exists t :: Next(s, t) && t.producer == s.producer && 0 <= ReadWork(t.consumer) < ReadWork(s.consumer)
  {
    hide *;
    if !s.producer.PIdle? {
      var t := WriteStep(s);
      StepIsNext(s, t);
    }
    if !s.consumer.CIdle? {
      var t := ReadStep(s);
      StepIsNext(s, t);
    }
  }

  lemma StepIsNext(s: State, t: State)
    requires CheckSpace(s, t, |s.consumed|) || CopyIn(s, t) || EndWrite(s, t)
          || CheckAvailable(s, t, |s.written|) || CopyOut(s, t) || EndRead(s, t)
    ensures Next(s, t)
  {
    hide CheckSpace, CopyIn, EndWrite, CheckAvailable, CopyOut, EndRead;
  }

  lemma WriteStep(s: State) returns (t: State)
    requires Inv(s) && !s.producer.PIdle?
    ensures CheckSpace(s, t, |s.consumed|) || CopyIn(s, t) || EndWrite(s, t)
    ensures t.consumer == s.consumer && 0 <= WriteWork(t.producer) < WriteWork(s.producer)
  {
    hide Pow2, Cell, Slot, Holds, FreeSpace, Minus;
    match s.producer
    case PLoaded(data, w) =>
      t := if |data| > FreeSpace(s, w, |s.consumed| % TWO_TO_32)
           then s.(producer := PIdle, seenByProducer := |s.consumed|)
           else s.(producer := PCopying(data, w, 0), seenByProducer := |s.consumed|);
    case PCopying(data, w, i) =>
      if i < |data| {
        CopyInCell(s);
        t := s.(buffer := s.buffer[Cell(Size(s), w, i) := data[i]], producer := PCopying(data, w, i + 1));
      } else {
        t := s.(writePos := (w + |data|) % TWO_TO_32, written := s.written + data, producer := PIdle);
      }
  }

  lemma ReadStep(s: State) returns (t: State)
    requires Inv(s) && !s.consumer.CIdle?
    ensures CheckAvailable(s, t, |s.written|) || CopyOut(s, t) || EndRead(s, t)
    ensures t.producer == s.producer && 0 <= ReadWork(t.consumer) < ReadWork(s.consumer)
  {
    hide Pow2, Cell, Slot, Holds, Minus;
    match s.consumer
    case CLoaded(maxLen, r) =>
      var avail := Minus(|s.written| % TWO_TO_32, r);
      t := s.(consumer := if avail == 0 then CIdle else CCopying(maxLen, r, Min(maxLen, avail), []),
              seenByConsumer := |s.written|);
    case CCopying(maxLen, r, avail, out) =>
      if |out| < avail {
        CellIsSlot(s.exp, |s.consumed|, |out|);
        t := s.(consumer := CCopying(maxLen, r, avail, out + [s.buffer[Cell(Size(s), r, |out|)]]));
      } else {
        t := s.(readPos := (r + avail) % TWO_TO_32, consumed := s.consumed + out, consumer := CIdle);
      }
  }
}
