/** Block allocation from a bitmap spread over device blocks: first-fit scans from
    several starting points, and in-place edits with write-back. */
module Bitmap {
  import opened Options

  datatype AllocError = InvalidInput | OutOfMemory

  datatype Result<+T> = Ok(value: T) | Err(error: AllocError)

  const BLOCK_SIZE: nat := 4096

  /** Bits in one block of the bitmap. */
  const BITS: nat := 32768

  /** A byte: the positions of its one bits. */
  type Octet = s: set<nat> | forall i :: i in s ==> i < 8

  /** Device blocks by number. */
  type Store = map<nat, seq<Octet>>

  function Min(a: nat, b: nat): nat
  {
    if a <= b then a else b
  }

  function Max(a: nat, b: nat): nat
  {
    if a >= b then a else b
  }

  /** Subtraction that stops at zero. */
  function Minus(a: nat, b: nat): nat
  {
    if a >= b then a - b else 0
  }

  /** The first n blocks from `base` are present and full-sized. */
  ghost predicate Present(store: Store, base: nat, n: nat)
  {
    forall i :: base <= i < base + n ==> i in store && |store[i]| == BLOCK_SIZE
  }

  ghost predicate Used(store: Store, base: nat, b: nat)
  {
    var i := base + b / BITS;
    i in store && |store[i]| == BLOCK_SIZE && b % 8 in store[i][b % BITS / 8]
  }

  ghost predicate FreeRun(store: Store, base: nat, start: nat, count: nat)
  {
    forall b :: start <= b < start + count ==> !Used(store, base, b)
  }

  /** The first free run of the given length at or after `from` that ends within n. */
  ghost predicate FirstRun(store: Store, base: nat, from: nat, n: nat, count: nat, start: nat)
  {
    && from <= start && start + count <= n && FreeRun(store, base, start, count)
    && forall s :: from <= s < start ==> !FreeRun(store, base, s, count)
  }

  ghost predicate NoRun(store: Store, base: nat, from: nat, n: nat, count: nat)
  {
    forall s :: from <= s && s + count <= n ==> !FreeRun(store, base, s, count)
  }

  function BitmapBlocks(n: nat): nat
  {
    (n + BITS - 1) / BITS
  }

  // ---------------------------------------------------------------------
  // Scanning
  // ---------------------------------------------------------------------

  /** Everything in [from, p) has been looked at: the last `run` bits are free, the one
      before them is not, and no run of the required length was passed. */
  ghost predicate Scanning(store: Store, base: nat, from: nat, p: nat, run: nat, count: nat)
  {
    && run < count && from + run <= p && FreeRun(store, base, p - run, run)
    && (from < p - run ==> Used(store, base, p - run - 1))
    && NoRun(store, base, from, p, count)
  }

  /** The same, for a scan that does not look at bits from n on. */
  ghost predicate Progress(store: Store, base: nat, from: nat, n: nat, p: nat, run: nat, count: nat)
  {
    run < count && if p < n then Scanning(store, base, from, p, run, count) else NoRun(store, base, from, n, count)
  }

  lemma FreeBit(store: Store, base: nat, from: nat, p: nat, run: nat, count: nat)
    requires Scanning(store, base, from, p, run, count) && !Used(store, base, p)
    ensures run + 1 < count ==> Scanning(store, base, from, p + 1, run + 1, count)
    ensures run + 1 == count ==> FirstRun(store, base, from, p + 1, count, p - run)
  {
    assert FreeRun(store, base, p - run, run + 1);
    if run + 1 < count {
      forall s | from <= s && s + count <= p + 1 ensures !FreeRun(store, base, s, count) {
        if s + count == p + 1 { assert Used(store, base, p - run - 1); }
      }
    } else {
      forall s | from <= s < p - run ensures !FreeRun(store, base, s, count) {
        assert s + count <= p;
      }
    }
  }

  lemma UsedBit(store: Store, base: nat, from: nat, p: nat, run: nat, count: nat)
    requires Scanning(store, base, from, p, run, count) && Used(store, base, p)
    ensures Scanning(store, base, from, p + 1, 0, count)
  {
    forall s | from <= s && s + count <= p + 1 ensures !FreeRun(store, base, s, count) {
      if s + count == p + 1 { assert Used(store, base, p); }
    }
  }

  /** A stretch of used bits ends any run. */
  lemma UsedBits(store: Store, base: nat, from: nat, p: nat, run: nat, count: nat, q: nat)
    requires Scanning(store, base, from, p, run, count) && p < q && forall b :: p <= b < q ==> Used(store, base, b)
    ensures Scanning(store, base, from, q, 0, count)
  {
    forall s | from <= s && s + count <= q ensures !FreeRun(store, base, s, count) {
      if s + count > p { assert Used(store, base, s + count - 1); }
    }
    assert Used(store, base, q - 1);
  }

  lemma RunBefore(store: Store, base: nat, from: nat, n: nat, p: nat, run: nat, count: nat)
    requires Scanning(store, base, from, p, run, count) && p >= n
    ensures NoRun(store, base, from, n, count)
  {
  }

  /** The bits of byte number `at / 8`, as the bitmap sees them. */
  lemma ByteBits(store: Store, base: nat, at: nat, j: nat)
    requires at % 8 == 0 && j < 8 && base + at / BITS in store && |store[base + at / BITS]| == BLOCK_SIZE
    ensures at % BITS / 8 < BLOCK_SIZE
    ensures Used(store, base, at + j) <==> j in store[base + at / BITS][at % BITS / 8]
  {
    BytePlace(at, j);
  }

  lemma BytePlace(at: nat, j: nat)
    requires at % 8 == 0 && j < 8
    ensures at % BITS / 8 < BLOCK_SIZE && (at + j) / BITS == at / BITS && (at + j) % BITS / 8 == at % BITS / 8 && (at + j) % 8 == j
  {
    var q, r := at / BITS, at % BITS;
    assert at == q * BITS + r;
    var m := at / 8;
    assert at == 8 * m && r == 8 * (m - q * BLOCK_SIZE);
    var k := m - q * BLOCK_SIZE;
    assert 0 <= k < BLOCK_SIZE && r == 8 * k;
    assert (r + j) / 8 == k && (r + j) % 8 == j && r + j < BITS;
    BitPlace(q, r + j);
  }

  /** Looks at the bits of one byte from position `first` on. */
  method ScanByte(octet: Octet, at: nat, first: nat, n: nat, count: nat, run0: nat, start0: nat,
                  ghost store: Store, ghost base: nat, ghost from: nat) returns (found: bool, run: nat, start: nat)
    requires first < 8 && forall j :: 0 <= j < 8 ==> (j in octet <==> Used(store, base, at + j))
    requires Progress(store, base, from, n, at + first, run0, count) && (run0 > 0 && at + first < n ==> start0 == at + first - run0)
    ensures found ==> FirstRun(store, base, from, n, count, start)
    ensures !found ==> Progress(store, base, from, n, at + 8, run, count) && (run > 0 && at + 8 < n ==> start == at + 8 - run)
  {
    hide FreeRun, Used, NoRun;
    found, run, start := false, run0, start0;
    var bit := first;
    while bit < 8
      invariant first <= bit <= 8
      invariant Progress(store, base, from, n, at + bit, run, count) && (run > 0 && at + bit < n ==> start == at + bit - run)
    {
      if at + bit >= n {
        break;
      }
      if bit !in octet {
        if run == 0 {
          start := at + bit;
        }
        FreeBit(store, base, from, at + bit, run, count);
        run := run + 1;
        if run == count {
          assert FirstRun(store, base, from, n, count, start);
          return true, run, start;
        }
      } else {
        UsedBit(store, base, from, at + bit, run, count);
        run := 0;
      }
      if at + bit + 1 >= n { RunBefore(store, base, from, n, at + bit + 1, run, count); }
      bit := bit + 1;
    }
  }

  /** Looks at the bytes of one bitmap block from a given bit on; full bytes are skipped. */
  method ScanBlock(block: seq<Octet>, at: nat, startByte: nat, startBit: nat, n: nat, count: nat, run0: nat, start0: nat,
                   ghost store: Store, ghost base: nat, ghost from: nat) returns (found: bool, run: nat, start: nat)
    requires at % BITS == 0 && |block| == BLOCK_SIZE && base + at / BITS in store && store[base + at / BITS] == block
    requires startByte < BLOCK_SIZE && startBit < 8
    requires Progress(store, base, from, n, at + 8 * startByte + startBit, run0, count)
    requires run0 > 0 && at + 8 * startByte + startBit < n ==> start0 == at + 8 * startByte + startBit - run0
    ensures found ==> FirstRun(store, base, from, n, count, start)
    ensures !found ==> Progress(store, base, from, n, at + BITS, run, count) && (run > 0 && at + BITS < n ==> start == at + BITS - run)
  {
    hide FirstRun, Scanning, NoRun, Used;
    found, run, start := false, run0, start0;
    var byte := startByte;
    var first := startBit;
    while byte < BLOCK_SIZE
      invariant startByte <= byte <= BLOCK_SIZE && first < 8 && (byte == BLOCK_SIZE ==> first == 0)
      invariant Progress(store, base, from, n, at + 8 * byte + first, run, count)
      invariant run > 0 && at + 8 * byte + first < n ==> start == at + 8 * byte + first - run
    {
      var here := at + 8 * byte;
      ByteOf(at, byte);
      forall j | 0 <= j < 8 ensures j in block[byte] <==> Used(store, base, here + j) { ByteBits(store, base, here, j); }
      if block[byte] == FullByte() {
        forall b | here <= b < here + 8 ensures Used(store, base, b) { ByteBits(store, base, here, b - here); }
        SkipFull(store, base, from, n, here, first, run, count);
        run := 0;
      } else {
        found, run, start := ScanByte(block[byte], here, first, n, count, run, start, store, base, from);
        if found {
          return;
        }
      }
      first := 0;
      byte := byte + 1;
    }
  }

  function FullByte(): (o: Octet)
    ensures forall j :: 0 <= j < 8 ==> j in o
  {
    {0, 1, 2, 3, 4, 5, 6, 7}
  }

  lemma ByteOf(at: nat, byte: nat)
    requires at % BITS == 0 && byte < BLOCK_SIZE
    ensures (at + 8 * byte) % 8 == 0 && (at + 8 * byte) / BITS == at / BITS && (at + 8 * byte) % BITS / 8 == byte
  {
    var k := at / BITS;
    assert at == k * BITS;
    assert (at + 8 * byte) / BITS == k && (at + 8 * byte) % BITS == 8 * byte;
  }

  lemma SkipFull(store: Store, base: nat, from: nat, n: nat, at: nat, first: nat, run: nat, count: nat)
    requires first < 8 && Progress(store, base, from, n, at + first, run, count)
    requires forall b :: at <= b < at + 8 ==> Used(store, base, b)
    ensures Progress(store, base, from, n, at + 8, 0, count)
  {
    hide Used, Scanning, NoRun;
    if at + first < n {
      UsedBits(store, base, from, at + first, run, count, at + 8);
      if at + 8 >= n { RunBefore(store, base, from, n, at + 8, 0, count); }
    }
  }

  // ---------------------------------------------------------------------
  // Editing
  // ---------------------------------------------------------------------

  /** The store with bits [start, start + count) set or cleared. */
  ghost predicate Edited(store: Store, base: nat, n: nat, start: nat, count: nat, set_: bool, store': Store)
  {
    && store'.Keys == store.Keys
    && Present(store', base, n)
    && (forall i :: i in store && !(base <= i < base + n) ==> store'[i] == store[i])
    && forall b :: 0 <= b < n * BITS ==> (Used(store', base, b) <==> if start <= b < start + count then set_ else Used(store, base, b))
  }

  // ---------------------------------------------------------------------
  // Counting
  // ---------------------------------------------------------------------

  ghost function FreeCount(store: Store, base: nat, n: nat): nat
  {
    if n == 0 then 0 else FreeCount(store, base, n - 1) + if Used(store, base, n - 1) then 0 else 1
  }

  /** Marking free bits lowers the count by their number; clearing used ones raises it. */
  lemma {:induction false} CountEdited(store: Store, base: nat, blocks: nat, start: nat, count: nat, set_: bool, store': Store, n: nat)
    requires Edited(store, base, blocks, start, count, set_, store') && n <= blocks * BITS
    requires forall b :: start <= b < start + count ==> (Used(store, base, b) <==> !set_)
    ensures var changed := if n <= start then 0 else if n >= start + count then count else n - start;
      FreeCount(store', base, n) == FreeCount(store, base, n) + if set_ then -changed else changed
    decreases n
  {
    hide Used;
    if n > 0 {
      CountEdited(store, base, blocks, start, count, set_, store', n - 1);
      assert Used(store', base, n - 1) <==> if start <= n - 1 < start + count then set_ else Used(store, base, n - 1);
    }
  }

  /** Changing one bit of one block. */
  lemma OneBit(store: Store, base: nat, n: nat, b: nat, value: bool, block: seq<Octet>, store': Store)
    requires Present(store, base, n) && b < n * BITS
    requires base + b / BITS in store && |store[base + b / BITS]| == BLOCK_SIZE && b % BITS / 8 < BLOCK_SIZE
    requires var old_ := store[base + b / BITS]; var x := b % BITS / 8;
      block == old_[x := if value then old_[x] + {b % 8} else old_[x] - {b % 8}]
    requires store' == store[base + b / BITS := block]
    ensures Edited(store, base, n, b, 1, value, store')
  {
    forall c | 0 <= c < n * BITS ensures Used(store', base, c) <==> if c == b then value else Used(store, base, c) {
      if c != b && c / BITS == b / BITS && c % BITS / 8 == b % BITS / 8 { SameByte(b, c); }
    }
  }

  lemma SameByte(b: nat, c: nat)
    requires b != c && c / BITS == b / BITS && c % BITS / 8 == b % BITS / 8
    ensures c % 8 != b % 8
  {
    assert b == BITS * (b / BITS) + 8 * (b % BITS / 8) + b % 8;
    assert c == BITS * (c / BITS) + 8 * (c % BITS / 8) + c % 8;
  }

  lemma EditedMore(store: Store, base: nat, n: nat, start: nat, count: nat, value: bool, s1: Store, s2: Store)
    requires Edited(store, base, n, start, count, value, s1) && Edited(s1, base, n, start + count, 1, value, s2)
    ensures Edited(store, base, n, start, count + 1, value, s2)
  {
    hide Used;
  }

  /** The run was found by the scan from the j-th of the given bits, and the scans before that found none. */
  ghost predicate FoundBy(store: Store, base: nat, n: nat, count: nat, froms: seq<nat>, start: nat, j: nat)
  {
    && j < |froms| && FirstRun(store, base, ScanStart(n, froms[j]), n, count, start)
    && forall i :: 0 <= i < j ==> NoRun(store, base, ScanStart(n, froms[i]), n, count)
  }

  /** The run is the first one found by scanning from each of the given bits in turn. */
  ghost predicate FoundInOrder(store: Store, base: nat, n: nat, count: nat, froms: seq<nat>, start: nat)
  {
    exists j: nat :: FoundBy(store, base, n, count, froms, start, j)
  }

  function Frontier(cursor: Option<nat>): seq<nat>
  {
    if cursor.Some? then [cursor.value] else []
  }

  /** What a transaction sees and changes. */
  class TxContext {
    var store: Store
    var allocCursor: Option<nat>
    var metaHighWater: nat
    var allocDelta: int

    /** First block of the group's bitmap, and the number of blocks it covers. */
    const bitmap: nat
    const blocksPerGroup: nat

    ghost predicate Valid()
      reads this
    {
      Present(store, bitmap, BitmapBlocks(blocksPerGroup))
    }

    constructor (store: Store, bitmap: nat, blocksPerGroup: nat)
      requires Present(store, bitmap, BitmapBlocks(blocksPerGroup))
      ensures Valid() && this.store == store && this.bitmap == bitmap && this.blocksPerGroup == blocksPerGroup
      ensures allocCursor == None && metaHighWater == 0 && allocDelta == 0
    {
      this.store, this.bitmap, this.blocksPerGroup := store, bitmap, blocksPerGroup;
      allocCursor, metaHighWater, allocDelta := None, 0, 0;
    }

    /** Free blocks of the group. */
    ghost function Free(): nat
      reads this
    {
      FreeCount(store, bitmap, blocksPerGroup)
    }

    /** Since the given store and balance, exactly `marked` blocks from `start` on have been taken, all of them free before. */
    ghost predicate Took(before: Store, balance: int, start: nat, marked: nat)
      reads this
    {
      && Edited(before, bitmap, BitmapBlocks(blocksPerGroup), start, marked, true, store)
      && FreeRun(before, bitmap, start, marked) && start + marked <= blocksPerGroup
      && allocDelta == balance + marked && Free() + allocDelta == FreeCount(before, bitmap, blocksPerGroup) + balance
    }

    /** The bitmap blocks of the group, and those that bits up to the given one would be in. */
    ghost function Reach(end: nat): nat
      reads this
    {
      BitmapBlocks(Max(blocksPerGroup, end))
    }

    /** Sets or clears a range of bits, reading each bitmap block once and writing it back when done with it. */
    method ModifyBlocks(start: nat, count: nat, value: bool)
      requires Present(store, bitmap, Reach(start + count))
      modifies `store
      ensures Edited(old(store), bitmap, Reach(start + count), start, count, value, store)
    {
      hide Used, Edited;
      ghost var n := Reach(start + count);
      InRange(start, count, Max(blocksPerGroup, start + count));
      var current: Option<nat> := None;
      var buf: seq<Octet> := [];
      var modified := false;
      EditedNot(store, bitmap, n, start, value);
      ghost var view: Store := store;
      for i := 0 to count
        invariant Present(store, bitmap, n) && Present(view, bitmap, n) && Edited(old(store), bitmap, n, start, i, value, view)
        invariant current.None? ==> view == store && !modified
        invariant current.Some? ==> current.value < n && |buf| == BLOCK_SIZE && view == store[bitmap + current.value := buf]
        invariant current.Some? && !modified ==> store[bitmap + current.value] == buf
      {
        var block := start + i;
        var bm := block / BITS;
        InGroup(block, n);
        if current != Some(bm) {
          if modified {
            store := store[bitmap + current.value := buf];
          }
          buf := store[bitmap + bm];
          current := Some(bm);
          modified := false;
          assert view == store[bitmap + bm := buf];
        }
        var byte := block % BITS / 8;
        ghost var old_ := buf;
        ghost var view0 := view;
        if value {
          buf := buf[byte := buf[byte] + {block % 8}];
        } else {
          buf := buf[byte := buf[byte] - {block % 8}];
        }
        modified := true;
        view := view[bitmap + bm := buf];
        assert view0[bitmap + bm] == old_;
        OneBit(view0, bitmap, n, block, value, buf, view);
        EditedMore(old(store), bitmap, n, start, i, value, view0, view);
        assert Present(view, bitmap, n) by { EditedPresent(view0, bitmap, n, block, 1, value, view); }
      }
      if modified {
        store := store[bitmap + current.value := buf];
      }
      assert store == view;
    }

    /** First-fit scan from a bit on; marks `mark` bits of the run found. */
    method ScanFreeRun(count: nat, from: nat, mark: nat) returns (r: Option<nat>)
      requires Valid() && 0 < mark <= count
      modifies `store
      ensures Valid()
      ensures r.None? ==> store == old(store) && NoRun(store, bitmap, ScanStart(blocksPerGroup, from), blocksPerGroup, count)
      ensures r.Some? ==> FirstRun(old(store), bitmap, ScanStart(blocksPerGroup, from), blocksPerGroup, count, r.value)
      ensures r.Some? ==> Edited(old(store), bitmap, BitmapBlocks(blocksPerGroup), r.value, mark, true, store)
    {
      hide Used, FreeRun, Edited;
      var total := BitmapBlocks(blocksPerGroup);
      var startBlock := Min(from / BITS, Minus(total, 1));
      var startByte: nat, startBit: nat := from % BITS / 8, from % 8;
      StartOf(from, startBlock);
      var run: nat, start: nat := 0, 0;
      NothingScanned(store, bitmap, ScanStart(blocksPerGroup, from), blocksPerGroup, count);
      var bm: nat := startBlock;
      while bm < total
        invariant startBlock <= bm && startByte < BLOCK_SIZE && startBit < 8 && store == old(store)
        invariant bm == startBlock ==> bm * BITS + 8 * startByte + startBit == ScanStart(blocksPerGroup, from)
        invariant bm > startBlock ==> startByte == 0 && startBit == 0
        invariant Progress(store, bitmap, ScanStart(blocksPerGroup, from), blocksPerGroup, bm * BITS + 8 * startByte + startBit, run, count)
        invariant run > 0 && bm * BITS + 8 * startByte + startBit < blocksPerGroup ==> start == bm * BITS + 8 * startByte + startBit - run
        decreases total - bm
      {
        var found;
        BlockOf(bm);
        found, run, start := ScanBlock(store[bitmap + bm], bm * BITS, startByte, startBit, blocksPerGroup, count, run, start, store, bitmap, ScanStart(blocksPerGroup, from));
        if found {
          InRange(start, count, blocksPerGroup);
          ModifyBlocks(start, mark, true);
          EditedPresent(old(store), bitmap, total, start, mark, true, store);
          return Some(start);
        }
        startByte, startBit := 0, 0;
        bm := bm + 1;
      }
      Covered(blocksPerGroup, bm, from);
      return None;
    }

    lemma Accounted(before: Store, balance: int, start: nat, marked: nat)
      requires start + marked <= blocksPerGroup && FreeRun(before, bitmap, start, marked)
      requires Edited(before, bitmap, BitmapBlocks(blocksPerGroup), start, marked, true, store) && allocDelta == balance + marked
      ensures Took(before, balance, start, marked)
    {
      InRange(blocksPerGroup, 0, blocksPerGroup);
      CountEdited(before, bitmap, BitmapBlocks(blocksPerGroup), start, marked, true, store, blocksPerGroup);
    }

    /** Allocates contiguous blocks: from the frontier if there is one, else from the start. */
    method AllocateExtents(count: nat) returns (r: Result<nat>)
      requires Valid()
      modifies this
      ensures Valid() && metaHighWater == old(metaHighWater)
      ensures count == 0 ==> r == Err(InvalidInput)
      ensures r.Ok? <==> count > 0 && !NoRun(old(store), bitmap, 0, blocksPerGroup, count)
      ensures r.Ok? ==> Took(old(store), old(allocDelta), r.value, count) && allocCursor == Some(r.value + count)
      ensures r.Ok? ==> FoundInOrder(old(store), bitmap, blocksPerGroup, count, Frontier(old(allocCursor)) + [0], r.value)
      ensures r.Err? ==> store == old(store) && allocDelta == old(allocDelta) && allocCursor == old(allocCursor)
    {
      hide Edited, FreeRun, Used;
      if count == 0 {
        return Err(InvalidInput);
      }
      var run: Option<nat> := None;
      ghost var tries: nat := 0;
      if allocCursor.Some? {
        run := ScanFreeRun(count, allocCursor.value, count);
      }
      if run.None? {
        tries := |Frontier(allocCursor)|;
        run := ScanFreeRun(count, 0, count);
      }
      if run.None? {
        return Err(OutOfMemory);
      }
      assert FoundBy(old(store), bitmap, blocksPerGroup, count, Frontier(allocCursor) + [0], run.value, tries);
      allocCursor := Some(run.value + count);
      allocDelta := allocDelta + count;
      Accounted(old(store), old(allocDelta), run.value, count);
      return Ok(run.value);
    }

    /** Allocates near a hint, then at the frontier, then anywhere. */
    method AllocateExtentsHinted(count: nat, hint: nat) returns (r: Result<nat>)
      requires Valid()
      modifies this
      ensures Valid() && metaHighWater == old(metaHighWater)
      ensures count == 0 ==> r == Err(InvalidInput)
      ensures r.Ok? <==> count > 0 && !NoRun(old(store), bitmap, 0, blocksPerGroup, count)
      ensures r.Ok? ==> Took(old(store), old(allocDelta), r.value, count) && allocCursor == Some(r.value + count)
      ensures r.Ok? && !NoRun(old(store), bitmap, ScanStart(blocksPerGroup, PreferredStart(Some(hint), blocksPerGroup)), blocksPerGroup, count) ==>
        FirstRun(old(store), bitmap, ScanStart(blocksPerGroup, PreferredStart(Some(hint), blocksPerGroup)), blocksPerGroup, count, r.value)
      ensures r.Ok? ==> FoundInOrder(old(store), bitmap, blocksPerGroup, count, [PreferredStart(Some(hint), blocksPerGroup)] + Frontier(old(allocCursor)) + [0], r.value)
      ensures r.Err? ==> store == old(store) && allocDelta == old(allocDelta) && allocCursor == old(allocCursor)
    {
      hide Edited, FreeRun, Used;
      if count == 0 {
        return Err(InvalidInput);
      }
      ghost var tries: nat := 0;
      var run := ScanFreeRun(count, PreferredStart(Some(hint), blocksPerGroup), count);
      if run.None? && allocCursor.Some? {
        tries := 1;
        run := ScanFreeRun(count, allocCursor.value, count);
      }
      if run.None? {
        tries := 1 + |Frontier(allocCursor)|;
        run := ScanFreeRun(count, 0, count);
      }
      if run.None? {
        return Err(OutOfMemory);
      }
      assert FoundBy(old(store), bitmap, blocksPerGroup, count, [PreferredStart(Some(hint), blocksPerGroup)] + Frontier(allocCursor) + [0], run.value, tries);
      allocCursor := Some(run.value + count);
      allocDelta := allocDelta + count;
      Accounted(old(store), old(allocDelta), run.value, count);
      return Ok(run.value);
    }

    /** Allocates metadata from the end of the group, then its upper half, then anywhere. */
    method AllocateExtentsMeta(count: nat) returns (r: Result<nat>)
      requires Valid()
      modifies this
      ensures Valid() && allocCursor == old(allocCursor)
      ensures count == 0 ==> r == Err(InvalidInput)
      ensures r.Ok? <==> count > 0 && !NoRun(old(store), bitmap, 0, blocksPerGroup, count)
      ensures r.Ok? ==> Took(old(store), old(allocDelta), r.value, count) && metaHighWater == Max(Minus(blocksPerGroup, r.value), old(metaHighWater)) + count - 1
      ensures r.Ok? ==> FoundInOrder(old(store), bitmap, blocksPerGroup, count, [Minus(blocksPerGroup, 1 + old(metaHighWater)), blocksPerGroup / 2, 0], r.value)
      ensures r.Err? ==> store == old(store) && allocDelta == old(allocDelta) && metaHighWater == old(metaHighWater)
    {
      hide Edited, FreeRun, Used;
      if count == 0 {
        return Err(InvalidInput);
      }
      ghost var tries: nat := 0;
      var run := ScanFreeRun(count, Minus(blocksPerGroup, 1 + metaHighWater), count);
      if run.None? {
        tries := 1;
        run := ScanFreeRun(count, blocksPerGroup / 2, count);
      }
      if run.None? {
        tries := 2;
        run := ScanFreeRun(count, 0, count);
      }
      if run.None? {
        return Err(OutOfMemory);
      }
      assert FoundBy(old(store), bitmap, blocksPerGroup, count, [Minus(blocksPerGroup, 1 + metaHighWater), blocksPerGroup / 2, 0], run.value, tries);
      metaHighWater := Max(Minus(blocksPerGroup, run.value), metaHighWater) + count - 1;
      allocDelta := allocDelta + count;
      Accounted(old(store), old(allocDelta), run.value, count);
      return Ok(run.value);
    }

    /** Looks for `want` free blocks but marks only `mark`; settles for `mark` if there is no such run. */
    method AllocateExtentsReserved(want: nat, mark: nat, hint: Option<nat>) returns (r: Result<nat>)
      requires Valid()
      modifies this
      ensures Valid() && metaHighWater == old(metaHighWater)
      ensures mark == 0 || mark > want ==> r == Err(InvalidInput)
      ensures r.Ok? <==> 0 < mark <= want && !NoRun(old(store), bitmap, 0, blocksPerGroup, mark)
      ensures r.Ok? ==> Took(old(store), old(allocDelta), r.value, mark) && allocCursor == Some(r.value + mark)
      ensures r.Ok? && !NoRun(old(store), bitmap, 0, blocksPerGroup, want) ==> FreeRun(old(store), bitmap, r.value, want)
      ensures r.Ok? ==>
        if NoRun(old(store), bitmap, 0, blocksPerGroup, want) then FirstRun(old(store), bitmap, 0, blocksPerGroup, mark, r.value)
        else FoundInOrder(old(store), bitmap, blocksPerGroup, want, (if hint.Some? then [PreferredStart(hint, blocksPerGroup)] else Frontier(old(allocCursor))) + [0], r.value)
      ensures r.Err? ==> store == old(store) && allocDelta == old(allocDelta) && allocCursor == old(allocCursor)
    {
      hide Edited, Used;
      if mark == 0 || mark > want {
        return Err(InvalidInput);
      }
      var run: Option<nat> := None;
      ghost var froms := (if hint.Some? then [PreferredStart(hint, blocksPerGroup)] else Frontier(allocCursor)) + [0];
      ghost var tries: nat := 0;
      if hint.Some? {
        run := ScanFreeRun(want, PreferredStart(hint, blocksPerGroup), mark);
      } else if allocCursor.Some? {
        run := ScanFreeRun(want, allocCursor.value, mark);
      }
      if run.None? {
        tries := |froms| - 1;
        run := ScanFreeRun(want, 0, mark);
      }
      if run.Some? {
        assert FoundBy(old(store), bitmap, blocksPerGroup, want, froms, run.value, tries);
      }
      ShorterRun(old(store), bitmap, blocksPerGroup, want, mark);
      if run.None? {
        run := ScanFreeRun(mark, 0, mark);
      }
      if run.None? {
        return Err(OutOfMemory);
      }
      allocCursor := Some(run.value + mark);
      allocDelta := allocDelta + mark;
      Accounted(old(store), old(allocDelta), run.value, mark);
      return Ok(run.value);
    }

    /** Gives blocks back. If they were all in use, free count and balance stay in step. */
    method FreeExtents(start: nat, count: nat)
      requires Valid() && Present(store, bitmap, Reach(start + count))
      modifies `store, `allocDelta
      ensures Valid() && Edited(old(store), bitmap, Reach(start + count), start, count, false, store)
      ensures allocDelta == old(allocDelta) - count
      ensures start + count <= blocksPerGroup && (forall b :: start <= b < start + count ==> Used(old(store), bitmap, b)) ==>
        Free() + allocDelta == old(Free() + allocDelta)
    {
      hide Edited, Used;
      allocDelta := allocDelta - count;
      ModifyBlocks(start, count, false);
      EditedPresent(old(store), bitmap, Reach(start + count), start, count, false, store);
      ReachCovers(blocksPerGroup, start + count);
      InRange(blocksPerGroup, 0, blocksPerGroup);
      if start + count <= blocksPerGroup && forall b :: start <= b < start + count ==> Used(old(store), bitmap, b) {
        CountEdited(old(store), bitmap, BitmapBlocks(blocksPerGroup), start, count, false, store, blocksPerGroup);
      }
    }

    /** Counts the free blocks among the first `total`. */
    method CountFreeBlocks(total: nat) returns (free: nat)
      requires Present(store, bitmap, BitmapBlocks(total))
      ensures free == FreeCount(store, bitmap, total)
    {
      hide Used;
      free := 0;
      var remaining: nat := total;
      var bm: nat := 0;
      while remaining > 0
        invariant bm * BITS >= total ==> remaining == 0
        invariant remaining > 0 ==> remaining == total - bm * BITS
        invariant free == FreeCount(store, bitmap, total - remaining)
        decreases remaining
      {
        InTotal(bm, total);
        var buf := store[bitmap + bm];
        var here := Min(remaining, BITS);
        for i := 0 to here
          invariant free == FreeCount(store, bitmap, bm * BITS + i)
        {
          SameBit(store, bitmap, bm, i);
          if i % 8 !in buf[i / 8] {
            free := free + 1;
          }
        }
        remaining := remaining - here;
        bm := bm + 1;
      }
    }
  }

  /** Where a scan from bit `from` really starts: a bit past the last bitmap block is moved into it. */
  function ScanStart(n: nat, from: nat): nat
  {
    Min(from / BITS, Minus(BitmapBlocks(n), 1)) * BITS + from % BITS
  }

  /** Every run that a scan from bit `from` can find starts at or after that bit. */
  ghost predicate NeverEarly(n: nat, from: nat, count: nat)
  {
    forall store: Store, base: nat, start: nat ::
      Present(store, base, BitmapBlocks(n)) && FirstRun(store, base, ScanStart(n, from), n, count, start) ==> start >= from
  }

  lemma ScanStartBelow(n: nat, from: nat)
    ensures ScanStart(n, from) <= from
    ensures ScanStart(n, from) == from <==> from / BITS < Max(BitmapBlocks(n), 1)
  {
    assert from == from / BITS * BITS + from % BITS;
  }

  /** Runs start no earlier than asked if and only if the bitmap reaches that far, or from
      where the scan then starts the rest of the group is too short for a run. */
  lemma RunsStartInside(n: nat, from: nat, count: nat)
    requires count > 0
    ensures NeverEarly(n, from, count) <==> from / BITS < Max(BitmapBlocks(n), 1) || ScanStart(n, from) + count > n
  {
    ScanStartBelow(n, from);
    if ScanStart(n, from) < from && ScanStart(n, from) + count <= n {
      var store := EmptyBitmap(BitmapBlocks(n));
      EmptyIsFree(BitmapBlocks(n), ScanStart(n, from), count);
      assert Present(store, 0, BitmapBlocks(n)) && FirstRun(store, 0, ScanStart(n, from), n, count, ScanStart(n, from));
    }
  }

  /** A bitmap of n blocks, from block 0 on, with every bit clear. */
  function EmptyBitmap(n: nat): (r: Store)
    ensures forall i :: i in r <==> 0 <= i < n
    ensures forall i :: i in r ==> |r[i]| == BLOCK_SIZE && forall j :: 0 <= j < BLOCK_SIZE ==> r[i][j] == {}
  {
    if n == 0 then map[] else EmptyBitmap(n - 1)[n - 1 := seq<Octet>(BLOCK_SIZE, _ => {})]
  }

  lemma EmptyIsFree(n: nat, start: nat, count: nat)
    ensures Present(EmptyBitmap(n), 0, n) && FreeRun(EmptyBitmap(n), 0, start, count)
  {
  }

  /** In an empty group of 32768 blocks, asked for a block near the last one, the allocator hands out block 0:
      the search is to start at block 32768 and is moved to the start of the bitmap's only block. */
  method HintedRunStartsEarly() returns (r: Result<nat>)
    ensures PreferredStart(Some(32767), 32768) == 32768 && r == Ok(0)
  {
    hide Edited, Used, FreeRun, FreeCount, EmptyBitmap;
    EmptyIsFree(1, 0, 1);
    var tx := new TxContext(EmptyBitmap(1), 0, 32768);
    assert FirstRun(tx.store, 0, 0, 32768, 1, 0);
    r := tx.AllocateExtentsHinted(1, 32767);
  }

  /** Right after the last allocated block, but not past the end of the group. */
  function PreferredStart(last: Option<nat>, blocksPerGroup: nat): nat
  {
    Min(if last.Some? then last.value + 1 else 0, blocksPerGroup)
  }

  /** Where there is no short run there is no long one. */
  lemma ShorterRun(store: Store, base: nat, n: nat, long: nat, short: nat)
    requires short <= long
    ensures NoRun(store, base, 0, n, short) ==> NoRun(store, base, 0, n, long)
  {
    if NoRun(store, base, 0, n, short) {
      forall s | 0 <= s && s + long <= n ensures !FreeRun(store, base, s, long) {
        assert !FreeRun(store, base, s, short);
      }
    }
  }

  lemma InTotal(bm: nat, total: nat)
    requires bm * BITS < total
    ensures bm < BitmapBlocks(total)
  {
  }

  lemma BitPlace(bm: nat, i: nat)
    requires i < BITS
    ensures (bm * BITS + i) / BITS == bm && (bm * BITS + i) % BITS == i && (bm * BITS + i) % 8 == i % 8
  {
    assert bm * BITS + i == 8 * (bm * BLOCK_SIZE) + i;
  }

  lemma SameBit(store: Store, base: nat, bm: nat, i: nat)
    requires i < BITS && base + bm in store && |store[base + bm]| == BLOCK_SIZE
    ensures i / 8 < BLOCK_SIZE && (Used(store, base, bm * BITS + i) <==> i % 8 in store[base + bm][i / 8])
  {
    BitPlace(bm, i);
  }

  lemma EditedNot(store: Store, base: nat, n: nat, start: nat, value: bool)
    requires Present(store, base, n)
    ensures Edited(store, base, n, start, 0, value, store)
  {
  }

  lemma EditedPresent(store: Store, base: nat, n: nat, start: nat, count: nat, value: bool, store': Store)
    requires Edited(store, base, n, start, count, value, store')
    ensures Present(store', base, n)
  {
  }

  lemma ReachCovers(n: nat, end: nat)
    ensures BitmapBlocks(n) <= BitmapBlocks(Max(n, end))
  {
  }

  lemma InGroup(b: nat, n: nat)
    requires b < n * BITS
    ensures b / BITS < n && b % BITS / 8 < BLOCK_SIZE
  {
  }

  lemma BlockOf(bm: nat)
    ensures bm * BITS % BITS == 0 && bm * BITS / BITS == bm
  {
  }

  lemma StartOf(from: nat, block: nat)
    ensures block * BITS + 8 * (from % BITS / 8) + from % 8 == block * BITS + from % BITS
    ensures from % BITS / 8 < BLOCK_SIZE
  {
  }

  lemma NothingScanned(store: Store, base: nat, from: nat, n: nat, count: nat)
    requires count > 0
    ensures Progress(store, base, from, n, from, 0, count)
  {
  }

  lemma InRange(start: nat, count: nat, n: nat)
    requires start + count <= n
    ensures start + count <= BitmapBlocks(n) * BITS
  {
  }

  /** A scan past the last bitmap block has seen the whole group. */
  lemma Covered(n: nat, bm: nat, from: nat)
    requires bm >= BitmapBlocks(n)
    ensures bm * BITS >= n
  {
  }
}
