/** The frame store itself: slot buffers, counters and caller-owned views, updated in place. */
module FrameStore {
  import opened Words
  import opened FrameModel

  const EINVAL := -22
  const EOVERFLOW := -75
  const EMSGSIZE := -90
  const EBUSY := -16
  const ENOMEM := -12

  // ------------------------------------------------------ checked arithmetic

  function CheckedMul(a: nat, b: nat, sizeMax: nat): Option<nat> {
    if b != 0 && a > sizeMax / b then None else Some(a * b)
  }

  function CheckedAdd(a: nat, b: nat, sizeMax: nat): Option<nat>
    requires b <= sizeMax
  {
    if a > sizeMax - b then None else Some(a + b)
  }

  lemma {:induction false} DivisionBound(a: nat, b: nat, m: nat)
    requires b > 0
    ensures a > m / b <==> a * b > m
  {
    assert m == m / b * b + m % b;
    if a > m / b {
      assert a * b >= (m / b + 1) * b == m / b * b + b;
    } else {
      assert a * b <= m / b * b;
    }
  }

  /** The guard refuses exactly the products that do not fit a size_t, and otherwise nothing wraps. */
  lemma {:induction false} CheckedMulExact(a: nat, b: nat, sizeMax: nat)
    ensures CheckedMul(a, b, sizeMax) == if a * b > sizeMax then None else Some(a * b)
    ensures CheckedMul(a, b, sizeMax).Some? ==> a * b % (sizeMax + 1) == a * b
  {
    if b != 0 {
      DivisionBound(a, b, sizeMax);
    }
  }

  /** Whether, and how, a publish is refused, in unbounded arithmetic. */
  function Refusal(sizeMax: nat, capacity: nat, dataBytes: nat, width: nat, height: nat, stride: nat): int {
    if width == 0 || height == 0 then EINVAL
    else if width * 2 > sizeMax then EOVERFLOW
    else if stride < width * 2 then EINVAL
    else if (height - 1) * stride + width * 2 > sizeMax then EOVERFLOW
    else if dataBytes < (height - 1) * stride + width * 2 then EMSGSIZE
    else if width * 2 * height > sizeMax || width * 2 * height > capacity then EOVERFLOW
    else 0
  }

  /** Where byte c of row r lies in the caller's buffer. */
  function SourceAt(stride: nat, r: nat, c: nat): nat {
    r * stride + c
  }

  /**
   A frame is taken exactly if it has pixels, its rows do not overlap, every byte of every row is in the buffer,
   and the packed frame fits a slot, with no size past the largest; a buffer one byte short is refused as such.
   */
  lemma {:induction false} TakenIff(sizeMax: nat, capacity: nat, dataBytes: nat, width: nat, height: nat, stride: nat)
    requires dataBytes <= sizeMax
    ensures Refusal(sizeMax, capacity, dataBytes, width, height, stride) == 0
            <==>
            && width > 0 && height > 0 && width * 2 <= stride
            && (forall r: nat, c: nat :: r < height && c < width * 2 ==> SourceAt(stride, r, c) < dataBytes)
            && width * 2 * height <= capacity && width * 2 * height <= sizeMax && width * 2 <= sizeMax
    ensures width > 0 && height > 0 && width * 2 <= stride && dataBytes < sizeMax && width * 2 <= sizeMax
            && dataBytes == SourceAt(stride, height - 1, width * 2 - 1) ==>
              Refusal(sizeMax, capacity, dataBytes, width, height, stride) == EMSGSIZE
  {
    if width > 0 && height > 0 {
      assert SourceAt(stride, height - 1, width * 2 - 1) == (height - 1) * stride + width * 2 - 1;
      forall r: nat, c: nat | r < height && c < width * 2
        ensures SourceAt(stride, r, c) <= SourceAt(stride, height - 1, width * 2 - 1)
      {
        RowsInOrder(stride, r, height - 1);
      }
    }
  }

  /** The other answers: no pixels or rows that overlap, bytes missing, and everything that does not fit. */
  lemma {:induction false} RefusedAs(sizeMax: nat, capacity: nat, dataBytes: nat, width: nat, height: nat, stride: nat)
    requires width > 0 && height > 0
    ensures
      var code := Refusal(sizeMax, capacity, dataBytes, width, height, stride);
      var last := SourceAt(stride, height - 1, width * 2 - 1);
      && (code == EINVAL <==> stride < width * 2 <= sizeMax)
      && (code == EMSGSIZE <==> width * 2 <= stride && dataBytes <= last < sizeMax)
      && (code == EOVERFLOW <==>
            || width * 2 > sizeMax
            || (width * 2 <= stride && last >= sizeMax)
            || (width * 2 <= stride && last < sizeMax && last < dataBytes
                && (width * 2 * height > sizeMax || width * 2 * height > capacity)))
  {
    RowsInOrder(stride, 0, height - 1);
  }

  lemma RowsInOrder(stride: nat, r: nat, last: nat)
    requires r <= last
    ensures r * stride <= last * stride
  {
    assert (last - r) * stride >= 0;
    assert last * stride == r * stride + (last - r) * stride;
  }

  // ------------------------------------------------------------- compaction

  /** The first `rows` rows of `data`, the stride squeezed out. */
  function Compact(data: seq<byte>, rowBytes: nat, stride: nat, rows: nat): (r: seq<byte>)
    requires rows > 0 ==> (rows - 1) * stride + rowBytes <= |data|
    requires rowBytes <= stride
    ensures |r| == rows * rowBytes
  {
    if rows == 0 then []
    else
      FewerRows(stride, rowBytes, rows, |data|);
      Compact(data, rowBytes, stride, rows - 1) + data[(rows - 1) * stride..(rows - 1) * stride + rowBytes]
  }

  lemma {:induction false} FewerRows(stride: nat, rowBytes: nat, rows: nat, n: nat)
    requires rows > 0 && (rows - 1) * stride + rowBytes <= n && rowBytes <= stride
    ensures rows > 1 ==> (rows - 2) * stride + rowBytes <= n
    ensures rows * rowBytes == (rows - 1) * rowBytes + rowBytes
  {
    assert (rows - 1) * stride == (rows - 2) * stride + stride;
  }

  /** Pixel by pixel: destination row r, byte c is source row r, byte c. */
  lemma {:induction false} CompactAt(data: seq<byte>, rowBytes: nat, stride: nat, rows: nat, r: nat, c: nat)
    requires rows > 0 ==> (rows - 1) * stride + rowBytes <= |data|
    requires rowBytes <= stride && r < rows && c < rowBytes
    ensures 0 <= r * rowBytes + c < rows * rowBytes && 0 <= r * stride + c < |data|
    ensures Compact(data, rowBytes, stride, rows)[r * rowBytes + c] == data[r * stride + c]
    decreases rows
  {
    FewerRows(stride, rowBytes, rows, |data|);
    if r < rows - 1 {
      CompactAt(data, rowBytes, stride, rows - 1, r, c);
    }
  }

  method CopyRow(dst: array<byte>, at: nat, src: seq<byte>, from: nat, n: nat)
    requires at + n <= dst.Length && from + n <= |src|
    modifies dst
    ensures dst[..at] == old(dst[..at]) && dst[at..at + n] == src[from..from + n]
  {
    for i := 0 to n
      invariant dst[..at] == old(dst[..at]) && dst[at..at + i] == src[from..from + i]
    {
      dst[at + i] := src[from + i];
    }
  }

  lemma {:induction false} CompactNext(data: seq<byte>, rowBytes: nat, stride: nat, rows: nat)
    requires rows > 0 ==> (rows - 1) * stride + rowBytes <= |data|
    requires rowBytes <= stride && 0 <= rows * stride && rows * stride + rowBytes <= |data|
    ensures Compact(data, rowBytes, stride, rows + 1)
            == Compact(data, rowBytes, stride, rows) + data[rows * stride..rows * stride + rowBytes]
  {
  }

  /** One step of the row loop, in the wrapped arithmetic the C code uses. */
  method CopyNext(dst: array<byte>, src: seq<byte>, sizeMax: nat, rowBytes: nat, stride: nat, row: nat, height: nat)
    requires 0 < rowBytes <= stride && row < height
    requires (height - 1) * stride + rowBytes <= |src| && (height - 1) * stride + rowBytes <= sizeMax
    requires height * rowBytes <= dst.Length && height * rowBytes <= sizeMax
    requires 0 <= row * rowBytes <= dst.Length && (row > 0 ==> (row - 1) * stride + rowBytes <= |src|)
    requires dst[..row * rowBytes] == Compact(src, rowBytes, stride, row)
    modifies dst
    ensures 0 <= (row + 1) * rowBytes <= dst.Length && row * stride + rowBytes <= |src|
    ensures dst[..(row + 1) * rowBytes] == Compact(src, rowBytes, stride, row + 1)
  {
    RowInside(stride, rowBytes, row, height, |src|);
    RowInside(stride, rowBytes, row, height, sizeMax);
    CompactNext(src, rowBytes, stride, row);
    hide Compact;
    var to := row * rowBytes % (sizeMax + 1);
    var from := row * stride % (sizeMax + 1);
    assert to == row * rowBytes && from == row * stride by {
      SmallMod(row * rowBytes, sizeMax + 1);
      SmallMod(row * stride, sizeMax + 1);
    }
    CopyRow(dst, to, src, from, rowBytes);
    assert dst[..to + rowBytes] == dst[..to] + dst[to..to + rowBytes];
  }

  lemma SmallMod(x: nat, m: nat)
    requires x < m
    ensures x % m == x
  {
  }

  /** The row loop of publish. */
  method CopyRows(dst: array<byte>, src: seq<byte>, sizeMax: nat, rowBytes: nat, stride: nat, height: nat)
    requires 0 < rowBytes <= stride && height > 0
    requires (height - 1) * stride + rowBytes <= |src| && (height - 1) * stride + rowBytes <= sizeMax
    requires height * rowBytes <= dst.Length && height * rowBytes <= sizeMax
    modifies dst
    ensures dst[..height * rowBytes] == Compact(src, rowBytes, stride, height)
  {
    var row := 0;
    while row < height
      invariant 0 <= row <= height
      invariant row > 0 ==> (row - 1) * stride + rowBytes <= |src|
      invariant 0 <= row * rowBytes <= dst.Length
      invariant dst[..row * rowBytes] == Compact(src, rowBytes, stride, row)
    {
      CopyNext(dst, src, sizeMax, rowBytes, stride, row, height);
      row := row + 1;
    }
  }

  lemma {:induction false} RowInside(stride: nat, rowBytes: nat, row: nat, height: nat, n: nat)
    requires rowBytes <= stride && row < height && (height - 1) * stride + rowBytes <= n
    ensures 0 <= row * stride && row * stride + rowBytes <= n
    ensures 0 <= row * rowBytes && (row + 1) * rowBytes == row * rowBytes + rowBytes <= height * rowBytes
  {
    MulLe(row, height - 1, stride);
    MulLe(0, row, stride);
    MulLe(row + 1, height, rowBytes);
    MulLe(0, row, rowBytes);
  }

  // ------------------------------------------------------------------- views

  // Caller-owned; a released or never filled view has no store.
  class View {
    var data: array?<byte>
    var size: nat
    var width: nat
    var height: nat
    var generation: nat
    var session: nat
    var slot: nat
    var store: Store?
    ghost var id: nat

    constructor ()
      ensures store == null && data == null
    {
      data, size, width, height, generation, session, slot, store := null, 0, 0, 0, 0, 0, 0, null;
    }

    method Clear()
      modifies this
      ensures store == null && data == null && id == old(id)
    {
      data, size, width, height, generation, session, slot, store := null, 0, 0, 0, 0, 0, 0, null;
    }

    method Point(from: Store, at: nat)
      requires from.Laid() && at < SLOT_COUNT
      modifies this
      ensures store == from && slot == at && data == from.buffers[at] && session == from.sessionGeneration
      ensures size == from.sizes[at] && width == from.widths[at] && height == from.heights[at]
      ensures generation == from.generations[at] && id == from.acquired
    {
      data, size, width, height := from.buffers[at], from.sizes[at], from.widths[at], from.heights[at];
      generation, session, slot, store := from.generations[at], from.sessionGeneration, at, from;
      id := from.acquired;
    }
  }

  // ------------------------------------------------------------------- store

  class Store {
    const sizeMax: nat
    var buffers: seq<array?<byte>>
    var capacity: nat
    var sizes: seq<nat>
    var widths: seq<nat>
    var heights: seq<nat>
    var references: seq<nat>
    var generations: seq<nat>
    var sessionGeneration: nat
    var nextGeneration: nat
    var publishedSlot: int
    var initialized: bool
    ghost var leases: map<nat, Lease>
    ghost var acquired: nat

    ghost predicate Laid()
      reads this`buffers, this`capacity, this`sizes, this`widths, this`heights, this`references, this`generations,
            this`publishedSlot, this`initialized
    {
      && |buffers| == |sizes| == |widths| == |heights| == |references| == |generations| == SLOT_COUNT
      && -1 <= publishedSlot < SLOT_COUNT
      && (forall k :: 0 <= k < SLOT_COUNT ==> (buffers[k] != null <==> initialized))
      && (initialized ==> buffers[0] != buffers[1] && buffers[0] != buffers[2] && buffers[1] != buffers[2])
      && (forall k :: 0 <= k < SLOT_COUNT && buffers[k] != null ==>
            buffers[k].Length == capacity && sizes[k] <= capacity)
    }

    ghost function FrameAt(k: nat): Frame
      requires Laid() && k < SLOT_COUNT
      reads this`buffers, this`capacity, this`sizes, this`widths, this`heights, this`references, this`generations,
            this`publishedSlot, this`initialized, buffers
    {
      if buffers[k] == null then NO_FRAME
      else Frame(buffers[k][..sizes[k]], widths[k], heights[k], generations[k])
    }

    ghost function Frames(): (f: seq<Frame>)
      requires Laid()
      reads this`buffers, this`capacity, this`sizes, this`widths, this`heights, this`references, this`generations,
            this`publishedSlot, this`initialized, buffers
      ensures |f| == SLOT_COUNT
    {
      [FrameAt(0), FrameAt(1), FrameAt(2)]
    }

    /** The state machine's view of the fields. */
    ghost function Model(): (s: State)
      requires Laid()
      reads this, buffers
      ensures Shaped(s)
    {
      State(Frames(), references, publishedSlot, sessionGeneration, nextGeneration, initialized, leases, acquired)
    }

    ghost predicate Valid()
      reads this, buffers
    {
      Laid() && Inv(Model())
    }

    /** The view is one this store handed out and has not taken back. */
    ghost predicate Holds(v: View)
      requires Laid()
      reads this, buffers, v
    {
      && v.store == this && v.id in leases
      && var l := leases[v.id];
      && v.slot == l.slot < SLOT_COUNT && v.data == buffers[v.slot] && v.session == l.session
      && v.size == |l.frame.bytes| && v.width == l.frame.width && v.height == l.frame.height
      && v.generation == l.frame.generation
    }

    /** What a reader sees through an outstanding view: the frame it was handed, whole and unchanged. */
    lemma {:induction false} ReaderSees(v: View)
      requires Valid() && Holds(v)
      ensures v.data != null && v.size <= v.data.Length && v.data[..v.size] == leases[v.id].frame.bytes
    {
      HolderSlot(Model(), v.id);
      assert leases[v.id].frame == FrameAt(v.slot);
    }

    constructor (sizeMax: nat)
      ensures Valid() && !initialized && this.sizeMax == sizeMax && leases == map[]
    {
      this.sizeMax := sizeMax;
      buffers := [null, null, null];
      sizes, widths, heights, references, generations := [0, 0, 0], [0, 0, 0], [0, 0, 0], [0, 0, 0], [0, 0, 0];
      capacity, sessionGeneration, nextGeneration, publishedSlot, initialized := 0, 0, 0, -1, false;
      leases, acquired := map[], 0;
      new;
      NoLeasesInv(Model());
    }

    /** `granted` buffer allocations succeed before one fails. */
    method Init(capacity: nat, mutexOk: bool, granted: nat) returns (r: int)
      requires Valid() && !initialized
      modifies this
      ensures Valid()
      ensures r == if capacity == 0 then EINVAL else if !mutexOk || granted < SLOT_COUNT then ENOMEM else 0
      ensures r == 0 ==> Model() == FrameModel.Init() && this.capacity == capacity
      ensures r == 0 ==> fresh(buffers[0]) && fresh(buffers[1]) && fresh(buffers[2])
      ensures r != 0 ==> !initialized
    {
      hide Inv, Holders, FrameAt, Frames;
      InitInv();
      if capacity == 0 {
        return EINVAL;
      }
      Wipe(capacity, -1, 1);
      if !mutexOk {
        return ENOMEM;
      }
      if granted < SLOT_COUNT {
        Wipe(0, 0, 0);
        return ENOMEM;
      }
      Allocate();
      r := 0;
    }

    /** The memset of init, then the three fields it sets. */
    method Wipe(capacity: nat, published: int, session: nat)
      requires Laid() && !initialized && -1 <= published < SLOT_COUNT
      modifies this
      ensures Valid() && !initialized && this.capacity == capacity && leases == map[] && acquired == 0
      ensures sizes == widths == heights == references == generations == [0, 0, 0]
      ensures publishedSlot == published && sessionGeneration == session && nextGeneration == 0
    {
      hide Inv, Frames;
      WipeFields(capacity, published, session);
      NoLeasesInv(Model());
    }

    method WipeFields(capacity: nat, published: int, session: nat)
      requires Laid() && !initialized && -1 <= published < SLOT_COUNT
      modifies this
      ensures Laid() && !initialized && this.capacity == capacity && leases == map[] && acquired == 0
      ensures sizes == widths == heights == references == generations == [0, 0, 0]
      ensures publishedSlot == published && sessionGeneration == session && nextGeneration == 0
    {
      ZeroSlots();
      publishedSlot, this.capacity, sessionGeneration, nextGeneration := published, capacity, session, 0;
      leases, acquired := map[], 0;
    }

    method ZeroSlots()
      requires Laid() && !initialized
      modifies this`sizes, this`widths, this`heights, this`references, this`generations
      ensures Laid() && sizes == widths == heights == references == generations == [0, 0, 0]
    {
      sizes, widths, heights, references, generations := [0, 0, 0], [0, 0, 0], [0, 0, 0], [0, 0, 0], [0, 0, 0];
    }

    method Allocate()
      requires Laid() && !initialized && sizes == widths == heights == generations == [0, 0, 0]
      modifies this`buffers, this`initialized
      ensures Laid() && initialized && Frames() == [NO_FRAME, NO_FRAME, NO_FRAME]
      ensures fresh(buffers[0]) && fresh(buffers[1]) && fresh(buffers[2])
    {
      var b0 := new byte[capacity](_ => 0);
      var b1 := new byte[capacity](_ => 0);
      var b2 := new byte[capacity](_ => 0);
      buffers := [b0, b1, b2];
      initialized := true;
    }

    method Publish(data: Option<seq<byte>>, dataBytes: nat, width: nat, height: nat, stride: nat) returns (r: int)
      requires Valid() && width <= UINT32_MAX <= sizeMax && height <= UINT32_MAX && stride <= UINT32_MAX
      requires data.Some? ==> dataBytes <= |data.value|
      modifies this`sizes, this`widths, this`heights, this`generations, this`nextGeneration, this`publishedSlot, buffers
      ensures Valid()
      ensures var refusal := if !initialized || data.None? then EINVAL
                             else Refusal(sizeMax, capacity, dataBytes, width, height, stride);
              && r == (if refusal != 0 then refusal else if FreeSlot(references) == SLOT_COUNT then 0 else 1)
              && Model() == if refusal != 0 then old(Model())
                            else Step(old(Model()),
                                      FrameModel.Publish(Compact(data.value, width * 2, stride, height), width, height))
    {
      if !initialized || data.None? || width == 0 || height == 0 {
        return EINVAL;
      }
      CheckedMulExact(width, 2, sizeMax);
      var rowBytes := CheckedMul(width, 2, sizeMax);
      if rowBytes.None? {
        return EOVERFLOW;
      }
      if stride < rowBytes.value {
        return EINVAL;
      }
      CheckedMulExact(height - 1, stride, sizeMax);
      var prefix := CheckedMul(height - 1, stride, sizeMax);
      if prefix.None? {
        return EOVERFLOW;
      }
      var need := CheckedAdd(prefix.value, rowBytes.value, sizeMax);
      if need.None? {
        return EOVERFLOW;
      }
      if dataBytes < need.value {
        return EMSGSIZE;
      }
      CheckedMulExact(rowBytes.value, height, sizeMax);
      var output := CheckedMul(rowBytes.value, height, sizeMax);
      if output.None? || output.value > capacity {
        return EOVERFLOW;
      }
      r := StoreLocked(data.value, rowBytes.value, width, height, stride);
    }

    /** The frame is copied into a slot nobody reads; the other slots keep theirs. */
    method Fill(target: nat, data: seq<byte>, rowBytes: nat, width: nat, height: nat, stride: nat)
      requires Laid() && initialized && target < SLOT_COUNT && 0 < rowBytes <= stride && height > 0
      requires (height - 1) * stride + rowBytes <= |data| && (height - 1) * stride + rowBytes <= sizeMax
      requires rowBytes * height <= capacity && rowBytes * height <= sizeMax
      modifies this`sizes, this`widths, this`heights, this`generations, this`nextGeneration, buffers[target]
      ensures Laid() && nextGeneration == old(nextGeneration) + 1
      ensures Frames() == old(Frames())[target := Frame(Compact(data, rowBytes, stride, height), width, height,
                                                         nextGeneration)]
    {
      hide FrameAt, Frames, Compact;
      CopyInto(target, data, rowBytes, stride, height);
      Label(target, rowBytes * height, width, height);
    }

    method CopyInto(target: nat, data: seq<byte>, rowBytes: nat, stride: nat, height: nat)
      requires Laid() && initialized && target < SLOT_COUNT && 0 < rowBytes <= stride && height > 0
      requires (height - 1) * stride + rowBytes <= |data| && (height - 1) * stride + rowBytes <= sizeMax
      requires rowBytes * height <= capacity && rowBytes * height <= sizeMax
      modifies buffers[target]
      ensures Laid() && buffers[target][..rowBytes * height] == Compact(data, rowBytes, stride, height)
      ensures forall k :: 0 <= k < SLOT_COUNT && k != target ==> Frames()[k] == old(Frames()[k])
    {
      hide Compact;
      assert height * rowBytes == rowBytes * height;
      CopyRows(buffers[target], data, sizeMax, rowBytes, stride, height);
    }

    /** What a slot now holds is written beside it. */
    method Label(target: nat, size: nat, width: nat, height: nat)
      requires Laid() && initialized && target < SLOT_COUNT && size <= capacity
      modifies this`sizes, this`widths, this`heights, this`generations, this`nextGeneration
      ensures Laid() && nextGeneration == old(nextGeneration) + 1
      ensures Frames() == old(Frames())[target := Frame(buffers[target][..size], width, height, nextGeneration)]
    {
      sizes := sizes[target := size];
      widths := widths[target := width];
      heights := heights[target := height];
      nextGeneration := nextGeneration + 1;
      generations := generations[target := nextGeneration];
    }

    method FindFree() returns (target: nat)
      requires |references| == SLOT_COUNT
      ensures target == FreeSlot(references)
    {
      target := 0;
      while target < SLOT_COUNT && references[target] != 0
        invariant target <= SLOT_COUNT && forall j :: 0 <= j < target ==> references[j] != 0
      {
        target := target + 1;
      }
    }

    /** The lock-held section of publish. */
    method StoreLocked(data: seq<byte>, rowBytes: nat, width: nat, height: nat, stride: nat) returns (r: int)
      requires Valid() && initialized && 0 < rowBytes <= stride && height > 0
      requires (height - 1) * stride + rowBytes <= |data| && (height - 1) * stride + rowBytes <= sizeMax
      requires rowBytes * height <= capacity && rowBytes * height <= sizeMax
      modifies this`sizes, this`widths, this`heights, this`generations, this`nextGeneration, this`publishedSlot, buffers
      ensures Valid()
      ensures r == (if FreeSlot(references) == SLOT_COUNT then 0 else 1)
      ensures Model() == Step(old(Model()), FrameModel.Publish(Compact(data, rowBytes, stride, height), width, height))
    {
      hide Inv, Holders, Compact, FrameAt, Frames;
      StepKeepsInv(Model(), FrameModel.Publish(Compact(data, rowBytes, stride, height), width, height));
      var target := FindFree();
      if target == SLOT_COUNT {
        return 0;
      }
      Fill(target, data, rowBytes, width, height, stride);
      SetPublished(target);
      r := 1;
    }

    method SetPublished(slot: int)
      requires Laid() && -1 <= slot < SLOT_COUNT
      modifies this`publishedSlot
      ensures Laid() && publishedSlot == slot && Frames() == old(Frames())
    {
      publishedSlot := slot;
    }

    method Acquire(v: View) returns (r: int)
      requires Valid()
      modifies this`references, this`leases, this`acquired, v
      ensures Valid()
      ensures Model() == Step(old(Model()), FrameModel.Acquire)
      ensures r == if !initialized then EINVAL else if publishedSlot < 0 then 0
                   else if old(references)[publishedSlot] == UINT32_MAX then EOVERFLOW else 1
      ensures r == 1 ==> Holds(v) && v.id == old(acquired)
      ensures r != 1 && initialized ==> v.store == null
    {
      hide Inv, Holders, FrameAt, Frames;
      StepKeepsInv(Model(), FrameModel.Acquire);
      if !initialized {
        return EINVAL;
      }
      v.Clear();
      var slot := publishedSlot;
      if slot < 0 {
        return 0;
      }
      if references[slot] == UINT32_MAX {
        return EOVERFLOW;
      }
      Lend(v, slot);
      r := 1;
    }

    /** The granting half of acquire. */
    method Lend(v: View, slot: nat)
      requires Laid() && initialized && slot < SLOT_COUNT
      modifies this`references, this`leases, this`acquired, v
      ensures Laid() && Frames() == old(Frames()) && Holds(v) && v.id == old(acquired)
      ensures references == old(references)[slot := old(references[slot]) + 1] && acquired == old(acquired) + 1
      ensures leases == old(leases)[old(acquired) := Lease(slot, old(Frames())[slot], sessionGeneration)]
    {
      v.Point(this, slot);
      references := references[slot := references[slot] + 1];
      leases := leases[acquired := Lease(slot, Frames()[slot], sessionGeneration)];
      acquired := acquired + 1;
    }

    /**
     The counter is all the code asks about: a view released already, or a copy of one, is taken while anyone
     still reads its slot. The account balances afterwards exactly if the view was refused or outstanding.
     */
    method Release(v: View) returns (r: int)
      requires Valid() && (v.store == null || v.store == this)
      modifies this`references, this`leases, v
      ensures r == if old(v.store) == null || !initialized || old(v.slot) >= SLOT_COUNT
                      || old(references[v.slot]) == 0 then EINVAL else 0
      ensures Laid() && (Valid() <==> r != 0 || old(Holds(v)))
      ensures r != 0 ==> unchanged(v) && Model() == old(Model())
      ensures r == 0 ==> v.store == null && references == old(references[v.slot := references[v.slot] - 1])
      ensures old(Holds(v)) ==> r == 0 && Model() == Step(old(Model()), FrameModel.Release(old(v.id)))
      ensures !old(Holds(v)) ==> leases == old(leases)
    {
      hide Inv, Holders, FrameAt, Frames, Step, Holds;
      HeldIsCounted(v);
      if v.store == null || !initialized || v.slot >= SLOT_COUNT || references[v.slot] == 0 {
        return EINVAL;
      }
      Miscounted(Model(), v.slot);
      if Holds(v) {
        Returned(Model(), v.id);
      }
      TakeBack(v);
      r := 0;
    }

    /** The accepting half of release. */
    method TakeBack(v: View)
      requires Laid() && v.slot < SLOT_COUNT && references[v.slot] > 0
      modifies this`references, this`leases, v
      ensures Laid() && Frames() == old(Frames()) && v.store == null
      ensures references == old(references[v.slot := references[v.slot] - 1])
      ensures leases == if old(Holds(v)) then old(leases) - {old(v.id)} else old(leases)
    {
      ghost var left := if Holds(v) then leases - {v.id} else leases;
      references := references[v.slot := references[v.slot] - 1];
      leases := left;
      v.Clear();
    }

    /** What the counters refuse was not outstanding. */
    lemma HeldIsCounted(v: View)
      requires Valid()
      ensures Holds(v) ==>
                && v.store == this && initialized && v.id in leases
                && v.slot == leases[v.id].slot < SLOT_COUNT && references[v.slot] > 0
    {
      if Holds(v) {
        HolderSlot(Model(), v.id);
      }
    }

    method IsCurrent(v: View) returns (current: bool)
      requires Valid() && (v.store == null || v.store == this)
      ensures current <==> v.store != null && initialized && v.session == sessionGeneration
      ensures Holds(v) ==> (current <==> leases[v.id].session == Model().session)
    {
      if v.store == null || !initialized {
        return false;
      }
      current := v.session == sessionGeneration;
    }

    method Invalidate()
      requires Valid()
      modifies this`publishedSlot, this`sessionGeneration
      ensures Valid() && Model() == Step(old(Model()), FrameModel.Invalidate)
    {
      StepKeepsInv(Model(), FrameModel.Invalidate);
      if !initialized {
        return;
      }
      publishedSlot := -1;
      sessionGeneration := sessionGeneration + 1;
    }

    /** Refused while any view is outstanding; otherwise the buffers are freed. */
    method Destroy() returns (r: int)
      requires Valid()
      modifies this`publishedSlot, this`initialized, this`buffers, this`capacity
      ensures Valid() && Model() == Step(old(Model()), FrameModel.Destroy)
      ensures r == if !old(initialized) then EINVAL else if old(leases) != map[] then EBUSY else 0
    {
      StepKeepsInv(Model(), FrameModel.Destroy);
      if !initialized {
        return EINVAL;
      }
      LeasedIff(Model());
      if references[0] != 0 || references[1] != 0 || references[2] != 0 {
        return EBUSY;
      }
      publishedSlot := -1;
      initialized := false;
      buffers := [null, null, null];
      capacity := 0;
      r := 0;
    }
  }

  lemma {:induction false} Returned(s: State, id: nat)
    requires Inv(s) && s.alive && id in s.leases
    ensures
      var k := s.leases[id].slot;
      && k < SLOT_COUNT && s.refs[k] > 0 && Inv(Step(s, FrameModel.Release(id)))
      && Step(s, FrameModel.Release(id)) == s.(refs := s.refs[k := s.refs[k] - 1], leases := s.leases - {id})
  {
    HolderSlot(s, id);
    StepKeepsInv(s, FrameModel.Release(id));
  }

  lemma {:induction false} Miscounted(s: State, k: nat)
    requires Inv(s) && k < SLOT_COUNT && s.refs[k] > 0
    ensures !Inv(s.(refs := s.refs[k := s.refs[k] - 1]))
  {
  }

  /** Some slot is counted exactly when some view is outstanding. */
  lemma {:induction false} LeasedIff(s: State)
    requires Inv(s)
    ensures s.leases == map[] <==> s.refs[0] == 0 && s.refs[1] == 0 && s.refs[2] == 0
  {
    if id :| id in s.leases {
      HolderSlot(s, id);
    } else {
      assert forall k: nat :: Holders(s.leases, k) == {};
    }
  }
}
