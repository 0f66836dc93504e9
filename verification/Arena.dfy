/**
  The bump allocator. Addresses are numbers, 0 is the null pointer and a pointer takes
  eight bytes; the address the system's `new char[n]` would return is an input of each call.
 */
module Arenas {
  import opened Bits

  const BLOCK_SIZE: nat := 4096
  const ALIGN: nat := 8
  const POINTER_SIZE: nat := 8

  /** `standard` tells the blocks requests are cut from apart from those made for one request. */
  datatype Block = Block(base: nat, size: nat, standard: bool)

  datatype State = State(ptr: nat, remaining: nat, blocks: seq<Block>, usage: nat)

  /** One call, with the address a new block would get. */
  datatype Request = Request(bytes: nat, aligned: bool, newBase: nat)

  const EMPTY: State := State(0, 0, [], 0)

  // ----- the allocator as a function of its state

  /** Bytes to skip so that the pointer becomes a multiple of `ALIGN`. */
  function Slop(ptr: nat): nat {
    var currentMod := BitAnd(ptr, ALIGN - 1);
    AlignMask(ptr);
    if currentMod == 0 then 0 else ALIGN - currentMod
  }

  lemma AlignMask(ptr: nat)
    ensures BitAnd(ptr, ALIGN - 1) == ptr % 8
  {
    assert Pow2(3) == 8;
    AndMask(ptr, 3);
    LowIsMod(ptr, 3);
  }

  function Needed(s: State, r: Request): nat {
    if r.aligned then r.bytes + Slop(s.ptr) else r.bytes
  }

  function NewBlock(s: State, b: Block): State {
    s.(blocks := s.blocks + [b], usage := s.usage + (b.size + POINTER_SIZE))
  }

  /** The block a request makes when the window is too small for it. */
  function BlockFor(r: Request): Block {
    if r.bytes > BLOCK_SIZE / 4 then Block(r.newBase, r.bytes, false) else Block(r.newBase, BLOCK_SIZE, true)
  }

  function Step(s: State, r: Request): State {
    var needed := Needed(s, r);
    if needed <= s.remaining then s.(ptr := s.ptr + needed, remaining := s.remaining - needed)
    else if r.bytes > BLOCK_SIZE / 4 then NewBlock(s, BlockFor(r))
    else NewBlock(s, BlockFor(r)).(ptr := r.newBase + r.bytes, remaining := BLOCK_SIZE - r.bytes)
  }

  /** The address returned. */
  function Result(s: State, r: Request): nat {
    var needed := Needed(s, r);
    if needed <= s.remaining then s.ptr + (needed - r.bytes) else r.newBase
  }

  // ----- the class

  class Arena {
    var allocPtr: nat
    var allocBytesRemaining: nat
    var blocks: seq<nat>
    var memoryUsage: nat
    ghost var layout: seq<Block>

    ghost function Abs(): State
      reads this
    {
      State(allocPtr, allocBytesRemaining, layout, memoryUsage)
    }

    /** The recorded pointers are those of the blocks. */
    ghost predicate Valid()
      reads this
    {
      |blocks| == |layout| && forall i :: 0 <= i < |blocks| ==> blocks[i] == layout[i].base
    }

    constructor ()
      ensures Valid() && Abs() == EMPTY
    {
      allocPtr, allocBytesRemaining, blocks, memoryUsage := 0, 0, [], 0;
      layout := [];
    }

    method Allocate(bytes: nat, newBase: nat) returns (res: nat)
      requires Valid() && bytes > 0
      modifies this
      ensures Valid()
      ensures Abs() == Step(old(Abs()), Request(bytes, false, newBase))
      ensures res == Result(old(Abs()), Request(bytes, false, newBase))
    {
      if bytes <= allocBytesRemaining {
        res := allocPtr;
        allocPtr := allocPtr + bytes;
        allocBytesRemaining := allocBytesRemaining - bytes;
        return;
      }
      res := AllocateFallback(bytes, newBase);
    }

    method AllocateAligned(bytes: nat, newBase: nat) returns (res: nat)
      requires Valid() && newBase % ALIGN == 0
      modifies this
      ensures Valid()
      ensures Abs() == Step(old(Abs()), Request(bytes, true, newBase))
      ensures res == Result(old(Abs()), Request(bytes, true, newBase))
      ensures res % ALIGN == 0
    {
      AlignMask(allocPtr);
      hide BitAnd;
      var currentMod := BitAnd(allocPtr, ALIGN - 1);
      var slop := if currentMod == 0 then 0 else ALIGN - currentMod;
      var needed := bytes + slop;
      if needed <= allocBytesRemaining {
        res := allocPtr + slop;
        allocPtr := allocPtr + needed;
        allocBytesRemaining := allocBytesRemaining - needed;
      } else {
        res := AllocateFallback(bytes, newBase);
      }
      AlignMask(res);
      assert BitAnd(res, ALIGN - 1) == 0;
    }

    method AllocateFallback(bytes: nat, newBase: nat) returns (res: nat)
      requires Valid()
      modifies this
      ensures Valid() && res == newBase
      ensures var grown := NewBlock(old(Abs()), BlockFor(Request(bytes, false, newBase)));
              Abs() == if bytes > BLOCK_SIZE / 4 then grown
                       else grown.(ptr := newBase + bytes, remaining := BLOCK_SIZE - bytes)
    {
      if bytes > BLOCK_SIZE / 4 {
        res := AllocateNewBlock(bytes, newBase, false);
        return;
      }
      allocPtr := AllocateNewBlock(BLOCK_SIZE, newBase, true);
      allocBytesRemaining := BLOCK_SIZE;
      res := allocPtr;
      allocPtr := allocPtr + bytes;
      allocBytesRemaining := allocBytesRemaining - bytes;
    }

    method AllocateNewBlock(blockBytes: nat, newBase: nat, ghost standard: bool) returns (res: nat)
      requires Valid()
      modifies this
      ensures Valid() && res == newBase
      ensures Abs() == NewBlock(old(Abs()), Block(newBase, blockBytes, standard))
    {
      res := newBase;
      blocks := blocks + [res];
      layout := layout + [Block(newBase, blockBytes, standard)];
      memoryUsage := memoryUsage + (blockBytes + POINTER_SIZE);
    }
  }

  // ----- runs

  predicate Apart(a: nat, n: nat, b: nat, m: nat) {
    a + n <= b || b + m <= a
  }

  /** What the system promises of a new block: aligned, not null, apart from all others. */
  predicate FreshBase(s: State, b: Block) {
    && b.base > 0 && b.base % ALIGN == 0
    && forall i :: 0 <= i < |s.blocks| ==> Apart(b.base, b.size, s.blocks[i].base, s.blocks[i].size)
  }

  /** `allocate` asserts a positive size; a new block is fresh when one is made. */
  predicate Enabled(s: State, r: Request) {
    && (r.aligned || r.bytes > 0)
    && (Needed(s, r) > s.remaining ==> FreshBase(s, BlockFor(r)))
  }

  /** A region handed out. */
  datatype Region = Region(addr: nat, len: nat)

  /** The state after a run with its history: the regions handed out and how the bytes of the
      standard blocks were spent. */
  datatype History = History(
    s: State,
    regions: seq<Region>,
    served: nat,      // requested bytes cut from standard blocks
    large: nat,       // requested bytes given blocks of their own
    largeCount: nat,
    slop: nat,        // bytes skipped for alignment
    waste: nat,       // unused tails of standard blocks left behind
    standard: nat,    // number of standard blocks
    aligned: nat)     // number of aligned requests

  const NOTHING: History := History(EMPTY, [], 0, 0, 0, 0, 0, 0, 0)

  function Extend(h: History, r: Request): History {
    var h' := h.(s := Step(h.s, r),
                 regions := h.regions + [Region(Result(h.s, r), r.bytes)],
                 aligned := h.aligned + (if r.aligned then 1 else 0));
    if Needed(h.s, r) <= h.s.remaining then
      h'.(served := h.served + r.bytes, slop := h.slop + (Needed(h.s, r) - r.bytes))
    else if r.bytes > BLOCK_SIZE / 4 then
      h'.(large := h.large + r.bytes, largeCount := h.largeCount + 1)
    else
      h'.(served := h.served + r.bytes, waste := h.waste + h.s.remaining, standard := h.standard + 1)
  }

  predicate Legal(h: History, rs: seq<Request>)
    decreases |rs|
  {
    rs == [] || (Enabled(h.s, rs[0]) && Legal(Extend(h, rs[0]), rs[1..]))
  }

  function Run(h: History, rs: seq<Request>): History
    requires Legal(h, rs)
    decreases |rs|
  {
    if rs == [] then h else Run(Extend(h, rs[0]), rs[1..])
  }

  function TotalRequested(rs: seq<Request>): nat {
    if rs == [] then 0 else rs[0].bytes + TotalRequested(rs[1..])
  }

  function BlockBytes(bs: seq<Block>): nat {
    if bs == [] then 0 else BlockBytes(bs[..|bs| - 1]) + bs[|bs| - 1].size
  }

  // ----- the invariant

  /** The region lies in block `i`. */
  predicate Inside(r: Region, b: Block) {
    b.base <= r.addr && r.addr + r.len <= b.base + b.size
  }

  ghost predicate BlocksApart(s: State) {
    && (forall i :: 0 <= i < |s.blocks| ==> s.blocks[i].base > 0 && s.blocks[i].base % ALIGN == 0)
    && (forall i, j :: 0 <= i < j < |s.blocks| ==>
          Apart(s.blocks[i].base, s.blocks[i].size, s.blocks[j].base, s.blocks[j].size))
  }

  /** The free window is the tail of a standard block, or there is none yet. */
  ghost predicate WindowOwned(s: State) {
    || (s.ptr == 0 && s.remaining == 0)
    || exists i :: 0 <= i < |s.blocks| && WindowIn(s, s.blocks[i])
  }

  predicate WindowIn(s: State, b: Block) {
    b.standard && b.size == BLOCK_SIZE && b.base <= s.ptr && s.ptr + s.remaining == b.base + b.size
  }

  /** Every nonempty region lies in an owned block, apart from the window and from every other. */
  ghost predicate RegionsApart(h: History) {
    && (forall k :: 0 <= k < |h.regions| && h.regions[k].len > 0 ==>
          && (exists i :: 0 <= i < |h.s.blocks| && Inside(h.regions[k], h.s.blocks[i]))
          && Apart(h.regions[k].addr, h.regions[k].len, h.s.ptr, h.s.remaining))
    && (forall k, l :: 0 <= k < l < |h.regions| ==>
          Apart(h.regions[k].addr, h.regions[k].len, h.regions[l].addr, h.regions[l].len)
          || h.regions[k].len == 0 || h.regions[l].len == 0)
  }

  /** Where every byte of every block went. */
  predicate Accounts(h: History) {
    && h.s.usage == BlockBytes(h.s.blocks) + POINTER_SIZE * |h.s.blocks|
    && BlockBytes(h.s.blocks) == BLOCK_SIZE * h.standard + h.large
    && |h.s.blocks| == h.standard + h.largeCount
    && BLOCK_SIZE * h.standard == h.served + h.slop + h.waste + h.s.remaining
    && h.waste <= 1030 * (if h.standard == 0 then 0 else h.standard - 1)
    && h.s.remaining <= (if h.standard == 0 then 0 else BLOCK_SIZE)
    && h.slop <= 7 * h.aligned
    && h.large >= 1025 * h.largeCount
  }

  ghost predicate Inv(h: History) {
    BlocksApart(h.s) && WindowOwned(h.s) && RegionsApart(h) && Accounts(h)
  }

  lemma BlocksStep(h: History, r: Request)
    requires Inv(h) && Enabled(h.s, r)
    ensures BlocksApart(Step(h.s, r)) && WindowOwned(Step(h.s, r))
  {
    hide Slop;
    var s, s' := h.s, Step(h.s, r);
    if Needed(s, r) <= s.remaining {
      if s.ptr != 0 || s.remaining != 0 {
        var i :| 0 <= i < |s.blocks| && WindowIn(s, s.blocks[i]);
        assert WindowIn(s', s'.blocks[i]);
      }
    } else if r.bytes > BLOCK_SIZE / 4 {
      if s.ptr != 0 || s.remaining != 0 {
        var i :| 0 <= i < |s.blocks| && WindowIn(s, s.blocks[i]);
        assert WindowIn(s', s'.blocks[i]);
      }
    } else {
      assert WindowIn(s', s'.blocks[|s.blocks|]);
    }
  }

  /** A region inside an old block is apart from anything in a fresh one. */
  lemma ApartFromFresh(r: Region, b: Block, made: Block, addr: nat, len: nat)
    requires Inside(r, b) && Apart(made.base, made.size, b.base, b.size)
    requires made.base <= addr && addr + len <= made.base + made.size
    ensures Apart(r.addr, r.len, addr, len)
  {
  }

  /** The new region, the old ones and the new window are apart. */
  lemma RegionsStep(h: History, r: Request)
    requires Inv(h) && Enabled(h.s, r)
    ensures RegionsApart(Extend(h, r))
  {
    hide Slop, BlockBytes;
    var s, s', h' := h.s, Step(h.s, r), Extend(h, r);
    var given := Region(Result(s, r), r.bytes);
    forall k | 0 <= k < |h.regions| && h.regions[k].len > 0
      ensures exists i :: 0 <= i < |s'.blocks| && Inside(h.regions[k], s'.blocks[i])
      ensures Apart(h.regions[k].addr, h.regions[k].len, s'.ptr, s'.remaining)
      ensures Apart(h.regions[k].addr, h.regions[k].len, given.addr, given.len)
    {
      var i :| 0 <= i < |s.blocks| && Inside(h.regions[k], s.blocks[i]);
      assert Inside(h.regions[k], s'.blocks[i]);
      if Needed(s, r) > s.remaining {
        ApartFromFresh(h.regions[k], s.blocks[i], BlockFor(r), given.addr, given.len);
        if r.bytes <= BLOCK_SIZE / 4 {
          ApartFromFresh(h.regions[k], s.blocks[i], BlockFor(r), s'.ptr, s'.remaining);
        }
      }
    }
    NewRegion(h, r);
  }

  lemma NewRegion(h: History, r: Request)
    requires Inv(h) && Enabled(h.s, r)
    ensures var s' := Step(h.s, r);
            r.bytes > 0 ==>
              && (exists i :: 0 <= i < |s'.blocks| && Inside(Region(Result(h.s, r), r.bytes), s'.blocks[i]))
              && Apart(Result(h.s, r), r.bytes, s'.ptr, s'.remaining)
  {
    hide Slop, BlockBytes;
    var s, s' := h.s, Step(h.s, r);
    var given := Region(Result(s, r), r.bytes);
    if r.bytes > 0 {
      if Needed(s, r) <= s.remaining {
        var i :| 0 <= i < |s.blocks| && WindowIn(s, s.blocks[i]);
        assert Inside(given, s'.blocks[i]);
      } else {
        assert Inside(given, s'.blocks[|s.blocks|]);
        if r.bytes > BLOCK_SIZE / 4 && s.remaining > 0 {
          var i :| 0 <= i < |s.blocks| && WindowIn(s, s.blocks[i]);
          assert Apart(r.newBase, r.bytes, s.blocks[i].base, s.blocks[i].size);
        }
      }
    }
  }

  lemma NeededBound(s: State, r: Request)
    ensures r.bytes <= Needed(s, r) <= r.bytes + (if r.aligned then 7 else 0)
  {
    AlignMask(s.ptr);
  }

  lemma BlockBytesAppend(bs: seq<Block>, b: Block)
    ensures BlockBytes(bs + [b]) == BlockBytes(bs) + b.size
  {
    assert (bs + [b])[..|bs|] == bs;
  }

  lemma AccountsStep(h: History, r: Request)
    requires Accounts(h)
    ensures Accounts(Extend(h, r))
  {
    hide Needed, BlockBytes;
    NeededBound(h.s, r);
    BlockBytesAppend(h.s.blocks, BlockFor(r));
  }

  /** Every call keeps the invariant. */
  lemma StepKeepsInv(h: History, r: Request)
    requires Inv(h) && Enabled(h.s, r)
    ensures Inv(Extend(h, r))
  {
    BlocksStep(h, r);
    RegionsStep(h, r);
    AccountsStep(h, r);
    hide BlocksApart, WindowOwned, RegionsApart, Accounts, Step, Result, Needed;
  }

  lemma ExtendSums(h: History, r: Request)
    ensures Extend(h, r).served + Extend(h, r).large == h.served + h.large + r.bytes
    ensures Extend(h, r).s == Step(h.s, r) && h.s.usage <= Step(h.s, r).usage
  {
    hide Slop;
  }

  lemma {:induction false} RunKeepsInv(h: History, rs: seq<Request>)
    requires Inv(h) && Legal(h, rs)
    ensures Inv(Run(h, rs))
    ensures Run(h, rs).served + Run(h, rs).large == h.served + h.large + TotalRequested(rs)
    ensures h.s.usage <= Run(h, rs).s.usage
    decreases |rs|
  {
    hide Inv, Extend, Step, Enabled;
    if rs != [] {
      StepKeepsInv(h, rs[0]);
      ExtendSums(h, rs[0]);
      RunKeepsInv(Extend(h, rs[0]), rs[1..]);
    }
  }

  lemma FromNothing(rs: seq<Request>)
    requires Legal(NOTHING, rs)
    ensures Inv(Run(NOTHING, rs))
    ensures Run(NOTHING, rs).served + Run(NOTHING, rs).large == TotalRequested(rs)
  {
    hide Inv, Run, Legal, TotalRequested;
    NothingInv();
    RunKeepsInv(NOTHING, rs);
  }

  lemma NothingInv()
    ensures Inv(NOTHING)
  {
  }

  /** From an empty arena, after any sequence of requests: all regions handed out are pairwise
      disjoint and each lies inside one owned block, the free window is the tail of an owned
      block, and no region overlaps it. */
  lemma RunIsSafe(rs: seq<Request>)
    requires Legal(NOTHING, rs)
    ensures var h := Run(NOTHING, rs); BlocksApart(h.s) && WindowOwned(h.s) && RegionsApart(h)
  {
    hide Run, Legal, TotalRequested, BlocksApart, WindowOwned, RegionsApart, Accounts;
    FromNothing(rs);
  }

  /** Aligned requests return multiples of eight. */
  lemma AlignedResult(s: State, r: Request)
    requires r.aligned && Enabled(s, r)
    ensures Result(s, r) % ALIGN == 0
  {
    AlignMask(s.ptr);
  }

  /** The accounting: usage is the size of all blocks and one pointer each, never less than
      what was requested. */
  lemma UsageIsExact(rs: seq<Request>)
    requires Legal(NOTHING, rs)
    ensures var h := Run(NOTHING, rs);
            && h.s.usage == BlockBytes(h.s.blocks) + 8 * |h.s.blocks|
            && h.s.usage >= TotalRequested(rs)
  {
    hide Run, Legal, TotalRequested, BlocksApart, WindowOwned, RegionsApart, BlockBytes;
    FromNothing(rs);
  }

  /** Usage never decreases. */
  lemma UsageGrows(rs: seq<Request>, more: seq<Request>)
    requires Legal(NOTHING, rs) && Legal(Run(NOTHING, rs), more)
    ensures Run(NOTHING, rs).s.usage <= Run(Run(NOTHING, rs), more).s.usage
  {
    hide Run, Legal, TotalRequested, Inv;
    FromNothing(rs);
    RunKeepsInv(Run(NOTHING, rs), more);
  }

  /** Space over any run: at most 1030 bytes of a standard block are left behind, so the number
      of standard blocks, and with it the whole usage, is linear in the bytes requested. */
  lemma SpaceBound(rs: seq<Request>)
    requires Legal(NOTHING, rs)
    ensures var h := Run(NOTHING, rs);
            && (h.standard > 0 ==> 3066 * (h.standard - 1) <= h.served + h.slop)
            && h.slop <= 7 * h.aligned
            && 3066 * h.s.usage <= 4104 * (TotalRequested(rs) + 7 * h.aligned) + 3066 * 4104
  {
    hide Run, Legal, TotalRequested, BlocksApart, WindowOwned, RegionsApart, BlockBytes;
    FromNothing(rs);
  }

  /** The address behind all blocks, rounded up to a multiple of eight. */
  function Above(bs: seq<Block>): (a: nat)
    ensures a > 0 && a % ALIGN == 0
    ensures forall i :: 0 <= i < |bs| ==> bs[i].base + bs[i].size <= a
  {
    if bs == [] then 8
    else
      var a, b := Above(bs[..|bs| - 1]), bs[|bs| - 1];
      a + (b.base + b.size) * 8
  }

  /** A request is never turned down for want of a state: after every run, whatever is asked for
      next can be served, given a fresh address. */
  lemma NeverStuck(rs: seq<Request>, bytes: nat, aligned: bool)
    requires Legal(NOTHING, rs) && (aligned || bytes > 0)
    ensures exists newBase :: Enabled(Run(NOTHING, rs).s, Request(bytes, aligned, newBase))
  {
    var s := Run(NOTHING, rs).s;
    hide Run, Legal;
    var newBase := Above(s.blocks);
    assert Enabled(s, Request(bytes, aligned, newBase));
  }
}
