/**
 Device feature lists as they lie in memory, and as trees. Memory is read in 64-bit words at byte addresses;
 pointers have 32 bits, so address arithmetic wraps there.
 */
module DflTree {
  import opened Sequences

  const WORD_SPAN: nat := 0x1_0000_0000_0000_0000
  const PTR_SPAN: nat := 0x1_0000_0000
  const PARAM_HEADER_SIZE: nat := 8
  const BRANCH_ID: nat := 0xc

  type Word = w: nat | w < WORD_SPAN

  /** The word at each byte address; it does not change while it is walked. */
  type Mem = nat -> Word

  /** An address after pointer arithmetic. */
  function Ptr(a: int): (p: nat)
    ensures p < PTR_SPAN
  {
    a % PTR_SPAN
  }

  // ----------------------------------------------------------------------------------------------
  // Fields of a feature header and of a parameter-block header
  // ----------------------------------------------------------------------------------------------

  predicate IsEol(dfh: Word) { dfh / 0x100_0000_0000 % 2 == 1 }

  function NextDfhOffset(dfh: Word): nat { dfh / 0x1_0000 % 0x80_0000 }

  predicate HasParams(csr: Word) { csr / 0x8000_0000 % 2 == 1 }

  function InstanceId(csr: Word): nat { csr % 0x1_0000 }

  function GroupId(csr: Word): nat { csr / 0x1_0000 % 0x8000 }

  predicate IsLastBlock(header: Word) { header / 0x1_0000_0000 % 2 == 1 }

  function NextBlockOffset(header: Word): (bytes: nat)
    ensures bytes < PTR_SPAN && bytes % 8 == 0
  {
    header / 0x8_0000_0000 * 8
  }

  function BlockVersion(header: Word): nat { header / 0x1_0000 % 0x1_0000 }

  function BlockId(header: Word): nat { header % 0x1_0000 }

  /** A block with the last mark and no data ends a list without belonging to it. */
  predicate IsNullBlock(header: Word) { IsLastBlock(header) && NextBlockOffset(header) == 0 }

  function BlockReserved(header: Word): nat { header / 0x2_0000_0000 % 4 }

  /** The fields of a block header, with its two reserved bits, tile it. */
  lemma BlockHeaderFields(header: Word)
    ensures header == BlockId(header) + 0x1_0000 * BlockVersion(header)
                      + 0x1_0000_0000 * ((if IsLastBlock(header) then 1 else 0) + 2 * BlockReserved(header)
                                         + NextBlockOffset(header))
  {
    var low, high := header / 0x1_0000, header / 0x1_0000_0000;
    assert header == header % 0x1_0000 + 0x1_0000 * low;
    assert low == low % 0x1_0000 + 0x1_0000 * (low / 0x1_0000) && low / 0x1_0000 == high;
    assert high == high % 2 + 2 * (high / 2) && high / 2 == high / 2 % 4 + 4 * (high / 2 / 4);
    assert high / 2 / 4 == header / 0x8_0000_0000 && high / 2 == header / 0x2_0000_0000;
  }

  /** The end mark, the offset of the next header and the bits nothing reads tile a feature header. */
  lemma FeatureHeaderFields(dfh: Word)
    ensures dfh == dfh % 0x1_0000 + 0x1_0000 * NextDfhOffset(dfh)
                   + 0x80_0000_0000 * (dfh / 0x80_0000_0000 % 2 + (if IsEol(dfh) then 2 else 0)
                                       + 4 * (dfh / 0x200_0000_0000))
  {
    var low, high := dfh / 0x1_0000, dfh / 0x80_0000_0000;
    assert low == low % 0x80_0000 + 0x80_0000 * high;
    assert high == high % 2 + 2 * (high / 2) && high / 2 == dfh / 0x100_0000_0000;
    assert high / 2 == high / 2 % 2 + 2 * (high / 2 / 2) && high / 2 / 2 == dfh / 0x200_0000_0000;
  }

  /** Instance, group and the mark for parameters tile the low half of a CSR word. */
  lemma CsrWordFields(csr: Word)
    ensures csr == InstanceId(csr) + 0x1_0000 * GroupId(csr)
                   + 0x8000_0000 * ((if HasParams(csr) then 1 else 0) + 2 * (csr / 0x1_0000_0000))
  {
    var low, high := csr / 0x1_0000, csr / 0x8000_0000;
    assert low == low % 0x8000 + 0x8000 * high;
    assert high == high % 2 + 2 * (high / 2) && high / 2 == csr / 0x1_0000_0000;
  }

  function NextDfh(mem: Mem, dfh: nat): nat { Ptr(dfh + NextDfhOffset(mem(dfh))) }

  function CsrWord(mem: Mem, dfh: nat): Word { mem(Ptr(dfh + 0x20)) }

  function FirstBlock(dfh: nat): nat { Ptr(dfh + 0x28) }

  function NextBlock(mem: Mem, block: nat): nat { Ptr(block + NextBlockOffset(mem(block))) }

  /** An odd CSR word is an absolute address, an even one is relative to the feature header. */
  function BaseAddress(mem: Mem, dfh: nat): nat
  {
    var csr := mem(Ptr(dfh + 0x18));
    if csr % 2 == 1 then Ptr(csr - 1) else Ptr(dfh + csr)
  }

  /** Where a branch block leads; bit 0 marks an absolute address, and the low three bits are not address bits. */
  function BranchTarget(mem: Mem, dfh: nat, block: nat): nat
  {
    var data := mem(Ptr(block + 8));
    if data % 2 == 1 then Ptr(data - data % 8) else Ptr(dfh + (data - data % 8))
  }

  /** A base address is its word without the mark, from address 0 when it is absolute, from the header when relative. */
  lemma BaseAddressIs(mem: Mem, dfh: nat)
    ensures var csr, base := mem(Ptr(dfh + 0x18)), BaseAddress(mem, dfh);
            && (csr % 2 == 1 ==> Ptr(base - (csr - 1)) == 0)
            && (csr % 2 == 0 ==> Ptr(base - (dfh + csr)) == 0)
  {
    var csr: int := mem(Ptr(dfh + 0x18));
    PtrOfPtr(csr - 1, csr - 1);
    PtrOfPtr(dfh + csr, dfh + csr);
  }

  /** The next header, and the next block, are as far from this one as it says. */
  lemma NextIs(mem: Mem, a: nat)
    ensures Ptr(NextDfh(mem, a) - (a + NextDfhOffset(mem(a)))) == 0
    ensures Ptr(NextBlock(mem, a) - (a + NextBlockOffset(mem(a)))) == 0
  {
    PtrOfPtr(a + NextDfhOffset(mem(a)), a + NextDfhOffset(mem(a)));
    PtrOfPtr(a + NextBlockOffset(mem(a)), a + NextBlockOffset(mem(a)));
  }

  /** An absolute branch leads to a multiple of 8, a relative one to a multiple of 8 away from the header. */
  lemma BranchAligned(mem: Mem, dfh: nat, block: nat)
    ensures var data, target := mem(Ptr(block + 8)), BranchTarget(mem, dfh, block);
            && (data % 2 == 1 ==> target % 8 == 0 && Ptr(data - target) < 8)
            && (data % 2 == 0 ==> Ptr(target - dfh) % 8 == 0 && Ptr(dfh + data - target) < 8)
  {
    var data := mem(Ptr(block + 8));
    PtrMultiple(data - data % 8);
    PtrOfPtr(data, data - data % 8);
    PtrOfPtr(dfh + data, dfh + (data - data % 8));
    PtrOfPtr(dfh, dfh + (data - data % 8));
  }

  lemma PtrMultiple(a: int)
    requires a % 8 == 0
    ensures Ptr(a) % 8 == 0
  {
    assert a == PTR_SPAN * (a / PTR_SPAN) + Ptr(a);
  }

  lemma PtrOfPtr(a: int, b: int)
    ensures Ptr(a - Ptr(b)) == Ptr(a - b) && Ptr(Ptr(b) - a) == Ptr(b - a)
  {
    assert b == PTR_SPAN * (b / PTR_SPAN) + Ptr(b);
  }

  // ----------------------------------------------------------------------------------------------
  // Trees
  // ----------------------------------------------------------------------------------------------

  /** A list of features, each with its parameter blocks. */
  datatype Chain = Nil | Node(addr: nat, blocks: Blocks, rest: Chain)

  /**
   Parameter blocks. A list that ends in a null block ends in `Null`; one that ends in a block with data, and
   one that is not there at all, in `Absent`. A branch block has the list it leads to as its child.
   */
  datatype Blocks = Absent | Null | Block(addr: nat, child: Chain, rest: Blocks)

  /** The list at address `a` is well formed, and `c` is its tree. */
  ghost predicate IsChain(mem: Mem, a: nat, c: Chain)
    decreases c
  {
    && c.Node? && c.addr == a
    && IsParams(mem, a, c.blocks)
    && if IsEol(mem(a)) then c.rest.Nil? else IsChain(mem, NextDfh(mem, a), c.rest)
  }

  ghost predicate IsParams(mem: Mem, dfh: nat, b: Blocks)
    decreases b, 1
  {
    if HasParams(CsrWord(mem, dfh)) then IsBlocks(mem, dfh, FirstBlock(dfh), b) else b.Absent?
  }

  ghost predicate IsBlocks(mem: Mem, dfh: nat, a: nat, b: Blocks)
    decreases b, 0
  {
    if IsNullBlock(mem(a)) then b.Null?
    else
      && b.Block? && b.addr == a
      && (if BlockId(mem(a)) == BRANCH_ID then IsChain(mem, BranchTarget(mem, dfh, a), b.child) else b.child.Nil?)
      && if IsLastBlock(mem(a)) then b.rest.Absent? else IsBlocks(mem, dfh, NextBlock(mem, a), b.rest)
  }

  /** Memory determines the tree. */
  lemma {:induction false} ChainIsUnique(mem: Mem, a: nat, c: Chain, c': Chain)
    requires IsChain(mem, a, c) && IsChain(mem, a, c')
    ensures c == c'
    decreases c, 2
  {
    if !c.blocks.Absent? { BlocksAreUnique(mem, a, FirstBlock(a), c.blocks, c'.blocks); }
    if c.rest.Node? { ChainIsUnique(mem, NextDfh(mem, a), c.rest, c'.rest); }
  }

  lemma {:induction false} BlocksAreUnique(mem: Mem, dfh: nat, a: nat, b: Blocks, b': Blocks)
    requires IsBlocks(mem, dfh, a, b) && IsBlocks(mem, dfh, a, b')
    ensures b == b'
    decreases b, 2
  {
    if b.Block? {
      if b.child.Node? { ChainIsUnique(mem, BranchTarget(mem, dfh, a), b.child, b'.child); }
      if !b.rest.Absent? { BlocksAreUnique(mem, dfh, NextBlock(mem, a), b.rest, b'.rest); }
    }
  }

  /** In a well-formed list a block that is not the last has room for its header: no data size is negative. */
  lemma {:induction false} BlocksAdvance(mem: Mem, dfh: nat, a: nat, b: Blocks)
    requires IsBlocks(mem, dfh, a, b) && !IsLastBlock(mem(a)) && a < PTR_SPAN
    ensures NextBlockOffset(mem(a)) >= PARAM_HEADER_SIZE
  {
    assert BlockSize(b.rest) < BlockSize(b);
    if NextBlockOffset(mem(a)) == 0 {
      BlocksAreUnique(mem, dfh, a, b, b.rest);
    }
  }

  /** Constructors in a tree: what the walk's recursion counts down. */
  function Size(c: Chain): nat
  {
    if c.Nil? then 0 else 1 + BlockSize(c.blocks) + Size(c.rest)
  }

  function BlockSize(b: Blocks): nat
  {
    if b.Block? then 1 + Size(b.child) + BlockSize(b.rest) else 0
  }

  // ----------------------------------------------------------------------------------------------
  // What a walk visits, in what order
  // ----------------------------------------------------------------------------------------------

  datatype Feature = Feature(addr: nat, blocks: Blocks)

  /** Pre-order: a feature, the lists its branch blocks lead to, in order, and then its successor. */
  function Visits(c: Chain): seq<Feature>
  {
    if c.Nil? then [] else [Feature(c.addr, c.blocks)] + (BlockVisits(c.blocks) + Visits(c.rest))
  }

  function BlockVisits(b: Blocks): seq<Feature>
  {
    if b.Block? then Visits(b.child) + BlockVisits(b.rest) else []
  }

  /** `f` is a feature of this list itself, not of a list its branches lead to. */
  predicate InList(f: Feature, c: Chain)
  {
    c.Node? && (f == Feature(c.addr, c.blocks) || InList(f, c.rest))
  }

  /** `f` is a feature of a list that one of the blocks leads to. */
  predicate Under(f: Feature, b: Blocks)
  {
    b.Block? && (InList(f, b.child) || Under(f, b.rest))
  }

  /** The entry of each visited feature's parent, when the first is entry `k` and its list hangs off entry `parent`. */
  function Parents(c: Chain, parent: int, k: int): (ps: seq<int>)
    ensures |ps| == |Visits(c)|
  {
    if c.Nil? then []
    else [parent] + (BlockParents(c.blocks, k, k + 1) + Parents(c.rest, parent, k + 1 + |BlockVisits(c.blocks)|))
  }

  function BlockParents(b: Blocks, owner: int, next: int): (ps: seq<int>)
    ensures |ps| == |BlockVisits(b)|
  {
    if b.Block? then Parents(b.child, owner, next) + BlockParents(b.rest, owner, next + |Visits(b.child)|) else []
  }

  /**
   The parents the walk records. They differ from `Parents` where a feature has a second branch block: the
   walk takes as parent the entry it wrote last, and that is by then the last one of the first branch.
   */
  function Recorded(c: Chain, parent: int, k: int): (ps: seq<int>)
    ensures |ps| == |Visits(c)|
  {
    if c.Nil? then []
    else [parent] + (BlockRecorded(c.blocks, k) + Recorded(c.rest, parent, k + 1 + |BlockVisits(c.blocks)|))
  }

  function BlockRecorded(b: Blocks, last: int): (ps: seq<int>)
    ensures |ps| == |BlockVisits(b)|
  {
    if b.Block? then Recorded(b.child, last, last + 1) + BlockRecorded(b.rest, last + |Visits(b.child)|) else []
  }

  lemma VisitAt(c: Chain, parent: int, k: int, i: nat)
    requires i < |Visits(c)|
    ensures var n := |BlockVisits(c.blocks)|;
            && (i == 0 ==> Visits(c)[i] == Feature(c.addr, c.blocks) && Recorded(c, parent, k)[i] == parent)
            && (1 <= i <= n ==> Visits(c)[i] == BlockVisits(c.blocks)[i - 1]
                                && Recorded(c, parent, k)[i] == BlockRecorded(c.blocks, k)[i - 1])
            && (n < i ==> |Visits(c)| == 1 + n + |Visits(c.rest)| && Visits(c)[i] == Visits(c.rest)[i - 1 - n]
                          && Recorded(c, parent, k)[i] == Recorded(c.rest, parent, k + 1 + n)[i - 1 - n])
  {
    var n := |BlockVisits(c.blocks)|;
    NodeAt(Feature(c.addr, c.blocks), BlockVisits(c.blocks), Visits(c.rest), i);
    NodeAt(parent, BlockRecorded(c.blocks, k), Recorded(c.rest, parent, k + 1 + n), i);
  }

  lemma BlockVisitAt(b: Blocks, last: int, i: nat)
    requires i < |BlockVisits(b)|
    ensures var n := |Visits(b.child)|;
            && (i < n ==> BlockVisits(b)[i] == Visits(b.child)[i]
                          && BlockRecorded(b, last)[i] == Recorded(b.child, last, last + 1)[i])
            && (i >= n ==> |BlockVisits(b)| == n + |BlockVisits(b.rest)|
                           && BlockVisits(b)[i] == BlockVisits(b.rest)[i - n]
                           && BlockRecorded(b, last)[i] == BlockRecorded(b.rest, last + n)[i - n])
  {
  }

  /** Feature `i` of a walk sits in a list that branches off its parent, or, when `atTop`, in the list walked. */
  ghost predicate Owned(fs: seq<Feature>, ps: seq<int>, k: int, i: nat, parent: int, atTop: bool)
    requires |fs| == |ps| && i < |fs|
  {
    (atTop && ps[i] == parent) || (k <= ps[i] < k + i && Under(fs[i], fs[ps[i] - k].blocks))
  }

  /** Ownership in a stretch of a walk is ownership in the whole walk. */
  lemma OwnedJoin(x: seq<Feature>, fs: seq<Feature>, xp: seq<int>, ps: seq<int>, k: int, i: nat, parent: int,
                  atTop: bool)
    requires |fs| == |ps| && |x| == |xp| && i < |x| + |fs|
    requires i < |x| ==> Owned(x, xp, k, i, parent, atTop)
    requires i >= |x| ==> Owned(fs, ps, k + |x|, i - |x|, parent, atTop)
    ensures Owned(x + fs, xp + ps, k, i, parent, atTop)
  {
    if i >= |x| {
      var q := ps[i - |x|];
      if k + |x| <= q < k + i { assert (x + fs)[q - k] == fs[q - (k + |x|)]; }
    } else if k <= xp[i] < k + i {
      assert (x + fs)[xp[i] - k] == x[xp[i] - k];
    }
  }

  /** A feature owns what its blocks lead to. */
  lemma OwnedUnder(f: Feature, fs: seq<Feature>, ps: seq<int>, k: int, i: nat, parent: int)
    requires |fs| == |ps| && 0 < i <= |fs|
    requires Owned(fs, ps, k + 1, i - 1, k, Under(fs[i - 1], f.blocks))
    ensures Owned([f] + fs, [parent] + ps, k, i, parent, false)
  {
    if k + 1 <= ps[i - 1] < k + i { assert ([f] + fs)[ps[i - 1] - k] == fs[ps[i - 1] - (k + 1)]; }
  }

  /** A feature, what it owns below it, and the rest of its list. */
  lemma OwnedNode(f: Feature, bs: seq<Feature>, rs: seq<Feature>, bp: seq<int>, rp: seq<int>,
                  fs: seq<Feature>, ps: seq<int>, k: int, i: nat, parent: int, inRest: bool, atTop: bool)
    requires |bs| == |bp| && |rs| == |rp| && fs == [f] + (bs + rs) && ps == [parent] + (bp + rp) && i < |fs|
    requires i == 0 ==> atTop
    requires 1 <= i <= |bs| ==> Owned(bs, bp, k + 1, i - 1, k, Under(bs[i - 1], f.blocks))
    requires |bs| < i ==> Owned(rs, rp, k + 1 + |bs|, i - 1 - |bs|, parent, inRest) && (inRest ==> atTop)
    ensures Owned(fs, ps, k, i, parent, atTop)
  {
    Assoc([f], bs, rs);
    Assoc([parent], bp, rp);
    if 0 < i <= |bs| { OwnedUnder(f, bs, bp, k, i, parent); }
    if 0 < i { OwnedJoin([f] + bs, rs, [parent] + bp, rp, k, i, parent, if i <= |bs| then false else inRest); }
  }

  /** `Parents` means what it should: each feature sits in a list that branches off its parent's blocks. */
  lemma {:induction false} ParentsOwn(c: Chain, parent: int, k: int, i: nat)
    requires i < |Visits(c)|
    ensures Owned(Visits(c), Parents(c, parent, k), k, i, parent, InList(Visits(c)[i], c))
    decreases c, 2
  {
    var f, bs, bp := Feature(c.addr, c.blocks), BlockVisits(c.blocks), BlockParents(c.blocks, k, k + 1);
    var rs, rp := Visits(c.rest), Parents(c.rest, parent, k + 1 + |bs|);
    var fs, ps, j := Visits(c), Parents(c, parent, k), i - 1 - |bs|;
    NodeAt(f, bs, rs, i);
    if 1 <= i <= |bs| { BlockParentsOwn(c.blocks, k, k + 1, i - 1); }
    if |bs| < i { ParentsOwn(c.rest, parent, k + 1 + |bs|, j); }
    OwnedNode(f, bs, rs, bp, rp, fs, ps, k, i, parent, |bs| < i && InList(rs[j], c.rest), InList(fs[i], c));
  }

  lemma {:induction false} BlockParentsOwn(b: Blocks, owner: int, next: int, i: nat)
    requires i < |BlockVisits(b)|
    ensures Owned(BlockVisits(b), BlockParents(b, owner, next), next, i, owner, Under(BlockVisits(b)[i], b))
    decreases b, 2
  {
    var cs, cp := Visits(b.child), Parents(b.child, owner, next);
    if i < |cs| {
      ParentsOwn(b.child, owner, next, i);
    } else {
      BlockParentsOwn(b.rest, owner, next + |cs|, i - |cs|);
    }
    OwnedJoin(cs, BlockVisits(b.rest), cp, BlockParents(b.rest, owner, next + |cs|), next, i, owner,
              Under(BlockVisits(b)[i], b));
  }

  // ----------------------------------------------------------------------------------------------
  // When the recorded parents are right
  // ----------------------------------------------------------------------------------------------

  function Branches(b: Blocks): nat
  {
    if b.Block? then (if b.child.Node? then 1 else 0) + Branches(b.rest) else 0
  }

  /** No feature has two branch blocks. */
  ghost predicate SingleBranched(fs: seq<Feature>)
  {
    forall f :: f in fs ==> Branches(f.blocks) <= 1
  }

  lemma SingleJoin(all: seq<Feature>, fs: seq<Feature>, gs: seq<Feature>)
    requires all == fs + gs
    ensures SingleBranched(all) <==> SingleBranched(fs) && SingleBranched(gs)
  {
    assert forall f :: f in all <==> f in fs || f in gs;
  }

  lemma SameJoin(s: seq<int>, s': seq<int>, r: seq<int>, r': seq<int>, t: seq<int>, t': seq<int>)
    requires |r| == |r'| && s == r + t && s' == r' + t'
    ensures s == s' <==> r == r' && t == t'
  {
    assert (r + t)[..|r|] == r && (r + t)[|r|..] == t;
    assert (r' + t')[..|r|] == r' && (r' + t')[|r|..] == t';
  }

  lemma NoBranchNoVisit(b: Blocks)
    ensures Branches(b) == 0 <==> BlockVisits(b) == []
  {
  }

  lemma SameNode(s: seq<int>, s': seq<int>, x: int, r: seq<int>, r': seq<int>, t: seq<int>, t': seq<int>)
    requires |r| == |r'| && s == [x] + (r + t) && s' == [x] + (r' + t')
    ensures s == s' <==> r == r' && t == t'
  {
    SameJoin(s, s', [x], [x], r + t, r' + t');
    SameJoin(r + t, r' + t', r, r', t, t');
  }

  lemma SingleNode(all: seq<Feature>, f: Feature, bs: seq<Feature>, rs: seq<Feature>)
    requires all == [f] + (bs + rs)
    ensures SingleBranched(all) <==> Branches(f.blocks) <= 1 && SingleBranched(bs) && SingleBranched(rs)
  {
    SingleJoin(all, [f], bs + rs);
    SingleJoin(bs + rs, bs, rs);
    assert SingleBranched([f]) <==> Branches(f.blocks) <= 1 by { assert f in [f]; }
  }

  /** The parents the walk records are right exactly when no feature has two branch blocks. */
  lemma {:induction false} RecordedRight(c: Chain, parent: int, k: int)
    ensures Recorded(c, parent, k) == Parents(c, parent, k) <==> SingleBranched(Visits(c))
    decreases c, 2
  {
    if c.Node? {
      var n := |BlockVisits(c.blocks)|;
      BlockRecordedRight(c.blocks, k);
      RecordedRight(c.rest, parent, k + 1 + n);
      SameNode(Recorded(c, parent, k), Parents(c, parent, k), parent,
               BlockRecorded(c.blocks, k), BlockParents(c.blocks, k, k + 1),
               Recorded(c.rest, parent, k + 1 + n), Parents(c.rest, parent, k + 1 + n));
      SingleNode(Visits(c), Feature(c.addr, c.blocks), BlockVisits(c.blocks), Visits(c.rest));
    }
  }

  lemma {:induction false} BlockRecordedRight(b: Blocks, owner: int)
    ensures BlockRecorded(b, owner) == BlockParents(b, owner, owner + 1)
            <==> Branches(b) <= 1 && SingleBranched(BlockVisits(b))
    decreases b, 2
  {
    if b.Block? {
      var n := |Visits(b.child)|;
      RecordedRight(b.child, owner, owner + 1);
      RestRecordedRight(b, owner);
      SingleJoin(BlockVisits(b), Visits(b.child), BlockVisits(b.rest));
      SameJoin(BlockRecorded(b, owner), BlockParents(b, owner, owner + 1),
               Recorded(b.child, owner, owner + 1), Parents(b.child, owner, owner + 1),
               BlockRecorded(b.rest, owner + n), BlockParents(b.rest, owner, owner + 1 + n));
    }
  }

  /** After a branch block no other may follow. */
  lemma {:induction false} RestRecordedRight(b: Blocks, owner: int)
    requires b.Block?
    ensures var n := |Visits(b.child)|;
            BlockRecorded(b.rest, owner + n) == BlockParents(b.rest, owner, owner + 1 + n)
            <==> Branches(b) <= 1 && SingleBranched(BlockVisits(b.rest))
    decreases b, 1
  {
    if b.child.Nil? {
      BlockRecordedRight(b.rest, owner);
    } else {
      NoBranchNoVisit(b.rest);
      if Branches(b.rest) > 0 { FirstRecorded(b.rest, owner, owner + |Visits(b.child)|); }
    }
  }

  /** The first list under a row of blocks is recorded under the entry written last, not under its owner. */
  lemma {:induction false} FirstRecorded(b: Blocks, owner: int, last: int)
    requires Branches(b) > 0
    ensures |BlockVisits(b)| > 0
    ensures BlockRecorded(b, last)[0] == last && BlockParents(b, owner, last + 1)[0] == owner
  {
    if b.child.Nil? { FirstRecorded(b.rest, owner, last); }
  }

  /** A feature with two branch blocks: the second list is recorded under the feature of the first. */
  lemma SecondBranchMisrecorded(a: nat, b: nat, d: nat, x: nat, y: nat)
    ensures var c := Node(a, Block(b, Node(x, Absent, Nil), Block(d, Node(y, Absent, Nil), Absent)), Nil);
            Parents(c, -1, 0) == [-1, 0, 0] && Recorded(c, -1, 0) == [-1, 0, 1]
  {
    var leaf1, leaf2 := Node(x, Absent, Nil), Node(y, Absent, Nil);
    var b2 := Block(d, leaf2, Absent);
    var b1 := Block(b, leaf1, b2);
    assert |Visits(leaf1)| == 1 == |Visits(leaf2)|;
    assert Recorded(leaf1, 0, 1) == [0] == Parents(leaf1, 0, 1);
    assert Recorded(leaf2, 1, 2) == [1] && Parents(leaf2, 0, 2) == [0];
    assert BlockRecorded(b2, 1) == [1] && BlockParents(b2, 0, 2) == [0];
    assert BlockRecorded(b1, 0) == [0, 1] && BlockParents(b1, 0, 1) == [0, 0];
  }

  // ----------------------------------------------------------------------------------------------
  // Nesting
  // ----------------------------------------------------------------------------------------------

  function Max(a: nat, b: nat): nat { if a < b then b else a }

  /** How many lists are open at once while the tree is walked. */
  function Depth(c: Chain): nat
  {
    if c.Nil? then 0 else Max(1 + BlockDepth(c.blocks), Depth(c.rest))
  }

  function BlockDepth(b: Blocks): nat
  {
    if b.Block? then Max(Depth(b.child), BlockDepth(b.rest)) else 0
  }
}
