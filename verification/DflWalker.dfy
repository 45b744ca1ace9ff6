/**
 The walk over a device feature list: once to count the features, once to describe them. The walk is
 specified against the tree of the list; the tree itself is not part of the program's data.
 */
module DflWalker {
  import opened DflTree
  import opened DflVector

  /** Room the parent stack gains when it is full. */
  const STACK_STEP: nat := 8

  /** The variables of the walk, and the entries of the vector it fills. */
  datatype State = State(head: seq<int>, top: int, overran: bool, scanned: int, index: int, infos: seq<Info>, size: nat)

  // ----------------------------------------------------------------------------------------------
  // The entries a list, and the blocks of a feature, are to fill
  // ----------------------------------------------------------------------------------------------

  function Count(c: Chain): nat { if c.Nil? then 0 else 1 + BlockCount(c.blocks) + Count(c.rest) }

  function BlockCount(b: Blocks): nat { if b.Block? then Count(b.child) + BlockCount(b.rest) else 0 }

  /** How a feature with a given parent is described. */
  type Describer = (Feature, int) -> Record

  function Describing(mem: Mem): Describer
  {
    (f, parent) => RecordOf(mem, f, parent)
  }

  /** Entry `k` describes feature `f`. */
  ghost predicate EntryIs(d: Describer, xs: seq<Info>, k: int, f: Feature, parent: int)
  {
    0 <= k < |xs| && View(xs[k]) == d(f, parent)
  }

  /** The entries from `k` on describe the features of the list in pre-order, the list hanging off `parent`. */
  ghost predicate Written(d: Describer, xs: seq<Info>, c: Chain, parent: int, k: int)
  {
    c.Node? ==>
      && EntryIs(d, xs, k, Feature(c.addr, c.blocks), parent)
      && BlocksWritten(d, xs, c.blocks, k)
      && Written(d, xs, c.rest, parent, k + 1 + BlockCount(c.blocks))
  }

  /** The same for the lists under the blocks of a feature, `last` being the entry written before them. */
  ghost predicate BlocksWritten(d: Describer, xs: seq<Info>, b: Blocks, last: int)
  {
    b.Block? ==>
      && Written(d, xs, b.child, last, last + 1)
      && BlocksWritten(d, xs, b.rest, last + Count(b.child))
  }

  /** Only entries `k..k + n` differ. */
  ghost predicate Frame(xs: seq<Info>, ys: seq<Info>, k: int, n: nat)
  {
    && 0 <= k && k + n <= |xs| == |ys|
    && forall j :: 0 <= j < |xs| && !(k <= j < k + n) ==> ys[j] == xs[j]
  }

  /** Later entries do not matter. */
  lemma {:induction false} WrittenKept(d: Describer, xs: seq<Info>, ys: seq<Info>, c: Chain, parent: int, k: int,
                                       from: int, n: nat)
    requires Written(d, xs, c, parent, k) && k + Count(c) <= from && Frame(xs, ys, from, n)
    ensures Written(d, ys, c, parent, k)
    decreases c, 0
  {
    if c.Node? {
      BlocksKept(d, xs, ys, c.blocks, k, from, n);
      WrittenKept(d, xs, ys, c.rest, parent, k + 1 + BlockCount(c.blocks), from, n);
    }
  }

  lemma {:induction false} BlocksKept(d: Describer, xs: seq<Info>, ys: seq<Info>, b: Blocks, last: int, from: int,
                                      n: nat)
    requires BlocksWritten(d, xs, b, last) && last + 1 + BlockCount(b) <= from && Frame(xs, ys, from, n)
    ensures BlocksWritten(d, ys, b, last)
    decreases b, 0
  {
    if b.Block? {
      WrittenKept(d, xs, ys, b.child, last, last + 1, from, n);
      BlocksKept(d, xs, ys, b.rest, last + Count(b.child), from, n);
    }
  }

  lemma {:induction false} CountVisits(c: Chain)
    ensures Count(c) == |Visits(c)|
    decreases c, 0
  {
    if c.Node? {
      BlockCountVisits(c.blocks);
      CountVisits(c.rest);
    }
  }

  lemma {:induction false} BlockCountVisits(b: Blocks)
    ensures BlockCount(b) == |BlockVisits(b)|
    decreases b, 0
  {
    if b.Block? {
      CountVisits(b.child);
      BlockCountVisits(b.rest);
    }
  }

  /** Entry by entry: what is written is what is visited, with the recorded parents. */
  lemma {:induction false} WrittenEntry(d: Describer, xs: seq<Info>, c: Chain, parent: int, k: int, i: nat)
    requires Written(d, xs, c, parent, k) && i < |Visits(c)|
    ensures EntryIs(d, xs, k + i, Visits(c)[i], Recorded(c, parent, k)[i])
    decreases c, 0
  {
    var n := |BlockVisits(c.blocks)|;
    BlockCountVisits(c.blocks);
    VisitAt(c, parent, k, i);
    if 1 <= i <= n {
      BlocksEntry(d, xs, c.blocks, k, i - 1);
    } else if n < i {
      WrittenEntry(d, xs, c.rest, parent, k + 1 + n, i - 1 - n);
    }
  }

  lemma {:induction false} BlocksEntry(d: Describer, xs: seq<Info>, b: Blocks, last: int, i: nat)
    requires BlocksWritten(d, xs, b, last) && i < |BlockVisits(b)|
    ensures EntryIs(d, xs, last + 1 + i, BlockVisits(b)[i], BlockRecorded(b, last)[i])
    decreases b, 0
  {
    CountVisits(b.child);
    var n := |Visits(b.child)|;
    BlockVisitAt(b, last, i);
    if i < n {
      WrittenEntry(d, xs, b.child, last, last + 1, i);
    } else {
      BlocksEntry(d, xs, b.rest, last + n, i - n);
    }
  }

  /** A vector that holds what the walk of `c` records. */
  ghost predicate Holds(d: Describer, xs: seq<Info>, c: Chain)
  {
    forall i :: 0 <= i < |Visits(c)| ==> EntryIs(d, xs, i, Visits(c)[i], Recorded(c, -1, 0)[i])
  }

  lemma WrittenHolds(d: Describer, xs: seq<Info>, c: Chain)
    requires Written(d, xs, c, -1, 0)
    ensures Holds(d, xs, c)
  {
    forall i | 0 <= i < |Visits(c)| ensures EntryIs(d, xs, i, Visits(c)[i], Recorded(c, -1, 0)[i]) {
      WrittenEntry(d, xs, c, -1, 0, i);
    }
  }

  /** The parents a scan leaves are right exactly when no feature has two branch blocks. */
  lemma ParentsRight(mem: Mem, xs: seq<Info>, c: Chain)
    requires Holds(Describing(mem), xs, c) && |Visits(c)| <= |xs|
    ensures (forall i :: 0 <= i < |Visits(c)| ==> xs[i].parent == Parents(c, -1, 0)[i]) <==> SingleBranched(Visits(c))
  {
    RecordedRight(c, -1, 0);
    var r, p := Recorded(c, -1, 0), Parents(c, -1, 0);
    forall i | 0 <= i < |Visits(c)| ensures xs[i].parent == r[i] {
      assert EntryIs(Describing(mem), xs, i, Visits(c)[i], r[i]);
    }
    assert (forall i :: 0 <= i < |r| ==> r[i] == p[i]) <==> r == p;
  }

  // The first `i` blocks of a feature, and what comes after them.

  function After(b: Blocks, i: nat): Blocks { if i == 0 || !b.Block? then b else After(b.rest, i - 1) }

  function FirstCount(b: Blocks, i: nat): nat
  {
    if i == 0 || !b.Block? then 0 else Count(b.child) + FirstCount(b.rest, i - 1)
  }

  function FirstDepth(b: Blocks, i: nat): nat
  {
    if i == 0 || !b.Block? then 0 else Max(Depth(b.child), FirstDepth(b.rest, i - 1))
  }

  ghost predicate FirstWritten(d: Describer, xs: seq<Info>, b: Blocks, i: nat, last: int)
  {
    i > 0 && b.Block? ==>
      && Written(d, xs, b.child, last, last + 1)
      && FirstWritten(d, xs, b.rest, i - 1, last + Count(b.child))
  }

  lemma {:induction false} FirstMore(b: Blocks, i: nat)
    requires After(b, i).Block?
    ensures After(b, i + 1) == After(b, i).rest
    ensures FirstCount(b, i + 1) == FirstCount(b, i) + Count(After(b, i).child)
    ensures FirstDepth(b, i + 1) == Max(FirstDepth(b, i), Depth(After(b, i).child))
    ensures FirstCount(b, i) + BlockCount(After(b, i)) == BlockCount(b)
    ensures BlockSize(After(b, i)) <= BlockSize(b)
  {
    if i > 0 { FirstMore(b.rest, i - 1); }
  }

  lemma {:induction false} FirstAll(d: Describer, xs: seq<Info>, b: Blocks, i: nat, last: int)
    requires !After(b, i).Block?
    ensures FirstCount(b, i) == BlockCount(b) && FirstDepth(b, i) == BlockDepth(b)
    ensures FirstWritten(d, xs, b, i, last) ==> BlocksWritten(d, xs, b, last)
  {
    if i > 0 && b.Block? { FirstAll(d, xs, b.rest, i - 1, last + Count(b.child)); }
  }

  /** One more block: what was written before it stays. */
  lemma {:induction false} FirstWrittenMore(d: Describer, xs: seq<Info>, ys: seq<Info>, b: Blocks, i: nat, last: int,
                                            n: nat)
    requires After(b, i).Block? && FirstWritten(d, xs, b, i, last)
    requires Frame(xs, ys, last + FirstCount(b, i) + 1, n)
    requires Written(d, ys, After(b, i).child, last + FirstCount(b, i), last + FirstCount(b, i) + 1)
    ensures FirstWritten(d, ys, b, i + 1, last)
  {
    if i > 0 {
      WrittenKept(d, xs, ys, b.child, last, last + 1, last + FirstCount(b, i) + 1, n);
      FirstWrittenMore(d, xs, ys, b.rest, i - 1, last + Count(b.child), n);
    }
  }

  // ----------------------------------------------------------------------------------------------
  // What a stretch of the walk does
  // ----------------------------------------------------------------------------------------------

  /** It takes `drop` entries off the stack and pushes it up to `reach`. */
  ghost predicate Stacked(s: State, s': State, drop: nat, reach: int)
  {
    && s'.top == s.top - drop
    && s'.overran == (s.overran || reach >= STACK_STEP)
    && (!s'.overran ==> |s.head| == |s'.head| == STACK_STEP)
    && (!s'.overran ==> forall k :: 0 <= k <= s'.top && k < STACK_STEP ==> s'.head[k] == s.head[k])
  }

  /** Either it counts `n` features or it writes their entries. */
  ghost predicate Passed(s: State, s': State, collect: bool, n: nat)
  {
    && s'.size == s.size
    && if collect then s'.scanned == s.scanned && s'.index == s.index + n && Frame(s.infos, s'.infos, s.index + 1, n)
       else s'.scanned == s.scanned + n && s'.index == s.index && s'.infos == s.infos
  }

  function Higher(a: int, b: int): int { if a < b then b else a }

  lemma StackedJoin(s: State, s1: State, s2: State, drop: nat, drop': nat, reach: int, reach': int)
    requires Stacked(s, s1, drop, reach) && Stacked(s1, s2, drop', reach')
    ensures Stacked(s, s2, drop + drop', Higher(reach, reach'))
  {
  }

  lemma PassedJoin(s: State, s1: State, s2: State, collect: bool, n: nat, m: nat)
    requires Passed(s, s1, collect, n) && Passed(s1, s2, collect, m)
    ensures Passed(s, s2, collect, n + m)
  {
  }

  /** Entries past the current one are still empty, and there are enough of them. */
  ghost predicate HasRoom(s: State, n: nat)
  {
    && -1 <= s.index && s.index + n < s.size <= |s.infos|
    && forall k :: s.index < k < |s.infos| ==> s.infos[k] == ZERO_INFO
  }

  lemma RoomLeft(s: State, s': State, n: nat, m: nat)
    requires HasRoom(s, n + m) && Passed(s, s', true, n)
    ensures HasRoom(s', m)
  {
  }

  ghost predicate HeadDone(d: Describer, s: State, s': State, collect: bool, f: Feature, parent: int)
  {
    && Passed(s, s', collect, 1) && Stacked(s, s', 0, s.top)
    && (collect && !s'.overran ==> View(s'.infos[s'.index]) == d(f, parent))
  }

  ghost predicate ListDone(d: Describer, s: State, s': State, collect: bool, c: Chain, parent: int)
  {
    && Passed(s, s', collect, Count(c)) && Stacked(s, s', 1, s.top + Depth(c) - 1)
    && (collect && !s'.overran ==> Written(d, s'.infos, c, parent, s.index + 1))
  }

  ghost predicate BlocksDone(d: Describer, s: State, s': State, collect: bool, b: Blocks)
  {
    && Passed(s, s', collect, BlockCount(b)) && Stacked(s, s', 0, s.top + BlockDepth(b))
    && (collect && !s'.overran ==> BlocksWritten(d, s'.infos, b, s.index))
  }

  ghost predicate BranchDone(d: Describer, s: State, s': State, collect: bool, c: Chain)
  {
    && Passed(s, s', collect, Count(c)) && Stacked(s, s', 0, s.top + Depth(c))
    && (collect && !s'.overran ==> Written(d, s'.infos, c, s.index, s.index + 1))
  }

  /** The first `i` blocks of a feature have been followed. */
  ghost predicate FirstDone(d: Describer, s: State, s': State, collect: bool, b: Blocks, i: nat)
  {
    && Passed(s, s', collect, FirstCount(b, i)) && Stacked(s, s', 0, s.top + FirstDepth(b, i))
    && (collect && !s'.overran ==> FirstWritten(d, s'.infos, b, i, s.index))
  }

  /** One feature and the lists below it. */
  ghost predicate FeatureDone(d: Describer, s: State, s': State, collect: bool, f: Feature, parent: int)
  {
    && Passed(s, s', collect, 1 + BlockCount(f.blocks)) && Stacked(s, s', 0, s.top + BlockDepth(f.blocks))
    && (collect && !s'.overran ==> EntryIs(d, s'.infos, s.index + 1, f, parent)
                                   && BlocksWritten(d, s'.infos, f.blocks, s.index + 1))
  }

  lemma FeatureJoin(d: Describer, s: State, s1: State, s2: State, collect: bool, f: Feature, parent: int)
    requires HeadDone(d, s, s1, collect, f, parent) && BlocksDone(d, s1, s2, collect, f.blocks)
    ensures FeatureDone(d, s, s2, collect, f, parent)
  {
    StackedJoin(s, s1, s2, 0, 0, s.top, s1.top + BlockDepth(f.blocks));
    PassedJoin(s, s1, s2, collect, 1, BlockCount(f.blocks));
  }

  /** A feature with what is below it, and the rest of its list or the end of it. */
  lemma ListJoin(d: Describer, s: State, s1: State, s2: State, collect: bool, c: Chain, parent: int)
    requires c.Node? && 1 <= s.top
    requires FeatureDone(d, s, s1, collect, Feature(c.addr, c.blocks), parent)
    requires ListDone(d, s1, s2, collect, c.rest, parent)
    ensures ListDone(d, s, s2, collect, c, parent)
  {
    StackedJoin(s, s1, s2, 0, 1, s.top + BlockDepth(c.blocks), s1.top + Depth(c.rest) - 1);
    PassedJoin(s, s1, s2, collect, 1 + BlockCount(c.blocks), Count(c.rest));
    if collect && !s2.overran {
      BlocksKept(d, s1.infos, s2.infos, c.blocks, s.index + 1, s1.index + 1, Count(c.rest));
    }
  }

  lemma ListEnds(d: Describer, s: State, s': State, collect: bool, parent: int)
    requires s' == s.(top := s.top - 1) && 0 <= s'.top
    requires !s.overran ==> |s.head| == STACK_STEP && s.top < STACK_STEP
    requires collect ==> HasRoom(s, 0)
    ensures ListDone(d, s, s', collect, Nil, parent)
  {
  }

  /** A new entry on the stack. */
  ghost predicate Pushed(s: State, s1: State, data: int)
  {
    && s1.top == s.top + 1 && s1.overran == (s.overran || s1.top >= STACK_STEP)
    && (!s1.overran ==> 0 <= s1.top && |s.head| == STACK_STEP && s1.head == s.head[s1.top := data])
    && s1 == s.(head := s1.head, top := s1.top, overran := s1.overran)
  }

  lemma BranchJoin(d: Describer, s: State, s1: State, s2: State, collect: bool, c: Chain)
    requires c.Node? && Pushed(s, s1, s.index) && 0 <= s.top && ListDone(d, s1, s2, collect, c, s.index)
    ensures BranchDone(d, s, s2, collect, c)
  {
  }

  lemma NoBranch(d: Describer, s: State, collect: bool)
    requires !s.overran ==> |s.head| == STACK_STEP && s.top < STACK_STEP
    requires collect ==> HasRoom(s, 0)
    ensures BranchDone(d, s, s, collect, Nil) && BlocksDone(d, s, s, collect, Absent)
    ensures forall b :: FirstDone(d, s, s, collect, b, 0)
  {
  }

  lemma BlocksMore(d: Describer, s: State, s1: State, s2: State, collect: bool, b: Blocks, i: nat)
    requires After(b, i).Block? && FirstDone(d, s, s1, collect, b, i)
    requires BranchDone(d, s1, s2, collect, After(b, i).child)
    ensures FirstDone(d, s, s2, collect, b, i + 1)
  {
    var c := After(b, i).child;
    FirstMore(b, i);
    StackedJoin(s, s1, s2, 0, 0, s.top + FirstDepth(b, i), s1.top + Depth(c));
    PassedJoin(s, s1, s2, collect, FirstCount(b, i), Count(c));
    if collect && !s2.overran { FirstWrittenMore(d, s1.infos, s2.infos, b, i, s.index, Count(c)); }
  }

  lemma BlocksEnd(d: Describer, s: State, s': State, collect: bool, b: Blocks, i: nat)
    requires FirstDone(d, s, s', collect, b, i) && !After(b, i).Block?
    ensures BlocksDone(d, s, s', collect, b)
  {
    FirstAll(d, s'.infos, b, i, s.index);
  }

  class Walker {
    const mem: Mem
    const vec: InfoVector
    var head: seq<int>
    var top: int
    var overran: bool
    var scanned: int
    var index: int
    var raised: bool

    ghost function Now(): State
      reads this, vec
    {
      State(head, top, overran, scanned, index, vec.infos, vec.size)
    }

    /** The stack stays inside its first allotment of room as long as nothing was stored outside it. */
    ghost predicate Ok()
      reads this, vec
    {
      && vec.Valid() && vec.mem == mem && !raised && !vec.raised
      && (!overran ==> |head| == STACK_STEP && top < STACK_STEP)
      && top >= 0
    }

    constructor (mem: Mem)
      ensures this.mem == mem && vec.mem == mem && fresh(vec)
      ensures vec.Valid() && vec.live == {} && !vec.raised && !raised && !overran && top == 0 && head == []
    {
      this.mem := mem;
      vec := new InfoVector(mem);
      head, top, overran, scanned, index, raised := [], 0, false, 0, 0, false;
    }

    /** The top of the stack; what lies outside its room is not known, and stands as 0. */
    function Peek(): int
      reads this
    {
      if 0 <= top < |head| then head[top] else 0
    }

    method StackResize(n: nat)
      modifies `head, `raised
      ensures head == if n > |old(head)| then old(head) + seq(n - |old(head)|, _ => 0)
                      else if n == 0 then [] else old(head)
      ensures raised == (old(raised) || 0 < n < |old(head)|)
    {
      if n > |head| {
        head := head + seq(n - |head|, _ => 0);
      } else if n == 0 {
        head := [];
      } else if n < |head| {
        raised := true;
      }
    }

    /** A store outside the stack's room is noted and has no other effect here. */
    method Push(data: int)
      requires top >= 0
      requires !overran ==> (|head| == STACK_STEP && top < STACK_STEP) || (head == [] && top == 0)
      modifies `head, `top, `overran, `raised
      ensures top == old(top) + 1 && raised == old(raised)
      ensures overran == (old(overran) || top >= STACK_STEP)
      ensures !overran ==> |head| == STACK_STEP && head[top] == data
                           && (|old(head)| == STACK_STEP ==> head == old(head)[top := data])
    {
      if top == |head| { StackResize(|head| + STACK_STEP); }
      top := top + 1;
      if top < |head| { head := head[top := data]; } else { overran := true; }
    }

    method Pop()
      modifies `top, `raised
      ensures top == if old(top) != -1 then old(top) - 1 else -1
      ensures raised == (old(raised) || old(top) == -1)
    {
      if top != -1 { top := top - 1; } else { raised := true; }
    }

    /**
     Visits a list from the feature at `dfh` on, and takes the list's entry off the stack; the entry is the
     number recorded as parent.
     */
    method DealWithInterfaces(dfh: nat, collect: bool, ghost c: Chain, ghost parent: int)
      requires Ok() && top >= 1 && IsChain(mem, dfh, c) && (collect ==> HasRoom(Now(), Count(c)))
      requires !overran ==> parent == head[top]
      modifies this, vec
      ensures Ok() && ListDone(Describing(mem), old(Now()), Now(), collect, c, parent)
      decreases Size(c), 1
    {
      ghost var s := Now();
      DealWithFeature(dfh, collect, c.blocks, parent);
      ghost var s1 := Now();
      if collect { RoomLeft(s, s1, 1 + BlockCount(c.blocks), Count(c.rest)); }
      if !IsEol(mem(dfh)) {
        DealWithInterfaces(NextDfh(mem, dfh), collect, c.rest, parent);
      } else {
        Pop();
        ListEnds(Describing(mem), s1, Now(), collect, parent);
      }
      ListJoin(Describing(mem), s, s1, Now(), collect, c, parent);
    }

    /** One feature and what its branch blocks lead to. */
    method DealWithFeature(dfh: nat, collect: bool, ghost b: Blocks, ghost parent: int)
      requires Ok() && top >= 1 && IsParams(mem, dfh, b) && (collect ==> HasRoom(Now(), 1 + BlockCount(b)))
      requires !overran ==> parent == head[top]
      modifies this, vec
      ensures Ok() && FeatureDone(Describing(mem), old(Now()), Now(), collect, Feature(dfh, b), parent)
      decreases BlockSize(b), 2
    {
      ghost var s := Now();
      DescribeOne(dfh, collect, b, parent);
      ghost var s1 := Now();
      if collect { RoomLeft(s, s1, 1, BlockCount(b)); }
      DealWithParams(dfh, collect, b);
      FeatureJoin(Describing(mem), s, s1, Now(), collect, Feature(dfh, b), parent);
    }

    method DescribeOne(dfh: nat, collect: bool, ghost b: Blocks, ghost parent: int)
      requires Ok() && top >= 1 && IsParams(mem, dfh, b) && (collect ==> HasRoom(Now(), 1))
      requires !overran ==> parent == head[top]
      modifies this, vec
      ensures Ok() && HeadDone(Describing(mem), old(Now()), Now(), collect, Feature(dfh, b), parent)
    {
      if !collect {
        scanned := scanned + 1;
      } else {
        index := index + 1;
        vec.SetInterfaceProperties(index, dfh, Peek(), b);
      }
    }

    method DealWithParams(dfh: nat, collect: bool, ghost b: Blocks)
      requires Ok() && IsParams(mem, dfh, b) && (collect ==> HasRoom(Now(), BlockCount(b)))
      modifies this, vec
      ensures Ok() && BlocksDone(Describing(mem), old(Now()), Now(), collect, b)
      decreases BlockSize(b), 1
    {
      if HasParams(CsrWord(mem, dfh)) {
        ProcessParamList(dfh, FirstBlock(dfh), collect, b);
      } else {
        NoBranch(Describing(mem), Now(), collect);
      }
    }

    /** Follows the branch blocks of one feature. */
    method ProcessParamList(dfh: nat, first: nat, collect: bool, ghost b: Blocks)
      requires Ok() && IsBlocks(mem, dfh, first, b) && (collect ==> HasRoom(Now(), BlockCount(b)))
      modifies this, vec
      ensures Ok() && BlocksDone(Describing(mem), old(Now()), Now(), collect, b)
      decreases BlockSize(b), 0
    {
      ghost var s := Now();
      ghost var i: nat := 0;
      NoBranch(Describing(mem), s, collect);
      var a: nat := first;
      var header := mem(a);
      while !IsNullBlock(header)
        invariant Ok() && header == mem(a) && IsBlocks(mem, dfh, a, After(b, i))
        invariant FirstDone(Describing(mem), s, Now(), collect, b, i)
        invariant collect ==> HasRoom(Now(), BlockCount(After(b, i)))
        decreases After(b, i)
      {
        FirstMore(b, i);
        FollowNext(dfh, a, collect, b, i, s);
        i := i + 1;
        if !IsLastBlock(header) {
          a := NextBlock(mem, a);
          header := mem(a);
        } else {
          break;
        }
      }
      BlocksEnd(Describing(mem), s, Now(), collect, b, i);
    }

    /** The block after the first `i`. */
    method FollowNext(dfh: nat, a: nat, collect: bool, ghost b: Blocks, ghost i: nat, ghost s: State)
      requires Ok() && IsBlocks(mem, dfh, a, After(b, i)) && After(b, i).Block?
      requires FirstDone(Describing(mem), s, Now(), collect, b, i)
      requires collect ==> HasRoom(Now(), BlockCount(After(b, i)))
      modifies this, vec
      ensures Ok() && After(b, i + 1) == After(b, i).rest
      ensures FirstDone(Describing(mem), s, Now(), collect, b, i + 1)
      ensures collect ==> HasRoom(Now(), BlockCount(After(b, i + 1)))
      decreases Size(After(b, i).child), 4
    {
      ghost var s1 := Now();
      FirstMore(b, i);
      FollowBlock(dfh, a, collect, After(b, i));
      BlocksMore(Describing(mem), s, s1, Now(), collect, b, i);
    }

    /** Of all blocks only branch blocks matter here. */
    method FollowBlock(dfh: nat, a: nat, collect: bool, ghost b: Blocks)
      requires Ok() && IsBlocks(mem, dfh, a, b) && b.Block? && (collect ==> HasRoom(Now(), BlockCount(b)))
      modifies this, vec
      ensures Ok() && BranchDone(Describing(mem), old(Now()), Now(), collect, b.child)
      ensures collect ==> HasRoom(Now(), BlockCount(b.rest))
      decreases Size(b.child), 3
    {
      ghost var s := Now();
      if BlockId(mem(a)) == BRANCH_ID {
        HandleBranch(dfh, a, collect, b.child);
      } else {
        NoBranch(Describing(mem), s, collect);
      }
      if collect { RoomLeft(s, Now(), Count(b.child), BlockCount(b.rest)); }
    }

    /** Opens the list a branch block leads to; its parent is the entry written last. */
    method HandleBranch(dfh: nat, block: nat, collect: bool, ghost c: Chain)
      requires Ok() && IsChain(mem, BranchTarget(mem, dfh, block), c) && (collect ==> HasRoom(Now(), Count(c)))
      modifies this, vec
      ensures Ok() && BranchDone(Describing(mem), old(Now()), Now(), collect, c)
      decreases Size(c), 2
    {
      ghost var s := Now();
      Push(index);
      ghost var s1 := Now();
      DealWithInterfaces(BranchTarget(mem, dfh, block), collect, c, s.index);
      BranchJoin(Describing(mem), s, s1, Now(), collect, c);
    }

    /** The first pass counts. */
    method ScanTheNumInterfaces(dfh: nat, ghost c: Chain)
      requires vec.Valid() && vec.mem == mem && !raised && !vec.raised && top == 0 && head == []
      requires IsChain(mem, dfh, c)
      modifies this, vec
      ensures Ok() && top == 0 && overran == (old(overran) || Depth(c) >= STACK_STEP)
      ensures scanned == old(scanned) + Count(c) && vec.infos == old(vec.infos) && vec.size == old(vec.size)
    {
      Push(-1);
      DealWithInterfaces(dfh, false, c, -1);
    }

    /** The second pass fills the entries, which have to be there and to be empty. */
    method CollectInterfacesInfo(dfh: nat, ghost c: Chain)
      requires Ok() && top == 0 && index == -1 && IsChain(mem, dfh, c)
      requires vec.size == Count(c) && vec.infos == Zeros(Count(c))
      modifies this, vec
      ensures Ok() && top == 0 && overran == (old(overran) || Depth(c) >= STACK_STEP)
      ensures index + 1 == Count(c) == vec.size && scanned == old(scanned)
      ensures !overran ==> Written(Describing(mem), vec.infos, c, -1, 0)
    {
      Push(-1);
      vec.Resize(vec.size);
      DealWithInterfaces(dfh, true, c, -1);
    }

    /** The first pass, on an empty vector, and room for what it counted. */
    method MakeRoom(dfh: nat, ghost c: Chain)
      requires vec.Valid() && vec.mem == mem && !raised && !vec.raised && top == 0 && head == []
      requires IsChain(mem, dfh, c)
      modifies this, vec
      ensures Ok() && top == 0 && overran == (old(overran) || Depth(c) >= STACK_STEP)
      ensures scanned == vec.size == Count(c) && vec.infos == Zeros(Count(c))
    {
      scanned := 0;
      vec.Resize(scanned);
      ScanTheNumInterfaces(dfh, c);
      vec.Resize(scanned);
    }

    /**
     A whole scan. Both passes see the same features: the vector ends up with as many entries as were counted,
     and the last index is one less. The stack ends as it began, and its stores stay inside its room exactly
     when fewer than eight lists are ever open at once; then entry `i` describes the feature visited `i`-th.
     */
    method Scan(dfh: nat, ghost c: Chain)
      requires vec.Valid() && vec.mem == mem && !raised && !vec.raised && top == 0 && head == []
      requires IsChain(mem, dfh, c)
      modifies this, vec
      ensures vec.Valid() && !raised && !vec.raised && top == 0 && head == []
      ensures vec.size == |Visits(c)| == scanned && index + 1 == scanned
      ensures overran == (old(overran) || Depth(c) >= STACK_STEP)
      ensures !overran ==> Holds(Describing(mem), vec.infos, c)
    {
      CountVisits(c);
      MakeRoom(dfh, c);
      index := -1;
      CollectInterfacesInfo(dfh, c);
      StackResize(0);
      if !overran { WrittenHolds(Describing(mem), vec.infos, c); }
    }

    /** After a scan, resizing to nothing frees every block the scan allocated. */
    method ScanAndRelease(dfh: nat, ghost c: Chain)
      requires vec.Valid() && vec.mem == mem && !raised && !vec.raised && top == 0 && head == []
      requires IsChain(mem, dfh, c)
      modifies this, vec
      ensures vec.Valid() && vec.live == {} && vec.infos == []
    {
      Scan(dfh, c);
      vec.Resize(0);
    }
  }
}
