/**
 The growable vector of interface descriptions. It owns one allocated block for itself, one parameter array
 for each description that has parameters, and one data block for each parameter.
 */
module DflVector {
  import opened DflTree
  import opened Sequences

  /** A pointer to an allocated block, known by its number. */
  datatype Pointer = NoBlock | To(id: nat)

  datatype Param = Param(version: nat, id: nat, dataSize: int, data: seq<Word>, owner: Pointer)

  datatype Info = Info(base: nat, guidL: Word, guidH: Word, instanceId: nat, groupId: nat, parent: int,
                       mmioOpened: bool, interruptOpened: bool, params: seq<Param>, owner: Pointer)

  const ZERO_PARAM := Param(0, 0, 0, [], NoBlock)
  const ZERO_INFO := Info(0, 0, 0, 0, 0, 0, false, false, [], NoBlock)

  function Zeros(n: nat): (xs: seq<Info>)
    ensures |xs| == n && forall k :: 0 <= k < n ==> xs[k] == ZERO_INFO
  {
    seq(n, _ => ZERO_INFO)
  }

  // ----------------------------------------------------------------------------------------------
  // Who owns which block
  // ----------------------------------------------------------------------------------------------

  // How often a block is owned: by a pointer, by an array of parameters, by a description, by a row of them.

  function Owns(p: Pointer, id: nat): nat { if p == To(id) then 1 else 0 }

  function ParamsOwn(ps: seq<Param>, id: nat): nat
  {
    if ps == [] then 0 else Owns(ps[0].owner, id) + ParamsOwn(ps[1..], id)
  }

  function InfoOwns(x: Info, id: nat): nat { Owns(x.owner, id) + ParamsOwn(x.params, id) }

  function InfosOwn(xs: seq<Info>, id: nat): nat
  {
    if xs == [] then 0 else InfoOwns(xs[0], id) + InfosOwn(xs[1..], id)
  }

  function Alive(live: set<nat>, id: nat): nat { if id in live then 1 else 0 }

  lemma NothingAlive(live: set<nat>)
    requires forall id :: Alive(live, id) == 0
    ensures live == {}
  {
    assert forall id :: id in live ==> Alive(live, id) == 1;
  }

  lemma {:induction false} InfosOwnJoin(xs: seq<Info>, ys: seq<Info>, id: nat)
    ensures InfosOwn(xs + ys, id) == InfosOwn(xs, id) + InfosOwn(ys, id)
  {
    if xs == [] {
      assert xs + ys == ys;
    } else {
      InfosOwnJoin(xs[1..], ys, id);
      assert (xs + ys)[1..] == xs[1..] + ys;
    }
  }

  lemma InfosOwnSplit(xs: seq<Info>, n: nat)
    requires n <= |xs|
    ensures forall id :: InfosOwn(xs, id) == InfosOwn(xs[..n], id) + InfosOwn(xs[n..], id)
  {
    forall id: nat ensures InfosOwn(xs, id) == InfosOwn(xs[..n], id) + InfosOwn(xs[n..], id) {
      assert xs == xs[..n] + xs[n..];
      InfosOwnJoin(xs[..n], xs[n..], id);
    }
  }

  lemma InfosOwnFirst(xs: seq<Info>, i: nat)
    requires i < |xs|
    ensures forall id :: InfosOwn(xs[i..], id) == InfoOwns(xs[i], id) + InfosOwn(xs[i + 1..], id)
  {
    assert xs[i..][1..] == xs[i + 1..];
  }

  lemma ParamsOwnFirst(ps: seq<Param>, i: nat)
    requires i < |ps|
    ensures forall id :: ParamsOwn(ps[i..], id) == Owns(ps[i].owner, id) + ParamsOwn(ps[i + 1..], id)
  {
    assert ps[i..][1..] == ps[i + 1..];
  }

  lemma {:induction false} ZerosOwn(xs: seq<Info>, id: nat)
    requires forall k :: 0 <= k < |xs| ==> xs[k] == ZERO_INFO
    ensures InfosOwn(xs, id) == 0
  {
    if xs != [] {
      ZerosOwn(xs[1..], id);
    }
  }

  lemma ZerosOwnNothing(xs: seq<Info>)
    requires forall k :: 0 <= k < |xs| ==> xs[k] == ZERO_INFO
    ensures forall id :: InfosOwn(xs, id) == 0
  {
    forall id: nat ensures InfosOwn(xs, id) == 0 { ZerosOwn(xs, id); }
  }

  lemma {:induction false} ParamsOwnJoin(xs: seq<Param>, ys: seq<Param>, id: nat)
    ensures ParamsOwn(xs + ys, id) == ParamsOwn(xs, id) + ParamsOwn(ys, id)
  {
    if xs == [] {
      assert xs + ys == ys;
    } else {
      ParamsOwnJoin(xs[1..], ys, id);
      assert (xs + ys)[1..] == xs[1..] + ys;
    }
  }

  lemma ParamsOwnOne(p: Param, id: nat)
    ensures ParamsOwn([p], id) == Owns(p.owner, id)
  {
    assert [p][1..] == [];
  }

  lemma {:induction false} ParamsOwnSet(ps: seq<Param>, j: nat, p: Param, id: nat)
    requires j < |ps|
    ensures ParamsOwn(ps[j := p], id) + Owns(ps[j].owner, id) == ParamsOwn(ps, id) + Owns(p.owner, id)
  {
    if j == 0 {
      assert ps[j := p][1..] == ps[1..];
    } else {
      ParamsOwnSet(ps[1..], j - 1, p, id);
      assert ps[j := p][1..] == ps[1..][j - 1 := p];
    }
  }

  lemma {:induction false} InfosOwnSet(xs: seq<Info>, i: nat, x: Info, id: nat)
    requires i < |xs|
    ensures InfosOwn(xs[i := x], id) + InfoOwns(xs[i], id) == InfosOwn(xs, id) + InfoOwns(x, id)
  {
    if i == 0 {
      assert xs[i := x][1..] == xs[1..];
    } else {
      InfosOwnSet(xs[1..], i - 1, x, id);
      assert xs[i := x][1..] == xs[1..][i - 1 := x];
    }
  }

  /** What a row of descriptions owns after one of them changed. */
  lemma InfosOwnChange(xs: seq<Info>, i: nat, x: Info)
    requires i < |xs|
    ensures forall id :: InfosOwn(xs[i := x], id) == InfosOwn(xs, id) + InfoOwns(x, id) - InfoOwns(xs[i], id)
  {
    forall id: nat ensures InfosOwn(xs[i := x], id) == InfosOwn(xs, id) + InfoOwns(x, id) - InfoOwns(xs[i], id) {
      InfosOwnSet(xs, i, x, id);
    }
  }

  lemma ParamsOwnChange(ps: seq<Param>, j: nat, p: Param)
    requires j < |ps|
    ensures forall id :: ParamsOwn(ps[j := p], id) == ParamsOwn(ps, id) + Owns(p.owner, id) - Owns(ps[j].owner, id)
  {
    forall id: nat
      ensures ParamsOwn(ps[j := p], id) == ParamsOwn(ps, id) + Owns(p.owner, id) - Owns(ps[j].owner, id)
    {
      ParamsOwnSet(ps, j, p, id);
    }
  }

  function ZeroParams(n: nat): (ps: seq<Param>)
    ensures |ps| == n && forall k :: 0 <= k < n ==> ps[k] == ZERO_PARAM
  {
    seq(n, _ => ZERO_PARAM)
  }

  lemma {:induction false} ZeroParamsOwn(ps: seq<Param>, id: nat)
    requires forall k :: 0 <= k < |ps| ==> ps[k] == ZERO_PARAM
    ensures ParamsOwn(ps, id) == 0
  {
    if ps != [] { ZeroParamsOwn(ps[1..], id); }
  }

  lemma ZeroParamsMore(ps: seq<Param>, n: nat)
    ensures forall id :: ParamsOwn(ps + ZeroParams(n), id) == ParamsOwn(ps, id)
  {
    forall id: nat ensures ParamsOwn(ps + ZeroParams(n), id) == ParamsOwn(ps, id) {
      ParamsOwnJoin(ps, ZeroParams(n), id);
      ZeroParamsOwn(ZeroParams(n), id);
    }
  }

  function PutParam(xs: seq<Info>, index: nat, j: nat, p: Param): (ys: seq<Info>)
    requires index < |xs| && j < |xs[index].params|
    ensures |ys| == |xs|
  {
    xs[index := xs[index].(params := xs[index].params[j := p])]
  }

  lemma PutParamAgain(xs: seq<Info>, index: nat, j: nat, p: Param, q: Param)
    requires index < |xs| && j < |xs[index].params|
    ensures PutParam(xs, index, j, xs[index].params[j]) == xs
    ensures PutParam(PutParam(xs, index, j, p), index, j, q) == PutParam(xs, index, j, q)
  {
    var ps := xs[index].params;
    assert ps[j := ps[j]] == ps && ps[j := p][j := q] == ps[j := q];
  }

  lemma PutParamOwns(xs: seq<Info>, index: nat, j: nat, p: Param)
    requires index < |xs| && j < |xs[index].params|
    ensures forall id :: InfosOwn(PutParam(xs, index, j, p), id)
                         == InfosOwn(xs, id) + Owns(p.owner, id) - Owns(xs[index].params[j].owner, id)
  {
    InfosOwnChange(xs, index, xs[index].(params := xs[index].params[j := p]));
    ParamsOwnChange(xs[index].params, j, p);
  }

  // ----------------------------------------------------------------------------------------------
  // What the vector is to hold
  // ----------------------------------------------------------------------------------------------

  datatype ParamView = ParamView(version: nat, id: nat, dataSize: int, data: seq<Word>)

  /** A description without its pointers. */
  datatype Record = Record(base: nat, guidL: Word, guidH: Word, instanceId: nat, groupId: nat, parent: int,
                           mmioOpened: bool, interruptOpened: bool, params: seq<ParamView>)

  function ViewParam(p: Param): ParamView { ParamView(p.version, p.id, p.dataSize, p.data) }

  function ViewParams(ps: seq<Param>): (vs: seq<ParamView>)
    ensures |vs| == |ps| && forall i :: 0 <= i < |ps| ==> vs[i] == ViewParam(ps[i])
  {
    seq(|ps|, i requires 0 <= i < |ps| => ViewParam(ps[i]))
  }

  function View(x: Info): Record
  {
    Record(x.base, x.guidL, x.guidH, x.instanceId, x.groupId, x.parent, x.mmioOpened, x.interruptOpened,
           ViewParams(x.params))
  }

  /** Bytes of data in a block: its offset, less its header unless it is the last. */
  function DataSize(header: Word): int
  {
    NextBlockOffset(header) - if IsLastBlock(header) then 0 else PARAM_HEADER_SIZE
  }

  function DataAt(mem: Mem, a: nat, n: nat): (ws: seq<Word>)
    ensures |ws| == n
  {
    seq(n, i requires 0 <= i < n => mem(Ptr(a + PARAM_HEADER_SIZE + 8 * i)))
  }

  function Words(bytes: int): nat { if bytes < 0 then 0 else bytes / 8 }

  lemma WholeWords(header: Word)
    ensures NextBlockOffset(header) % 8 == 0 && (NextBlockOffset(header) - PARAM_HEADER_SIZE) % 8 == 0
  {
  }

  /** The parameter a block stands for. */
  function BlockParam(mem: Mem, a: nat): ParamView
  {
    var header := mem(a);
    ParamView(BlockVersion(header), BlockId(header), DataSize(header), DataAt(mem, a, Words(DataSize(header))))
  }

  /** The array the blocks from some point on fill: a null block leaves the entry made for it zero. */
  function ParamsFrom(mem: Mem, b: Blocks): seq<ParamView>
  {
    if !b.Block? then [ViewParam(ZERO_PARAM)]
    else [BlockParam(mem, b.addr)] + if b.rest.Absent? then [] else ParamsFrom(mem, b.rest)
  }

  function ParamsOf(mem: Mem, b: Blocks): seq<ParamView>
  {
    if b.Block? then ParamsFrom(mem, b) else []
  }

  /** The description of a feature. */
  function RecordOf(mem: Mem, f: Feature, parent: int): Record
  {
    Record(BaseAddress(mem, f.addr), mem(Ptr(f.addr + 8)), mem(Ptr(f.addr + 0x10)),
           InstanceId(CsrWord(mem, f.addr)), GroupId(CsrWord(mem, f.addr)), parent, false, false,
           ParamsOf(mem, f.blocks))
  }

  function Bare(x: Info): Info { x.(params := [], owner := NoBlock) }

  /** Only the parameters of entry `index` differ. */
  ghost predicate ParamsChanged(xs: seq<Info>, ys: seq<Info>, index: nat)
  {
    && index < |xs| == |ys| && Bare(ys[index]) == Bare(xs[index])
    && forall k :: 0 <= k < |xs| && k != index ==> ys[k] == xs[k]
  }

  /** A parameter array of which `i` entries are done; all but an array not yet made have a zeroed entry at the end. */
  ghost predicate Partial(x: Info, i: nat, done: seq<ParamView>)
  {
    if i == 0 then x.params == [] && x.owner.NoBlock? && done == []
    else |x.params| == i + 1 && x.params[i] == ZERO_PARAM && x.owner.To? && ViewParams(x.params[..i]) == done
  }

  /** The first `i` blocks of `b` gave `done`, and `rest` are the others. */
  ghost predicate Parsed(mem: Mem, b: Blocks, rest: Blocks, i: nat, done: seq<ParamView>)
  {
    (if i == 0 then rest == b else b.Block?) && done + ParamsFrom(mem, rest) == ParamsFrom(mem, b)
  }

  /** Entry `x` while its blocks are parsed: the next one is at `a`, and `rest` are those from there on. */
  ghost predicate Parsing(x: Info, mem: Mem, dfh: nat, b: Blocks, rest: Blocks, a: nat, i: nat, done: seq<ParamView>)
  {
    a < PTR_SPAN && IsBlocks(mem, dfh, a, rest) && Partial(x, i, done) && Parsed(mem, b, rest, i, done)
  }

  lemma ParamsMore(mem: Mem, dfh: nat, a: nat, b: Blocks, rest: Blocks, i: nat, done: seq<ParamView>)
    requires IsBlocks(mem, dfh, a, rest) && !IsNullBlock(mem(a)) && Parsed(mem, b, rest, i, done)
    ensures if IsLastBlock(mem(a)) then done + [BlockParam(mem, a)] == ParamsOf(mem, b)
            else Parsed(mem, b, rest.rest, i + 1, done + [BlockParam(mem, a)])
  {
    Assoc(done, [BlockParam(mem, a)], if rest.rest.Absent? then [] else ParamsFrom(mem, rest.rest));
  }

  lemma FillDone(x: Info, i: nat, done: seq<ParamView>, p: ParamView)
    requires |x.params| == i + 1 && |done| == i && ViewParam(x.params[i]) == p
    requires ViewParams(x.params[..i]) == done
    ensures ViewParams(x.params) == done + [p]
  {
  }

  lemma ParamsEnd(mem: Mem, x: Info, b: Blocks, i: nat, done: seq<ParamView>)
    requires Partial(x, i, done) && Parsed(mem, b, Null, i, done)
    ensures ViewParams(x.params) == ParamsOf(mem, b)
  {
    if i > 0 { assert ViewParams(x.params) == done + [ViewParam(ZERO_PARAM)]; }
  }

  function CountBlocks(b: Blocks): nat { if b.Block? then 1 + CountBlocks(b.rest) else 0 }

  ghost predicate EndsInNull(b: Blocks) { b.Null? || (b.Block? && EndsInNull(b.rest)) }

  /** One parameter for each block with data, and a zeroed one when a null block ends a list that has any. */
  lemma {:induction false} ParamsCount(mem: Mem, b: Blocks)
    ensures |ParamsOf(mem, b)| == CountBlocks(b) + if b.Block? && EndsInNull(b) then 1 else 0
    ensures b.Block? && EndsInNull(b) ==> ParamsOf(mem, b)[CountBlocks(b)] == ParamView(0, 0, 0, [])
  {
    if b.Block? {
      if b.rest.Block? { ParamsCount(mem, b.rest); }
      assert ParamsFrom(mem, b) == [BlockParam(mem, b.addr)] + if b.rest.Absent? then [] else ParamsFrom(mem, b.rest);
    }
  }

  /** What resizing leaves in the slots: entries past the new size are zeroed, and no size shrinks the room but zero. */
  function Resized(xs: seq<Info>, size: nat, n: nat): seq<Info>
    requires size <= |xs|
  {
    if n > |xs| then xs + Zeros(n - |xs|)
    else if n == 0 then []
    else if n < size then xs[..n] + Zeros(size - n) + xs[size..]
    else xs
  }

  /** Resizing keeps the entries below both sizes, and all others are zero, if those past the old size were. */
  lemma ResizedIs(xs: seq<Info>, size: nat, n: nat)
    requires size <= |xs| && forall k :: size <= k < |xs| ==> xs[k] == ZERO_INFO
    ensures var ys := Resized(xs, size, n);
            && |ys| == (if n == 0 then 0 else if n > |xs| then n else |xs|)
            && (forall k :: 0 <= k < |ys| ==> ys[k] == if k < n && k < size then xs[k] else ZERO_INFO)
  {
  }

  class InfoVector {
    const mem: Mem
    var infos: seq<Info>
    var size: nat
    var block: Pointer
    var live: set<nat>
    var nextId: nat
    var raised: bool

    /** Every live block is owned exactly once, and slots past the size are zero. */
    ghost predicate Valid()
      reads this
    {
      ValidBut(NoBlock)
    }

    /** The same, but for one pointer that was never set. */
    ghost predicate ValidBut(stray: Pointer)
      reads this
    {
      && size <= |infos|
      && (forall k :: size <= k < |infos| ==> infos[k] == ZERO_INFO)
      && (infos == [] ==> block.NoBlock?)
      && (forall id: nat :: Alive(live, id) + Owns(stray, id) == Owns(block, id) + InfosOwn(infos, id))
      && (forall id :: id in live ==> id < nextId)
    }

    constructor (mem: Mem)
      ensures Valid() && this.mem == mem && infos == [] && size == 0 && live == {} && !raised
    {
      this.mem := mem;
      infos, size, block, live, nextId, raised := [], 0, NoBlock, {}, 0, false;
    }

    method Malloc() returns (p: Pointer)
      requires forall id :: id in live ==> id < nextId
      modifies `live, `nextId
      ensures p.To? && p.id !in old(live)
      ensures forall id: nat :: Alive(live, id) == Alive(old(live), id) + Owns(p, id)
      ensures forall id :: id in live ==> id < nextId
    {
      p := To(nextId);
      live, nextId := live + {nextId}, nextId + 1;
    }

    /** Freeing a block twice, or one that was never allocated, is ruled out here. */
    method Free(p: Pointer)
      requires p.To? ==> p.id in live
      modifies `live
      ensures forall id: nat :: Alive(live, id) == Alive(old(live), id) - Owns(p, id)
      ensures live <= old(live)
    {
      if p.To? { live := live - {p.id}; }
    }

    /** Frees what one entry owns. */
    method FreeInfo(x: Info)
      requires forall id: nat :: Alive(live, id) >= InfoOwns(x, id)
      modifies `live
      ensures forall id: nat :: Alive(live, id) == Alive(old(live), id) - InfoOwns(x, id)
      ensures live <= old(live)
    {
      var params, j := x.params, 0;
      assert params[0..] == params;
      while j < |params|
        invariant 0 <= j <= |params|
        invariant forall id: nat :: Alive(live, id) - ParamsOwn(params[j..], id)
                                    == Alive(old(live), id) - ParamsOwn(params, id)
        invariant live <= old(live)
      {
        ParamsOwnFirst(params, j);
        var p := params[j].owner;
        if p.To? {
          assert Alive(old(live), p.id) >= InfoOwns(x, p.id);
          assert Alive(live, p.id) >= ParamsOwn(params[j..], p.id) >= 1;
        }
        Free(p);
        j := j + 1;
      }
      if x.owner.To? {
        assert Alive(old(live), x.owner.id) >= InfoOwns(x, x.owner.id);
        assert Alive(live, x.owner.id) >= 1;
      }
      Free(x.owner);
    }

    /** Frees what entries `n..size` own. */
    method FreeTail(n: nat)
      requires Valid() && n <= size
      modifies `live
      ensures forall id: nat :: Alive(live, id) == Owns(block, id) + InfosOwn(infos[..n], id)
      ensures live <= old(live)
    {
      InfosOwnSplit(infos, n);
      var i := n;
      while i < size
        invariant n <= i <= size
        invariant forall id: nat ::
                    Alive(live, id) == Owns(block, id) + InfosOwn(infos[..n], id) + InfosOwn(infos[i..], id)
        invariant live <= old(live)
      {
        InfosOwnFirst(infos, i);
        FreeInfo(infos[i]);
        i := i + 1;
      }
      ZerosOwnNothing(infos[i..]);
    }

    method Reserve(n: nat)
      requires Valid()
      modifies this
      ensures Valid() && infos == Resized(old(infos), old(size), n)
      ensures size == if n < old(size) then n else old(size)
      ensures n == 0 ==> live == {}
      ensures raised == old(raised)
    {
      if n > |infos| {
        Grow(n);
      } else {
        if n < size {
          Shrink(n);
        }
        if n == 0 {
          ZerosOwnNothing(infos);
          if block.To? { assert Alive(live, block.id) >= Owns(block, block.id); }
          Free(block);
          infos, block := [], NoBlock;
          NothingAlive(live);
        }
      }
    }

    method Grow(n: nat)
      requires Valid() && n > |infos|
      modifies this
      ensures Valid() && infos == old(infos) + Zeros(n - |old(infos)|) && size == old(size) && raised == old(raised)
    {
      if block.To? { assert Alive(live, block.id) >= Owns(block, block.id); }
      Free(block);
      block := Malloc();
      infos := infos + Zeros(n - |infos|);
      InfosOwnSplit(infos, |old(infos)|);
      assert infos[..|old(infos)|] == old(infos);
      ZerosOwnNothing(infos[|old(infos)|..]);
    }

    method Shrink(n: nat)
      requires Valid() && n < size
      modifies this
      ensures Valid() && infos == old(infos)[..n] + Zeros(old(size) - n) + old(infos)[old(size)..]
      ensures size == n && raised == old(raised)
    {
      FreeTail(n);
      infos := infos[..n] + Zeros(size - n) + infos[size..];
      size := n;
      InfosOwnSplit(infos, n);
      ZerosOwnNothing(infos[n..]);
      assert infos[..n] == old(infos)[..n];
    }

    method Resize(n: nat)
      requires Valid()
      modifies this
      ensures Valid() && size == n && infos == Resized(old(infos), old(size), n)
      ensures n == 0 ==> live == {}
      ensures raised == old(raised)
    {
      Reserve(n);
      size := n;
    }

    /** The first entry of a new parameter array; malloc leaves in it whatever was there. */
    method ParamBlockInit(index: nat)
      requires Valid() && index < size && infos[index].params == [] && infos[index].owner.NoBlock?
      modifies this
      ensures ParamsChanged(old(infos), infos, index) && |infos[index].params| == 1 && infos[index].owner.To?
      ensures ValidBut(infos[index].params[0].owner) && size == old(size) && raised == old(raised)
    {
      var p := Malloc();
      var junk: Param := *;
      ghost var x := infos[index].(params := [junk], owner := p);
      InfosOwnChange(infos, index, x);
      forall id: nat ensures InfoOwns(x, id) == Owns(p, id) + Owns(junk.owner, id) { ParamsOwnOne(junk, id); }
      infos := infos[index := infos[index].(params := [junk], owner := p)];
    }

    /** Room for more parameters: the array moves, the new entries are zeroed. */
    method GrowParams(index: nat, n: nat)
      requires Valid() && index < size && n > |infos[index].params|
      modifies this
      ensures Valid() && ParamsChanged(old(infos), infos, index) && infos[index].owner.To?
      ensures var ps := old(infos)[index].params; infos[index].params == ps + ZeroParams(n - |ps|)
      ensures size == old(size) && raised == old(raised)
    {
      var x := infos[index];
      if x.owner.To? {
        assert Alive(live, x.owner.id) >= InfoOwns(x, x.owner.id) by { InfosOwnChange(infos, index, ZERO_INFO); }
      }
      Free(x.owner);
      var p := Malloc();
      var y := x.(params := x.params + ZeroParams(n - |x.params|), owner := p);
      InfosOwnChange(infos, index, y);
      ZeroParamsMore(x.params, n - |x.params|);
      infos := infos[index := y];
    }

    /** Gives up the parameter array, and nothing else: the data blocks of its entries stay live without an owner. */
    method DropParams(index: nat)
      requires Valid() && index < size
      modifies this
      ensures ParamsChanged(old(infos), infos, index) && infos[index].params == [] && infos[index].owner.NoBlock?
      ensures forall id: nat :: Alive(live, id) == Owns(block, id) + InfosOwn(infos, id)
                                                   + ParamsOwn(old(infos)[index].params, id)
      ensures size == old(size) && raised == old(raised)
    {
      var x := infos[index];
      if x.owner.To? {
        assert Alive(live, x.owner.id) >= InfoOwns(x, x.owner.id) by { InfosOwnChange(infos, index, ZERO_INFO); }
      }
      Free(x.owner);
      InfosOwnChange(infos, index, x.(params := [], owner := NoBlock));
      infos := infos[index := x.(params := [], owner := NoBlock)];
    }

    /**
     Room for exactly `n` parameters: more of them are zeroed, fewer are an exception, and at zero the array is given
     up, which leaks just the data blocks of its entries.
     */
    method ParamBlockResize(index: nat, n: nat)
      requires Valid() && index < size
      modifies this
      ensures ParamsChanged(old(infos), infos, index) && size == old(size)
      ensures raised == (old(raised) || 0 < n < |old(infos)[index].params|)
      ensures var ps := old(infos)[index].params;
              n > |ps| ==> infos[index].params == ps + ZeroParams(n - |ps|) && infos[index].owner.To?
      ensures 0 < n <= |old(infos)[index].params| ==> infos == old(infos) && live == old(live)
      ensures n == 0 ==> infos[index].params == [] && infos[index].owner.NoBlock?
      ensures n == 0 ==> forall id: nat :: Alive(live, id) == Owns(block, id) + InfosOwn(infos, id)
                                                              + ParamsOwn(old(infos)[index].params, id)
      ensures n > 0 ==> Valid()
    {
      if n > |infos[index].params| {
        GrowParams(index, n);
      } else if n == 0 {
        DropParams(index);
      } else if n < |infos[index].params| {
        raised := true;
      }
    }

    /** A data block of `bytes` bytes for parameter `j`, not yet filled. */
    method ParamDataAllocate(index: nat, j: nat, bytes: nat)
      requires index < size && index < |infos| && j < |infos[index].params|
      requires ValidBut(infos[index].params[j].owner)
      modifies this
      ensures Valid() && index < |infos| && j < |infos[index].params|
      ensures var p := infos[index].params[j];
              && infos == PutParam(old(infos), index, j, p)
              && p == old(infos[index].params[j]).(dataSize := bytes, data := p.data, owner := p.owner)
              && |p.data| == bytes / 8
      ensures size == old(size) && raised == (old(raised) || bytes % 8 != 0)
    {
      if bytes % 8 != 0 { raised := true; }
      var p := Malloc();
      assert |seq(bytes / 8, _ => 0)| == bytes / 8;
      var data: seq<Word> :| |data| == bytes / 8;
      var q := infos[index].params[j].(dataSize := bytes, data := data, owner := p);
      PutParamOwns(infos, index, j, q);
      infos := PutParam(infos, index, j, q);
    }

    /** Fills a data block from memory. */
    method ParamDataCopy(index: nat, j: nat, a: nat)
      requires Valid() && index < size && j < |infos[index].params|
      requires infos[index].params[j].dataSize >= 0
      requires |infos[index].params[j].data| == infos[index].params[j].dataSize / 8
      modifies `infos
      ensures Valid() && index < |infos| && j < |infos[index].params|
      ensures var p := old(infos[index].params[j]);
              infos == PutParam(old(infos), index, j, p.(data := DataAt(mem, a, p.dataSize / 8)))
    {
      ghost var p0 := infos[index].params[j];
      var n, i := infos[index].params[j].dataSize / 8, 0;
      PutParamAgain(infos, index, j, p0, p0);
      while i < n
        invariant 0 <= i <= n == |p0.data|
        invariant |infos| == |old(infos)| && j < |infos[index].params|
        invariant |infos[index].params[j].data| == n
        invariant infos == PutParam(old(infos), index, j, p0.(data := infos[index].params[j].data))
        invariant forall k :: 0 <= k < i ==> infos[index].params[j].data[k] == DataAt(mem, a, n)[k]
      {
        var p := infos[index].params[j];
        var q := p.(data := p.data[i := mem(Ptr(a + PARAM_HEADER_SIZE + 8 * i))]);
        PutParamAgain(old(infos), index, j, p, q);
        infos := PutParam(infos, index, j, q);
        i := i + 1;
      }
      assert infos[index].params[j].data == DataAt(mem, a, n);
      PutParamOwns(old(infos), index, j, infos[index].params[j]);
    }

    /** A data block for parameter `j` with the words of the block at `a`. */
    method ParamData(index: nat, j: nat, a: nat, bytes: nat)
      requires index < size && index < |infos| && j < |infos[index].params| && bytes % 8 == 0
      requires ValidBut(infos[index].params[j].owner)
      modifies this
      ensures Valid() && index < |infos| && j < |infos[index].params|
      ensures var p := infos[index].params[j];
              && infos == PutParam(old(infos), index, j, p)
              && p == old(infos[index].params[j]).(
                        dataSize := bytes, data := DataAt(mem, a, bytes / 8), owner := p.owner)
      ensures size == old(size) && raised == old(raised)
    {
      ParamDataAllocate(index, j, bytes);
      ghost var p := infos[index].params[j];
      ParamDataCopy(index, j, a);
      PutParamAgain(old(infos), index, j, p, infos[index].params[j]);
    }

    /** Fills parameter `i` from the block at `a`; the array is made when it is the first. */
    method FillParam(index: nat, i: nat, a: nat, ghost done: seq<ParamView>)
      requires Valid() && index < size && (IsLastBlock(mem(a)) || NextBlockOffset(mem(a)) >= PARAM_HEADER_SIZE)
      requires Partial(infos[index], i, done)
      modifies this
      ensures Valid() && ParamsChanged(old(infos), infos, index) && size == old(size) && raised == old(raised)
      ensures infos[index].owner.To? && ViewParams(infos[index].params) == done + [BlockParam(mem, a)]
    {
      if i == 0 { ParamBlockInit(index); }
      var header := mem(a);
      var p := infos[index].params[i];
      PutParamOwns(infos, index, i, p.(version := BlockVersion(header), id := BlockId(header)));
      infos := PutParam(infos, index, i, p.(version := BlockVersion(header), id := BlockId(header)));
      var bytes := NextBlockOffset(header);
      if !IsLastBlock(header) { bytes := NextBlockOffset(header) - PARAM_HEADER_SIZE; }
      WholeWords(header);
      ParamData(index, i, a, bytes);
      FillDone(infos[index], i, done, BlockParam(mem, a));
    }

    /** The same, and room for the next parameter unless this was the last. */
    method FillNext(index: nat, i: nat, a: nat, ghost done: seq<ParamView>)
      requires Valid() && index < size && (IsLastBlock(mem(a)) || NextBlockOffset(mem(a)) >= PARAM_HEADER_SIZE)
      requires Partial(infos[index], i, done)
      modifies this
      ensures Valid() && ParamsChanged(old(infos), infos, index) && size == old(size) && raised == old(raised)
      ensures if IsLastBlock(mem(a)) then ViewParams(infos[index].params) == done + [BlockParam(mem, a)]
              else Partial(infos[index], i + 1, done + [BlockParam(mem, a)])
    {
      FillParam(index, i, a, done);
      if !IsLastBlock(mem(a)) {
        ghost var ps := infos[index].params;
        assert |ps| == |ViewParams(ps)| == i + 1;
        ParamBlockResize(index, i + 2);
        assert infos[index].params == ps + [ZERO_PARAM];
        assert infos[index].params[..i + 1] == ps;
      }
    }

    /** The block at `a` is the next of those to parse; what is left is `rest` without it. */
    method ParseBlock(index: nat, i: nat, a: nat, ghost dfh: nat, ghost b: Blocks, ghost rest: Blocks,
                      ghost done: seq<ParamView>)
      requires Valid() && index < size && !IsNullBlock(mem(a))
      requires Parsing(infos[index], mem, dfh, b, rest, a, i, done)
      modifies this
      ensures Valid() && ParamsChanged(old(infos), infos, index) && size == old(size) && raised == old(raised)
      ensures if IsLastBlock(mem(a)) then ViewParams(infos[index].params) == ParamsOf(mem, b)
              else rest.Block? && Parsing(infos[index], mem, dfh, b, rest.rest, NextBlock(mem, a), i + 1,
                                          done + [BlockParam(mem, a)])
    {
      if !IsLastBlock(mem(a)) { BlocksAdvance(mem, dfh, a, rest); }
      FillNext(index, i, a, done);
      ParamsMore(mem, dfh, a, b, rest, i, done);
    }

    /**
     Parses parameter blocks into entry `index`: the array is what the blocks say, every data size is a multiple
     of 8, and every block of memory allocated for it is owned by the entry.
     */
    method ParseBlocks(index: nat, dfh: nat, ghost b: Blocks)
      requires Valid() && index < size && infos[index].params == [] && infos[index].owner.NoBlock?
      requires IsBlocks(mem, dfh, FirstBlock(dfh), b)
      modifies this
      ensures Valid() && ParamsChanged(old(infos), infos, index) && size == old(size) && raised == old(raised)
      ensures ViewParams(infos[index].params) == ParamsOf(mem, b)
    {
      var i: nat, a: nat := 0, FirstBlock(dfh);
      var header := mem(a);
      ghost var rest := b;
      ghost var done: seq<ParamView> := [];
      while !IsNullBlock(header)
        invariant Valid() && ParamsChanged(old(infos), infos, index) && size == old(size) && raised == old(raised)
        invariant header == mem(a) && Parsing(infos[index], mem, dfh, b, rest, a, i, done)
        decreases rest
      {
        ParseBlock(index, i, a, dfh, b, rest, done);
        done := done + [BlockParam(mem, a)];
        if IsLastBlock(header) { return; }
        a := NextBlock(mem, a);
        header := mem(a);
        rest := rest.rest;
        i := i + 1;
      }
      ParamsEnd(mem, infos[index], b, i, done);
    }

    method SetParameterProperties(index: nat, dfh: nat, ghost b: Blocks)
      requires Valid() && index < size && infos[index].params == [] && infos[index].owner.NoBlock?
      requires IsParams(mem, dfh, b)
      modifies this
      ensures Valid() && ParamsChanged(old(infos), infos, index) && size == old(size) && raised == old(raised)
      ensures ViewParams(infos[index].params) == ParamsOf(mem, b)
    {
      if HasParams(CsrWord(mem, dfh)) { ParseBlocks(index, dfh, b); }
    }

    /** Fills entry `index` from the feature at `dfh`. */
    method SetInterfaceProperties(index: nat, dfh: nat, parent: int, ghost b: Blocks)
      requires Valid() && index < size && infos[index] == ZERO_INFO && IsParams(mem, dfh, b)
      modifies this
      ensures Valid() && size == old(size) && raised == old(raised) && |infos| == |old(infos)|
      ensures View(infos[index]) == RecordOf(mem, Feature(dfh, b), parent)
      ensures forall k :: 0 <= k < |infos| && k != index ==> infos[k] == old(infos)[k]
    {
      var x := infos[index].(
        base := BaseAddress(mem, dfh), guidH := mem(Ptr(dfh + 0x10)), guidL := mem(Ptr(dfh + 8)),
        instanceId := InstanceId(CsrWord(mem, dfh)), groupId := GroupId(CsrWord(mem, dfh)), parent := parent,
        mmioOpened := false, interruptOpened := false);
      InfosOwnChange(infos, index, x);
      infos := infos[index := x];
      SetParameterProperties(index, dfh, b);
      assert Bare(infos[index]) == Bare(x);
    }
  }
}
