/** The single-threaded heap of the boundary-tag allocator: malloc, free and their helpers
    update header words, link fields and the bin map in place. */
module MuslMalloc {
  import opened SizeClasses
  import opened BoundaryTags
  import opened FreeLists
  import opened HeapShape

  /** What __expand_heap answers: nothing, or memory. */
  datatype Grant = NoMemory | Memory(start: Addr, length: nat)

  /** What malloc answers; a request above MMAP_THRESHOLD never touches the heap. */
  datatype Outcome = Fail | Mmapped | Block(mem: Addr)

  /** A grant is aligned, large enough, and disjoint from all memory of the heap. */
  ghost predicate GrantOk(t: Tags, g: Grant, need: nat) {
    g.Memory? ==>
      && 0 < g.start && g.start % SIZE_ALIGN == 0 && g.length % SIZE_ALIGN == 0 && need <= g.length
      && Fresh(t, g.start, g.start + g.length)
  }

  lemma GrantFooter(t: Tags, l: Lists, end: Addr, g: Grant)
    requires CoreOf(t, l, end) && g.Memory? && SIZE_ALIGN < g.length && SIZE_ALIGN <= g.start
    ensures var u, c := Granted(t, end, g), FreshChunk(end, g);
            c in u.psize && u.psize[c] == if g.start == end && c in t.psize then t.psize[c] else Tag(0, true)
  {
    if g.start == end {
      assert NodeOk(t, end - OVERHEAD);
    }
  }

  lemma HeldAbove(t: Tags, l: Lists, end: Addr, c: Addr)
    requires CoreOf(t, l, end) && c in HeldSet(t)
    ensures 0 < c
  {
  }

  lemma GrantRegion(t: Tags, g: Grant, n: nat)
    requires GrantOk(t, g, n + SIZE_ALIGN) && g.Memory? && 0 < n
    ensures var c, len := g.start + SIZE_ALIGN - OVERHEAD, g.length - SIZE_ALIGN;
            0 < c && OnGrid(c) && n <= len && len % SIZE_ALIGN == 0 && Fresh(t, c, c + len + OVERHEAD)
  {
  }

  lemma GrantExtends(t: Tags, g: Grant, n: nat)
    requires GrantOk(t, g, n + SIZE_ALIGN) && g.Memory?
    ensures SIZE_ALIGN <= g.start && n <= g.length && g.length % SIZE_ALIGN == 0
    ensures Fresh(t, g.start, g.start + g.length)
  {
  }

  /** The tags of a heap that ends at end, once the granted memory holds one used chunk. */
  ghost function Granted(t: Tags, end: Addr, g: Grant): Tags
    requires g.Memory? && SIZE_ALIGN <= g.start && SIZE_ALIGN <= g.length
  {
    if g.start != end then AddRegion(t, g.start + SIZE_ALIGN - OVERHEAD, g.length - SIZE_ALIGN)
    else Extend(t, g.start - OVERHEAD, g.length)
  }

  /** Byte b becomes part of a chunk when the memory is granted to a heap that ends at end. */
  ghost predicate NewByte(end: Addr, g: Grant, b: Addr)
    requires g.Memory?
  {
    FreshChunk(end, g) <= b < g.start + g.length - OVERHEAD
  }

  /** Where the chunk of fresh memory starts: at the old end sentinel, or after the one of the new region. */
  ghost function FreshChunk(end: Addr, g: Grant): Addr
    requires g.Memory?
  {
    if g.start == end then end - OVERHEAD else g.start + SIZE_ALIGN - OVERHEAD
  }

  /** The chunk that fresh memory leads to: joined with the free chunk before it, if there is one. */
  ghost function FreshPlace(t: Tags, end: Addr, g: Grant): Addr
    requires g.Memory?
  {
    var x := FreshChunk(end, g);
    if g.start == end && x in t.psize && !t.psize[x].used then x - t.psize[x].size else x
  }

  /** j is the lowest bin from i upwards whose bit is set. */
  ghost predicate Lowest(binmap: set<nat>, i: nat, j: nat) {
    i <= j < BIN_COUNT && j in binmap && forall k: nat :: i <= k < j ==> k !in binmap
  }

  ghost predicate NoneSet(binmap: set<nat>, i: nat) {
    forall k: nat :: i <= k < BIN_COUNT ==> k !in binmap
  }

  /** c is the chunk at the head of bin j. */
  ghost predicate Heads(bins: seq<seq<Addr>>, j: nat, c: Addr) {
    j < |bins| && bins[j] != [] && bins[j][0] == c
  }

  /** A chunk stands in its bin once, so the head is at its head only. */
  lemma HeadFirst(t: Tags, l: Lists, i: nat, p: nat)
    requires Binned(t, l) && i < BIN_COUNT && p < |l.bins[i]|
    ensures Heads(l.bins, i, l.bins[i][p]) ==> p == 0 && l.bins[i][..p] + l.bins[i][p + 1..] == l.bins[i][1..]
  {
    assert BinOk(t, l.bins[i], i);
  }

  /** The head of bin j is gone; where it was split in place, the rest of it is the head now. */
  ghost predicate HeadTaken(t: Tags, b: seq<seq<Addr>>, b': seq<seq<Addr>>, n: nat, i: nat, j: nat) {
    && j < |b| && b[j] != [] && b[j][0] in t.csize && n <= t.csize[b[j][0]].size
    && b' == b[j := (if CanPretrim(t.csize[b[j][0]].size, n, i, j) then [b[j][0] + n] else []) + b[j][1..]]
  }

  /** The chunk a request gets: the head of the lowest usable bin, else the one that fresh memory leads to. */
  ghost predicate Served(t: Tags, bins: seq<seq<Addr>>, binmap: set<nat>, end: Addr, g: Grant, i: nat, c: Addr) {
    && (forall j :: Lowest(binmap, i, j) ==> Heads(bins, j, c))
    && (NoneSet(binmap, i) && g.Memory? ==> c == FreshPlace(t, end, g))
  }

  /** A request served from a bin keeps the bytes of the heap; one served from fresh memory adds exactly those. */
  ghost predicate Grown(t: Tags, u: Tags, binmap: set<nat>, end: Addr, g: Grant, i: nat) {
    if NoneSet(binmap, i) && g.Memory? then forall b :: InHeap(u, b) <==> InHeap(t, b) || NewByte(end, g, b)
    else SameBytes(t, u)
  }

  lemma GrownOnward(t: Tags, u: Tags, v: Tags, binmap: set<nat>, end: Addr, g: Grant, i: nat)
    requires Grown(t, u, binmap, end, g, i) && SameBytes(u, v)
    ensures Grown(t, v, binmap, end, g, i)
  {
    hide InHeap, NewByte, NoneSet;
    forall b ensures InHeap(u, b) <==> InHeap(v, b) { }
  }

  /** The chunk is filed last in the bin for its size. */
  ghost predicate FiledLast(t: Tags, bins: seq<seq<Addr>>, c: Addr) {
    && c in FreeSet(t) && 0 < t.csize[c].size
    && var i := BinIndex(t.csize[c].size);
    i < |bins| && bins[i] != [] && bins[i][|bins[i]| - 1] == c
  }

  /** A chunk went back as part of the free chunk c, filed last; other free chunks only went away, and those that
      are left keep their order. */
  ghost predicate Refiled(t: Tags, u: Tags, b: seq<seq<Addr>>, b': seq<seq<Addr>>, chunk: Addr, c: Addr) {
    && FiledLast(u, b', c) && c <= chunk < c + u.csize[c].size && FreeSet(u) - {c} <= FreeSet(t)
    && QueueKept(b, b', FreeSet(u) - {c}) && SameBytes(t, u)
  }

  lemma GrantCore(t: Tags, l: Lists, end: Addr, g: Grant, n: nat)
    requires CoreOf(t, l, end) && 0 < n && n % SIZE_ALIGN == 0 && GrantOk(t, g, n + SIZE_ALIGN) && g.Memory?
    ensures SIZE_ALIGN <= g.start && n + SIZE_ALIGN <= g.length
    ensures var u, c := Granted(t, end, g), FreshChunk(end, g);
            && CoreOf(u, l, g.start + g.length) && c !in HeldSet(t)
            && HeldSet(u) == HeldSet(t) + {c} && Same(t, u, HeldSet(t)) && FreeSet(u) == FreeSet(t)
            && (forall b :: InHeap(u, b) <==> InHeap(t, b) || NewByte(end, g, b))
            && c in u.psize && u.psize[c] == if g.start == end && c in t.psize then t.psize[c] else Tag(0, true)
  {
    hide BinIndex, CoreOf, Fresh, OnGrid, FreeSet, HeldSet, Same, AddRegion, Extend, InHeap;
    GrantExtends(t, g, n);
    GrantFooter(t, l, end, g);
    if g.start == end {
      ExtendCore(t, l, end, g.length);
    } else {
      GrantRegion(t, g, n);
      RegionCore(t, l, end, g.start + SIZE_ALIGN - OVERHEAD, g.length - SIZE_ALIGN);
    }
  }

  /** Byte b lies in the block of n bytes that malloc handed out for chunk c. */
  ghost predicate InBlock(c: Addr, n: nat, b: Addr) {
    c + OVERHEAD <= b < c + OVERHEAD + n
  }

  /** Live blocks are pairwise disjoint, and no byte of a live block belongs to a header word of
      any chunk or to the link fields of a free chunk: what the program writes into its blocks
      cannot reach the allocator's own data. */
  lemma LiveBlocksDisjoint(t: Tags, requested: map<Addr, nat>, c: Addr, b: Addr)
    requires Shaped(t) && requested.Keys == HeldSet(t)
    requires forall x :: x in requested ==> requested[x] + OVERHEAD <= t.csize[x].size
    requires c in requested && InBlock(c, requested[c], b)
    ensures forall d :: d in requested && d != c ==> !InBlock(d, requested[d], b)
    ensures forall x :: x in t.nodes ==> !(x <= b < x + OVERHEAD)
    ensures forall x :: x in FreeSet(t) ==> !(x <= b < x + 2 * OVERHEAD)
  {
    forall x | x in t.nodes
      ensures x != c ==> x + OVERHEAD <= c + OVERHEAD || c + requested[c] + OVERHEAD <= x
      ensures x in t.csize
      ensures x != c && x < c ==> x + t.csize[x].size <= c
    {
      assert NodeOk(t, x) && NodeOk(t, c);
      assert Apart(t, x, c) && Apart(t, c, x);
    }
    forall x | x in FreeSet(t) ensures 2 * OVERHEAD <= t.csize[x].size {
      assert NodeOk(t, x);
      AlignedSize(t, x);
    }
  }

  class Heap {
    var psize: map<Addr, Tag>
    var csize: map<Addr, Tag>
    var next: Links
    var prev: Links
    var binmap: set<nat>
    var end: Addr  // one past the newest region, 0 before the first
    ghost var nodes: set<Addr>
    ghost var bins: seq<seq<Addr>>
    ghost var requested: map<Addr, nat>  // live chunk -> bytes asked for

    ghost function Layout(): Tags
      reads this
    {
      Tags(nodes, psize, csize)
    }

    ghost function Table(): Lists
      reads this
    {
      Lists(next, prev, bins, binmap)
    }

    ghost predicate Core()
      reads this
    {
      CoreOf(Layout(), Table(), end)
    }

    /** Core invariants, and the chunks in use are exactly the live ones, each large enough. */
    ghost predicate Valid()
      reads this
    {
      && Core()
      && requested.Keys == HeldSet(Layout())
      && forall c :: c in requested ==> requested[c] + OVERHEAD <= csize[c].size
    }

    constructor ()
      ensures Valid() && requested == map[] && nodes == {} && end == 0
    {
      psize, csize := map[], map[];
      next := map i: nat | i < BIN_COUNT :: BinChunk(i) := BinChunk(i);
      prev := map i: nat | i < BIN_COUNT :: BinChunk(i) := BinChunk(i);
      binmap, end := {}, 0;
      nodes, bins, requested := {}, seq(BIN_COUNT, _ => []), map[];
      new;
      forall i | 0 <= i < BIN_COUNT ensures Ring(next, prev, bins[i], BinChunk(i)) {
        assert LinkAt(next, prev, bins[i], BinChunk(i), 0);
      }
    }

    /** Takes a free chunk out of its bin and marks it used; nothing else changes. */
    method Unbin(c: Addr, i: nat)
      requires Core() && c in FreeSet(Layout()) && i == BinIndex(csize[c].size)
      modifies `psize, `csize, `next, `prev, `binmap, `bins
      ensures Core() && Took(old(Layout()), Layout(), c)
      ensures QueueKept(old(bins), bins, FreeSet(Layout()))
      ensures Heads(old(bins), i, c) ==> bins == old(bins)[i := old(bins)[i][1..]]
    {
      hide BinIndex, QueueKept;
      ghost var t, l := Layout(), Table();
      ghost var p := UnbinCore(t, l, end, c, i);
      HeadFirst(t, l, i, p);
      if prev[c] == next[c] {
        binmap := binmap - {i};
      }
      var before, after, n := prev[c], next[c], csize[c].size;
      next := next[before := after];
      prev := prev[after := before];
      csize := csize[c := Tag(n, true)];
      psize := psize[c + n := Tag(n, true)];
      bins := Unlink(l, i, p).bins;
    }

    /** Takes chunk c if it is free. */
    method AllocFwd(c: Addr) returns (taken: bool)
      requires Core() && c in nodes && c in csize
      modifies `psize, `csize, `next, `prev, `binmap, `bins
      ensures Core() && taken == !old(csize[c].used)
      ensures if taken then Took(old(Layout()), Layout(), c) else Layout() == old(Layout())
      ensures QueueKept(old(bins), bins, FreeSet(Layout()))
    {
      hide QueueKept;
      QueueRefl(bins, FreeSet(Layout()));
      NextFree(Layout(), c);
      taken := !csize[c].used;
      if taken {
        Unbin(c, BinIndex(csize[c].size));
      }
    }

    /** Takes the chunk before c if it is free. */
    method AllocRev(c: Addr) returns (taken: bool)
      requires Core() && c in nodes && c in psize
      modifies `psize, `csize, `next, `prev, `binmap, `bins
      ensures Core() && taken == !old(psize[c].used)
      ensures if taken then Took(old(Layout()), Layout(), c - old(psize[c].size)) else Layout() == old(Layout())
      ensures QueueKept(old(bins), bins, FreeSet(Layout()))
    {
      hide QueueKept;
      QueueRefl(bins, FreeSet(Layout()));
      PrevFree(Layout(), c);
      taken := !psize[c].used;
      if taken {
        Unbin(c - psize[c].size, BinIndex(psize[c].size));
      }
    }

    /** Marks the stretch of used chunks from self up to nxt as one free chunk and links it at
        the tail of its bin. */
    method Bin(self: Addr, nxt: Addr, ghost t0: Tags, ghost held: set<Addr>)
      requires Core() && Stretch(Layout(), self, nxt, t0, held) && NodeOk(Layout(), self) && NodeOk(Layout(), nxt)
      requires psize[self].used && csize[nxt].used
      modifies `psize, `csize, `next, `prev, `binmap, `bins, `nodes
      ensures Core() && HeldSet(Layout()) == held && Same(t0, Layout(), held) && SameBytes(t0, Layout())
      ensures FreeSet(Layout()) == old(FreeSet(Layout())) + {self} && self !in old(FreeSet(Layout()))
      ensures FiledLast(Layout(), bins, self) && csize[self].size == nxt - self
      ensures QueueKept(old(bins), bins, old(FreeSet(Layout())))
    {
      hide BinIndex, CoreOf, QueueKept, SameBytes, HeldSet, Same;
      ghost var t, l := Layout(), Table();
      FreeCore(t, l, end, self, nxt, t0, held);
      var final := nxt - self;
      var i := BinIndex(final);
      binmap := binmap + {i};
      csize := csize[self := Tag(final, false)];
      psize := psize[nxt := Tag(final, false)];
      var tail := prev[BinChunk(i)];
      next := next[self := BinChunk(i)];
      prev := prev[self := tail];
      prev := prev[BinChunk(i) := self];
      next := next[tail := self];
      nodes := Absorb(t, self, nxt, false).nodes;
      bins := Push(l, self, i).bins;
    }

    /** Widens a stretch of used chunks by the free chunk before it, if there is one. */
    method MergeBack(lo: Addr, hi: Addr, ghost t0: Tags, ghost held: set<Addr>) returns (c: Addr)
      requires Core() && Stretch(Layout(), lo, hi, t0, held) && NodeOk(Layout(), lo)
      modifies `psize, `csize, `next, `prev, `binmap, `bins
      ensures Core() && Stretch(Layout(), c, hi, t0, held) && c <= lo
      ensures QueueKept(old(bins), bins, FreeSet(Layout()))
      ensures if old(psize[lo].used) then Layout() == old(Layout()) else FreeSet(Layout()) < old(FreeSet(Layout()))
    {
      hide BinIndex, CoreOf;
      ghost var t := Layout();
      CoreShaped(t, Table(), end);
      c := lo;
      var taken := AllocRev(lo);
      if taken {
        c := lo - psize[lo].size;
        Widen(t, Layout(), c, lo, hi, t0, held);
      }
    }

    /** Widens it by the free chunk after it, if there is one. */
    method MergeForward(lo: Addr, hi: Addr, ghost t0: Tags, ghost held: set<Addr>) returns (c: Addr)
      requires Core() && Stretch(Layout(), lo, hi, t0, held) && NodeOk(Layout(), hi)
      modifies `psize, `csize, `next, `prev, `binmap, `bins
      ensures Core() && Stretch(Layout(), lo, c, t0, held) && hi <= c
      ensures QueueKept(old(bins), bins, FreeSet(Layout()))
      ensures if old(csize[hi].used) then Layout() == old(Layout()) else FreeSet(Layout()) < old(FreeSet(Layout()))
    {
      hide BinIndex, CoreOf;
      ghost var t := Layout();
      CoreShaped(t, Table(), end);
      c := hi;
      var taken := AllocFwd(hi);
      if taken {
        c := hi + csize[hi].size;
        Widen(t, Layout(), hi, lo, hi, t0, held);
      }
    }

    /** One round of merging with the free neighbours on both sides. */
    method Merge(self: Addr, nxt: Addr, ghost t0: Tags, ghost held: set<Addr>) returns (lo: Addr, hi: Addr)
      requires Core() && Stretch(Layout(), self, nxt, t0, held) && NodeOk(Layout(), self) && NodeOk(Layout(), nxt)
      requires !(psize[self].used && csize[nxt].used)
      modifies `psize, `csize, `next, `prev, `binmap, `bins
      ensures Core() && Stretch(Layout(), lo, hi, t0, held) && lo <= self && nxt <= hi
      ensures FreeSet(Layout()) < old(FreeSet(Layout())) && QueueKept(old(bins), bins, FreeSet(Layout()))
    {
      hide BinIndex, CoreOf, Stretch, FreeSet, QueueKept;
      lo := MergeBack(self, nxt, t0, held);
      ghost var b, free := bins, FreeSet(Layout());
      CoreShaped(Layout(), Table(), end);
      StretchEnds(Layout(), lo, nxt, t0, held);
      hi := MergeForward(lo, nxt, t0, held);
      QueueOnward(old(bins), b, bins, free, FreeSet(Layout()));
    }

    /** The body of free: a used chunk goes back, merged with its free neighbours. Every other
        chunk in use keeps its place and size, and the footer check cannot fail. */
    method Release(chunk: Addr) returns (ghost c: Addr)
      requires Core() && chunk in HeldSet(Layout())
      modifies `psize, `csize, `next, `prev, `binmap, `bins, `nodes
      ensures Core() && Refiled(old(Layout()), Layout(), old(bins), bins, chunk, c)
      ensures HeldSet(Layout()) == old(HeldSet(Layout())) - {chunk}
      ensures Same(old(Layout()), Layout(), HeldSet(Layout()))
    {
      hide QueueKept, SameBytes, FiledLast, BinIndex;
      ghost var t0, held := Layout(), HeldSet(Layout()) - {chunk};
      StretchStart(t0, chunk);
      QueueRefl(bins, FreeSet(Layout()));
      var self, nxt := chunk, chunk + csize[chunk].size;
      assert psize[nxt] == csize[self];
      StretchEnds(t0, self, nxt, t0, held);
      while !(psize[self].used && csize[nxt].used)
        invariant Core()
        invariant Stretch(Layout(), self, nxt, t0, held) && NodeOk(Layout(), self) && NodeOk(Layout(), nxt)
        invariant self <= chunk < nxt && FreeSet(Layout()) <= FreeSet(t0)
        invariant QueueKept(old(bins), bins, FreeSet(Layout()))
        decreases FreeSet(Layout())
      {
        ghost var b, free := bins, FreeSet(Layout());
        self, nxt := Merge(self, nxt, t0, held);
        QueueOnward(old(bins), b, bins, free, FreeSet(Layout()));
        StretchEnds(Layout(), self, nxt, t0, held);
      }
      ghost var b, free := bins, FreeSet(Layout());
      Bin(self, nxt, t0, held);
      c := self;
      assert FreeSet(Layout()) - {c} == free;
      QueueOnward(old(bins), b, bins, free, free);
    }

    /** Frees a live block: exactly that block stops being live. Freeing null changes nothing. */
    method Free(p: Addr) returns (ghost c: Addr)
      requires Valid() && (p != 0 ==> p - OVERHEAD in requested)
      modifies this
      ensures Valid()
      ensures p == 0 ==> Layout() == old(Layout()) && Table() == old(Table()) && requested == old(requested)
      ensures p != 0 ==> Refiled(old(Layout()), Layout(), old(bins), bins, p - OVERHEAD, c)
      ensures p != 0 ==> requested == old(requested) - {p - OVERHEAD}
      ensures Same(old(Layout()), Layout(), HeldSet(Layout()))
    {
      c := 0;
      if p != 0 {
        c := Release(p - OVERHEAD);
        requested := requested - {p - OVERHEAD};
      }
    }

    /** Cuts a used chunk down to n bytes and frees the rest. */
    method Trim(self: Addr, n: nat) returns (ghost rest: Addr)
      requires Core() && self in HeldSet(Layout()) && 0 < n <= csize[self].size && n % SIZE_ALIGN == 0
      modifies `psize, `csize, `next, `prev, `binmap, `bins, `nodes
      ensures Core() && HeldSet(Layout()) == old(HeldSet(Layout())) && csize[self].size == n
      ensures FreeSet(Layout()) - {rest} <= old(FreeSet(Layout()))
      ensures QueueKept(old(bins), bins, FreeSet(Layout()) - {rest}) && SameBytes(old(Layout()), Layout())
      ensures Same(old(Layout()), Layout(), HeldSet(Layout()) - {self})
    {
      hide QueueKept, SameBytes, FiledLast, BinIndex;
      var n1 := csize[self].size;
      AlignedSize(Layout(), self);
      rest := self;
      ghost var t := Layout();
      if n >= n1 - DONTCARE {
        QueueRefl(bins, FreeSet(t) - {rest});
        RetaggedBytes(t, t);
        return;
      }
      SplitCore(t, Table(), end, self, n);
      var nxt, split := self + n1, self + n;
      psize := psize[split := Tag(n, true)];
      csize := csize[split := Tag(n1 - n, true)];
      psize := psize[nxt := Tag(n1 - n, true)];
      csize := csize[self := Tag(n, true)];
      nodes := nodes + {split};
      ghost var u := Carve(t, self, n, true, true);
      assert Layout() == u;
      rest := Release(split);
      BytesOnward(t, u, Layout());
    }

    /** The rewrite of pretrim: the front of the head of bin j is used, the rest takes its place. */
    method SplitHead(self: Addr, n: nat, j: nat)
      requires Core() && j < BIN_COUNT == |bins| && bins[j] != [] && self == bins[j][0] && self in FreeSet(Layout())
      requires 0 < n < csize[self].size && n % SIZE_ALIGN == 0 && BinIndex(csize[self].size - n) == j
      modifies `psize, `csize, `next, `prev, `bins, `nodes
      ensures Core() && HeldSet(Layout()) == old(HeldSet(Layout())) + {self} &&
              csize == old(csize)[self + n := Tag(old(csize[self].size) - n, false)][self := Tag(n, true)]
      ensures Same(old(Layout()), Layout(), old(HeldSet(Layout()))) && SameBytes(old(Layout()), Layout())
      ensures QueueKept(old(bins), bins, FreeSet(Layout())) && bins == old(bins)[j := [self + n] + old(bins)[j][1..]]
    {
      hide BinIndex, CoreOf, HeldSet, Same, QueueKept, SameBytes;
      ghost var t, l := Layout(), Table();
      PretrimCore(t, l, end, j, 0, n);
      var n1 := csize[self].size;
      var nxt, split := self + n1, self + n;
      var before, after := prev[self], next[self];
      prev := prev[split := before];
      next := next[split := after];
      next := next[before := split];
      prev := prev[after := split];
      psize := psize[split := Tag(n, true)];
      csize := csize[split := Tag(n1 - n, false)];
      psize := psize[nxt := Tag(n1 - n, false)];
      csize := csize[self := Tag(n, true)];
      nodes := nodes + {split};
      bins := Substitute(l, j, 0, split).bins;
      assert l.bins[j][0 := split] == [split] + l.bins[j][1..];
      assert Layout() == Carve(t, self, n, true, false);
    }

    /** Splits the head of bin j in place when that needs no move to another bin. */
    method Pretrim(self: Addr, n: nat, i: nat, j: nat) returns (done: bool)
      requires Core() && self in FreeSet(Layout()) && j == BinIndex(csize[self].size) && bins[j] != [] &&
               self == bins[j][0]
      requires SIZE_ALIGN <= n <= MMAP_THRESHOLD && n % SIZE_ALIGN == 0 && i == BinIndexUp(n) && i <= j
      modifies `psize, `csize, `next, `prev, `bins, `nodes
      ensures Core() && n <= old(csize[self].size)
      ensures done <==> CanPretrim(old(csize[self].size), n, i, j)
      ensures !done ==> Layout() == old(Layout()) && Table() == old(Table())
      ensures done ==> bins == old(bins)[j := [self + n] + old(bins)[j][1..]]
      ensures SameBytes(old(Layout()), Layout()) && QueueKept(old(bins), bins, FreeSet(Layout()))
      ensures done ==> HeldSet(Layout()) == old(HeldSet(Layout())) + {self} && csize[self].size == n
      ensures Same(old(Layout()), Layout(), old(HeldSet(Layout())))
    {
      hide BinIndex, BinIndexUp, QueueKept, SameBytes;
      QueueRefl(bins, FreeSet(Layout()));
      RetaggedBytes(Layout(), Layout());
      NextFree(Layout(), self);
      AlignedSize(Layout(), self);
      var n1 := csize[self].size;
      PretrimRemainder(n1, n, i, j);
      done := false;
      if j < 40 {
        return;
      }
      if j < i + 3 {
        if j != 63 {
          return;
        }
        if n1 - n <= MMAP_THRESHOLD {
          return;
        }
      }
      if BinIndex(n1 - n) != j {
        return;
      }
      SplitHead(self, n, j);
      done := true;
    }

    /** The lowest bin from i upwards whose bit is set, or BIN_COUNT when none is. */
    method FirstSet(i: nat) returns (j: nat)
      requires i < BIN_COUNT
      ensures i <= j <= BIN_COUNT && (j < BIN_COUNT ==> j in binmap)
      ensures forall k: nat :: i <= k < j ==> k !in binmap
    {
      j := i;
      while j < BIN_COUNT && j !in binmap
        invariant i <= j <= BIN_COUNT
        invariant forall k: nat :: i <= k < j ==> k !in binmap
      {
        j := j + 1;
      }
    }

    /** Writes header and footer of the one used chunk of a stretch of fresh memory, and the sentinel after it. */
    method FillRegion(p: Addr, len: nat)
      requires p >= OVERHEAD
      modifies `psize, `csize, `end
      ensures end == p + len
      ensures psize == old(psize)[p + len - OVERHEAD := Tag(len, true)]
      ensures csize == old(csize)[p + len - OVERHEAD := Tag(0, true)][p - OVERHEAD := Tag(len, true)]
    {
      end := p + len;
      psize := psize[end - OVERHEAD := Tag(len, true)];
      csize := csize[end - OVERHEAD := Tag(0, true)];
      csize := csize[p - OVERHEAD := Tag(len, true)];
    }

    /** Fresh memory becomes one used chunk, at the end of the newest region or in a new region. */
    method ExpandHeap(n: nat, grant: Grant) returns (c: Addr)
      requires Core() && 0 < n && n % SIZE_ALIGN == 0 && GrantOk(Layout(), grant, n + SIZE_ALIGN)
      modifies `psize, `csize, `end, `nodes
      ensures Core() && (c == 0 <==> grant.NoMemory?)
      ensures c == 0 ==> Layout() == old(Layout()) && end == old(end)
      ensures c != 0 ==>
                c !in old(HeldSet(Layout())) && HeldSet(Layout()) == old(HeldSet(Layout())) + {c} && n <= csize[c].size
      ensures c != 0 ==>
                && c == FreshChunk(old(end), grant) && end == grant.start + grant.length
                && (forall b :: InHeap(Layout(), b) <==> old(InHeap(Layout(), b)) || NewByte(old(end), grant, b))
                && FreeSet(Layout()) == old(FreeSet(Layout())) && c in psize
                && psize[c] == if grant.start == old(end) && c in old(psize) then old(psize)[c] else Tag(0, true)
      ensures Same(old(Layout()), Layout(), old(HeldSet(Layout())))
    {
      hide BinIndex, CoreOf, GrantOk, HeldSet, Same, InHeap, FreeSet, NewByte;
      if grant.NoMemory? {
        SameRefl(Layout());
        return 0;
      }
      ghost var t := Layout();
      GrantCore(t, Table(), end, grant, n);
      var p, len := grant.start, grant.length;
      ghost var u := Granted(t, end, grant);
      if p != end {
        len := len - SIZE_ALIGN;
        p := p + SIZE_ALIGN;
        psize := psize[p - OVERHEAD := Tag(0, true)];
      }
      c := p - OVERHEAD;
      FillRegion(p, len);
      nodes := u.nodes;
      assert Layout() == u;
      assert csize[c].size == len;
    }

    /** Makes one used chunk of a stretch of used chunks. */
    method Join(c: Addr, nxt: Addr, ghost t0: Tags, ghost held: set<Addr>)
      requires Core() && Stretch(Layout(), c, nxt, t0, held) && NodeOk(Layout(), c) && NodeOk(Layout(), nxt)
      modifies `psize, `csize, `nodes
      ensures Core() && HeldSet(Layout()) == held + {c} && Same(t0, Layout(), held) && csize[c].size == nxt - c
      ensures SameBytes(t0, Layout()) && FreeSet(Layout()) == old(FreeSet(Layout()))
    {
      hide BinIndex, CoreOf, FreeSet, SameBytes;
      JoinCore(Layout(), Table(), end, c, nxt, t0, held);
      ghost var u := Absorb(Layout(), c, nxt, true);
      csize := csize[c := Tag(nxt - c, true)];
      psize := psize[nxt := csize[c]];
      nodes := u.nodes;
      assert Layout() == u;
    }

    /** Joins a fresh chunk with the free chunk before it, if there is one. */
    method JoinBack(x: Addr) returns (c: Addr)
      requires Core() && x in HeldSet(Layout()) && x in psize
      modifies `psize, `csize, `next, `prev, `binmap, `bins, `nodes
      ensures Core() && c in HeldSet(Layout()) && c !in old(HeldSet(Layout())) - {x}
      ensures HeldSet(Layout()) == old(HeldSet(Layout())) - {x} + {c} && old(csize[x].size) <= csize[c].size
      ensures Same(old(Layout()), Layout(), HeldSet(Layout()) - {c})
      ensures c == (if old(psize[x].used) then x else x - old(psize[x].size)) && SameBytes(old(Layout()), Layout())
      ensures QueueKept(old(bins), bins, FreeSet(Layout()))
    {
      hide BinIndex, CoreOf, QueueKept, SameBytes;
      RetaggedBytes(Layout(), Layout());
      c := x;
      ghost var t0, held := Layout(), HeldSet(Layout()) - {x};
      CoreShaped(t0, Table(), end);
      StretchStart(t0, x);
      var nxt, back := x + csize[x].size, x - psize[x].size;
      var rev := AllocRev(x);
      if rev {
        CoreShaped(Layout(), Table(), end);
        Widen(t0, Layout(), back, x, nxt, t0, held);
        StretchEnds(Layout(), back, nxt, t0, held);
        c := back;
        Join(c, nxt, t0, held);
      }
    }

    /** Takes the head of bin j, split in place where that needs no move to another bin. */
    method FromBin(n: nat, i: nat, j: nat) returns (c: Addr)
      requires Core() && SIZE_ALIGN <= n <= MMAP_THRESHOLD && n % SIZE_ALIGN == 0 && i == BinIndexUp(n)
      requires i <= j < BIN_COUNT && j in binmap
      modifies `psize, `csize, `next, `prev, `binmap, `bins, `nodes
      ensures Core() && c != 0 && c !in old(HeldSet(Layout())) && HeldSet(Layout()) == old(HeldSet(Layout())) + {c}
      ensures n <= csize[c].size && Heads(old(bins), j, c) && HeadTaken(old(Layout()), old(bins), bins, n, i, j)
      ensures Same(old(Layout()), Layout(), old(HeldSet(Layout()))) && SameBytes(old(Layout()), Layout())
      ensures QueueKept(old(bins), bins, FreeSet(Layout()))
    {
      hide BinIndex, BinIndexUp, QueueKept, SameBytes;
      assert BinOk(Layout(), bins[j], j) && Ring(next, prev, bins[j], BinChunk(j));
      assert LinkAt(next, prev, bins[j], BinChunk(j), 0);
      c := next[BinChunk(j)];
      assert c == bins[j][0] && c in bins[j];
      ghost var t := Layout();
      var done := Pretrim(c, n, i, j);
      if !done {
        Unbin(c, j);
        TookBytes(t, Layout(), c);
        assert [] + old(bins)[j][1..] == old(bins)[j][1..];
      }
    }

    /** Takes fresh memory, together with the free chunk before it. */
    method FromFresh(n: nat, grant: Grant) returns (c: Addr)
      requires Core() && 0 < n && n % SIZE_ALIGN == 0 && GrantOk(Layout(), grant, n + SIZE_ALIGN)
      modifies `psize, `csize, `next, `prev, `binmap, `bins, `nodes, `end
      ensures Core() && (c == 0 <==> grant.NoMemory?)
      ensures c == 0 ==> Layout() == old(Layout()) && Table() == old(Table()) && end == old(end)
      ensures c != 0 ==>
                && c !in old(HeldSet(Layout())) && HeldSet(Layout()) == old(HeldSet(Layout())) + {c}
                && n <= csize[c].size && c == FreshPlace(old(Layout()), old(end), grant)
                && (forall b :: InHeap(Layout(), b) <==> old(InHeap(Layout(), b)) || NewByte(old(end), grant, b))
      ensures Same(old(Layout()), Layout(), old(HeldSet(Layout())))
      ensures QueueKept(old(bins), bins, FreeSet(Layout()))
    {
      hide BinIndex, CoreOf, QueueKept, InHeap, NewByte, FreeSet, GrantOk;
      QueueRefl(bins, FreeSet(Layout()));
      c := ExpandHeap(n, grant);
      if c != 0 {
        c := JoinBack(c);
        HeldAbove(Layout(), Table(), end, c);
      }
    }

    /** The chunk malloc works on: from the first usable bin, else from fresh memory. */
    method Obtain(n: nat, grant: Grant) returns (c: Addr)
      requires Core() && SIZE_ALIGN <= n <= MMAP_THRESHOLD && n % SIZE_ALIGN == 0
      requires GrantOk(Layout(), grant, n + SIZE_ALIGN)
      modifies `psize, `csize, `next, `prev, `binmap, `bins, `nodes, `end
      ensures Core() && (c == 0 <==> grant.NoMemory? && NoneSet(old(binmap), BinIndexUp(n)))
      ensures c == 0 ==> Layout() == old(Layout()) && Table() == old(Table()) && end == old(end)
      ensures c != 0 ==>
                && c !in old(HeldSet(Layout())) && HeldSet(Layout()) == old(HeldSet(Layout())) + {c}
                && n <= csize[c].size
                && Served(old(Layout()), old(bins), old(binmap), old(end), grant, BinIndexUp(n), c)
                && Grown(old(Layout()), Layout(), old(binmap), old(end), grant, BinIndexUp(n))
      ensures forall j :: Lowest(old(binmap), BinIndexUp(n), j) ==>
                            HeadTaken(old(Layout()), old(bins), bins, n, BinIndexUp(n), j)
      ensures Same(old(Layout()), Layout(), old(HeldSet(Layout())))
      ensures QueueKept(old(bins), bins, FreeSet(Layout()))
    {
      hide BinIndex, BinIndexUp, CoreOf, QueueKept, SameBytes, InHeap, NewByte, HeldSet, FreeSet, Same, GrantOk,
        Heads, FreshPlace, HeadTaken;
      var i := BinIndexUp(n);
      var j := FirstSet(i);
      if j == BIN_COUNT {
        c := FromFresh(n, grant);
      } else {
        c := FromBin(n, i, j);
      }
    }

    /** malloc: a new live block whose chunk is exactly the rounded size, disjoint from every other
        live block, which all keep their place and size. It is the head of the lowest usable bin, else it is in fresh
        memory; it fails exactly when the request is too big, or no bin can serve it and there is no fresh memory. No
        byte leaves the heap, and free chunks keep their order in the bins but for the rest of a split one. */
    method Malloc(n: nat, grant: Grant) returns (r: Outcome)
      requires Valid() && n <= SIZE_MAX
      requires AdjustSize(n).Adjusted? ==> GrantOk(Layout(), grant, AdjustSize(n).size + SIZE_ALIGN)
      modifies this
      ensures Valid()
      ensures r.Mmapped? <==> AdjustSize(n).Adjusted? && MMAP_THRESHOLD < AdjustSize(n).size
      ensures r.Fail? <==> AdjustSize(n).TooBig? ||
                           (&& AdjustSize(n).size <= MMAP_THRESHOLD && grant.NoMemory?
                            && NoneSet(old(binmap), BinIndexUp(AdjustSize(n).size)))
      ensures !r.Block? ==> Layout() == old(Layout()) && Table() == old(Table()) && requested == old(requested)
      ensures r.Block? ==> var c, i := r.mem - OVERHEAD, BinIndexUp(AdjustSize(n).size);
                           && c !in old(requested) && requested == old(requested)[c := n]
                           && c in csize && csize[c].size == AdjustSize(n).size
                           && Served(old(Layout()), old(bins), old(binmap), old(end), grant, i, c)
                           && Grown(old(Layout()), Layout(), old(binmap), old(end), grant, i)
      ensures exists rest :: QueueKept(old(bins), bins, FreeSet(Layout()) - {rest})
      ensures Same(old(Layout()), Layout(), old(HeldSet(Layout())))
    {
      hide BinIndex, BinIndexUp, QueueKept, Served, Grown, NoneSet, CoreOf, SameBytes, GrantOk;
      AdjustSizeIsLeastFit(n);
      QueueRefl(bins, FreeSet(Layout()) - {0});
      var size := AdjustSize(n);
      if size.TooBig? {
        return Fail;
      }
      if size.size > MMAP_THRESHOLD {
        return Mmapped;
      }
      ghost var t, m, e := Layout(), binmap, end;
      var c := Obtain(size.size, grant);
      if c == 0 {
        return Fail;
      }
      ghost var u, b := Layout(), bins;
      ghost var rest := Trim(c, size.size);
      GrownOnward(t, u, Layout(), m, e, grant, BinIndexUp(size.size));
      QueueOnward(old(bins), b, bins, FreeSet(u), FreeSet(Layout()) - {rest});
      requested := requested[c := n];
      r := Block(c + OVERHEAD);
    }
  }
}
