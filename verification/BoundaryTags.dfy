/** Boundary tags on values: which header positions tile the heap, and the three ways the
    allocator rewrites a header together with its footer.

    A tag word (a chunk size with C_INUSE in its low bit) is the pair of its size and its
    in-use flag. The csize field of a chunk is its header; the psize field of the chunk after
    it is its footer. A zero-sized chunk is the sentinel at the end of a region and a
    zero-sized psize marks the first chunk of a region. */
module BoundaryTags {

  import opened SizeClasses

  type Addr = int

  datatype Tag = Tag(size: nat, used: bool)

  /** nodes is the set of chunk positions; psize and csize may hold stale words elsewhere. */
  datatype Tags = Tags(nodes: set<Addr>, psize: map<Addr, Tag>, csize: map<Addr, Tag>)

  /** Header and footer of one chunk agree with those of its neighbours on both sides. */
  ghost predicate NodeOk(t: Tags, c: Addr) {
    && c in t.psize && c in t.csize
    && (t.csize[c].size == 0 ==> t.csize[c].used)
    && (t.psize[c].size == 0 ==> t.psize[c].used)
    && (t.csize[c].size != 0 ==>
          var d := c + t.csize[c].size; d in t.nodes && d in t.psize && t.psize[d] == t.csize[c])
    && (t.psize[c].size != 0 ==>
          var b := c - t.psize[c].size; b in t.nodes && b in t.csize && t.csize[b] == t.psize[c])
  }

  /** Two chunks do not overlap. */
  ghost predicate Apart(t: Tags, c: Addr, d: Addr)
    requires c in t.csize
  {
    c < d ==> c + t.csize[c].size <= d
  }

  ghost predicate Tiled(t: Tags) {
    && (forall c {:trigger NodeOk(t, c)} :: c in t.nodes ==> NodeOk(t, c))
    && (forall c, d {:trigger Apart(t, c, d)} :: c in t.nodes && d in t.nodes && c in t.csize ==> Apart(t, c, d))
  }

  /** Every chunk sits OVERHEAD below an aligned address, so every chunk size is aligned too. */
  ghost predicate Aligned(t: Tags) {
    forall c :: c in t.nodes ==> OnGrid(c) && 0 < c
  }

  predicate OnGrid(c: Addr) {
    c % SIZE_ALIGN == OVERHEAD
  }

  lemma GridShift(c: Addr, n: Addr)
    requires OnGrid(c) && n % SIZE_ALIGN == 0
    ensures OnGrid(c + n)
  {
  }

  lemma GridGap(c: Addr, n: Addr)
    requires OnGrid(c) && OnGrid(c + n)
    ensures n % SIZE_ALIGN == 0
  {
  }

  lemma AlignedSize(t: Tags, c: Addr)
    requires Tiled(t) && Aligned(t) && c in t.nodes && c in t.csize
    ensures t.csize[c].size % SIZE_ALIGN == 0
  {
    hide OnGrid;
    assert NodeOk(t, c);
    if t.csize[c].size != 0 {
      assert c + t.csize[c].size in t.nodes;
      GridGap(c, t.csize[c].size);
    }
  }

  /** No two adjacent chunks are both free. */
  ghost predicate Coalesced(t: Tags) {
    forall c {:trigger t.csize[c]} :: c in t.nodes && c in t.psize && c in t.csize ==>
        t.psize[c].used || t.csize[c].used
  }

  function WriteTag(t: Tags, c: Addr, tag: Tag): Tags {
    t.(csize := t.csize[c := tag], psize := t.psize[c + tag.size := tag])
  }

  /** The chunks strictly between two positions stop being chunks. */
  function Absorb(t: Tags, c: Addr, d: Addr, used: bool): Tags
    requires c < d
  {
    WriteTag(t, c, Tag(d - c, used)).(nodes := set x | x in t.nodes && !(c < x < d))
  }

  lemma AbsorbNode(t: Tags, c: Addr, d: Addr, used: bool, x: Addr)
    requires Tiled(t) && c in t.nodes && d in t.nodes && c < d
    requires x in t.nodes && !(c < x < d)
    ensures NodeOk(Absorb(t, c, d, used), x)
  {
    assert NodeOk(t, c) && NodeOk(t, d) && NodeOk(t, x);
    if x != c && t.csize[x].size != 0 {
      assert Apart(t, x, c);
    }
    if x != d && t.psize[x].size != 0 {
      var b := x - t.psize[x].size;
      assert NodeOk(t, b);
      assert Apart(t, b, d) && Apart(t, c, x);
    }
  }

  lemma AbsorbApart(t: Tags, c: Addr, d: Addr, used: bool, x: Addr, y: Addr)
    requires Tiled(t) && c in t.nodes && d in t.nodes && c < d
    requires x in t.nodes && !(c < x < d) && y in t.nodes && !(c < y < d) && NodeOk(t, x)
    ensures Apart(Absorb(t, c, d, used), x, y)
  {
    assert Apart(t, x, y);
  }

  /** Tagging the whole stretch from chunk c up to chunk d as one chunk keeps the tiling.
      This covers marking a chunk used or free (d is its neighbour) and merging. */
  lemma AbsorbTiled(t: Tags, c: Addr, d: Addr, used: bool)
    requires Tiled(t) && c in t.nodes && d in t.nodes && c < d
    ensures Tiled(Absorb(t, c, d, used))
  {
    var u := Absorb(t, c, d, used);
    forall x {:trigger NodeOk(u, x)} | x in u.nodes ensures NodeOk(u, x) {
      AbsorbNode(t, c, d, used, x);
    }
    forall x, y {:trigger Apart(u, x, y)} | x in u.nodes && y in u.nodes && x in u.csize ensures Apart(u, x, y) {
      assert NodeOk(t, x);
      AbsorbApart(t, c, d, used, x, y);
    }
  }

  /** Only the flag of the stretch changes, so coalescing survives unless a free stretch meets
      a free neighbour. */
  lemma AbsorbCoalesced(t: Tags, c: Addr, d: Addr, used: bool)
    requires Tiled(t) && Coalesced(t) && c in t.nodes && d in t.nodes && c < d
    requires NodeOk(t, c) && NodeOk(t, d) && (used || (t.psize[c].used && t.csize[d].used))
    ensures Coalesced(Absorb(t, c, d, used))
  {
  }

  /** Split chunk c after n bytes. */
  function Carve(t: Tags, c: Addr, n: nat, used: bool, restUsed: bool): Tags
    requires c in t.csize && n <= t.csize[c].size
  {
    var rest := Tag(t.csize[c].size - n, restUsed);
    Tags(t.nodes + {c + n},
         t.psize[c + n := Tag(n, used)][c + t.csize[c].size := rest],
         t.csize[c + n := rest][c := Tag(n, used)])
  }

  lemma CarveNode(t: Tags, c: Addr, n: nat, used: bool, restUsed: bool, x: Addr)
    requires Tiled(t) && c in t.nodes && NodeOk(t, c)
    requires 0 < n < t.csize[c].size && c + n !in t.nodes
    requires x in t.nodes || x == c + n
    ensures NodeOk(Carve(t, c, n, used, restUsed), x)
  {
    var d := c + t.csize[c].size;
    assert NodeOk(t, d);
    if x != c + n {
      assert NodeOk(t, x);
      if x != c && t.csize[x].size != 0 { assert NodeOk(t, x + t.csize[x].size); }
      if x != d && t.psize[x].size != 0 { assert NodeOk(t, x - t.psize[x].size); }
    }
  }

  /** Splitting a chunk in two keeps the tiling. */
  lemma CarveTiled(t: Tags, c: Addr, n: nat, used: bool, restUsed: bool)
    requires Tiled(t) && c in t.nodes && NodeOk(t, c)
    requires 0 < n < t.csize[c].size
    ensures c + n !in t.nodes
    ensures Tiled(Carve(t, c, n, used, restUsed))
  {
    var u := Carve(t, c, n, used, restUsed);
    var m := c + n;
    assert m in t.nodes ==> Apart(t, c, m);
    forall x {:trigger NodeOk(u, x)} | x in u.nodes ensures NodeOk(u, x) {
      CarveNode(t, c, n, used, restUsed, x);
    }
    forall x, y {:trigger Apart(u, x, y)} | x in u.nodes && y in u.nodes && x in u.csize ensures Apart(u, x, y) {
      if x != m { assert NodeOk(t, x); assert Apart(t, x, c) && Apart(t, c, x); }
      if y != m { assert Apart(t, c, y); }
      if x != m && y != m { assert Apart(t, x, y); }
    }
  }

  lemma CarveCoalesced(t: Tags, c: Addr, n: nat, used: bool, restUsed: bool)
    requires Tiled(t) && Coalesced(t) && c in t.nodes && NodeOk(t, c)
    requires 0 < n < t.csize[c].size
    requires used && (restUsed || !t.csize[c].used)
    ensures Coalesced(Carve(t, c, n, used, restUsed))
  {
    var u := Carve(t, c, n, used, restUsed);
    var d := c + t.csize[c].size;
    assert NodeOk(t, d);
    assert t.psize[d].used || t.csize[d].used;
  }

  /** A new region: one used chunk of n bytes at c, closed by a sentinel. */
  function AddRegion(t: Tags, c: Addr, n: nat): Tags {
    WriteTag(t.(csize := t.csize[c + n := Tag(0, true)], psize := t.psize[c := Tag(0, true)]), c, Tag(n, true))
      .(nodes := t.nodes + {c, c + n})
  }

  /** Fresh memory: no chunk or sentinel header of the heap reaches into it. */
  ghost predicate Fresh(t: Tags, lo: Addr, hi: Addr) {
    forall x :: x in t.nodes ==> x in t.csize && (x + t.csize[x].size + OVERHEAD <= lo || hi <= x)
  }

  lemma AddRegionNode(t: Tags, c: Addr, n: nat, x: Addr)
    requires Tiled(t) && c !in t.nodes && c + n !in t.nodes && 0 < n
    requires x in t.nodes + {c, c + n}
    ensures NodeOk(AddRegion(t, c, n), x)
  {
    if x in t.nodes {
      assert NodeOk(t, x);
      if t.csize[x].size != 0 { assert NodeOk(t, x + t.csize[x].size); }
      if t.psize[x].size != 0 { assert NodeOk(t, x - t.psize[x].size); }
    }
  }

  lemma AddRegionTiled(t: Tags, c: Addr, n: nat)
    requires Tiled(t) && Coalesced(t)
    requires 0 < n
    requires Fresh(t, c, c + n + OVERHEAD)
    ensures Tiled(AddRegion(t, c, n)) && Coalesced(AddRegion(t, c, n))
    ensures c !in t.nodes && c + n !in t.nodes
  {
    var u := AddRegion(t, c, n);
    forall x {:trigger NodeOk(u, x)} | x in u.nodes ensures NodeOk(u, x) {
      AddRegionNode(t, c, n, x);
    }
    forall x, y {:trigger Apart(u, x, y)} | x in u.nodes && y in u.nodes && x in u.csize ensures Apart(u, x, y) {
      if x in t.nodes { assert NodeOk(t, x); }
      if y in t.nodes { assert NodeOk(t, y); }
      if x in t.nodes && y in t.nodes { assert Apart(t, x, y); }
    }
  }

  /** Growing a region in place: its end sentinel becomes the header of a used chunk. */
  function Extend(t: Tags, c: Addr, n: nat): Tags {
    WriteTag(t.(csize := t.csize[c + n := Tag(0, true)]), c, Tag(n, true)).(nodes := t.nodes + {c + n})
  }

  lemma ExtendNode(t: Tags, c: Addr, n: nat, x: Addr)
    requires Tiled(t) && c in t.nodes && NodeOk(t, c) && t.csize[c].size == 0
    requires c + n !in t.nodes && 0 < n
    requires x in t.nodes + {c + n}
    ensures NodeOk(Extend(t, c, n), x)
  {
    if x in t.nodes {
      assert NodeOk(t, x);
      if t.csize[x].size != 0 { assert NodeOk(t, x + t.csize[x].size); }
      if t.psize[x].size != 0 { assert NodeOk(t, x - t.psize[x].size); }
    }
  }

  lemma ExtendTiled(t: Tags, c: Addr, n: nat)
    requires Tiled(t) && Coalesced(t)
    requires c in t.nodes && NodeOk(t, c) && t.csize[c].size == 0 && 0 < n
    requires Fresh(t, c + OVERHEAD, c + n + OVERHEAD)
    ensures Tiled(Extend(t, c, n)) && Coalesced(Extend(t, c, n))
    ensures c + n !in t.nodes
  {
    var u := Extend(t, c, n);
    forall x {:trigger NodeOk(u, x)} | x in u.nodes ensures NodeOk(u, x) {
      ExtendNode(t, c, n, x);
    }
    forall x, y {:trigger Apart(u, x, y)} | x in u.nodes && y in u.nodes && x in u.csize ensures Apart(u, x, y) {
      if x in t.nodes { assert NodeOk(t, x); }
      if y in t.nodes { assert NodeOk(t, y); }
      if x in t.nodes && y in t.nodes { assert Apart(t, x, y); }
    }
  }

  // ----- bytes -----

  /** Byte b belongs to chunk c. */
  ghost predicate ByteOf(t: Tags, c: Addr, b: Addr) {
    c in t.nodes && c in t.csize && c <= b < c + t.csize[c].size
  }

  /** Byte b belongs to some chunk, free or in use. */
  ghost predicate InHeap(t: Tags, b: Addr) {
    exists c :: ByteOf(t, c, b)
  }

  /** No byte is lost and none is gained. */
  ghost predicate SameBytes(t: Tags, u: Tags) {
    forall b :: InHeap(t, b) <==> InHeap(u, b)
  }

  lemma BytesOnward(t: Tags, u: Tags, v: Tags)
    requires SameBytes(t, u) && SameBytes(u, v)
    ensures SameBytes(t, v)
  {
    forall b ensures InHeap(t, b) <==> InHeap(v, b) { assert InHeap(t, b) <==> InHeap(u, b); }
  }

  /** Chunks of the same places and sizes hold the same bytes. */
  lemma RetaggedBytes(t: Tags, u: Tags)
    requires u.nodes == t.nodes && u.csize.Keys == t.csize.Keys
    requires forall c :: c in t.csize ==> u.csize[c].size == t.csize[c].size
    ensures SameBytes(t, u)
  {
    forall b ensures InHeap(t, b) <==> InHeap(u, b) {
      forall c ensures ByteOf(t, c, b) <==> ByteOf(u, c, b) { }
    }
  }

  /** Between two chunks of a region every byte belongs to a chunk. */
  lemma {:induction false} ByteBetween(t: Tags, c: Addr, d: Addr, b: Addr)
    requires Tiled(t) && c in t.nodes && d in t.nodes && c <= b < d
    requires forall x :: x in t.nodes && c <= x < d ==> x in t.csize && 0 < t.csize[x].size
    ensures InHeap(t, b)
    decreases d - c
  {
    assert NodeOk(t, c) && Apart(t, c, d);
    var next := c + t.csize[c].size;
    if b < next {
      assert ByteOf(t, c, b);
    } else {
      ByteBetween(t, next, d, b);
    }
  }

  lemma AbsorbBytes(t: Tags, c: Addr, d: Addr, used: bool)
    requires Tiled(t) && c in t.nodes && d in t.nodes && c < d
    requires forall x :: x in t.nodes && c <= x < d ==> x in t.csize && 0 < t.csize[x].size
    ensures SameBytes(t, Absorb(t, c, d, used))
  {
    var u := Absorb(t, c, d, used);
    forall b ensures InHeap(t, b) <==> InHeap(u, b) {
      if c <= b < d {
        ByteBetween(t, c, d, b);
        assert ByteOf(u, c, b);
      } else {
        AbsorbElsewhere(t, c, d, used, b);
      }
    }
  }

  lemma AbsorbElsewhere(t: Tags, c: Addr, d: Addr, used: bool, b: Addr)
    requires Tiled(t) && c in t.nodes && d in t.nodes && c < d && !(c <= b < d)
    ensures InHeap(t, b) <==> InHeap(Absorb(t, c, d, used), b)
  {
    var u := Absorb(t, c, d, used);
    forall x ensures ByteOf(t, x, b) <==> ByteOf(u, x, b) {
      if x in t.nodes {
        assert NodeOk(t, x) && Apart(t, x, c) && Apart(t, x, d);
      }
    }
  }

  lemma CarveBytes(t: Tags, c: Addr, n: nat, used: bool, restUsed: bool)
    requires c in t.nodes && c in t.csize && 0 < n < t.csize[c].size && c + n !in t.nodes
    ensures SameBytes(t, Carve(t, c, n, used, restUsed))
  {
    var u := Carve(t, c, n, used, restUsed);
    forall b ensures InHeap(t, b) <==> InHeap(u, b) {
      forall x | x != c && x != c + n ensures ByteOf(t, x, b) <==> ByteOf(u, x, b) { }
      assert ByteOf(t, c, b) <==> ByteOf(u, c, b) || ByteOf(u, c + n, b);
    }
  }

  /** A new region adds exactly its bytes; so does the growth of the newest one. */
  lemma RegionBytes(t: Tags, c: Addr, n: nat, b: Addr)
    requires c !in t.nodes && c + n !in t.nodes && 0 < n
    ensures InHeap(AddRegion(t, c, n), b) <==> InHeap(t, b) || c <= b < c + n
  {
    var u := AddRegion(t, c, n);
    forall x | x != c ensures ByteOf(t, x, b) <==> ByteOf(u, x, b) { }
    assert ByteOf(u, c, b) <==> c <= b < c + n;
  }

  lemma ExtendBytes(t: Tags, c: Addr, n: nat, b: Addr)
    requires c in t.nodes && c in t.csize && t.csize[c].size == 0 && c + n !in t.nodes && 0 < n
    ensures InHeap(Extend(t, c, n), b) <==> InHeap(t, b) || c <= b < c + n
  {
    var u := Extend(t, c, n);
    forall x | x != c ensures ByteOf(t, x, b) <==> ByteOf(u, x, b) { }
    assert ByteOf(u, c, b) <==> c <= b < c + n;
  }
}
