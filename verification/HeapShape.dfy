/** The allocator's invariant on values: tags tile the heap, and the bins list exactly the
    free chunks. Each lemma below carries the invariant over one in-place rewrite. */
module HeapShape {
  import opened SizeClasses
  import opened BoundaryTags
  import opened FreeLists

  function FreeSet(t: Tags): set<Addr> {
    set c | c in t.nodes && c in t.csize && !t.csize[c].used
  }

  /** Chunks in use; the end sentinels of regions are not among them. */
  function HeldSet(t: Tags): set<Addr> {
    set c | c in t.nodes && c in t.csize && t.csize[c].used && 0 < t.csize[c].size
  }

  /** The given chunks have the same header in both layouts. */
  ghost predicate Same(t: Tags, u: Tags, chunks: set<Addr>) {
    forall c {:trigger t.csize[c]} {:trigger u.csize[c]} ::
      c in chunks ==> c in t.csize && c in u.csize && u.csize[c] == t.csize[c]
  }

  lemma SameRefl(t: Tags)
    ensures Same(t, t, HeldSet(t))
  {
  }

  /** Bin i lists, once each, exactly the free chunks whose size belongs in it. */
  ghost predicate BinOk(t: Tags, s: seq<Addr>, i: nat) {
    && Proper(s, BinChunk(i))
    && forall c :: c in s <==> c in FreeSet(t) && BinIndex(t.csize[c].size) == i
  }

  /** The bins' link fields, their contents and the bin map. */
  datatype Lists = Lists(next: Links, prev: Links, bins: seq<seq<Addr>>, binmap: set<nat>)

  ghost predicate Binned(t: Tags, l: Lists) {
    && |l.bins| == BIN_COUNT
    && (forall i {:trigger l.bins[i]} :: 0 <= i < BIN_COUNT ==> BinOk(t, l.bins[i], i))
    && (forall i: nat :: i in l.binmap <==> i < BIN_COUNT && l.bins[i] != [])
  }

  ghost predicate Linked(l: Lists) {
    && |l.bins| == BIN_COUNT
    && forall i {:trigger l.bins[i]} :: 0 <= i < BIN_COUNT ==> Ring(l.next, l.prev, l.bins[i], BinChunk(i))
  }

  ghost predicate Shaped(t: Tags) {
    Tiled(t) && Aligned(t) && Coalesced(t)
  }

  ghost predicate EndOk(t: Tags, end: Addr) {
    0 <= end && (end != 0 ==>
                   end - OVERHEAD in t.nodes && end - OVERHEAD in t.csize && t.csize[end - OVERHEAD].size == 0)
  }

  /** The invariant between any two steps of the allocator. */
  ghost predicate CoreOf(t: Tags, l: Lists, end: Addr) {
    Shaped(t) && Binned(t, l) && Linked(l) && EndOk(t, end)
  }

  // ----- bins as queues -----

  /** x stands before y. */
  ghost predicate Before(s: seq<Addr>, x: Addr, y: Addr) {
    exists p, q :: 0 <= p < q < |s| && s[p] == x && s[q] == y
  }

  /** The given chunks keep their order in every bin. */
  ghost predicate QueueKept(b: seq<seq<Addr>>, b': seq<seq<Addr>>, chunks: set<Addr>) {
    && |b| == |b'|
    && forall j, x, y :: 0 <= j < |b| && x in chunks && y in chunks && Before(b[j], x, y) ==> Before(b'[j], x, y)
  }

  lemma QueueOnward(a: seq<seq<Addr>>, b: seq<seq<Addr>>, c: seq<seq<Addr>>, wide: set<Addr>, chunks: set<Addr>)
    requires QueueKept(a, b, wide) && QueueKept(b, c, chunks) && chunks <= wide
    ensures QueueKept(a, c, chunks)
  {
  }

  lemma QueueRefl(b: seq<seq<Addr>>, chunks: set<Addr>)
    ensures QueueKept(b, b, chunks)
  {
  }

  lemma OneBinKept(b: seq<seq<Addr>>, i: nat, s: seq<Addr>, chunks: set<Addr>)
    requires i < |b| && forall x, y :: x in chunks && y in chunks && Before(b[i], x, y) ==> Before(s, x, y)
    ensures QueueKept(b, b[i := s], chunks)
  {
  }

  /** Taking out the member at p. */
  lemma TakenOut(b: seq<seq<Addr>>, i: nat, p: nat, chunks: set<Addr>)
    requires i < |b| && p < |b[i]| && b[i][p] !in chunks
    ensures QueueKept(b, b[i := b[i][..p] + b[i][p + 1..]], chunks)
  {
    var s, r := b[i], b[i][..p] + b[i][p + 1..];
    forall x, y | x in chunks && y in chunks && Before(s, x, y) ensures Before(r, x, y) {
      var k, l :| 0 <= k < l < |s| && s[k] == x && s[l] == y;
      var k', l' := if k < p then k else k - 1, if l < p then l else l - 1;
      assert r[k'] == x && r[l'] == y;
    }
    OneBinKept(b, i, r, chunks);
  }

  lemma PutLast(b: seq<seq<Addr>>, i: nat, c: Addr, chunks: set<Addr>)
    requires i < |b|
    ensures QueueKept(b, b[i := b[i] + [c]], chunks)
  {
    var s, r := b[i], b[i] + [c];
    forall x, y | Before(s, x, y) ensures Before(r, x, y) {
      var k, l :| 0 <= k < l < |s| && s[k] == x && s[l] == y;
      assert r[k] == x && r[l] == y;
    }
    OneBinKept(b, i, r, chunks);
  }

  lemma PutInstead(b: seq<seq<Addr>>, i: nat, p: nat, c: Addr, chunks: set<Addr>)
    requires i < |b| && p < |b[i]| && b[i][p] !in chunks
    ensures QueueKept(b, b[i := b[i][p := c]], chunks)
  {
    var s, r := b[i], b[i][p := c];
    forall x, y | x in chunks && y in chunks && Before(s, x, y) ensures Before(r, x, y) {
      var k, l :| 0 <= k < l < |s| && s[k] == x && s[l] == y;
      assert r[k] == x && r[l] == y;
    }
    OneBinKept(b, i, r, chunks);
  }

  // ----- bins and their links -----

  /** Rewriting one bin and the links of its members leaves the other bins linked. */
  lemma LinkedUpdate(l: Lists, next': Links, prev': Links, i: nat, s: seq<Addr>, binmap': set<nat>)
    requires Linked(l) && i < BIN_COUNT && Ring(next', prev', s, BinChunk(i))
    requires forall j, x :: 0 <= j < BIN_COUNT && j != i && (x in l.bins[j] || x == BinChunk(j)) ==>
                              && (x in l.next ==> x in next' && next'[x] == l.next[x])
                              && (x in l.prev ==> x in prev' && prev'[x] == l.prev[x])
    ensures Linked(Lists(next', prev', l.bins[i := s], binmap'))
  {
    forall j | 0 <= j < BIN_COUNT && j != i ensures Ring(next', prev', l.bins[j], BinChunk(j)) {
      RingFrame(l.next, l.prev, next', prev', l.bins[j], BinChunk(j));
    }
  }

  lemma LinkAtMember(next: Links, prev: Links, s: seq<Addr>, b: Addr, p: nat)
    requires Ring(next, prev, s, b) && p < |s|
    ensures s[p] in next && s[p] in prev
    ensures next[s[p]] in s || next[s[p]] == b
    ensures prev[s[p]] in s || prev[s[p]] == b
  {
    assert LinkAt(next, prev, s, b, p) && LinkAt(next, prev, s, b, p + 1);
  }

  /** Bins share no members. */
  lemma BinsDisjoint(t: Tags, l: Lists, i: nat)
    requires Binned(t, l) && Aligned(t) && i < BIN_COUNT
    ensures forall j, x :: 0 <= j < BIN_COUNT && j != i && (x in l.bins[j] || x == BinChunk(j)) ==>
                             x !in l.bins[i] && x != BinChunk(i)
  {
    assert BinOk(t, l.bins[i], i);
    forall j, x | 0 <= j < BIN_COUNT && j != i && (x in l.bins[j] || x == BinChunk(j))
      ensures x !in l.bins[i] && x != BinChunk(i)
    {
      assert BinOk(t, l.bins[j], j);
    }
  }

  lemma NotListed(t: Tags, l: Lists, c: Addr)
    requires Binned(t, l) && c !in FreeSet(t)
    ensures forall j :: 0 <= j < BIN_COUNT ==> c !in l.bins[j]
  {
    forall j | 0 <= j < BIN_COUNT ensures c !in l.bins[j] { assert BinOk(t, l.bins[j], j); }
  }

  /** Bins do not change when the free chunks and their sizes do not. */
  lemma BinnedSame(t: Tags, u: Tags, l: Lists)
    requires Binned(t, l) && FreeSet(u) == FreeSet(t) && Same(t, u, FreeSet(t))
    ensures Binned(u, l)
  {
    forall i | 0 <= i < BIN_COUNT ensures BinOk(u, l.bins[i], i) { assert BinOk(t, l.bins[i], i); }
  }

  function Unlink(l: Lists, i: nat, p: nat): Lists
    requires i < |l.bins| && p < |l.bins[i]| && l.bins[i][p] in l.next && l.bins[i][p] in l.prev
  {
    var s := l.bins[i];
    var c := s[p];
    Lists(l.next[l.prev[c] := l.next[c]], l.prev[l.next[c] := l.prev[c]], l.bins[i := s[..p] + s[p + 1..]],
          if l.prev[c] == l.next[c] then l.binmap - {i} else l.binmap)
  }

  lemma UnlinkLinked(t: Tags, l: Lists, i: nat, p: nat)
    requires Binned(t, l) && Linked(l) && Aligned(t) && i < BIN_COUNT && p < |l.bins[i]|
    ensures var c := l.bins[i][p];
            && c in l.next && c in l.prev && Linked(Unlink(l, i, p))
            && (l.prev[c] == l.next[c] <==> |l.bins[i]| == 1)
  {
    var s := l.bins[i];
    assert BinOk(t, s, i) && Ring(l.next, l.prev, s, BinChunk(i));
    LinkAtMember(l.next, l.prev, s, BinChunk(i), p);
    Unlinked(l.next, l.prev, s, BinChunk(i), p);
    BinsDisjoint(t, l, i);
    var k := Unlink(l, i, p);
    LinkedUpdate(l, k.next, k.prev, i, s[..p] + s[p + 1..], k.binmap);
  }

  /** Unlinking member p of bin i takes exactly that chunk out of the free chunks. */
  lemma UnlinkBinned(t: Tags, u: Tags, l: Lists, i: nat, p: nat)
    requires Binned(t, l) && Linked(l) && Aligned(t) && i < BIN_COUNT && p < |l.bins[i]|
    requires FreeSet(u) == FreeSet(t) - {l.bins[i][p]} && Same(t, u, FreeSet(u))
    ensures l.bins[i][p] in l.next && l.bins[i][p] in l.prev && Binned(u, Unlink(l, i, p))
  {
    UnlinkLinked(t, l, i, p);
    var s := l.bins[i];
    var r := s[..p] + s[p + 1..];
    assert BinOk(t, s, i);
    forall c ensures c in r <==> c in s && c != s[p] {
      if c in s && c != s[p] {
        var k :| 0 <= k < |s| && s[k] == c;
        assert r[if k < p then k else k - 1] == c;
      }
    }
    assert BinOk(u, r, i);
    forall j | 0 <= j < BIN_COUNT && j != i ensures BinOk(u, l.bins[j], j) {
      assert BinOk(t, l.bins[j], j) && s[p] in s;
    }
  }

  function Push(l: Lists, c: Addr, i: nat): Lists
    requires i < |l.bins| && BinChunk(i) in l.prev
  {
    var b := BinChunk(i);
    Lists(l.next[c := b][l.prev[b] := c], l.prev[c := l.prev[b]][b := c], l.bins[i := l.bins[i] + [c]], l.binmap + {i})
  }

  /** Linking a new free chunk at the tail of the bin for its size. */
  lemma PushBinned(t: Tags, u: Tags, l: Lists, c: Addr, i: nat)
    requires Binned(t, l) && Linked(l) && Aligned(t) && c !in FreeSet(t) && 0 < c
    requires FreeSet(u) == FreeSet(t) + {c} && Same(t, u, FreeSet(t)) && i == BinIndex(u.csize[c].size)
    ensures BinChunk(i) in l.prev && Linked(Push(l, c, i)) && Binned(u, Push(l, c, i))
  {
    var s, b := l.bins[i], BinChunk(i);
    assert BinOk(t, s, i) && Ring(l.next, l.prev, s, b);
    assert BinOk(u, s + [c], i);
    forall j | 0 <= j < BIN_COUNT && j != i ensures BinOk(u, l.bins[j], j) {
      assert BinOk(t, l.bins[j], j);
    }
    Appended(l.next, l.prev, s, b, c);
    assert LinkAt(l.next, l.prev, s, b, |s|);
    assert l.prev[b] == b || l.prev[b] in s;
    BinsDisjoint(t, l, i);
    NotListed(t, l, c);
    var k := Push(l, c, i);
    LinkedUpdate(l, k.next, k.prev, i, s + [c], k.binmap);
  }

  function Substitute(l: Lists, i: nat, p: nat, m: Addr): Lists
    requires i < |l.bins| && p < |l.bins[i]| && l.bins[i][p] in l.next && l.bins[i][p] in l.prev
  {
    var s := l.bins[i];
    var c := s[p];
    Lists(l.next[m := l.next[c]][l.prev[c] := m], l.prev[m := l.prev[c]][l.next[c] := m], l.bins[i := s[p := m]],
        l.binmap)
  }

  lemma SubstituteLinked(t: Tags, l: Lists, i: nat, p: nat, m: Addr)
    requires Binned(t, l) && Linked(l) && Aligned(t) && i < BIN_COUNT && p < |l.bins[i]| && m !in FreeSet(t) && 0 < m
    ensures l.bins[i][p] in l.next && l.bins[i][p] in l.prev && Linked(Substitute(l, i, p, m))
  {
    var s, b := l.bins[i], BinChunk(i);
    assert BinOk(t, s, i) && Ring(l.next, l.prev, s, b);
    LinkAtMember(l.next, l.prev, s, b, p);
    NotListed(t, l, m);
    Replaced(l.next, l.prev, s, b, p, m);
    BinsDisjoint(t, l, i);
    var k := Substitute(l, i, p, m);
    LinkedUpdate(l, k.next, k.prev, i, s[p := m], k.binmap);
  }

  /** Putting a new free chunk m in the place of member p of the bin where m belongs. */
  lemma SubstituteBinned(t: Tags, u: Tags, l: Lists, i: nat, p: nat, m: Addr)
    requires Binned(t, l) && Linked(l) && Aligned(t) && i < BIN_COUNT && p < |l.bins[i]| && m !in FreeSet(t) && 0 < m
    requires FreeSet(u) == FreeSet(t) - {l.bins[i][p]} + {m} && Same(t, u, FreeSet(t) - {l.bins[i][p]})
    requires BinIndex(u.csize[m].size) == i
    ensures l.bins[i][p] in l.next && l.bins[i][p] in l.prev && Binned(u, Substitute(l, i, p, m))
  {
    SubstituteLinked(t, l, i, p, m);
    var s := l.bins[i];
    var r := s[p := m];
    assert BinOk(t, s, i) && s[p] in s;
    forall c ensures c in r <==> c == m || (c in s && c != s[p]) {
      assert r[p] == m;
      if c in s && c != s[p] {
        var k :| 0 <= k < |s| && s[k] == c;
        assert r[k] == c;
      }
    }
    assert BinOk(u, r, i);
    forall j | 0 <= j < BIN_COUNT && j != i ensures BinOk(u, l.bins[j], j) {
      assert BinOk(t, l.bins[j], j);
    }
  }

  // ----- taking a free chunk -----

  function Retag(t: Tags, c: Addr, n: nat, used: bool): Tags {
    Tags(t.nodes, t.psize[c + n := Tag(n, used)], t.csize[c := Tag(n, used)])
  }

  /** u is t with the free chunk c marked used; the sizes of all chunks stay. */
  ghost predicate Took(t: Tags, u: Tags, c: Addr) {
    && c in FreeSet(t)
    && u == Retag(t, c, t.csize[c].size, true)
    && FreeSet(u) == FreeSet(t) - {c}
    && HeldSet(u) == HeldSet(t) + {c}
  }

  lemma TookBytes(t: Tags, u: Tags, c: Addr)
    requires Took(t, u, c)
    ensures SameBytes(t, u)
  {
    RetaggedBytes(t, u);
  }

  lemma TakeShaped(t: Tags, c: Addr)
    requires Shaped(t) && c in FreeSet(t)
    ensures NodeOk(t, c) && 0 < t.csize[c].size
    ensures Shaped(Retag(t, c, t.csize[c].size, true))
  {
    assert NodeOk(t, c);
    var d := c + t.csize[c].size;
    assert NodeOk(t, d);
    forall x | x in t.nodes ensures !(c < x < d) { assert Apart(t, c, x); }
    AbsorbTiled(t, c, d, true);
    AbsorbCoalesced(t, c, d, true);
    assert Absorb(t, c, d, true).nodes == t.nodes;
  }

  lemma UnbinCore(t: Tags, l: Lists, end: Addr, c: Addr, i: nat) returns (p: nat)
    requires CoreOf(t, l, end) && c in FreeSet(t) && i == BinIndex(t.csize[c].size)
    ensures p < |l.bins[i]| && l.bins[i][p] == c && c in l.next && c in l.prev
    ensures var u := Retag(t, c, t.csize[c].size, true);
            && CoreOf(u, Unlink(l, i, p), end) && Took(t, u, c)
            && QueueKept(l.bins, Unlink(l, i, p).bins, FreeSet(u))
  {
    hide BinIndex, QueueKept;
    var s := l.bins[i];
    assert BinOk(t, s, i) && c in s;
    p :| 0 <= p < |s| && s[p] == c;
    TakeShaped(t, c);
    var u := Retag(t, c, t.csize[c].size, true);
    assert FreeSet(u) == FreeSet(t) - {c} && HeldSet(u) == HeldSet(t) + {c};
    UnlinkLinked(t, l, i, p);
    UnlinkBinned(t, u, l, i, p);
    TakenOut(l.bins, i, p, FreeSet(u));
  }

  /** The free chunk before c, when its footer says it is free. */
  lemma PrevFree(t: Tags, c: Addr)
    requires Shaped(t) && c in t.nodes
    ensures NodeOk(t, c)
    ensures !t.psize[c].used ==>
              var b := c - t.psize[c].size;
              b < c && b in FreeSet(t) && t.csize[b].size == t.psize[c].size
  {
    assert NodeOk(t, c);
  }

  lemma NextFree(t: Tags, c: Addr)
    requires Shaped(t) && c in t.nodes
    ensures NodeOk(t, c)
    ensures !t.csize[c].used ==> c in FreeSet(t) && 0 < t.csize[c].size && c + t.csize[c].size in t.nodes
  {
    assert NodeOk(t, c);
  }

  // ----- stretches of used chunks -----

  /** Every chunk from lo up to hi is in use, and t agrees with the earlier layout t0 on the
      chunks in use elsewhere, which are held. */
  ghost predicate Stretch(t: Tags, lo: Addr, hi: Addr, t0: Tags, held: set<Addr>) {
    && lo in t.nodes && hi in t.nodes && lo < hi
    && (forall x :: x in t.nodes && lo <= x < hi ==> x in HeldSet(t))
    && (forall x :: x in held <==> x in HeldSet(t) && !(lo <= x < hi))
    && Same(t0, t, held) && SameBytes(t0, t)
  }

  lemma CoreShaped(t: Tags, l: Lists, end: Addr)
    requires CoreOf(t, l, end)
    ensures Shaped(t)
  {
  }

  lemma StretchStart(t: Tags, c: Addr)
    requires Shaped(t) && c in HeldSet(t)
    ensures NodeOk(t, c) && Stretch(t, c, c + t.csize[c].size, t, HeldSet(t) - {c})
  {
    assert NodeOk(t, c);
    forall x | x in t.nodes ensures !(c < x < c + t.csize[c].size) { assert Apart(t, c, x); }
    RetaggedBytes(t, t);
  }

  lemma StretchEnds(t: Tags, lo: Addr, hi: Addr, t0: Tags, held: set<Addr>)
    requires Shaped(t) && Stretch(t, lo, hi, t0, held)
    ensures NodeOk(t, lo) && NodeOk(t, hi)
  {
  }

  /** Taking a neighbouring free chunk widens a stretch of used chunks. */
  lemma Widen(t: Tags, u: Tags, c: Addr, lo: Addr, hi: Addr, t0: Tags, held: set<Addr>)
    requires Shaped(t) && Took(t, u, c) && Stretch(t, lo, hi, t0, held)
    requires c + t.csize[c].size == lo || c == hi
    ensures c == hi ==> Stretch(u, lo, hi + t.csize[c].size, t0, held)
    ensures c != hi ==> Stretch(u, c, hi, t0, held)
  {
    hide SameBytes;
    assert NodeOk(t, c);
    forall x | x in t.nodes ensures !(c < x < c + t.csize[c].size) { assert Apart(t, c, x); }
    TookBytes(t, u, c);
    BytesOnward(t0, t, u);
  }

  lemma AbsorbShaped(t: Tags, c: Addr, d: Addr, used: bool)
    requires Shaped(t) && c in t.nodes && d in t.nodes && c < d
    requires NodeOk(t, c) && NodeOk(t, d) && (used || (t.psize[c].used && t.csize[d].used))
    ensures Shaped(Absorb(t, c, d, used))
  {
    AbsorbTiled(t, c, d, used);
    AbsorbCoalesced(t, c, d, used);
  }

  /** A stretch of used chunks hides no free chunk and no region end. */
  lemma AbsorbSets(t: Tags, c: Addr, d: Addr, used: bool, end: Addr, t0: Tags, held: set<Addr>)
    requires Stretch(t, c, d, t0, held) && EndOk(t, end)
    ensures var u := Absorb(t, c, d, used);
            && FreeSet(u) == (if used then FreeSet(t) else FreeSet(t) + {c})
            && HeldSet(u) == (if used then held + {c} else held)
            && Same(t, u, FreeSet(t)) && Same(t0, u, held) && EndOk(u, end)
            && c in u.csize && u.csize[c].size == d - c
  {
    hide SameBytes;
    var u := Absorb(t, c, d, used);
    forall x ensures x in HeldSet(u) <==> x in held || (used && x == c) {
      assert x in held <==> x in HeldSet(t) && !(c <= x < d);
    }
    assert Same(t, u, FreeSet(t));
    assert Same(t0, u, held);
  }

  lemma StretchBytes(t: Tags, c: Addr, d: Addr, used: bool, t0: Tags, held: set<Addr>)
    requires Shaped(t) && Stretch(t, c, d, t0, held)
    ensures SameBytes(t0, Absorb(t, c, d, used))
  {
    hide SameBytes, Absorb;
    AbsorbBytes(t, c, d, used);
    BytesOnward(t0, t, Absorb(t, c, d, used));
  }

  /** Marking a stretch of used chunks as one free chunk and binning it. */
  lemma FreeCore(t: Tags, l: Lists, end: Addr, c: Addr, d: Addr, t0: Tags, held: set<Addr>)
    requires CoreOf(t, l, end) && Stretch(t, c, d, t0, held)
    requires NodeOk(t, c) && NodeOk(t, d) && t.psize[c].used && t.csize[d].used
    ensures |l.bins| == BIN_COUNT && BinChunk(BinIndex(d - c)) in l.prev
    ensures var u := Absorb(t, c, d, false);
            && CoreOf(u, Push(l, c, BinIndex(d - c)), end)
            && FreeSet(u) == FreeSet(t) + {c} && HeldSet(u) == held && Same(t0, u, held) && SameBytes(t0, u)
            && c !in FreeSet(t) && c in u.csize && u.csize[c].size == d - c
            && QueueKept(l.bins, Push(l, c, BinIndex(d - c)).bins, FreeSet(t))
  {
    hide BinIndex, Absorb, SameBytes, QueueKept;
    AbsorbShaped(t, c, d, false);
    StretchBytes(t, c, d, false, t0, held);
    AbsorbSets(t, c, d, false, end, t0, held);
    assert c in HeldSet(t) && 0 < c;
    PushBinned(t, Absorb(t, c, d, false), l, c, BinIndex(d - c));
    PutLast(l.bins, BinIndex(d - c), c, FreeSet(t));
  }

  /** Tagging a stretch of used chunks as one used chunk. */
  lemma JoinCore(t: Tags, l: Lists, end: Addr, c: Addr, d: Addr, t0: Tags, held: set<Addr>)
    requires CoreOf(t, l, end) && Stretch(t, c, d, t0, held) && NodeOk(t, c) && NodeOk(t, d)
    ensures var u := Absorb(t, c, d, true);
            && CoreOf(u, l, end) && FreeSet(u) == FreeSet(t)
            && HeldSet(u) == held + {c} && Same(t0, u, held) && SameBytes(t0, u)
  {
    hide BinIndex, SameBytes;
    AbsorbShaped(t, c, d, true);
    StretchBytes(t, c, d, true, t0, held);
    AbsorbSets(t, c, d, true, end, t0, held);
    BinnedSame(t, Absorb(t, c, d, true), l);
  }

  // ----- splitting -----

  lemma CarveShaped(t: Tags, c: Addr, n: nat, restUsed: bool)
    requires Shaped(t) && c in t.nodes && NodeOk(t, c) && restUsed == t.csize[c].used
    requires 0 < n < t.csize[c].size && n % SIZE_ALIGN == 0
    ensures c + n !in t.nodes && Shaped(Carve(t, c, n, true, restUsed))
  {
    CarveTiled(t, c, n, true, restUsed);
    CarveCoalesced(t, c, n, true, restUsed);
  }

  lemma CarveSets(t: Tags, c: Addr, n: nat, restUsed: bool, end: Addr)
    requires c in t.nodes && c in t.csize && 0 < n < t.csize[c].size && c + n !in t.nodes
    requires EndOk(t, end) && restUsed == t.csize[c].used
    ensures var u := Carve(t, c, n, true, restUsed);
            && HeldSet(u) == HeldSet(t) + {c} + (if restUsed then {c + n} else {})
            && FreeSet(u) == (if restUsed then FreeSet(t) else FreeSet(t) - {c} + {c + n})
            && Same(t, u, t.nodes * t.csize.Keys - {c}) && EndOk(u, end)
  {
  }

  /** Splitting a chunk in use into two chunks in use. */
  lemma SplitCore(t: Tags, l: Lists, end: Addr, c: Addr, n: nat)
    requires CoreOf(t, l, end) && c in HeldSet(t) && 0 < n < t.csize[c].size && n % SIZE_ALIGN == 0
    ensures c + n !in t.nodes
    ensures var u := Carve(t, c, n, true, true);
            && CoreOf(u, l, end) && FreeSet(u) == FreeSet(t)
            && HeldSet(u) == HeldSet(t) + {c + n} && Same(t, u, HeldSet(t) - {c}) && SameBytes(t, u)
  {
    hide BinIndex, SameBytes;
    assert NodeOk(t, c);
    CarveShaped(t, c, n, true);
    CarveSets(t, c, n, true, end);
    CarveBytes(t, c, n, true, true);
    BinnedSame(t, Carve(t, c, n, true, true), l);
  }

  lemma PretrimSets(t: Tags, c: Addr, n: nat, end: Addr)
    requires Shaped(t) && EndOk(t, end) && c in FreeSet(t) && 0 < n < t.csize[c].size && n % SIZE_ALIGN == 0
    ensures c + n !in t.nodes && 0 < c
    ensures var u := Carve(t, c, n, true, false);
            && Shaped(u) && EndOk(u, end)
            && FreeSet(u) == FreeSet(t) - {c} + {c + n} && Same(t, u, FreeSet(t) - {c})
            && c + n in u.csize && u.csize[c + n].size == t.csize[c].size - n
            && HeldSet(u) == HeldSet(t) + {c} && Same(t, u, HeldSet(t)) && SameBytes(t, u)
  {
    hide SameBytes;
    assert NodeOk(t, c);
    CarveShaped(t, c, n, false);
    CarveSets(t, c, n, false, end);
    CarveBytes(t, c, n, true, false);
  }

  /** Splitting a free chunk in its bin: the front is taken, the rest keeps its place. */
  lemma PretrimCore(t: Tags, l: Lists, end: Addr, j: nat, p: nat, n: nat)
    requires CoreOf(t, l, end) && j < BIN_COUNT && p < |l.bins[j]| && 0 < n && n % SIZE_ALIGN == 0
    requires l.bins[j][p] in FreeSet(t)
    requires var n1 := t.csize[l.bins[j][p]].size; n < n1 && BinIndex(n1 - n) == j
    ensures var c := l.bins[j][p];
            && c in l.next && c in l.prev && c + n !in t.nodes
            && (var u := Carve(t, c, n, true, false);
                && CoreOf(u, Substitute(l, j, p, c + n), end)
                && HeldSet(u) == HeldSet(t) + {c} && Same(t, u, HeldSet(t)) && SameBytes(t, u)
                && FreeSet(u) == FreeSet(t) - {c} + {c + n}
                && QueueKept(l.bins, Substitute(l, j, p, c + n).bins, FreeSet(u)))
  {
    hide BinIndex, Carve, SameBytes, QueueKept;
    var c := l.bins[j][p];
    PretrimSets(t, c, n, end);
    SubstituteLinked(t, l, j, p, c + n);
    SubstituteBinned(t, Carve(t, c, n, true, false), l, j, p, c + n);
    PutInstead(l.bins, j, p, c + n, FreeSet(Carve(t, c, n, true, false)));
  }

  // ----- growing the heap -----

  lemma AddRegionSets(t: Tags, c: Addr, n: nat)
    requires 0 < n && c !in t.nodes && c + n !in t.nodes
    ensures var u := AddRegion(t, c, n);
            HeldSet(u) == HeldSet(t) + {c} && FreeSet(u) == FreeSet(t) && Same(t, u, t.nodes * t.csize.Keys)
  {
  }

  lemma RegionShaped(t: Tags, c: Addr, n: nat)
    requires Shaped(t) && 0 < c && OnGrid(c) && 0 < n && n % SIZE_ALIGN == 0 && Fresh(t, c, c + n + OVERHEAD)
    ensures c !in t.nodes && c + n !in t.nodes && Shaped(AddRegion(t, c, n))
  {
    hide OnGrid, Tiled, Coalesced, Fresh;
    AddRegionTiled(t, c, n);
    GridShift(c, n);
  }

  lemma RegionEnd(t: Tags, c: Addr, n: nat)
    requires 0 < c
    ensures EndOk(AddRegion(t, c, n), c + n + OVERHEAD) || n == 0
  {
  }

  lemma RegionCore(t: Tags, l: Lists, end: Addr, c: Addr, n: nat)
    requires CoreOf(t, l, end)
    requires 0 < c && OnGrid(c) && 0 < n && n % SIZE_ALIGN == 0 && Fresh(t, c, c + n + OVERHEAD)
    ensures c !in HeldSet(t)
    ensures var u := AddRegion(t, c, n);
            && CoreOf(u, l, c + n + OVERHEAD) && FreeSet(u) == FreeSet(t)
            && HeldSet(u) == HeldSet(t) + {c} && Same(t, u, HeldSet(t))
            && forall b :: InHeap(u, b) <==> InHeap(t, b) || c <= b < c + n
  {
    hide BinIndex, Shaped, AddRegion, Fresh, OnGrid, EndOk, InHeap;
    RegionShaped(t, c, n);
    AddRegionSets(t, c, n);
    RegionEnd(t, c, n);
    BinnedSame(t, AddRegion(t, c, n), l);
    forall b ensures InHeap(AddRegion(t, c, n), b) <==> InHeap(t, b) || c <= b < c + n { RegionBytes(t, c, n, b); }
  }

  lemma ExtendSets(t: Tags, c: Addr, n: nat)
    requires 0 < n && c in t.nodes && c in t.csize && t.csize[c].size == 0 && t.csize[c].used && c + n !in t.nodes
    ensures var u := Extend(t, c, n);
            HeldSet(u) == HeldSet(t) + {c} && FreeSet(u) == FreeSet(t) && Same(t, u, t.nodes * t.csize.Keys - {c})
  {
  }

  lemma ExtendShaped(t: Tags, end: Addr, n: nat)
    requires Shaped(t) && EndOk(t, end) && end != 0
    requires 0 < n && n % SIZE_ALIGN == 0 && Fresh(t, end, end + n)
    ensures var c := end - OVERHEAD;
            && c in t.nodes && c in t.csize && t.csize[c] == Tag(0, true) && c + n !in t.nodes
            && Shaped(Extend(t, c, n))
  {
    var c := end - OVERHEAD;
    assert NodeOk(t, c);
    hide OnGrid, Tiled, Coalesced, Fresh;
    ExtendTiled(t, c, n);
    GridShift(c, n);
  }

  lemma ExtendEnd(t: Tags, end: Addr, n: nat)
    requires EndOk(t, end) && end != 0 && 0 < n
    ensures EndOk(Extend(t, end - OVERHEAD, n), end + n)
  {
  }

  lemma ExtendCore(t: Tags, l: Lists, end: Addr, n: nat)
    requires CoreOf(t, l, end) && end != 0 && 0 < n && n % SIZE_ALIGN == 0 && Fresh(t, end, end + n)
    ensures end - OVERHEAD !in HeldSet(t)
    ensures var u := Extend(t, end - OVERHEAD, n);
            && CoreOf(u, l, end + n) && FreeSet(u) == FreeSet(t)
            && HeldSet(u) == HeldSet(t) + {end - OVERHEAD} && Same(t, u, HeldSet(t))
            && forall b :: InHeap(u, b) <==> InHeap(t, b) || end - OVERHEAD <= b < end - OVERHEAD + n
  {
    hide BinIndex, Shaped, Extend, Fresh, EndOk, InHeap;
    ExtendShaped(t, end, n);
    ExtendSets(t, end - OVERHEAD, n);
    ExtendEnd(t, end, n);
    BinnedSame(t, Extend(t, end - OVERHEAD, n), l);
    forall b ensures InHeap(Extend(t, end - OVERHEAD, n), b) <==>
                     InHeap(t, b) || end - OVERHEAD <= b < end - OVERHEAD + n {
      ExtendBytes(t, end - OVERHEAD, n, b);
    }
  }
}
