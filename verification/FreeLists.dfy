/** The allocator's bins: circular doubly linked lists threaded through the next and prev
    fields of the free chunks, each closed by the pseudo-chunk of its bin. */
module FreeLists {
  import opened BoundaryTags
  import opened Collections

  /** The pseudo-chunk of bin i: its next field is the bin's head, its prev field the tail. */
  function BinChunk(i: nat): Addr {
    -1 - i
  }

  type Links = map<Addr, Addr>

  /** Position k on the ring: the members are at 1..|s|, the pseudo-chunk at both ends. */
  function At(s: seq<Addr>, b: Addr, k: int): Addr {
    if 1 <= k <= |s| then s[k - 1] else b
  }

  ghost predicate LinkAt(next: Links, prev: Links, s: seq<Addr>, b: Addr, k: int) {
    var x, y := At(s, b, k), At(s, b, k + 1);
    x in next && y in prev && next[x] == y && prev[y] == x
  }

  /** The two link fields spell the sequence s forwards and backwards. */
  ghost predicate Ring(next: Links, prev: Links, s: seq<Addr>, b: Addr) {
    forall k {:trigger LinkAt(next, prev, s, b, k)} :: 0 <= k <= |s| ==> LinkAt(next, prev, s, b, k)
  }

  /** The chunks of a list differ from each other and from its head. */
  ghost predicate Proper(s: seq<Addr>, b: Addr) {
    Distinct(s) && b !in s
  }

  lemma RingFrame(next: Links, prev: Links, next': Links, prev': Links, s: seq<Addr>, b: Addr)
    requires Ring(next, prev, s, b)
    requires forall x :: x in s || x == b ==>
                           && (x in next ==> x in next' && next'[x] == next[x])
                           && (x in prev ==> x in prev' && prev'[x] == prev[x])
    ensures Ring(next', prev', s, b)
  {
    forall k {:trigger LinkAt(next', prev', s, b, k)} | 0 <= k <= |s| ensures LinkAt(next', prev', s, b, k) {
      assert LinkAt(next, prev, s, b, k);
    }
  }

  /** Unlinking a member drops exactly that member. */
  lemma Unlinked(next: Links, prev: Links, s: seq<Addr>, b: Addr, p: nat)
    requires Ring(next, prev, s, b) && Proper(s, b) && p < |s|
    ensures s[p] in next && s[p] in prev
    ensures (prev[s[p]] == next[s[p]]) <==> |s| == 1
    ensures var c := s[p];
            Ring(next[prev[c] := next[c]], prev[next[c] := prev[c]], s[..p] + s[p + 1..], b)
  {
    var c, t := s[p], s[..p] + s[p + 1..];
    assert LinkAt(next, prev, s, b, p) && LinkAt(next, prev, s, b, p + 1);
    assert prev[c] == At(s, b, p) && next[c] == At(s, b, p + 2);
    assert p == 0 && |s| == 2 ==> s[0] != s[1];
    var next', prev' := next[prev[c] := next[c]], prev[next[c] := prev[c]];
    forall k {:trigger LinkAt(next', prev', t, b, k)} | 0 <= k <= |t| ensures LinkAt(next', prev', t, b, k) {
      assert LinkAt(next, prev, s, b, if k < p then k else k + 1);
      assert At(t, b, k) == At(s, b, if k <= p then k else k + 1);
      assert At(t, b, k + 1) == At(s, b, if k + 1 <= p then k + 1 else k + 2);
    }
  }

  /** Linking a new chunk before the pseudo-chunk appends it. */
  lemma Appended(next: Links, prev: Links, s: seq<Addr>, b: Addr, c: Addr)
    requires Ring(next, prev, s, b) && Proper(s + [c], b)
    ensures b in prev
    ensures Ring(next[c := b][prev[b] := c], prev[c := prev[b]][b := c], s + [c], b)
  {
    var t := s + [c];
    assert LinkAt(next, prev, s, b, |s|);
    assert prev[b] == At(s, b, |s|);
    assert |s| > 0 ==> t[|s| - 1] != t[|s|];
    var next', prev' := next[c := b][prev[b] := c], prev[c := prev[b]][b := c];
    forall k {:trigger LinkAt(next', prev', t, b, k)} | 0 <= k <= |t| ensures LinkAt(next', prev', t, b, k) {
      if k < |s| {
        assert LinkAt(next, prev, s, b, k);
      }
    }
  }

  /** Copying a member's links into another chunk puts that chunk in the member's place. */
  lemma Replaced(next: Links, prev: Links, s: seq<Addr>, b: Addr, p: nat, m: Addr)
    requires Ring(next, prev, s, b) && Proper(s, b) && p < |s| && m !in s && m != b
    ensures s[p] in next && s[p] in prev
    ensures var c := s[p];
            Ring(next[m := next[c]][prev[c] := m], prev[m := prev[c]][next[c] := m], s[p := m], b)
  {
    var c, t := s[p], s[p := m];
    assert LinkAt(next, prev, s, b, p) && LinkAt(next, prev, s, b, p + 1);
    assert prev[c] == At(s, b, p) && next[c] == At(s, b, p + 2);
    var next', prev' := next[m := next[c]][prev[c] := m], prev[m := prev[c]][next[c] := m];
    forall k {:trigger LinkAt(next', prev', t, b, k)} | 0 <= k <= |t| ensures LinkAt(next', prev', t, b, k) {
      assert LinkAt(next, prev, s, b, k);
    }
  }
}
