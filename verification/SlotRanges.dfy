/** The node configuration file: the slots of a node are written as ranges and read back. */
module SlotRanges {
  import opened ClusterTypes
  import opened Collections
  import opened SlotBitmap
  import opened ClusterSlots

  datatype Range = Range(start: nat, stop: nat)

  // ----- ranges as text -----

  function Decimal(n: nat): string {
    if n < 10 then [Digit(n)] else Decimal(n / 10) + [Digit(n % 10)]
  }

  function Digit(d: nat): char
    requires d < 10
  {
    '0' + d as char
  }

  predicate IsDigit(c: char) {
    '0' <= c <= '9'
  }

  /** atoi of a text without sign: the value of its leading digits. */
  function Atoi(s: string, acc: nat := 0): nat {
    if s == [] || !IsDigit(s[0]) then acc else Atoi(s[1..], 10 * acc + (s[0] - '0') as nat)
  }

  function Show(r: Range): string {
    if r.start == r.stop then Decimal(r.start) else Decimal(r.start) + "-" + Decimal(r.stop)
  }

  /** The position of the first dash, or the length. */
  function Dash(s: string): (i: nat)
    ensures i <= |s|
  {
    if s == [] || s[0] == '-' then 0 else 1 + Dash(s[1..])
  }

  function Read(s: string): Range {
    var i := Dash(s);
    if i < |s| then Range(Atoi(s[..i]), Atoi(s[i + 1..])) else Range(Atoi(s), Atoi(s))
  }

  lemma {:induction false} AtoiAppend(s: string, c: char, acc: nat)
    requires (forall k :: 0 <= k < |s| ==> IsDigit(s[k])) && IsDigit(c)
    ensures Atoi(s + [c], acc) == 10 * Atoi(s, acc) + (c - '0') as nat
  {
    if s != [] {
      assert (s + [c])[1..] == s[1..] + [c];
      AtoiAppend(s[1..], c, 10 * acc + (s[0] - '0') as nat);
    }
  }

  lemma {:induction false} DecimalDigits(n: nat)
    ensures Decimal(n) != [] && forall k :: 0 <= k < |Decimal(n)| ==> IsDigit(Decimal(n)[k])
  {
    if 10 <= n { DecimalDigits(n / 10); }
  }

  lemma {:induction false} AtoiDecimal(n: nat)
    ensures Atoi(Decimal(n)) == n
  {
    if 10 <= n {
      AtoiDecimal(n / 10);
      DecimalDigits(n / 10);
      AtoiAppend(Decimal(n / 10), Digit(n % 10), 0);
    }
  }

  lemma {:induction false} DashAfter(s: string, t: string)
    requires forall k :: 0 <= k < |s| ==> s[k] != '-'
    ensures Dash(s + "-" + t) == |s| && Dash(s) == |s|
  {
    if s != [] {
      assert (s + "-" + t)[1..] == s[1..] + "-" + t;
      DashAfter(s[1..], t);
    }
  }

  /** A range reads back as it was written. */
  lemma ReadShow(r: Range)
    ensures Read(Show(r)) == r
  {
    var a, b := Decimal(r.start), Decimal(r.stop);
    DecimalDigits(r.start);
    AtoiDecimal(r.start);
    AtoiDecimal(r.stop);
    DashAfter(a, b);
    if r.start != r.stop {
      var s := a + "-" + b;
      assert s[..|a|] == a && s[|a| + 1..] == b;
    }
  }

  /** atoi stops at the first character that is no digit. */
  lemma {:induction false} AtoiStops(s: string, rest: string, acc: nat)
    requires AllDigits(s) && (rest == [] || !IsDigit(rest[0]))
    ensures Atoi(s + rest, acc) == Atoi(s, acc)
  {
    if s == [] {
      assert s + rest == rest;
    } else {
      assert (s + rest)[1..] == s[1..] + rest;
      AtoiStops(s[1..], rest, 10 * acc + (s[0] - '0') as nat);
    }
  }

  /** What a token of the file says, whatever it holds: a text without a dash is a single slot, and the first dash
      parts the start from the stop; each is the number its text begins with. */
  lemma ReadAs(a: string, b: string, rest: string, dash: bool)
    requires AllDigits(a) && AllDigits(b) && (rest == [] || !IsDigit(rest[0])) && (dash || '-' !in rest)
    ensures Read(if dash then a + "-" + b + rest else a + rest) == Range(Atoi(a), if dash then Atoi(b) else Atoi(a))
  {
    if dash {
      var s := a + "-" + (b + rest);
      DashAfter(a, b + rest);
      assert a + "-" + b + rest == s && s[..|a|] == a && s[|a| + 1..] == b + rest;
      AtoiStops(b, rest, 0);
    } else {
      assert forall k :: 0 <= k < |a + rest| ==> (a + rest)[k] != '-';
      DashAfter(a + rest, "");
      AtoiStops(a, rest, 0);
    }
  }

  lemma {:induction false} NoLeadingZero(n: nat)
    ensures Decimal(n) != [] && (Decimal(n)[0] == '0' <==> n == 0)
  {
    if 10 <= n { NoLeadingZero(n / 10); }
  }

  /** How a range is written: a single slot as its number, more as two numbers with a dash between them, and no
      number with a leading zero. */
  lemma ShownAs(r: Range)
    ensures '-' in Show(r) <==> r.start != r.stop
    ensures Show(r) != [] && (Show(r)[0] == '0' <==> r.start == 0)
    ensures r.start != r.stop ==> exists a: string, b: string :: Pair(Show(r), a, b, r)
  {
    var a, b := Decimal(r.start), Decimal(r.stop);
    DecimalDigits(r.start);
    DecimalDigits(r.stop);
    NoLeadingZero(r.start);
    NoLeadingZero(r.stop);
    AtoiDecimal(r.start);
    AtoiDecimal(r.stop);
    assert '-' !in a && AllDigits(a) && AllDigits(b);
    if r.start != r.stop {
      assert Pair(Show(r), a, b, r) && Show(r)[|a|] == '-';
    }
  }

  ghost predicate Pair(s: string, a: string, b: string, r: Range) {
    && s == a + "-" + b && AllDigits(a) && AllDigits(b) && Atoi(a) == r.start && Atoi(b) == r.stop
    && b != [] && (b[0] == '0' <==> r.stop == 0)
  }

  ghost predicate AllDigits(s: string) {
    forall k :: 0 <= k < |s| ==> IsDigit(s[k])
  }

  // ----- ranges of a node -----

  ghost predicate InRange(r: Range, j: nat) {
    r.start <= j <= r.stop
  }

  ghost predicate InRanges(rs: seq<Range>, j: nat) {
    exists k :: 0 <= k < |rs| && InRange(rs[k], j)
  }

  /** A maximal run of owned slots. */
  ghost predicate Maximal(r: Range, owns: seq<bool>) {
    && r.start <= r.stop < |owns|
    && (forall j :: r.start <= j <= r.stop ==> owns[j])
    && (r.start == 0 || !owns[r.start - 1])
    && (r.stop + 1 == |owns| || !owns[r.stop + 1])
  }

  /** Ascending, disjoint, maximal ranges below position p that cover every owned slot below p. */
  ghost predicate DescribesUpTo(rs: seq<Range>, owns: seq<bool>, p: nat) {
    && (forall k :: 0 <= k < |rs| ==> Maximal(rs[k], owns) && rs[k].stop < p)
    && (forall k, l :: 0 <= k < l < |rs| ==> rs[k].stop + 1 < rs[l].start)
    && (forall j: nat :: j < |owns| && j < p && owns[j] ==> InRanges(rs, j))
  }

  ghost predicate Describes(rs: seq<Range>, owns: seq<bool>) {
    DescribesUpTo(rs, owns, |owns|)
  }

  /** The range printer, with its index moved past the end when the last slot closes a range. */
  method PrintRanges(owns: seq<bool>) returns (rs: seq<Range>)
    ensures Describes(rs, owns)
  {
    rs := [];
    var start: int := -1;
    var j := 0;
    while j < |owns|
      invariant 0 <= j <= |owns| + 1
      invariant start == -1 || (0 <= start < j < |owns| && (start == 0 || !owns[start - 1]) &&
                forall k :: start <= k < j ==> owns[k])
      invariant DescribesUpTo(rs, owns, if start == -1 then j else start)
      invariant start == -1 && 0 < j < |owns| ==> !owns[j - 1]
    {
      var bit := owns[j];
      ghost var p := if start == -1 then j else start;
      if bit {
        if start == -1 {
          start := j;
        }
      }
      if start != -1 && (!bit || j == |owns| - 1) {
        if bit && j == |owns| - 1 {
          j := j + 1;
        }
        ghost var before := rs;
        rs := rs + [Range(start, j - 1)];
        CloseRange(before, owns, p, start, j);
        start := -1;
      }
      j := j + 1;
    }
    assert DescribesUpTo(rs, owns, |owns|);
  }

  lemma CloseRange(rs: seq<Range>, owns: seq<bool>, p: nat, start: nat, j: nat)
    requires DescribesUpTo(rs, owns, p) && p == start < j <= |owns|
    requires (start == 0 || !owns[start - 1]) && (forall k :: start <= k < j ==> owns[k]) && (j == |owns| || !owns[j])
    ensures DescribesUpTo(rs + [Range(start, j - 1)], owns, j)
    ensures DescribesUpTo(rs + [Range(start, j - 1)], owns, j + 1)
  {
    var r := Range(start, j - 1);
    var rs' := rs + [r];
    forall k | 0 <= k < |rs| ensures rs[k].stop + 1 < start {
      assert Maximal(rs[k], owns) && rs[k].stop < p;
    }
    forall i: nat | i < |owns| && i < j && owns[i] ensures InRanges(rs', i) {
      if i < p {
        var k :| 0 <= k < |rs| && InRange(rs[k], i);
        assert InRange(rs'[k], i);
      } else {
        assert InRange(rs'[|rs|], i);
      }
    }
  }

  /** A range found again in the other list stands past the common prefix. */
  lemma PastPrefix(rs: seq<Range>, qs: seq<Range>, owns: seq<bool>, k: nat) returns (l: nat)
    requires Describes(rs, owns) && Describes(qs, owns) && k < |rs| && k <= |qs| && rs[..k] == qs[..k]
    ensures k <= l < |qs| && qs[l] == rs[k]
  {
    l := SameRangeIn(rs, qs, owns, k);
    assert forall i :: 0 <= i < k ==> rs[..k][i] == qs[..k][i] == rs[i] == qs[i];
    assert k <= l;
  }

  lemma NextRangeSame(rs: seq<Range>, qs: seq<Range>, owns: seq<bool>, k: nat)
    requires Describes(rs, owns) && Describes(qs, owns) && k < |rs| && k <= |qs| && rs[..k] == qs[..k]
    ensures k < |qs| && rs[k] == qs[k]
  {
    var l := PastPrefix(rs, qs, owns, k);
    var m := PastPrefix(qs, rs, owns, k);
    assert rs[k].start <= rs[m].start && qs[k].start <= qs[l].start;
    assert k == l;
  }

  /** The printed ranges are the only list of ascending disjoint maximal ranges for these slots. */
  lemma {:induction false} DescriptionUnique(rs: seq<Range>, qs: seq<Range>, owns: seq<bool>, k: nat)
    requires Describes(rs, owns) && Describes(qs, owns) && k <= |rs|
    ensures k <= |qs| && rs[..k] == qs[..k]
  {
    if k != 0 {
      hide Describes;
      DescriptionUnique(rs, qs, owns, k - 1);
      NextRangeSame(rs, qs, owns, k - 1);
      assert rs[..k] == rs[..k - 1] + [rs[k - 1]] && qs[..k] == qs[..k - 1] + [qs[k - 1]];
    }
  }

  /** Each range of one description is a range of the other. */
  lemma SameRangeIn(rs: seq<Range>, qs: seq<Range>, owns: seq<bool>, k: nat) returns (l: nat)
    requires Describes(rs, owns) && Describes(qs, owns) && k < |rs|
    ensures l < |qs| && qs[l] == rs[k]
  {
    var r := rs[k];
    assert Maximal(r, owns) && owns[r.start];
    assert InRanges(qs, r.start);
    l :| 0 <= l < |qs| && InRange(qs[l], r.start);
    SameRange(r, qs[l], owns);
  }

  lemma SameRange(r: Range, q: Range, owns: seq<bool>)
    requires Maximal(r, owns) && Maximal(q, owns) && InRange(q, r.start)
    ensures r == q
  {
    assert r.start == 0 || !owns[r.start - 1];
    assert q.start == r.start;
    assert r.stop + 1 == |owns| || !owns[r.stop + 1];
    assert q.stop + 1 == |owns| || !owns[q.stop + 1];
  }

  // ----- loading -----

  /** Every slot of the range is in a table of that size. */
  predicate Inside(r: Range, size: nat) {
    r.start <= r.stop ==> r.stop < size
  }

  /** Gives the free slots of a range to a node, one clusterAddSlot at a time; false on reaching past the table. */
  method LoadRange(c: Cluster, id: Id, r: Range) returns (ok: bool)
    requires c.Valid() && id in c.nodes
    modifies c`slots, c`nodes
    ensures c.Valid() && SameConfig(old(c.nodes), c.nodes) && |c.slots| == |old(c.slots)|
    ensures ok <==> Inside(r, |c.slots|)
    ensures forall j: nat :: j < |c.slots| ==>
                               c.slots[j] == if old(c.slots)[j].None? && InRange(r, j) then Some(id) else
                                   old(c.slots)[j]
  {
    hide TableOk, MastersKnown;
    var start := r.start;
    while start <= r.stop
      invariant r.start <= start && (start == r.start || start <= |c.slots|)
      invariant c.Valid() && SameConfig(old(c.nodes), c.nodes) && |c.slots| == |old(c.slots)|
      invariant forall j: nat :: j < |c.slots| ==>
                                   c.slots[j] == if old(c.slots)[j].None? && InRange(r, j) &&
                                       j < start then Some(id) else old(c.slots)[j]
    {
      if |c.slots| <= start {
        return false;
      }
      var added := c.AddSlot(id, start);
      start := start + 1;
    }
    ok := true;
  }

  /** The mark of a slot that is being moved, not a range. */
  predicate IsMark(token: string) {
    token != "" && token[0] == '['
  }

  ghost predicate Covers(token: string, j: nat) {
    !IsMark(token) && InRange(Read(token), j)
  }

  ghost predicate Fits(tokens: seq<string>, size: nat) {
    forall k :: 0 <= k < |tokens| ==> IsMark(tokens[k]) || Inside(Read(tokens[k]), size)
  }

  ghost predicate InTokens(tokens: seq<string>, j: nat) {
    exists k :: 0 <= k < |tokens| && Covers(tokens[k], j)
  }

  /** Loads the slots of one configuration line; false when a range reaches past the table. */
  method LoadNode(c: Cluster, id: Id, tokens: seq<string>) returns (ok: bool)
    requires c.Valid() && id in c.nodes
    modifies c`slots, c`nodes
    ensures c.Valid() && SameConfig(old(c.nodes), c.nodes) && |c.slots| == |old(c.slots)|
    ensures ok <==> Fits(tokens, |c.slots|)
    ensures ok ==> forall j: nat :: j < |c.slots| ==>
                                      c.slots[j] == if old(c.slots)[j].None? && InTokens(tokens, j) then Some(id) else
                                          old(c.slots)[j]
  {
    hide TableOk, MastersKnown;
    for k := 0 to |tokens|
      invariant c.Valid() && SameConfig(old(c.nodes), c.nodes) && |c.slots| == |old(c.slots)|
      invariant Fits(tokens[..k], |c.slots|)
      invariant forall j: nat :: j < |c.slots| ==>
                                   c.slots[j] == if old(c.slots)[j].None? &&
                                       InTokens(tokens[..k], j) then Some(id) else old(c.slots)[j]
    {
      TokensStep(tokens, k);
      if !IsMark(tokens[k]) {
        var fits := LoadRange(c, id, Read(tokens[k]));
        if !fits {
          return false;
        }
      }
      assert tokens[..k + 1] == tokens[..k] + [tokens[k]];
    }
    assert tokens[..|tokens|] == tokens;
    ok := true;
  }

  lemma TokensStep(tokens: seq<string>, k: nat)
    requires k < |tokens|
    ensures forall j: nat :: InTokens(tokens[..k + 1], j) <==> InTokens(tokens[..k], j) || Covers(tokens[k], j)
  {
    forall j: nat ensures InTokens(tokens[..k + 1], j) <==> InTokens(tokens[..k], j) || Covers(tokens[k], j) {
      TokenStep(tokens, k, j);
    }
  }

  lemma TokenStep(tokens: seq<string>, k: nat, j: nat)
    requires k < |tokens|
    ensures InTokens(tokens[..k + 1], j) <==> InTokens(tokens[..k], j) || Covers(tokens[k], j)
  {
    hide Covers;
    var a, b := tokens[..k], tokens[..k + 1];
    if InTokens(b, j) {
      var i :| 0 <= i < |b| && Covers(b[i], j);
      if i < k { assert Covers(a[i], j); }
    }
    if InTokens(a, j) {
      var i :| 0 <= i < |a| && Covers(a[i], j);
      assert Covers(b[i], j);
    }
    if Covers(tokens[k], j) { assert Covers(b[k], j); }
  }

  /** A written range is not taken for a mark. */
  lemma ShownIsRange(r: Range)
    ensures !IsMark(Show(r)) && Read(Show(r)) == r
  {
    ReadShow(r);
    DecimalDigits(r.start);
  }

  /** The slot part of a node's configuration line. */
  method SaveNode(bits: Bitmap) returns (tokens: seq<string>)
    ensures Fits(tokens, 8 * |bits|)
    ensures forall j: nat :: j < 8 * |bits| ==> (InTokens(tokens, j) <==> TestBit(bits, j))
  {
    var owns := seq(8 * |bits|, j requires 0 <= j < 8 * |bits| => TestBit(bits, j));
    var rs := PrintRanges(owns);
    tokens := seq(|rs|, k requires 0 <= k < |rs| => Show(rs[k]));
    forall k | 0 <= k < |rs| ensures !IsMark(tokens[k]) && Read(tokens[k]) == rs[k] {
      ShownIsRange(rs[k]);
    }
    forall j: nat | j < 8 * |bits| ensures InTokens(tokens, j) <==> TestBit(bits, j) {
      TokensCover(tokens, rs, owns, j);
    }
  }

  lemma TokensCover(tokens: seq<string>, rs: seq<Range>, owns: seq<bool>, j: nat)
    requires Describes(rs, owns) && j < |owns| && |tokens| == |rs|
    requires forall k :: 0 <= k < |rs| ==> !IsMark(tokens[k]) && Read(tokens[k]) == rs[k]
    ensures InTokens(tokens, j) <==> owns[j]
  {
    if owns[j] {
      var k :| 0 <= k < |rs| && InRange(rs[k], j);
      assert Covers(tokens[k], j);
    }
    if InTokens(tokens, j) {
      var k :| 0 <= k < |tokens| && Covers(tokens[k], j);
      assert Maximal(rs[k], owns);
    }
  }

  /** The line of a node names exactly the slots it owns. */
  method SaveLine(c: Cluster, id: Id) returns (tokens: seq<string>)
    requires c.Valid() && id in c.nodes
    ensures Fits(tokens, |c.slots|)
    ensures forall j: nat :: j < |c.slots| ==> (InTokens(tokens, j) <==> c.slots[j] == Some(id))
  {
    hide TestBit;
    TableRecord(c.slots, c.nodes, id);
    tokens := SaveNode(c.nodes[id].bits);
  }

  /** Writing the lines of all nodes and loading them, in any order, into a fresh cluster state
      rebuilds the slot table, every bitmap and every count. */
  method SaveAndLoad(c: Cluster) returns (d: Cluster)
    requires c.Valid()
    ensures fresh(d) && d.Valid() && d.slots == c.slots && d.nodes.Keys == c.nodes.Keys
    ensures forall x :: x in c.nodes ==>
                          d.nodes[x].bits == c.nodes[x].bits && d.nodes[x].numslots == c.nodes[x].numslots
  {
    hide TableOk, MastersKnown, RecordOk;
    assert |c.slots| % 8 == 0 by { BytesFit(c.slots, c.nodes, c.myself); }
    var left := c.nodes.Keys;
    forall j: nat | j < |c.slots| && c.slots[j].Some? ensures c.slots[j].value in left {
      TableOwner(c.slots, c.nodes, j);
    }
    d := new Cluster.Blank(|c.slots| / 8, left, c.myself);
    while left != {}
      invariant d.Valid() && c.Valid() && d.nodes.Keys == c.nodes.Keys && |d.slots| == |c.slots| && left <= c.nodes.Keys
      invariant forall j :: 0 <= j < |c.slots| ==>
                              d.slots[j] == if c.slots[j].Some? && c.slots[j].value !in left then c.slots[j] else None
    {
      var id :| id in left;
      var tokens := SaveLine(c, id);
      var fits := LoadNode(d, id, tokens);
      assert fits;
      left := left - {id};
    }
    assert d.slots == c.slots;
    forall x | x in c.nodes
      ensures d.nodes[x].bits == c.nodes[x].bits && d.nodes[x].numslots == c.nodes[x].numslots
    {
      TableRecord(c.slots, c.nodes, x);
      TableRecord(d.slots, d.nodes, x);
      RecordsDetermined(c.slots, x, d.nodes[x], c.nodes[x]);
    }
  }

  lemma BytesFit(slots: Owners, nodes: map<Id, Record>, id: Id)
    requires TableOk(slots, nodes) && id in nodes
    ensures |slots| % 8 == 0
  {
    TableRecord(slots, nodes, id);
  }
}
