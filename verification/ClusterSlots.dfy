/** The slot table of one cluster node: an owner per slot, and for every known node a bitmap and a
    count of the slots it serves. Every operation updates the three together in place. */
module ClusterSlots {
  import opened ClusterTypes
  import opened Collections
  import opened SlotBitmap

  datatype Record = Record(bits: Bitmap, numslots: int, configEpoch: nat, role: Role)

  type Owners = seq<Option<Id>>

  function Owned(slots: Owners, id: Id): set<nat> {
    set j: nat | j < |slots| && slots[j] == Some(id)
  }

  /** Bit j of a node is set iff the node owns slot j, and its count is the number of set bits. */
  ghost predicate RecordOk(slots: Owners, id: Id, r: Record) {
    && 8 * |r.bits| == |slots|
    && (forall j: nat :: j < |slots| ==> (TestBit(r.bits, j) <==> slots[j] == Some(id)))
    && r.numslots == |Owned(slots, id)|
  }

  ghost predicate TableOk(slots: Owners, nodes: map<Id, Record>) {
    && (forall id {:trigger nodes[id]} :: id in nodes ==> RecordOk(slots, id, nodes[id]))
    && (forall j :: 0 <= j < |slots| && slots[j].Some? ==> slots[j].value in nodes)
  }

  /** clusterNodeSetSlotBit and clusterNodeClearSlotBit. */
  function SetSlotBit(r: Record, j: nat): Record
    requires j < 8 * |r.bits|
  {
    r.(bits := SetBit(r.bits, j), numslots := if TestBit(r.bits, j) then r.numslots else r.numslots + 1)
  }

  function ClearSlotBit(r: Record, j: nat): Record
    requires j < 8 * |r.bits|
  {
    r.(bits := ClearBit(r.bits, j), numslots := if TestBit(r.bits, j) then r.numslots - 1 else r.numslots)
  }

  ghost function Bits(b: Bitmap): set<nat> {
    set q: nat | q < 8 * |b| && TestBit(b, q)
  }

  /** Whether or not the bit was set before, the count stays the number of set bits. */
  lemma CountFollowsBits(r: Record, j: nat)
    requires j < 8 * |r.bits| && r.numslots == |Bits(r.bits)|
    ensures Bits(SetSlotBit(r, j).bits) == Bits(r.bits) + {j} && Bits(ClearSlotBit(r, j).bits) == Bits(r.bits) - {j}
    ensures SetSlotBit(r, j).numslots == |Bits(SetSlotBit(r, j).bits)|
    ensures ClearSlotBit(r, j).numslots == |Bits(ClearSlotBit(r, j).bits)|
  {
    hide TestBit, SetBit, ClearBit;
    SameSize(r.bits, j);
    forall q: nat | q < 8 * |r.bits|
      ensures TestBit(SetBit(r.bits, j), q) <==> q == j || TestBit(r.bits, q)
      ensures TestBit(ClearBit(r.bits, j), q) <==> q != j && TestBit(r.bits, q)
    {
      SetBitTest(r.bits, j, q);
      ClearBitTest(r.bits, j, q);
    }
    assert Bits(SetBit(r.bits, j)) == Bits(r.bits) + {j};
    assert Bits(ClearBit(r.bits, j)) == Bits(r.bits) - {j};
  }

  lemma SameSize(b: Bitmap, j: nat)
    requires j < 8 * |b|
    ensures |SetBit(b, j)| == |b| == |ClearBit(b, j)|
  {
  }

  lemma SetRecordOk(slots: Owners, id: Id, r: Record, j: nat)
    requires RecordOk(slots, id, r) && j < |slots| && slots[j].None?
    ensures RecordOk(slots[j := Some(id)], id, SetSlotBit(r, j))
  {
    hide TestBit;
    forall q: nat | q < |slots| ensures TestBit(SetBit(r.bits, j), q) <==> q == j || TestBit(r.bits, q) {
      SetBitTest(r.bits, j, q);
    }
    assert Owned(slots[j := Some(id)], id) == Owned(slots, id) + {j};
  }

  lemma ClearRecordOk(slots: Owners, id: Id, r: Record, j: nat)
    requires RecordOk(slots, id, r) && j < |slots| && slots[j] == Some(id)
    ensures TestBit(r.bits, j) && RecordOk(slots[j := None], id, ClearSlotBit(r, j))
  {
    hide TestBit;
    forall q: nat | q < |slots| ensures TestBit(ClearBit(r.bits, j), q) <==> q != j && TestBit(r.bits, q) {
      ClearBitTest(r.bits, j, q);
    }
    assert Owned(slots[j := None], id) == Owned(slots, id) - {j};
  }

  lemma OtherRecordOk(slots: Owners, id: Id, r: Record, j: nat, o: Option<Id>)
    requires RecordOk(slots, id, r) && j < |slots| && slots[j] != Some(id) && o != Some(id)
    ensures RecordOk(slots[j := o], id, r)
  {
    assert Owned(slots[j := o], id) == Owned(slots, id);
  }

  /** Assigning a free slot keeps the table consistent. */
  lemma AddKeepsTable(slots: Owners, nodes: map<Id, Record>, id: Id, j: nat)
    requires TableOk(slots, nodes) && id in nodes && j < |slots| && slots[j].None?
    ensures 8 * |nodes[id].bits| == |slots| && TableOk(slots[j := Some(id)], nodes[id := SetSlotBit(nodes[id], j)])
  {
    hide TestBit, SetSlotBit;
    SetRecordOk(slots, id, nodes[id], j);
    forall x | x in nodes && x != id ensures RecordOk(slots[j := Some(id)], x, nodes[x]) {
      OtherRecordOk(slots, x, nodes[x], j, Some(id));
    }
  }

  /** Unassigning a slot keeps the table consistent; the owner's bit is set before. */
  lemma DelKeepsTable(slots: Owners, nodes: map<Id, Record>, j: nat)
    requires TableOk(slots, nodes) && j < |slots| && slots[j].Some?
    ensures var id := slots[j].value;
            && id in nodes && 8 * |nodes[id].bits| == |slots| && TestBit(nodes[id].bits, j)
            && TableOk(slots[j := None], nodes[id := ClearSlotBit(nodes[id], j)])
  {
    hide TestBit, ClearSlotBit;
    var id := slots[j].value;
    ClearRecordOk(slots, id, nodes[id], j);
    forall x | x in nodes && x != id ensures RecordOk(slots[j := None], x, nodes[x]) {
      OtherRecordOk(slots, x, nodes[x], j, None);
    }
  }

  function BlankNodes(bytes: nat, ids: set<Id>): (r: map<Id, Record>)
    ensures r.Keys == ids && forall x :: x in ids ==> r[x] == Record(BlankMap(bytes), 0, 0, Master)
  {
    map x | x in ids :: Record(BlankMap(bytes), 0, 0, Master)
  }

  /** Freshly created nodes agree with a table that assigns no slot. */
  lemma BlankTable(bytes: nat, ids: set<Id>)
    ensures TableOk(seq(8 * bytes, _ => None), BlankNodes(bytes, ids)) && MastersKnown(BlankNodes(bytes, ids))
  {
    var slots: Owners := seq(8 * bytes, _ => None);
    forall j: nat | j < 8 * bytes ensures !TestBit(BlankMap(bytes), j) { BlankBit(bytes, j); }
    forall x | x in ids ensures RecordOk(slots, x, BlankNodes(bytes, ids)[x]) {
      assert Owned(slots, x) == {};
    }
  }

  lemma TableRecord(slots: Owners, nodes: map<Id, Record>, id: Id)
    requires TableOk(slots, nodes) && id in nodes
    ensures RecordOk(slots, id, nodes[id])
  {
  }

  lemma TableCount(slots: Owners, nodes: map<Id, Record>, id: Id)
    requires TableOk(slots, nodes) && id in nodes
    ensures nodes[id].numslots == |Owned(slots, id)|
  {
    assert RecordOk(slots, id, nodes[id]);
  }

  lemma TableBit(slots: Owners, nodes: map<Id, Record>, id: Id, j: nat)
    requires TableOk(slots, nodes) && id in nodes && j < |slots|
    ensures 8 * |nodes[id].bits| == |slots| && (TestBit(nodes[id].bits, j) <==> slots[j] == Some(id))
  {
    assert RecordOk(slots, id, nodes[id]);
  }

  lemma TableOwner(slots: Owners, nodes: map<Id, Record>, j: nat)
    requires TableOk(slots, nodes) && j < |slots| && slots[j].Some?
    ensures slots[j].value in nodes
  {
  }

  /** The slot table determines every bitmap and count. */
  lemma RecordsDetermined(slots: Owners, id: Id, r: Record, q: Record)
    requires RecordOk(slots, id, r) && RecordOk(slots, id, q)
    ensures r.bits == q.bits && r.numslots == q.numslots
  {
    BitmapExt(r.bits, q.bits);
  }

  /** Epochs and roles are as before; only bitmaps and counts may differ. */
  ghost predicate SameConfig(nodes: map<Id, Record>, nodes': map<Id, Record>) {
    && nodes'.Keys == nodes.Keys
    && forall x {:trigger nodes[x]} {:trigger nodes'[x]} :: x in nodes ==>
        nodes'[x].configEpoch == nodes[x].configEpoch && nodes'[x].role == nodes[x].role
  }

  /** The same for all nodes but one. */
  ghost predicate SameBut(nodes: map<Id, Record>, nodes': map<Id, Record>, id: Id) {
    && nodes'.Keys == nodes.Keys && id in nodes
    && forall x {:trigger nodes[x]} {:trigger nodes'[x]} :: x in nodes && x != id ==>
        nodes'[x].configEpoch == nodes[x].configEpoch && nodes'[x].role == nodes[x].role
  }

  /** A slave's master, where recorded, is a known node. */
  ghost predicate MastersKnown(nodes: map<Id, Record>) {
    forall x {:trigger nodes[x]} :: x in nodes && nodes[x].role.Slave? && nodes[x].role.of.Some? ==>
        nodes[x].role.of.value in nodes
  }

  lemma MasterKnown(nodes: map<Id, Record>, id: Id)
    requires MastersKnown(nodes) && id in nodes
    ensures nodes[id].role.Slave? && nodes[id].role.of.Some? ==> nodes[id].role.of.value in nodes
  {
  }

  /** The node table without one node, whose slaves lose their master. */
  function Forgotten(nodes: map<Id, Record>, id: Id): (r: map<Id, Record>)
    ensures r.Keys == nodes.Keys - {id}
    ensures forall x :: x in r ==>
                          r[x] == if nodes[x].role == Slave(Some(id)) then nodes[x].(role := Slave(None)) else nodes[x]
  {
    map x | x in nodes && x != id ::
      if nodes[x].role == Slave(Some(id)) then nodes[x].(role := Slave(None)) else nodes[x]
  }

  lemma ForgetKeepsTable(slots: Owners, nodes: map<Id, Record>, id: Id)
    requires TableOk(slots, nodes) && MastersKnown(nodes) && Some(id) !in slots
    ensures TableOk(slots, Forgotten(nodes, id)) && MastersKnown(Forgotten(nodes, id))
  {
  }

  /** A new epoch or role of one node does not touch the slot table. */
  lemma ConfigKeepsTable(slots: Owners, nodes: map<Id, Record>, id: Id, r: Record)
    requires TableOk(slots, nodes) && MastersKnown(nodes) && id in nodes
    requires r.bits == nodes[id].bits && r.numslots == nodes[id].numslots
    requires r.role.Slave? && r.role.of.Some? ==> r.role.of.value in nodes
    ensures TableOk(slots, nodes[id := r]) && MastersKnown(nodes[id := r])
  {
    hide RecordOk;
    SameRecordOk(slots, id, nodes[id], r);
  }

  lemma SameRecordOk(slots: Owners, id: Id, r: Record, q: Record)
    requires q.bits == r.bits && q.numslots == r.numslots
    ensures RecordOk(slots, id, r) <==> RecordOk(slots, id, q)
  {
    hide TestBit;
  }

  /** The slots of one node pass to another owner, or to none. */
  function Handed(slots: Owners, id: Id, to: Option<Id>): (r: Owners)
    ensures |r| == |slots|
    ensures forall j :: 0 <= j < |slots| ==> r[j] == if slots[j] == Some(id) then to else slots[j]
  {
    seq(|slots|, j requires 0 <= j < |slots| => if slots[j] == Some(id) then to else slots[j])
  }

  /** A takeover conserves slots: the heir ends with both sets, the old owner with none, and every
      other node and the set of unassigned slots are untouched. */
  lemma HandedConserves(slots: Owners, from: Id, to: Id)
    requires from != to
    ensures var r := Handed(slots, from, Some(to));
            && Owned(r, to) == Owned(slots, to) + Owned(slots, from) &&
                |Owned(r, to)| == |Owned(slots, to)| + |Owned(slots, from)|
            && Owned(r, from) == {}
            && (forall x :: x != from && x != to ==> Owned(r, x) == Owned(slots, x))
            && (forall j :: 0 <= j < |slots| ==> r[j].None? == slots[j].None?)
  {
    var r := Handed(slots, from, Some(to));
    assert Owned(r, to) == Owned(slots, to) + Owned(slots, from);
    assert Owned(slots, to) !! Owned(slots, from);
    forall x | x != from && x != to ensures Owned(r, x) == Owned(slots, x) {
    }
  }

  // ----- claims of another node -----

  /** Slot j is claimed by the sender with a newer configuration than the one known here. */
  ghost predicate Rebinds(slots: Owners, importing: Owners, nodes: map<Id, Record>, sender: Id, epoch: nat,
      claimed: Bitmap, j: nat)
    requires j < |slots| == |importing| == 8 * |claimed|
  {
    && TestBit(claimed, j) && slots[j] != Some(sender) && importing[j].None?
    && (slots[j].None? || (slots[j].value in nodes && nodes[slots[j].value].configEpoch < epoch))
  }

  ghost function Rebound(slots: Owners, importing: Owners, nodes: map<Id, Record>, sender: Id, epoch: nat,
      claimed: Bitmap): (r: Owners)
    requires |slots| == |importing| == 8 * |claimed|
    ensures |r| == |slots|
    ensures forall j :: 0 <= j < |slots| ==>
                          r[j] == if Rebinds(slots, importing, nodes, sender, epoch, claimed, j)
                                  then Some(sender) else slots[j]
  {
    seq(|slots|, j requires 0 <= j < |slots| =>
      if Rebinds(slots, importing, nodes, sender, epoch, claimed, j) then Some(sender) else slots[j])
  }

  lemma ReboundAt(was: Owners, slots: Owners, importing: Owners, nodes: map<Id, Record>, nodes': map<Id, Record>,
      sender: Id, epoch: nat, claimed: Bitmap, j: nat)
    requires j < |slots| == |was| == |importing| == 8 * |claimed| && slots[j] == was[j] && SameConfig(nodes, nodes')
    requires slots[j].Some? ==> slots[j].value in nodes'
    ensures Rebound(was, importing, nodes, sender, epoch, claimed)[j] ==
            if && TestBit(claimed, j) && slots[j] != Some(sender) && importing[j].None?
               && (slots[j].None? || nodes'[slots[j].value].configEpoch < epoch) then Some(sender)
            else was[j]
  {
  }

  /** Each claimed slot that is not being imported ends with the sender or with an owner of at least
      the claimed epoch; no other slot changes hands; and if the sender is known at the claimed epoch
      or later, no slot falls to an owner with a smaller epoch. */
  lemma ReboundOwners(slots: Owners, importing: Owners, nodes: map<Id, Record>, sender: Id, epoch: nat,
      claimed: Bitmap, j: nat)
    requires j < |slots| == |importing| == 8 * |claimed| && sender in nodes
    requires forall k :: 0 <= k < |slots| && slots[k].Some? ==> slots[k].value in nodes
    ensures var r := Rebound(slots, importing, nodes, sender, epoch, claimed);
            && (TestBit(claimed, j) && importing[j].None? ==>
                  r[j] == Some(sender) || (r[j].Some? && r[j].value in nodes && epoch <= nodes[r[j].value].configEpoch))
            && (!TestBit(claimed, j) || importing[j].Some? ==> r[j] == slots[j])
            && (epoch <= nodes[sender].configEpoch && slots[j].Some? ==>
                  r[j].Some? && nodes[slots[j].value].configEpoch <= nodes[r[j].value].configEpoch)
  {
  }

  /** Slaves serve no slots. */
  ghost predicate SlavesServeNothing(slots: Owners, nodes: map<Id, Record>) {
    forall x {:trigger nodes[x]} :: x in nodes && nodes[x].role.Slave? ==> Owned(slots, x) == {}
  }

  lemma NoSlots(slots: Owners, nodes: map<Id, Record>, id: Id)
    requires TableOk(slots, nodes) && id in nodes
    ensures nodes[id].numslots == 0 <==> Owned(slots, id) == {}
  {
    hide TableOk;
    TableCount(slots, nodes, id);
  }

  lemma NoSlotsLeft(slots: Owners, nodes: map<Id, Record>, id: Id)
    requires SlavesServeNothing(slots, nodes) && id in nodes
    ensures nodes[id].role.Slave? ==> Owned(slots, id) == {}
  {
  }

  lemma ReplicaServesNothing(slots: Owners, nodes: map<Id, Record>, id: Id, master: Id)
    requires id in nodes && Owned(slots, id) == {}
    ensures SlavesServeNothing(slots, nodes) ==>
              SlavesServeNothing(slots, nodes[id := nodes[id].(role := Slave(Some(master)))])
  {
  }

  /** The slots the node lost while it held keys in them. */
  ghost predicate Dirty(dirty: seq<nat>, was: Owners, now: Owners, keys: seq<nat>, id: Id) {
    DirtyUpTo(dirty, was, now, keys, id, |now|)
  }

  ghost predicate DirtyUpTo(dirty: seq<nat>, was: Owners, now: Owners, keys: seq<nat>, id: Id, k: nat) {
    && |was| == |now| == |keys| && k <= |now|
    && forall j: nat :: j in dirty <==> j < k && was[j] == Some(id) && now[j] != Some(id) && keys[j] != 0
  }

  lemma DirtyNext(dirty: seq<nat>, was: Owners, now: Owners, keys: seq<nat>, id: Id, k: nat)
    requires DirtyUpTo(dirty, was, now, keys, id, k) && k < |now|
    ensures DirtyUpTo(if was[k] == Some(id) && now[k] != Some(id) && keys[k] != 0 then dirty + [k] else dirty,
                      was, now, keys, id, k + 1)
  {
  }

  /** A demoted node keeps its keys until it resyncs; any other drops exactly those of the slots it lost. */
  ghost predicate KeysAfter(demoted: bool, was: Owners, now: Owners, id: Id, keys: seq<nat>, keys': seq<nat>) {
    && |was| == |now| == |keys| == |keys'|
    && forall j :: 0 <= j < |keys| ==>
         keys'[j] == if !demoted && was[j] == Some(id) && now[j] != Some(id) then 0 else keys[j]
  }

  /** A master that becomes a replica drops its migrations and imports; nothing else touches them. */
  ghost predicate MarksAfter(dropped: bool, importing: Owners, importing': Owners, migrating: Owners,
      migrating': Owners) {
    if dropped then forall o :: o in importing' || o in migrating' ==> o == None
    else importing' == importing && migrating' == migrating
  }

  lemma DirtyCleared(dirty: seq<nat>, was: Owners, now: Owners, keys: seq<nat>, keys': seq<nat>, id: Id)
    requires Dirty(dirty, was, now, keys, id) && |keys'| == |keys|
    requires forall j :: 0 <= j < |keys| ==> keys'[j] == if j in dirty then 0 else keys[j]
    ensures KeysAfter(false, was, now, id, keys, keys')
  {
  }

  lemma KeysStay(was: Owners, now: Owners, id: Id, keys: seq<nat>)
    requires |was| == |now| == |keys|
    ensures KeysAfter(true, was, now, id, keys, keys)
  {
  }

  lemma DirtyInRange(dirty: seq<nat>, was: Owners, now: Owners, keys: seq<nat>, id: Id)
    requires Dirty(dirty, was, now, keys, id)
    ensures forall d :: d in dirty ==> d < |now|
  {
  }

  /** m is the master of the node: itself, or the one it replicates. */
  ghost predicate Follows(nodes: map<Id, Record>, id: Id, m: Id)
    requires id in nodes
  {
    if nodes[id].role.Master? then m == id else nodes[id].role == Slave(Some(m))
  }

  /** The master m of a node lost a slot to the last claim and has none left. */
  ghost predicate Dethroned(was: Owners, now: Owners, m: Id) {
    Lost(was, now, m) && Owned(now, m) == {}
  }

  /** The node has lost a slot. */
  ghost predicate Lost(was: Owners, now: Owners, id: Id) {
    LostUpTo(was, now, id, |was|)
  }

  ghost predicate LostUpTo(was: Owners, now: Owners, id: Id, k: nat) {
    exists j :: 0 <= j < k <= |was| == |now| && was[j] == Some(id) && now[j] != was[j]
  }

  lemma NoneYet(was: Owners, now: Owners, keys: seq<nat>, id: Id, m: Id)
    requires |was| == |now| == |keys|
    ensures DirtyUpTo([], was, now, keys, id, 0) && !LostUpTo(was, now, m, 0) && Spliced(was, now, was, 0)
  {
  }

  /** The first j owners are those of goal, the rest as they were. */
  ghost predicate Spliced(now: Owners, goal: Owners, was: Owners, j: nat) {
    |now| == |goal| == |was| && forall k :: 0 <= k < |now| ==> now[k] == if k < j then goal[k] else was[k]
  }

  lemma SpliceNext(now: Owners, goal: Owners, was: Owners, j: nat)
    requires Spliced(now, goal, was, j) && j < |now|
    ensures now[j] == was[j] && Spliced(now[j := goal[j]], goal, was, j + 1)
    ensures goal[j] == was[j] ==> Spliced(now, goal, was, j + 1)
  {
  }

  lemma SpliceDone(now: Owners, goal: Owners, was: Owners)
    requires Spliced(now, goal, was, |now|)
    ensures now == goal
  {
  }

  lemma LostNext(was: Owners, now: Owners, id: Id, k: nat)
    requires k < |was| == |now|
    ensures LostUpTo(was, now, id, k + 1) <==> LostUpTo(was, now, id, k) || (was[k] == Some(id) && now[k] != was[k])
  {
    if LostUpTo(was, now, id, k) {
      var j :| 0 <= j < k && was[j] == Some(id) && now[j] != was[j];
    }
  }

  lemma ReboundSlaves(slots: Owners, importing: Owners, nodes: map<Id, Record>, nodes': map<Id, Record>, sender: Id,
      epoch: nat, claimed: Bitmap)
    requires |slots| == |importing| == 8 * |claimed| && sender in nodes && nodes[sender].role.Master?
    requires SlavesServeNothing(slots, nodes) && SameConfig(nodes, nodes')
    ensures SlavesServeNothing(Rebound(slots, importing, nodes, sender, epoch, claimed), nodes')
  {
    var r := Rebound(slots, importing, nodes, sender, epoch, claimed);
    forall x | x in nodes' && nodes'[x].role.Slave? ensures Owned(r, x) == {} {
      assert nodes[x].role.Slave?;
      assert Owned(slots, x) == {};
      assert forall j: nat :: j < |slots| && r[j] == Some(x) ==> j in Owned(slots, x);
    }
  }

  /** The first j slots have been handed on, the rest are as before. */
  ghost predicate Partly(now: Owners, was: Owners, id: Id, to: Option<Id>, j: nat) {
    && |now| == |was|
    && forall k :: 0 <= k < |was| ==> now[k] == if k < j && was[k] == Some(id) then to else was[k]
  }

  lemma PartlyDone(now: Owners, was: Owners, id: Id, to: Option<Id>)
    requires Partly(now, was, id, to, |was|)
    ensures now == Handed(was, id, to)
  {
  }

  function KnownEpochs(nodes: map<Id, Record>): set<nat> {
    set x | x in nodes :: nodes[x].configEpoch
  }

  /** The bump rule lets the node take a new epoch. */
  ghost predicate Bumps(nodes: map<Id, Record>, current: nat, me: Id)
    requires me in nodes
  {
    exists max :: IsMaxEpoch(max, current, KnownEpochs(nodes)) && MayBump(nodes[me].configEpoch, max)
  }

  lemma BumpsIs(nodes: map<Id, Record>, current: nat, me: Id, max: nat)
    requires me in nodes && IsMaxEpoch(max, current, KnownEpochs(nodes))
    ensures Bumps(nodes, current, me) <==> MayBump(nodes[me].configEpoch, max)
  {
    hide KnownEpochs, IsMaxEpoch;
    forall m | IsMaxEpoch(m, current, KnownEpochs(nodes)) ensures m == max {
      MaxEpochUnique(m, max, current, KnownEpochs(nodes));
    }
  }

  datatype Reply = Done | Refused

  /** The slots named by a command are in range, assigned or free as the command needs, and distinct. */
  ghost predicate Accepts(slots: Owners, args: seq<int>, del: bool) {
    && (forall a :: 0 <= a < |args| ==> 0 <= args[a] < |slots| && slots[args[a]].Some? == del)
    && (forall a, b :: 0 <= a < b < |args| ==> args[a] != args[b])
  }

  lemma AcceptsPrefix(slots: Owners, args: seq<int>, del: bool, a: nat)
    requires Accepts(slots, args, del) && a < |args|
    ensures 0 <= args[a] < |slots| && slots[args[a]].Some? == del && args[a] !in args[..a]
  {
  }

  /** The named slots pass to one owner, or to none. */
  ghost function Filled(slots: Owners, args: seq<int>, to: Option<Id>): (r: Owners)
    ensures |r| == |slots| && forall j :: 0 <= j < |slots| ==> r[j] == if j in args then to else slots[j]
  {
    seq(|slots|, j requires 0 <= j < |slots| => if j in args then to else slots[j])
  }

  datatype Command =
    | Add(id: Id, j: nat) | Del(j: nat) | DelAll(id: Id) | Move(id: Id, j: nat) | Promote | Forget(id: Id)
    | AddSlots(args: seq<int>) | DelSlots(args: seq<int>) | SetNode(slot: int, id: Id)
    | Learn(sender: Id, epoch: nat, claimed: Bitmap)

  class Cluster {
    var slots: Owners
    var importing: Owners
    var migrating: Owners
    var nodes: map<Id, Record>
    var keys: seq<nat>  // keys stored here per slot
    var currentEpoch: nat
    const myself: Id

    ghost predicate Valid()
      reads this
    {
      && TableOk(slots, nodes) && myself in nodes && MastersKnown(nodes)
      && |importing| == |migrating| == |keys| == |slots|
    }

    constructor Blank(bytes: nat, ids: set<Id>, me: Id)
      requires me in ids
      ensures Valid() && nodes.Keys == ids && myself == me && currentEpoch == 0
      ensures slots == importing == migrating == seq(8 * bytes, _ => None) && keys == seq(8 * bytes, _ => 0)
    {
      slots := seq(8 * bytes, _ => None);
      importing := seq(8 * bytes, _ => None);
      migrating := seq(8 * bytes, _ => None);
      keys := seq(8 * bytes, _ => 0);
      nodes := BlankNodes(bytes, ids);
      currentEpoch := 0;
      myself := me;
      new;
      BlankTable(bytes, ids);
    }

    /** Gives a free slot to a node; a slot that has an owner is left alone. */
    method AddSlot(id: Id, j: nat) returns (ok: bool)
      requires Valid() && id in nodes && j < |slots|
      modifies `slots, `nodes
      ensures Valid() && SameConfig(old(nodes), nodes)
      ensures ok == old(slots[j]).None?
      ensures slots == if ok then old(slots)[j := Some(id)] else old(slots)
    {
      hide TestBit, TableOk;
      ok := slots[j].None?;
      if ok {
        AddKeepsTable(slots, nodes, id, j);
        nodes := nodes[id := SetSlotBit(nodes[id], j)];
        slots := slots[j := Some(id)];
      }
    }

    /** Takes a slot away from its owner; the assertion that the owner's bit was set holds. */
    method DelSlot(j: nat) returns (ok: bool)
      requires Valid() && j < |slots|
      modifies `slots, `nodes
      ensures Valid() && SameConfig(old(nodes), nodes)
      ensures ok == old(slots[j]).Some?
      ensures slots == old(slots)[j := None]
    {
      hide TestBit, TableOk;
      ok := slots[j].Some?;
      if ok {
        DelKeepsTable(slots, nodes, j);
        var id := slots[j].value;
        assert TestBit(nodes[id].bits, j);
        nodes := nodes[id := ClearSlotBit(nodes[id], j)];
        slots := slots[j := None];
      }
    }

    /** Moves a slot to a node, whoever owned it. */
    method Rebind(id: Id, j: nat)
      requires Valid() && id in nodes && j < |slots|
      modifies `slots, `nodes
      ensures Valid() && SameConfig(old(nodes), nodes)
      ensures slots == old(slots)[j := Some(id)]
    {
      hide TableOk, MastersKnown;
      var deleted := DelSlot(j);
      var added := AddSlot(id, j);
    }

    /** Unassigns every slot of a node and no other. */
    method DelNodeSlots(id: Id)
      requires Valid() && id in nodes
      modifies `slots, `nodes
      ensures Valid() && SameConfig(old(nodes), nodes)
      ensures slots == Handed(old(slots), id, None)
    {
      hide TestBit, TableOk, MastersKnown;
      for j := 0 to |slots|
        invariant Valid() && SameConfig(old(nodes), nodes) && |slots| == |old(slots)|
        invariant Partly(slots, old(slots), id, None, j)
      {
        TableBit(slots, nodes, id, j);
        if TestBit(nodes[id].bits, j) {
          var deleted := DelSlot(j);
        }
      }
      PartlyDone(slots, old(slots), id, None);
    }

    /** Drops every mention of a node from one slot. */
    method ForgetSlot(id: Id, j: nat)
      requires Valid() && j < |slots|
      modifies `slots, `nodes, `importing, `migrating
      ensures Valid() && SameConfig(old(nodes), nodes)
      ensures slots == old(slots)[j := if old(slots[j]) == Some(id) then None else old(slots[j])]
      ensures importing == old(importing)[j := if old(importing[j]) == Some(id) then None else old(importing[j])]
      ensures migrating == old(migrating)[j := if old(migrating[j]) == Some(id) then None else old(migrating[j])]
    {
      hide TableOk, MastersKnown;
      if importing[j] == Some(id) {
        importing := importing[j := None];
      }
      if migrating[j] == Some(id) {
        migrating := migrating[j := None];
      }
      if slots[j] == Some(id) {
        var deleted := DelSlot(j);
      }
    }

    /** Forgets a node: its slots become unassigned, no slot migrates to it or imports from it, and
        its slaves no longer know their master. */
    method DelNode(id: Id)
      requires Valid() && id in nodes && id != myself
      modifies `slots, `nodes, `importing, `migrating
      ensures Valid() && nodes.Keys == old(nodes).Keys - {id}
      ensures slots == Handed(old(slots), id, None)
      ensures importing == Handed(old(importing), id, None) && migrating == Handed(old(migrating), id, None)
      ensures forall x :: x in nodes ==>
                            && nodes[x].configEpoch == old(nodes)[x].configEpoch
                            && nodes[x].role == if old(nodes)[x].role == Slave(Some(id)) then Slave(None)
                                                else old(nodes)[x].role
    {
      hide TableOk, MastersKnown;
      for j := 0 to |slots|
        invariant Valid() && SameConfig(old(nodes), nodes) && |slots| == |old(slots)|
        invariant Partly(slots, old(slots), id, None, j)
        invariant Partly(importing, old(importing), id, None, j)
        invariant Partly(migrating, old(migrating), id, None, j)
      {
        ForgetSlot(id, j);
      }
      PartlyDone(slots, old(slots), id, None);
      PartlyDone(importing, old(importing), id, None);
      PartlyDone(migrating, old(migrating), id, None);
      ForgetKeepsTable(slots, nodes, id);
      nodes := Forgotten(nodes, id);
    }

    /** A promoted slave takes over its master's slots: each goes to this node, no slot is lost and
        none changes hands otherwise. */
    method ReplaceYourMaster()
      requires Valid()
      modifies `slots, `nodes
      ensures Valid()
      ensures var role := old(nodes)[myself].role;
              if role.Slave? && role.of.Some?
              then slots == Handed(old(slots), role.of.value, Some(myself)) && nodes[myself].role == Master
              else slots == old(slots) && nodes == old(nodes)
      ensures SameBut(old(nodes), nodes, myself) && nodes[myself].configEpoch == old(nodes)[myself].configEpoch
    {
      hide TestBit, TableOk, MastersKnown;
      var role := nodes[myself].role;
      if role.Master? || role.of.None? {
        return;
      }
      var master := role.of.value;
      MasterKnown(nodes, myself);
      ConfigKeepsTable(slots, nodes, myself, nodes[myself].(role := Master));
      nodes := nodes[myself := nodes[myself].(role := Master)];
      TakeSlots(master);
    }

    /** Rebinds every slot of the given node to this one. */
    method TakeSlots(master: Id)
      requires Valid() && master in nodes
      modifies `slots, `nodes
      ensures Valid() && SameConfig(old(nodes), nodes)
      ensures slots == Handed(old(slots), master, Some(myself))
    {
      hide TestBit, TableOk, MastersKnown;
      for j := 0 to |slots|
        invariant Valid() && SameConfig(old(nodes), nodes) && |slots| == |old(slots)|
        invariant Partly(slots, old(slots), master, Some(myself), j)
      {
        TableBit(slots, nodes, master, j);
        if TestBit(nodes[master].bits, j) {
          Rebind(myself, j);
        }
      }
      PartlyDone(slots, old(slots), master, Some(myself));
    }

    /** Gives a claimed slot to the sender where the claim is newer than the owner known here. */
    method TakeClaim(sender: Id, epoch: nat, claimed: Bitmap, j: nat) returns (taken: bool)
      requires Valid() && sender in nodes && 8 * |claimed| == |slots| && j < |slots|
      requires slots[j].Some? ==> slots[j].value in nodes
      modifies `slots, `nodes
      ensures Valid() && SameConfig(old(nodes), nodes)
      ensures taken <==>
              && TestBit(claimed, j) && old(slots)[j] != Some(sender) && importing[j].None?
              && (old(slots)[j].None? || old(nodes)[old(slots)[j].value].configEpoch < epoch)
      ensures slots == if taken then old(slots)[j := Some(sender)] else old(slots)
    {
      hide TableOk, MastersKnown, TestBit;
      taken := false;
      if TestBit(claimed, j) && slots[j] != Some(sender) && importing[j].None? {
        if slots[j].None? || nodes[slots[j].value].configEpoch < epoch {
          Rebind(sender, j);
          taken := true;
        }
      }
    }

    /** The scan over the claimed slots: which slots this node lost while holding keys, and whether
        its master lost any. */
    method RebindClaimed(sender: Id, epoch: nat, claimed: Bitmap) returns (dirty: seq<nat>, newmaster: bool)
      requires Valid() && sender in nodes && sender != myself && 8 * |claimed| == |slots|
      requires nodes[myself].role.Slave? ==> nodes[myself].role.of.Some?
      modifies `slots, `nodes
      ensures Valid() && SameConfig(old(nodes), nodes)
      ensures slots == Rebound(old(slots), importing, old(nodes), sender, epoch, claimed)
      ensures Dirty(dirty, old(slots), slots, keys, myself)
      ensures forall m :: Follows(old(nodes), myself, m) ==> (newmaster <==> Lost(old(slots), slots, m))
    {
      hide TableOk, MastersKnown, Rebinds, Rebound, TestBit, DirtyUpTo, LostUpTo, Spliced;
      var curmaster := if nodes[myself].role.Master? then myself else nodes[myself].role.of.value;
      ghost var goal := Rebound(slots, importing, nodes, sender, epoch, claimed);
      dirty, newmaster := [], false;
      NoneYet(slots, goal, keys, myself, curmaster);
      for j := 0 to |slots|
        invariant Valid() && SameConfig(old(nodes), nodes) && |slots| == |old(slots)|
        invariant Spliced(slots, goal, old(slots), j)
        invariant DirtyUpTo(dirty, old(slots), goal, keys, myself, j)
        invariant newmaster <==> LostUpTo(old(slots), goal, curmaster, j)
      {
        SpliceNext(slots, goal, old(slots), j);
        if slots[j].Some? { TableOwner(slots, nodes, j); }
        ReboundAt(old(slots), slots, importing, old(nodes), nodes, sender, epoch, claimed, j);
        var owner := slots[j];
        var taken := TakeClaim(sender, epoch, claimed, j);
        DirtyNext(dirty, old(slots), goal, keys, myself, j);
        LostNext(old(slots), goal, curmaster, j);
        if taken && owner == Some(myself) && keys[j] != 0 {
          dirty := dirty + [j];
        }
        if taken && owner == Some(curmaster) {
          newmaster := true;
        }
      }
      SpliceDone(slots, goal, old(slots));
    }

    /** Becomes a slave of node n; both assertions hold by the preconditions. */
    method SetMaster(n: Id)
      requires Valid() && n in nodes && n != myself && nodes[myself].numslots == 0
      modifies `nodes, `importing, `migrating
      ensures Valid()
      ensures nodes == old(nodes)[myself := old(nodes)[myself].(role := Slave(Some(n)))]
      ensures if old(nodes)[myself].role.Master?
              then forall j :: 0 <= j < |slots| ==> importing[j].None? && migrating[j].None?
              else importing == old(importing) && migrating == old(migrating)
    {
      hide TableOk, MastersKnown;
      ConfigKeepsTable(slots, nodes, myself, nodes[myself].(role := Slave(Some(n))));
      if nodes[myself].role.Master? {
        importing := seq(|slots|, _ => None);
        migrating := seq(|slots|, _ => None);
      }
      nodes := nodes[myself := nodes[myself].(role := Slave(Some(n)))];
    }

    /** clusterUpdateSlotsConfigWith: the slots claimed with a newer configuration are rebound. Where the master of
        this node lost a slot and has none left, this node becomes a replica of the sender, and the assertion that it
        serves no slot itself holds exactly when that is so; otherwise it holds no keys in any slot it lost. The
        result is false where the assertion fails. */
    method UpdateSlotsConfigWith(sender: Id, epoch: nat, claimed: Bitmap) returns (ok: bool)
      requires Valid() && sender in nodes && 8 * |claimed| == |slots|
      requires nodes[myself].role.Slave? ==> nodes[myself].role.of.Some?
      modifies `slots, `nodes, `keys, `importing, `migrating
      ensures Valid()
      ensures nodes.Keys == old(nodes).Keys && forall x :: x in nodes ==>
              nodes[x].configEpoch == old(nodes)[x].configEpoch
      ensures forall x :: x in nodes && x != myself ==> nodes[x].role == old(nodes)[x].role
      ensures sender == myself ==> ok && slots == old(slots) && nodes == old(nodes) && keys == old(keys)
      ensures sender != myself ==> slots == Rebound(old(slots), old(importing), old(nodes), sender, epoch, claimed)
      ensures sender != myself ==>
                forall m :: Follows(old(nodes), myself, m) ==>
                              var demoted := Dethroned(old(slots), slots, m);
                              && (ok <==> (demoted ==> Owned(slots, myself) == {}))
                              && nodes[myself].role ==
                                 (if demoted && ok then Slave(Some(sender)) else old(nodes)[myself].role)
                              && KeysAfter(demoted, old(slots), slots, myself, old(keys), keys)
                              && MarksAfter(demoted && ok && old(nodes)[myself].role.Master?, old(importing), importing,
                                            old(migrating), migrating)
      ensures sender == myself ==> importing == old(importing) && migrating == old(migrating)
      ensures SlavesServeNothing(old(slots), old(nodes)) && old(nodes)[sender].role.Master? ==>
                ok && SlavesServeNothing(slots, nodes)
    {
      hide TestBit, TableOk, MastersKnown, Lost, Rebound, SlavesServeNothing, Dirty, Owned, KeysAfter;
      ok := true;
      if sender == myself {
        return;
      }
      MasterKnown(nodes, myself);
      var curmaster := if nodes[myself].role.Master? then myself else nodes[myself].role.of.value;
      var dirty, newmaster := RebindClaimed(sender, epoch, claimed);
      if SlavesServeNothing(old(slots), old(nodes)) && old(nodes)[sender].role.Master? {
        ReboundSlaves(old(slots), importing, old(nodes), nodes, sender, epoch, claimed);
        NoSlotsLeft(slots, nodes, myself);
      }
      NoSlots(slots, nodes, curmaster);
      NoSlots(slots, nodes, myself);
      if newmaster && nodes[curmaster].numslots == 0 {
        KeysStay(old(slots), slots, myself, keys);
        if nodes[myself].numslots != 0 {
          return false;
        }
        ReplicaServesNothing(slots, nodes, myself, sender);
        SetMaster(sender);
      } else {
        DirtyInRange(dirty, old(slots), slots, keys, myself);
        DeleteKeys(dirty);
        DirtyCleared(dirty, old(slots), slots, old(keys), keys, myself);
      }
    }

    /** ADDSLOTS does not ask whether this node is a slave: afterwards a slave serves a slot, and the assertion fails
        as soon as its master loses its last slot. */
    method SlaveTakesSlot(j: nat)
      requires Valid() && nodes[myself].role.Slave? && j < |slots| && slots[j].None?
      modifies `slots, `nodes, `importing
      ensures Valid() && nodes[myself].role == old(nodes)[myself].role
      ensures slots[j] == Some(myself) && nodes[myself].numslots != 0 && !SlavesServeNothing(slots, nodes)
    {
      hide TableOk, MastersKnown;
      var r := AddDelSlots([j], false);
      assert r == Done && j in [j];
      NoSlots(slots, nodes, myself);
      assert j in Owned(slots, myself);
    }

    /** Empties the given slots. */
    method DeleteKeys(dirty: seq<nat>)
      requires Valid() && forall d :: d in dirty ==> d < |slots|
      modifies `keys
      ensures Valid()
      ensures forall j :: 0 <= j < |slots| ==> keys[j] == if j in dirty then 0 else old(keys)[j]
    {
      hide TableOk, MastersKnown;
      for k := 0 to |dirty|
        invariant Valid()
        invariant forall j :: 0 <= j < |slots| ==> keys[j] == if j in dirty[..k] then 0 else old(keys)[j]
      {
        assert dirty[k] in dirty;
        assert dirty[..k + 1] == dirty[..k] + [dirty[k]];
        keys := keys[dirty[k] := 0];
      }
      assert dirty[..|dirty|] == dirty;
    }

    /** The argument check of ADDSLOTS and DELSLOTS: the marked slots are those named. */
    method CheckSlots(args: seq<int>, del: bool) returns (ok: bool, marks: seq<nat>)
      ensures ok <==> Accepts(slots, args, del)
      ensures ok ==> |marks| == |slots| && forall j :: 0 <= j < |slots| ==> (marks[j] != 0 <==> j in args)
    {
      marks := seq(|slots|, _ => 0);
      for a := 0 to |args|
        invariant |marks| == |slots| && Accepts(slots, args[..a], del)
        invariant forall j :: 0 <= j < |slots| ==> marks[j] == if j in args[..a] then 1 else 0
      {
        if Accepts(slots, args, del) { AcceptsPrefix(slots, args, del, a); }
        var slot := args[a];
        if slot < 0 || |slots| <= slot {
          return false, marks;
        }
        if slots[slot].Some? != del {
          return false, marks;
        }
        marks := marks[slot := marks[slot] + 1];
        if marks[slot] == 2 {
          return false, marks;
        }
        assert args[..a + 1] == args[..a] + [slot];
      }
      assert args[..|args|] == args;
      ok := true;
    }

    /** One change of ADDSLOTS or DELSLOTS; the assertion that it succeeds holds. */
    method AddDelSlot(j: nat, del: bool)
      requires Valid() && j < |slots| && slots[j].Some? == del
      modifies `slots, `nodes, `importing
      ensures Valid() && SameConfig(old(nodes), nodes)
      ensures slots == old(slots)[j := if del then None else Some(myself)] && importing == old(importing)[j := None]
    {
      hide TableOk, MastersKnown;
      importing := importing[j := None];
      var changed;
      if del {
        changed := DelSlot(j);
      } else {
        changed := AddSlot(myself, j);
      }
      assert changed;
    }

    /** CLUSTER ADDSLOTS and DELSLOTS: all of the named slots change, or nothing does; the assertion
        that each single change succeeds holds. */
    method AddDelSlots(args: seq<int>, del: bool) returns (r: Reply)
      requires Valid()
      modifies `slots, `nodes, `importing
      ensures Valid() && SameConfig(old(nodes), nodes) && |slots| == |old(slots)|
      ensures r == Done <==> Accepts(old(slots), args, del)
      ensures r == Refused ==> slots == old(slots) && nodes == old(nodes) && importing == old(importing)
      ensures r == Done ==> forall j :: 0 <= j < |slots| ==>
                              && slots[j] == (if j in args then (if del then None else Some(myself)) else old(slots)[j])
                              && importing[j] == (if j in args then None else old(importing)[j])
    {
      hide TableOk, MastersKnown;
      var ok, marks := CheckSlots(args, del);
      if !ok {
        return Refused;
      }
      assert forall j :: 0 <= j < |slots| && j in args ==> slots[j].Some? == del;
      for j := 0 to |slots|
        invariant Valid() && SameConfig(old(nodes), nodes) && |slots| == |old(slots)|
        invariant forall k :: 0 <= k < j ==>
                                slots[k] == if k in args then (if del then None else Some(myself)) else old(slots)[k]
        invariant forall k :: 0 <= k < j ==> importing[k] == if k in args then None else old(importing)[k]
        invariant forall k :: j <= k < |slots| ==> slots[k] == old(slots)[k] && importing[k] == old(importing)[k]
      {
        if marks[j] != 0 {
          AddDelSlot(j, del);
        }
      }
      r := Done;
    }

    /** clusterBumpConfigEpochWithoutConsensus: nothing happens where this node already holds the highest epoch it
        knows of, unless that is zero; otherwise it takes the next epoch. */
    method BumpConfigEpoch() returns (ok: bool)
      requires Valid()
      modifies `nodes, `currentEpoch
      ensures Valid() && SameBut(old(nodes), nodes, myself) && nodes[myself].role == old(nodes)[myself].role
      ensures ok <==> Bumps(old(nodes), old(currentEpoch), myself)
      ensures currentEpoch == (if ok then old(currentEpoch) + 1 else old(currentEpoch))
      ensures nodes[myself].configEpoch == if ok then currentEpoch else old(nodes)[myself].configEpoch
    {
      hide TableOk, MastersKnown, Bumps, KnownEpochs, IsMaxEpoch;
      var maxEpoch := GetMaxEpoch();
      BumpsIs(nodes, currentEpoch, myself, maxEpoch);
      ok := MayBump(nodes[myself].configEpoch, maxEpoch);
      if ok {
        currentEpoch := currentEpoch + 1;
        MasterKnown(nodes, myself);
        ConfigKeepsTable(slots, nodes, myself, nodes[myself].(configEpoch := currentEpoch));
        nodes := nodes[myself := nodes[myself].(configEpoch := currentEpoch)];
      }
    }

    /** clusterGetMaxEpoch over the known nodes. */
    method GetMaxEpoch() returns (max: nat)
      ensures IsMaxEpoch(max, currentEpoch, KnownEpochs(nodes))
    {
      max := 0;
      var left := nodes.Keys;
      while left != {}
        invariant left <= nodes.Keys
        invariant forall x :: x in nodes && x !in left ==> nodes[x].configEpoch <= max
        invariant max == 0 || exists x :: x in nodes && nodes[x].configEpoch == max
        decreases left
      {
        var x :| x in left;
        left := left - {x};
        if nodes[x].configEpoch > max {
          max := nodes[x].configEpoch;
        }
      }
      if max < currentEpoch {
        max := currentEpoch;
      }
    }

    /** CLUSTER SETSLOT j NODE id: bumps the configEpoch of this node when it closes the
        import of a slot. A slave, an unknown node and a slot that still holds keys are refused. */
    method SetSlotNode(j: int, id: Id) returns (r: Reply)
      requires Valid()
      modifies `slots, `nodes, `importing, `migrating, `currentEpoch
      ensures Valid()
      ensures r == Refused <==>
              || old(nodes)[myself].role.Slave? || !(0 <= j < |old(slots)|) || id !in old(nodes)
              || (old(slots)[j] == Some(myself) && id != myself && keys[j] != 0)
      ensures r == Refused ==>
                slots == old(slots) && nodes == old(nodes) && importing == old(importing) && migrating == old(migrating)
      ensures r == Done ==>
                && slots == old(slots)[j := Some(id)]
                && migrating == old(migrating)[j := if keys[j] == 0 then None else old(migrating)[j]]
                && importing == old(importing)[j := if id == myself then None else old(importing)[j]]
                && nodes.Keys == old(nodes).Keys
                && nodes[myself].configEpoch ==
                   if id == myself && old(importing)[j].Some? && Bumps(old(nodes), old(currentEpoch), myself)
                   then old(currentEpoch) + 1 else old(nodes)[myself].configEpoch
      ensures SameBut(old(nodes), nodes, myself) && nodes[myself].role == old(nodes)[myself].role
      ensures currentEpoch == if r == Done && id == myself && old(importing)[j].Some? &&
                                 Bumps(old(nodes), old(currentEpoch), myself)
                              then old(currentEpoch) + 1 else old(currentEpoch)
    {
      hide TableOk, MastersKnown, Bumps;
      if nodes[myself].role.Slave? || j < 0 || |slots| <= j || id !in nodes {
        return Refused;
      }
      if slots[j] == Some(myself) && id != myself && keys[j] != 0 {
        return Refused;
      }
      if keys[j] == 0 && migrating[j].Some? {
        migrating := migrating[j := None];
      }
      if id == myself && importing[j].Some? {
        var bumped := BumpConfigEpoch();
        importing := importing[j := None];
      }
      Rebind(id, j);
      r := Done;
    }

    /** What the command leaves as the owners of the slots. */
    ghost function OwnersAfter(c: Command): Owners
      reads this
      requires myself in nodes && |importing| == |slots| == |keys|
    {
      match c
      case Add(id, j) => if id in nodes && j < |slots| && slots[j].None? then slots[j := Some(id)] else slots
      case Del(j) => if j < |slots| then slots[j := None] else slots
      case DelAll(id) => if id in nodes then Handed(slots, id, None) else slots
      case Move(id, j) => if id in nodes && j < |slots| then slots[j := Some(id)] else slots
      case Promote =>
        var role := nodes[myself].role;
        if role.Slave? && role.of.Some? then Handed(slots, role.of.value, Some(myself)) else slots
      case Forget(id) => if id in nodes && id != myself then Handed(slots, id, None) else slots
      case AddSlots(args) => if Accepts(slots, args, false) then Filled(slots, args, Some(myself)) else slots
      case DelSlots(args) => if Accepts(slots, args, true) then Filled(slots, args, None) else slots
      case SetNode(j, id) =>
        if || nodes[myself].role.Slave? || !(0 <= j < |slots|) || id !in nodes
           || (slots[j] == Some(myself) && id != myself && keys[j] != 0) then slots
        else slots[j := Some(id)]
      case Learn(sender, epoch, claimed) =>
        if && sender in nodes && sender != myself && 8 * |claimed| == |slots|
           && nodes[myself].role != Slave(None) then Rebound(slots, importing, nodes, sender, epoch, claimed)
        else slots
    }

    /** One command, ignored where it names an unknown node or slot. */
    method Execute(c: Command)
      requires Valid()
      modifies `slots, `nodes, `importing, `migrating, `keys, `currentEpoch
      ensures Valid() && slots == old(OwnersAfter(c))
    {
      hide TableOk, MastersKnown, Rebound, Accepts, Handed;
      match c {
        case Add(id, j) => if id in nodes && j < |slots| { var ok := AddSlot(id, j); }
        case Del(j) => if j < |slots| { var ok := DelSlot(j); }
        case DelAll(id) => if id in nodes { DelNodeSlots(id); }
        case Move(id, j) => if id in nodes && j < |slots| { Rebind(id, j); }
        case Promote => ReplaceYourMaster();
        case Forget(id) => if id in nodes && id != myself { DelNode(id); }
        case AddSlots(args) => var r := AddDelSlots(args, false);
        case DelSlots(args) => var r := AddDelSlots(args, true);
        case SetNode(slot, id) => var r := SetSlotNode(slot, id);
        case Learn(sender, epoch, claimed) =>
          if sender in nodes && 8 * |claimed| == |slots| && !(nodes[myself].role == Slave(None)) {
            var ok := UpdateSlotsConfigWith(sender, epoch, claimed);
          }
      }
    }

    /** After any sequence of slot commands every bitmap and count agrees with the slot table. */
    method Run(commands: seq<Command>)
      requires Valid()
      modifies `slots, `nodes, `importing, `migrating, `keys, `currentEpoch
      ensures Valid()
      ensures forall x :: x in nodes ==> 8 * |nodes[x].bits| == |slots|
      ensures forall x, j: nat :: x in nodes && j < |slots| ==> (TestBit(nodes[x].bits, j) <==> slots[j] == Some(x))
      ensures forall x :: x in nodes ==> nodes[x].numslots == |Owned(slots, x)|
    {
      for k := 0 to |commands|
        invariant Valid()
      {
        Execute(commands[k]);
      }
      assert forall x :: x in nodes ==> RecordOk(slots, x, nodes[x]);
    }
  }
}
