/** The root's registry of mesh nodes: a linked list of addresses and versions (node_dev_list.c). */
module DeviceList {
  import opened AddressList
  import opened Wrappers

  type Version = v: seq<char> | |v| <= 16

  datatype Entry = Entry(mac: Addr, version: Version)

  /** Position of the first entry for mac; the length if there is none. */
  function Index(list: seq<Entry>, mac: Addr): (i: nat)
    ensures i <= |list| && (i < |list| ==> list[i].mac == mac)
    ensures forall j :: 0 <= j < i ==> list[j].mac != mac
  {
    if list == [] || list[0].mac == mac then 0 else 1 + Index(list[1..], mac)
  }

  function Without<T>(s: seq<T>, i: nat): seq<T> {
    if i < |s| then s[..i] + s[i + 1..] else s
  }

  function Put(list: seq<Entry>, mac: Addr, version: Option<Version>, junk: Version): seq<Entry> {
    var i := Index(list, mac);
    if i == |list| then list + [Entry(mac, if version.Some? then version.value else junk)]
    else if version.Some? then list[i := Entry(mac, version.value)]
    else list
  }

  function Del(list: seq<Entry>, mac: Addr): seq<Entry> {
    Without(list, Index(list, mac))
  }

  // ----- a list as a map

  ghost predicate Unique(list: seq<Entry>) {
    forall i, j :: 0 <= i < j < |list| ==> list[i].mac != list[j].mac
  }

  /** The version registered for an address. */
  function Lookup(list: seq<Entry>, mac: Addr): Option<Version> {
    var i := Index(list, mac);
    if i < |list| then Some(list[i].version) else None
  }

  lemma LookupAt(list: seq<Entry>, i: nat)
    requires Unique(list) && i < |list|
    ensures Index(list, list[i].mac) == i && Lookup(list, list[i].mac) == Some(list[i].version)
  {
  }

  /** Adding updates the registry at one address, deleting removes one; addresses stay unique. Without a
      version a registered node keeps its own, and a new one has what its memory holds. */
  lemma PutIsUpdate(list: seq<Entry>, mac: Addr, version: Option<Version>, junk: Version, a: Addr)
    requires Unique(list)
    ensures Unique(Put(list, mac, version, junk))
    ensures Lookup(Put(list, mac, version, junk), a)
         == if a != mac then Lookup(list, a)
            else if version.Some? then version
            else if Lookup(list, mac).Some? then Lookup(list, mac)
            else Some(junk)
  {
    hide Index;
    var t := Put(list, mac, version, junk);
    var i, k := Index(list, mac), Index(list, a);
    assert i < |t| && t[i].mac == mac && forall j :: 0 <= j < |list| && j != i ==> t[j] == list[j];
    if a == mac {
      LookupAt(t, i);
    } else if k < |list| {
      LookupAt(t, k);
      LookupAt(list, k);
    }
  }

  lemma DelIsRemoval(list: seq<Entry>, mac: Addr, a: Addr)
    requires Unique(list)
    ensures Unique(Del(list, mac))
    ensures Lookup(Del(list, mac), a) == if a == mac then None else Lookup(list, a)
  {
    hide Index;
    var t := Del(list, mac);
    var i, k := Index(list, mac), Index(list, a);
    assert forall j :: 0 <= j < |t| ==> t[j] == list[if j < i then j else j + 1];
    if a != mac && k < |list| {
      assert t[if k < i then k else k - 1] == list[k];
      LookupAt(t, if k < i then k else k - 1);
    }
  }

  // ----- the linked list

  class Node {
    var next: Node?
    const mac: Addr
    var version: Version

    constructor (mac: Addr, version: Version)
      ensures this.mac == mac && this.version == version && next == null
    {
      this.mac, this.version, next := mac, version, null;
    }

    ghost function Value(): Entry
      reads this
    {
      Entry(mac, version)
    }
  }

  ghost function Values(nodes: seq<Node>): (s: seq<Entry>)
    reads nodes
    ensures |s| == |nodes|
  {
    seq(|nodes|, i requires 0 <= i < |nodes| reads nodes => nodes[i].Value())
  }

  /** Outcomes of adding: ENOMEM for the first node, -1 for a later one. */
  const ENOMEM := 12

  class Registry {
    var head: Node?
    ghost var nodes: seq<Node>

    ghost predicate Linked(i: nat)
      requires i < |nodes|
      reads this, nodes
    {
      nodes[i].next == if i + 1 < |nodes| then nodes[i + 1] else null
    }

    ghost predicate Valid()
      reads this, nodes
    {
      && (head == if nodes == [] then null else nodes[0])
      && (forall i: nat :: i < |nodes| ==> Linked(i))
      && (forall i, j :: 0 <= i < j < |nodes| ==> nodes[i] != nodes[j])
      && Unique(Model())
    }

    ghost function Model(): (s: seq<Entry>)
      reads this, nodes
      ensures |s| == |nodes|
    {
      Values(nodes)
    }

    constructor ()
      ensures Valid() && nodes == []
    {
      head, nodes := null, [];
    }

    /** check_node_is_exist. */
    method Exists(mac: Addr) returns (found: bool)
      requires Valid()
      ensures found == Lookup(Model(), mac).Some?
    {
      var cur := head;
      ghost var i := 0;
      while cur != null
        invariant i <= |nodes| && cur == (if i < |nodes| then nodes[i] else null)
        invariant forall j :: 0 <= j < i ==> Model()[j].mac != mac
        decreases |nodes| - i
      {
        assert Linked(i) && Model()[i] == cur.Value();
        if cur.mac == mac {
          IndexFrom(Model(), mac, i);
          return true;
        }
        cur := cur.next;
        i := i + 1;
      }
      return false;
    }

    /** root_do_child_offline: the routing table, taken as given, is copied behind the room for
        addresses; every node not found there is deleted and its address put into the message. */
    method OfflineSweep(table: seq<Addr>, slots: array<Addr>) returns (removed: nat, ghost before: seq<Addr>)
      requires Valid() && slots.Length == PACKET_ROOM && REPORT_ROOM + |table| <= PACKET_ROOM && |nodes| <= PACKET_ROOM
      modifies this, nodes, slots
      ensures Valid() && |before| == PACKET_ROOM && PacketOf(before, table, [])
      ensures Swept(Model(), slots[..], removed) == Sweep(old(Model()), before, |table|, 0)
    {
      hide Sweep;
      forall t | 0 <= t < |table| {
        slots[REPORT_ROOM + t] := table[t];
      }
      before := slots[..];
      removed := SweepAll(slots, |table|);
    }

    ghost predicate Among(mine: set<Node>)
      reads this
    {
      forall j :: 0 <= j < |nodes| ==> nodes[j] in mine
    }

    /** The sweep of list has come to the node at position at.i. */
    ghost predicate Sweeping(at: Place, next: Node?, slots: seq<Addr>, removed: nat, mine: set<Node>)
      reads this, nodes
    {
      && Valid() && Among(mine) && at.i <= |nodes| && next == (if at.i < |nodes| then nodes[at.i] else null)
      && Midway(at.list, at.before, at.size, at.k, at.i, slots, removed, Model())
    }

    /** The sweep's loop over the list. */
    method SweepAll(slots: array<Addr>, size: nat) returns (removed: nat)
      requires Valid() && slots.Length == PACKET_ROOM && REPORT_ROOM + size <= PACKET_ROOM && |nodes| <= PACKET_ROOM
      modifies this, nodes, slots
      ensures Valid() && Swept(Model(), slots[..], removed) == Sweep(old(Model()), old(slots[..]), size, 0)
    {
      var next := head;
      removed := 0;
      ghost var at, mine := Place(Model(), slots[..], size, 0, 0), set n | n in nodes;
      MidwayStart(at.list, at.before, size);
      assert Sweeping(at, next, slots[..], removed, mine);
      while next != null
        invariant at.list == old(Model()) && at.before == old(slots[..]) && at.size == size
        invariant Sweeping(at, next, slots[..], removed, mine)
        decreases |at.list| - at.k
      {
        hide Sweeping;
        next, removed, at := SweepOne(next, slots, size, removed, at, mine);
      }
      MidwayEnd(at.list, at.before, size, at.k, at.i, slots[..], removed, Model());
    }

    /** One pass of the sweep's loop. */
    method SweepOne(cur: Node, slots: array<Addr>, size: nat, removed: nat, ghost at: Place, ghost mine: set<Node>)
      returns (next: Node?, newRemoved: nat, ghost later: Place)
      requires slots.Length == PACKET_ROOM && Sweeping(at, cur, slots[..], removed, mine) && at.size == size
      modifies this, mine, slots
      ensures later.list == at.list && later.before == at.before && later.size == at.size && at.k < later.k <= |at.list|
      ensures Sweeping(later, next, slots[..], newRemoved, mine)
    {
      hide Index, Midway;
      MidwayFits(at.list, at.before, size, at.k, at.i, slots[..], removed, Model());
      MidwayNext(at.list, at.before, size, at.k, at.i, slots[..], removed, Model());
      assert Linked(at.i) && Model()[at.i] == cur.Value();
      newRemoved, later := removed, at.(k := at.k + 1, i := at.i + 1);
      var online := InTable(cur.mac, slots, size);
      next := cur.next;
      if !online {
        slots[removed] := cur.mac;
        LookupAt(Model(), at.i);
        Delete(cur.mac);
        newRemoved, later := removed + 1, at.(k := at.k + 1);
      }
    }

    /** The scan of the routing table for one address. */
    method InTable(mac: Addr, slots: array<Addr>, size: nat) returns (online: bool)
      requires REPORT_ROOM + size <= slots.Length
      ensures online == (mac in slots[..][REPORT_ROOM..REPORT_ROOM + size])
    {
      online := false;
      var j := 0;
      while j < size && !online
        invariant j <= size && online == (mac in slots[..][REPORT_ROOM..REPORT_ROOM + j])
      {
        assert slots[..][REPORT_ROOM..REPORT_ROOM + j + 1]
            == slots[..][REPORT_ROOM..REPORT_ROOM + j] + [slots[REPORT_ROOM + j]];
        online := mac == slots[REPORT_ROOM + j];
        j := j + 1;
      }
    }

    /** del_node_from_nodedev_list. */
    method Delete(mac: Addr)
      requires Valid()
      modifies this, nodes
      ensures Valid() && Model() == Del(old(Model()), mac)
      ensures nodes == Without(old(nodes), Index(old(Model()), mac))
    {
      hide Index, Unique, Lookup;
      var cur := head;
      var pre: Node? := null;
      ghost var i := 0;
      while cur != null
        invariant i <= |nodes| && cur == (if i < |nodes| then nodes[i] else null)
        invariant pre == if i == 0 then null else nodes[i - 1]
        invariant forall j :: 0 <= j < i ==> Model()[j].mac != mac
        decreases |nodes| - i
      {
        assert Linked(i) && Model()[i] == cur.Value();
        if cur.mac == mac {
          IndexFrom(Model(), mac, i);
          DelIsRemoval(Model(), mac, mac);
          if pre == null {
            head := cur.next;
          } else {
            pre.next := cur.next;
          }
          nodes := nodes[..i] + nodes[i + 1..];
          Relinked(i);
          return;
        }
        pre := cur;
        cur := cur.next;
        i := i + 1;
      }
      IndexFrom(Model(), mac, i);
    }

    /** add_newnode_to_nodedev_list. alloc: whether memory is to be had; junk: what a new node's version
        holds when none is given. A version is given for every node but the first. */
    method Add(mac: Addr, version: Option<Version>, alloc: bool, junk: Version) returns (ret: int)
      requires Valid() && (version.None? ==> nodes == [] || Lookup(Model(), mac).Some?)
      modifies this, nodes
      ensures Valid()
      ensures ret == 0 <==> alloc || Lookup(old(Model()), mac).Some?
      ensures ret != 0 ==> ret == if old(nodes) == [] then ENOMEM else -1
      ensures Model() == if ret == 0 then Put(old(Model()), mac, version, junk) else old(Model())
    {
      if head == null {
        if !alloc {
          return ENOMEM;
        }
        head := new Node(mac, if version.Some? then version.value else junk);
        nodes := [head];
        assert Linked(0);
        return 0;
      }
      hide Index, Unique;
      var cur := head;
      var pre := head;
      ghost var i := 0;
      while cur != null
        invariant i <= |nodes| && cur == (if i < |nodes| then nodes[i] else null)
        invariant pre == if i == 0 then head else nodes[i - 1]
        invariant forall j :: 0 <= j < i ==> Model()[j].mac != mac
        decreases |nodes| - i
      {
        assert Linked(i) && Model()[i] == cur.Value();
        if cur.mac == mac {
          IndexFrom(Model(), mac, i);
          if version.Some? {
            cur.version := version.value;
          }
          Updated(i);
          return 0;
        }
        pre := cur;
        cur := cur.next;
        i := i + 1;
      }
      IndexFrom(Model(), mac, i);
      if !alloc {
        return -1;
      }
      var added := new Node(mac, version.value);
      pre.next := added;
      nodes := nodes + [added];
      Appended(added);
      ret := 0;
    }

    twostate lemma Updated(i: nat)
      requires old(Valid()) && i < |nodes| && nodes == old(nodes) && head == old(head)
      requires forall k :: 0 <= k < |nodes| && k != i ==> unchanged(nodes[k])
      requires nodes[i].next == old(nodes[i].next)
      ensures Valid() && Model() == old(Model())[i := nodes[i].Value()]
    {
      forall k: nat | k < |nodes|
        ensures Linked(k) && Model()[k] == old(Model())[i := nodes[i].Value()][k]
        ensures Model()[k].mac == old(Model())[k].mac
      {
        assert old(Linked(k)) && old(Model())[k] == old(nodes[k].Value());
      }
    }

    twostate lemma Appended(new added: Node)
      requires old(Valid()) && old(nodes) != [] && nodes == old(nodes) + [added] && head == old(head)
      requires added !in old(nodes) && added.next == null
      requires forall k :: 0 <= k < |old(nodes)| - 1 ==> unchanged(old(nodes)[k])
      requires nodes[|nodes| - 2].next == added && nodes[|nodes| - 2].version == old(nodes[|nodes| - 1].version)
      requires Lookup(old(Model()), added.mac).None?
      ensures Valid() && Model() == old(Model()) + [added.Value()]
    {
      forall k: nat | k < |nodes|
        ensures Linked(k) && Model()[k] == (old(Model()) + [added.Value()])[k]
      {
        assert k < |old(nodes)| ==> old(Linked(k));
      }
    }

    twostate lemma Relinked(i: nat)
      requires old(Valid()) && i < old(|nodes|)
      requires nodes == old(nodes)[..i] + old(nodes)[i + 1..]
      requires forall k :: 0 <= k < |old(nodes)| && k != i - 1 ==> unchanged(old(nodes)[k])
      requires i > 0 ==> nodes[i - 1].next == old(nodes[i].next) && nodes[i - 1].version == old(nodes[i - 1].version)
      ensures forall k: nat :: k < |nodes| ==> Linked(k)
      ensures forall k, j :: 0 <= k < j < |nodes| ==> nodes[k] != nodes[j]
      ensures Model() == Without(old(Model()), i)
      ensures i == 0 ==> old(nodes[0].next) == if nodes == [] then null else nodes[0]
    {
      assert old(Linked(i));
      forall k: nat | k < |nodes|
        ensures Linked(k) && Model()[k] == old(Model())[if k < i then k else k + 1]
      {
        assert old(Linked(if k < i then k else k + 1));
      }
    }
  }

  lemma IndexFrom(list: seq<Entry>, mac: Addr, i: nat)
    requires i <= |list| && (forall j :: 0 <= j < i ==> list[j].mac != mac) && (i < |list| ==> list[i].mac == mac)
    ensures Index(list, mac) == i
  {
    var k := Index(list, mac);
    assert k < |list| ==> list[k].mac == mac;
  }

  // ----- the offline sweep

  /** Addresses the unregister message has room for, and those that fit between its start and the end
      of the packet. The routing table is kept right behind the room for addresses. */
  const REPORT_ROOM := 20
  const PACKET_ROOM := 236

  datatype Swept = Swept(kept: seq<Entry>, slots: seq<Addr>, removed: nat)

  /** The sweep over the entries in rest: those not in the table are deleted, and their addresses
      written one after another to the packet. */
  function Sweep(rest: seq<Entry>, slots: seq<Addr>, size: nat, removed: nat): (r: Swept)
    requires REPORT_ROOM + size <= |slots| && removed + |rest| <= |slots|
    ensures |r.slots| == |slots| && removed <= r.removed <= removed + |rest|
  {
    if rest == [] then Swept([], slots, removed)
    else if rest[0].mac in slots[REPORT_ROOM..REPORT_ROOM + size] then
      var r := Sweep(rest[1..], slots, size, removed);
      r.(kept := [rest[0]] + r.kept)
    else Sweep(rest[1..], slots[removed := rest[0].mac], size, removed + 1)
  }

  ghost predicate Resumes(total: Swept, kept: seq<Entry>, r: Swept) {
    total.kept == kept + r.kept && total.slots == r.slots && total.removed == r.removed
  }

  lemma SweepUnfold(rest: seq<Entry>, slots: seq<Addr>, size: nat, removed: nat)
    requires REPORT_ROOM + size <= |slots| && removed + |rest| <= |slots|
    ensures rest == [] ==> Sweep(rest, slots, size, removed) == Swept([], slots, removed)
    ensures rest != [] && rest[0].mac in slots[REPORT_ROOM..REPORT_ROOM + size] ==>
      Resumes(Sweep(rest, slots, size, removed), [rest[0]], Sweep(rest[1..], slots, size, removed))
    ensures rest != [] && rest[0].mac !in slots[REPORT_ROOM..REPORT_ROOM + size] ==>
      Sweep(rest, slots, size, removed) == Sweep(rest[1..], slots[removed := rest[0].mac], size, removed + 1)
  {
  }

  /** How far a sweep of list has come. */
  datatype Place = Place(list: seq<Entry>, before: seq<Addr>, size: nat, k: nat, i: nat)

  /** The sweep after k of the entries: i of them kept, and what is left will do the rest. */
  ghost predicate Midway(list: seq<Entry>, before: seq<Addr>, size: nat, k: nat, i: nat, slots: seq<Addr>,
                         removed: nat, model: seq<Entry>) {
    && k <= |list| <= PACKET_ROOM && |slots| == |before| == PACKET_ROOM && REPORT_ROOM + size <= PACKET_ROOM
    && removed + |list| - k <= PACKET_ROOM && i <= |model| && model[i..] == list[k..]
    && Resumes(Sweep(list, before, size, 0), model[..i], Sweep(list[k..], slots, size, removed))
  }

  lemma MidwayStart(list: seq<Entry>, before: seq<Addr>, size: nat)
    requires |list| <= PACKET_ROOM && |before| == PACKET_ROOM && REPORT_ROOM + size <= PACKET_ROOM
    ensures Midway(list, before, size, 0, 0, before, 0, list)
  {
    hide Sweep;
    assert list[0..] == list;
  }

  lemma MidwayFits(list: seq<Entry>, before: seq<Addr>, size: nat, k: nat, i: nat, slots: seq<Addr>, removed: nat,
                   model: seq<Entry>)
    requires Midway(list, before, size, k, i, slots, removed, model) && i < |model|
    ensures k < |list| && removed < PACKET_ROOM
  {
    hide Sweep;
    assert |model[i..]| == |list[k..]|;
  }

  lemma MidwayNext(list: seq<Entry>, before: seq<Addr>, size: nat, k: nat, i: nat, slots: seq<Addr>, removed: nat,
                   model: seq<Entry>)
    requires Midway(list, before, size, k, i, slots, removed, model) && i < |model|
    ensures REPORT_ROOM + size <= |slots| && removed < |slots|
    ensures model[i].mac in slots[REPORT_ROOM..REPORT_ROOM + size] ==>
      Midway(list, before, size, k + 1, i + 1, slots, removed, model)
    ensures model[i].mac !in slots[REPORT_ROOM..REPORT_ROOM + size] ==>
      Midway(list, before, size, k + 1, i, slots[removed := model[i].mac], removed + 1, Without(model, i))
  {
    hide Sweep;
    MidwayFits(list, before, size, k, i, slots, removed, model);
    SweepUnfold(list[k..], slots, size, removed);
    assert model[i] == model[i..][0] == list[k..][0];
    assert list[k..][1..] == list[k + 1..] && model[i..][1..] == model[i + 1..];
    assert model[..i + 1] == model[..i] + [model[i]];
    var shorter := Without(model, i);
    assert shorter[..i] == model[..i] && shorter[i..] == model[i + 1..];
  }

  lemma MidwayEnd(list: seq<Entry>, before: seq<Addr>, size: nat, k: nat, i: nat, slots: seq<Addr>, removed: nat,
                  model: seq<Entry>)
    requires Midway(list, before, size, k, i, slots, removed, model) && i == |model|
    ensures REPORT_ROOM + size <= |before| && |list| <= |before|
    ensures Swept(model, slots, removed) == Sweep(list, before, size, 0)
  {
    hide Sweep;
    SweepUnfold(list[k..], slots, size, removed);
    assert model[..i] == model && model[i..] == [];
  }

  /** The entries that are, or are not, in the routing table. */
  function Online(list: seq<Entry>, table: seq<Addr>): seq<Entry> {
    if list == [] then []
    else (if list[0].mac in table then [list[0]] else []) + Online(list[1..], table)
  }

  function Offline(list: seq<Entry>, table: seq<Addr>): (r: seq<Addr>)
    ensures |r| <= |list|
  {
    if list == [] then []
    else (if list[0].mac in table then [] else [list[0].mac]) + Offline(list[1..], table)
  }

  /** No entry's last place in the table is overwritten before the entry is looked up: place t is
      overwritten by the (REPORT_ROOM + t + 1)-th removal. */
  ghost predicate Intact(rest: seq<Entry>, table: seq<Addr>, removed: nat) {
    rest == [] ||
    if rest[0].mac in table then
      rest[0].mac in Behind(table, removed) && Intact(rest[1..], table, removed)
    else Intact(rest[1..], table, removed + 1)
  }

  /** The part of the table not overwritten by removed removals. */
  function Behind(table: seq<Addr>, removed: nat): seq<Addr> {
    if removed <= REPORT_ROOM then table
    else if removed - REPORT_ROOM <= |table| then table[removed - REPORT_ROOM..] else []
  }

  /** The packet after some removals: their addresses, then what is left of the table. */
  ghost predicate PacketOf(slots: seq<Addr>, table: seq<Addr>, gone: seq<Addr>) {
    && REPORT_ROOM + |table| <= |slots| && |gone| <= |slots| && slots[..|gone|] == gone
    && forall t :: 0 <= t < |table| && |gone| <= REPORT_ROOM + t ==> slots[REPORT_ROOM + t] == table[t]
  }

  ghost predicate NoneOf(rest: seq<Entry>, gone: seq<Addr>) {
    forall k :: 0 <= k < |rest| ==> rest[k].mac !in gone
  }

  /** An entry not yet removed is found in the packet exactly if it is in what is left of the table. */
  lemma InPacket(slots: seq<Addr>, table: seq<Addr>, gone: seq<Addr>, mac: Addr)
    requires PacketOf(slots, table, gone) && mac !in gone
    ensures mac in slots[REPORT_ROOM..REPORT_ROOM + |table|] <==> mac in Behind(table, |gone|)
  {
    FitsIn(slots, table, gone);
    if mac in slots[REPORT_ROOM..REPORT_ROOM + |table|] {
      SeenBehind(slots, table, gone, mac);
    }
    if mac in Behind(table, |gone|) {
      BehindSeen(slots, table, gone, mac);
    }
  }

  lemma SeenBehind(slots: seq<Addr>, table: seq<Addr>, gone: seq<Addr>, mac: Addr)
    requires PacketOf(slots, table, gone) && mac !in gone && mac in slots[REPORT_ROOM..REPORT_ROOM + |table|]
    ensures mac in Behind(table, |gone|)
  {
    FitsIn(slots, table, gone);
    hide PacketOf, Behind;
    var seen := slots[REPORT_ROOM..REPORT_ROOM + |table|];
    var t :| 0 <= t < |table| && seen[t] == mac;
    SeenPlace(slots, table, gone, t);
  }

  lemma BehindSeen(slots: seq<Addr>, table: seq<Addr>, gone: seq<Addr>, mac: Addr)
    requires PacketOf(slots, table, gone) && mac in Behind(table, |gone|)
    ensures mac in slots[REPORT_ROOM..REPORT_ROOM + |table|]
  {
    FitsIn(slots, table, gone);
    hide PacketOf, Behind;
    var t :| 0 <= t < |Behind(table, |gone|)| && Behind(table, |gone|)[t] == mac;
    BehindPlace(slots, table, gone, t);
    var drop := if |gone| <= REPORT_ROOM then 0 else |gone| - REPORT_ROOM;
    assert slots[REPORT_ROOM..REPORT_ROOM + |table|][drop + t] == mac;
  }

  lemma BehindPlace(slots: seq<Addr>, table: seq<Addr>, gone: seq<Addr>, t: nat)
    requires PacketOf(slots, table, gone) && t < |Behind(table, |gone|)|
    ensures var drop := if |gone| <= REPORT_ROOM then 0 else |gone| - REPORT_ROOM;
      drop + t < |table| && slots[REPORT_ROOM + drop + t] == Behind(table, |gone|)[t]
  {
    var drop := if |gone| <= REPORT_ROOM then 0 else |gone| - REPORT_ROOM;
    assert Behind(table, |gone|)[t] == table[drop + t];
  }

  lemma SeenPlace(slots: seq<Addr>, table: seq<Addr>, gone: seq<Addr>, t: nat)
    requires PacketOf(slots, table, gone) && t < |table| && slots[REPORT_ROOM + t] !in gone
    ensures slots[REPORT_ROOM + t] in Behind(table, |gone|)
  {
    var drop := if |gone| <= REPORT_ROOM then 0 else |gone| - REPORT_ROOM;
    assert forall k :: 0 <= k < |gone| ==> slots[k] == gone[k];
    assert Behind(table, |gone|)[t - drop] == table[t];
  }

  /** The sweep keeps exactly the entries in the routing table, in order, and reports exactly the others,
      if and only if none of the entries in the table is overwritten too early. */
  lemma {:induction false} SweepExactIff(rest: seq<Entry>, slots: seq<Addr>, table: seq<Addr>, gone: seq<Addr>)
    requires PacketOf(slots, table, gone) && |gone| + |rest| <= |slots|
    requires Unique(rest) && NoneOf(rest, gone)
    ensures SweptRight(Sweep(rest, slots, |table|, |gone|), rest, table, gone) <==> Intact(rest, table, |gone|)
    ensures Intact(rest, table, |gone|) <==> Sweep(rest, slots, |table|, |gone|).kept == Online(rest, table)
    decreases |rest|
  {
    hide PacketOf, Sweep, Behind, Online, Offline, Unique, NoneOf, SweptRight;
    FitsIn(slots, table, gone);
    SweepUnfold(rest, slots, |table|, |gone|);
    if rest != [] {
      var mac := rest[0].mac;
      TailUnique(rest, gone);
      InPacket(slots, table, gone, mac);
      if mac in slots[REPORT_ROOM..REPORT_ROOM + |table|] {
        StillInTable(slots, table, gone, mac);
        SweepExactIff(rest[1..], slots, table, gone);
        RightKept(Sweep(rest, slots, |table|, |gone|), Sweep(rest[1..], slots, |table|, |gone|), rest, table, gone);
      } else {
        var next := slots[|gone| := mac];
        if mac in table {
          LostNotOnline(rest, next, table, |gone| + 1);
          RightLost(Sweep(rest, slots, |table|, |gone|), rest, table, gone);
        } else {
          NextPacket(slots, table, gone, mac);
          SweepExactIff(rest[1..], next, table, gone + [mac]);
          RightGone(Sweep(rest, slots, |table|, |gone|), rest, table, gone);
        }
      }
    } else {
      SweptNothing(slots, table, gone);
    }
  }

  lemma RightKept(r: Swept, t: Swept, rest: seq<Entry>, table: seq<Addr>, gone: seq<Addr>)
    requires rest != [] && rest[0].mac in table && Resumes(r, [rest[0]], t)
    ensures SweptRight(r, rest, table, gone) <==> SweptRight(t, rest[1..], table, gone)
    ensures r.kept == Online(rest, table) <==> t.kept == Online(rest[1..], table)
  {
    assert r.kept[1..] == t.kept;
    assert Online(rest, table) == [rest[0]] + Online(rest[1..], table);
    assert Online(rest, table)[1..] == Online(rest[1..], table);
    assert Offline(rest, table) == Offline(rest[1..], table);
  }

  lemma RightLost(r: Swept, rest: seq<Entry>, table: seq<Addr>, gone: seq<Addr>)
    requires r.kept != Online(rest, table)
    ensures !SweptRight(r, rest, table, gone)
  {
  }

  lemma RightGone(r: Swept, rest: seq<Entry>, table: seq<Addr>, gone: seq<Addr>)
    requires rest != [] && rest[0].mac !in table
    ensures SweptRight(r, rest, table, gone) <==> SweptRight(r, rest[1..], table, gone + [rest[0].mac])
    ensures Online(rest, table) == Online(rest[1..], table)
  {
    assert gone + [rest[0].mac] + Offline(rest[1..], table) == gone + Offline(rest, table);
  }

  /** The sweep's outcome: the entries in the table stay, in order, and the packet begins with the
      addresses of all the others. */
  ghost predicate SweptRight(r: Swept, rest: seq<Entry>, table: seq<Addr>, gone: seq<Addr>) {
    r.kept == Online(rest, table) && r.removed <= |r.slots| && r.slots[..r.removed] == gone + Offline(rest, table)
  }

  lemma FitsIn(slots: seq<Addr>, table: seq<Addr>, gone: seq<Addr>)
    requires PacketOf(slots, table, gone)
    ensures REPORT_ROOM + |table| <= |slots| && |gone| <= |slots|
  {
  }

  lemma SweptNothing(slots: seq<Addr>, table: seq<Addr>, gone: seq<Addr>)
    requires PacketOf(slots, table, gone)
    ensures SweptRight(Swept([], slots, |gone|), [], table, gone) && Online([], table) == []
  {
  }

  lemma StillInTable(slots: seq<Addr>, table: seq<Addr>, gone: seq<Addr>, mac: Addr)
    requires PacketOf(slots, table, gone) && mac in Behind(table, |gone|)
    ensures mac in table
  {
  }

  lemma NextPacket(slots: seq<Addr>, table: seq<Addr>, gone: seq<Addr>, mac: Addr)
    requires PacketOf(slots, table, gone) && |gone| < |slots|
    ensures PacketOf(slots[|gone| := mac], table, gone + [mac])
  {
    assert slots[|gone| := mac][..|gone| + 1] == slots[..|gone|] + [mac];
  }

  lemma TailUnique(rest: seq<Entry>, gone: seq<Addr>)
    requires rest != [] && Unique(rest) && NoneOf(rest, gone)
    ensures Unique(rest[1..]) && NoneOf(rest[1..], gone) && NoneOf(rest[1..], gone + [rest[0].mac])
    ensures rest[0].mac !in gone
  {
    assert forall k :: 0 <= k < |rest[1..]| ==> rest[1..][k] == rest[k + 1];
  }

  /** What is removed is never kept again. */
  lemma LostNotOnline(rest: seq<Entry>, slots: seq<Addr>, table: seq<Addr>, removed: nat)
    requires rest != [] && Unique(rest) && rest[0].mac in table
    requires REPORT_ROOM + |table| <= |slots| && removed + |rest| - 1 <= |slots|
    ensures Sweep(rest[1..], slots, |table|, removed).kept != Online(rest, table)
  {
    KeptFrom(rest[1..], slots, |table|, removed);
    assert forall k :: 0 <= k < |rest[1..]| ==> rest[1..][k] == rest[k + 1];
    var kept := Sweep(rest[1..], slots, |table|, removed).kept;
    if kept != [] {
      assert kept[0] in kept && kept[0] in rest[1..];
    }
  }

  lemma {:induction false} KeptFrom(rest: seq<Entry>, slots: seq<Addr>, size: nat, removed: nat)
    requires REPORT_ROOM + size <= |slots| && removed + |rest| <= |slots|
    ensures forall e :: e in Sweep(rest, slots, size, removed).kept ==> e in rest
    decreases |rest|
  {
    if rest != [] {
      if rest[0].mac in slots[REPORT_ROOM..REPORT_ROOM + size] {
        KeptFrom(rest[1..], slots, size, removed);
      } else {
        KeptFrom(rest[1..], slots[removed := rest[0].mac], size, removed + 1);
      }
    }
  }

  /** With at most twenty removals nothing is overwritten too early. */
  lemma {:induction false} FewRemovalsIntact(rest: seq<Entry>, table: seq<Addr>, removed: nat)
    requires removed + |Offline(rest, table)| <= REPORT_ROOM
    ensures Intact(rest, table, removed)
    decreases |rest|
  {
    if rest != [] {
      FewRemovalsIntact(rest[1..], table, if rest[0].mac in table then removed else removed + 1);
    }
  }

  /** A node that is online and yet removed: the last of 22, after 21 that are not. */
  function Stale(n: nat): seq<Entry>
    requires n <= 22
  {
    seq(n, i requires 0 <= i < n => Entry(if i < 21 then i + 100 else 7, ""))
  }

  lemma OverwrittenTable(slots: seq<Addr>)
    requires |slots| == PACKET_ROOM && slots[REPORT_ROOM] == 7
    ensures Unique(Stale(22)) && Stale(22)[21] in Online(Stale(22), [7])
    ensures Sweep(Stale(22), slots, 1, 0).kept != Online(Stale(22), [7])
  {
    var list := Stale(22);
    StaleNotIntact(list, 0);
    assert PacketOf(slots, [7], []);
    SweepExactIff(list, slots, [7], []);
    OnlineHas(list, [7], 21);
  }

  lemma {:induction false} StaleNotIntact(rest: seq<Entry>, removed: nat)
    requires removed <= 21 && rest == Stale(22)[removed..]
    ensures !Intact(rest, [7], removed)
    decreases |rest|
  {
    if removed < 21 {
      assert rest[1..] == Stale(22)[removed + 1..];
      StaleNotIntact(rest[1..], removed + 1);
    }
  }

  lemma {:induction false} OnlineHas(list: seq<Entry>, table: seq<Addr>, i: nat)
    requires i < |list| && list[i].mac in table
    ensures list[i] in Online(list, table)
  {
    if i > 0 {
      OnlineHas(list[1..], table, i - 1);
    }
  }
}
