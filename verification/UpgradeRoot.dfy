/** The root's side of the upgrade (mupgrade_root.c): what each report does to the lists of
    unfinished, requested and successed nodes and to the progress array, and the loops that ask for
    status and send packets. */
module UpgradeRoot {
  import opened AddressList
  import opened Bitmap
  import N = UpgradeNode

  /** CONFIG_MUPGRADE_RETRY_COUNT. */
  const RETRY_COUNT := 10

  datatype Message = Message(src: Addr, report: N.Report)

  /** pending is request_addrs, the nodes that have not answered yet. heard is history: the epoch of
      the answer that put a node into requested. */
  datatype RootState = RootState(
    unfinished: seq<Addr>, successed: seq<Addr>, requested: seq<Addr>, pending: seq<Addr>,
    progress: Bitmap, heard: map<Addr, nat>)

  predicate Complete(r: N.Report) { r.written == r.total }

  /** A report taken from the queue before status is asked for. */
  function DrainStep(s: RootState, m: Message): RootState {
    if Complete(m.report) then
      if m.src !in s.unfinished then s
      else s.(unfinished := RemoveFirst(s.unfinished, m.src), successed := s.successed + [m.src])
    else if m.report.error == N.Stop then s.(unfinished := RemoveFirst(s.unfinished, m.src))
    else s
  }

  function ClearStep(s: RootState): RootState {
    s.(requested := [], heard := map[])
  }

  function AskStep(s: RootState): RootState {
    s.(pending := s.unfinished, progress := Filled(0xFF))
  }

  /** A report taken while waiting for answers. */
  function ResponseStep(s: RootState, m: Message): RootState {
    if m.report.error == N.Stop then
      s.(unfinished := RemoveFirst(s.unfinished, m.src), pending := RemoveFirst(s.pending, m.src))
    else if m.src !in s.pending then s
    else
      var s := s.(pending := RemoveFirst(s.pending, m.src));
      var s := if Complete(m.report) then s
               else s.(requested := s.requested + [m.src], heard := s.heard[m.src := m.report.epoch]);
      if m.report.written == 0 then s.(progress := Filled(0))
      else if Complete(m.report) then
        if m.src !in s.unfinished then s
        else s.(unfinished := RemoveFirst(s.unfinished, m.src), successed := s.successed + [m.src])
      else
        match m.report.progress
        case None => s
        case Some(b) => s.(progress := And(s.progress, b))
  }

  /** A report taken between packets. A completed node that is not in requested leaves unfinished
      without joining successed. */
  function SendDrainStep(s: RootState, m: Message): RootState {
    if Complete(m.report) then
      if m.src !in s.unfinished then s
      else
        var s := s.(unfinished := RemoveFirst(s.unfinished, m.src));
        if m.src !in s.requested then s
        else s.(requested := RemoveFirst(s.requested, m.src), successed := s.successed + [m.src])
    else if m.report.error == N.Stop then
      s.(unfinished := RemoveFirst(s.unfinished, m.src), requested := RemoveFirst(s.requested, m.src))
    else s
  }

  // ----- what the lists keep

  ghost predicate ListInv(s: RootState) {
    && Distinct(s.unfinished) && Distinct(s.successed) && Disjoint(s.successed, s.unfinished)
    && Distinct(s.pending)
  }

  /** The address leaves unfinished only on this node's completion or stop. */
  ghost predicate Leaves(s: RootState, t: RootState, m: Message) {
    && (forall a :: a in t.unfinished ==> a in s.unfinished)
    && (forall a :: a in s.unfinished && a !in t.unfinished ==>
          a == m.src && (Complete(m.report) || m.report.error == N.Stop))
    && (forall a :: a in t.successed && a !in s.successed ==>
          a == m.src && Complete(m.report) && a in s.unfinished && a !in t.unfinished)
    && (forall a :: a in s.successed ==> a in t.successed)
  }

  lemma DrainLists(s: RootState, m: Message)
    requires ListInv(s)
    ensures ListInv(DrainStep(s, m)) && Leaves(s, DrainStep(s, m), m)
  {
    RemoveMembers(s.unfinished, m.src);
    if m.src in s.unfinished {
      AppendMember(s.successed, m.src);
    }
  }

  lemma ResponseLists(s: RootState, m: Message)
    requires ListInv(s)
    ensures ListInv(ResponseStep(s, m)) && Leaves(s, ResponseStep(s, m), m)
  {
    RemoveMembers(s.unfinished, m.src);
    RemoveMembers(s.pending, m.src);
    if m.src in s.unfinished {
      AppendMember(s.successed, m.src);
    }
  }

  lemma SendDrainLists(s: RootState, m: Message)
    requires ListInv(s)
    ensures ListInv(SendDrainStep(s, m)) && Leaves(s, SendDrainStep(s, m), m)
  {
    RemoveMembers(s.unfinished, m.src);
    if m.src in s.unfinished {
      AppendMember(s.successed, m.src);
    }
  }

  /** The completion of an unfinished node, taken before asking, counts it as successed; taken between
      packets, exactly if it is in requested. It leaves unfinished either way. */
  lemma SendDrainJoinsIff(s: RootState, m: Message)
    requires ListInv(s) && m.src in s.unfinished && Complete(m.report)
    ensures m.src !in DrainStep(s, m).unfinished && m.src in DrainStep(s, m).successed
    ensures m.src !in SendDrainStep(s, m).unfinished
    ensures m.src in SendDrainStep(s, m).successed <==> m.src in s.requested
  {
    RemoveMembers(s.unfinished, m.src);
  }

  // ----- runs of steps

  function Drains(s: RootState, ms: seq<Message>): RootState {
    if ms == [] then s else DrainStep(Drains(s, ms[..|ms| - 1]), ms[|ms| - 1])
  }

  function Responses(s: RootState, ms: seq<Message>): RootState {
    if ms == [] then s else ResponseStep(Responses(s, ms[..|ms| - 1]), ms[|ms| - 1])
  }

  function SendDrains(s: RootState, ms: seq<Message>): RootState {
    if ms == [] then s else SendDrainStep(SendDrains(s, ms[..|ms| - 1]), ms[|ms| - 1])
  }

  predicate Full(b: Bitmap) {
    forall i :: 0 <= i < BITMAP_BYTES ==> b[i] == 0xFF
  }

  /** What nodes may report: a progress array between nothing and everything, never a full one. */
  ghost predicate Sensible(m: Message) {
    && m.report.total > 0 && m.report.written <= m.report.total
    && (0 < m.report.written < m.report.total ==> m.report.progress.Some? && !Full(m.report.progress.value))
  }

  /** Whoever is still unfinished has not answered, or has left a gap in the progress array. */
  ghost predicate Accounted(s: RootState) {
    && (forall a :: a in s.pending ==> a in s.unfinished)
    && (forall a :: a in s.unfinished ==> a in s.pending || !Full(s.progress))
  }

  lemma AndNotFull(a: Bitmap, b: Bitmap)
    requires !Full(a) || !Full(b)
    ensures !Full(And(a, b))
  {
    var i :| 0 <= i < BITMAP_BYTES && (a[i] != 0xFF || b[i] != 0xFF);
    AndAt(a, b, i);
    AndOnes(a[i], b[i]);
  }

  lemma AndOnes(x: bv8, y: bv8)
    requires x != 0xFF || y != 0xFF
    ensures x & y != 0xFF
  {
  }

  lemma ZeroNotFull()
    ensures !Full(Filled(0))
  {
    assert Filled(0)[0] == 0;
  }

  lemma ResponseAccounts(s: RootState, m: Message)
    requires ListInv(s) && Accounted(s) && Sensible(m)
    ensures Accounted(ResponseStep(s, m))
  {
    hide Full, And, Filled;
    RemoveMembers(s.unfinished, m.src);
    RemoveMembers(s.pending, m.src);
    ZeroNotFull();
    if m.report.progress.Some? {
      AndFull(s.progress, m.report.progress.value);
    }
  }

  lemma AndFull(a: Bitmap, b: Bitmap)
    ensures !Full(a) || !Full(b) ==> !Full(And(a, b))
  {
    if !Full(a) || !Full(b) {
      AndNotFull(a, b);
    }
  }
}
