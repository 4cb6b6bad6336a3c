/** Pictures on their way to the server: a node cuts its picture into packets, and the root collects
    them in a row of slots until the last one comes, then sends the row on (node_task.c, router.c). */
module PictureRelay {
  import opened AddressList
  import opened Bits
  import opened Wrappers

  /** PACKET_BODY_LEN and PHOTO_PACKET_MAX_COUNT. */
  const BODY := 1424
  const MAX_PACKETS := 400

  /** Stray packets in a row that do not make the root give up. */
  const MAX_ERRORS := 10

  type Body = b: seq<byte> | |b| == BODY witness seq(BODY, _ => 0)

  /** node_pic_t: packet number from 1, how many there are, bytes used, and the body. */
  datatype Pic = Pic(count: nat, max: nat, len: nat, data: Body)

  // ----- cutting up

  function Packets(size: nat): nat {
    (size + BODY - 1) / BODY
  }

  /** Bytes of the k-th packet, counted from 0. */
  function PartEnd(size: nat, k: nat): (e: nat)
    ensures e <= size
  {
    if BODY * (k + 1) <= size then BODY * (k + 1) else size
  }

  /** pic is the k-th packet, counted from 0, of the image. */
  ghost predicate IsPart(image: seq<byte>, k: nat, pic: Pic) {
    && BODY * k <= |image| && pic.count == k + 1 && pic.max == Packets(|image|)
    && pic.len == PartEnd(|image|, k) - BODY * k <= BODY
    && pic.data[..pic.len] == image[BODY * k..BODY * k + pic.len]
  }

  ghost predicate AreParts(image: seq<byte>, pics: seq<Pic>) {
    |pics| <= Packets(|image|) && forall k :: 0 <= k < |pics| ==> IsPart(image, k, pics[k])
  }

  function Payload(pics: seq<Pic>): seq<byte> {
    if pics == [] then []
    else
      var last := pics[|pics| - 1];
      Payload(pics[..|pics| - 1]) + (if last.len <= BODY then last.data[..last.len] else [])
  }

  /** The bytes used in the packets, one after another, are the image. */
  lemma {:induction false} PayloadIsImage(image: seq<byte>, pics: seq<Pic>)
    requires AreParts(image, pics)
    ensures Payload(pics) == image[..if |pics| == 0 then 0 else PartEnd(|image|, |pics| - 1)]
    ensures |pics| == Packets(|image|) ==> Payload(pics) == image
    decreases |pics|
  {
    hide IsPart;
    if pics != [] {
      var k := |pics| - 1;
      PayloadIsImage(image, pics[..k]);
      NextPart(image, k, pics[k]);
    } else {
      assert image[..0] == [];
    }
  }

  lemma NextPart(image: seq<byte>, k: nat, pic: Pic)
    requires k < Packets(|image|) && IsPart(image, k, pic)
    ensures pic.len <= BODY
    ensures image[..PartEnd(|image|, k)] == image[..if k == 0 then 0 else PartEnd(|image|, k - 1)] + pic.data[..pic.len]
    ensures k + 1 == Packets(|image|) ==> PartEnd(|image|, k) == |image|
  {
    var e := BODY * k;
    assert k > 0 ==> PartEnd(|image|, k - 1) == e;
    assert image[..e + pic.len] == image[..e] + image[e..e + pic.len];
  }

  /** The packet a node sends from, overwritten for each part. */
  class PicBuffer {
    var count: nat
    var max: nat
    var len: nat
    const data: array<byte>

    constructor ()
      ensures fresh(data) && data.Length == BODY
    {
      data := new byte[BODY](_ => 0);
    }

    method Fill(image: seq<byte>, at: nat, n: nat)
      requires data.Length == BODY && n <= BODY && at + n <= |image|
      modifies data
      ensures data[..n] == image[at..at + n]
    {
      forall k | 0 <= k < n {
        data[k] := image[at + k];
      }
    }

    /** node_send_pic: sends the parts of a picture in order, up to one whose sending fails. failing is
        the number of that packet. */
    method SendPicture(image: seq<byte>, failing: nat) returns (sent: seq<Pic>)
      requires data.Length == BODY && 0 < |image| && Packets(|image|) < 0x1_0000
      modifies this, data
      ensures AreParts(image, sent)
      ensures |sent| == if 1 <= failing <= Packets(|image|) then failing - 1 else Packets(|image|)
    {
      var size, at := |image|, 0;
      count, max, len := 1, Packets(|image|), BODY;
      sent := [];
      while count != max
        invariant 1 <= count <= max == Packets(|image|) && len == BODY
        invariant at == BODY * (count - 1) && size == |image| - at
        invariant |sent| == count - 1 && AreParts(image, sent) && (failing == 0 || failing >= count)
        decreases max - count
      {
        Fill(image, at, BODY);
        if count == failing {
          return;
        }
        sent := sent + [Pic(count, max, len, data[..])];
        size, at, count := size - BODY, at + BODY, count + 1;
      }
      len := size;
      Fill(image, at, size);
      if count == failing {
        return;
      }
      sent := sent + [Pic(count, max, len, data[..])];
    }
  }

  /** BODY bytes of memory, from somewhere in the picture on. */
  function BodyAt(image: seq<byte>, beyond: seq<byte>, at: nat): (b: Body)
    requires at <= |image| && |beyond| >= BODY
    ensures forall n: nat :: n <= BODY && at + n <= |image| ==> b[..n] == image[at..at + n]
  {
    (image + beyond)[at..at + BODY]
  }

  /** root_send_photo: the root sends its own picture straight to the server. Every packet carries
      BODY bytes, so the last one reads on into what lies beyond the picture. */
  method RootSendPhoto(image: seq<byte>, beyond: seq<byte>, failing: nat) returns (sent: seq<Pic>)
    requires Packets(|image|) < 0x1_0000 && |beyond| >= BODY
    ensures AreParts(image, sent)
    ensures |sent| == if 1 <= failing <= Packets(|image|) then failing - 1 else Packets(|image|)
  {
    var size, at, count := |image|, 0, 1;
    var max := Packets(size);
    sent := [];
    while count < max
      invariant 1 <= count && (count <= max || (max == 0 && count == 1 && size == 0)) && max == Packets(|image|)
      invariant at == BODY * (count - 1) && size == |image| - at
      invariant |sent| == count - 1 && AreParts(image, sent) && (failing == 0 || failing >= count)
    {
      var body := BodyAt(image, beyond, at);
      if count == failing {
        return;
      }
      sent := sent + [Pic(count, max, BODY, body)];
      size, at, count := size - BODY, at + BODY, count + 1;
    }
    if size > 0 {
      var body := BodyAt(image, beyond, at);
      if count == failing {
        return;
      }
      sent := sent + [Pic(count, max, size, body)];
    }
  }

  // ----- collecting

  /** A row's slot: root_msg_t. */
  datatype Slot = Slot(addr: Addr, pic: Pic)

  /** out is what has been sent to the server. */
  datatype State = State(slots: seq<Slot>, cur: nat, started: bool, errors: nat, out: seq<seq<Slot>>)

  /** Back to the first slot, waiting for a new picture. */
  function GiveUp(s: State): State {
    s.(errors := 0, started := false, cur := 0)
  }

  /** One more packet that does not belong to the picture. */
  function Stray(s: State): State {
    if s.errors + 1 > MAX_ERRORS then GiveUp(s) else s.(errors := s.errors + 1)
  }

  /** A picture packet read into the current slot and processed; the server is connected. */
  function ReceiveStep(s: State, src: Addr, pic: Pic): (t: State)
    requires s.cur < |s.slots| == MAX_PACKETS
    ensures |t.slots| == MAX_PACKETS
  {
    var s := s.(slots := s.slots[s.cur := s.slots[s.cur].(pic := pic)]);
    if pic.max > MAX_PACKETS then Stray(s)
    else
      var s := if pic.count != 1 then s
               else s.(started := true, cur := 0, slots := s.slots[0 := s.slots[0].(addr := src)], errors := 0);
      if !s.started then s
      else if pic.count == pic.max then s.(out := s.out + [s.slots[..pic.count]], cur := 0)
      else if s.slots[0].addr == src then s.(errors := 0, cur := s.cur + 1)
      else Stray(s)
  }

  /** The root's side in place. */
  class Relay {
    const slots: array<Slot>
    var cur: nat
    var started: bool
    var errors: nat
    var out: seq<seq<Slot>>

    ghost predicate Valid()
      reads this
    {
      slots.Length == MAX_PACKETS
    }

    ghost function Model(): State
      reads this, slots
    {
      State(slots[..], cur, started, errors, out)
    }

    constructor ()
      ensures Valid() && fresh(slots) && cur == 0 && !started && errors == 0 && out == []
    {
      slots := new Slot[MAX_PACKETS](_ => Slot(0, Pic(0, 0, 0, seq(BODY, _ => 0))));
      cur, started, errors, out := 0, false, 0, [];
    }

    /** mwifi_root_read into the current slot and do_process_image_data_from_root_or_node. */
    method Receive(src: Addr, pic: Pic)
      requires Valid() && cur < MAX_PACKETS
      modifies this, slots
      ensures Valid() && Model() == ReceiveStep(old(Model()), src, pic)
    {
      slots[cur] := slots[cur].(pic := pic);
      if pic.max > MAX_PACKETS {
        errors := errors + 1;
        if errors > MAX_ERRORS {
          errors, started, cur := 0, false, 0;
        }
        return;
      }
      if pic.count == 1 {
        started, cur := true, 0;
        slots[0] := slots[0].(addr := src);
        errors := 0;
      }
      if !started {
        return;
      }
      if pic.count == pic.max {
        out := out + [slots[..pic.count]];
        cur := 0;
      } else if slots[0].addr == src {
        errors := 0;
        cur := cur + 1;
      } else {
        errors := errors + 1;
        if errors > MAX_ERRORS {
          started, cur, errors := false, 0, 0;
        }
      }
    }
  }

  // ----- a whole picture

  datatype Arrival = Arrival(src: Addr, pic: Pic)

  /** Packets of one picture numbered from 1 to their number. */
  ghost predicate Numbered(pics: seq<Pic>) {
    && 0 < |pics| <= MAX_PACKETS
    && forall k :: 0 <= k < |pics| ==> pics[k].count == k + 1 && pics[k].max == |pics|
  }

  /** A packet from another node that neither begins nor ends a picture, or one of a picture too large. */
  predicate IsStray(x: Arrival, a: Addr) {
    x.src != a && (x.pic.max > MAX_PACKETS || (x.pic.count != 1 && x.pic.count != x.pic.max))
  }

  /** The packets of a from the k-th on arrive in order, with strays between them. */
  ghost predicate Mixed(xs: seq<Arrival>, a: Addr, pics: seq<Pic>, k: nat) {
    if xs == [] then k == |pics|
    else if k < |pics| && xs[0] == Arrival(a, pics[k]) then Mixed(xs[1..], a, pics, k + 1)
    else 0 < k < |pics| && IsStray(xs[0], a) && Mixed(xs[1..], a, pics, k)
  }

  /** Never more than ten strays in a row; strays have come since the last packet of a. */
  predicate FewStrays(xs: seq<Arrival>, a: Addr, strays: nat) {
    xs == [] ||
    if xs[0].src == a then FewStrays(xs[1..], a, 0)
    else strays < MAX_ERRORS && FewStrays(xs[1..], a, strays + 1)
  }

  /** The root takes the arrivals from s to t, never writing past its last slot. */
  ghost predicate Runs(s: State, xs: seq<Arrival>, t: State)
    decreases |xs|
  {
    if xs == [] then t == s
    else s.cur < |s.slots| == MAX_PACKETS && Runs(ReceiveStep(s, xs[0].src, xs[0].pic), xs[1..], t)
  }

  /** k packets of the picture are in their slots. */
  ghost predicate Collecting(s: State, a: Addr, pics: seq<Pic>, k: nat, strays: nat) {
    && |s.slots| == MAX_PACKETS && 0 < k < |pics| <= MAX_PACKETS && s.started && s.cur == k
    && s.errors == strays <= MAX_ERRORS
    && s.slots[0].addr == a && forall j :: 0 <= j < k ==> s.slots[j].pic == pics[j]
  }

  /** The row sent on holds the picture's packets in order, and the sender's address in front. */
  ghost predicate IsRow(row: seq<Slot>, a: Addr, pics: seq<Pic>) {
    |row| == |pics| > 0 && row[0].addr == a && forall j :: 0 <= j < |pics| ==> row[j].pic == pics[j]
  }

  ghost predicate Waiting(s: State) {
    |s.slots| == MAX_PACKETS && !s.started && s.cur == 0
  }

  /** Exactly one row more has been sent, the picture's, and the cursor is back. */
  ghost predicate Forwarded(s: State, t: State, a: Addr, pics: seq<Pic>) {
    |t.out| == |s.out| + 1 && t.out[..|s.out|] == s.out && IsRow(t.out[|s.out|], a, pics) && t.cur == 0
  }

  lemma OwnPacket(s: State, a: Addr, pics: seq<Pic>, k: nat, strays: nat)
    requires Numbered(pics) && Collecting(s, a, pics, k, strays)
    ensures var t := ReceiveStep(s, a, pics[k]);
      if k + 1 == |pics| then Forwarded(s, t, a, pics) else Collecting(t, a, pics, k + 1, 0) && t.out == s.out
  {
  }

  lemma FirstPacket(s: State, a: Addr, pics: seq<Pic>)
    requires Numbered(pics) && |s.slots| == MAX_PACKETS && s.cur == 0
    ensures var t := ReceiveStep(s, a, pics[0]);
      if 1 == |pics| then Forwarded(s, t, a, pics) else Collecting(t, a, pics, 1, 0) && t.out == s.out
  {
  }

  lemma StrayPacket(s: State, a: Addr, pics: seq<Pic>, k: nat, strays: nat, x: Arrival)
    requires Numbered(pics) && Collecting(s, a, pics, k, strays) && IsStray(x, a)
    ensures var t := ReceiveStep(s, x.src, x.pic);
      && t.out == s.out
      && if strays < MAX_ERRORS then Collecting(t, a, pics, k, strays + 1) else Waiting(t)
  {
  }

  /** The rest of a picture is relayed exactly if there are never more than ten strays in a row. */
  lemma {:induction false} RestRelayed(s: State, a: Addr, pics: seq<Pic>, k: nat, strays: nat, xs: seq<Arrival>)
    returns (t: State)
    requires Numbered(pics) && Collecting(s, a, pics, k, strays) && Mixed(xs, a, pics, k)
    ensures Runs(s, xs, t)
    ensures if FewStrays(xs, a, strays) then Forwarded(s, t, a, pics) else t.out == s.out && Waiting(t)
    decreases |xs|
  {
    hide Numbered, Forwarded, ReceiveStep, IsStray;
    var u := ReceiveStep(s, xs[0].src, xs[0].pic);
    if xs[0] == Arrival(a, pics[k]) {
      OwnPacket(s, a, pics, k, strays);
      if k + 1 == |pics| {
        NothingMore(xs[1..], a, pics);
        assert FewStrays(xs[1..], a, 0);
        t := u;
      } else {
        t := RestRelayed(u, a, pics, k + 1, 0, xs[1..]);
        SameStart(s, u, t, a, pics);
      }
    } else {
      StrayPacket(s, a, pics, k, strays, xs[0]);
      StrayElsewhere(xs[0], a);
      if strays < MAX_ERRORS {
        t := RestRelayed(u, a, pics, k, strays + 1, xs[1..]);
        SameStart(s, u, t, a, pics);
      } else {
        t := RestIgnored(u, a, pics, k, xs[1..]);
      }
    }
  }

  lemma StrayElsewhere(x: Arrival, a: Addr)
    requires IsStray(x, a)
    ensures x.src != a
  {
  }

  lemma SameStart(s: State, u: State, t: State, a: Addr, pics: seq<Pic>)
    requires s.out == u.out
    ensures Forwarded(u, t, a, pics) <==> Forwarded(s, t, a, pics)
  {
  }

  lemma NothingMore(xs: seq<Arrival>, a: Addr, pics: seq<Pic>)
    requires Mixed(xs, a, pics, |pics|)
    ensures xs == []
  {
  }

  /** Having given up, the root drops what is left of the picture. */
  lemma {:induction false} RestIgnored(s: State, a: Addr, pics: seq<Pic>, k: nat, xs: seq<Arrival>) returns (t: State)
    requires Numbered(pics) && Waiting(s) && 0 < k && Mixed(xs, a, pics, k)
    ensures Runs(s, xs, t) && t.out == s.out && Waiting(t)
    decreases |xs|
  {
    if xs == [] {
      t := s;
    } else {
      var u := ReceiveStep(s, xs[0].src, xs[0].pic);
      t := RestIgnored(u, a, pics, if xs[0] == Arrival(a, pics[k]) then k + 1 else k, xs[1..]);
    }
  }

  /** From the first slot, a picture of at most 400 packets that arrives in order is sent on exactly as
      it came, and the cursor returns to the first slot, if and only if there are never more than ten
      strays in a row; otherwise nothing of it is sent on. */
  lemma PictureRelayed(s: State, a: Addr, pics: seq<Pic>, xs: seq<Arrival>) returns (t: State)
    requires Numbered(pics) && |s.slots| == MAX_PACKETS && s.cur == 0
    requires Mixed(xs, a, pics, 0)
    ensures Runs(s, xs, t) && t.cur == 0
    ensures FewStrays(xs, a, 0) ==> Forwarded(s, t, a, pics)
    ensures !FewStrays(xs, a, 0) ==> t.out == s.out
  {
    hide ReceiveStep, Forwarded;
    FirstPacket(s, a, pics);
    var u := ReceiveStep(s, a, pics[0]);
    if |pics| == 1 {
      NothingMore(xs[1..], a, pics);
      assert FewStrays(xs[1..], a, 0);
      t := u;
      ForwardedHome(s, t, a, pics);
    } else {
      t := RestRelayed(u, a, pics, 1, 0, xs[1..]);
      SameStart(s, u, t, a, pics);
      if FewStrays(xs[1..], a, 0) {
        ForwardedHome(s, t, a, pics);
      }
    }
  }

  lemma ForwardedHome(s: State, t: State, a: Addr, pics: seq<Pic>)
    requires Forwarded(s, t, a, pics)
    ensures t.cur == 0
  {
  }

  function Pics(row: seq<Slot>): seq<Pic> {
    seq(|row|, j requires 0 <= j < |row| => row[j].pic)
  }

  /** From camera to server: the packets a node sends for a picture of at most 400 of them, relayed with
      at most ten strays in a row, reach the server as one row whose payloads are the picture. */
  lemma PictureArrives(s: State, a: Addr, image: seq<byte>, sent: seq<Pic>, xs: seq<Arrival>) returns (t: State)
    requires 0 < |image| <= BODY * MAX_PACKETS && AreParts(image, sent) && |sent| == Packets(|image|)
    requires |s.slots| == MAX_PACKETS && s.cur == 0 && Mixed(xs, a, sent, 0) && FewStrays(xs, a, 0)
    ensures Runs(s, xs, t) && t.cur == 0 && |t.out| == |s.out| + 1
    ensures t.out[..|s.out|] == s.out && Payload(Pics(t.out[|s.out|])) == image
  {
    forall k | 0 <= k < |sent|
      ensures sent[k].count == k + 1 && sent[k].max == |sent|
    {
      assert IsPart(image, k, sent[k]);
    }
    t := PictureRelayed(s, a, sent, xs);
    assert Pics(t.out[|s.out|]) == sent;
    PayloadIsImage(image, sent);
  }

  // ----- the cursor

  predicate Begins(x: Arrival) {
    x.pic.count == 1 && x.pic.max <= MAX_PACKETS
  }

  predicate Ends(x: Arrival) {
    x.pic.count == x.pic.max <= MAX_PACKETS
  }

  /** Whose picture is being collected after these arrivals: that of the sender who began the last one,
      unless it has been given up. */
  function Owner(xs: seq<Arrival>): Option<Addr>
    decreases |xs|, 1
  {
    if xs == [] then None
    else
      var ys, x := xs[..|xs| - 1], xs[|xs| - 1];
      if Begins(x) then Some(x.src) else if Foreign(ys, x) && Strays(ys) == MAX_ERRORS then None else Owner(ys)
  }

  /** x, arriving after ys, does not belong to the picture: it is of one too large, or neither begins nor
      ends a picture and is not from the owner. */
  predicate Foreign(ys: seq<Arrival>, x: Arrival)
    decreases |ys|, 2
  {
    x.pic.max > MAX_PACKETS || (!Begins(x) && !Ends(x) && Owner(ys).Some? && Owner(ys).value != x.src)
  }

  /** How many of these have come since the picture began, the owner last sent a middle part of it, or it
      was given up; eleven give it up. */
  function Strays(xs: seq<Arrival>): (n: nat)
    ensures n <= MAX_ERRORS
    decreases |xs|, 1
  {
    if xs == [] then 0
    else
      var ys, x := xs[..|xs| - 1], xs[|xs| - 1];
      if Foreign(ys, x) then (if Strays(ys) == MAX_ERRORS then 0 else Strays(ys) + 1)
      else if Begins(x) || (!Ends(x) && Owner(ys).Some?) then 0
      else Strays(ys)
  }

  /** Packets of the owner that have come since the last one that began or ended a picture, the first
      packet included. */
  function Tail(xs: seq<Arrival>): nat {
    if xs == [] || Owner(xs).None? then 0
    else
      var ys, x := xs[..|xs| - 1], xs[|xs| - 1];
      if Ends(x) then 0 else if Begins(x) then 1 else if Foreign(ys, x) then Tail(ys) else Tail(ys) + 1
  }

  /** The root's variables after these arrivals. */
  ghost predicate Tracks(s: State, xs: seq<Arrival>) {
    && |s.slots| == MAX_PACKETS && s.cur == Tail(xs) && s.errors == Strays(xs)
    && (s.started <==> Owner(xs).Some?) && (s.started ==> s.slots[0].addr == Owner(xs).value)
  }

  lemma TracksStep(s: State, xs: seq<Arrival>, x: Arrival)
    requires Tracks(s, xs) && s.cur < MAX_PACKETS
    ensures Tracks(ReceiveStep(s, x.src, x.pic), xs + [x])
  {
    var zs := xs + [x];
    assert zs[..|zs| - 1] == xs && zs[|zs| - 1] == x;
    NoOwner(xs);
    assert zs != [];
    assert Owner(zs) == if Begins(x) then Some(x.src)
      else if Foreign(xs, x) && Strays(xs) == MAX_ERRORS then None else Owner(xs);
    assert Strays(zs) == if Foreign(xs, x) then (if Strays(xs) == MAX_ERRORS then 0 else Strays(xs) + 1)
      else if Begins(x) || (!Ends(x) && Owner(xs).Some?) then 0
      else Strays(xs);
  }

  lemma NoOwner(xs: seq<Arrival>)
    ensures Owner(xs).None? ==> Tail(xs) == 0
  {
  }

  /** Before each of the arrivals xs, which follow those of before, fewer than 400 have been counted. */
  ghost predicate Fits(before: seq<Arrival>, xs: seq<Arrival>) {
    forall j: nat :: j < |xs| ==> Tail(before + xs[..j]) < MAX_PACKETS
  }

  lemma FitsStep(before: seq<Arrival>, xs: seq<Arrival>)
    requires xs != []
    ensures Fits(before, xs) <==> Tail(before) < MAX_PACKETS && Fits(before + [xs[0]], xs[1..])
  {
    hide Tail;
    assert before + xs[..0] == before;
    forall j: nat | j < |xs| - 1
      ensures before + [xs[0]] + xs[1..][..j] == before + xs[..j + 1]
    {
    }
    if Tail(before) < MAX_PACKETS && Fits(before + [xs[0]], xs[1..]) {
      forall j: nat | j < |xs|
        ensures Tail(before + xs[..j]) < MAX_PACKETS
      {
        if j > 0 {
          var i: nat := j - 1;
          assert Tail(before + [xs[0]] + xs[1..][..i]) < MAX_PACKETS;
        }
      }
    }
    if Fits(before, xs) {
      assert Tail(before + xs[..0]) < MAX_PACKETS;
      forall j: nat | j < |xs| - 1
        ensures Tail(before + [xs[0]] + xs[1..][..j]) < MAX_PACKETS
      {
        var i: nat := j + 1;
        assert Tail(before + xs[..i]) < MAX_PACKETS;
      }
    }
  }

  lemma {:induction false} TrackingRuns(s: State, before: seq<Arrival>, xs: seq<Arrival>)
    requires Tracks(s, before)
    ensures (exists t :: Runs(s, xs, t)) <==> Fits(before, xs)
    ensures forall t :: Runs(s, xs, t) ==> Tracks(t, before + xs)
    decreases |xs|
  {
    hide ReceiveStep, Tail, Owner, Strays, Fits, Runs;
    if xs == [] {
      assert before + xs == before;
      RunsNothing(s);
      NothingToFit(before);
    } else {
      FitsStep(before, xs);
      if s.cur < MAX_PACKETS {
        var u := ReceiveStep(s, xs[0].src, xs[0].pic);
        TracksStep(s, before, xs[0]);
        TrackingRuns(u, before + [xs[0]], xs[1..]);
        assert before + [xs[0]] + xs[1..] == before + xs;
        RunsStep(s, xs);
      } else {
        RunsStuck(s, xs);
      }
    }
  }

  lemma RunsNothing(s: State)
    ensures forall t :: Runs(s, [], t) <==> t == s
    ensures exists t :: Runs(s, [], t)
  {
    assert Runs(s, [], s);
  }

  lemma RunsStuck(s: State, xs: seq<Arrival>)
    requires xs != [] && s.cur >= MAX_PACKETS
    ensures forall t :: !Runs(s, xs, t)
  {
  }

  lemma RunsStep(s: State, xs: seq<Arrival>)
    requires xs != [] && s.cur < |s.slots| == MAX_PACKETS
    ensures forall t :: Runs(s, xs, t) <==> Runs(ReceiveStep(s, xs[0].src, xs[0].pic), xs[1..], t)
    ensures (exists t :: Runs(s, xs, t)) <==> (exists t :: Runs(ReceiveStep(s, xs[0].src, xs[0].pic), xs[1..], t))
  {
    hide ReceiveStep;
    var u := ReceiveStep(s, xs[0].src, xs[0].pic);
    assert forall t :: Runs(s, xs, t) <==> Runs(u, xs[1..], t);
    if t :| Runs(u, xs[1..], t) {
      assert Runs(s, xs, t);
    }
  }

  lemma NothingToFit(before: seq<Arrival>)
    ensures Fits(before, [])
  {
  }

  /** Waiting for a picture, with no strays counted. */
  ghost predicate Idle(s: State) {
    Waiting(s) && s.errors == 0
  }

  lemma IdleTracks(s: State)
    requires Idle(s)
    ensures Tracks(s, [])
  {
  }

  lemma FitsAll(xs: seq<Arrival>)
    ensures Fits([], xs) <==> forall j: nat :: j < |xs| ==> Tail(xs[..j]) < MAX_PACKETS
  {
    hide Tail;
    forall j: nat | j < |xs|
      ensures [] + xs[..j] == xs[..j]
    {
    }
  }

  /** Whatever packets arrive, from whichever nodes: the root writes only to its 400 slots if and only if
      never, before another arrival, have 400 packets of the owner come since the last packet that began
      or ended a picture; and its cursor counts them. */
  lemma CursorStaysIff(s: State, xs: seq<Arrival>)
    requires Idle(s)
    ensures (exists t :: Runs(s, xs, t)) <==> forall j: nat :: j < |xs| ==> Tail(xs[..j]) < MAX_PACKETS
    ensures forall t :: Runs(s, xs, t) ==>
      t.cur == Tail(xs) && (t.started ==> t.slots != [] && Owner(xs) == Some(t.slots[0].addr))
  {
    hide ReceiveStep, Tail, Owner, Strays, Fits, Runs;
    IdleTracks(s);
    TrackingRuns(s, [], xs);
    FitsAll(xs);
    assert [] + xs == xs;
  }

  /** The first m packets of a picture, when its last packet and the first of the next picture are lost,
      and what follows of that one. */
  ghost predicate Torn(xs: seq<Arrival>, a: Addr, m: nat) {
    && 1 <= m <= |xs|
    && (forall k :: 0 <= k < |xs| ==> xs[k].src == a && xs[k].pic.count != xs[k].pic.max <= MAX_PACKETS)
    && (forall k :: 0 <= k < m ==> xs[k].pic.count == k + 1)
    && (forall k :: m <= k < |xs| ==> xs[k].pic.count == k + 2 - m)
  }

  lemma {:induction false} TornTail(xs: seq<Arrival>, a: Addr, m: nat, j: nat)
    requires Torn(xs, a, m) && j <= |xs|
    ensures Tail(xs[..j]) == j && (j > 0 ==> Owner(xs[..j]) == Some(a))
  {
    if j > 0 {
      var x := xs[j - 1];
      assert xs[..j] == xs[..j - 1] + [x];
      TornTail(xs, a, m, j - 1);
      OwnCounts(xs[..j - 1], x, a);
    }
  }

  /** A packet of the owner's that does not end a picture. */
  lemma OwnCounts(ys: seq<Arrival>, x: Arrival, a: Addr)
    requires x.src == a && x.pic.count != x.pic.max <= MAX_PACKETS && (Begins(x) || Owner(ys) == Some(a))
    ensures Owner(ys + [x]) == Some(a) && Tail(ys + [x]) == if Begins(x) then 1 else Tail(ys) + 1
  {
    var zs := ys + [x];
    assert zs[..|zs| - 1] == ys && zs[|zs| - 1] == x;
    assert !Foreign(ys, x);
    assert Owner(zs) == Some(a);
  }

  /** Two pictures torn together: the root writes past its slots if and only if more than 400 of their
      packets arrive. */
  lemma TornFitsIff(s: State, a: Addr, xs: seq<Arrival>, m: nat)
    requires Idle(s) && Torn(xs, a, m)
    ensures (exists t :: Runs(s, xs, t)) <==> |xs| <= MAX_PACKETS
  {
    hide Tail, ReceiveStep, Runs;
    CursorStaysIff(s, xs);
    forall j: nat | j <= |xs|
      ensures Tail(xs[..j]) == j
    {
      TornTail(xs, a, m, j);
    }
    var last: nat := |xs| - 1;
    assert Tail(xs[..last]) == last;
  }
}
