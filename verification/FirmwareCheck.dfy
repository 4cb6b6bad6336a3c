/** The search for the firmware flag: Knuth-Morris-Pratt, and the chunk loop that applies it to a
    partition (mupgrade_check.c). */
module FirmwareCheck {
  import opened Bits

  /** The last k of the first i bytes of s are the first k bytes of t. */
  predicate Ends(s: seq<byte>, i: nat, t: seq<byte>, k: nat) {
    k <= i <= |s| && k <= |t| && s[i - k..i] == t[..k]
  }

  /** No match longer than j, and of at most top bytes, ends at i. */
  ghost predicate NoLonger(s: seq<byte>, i: nat, t: seq<byte>, j: nat, top: nat) {
    forall k :: j < k <= top ==> !Ends(s, i, t, k)
  }

  /** k is the length of the longest border of t[..i]: a proper prefix that is also a suffix. */
  ghost predicate LongestBorder(t: seq<byte>, i: nat, k: nat) {
    k < i <= |t| && Ends(t, i, t, k) && NoLonger(t, i, t, k, i - 1)
  }

  ghost predicate Borders(t: seq<byte>, next: seq<nat>, n: nat) {
    n <= |t| && n <= |next| && forall i :: 0 <= i < n ==> LongestBorder(t, i + 1, next[i])
  }

  lemma EndsNext(s: seq<byte>, i: nat, t: seq<byte>, k: nat)
    requires i < |s| && k < |t|
    ensures Ends(s, i + 1, t, k + 1) <==> Ends(s, i, t, k) && s[i] == t[k]
  {
    if k <= i {
      assert s[i - k..i + 1] == s[i - k..i] + [s[i]];
      assert t[..k + 1] == t[..k] + [t[k]];
    }
  }

  /** Of two matches ending at the same place the shorter is a border of the longer. */
  lemma EndsNested(s: seq<byte>, i: nat, t: seq<byte>, j: nat, k: nat)
    requires Ends(s, i, t, j) && k <= j
    ensures Ends(s, i, t, k) <==> Ends(t, j, t, k)
  {
    assert s[i - k..i] == s[i - j..i][j - k..];
    assert t[j - k..j] == t[..j][j - k..];
  }

  /** When the next byte does not extend the match j, the longest match that it may extend is the
      longest border of j. */
  lemma FallBack(s: seq<byte>, i: nat, t: seq<byte>, j: nat, k: nat, top: nat)
    requires i < |s| && 0 < j < |t| && top <= |t| && s[i] != t[j] && Ends(s, i, t, j) && LongestBorder(t, j, k)
    requires NoLonger(s, i + 1, t, j + 1, top)
    ensures Ends(s, i, t, k) && NoLonger(s, i + 1, t, k + 1, top)
  {
    EndsNested(s, i, t, j, k);
    var end := i + 1;
    forall b | k + 1 < b <= top
      ensures !Ends(s, end, t, b)
    {
      EndsNext(s, i, t, b - 1);
      if b <= j {
        EndsNested(s, i, t, j, b - 1);
      }
    }
  }

  /** Where the byte decides: the match grows by one, or there is none. */
  lemma Extend(s: seq<byte>, i: nat, t: seq<byte>, j: nat, top: nat)
    requires i < |s| && j < |t| && j < top <= |t| && Ends(s, i, t, j) && NoLonger(s, i + 1, t, j + 1, top)
    requires j == 0 || s[i] == t[j]
    ensures var k := if s[i] == t[j] then j + 1 else j;
      Ends(s, i + 1, t, k) && NoLonger(s, i + 1, t, k, top)
  {
    EndsNext(s, i, t, j);
  }

  lemma Start(s: seq<byte>, i: nat, t: seq<byte>, j: nat, top: nat)
    requires i < |s| && top <= |t| && NoLonger(s, i, t, j, top)
    ensures NoLonger(s, i + 1, t, j + 1, top)
    ensures top < |t| ==> NoLonger(s, i + 1, t, j + 1, top + 1)
  {
    var end := i + 1;
    forall b | j + 1 < b <= top + 1 && b <= |t|
      ensures !Ends(s, end, t, b)
    {
      EndsNext(s, i, t, b - 1);
    }
  }

  /** kmp_next. steps counts the passes of the inner loop. */
  method KmpNext(t: seq<byte>, next: array<nat>) returns (ghost steps: nat)
    requires 0 < |t| <= next.Length
    modifies next
    ensures Borders(t, next[..], |t|)
    ensures steps < |t|
  {
    hide Ends, NoLonger;
    next[0] := 0;
    steps := 0;
    var j: nat := 0;
    FirstBorder(t);
    for i := 1 to |t|
      invariant Borders(t, next[..], i) && LongestBorder(t, i, j)
      invariant steps + j < i
    {
      Start(t, i, t, j, i - 1);
      while j > 0 && t[j] != t[i]
        invariant j < i && Ends(t, i, t, j) && NoLonger(t, i + 1, t, j + 1, i)
        invariant Borders(t, next[..], i) && steps + j < i
      {
        assert LongestBorder(t, j - 1 + 1, next[..][j - 1]);
        FallBack(t, i, t, j, next[j - 1], i);
        j := next[j - 1];
        steps := steps + 1;
      }
      Extend(t, i, t, j, i);
      if t[j] == t[i] {
        j := j + 1;
      }
      ghost var before := next[..];
      next[i] := j;
      assert next[..][..i] == before[..i];
      BordersExtend(t, before, next[..], i);
    }
  }

  lemma FirstBorder(t: seq<byte>)
    requires t != []
    ensures LongestBorder(t, 1, 0)
  {
  }

  lemma BordersExtend(t: seq<byte>, before: seq<nat>, after: seq<nat>, i: nat)
    requires Borders(t, before, i) && i < |t| && i < |after| && after[..i] == before[..i]
    requires LongestBorder(t, i + 1, after[i])
    ensures Borders(t, after, i + 1)
  {
    forall k | 0 <= k < i + 1
      ensures LongestBorder(t, k + 1, after[k])
    {
      if k < i {
        assert after[..i][k] == before[..i][k];
      }
    }
  }

  ghost predicate Occurs(s: seq<byte>, t: seq<byte>, at: int) {
    0 <= at && at + |t| <= |s| && s[at..at + |t|] == t
  }

  /** Occurs in s so that its last byte is among those the loop looks at. */
  ghost predicate Seen(s: seq<byte>, t: seq<byte>, at: int) {
    Occurs(s, t, at) && at + |t| - 1 <= |s| - |t|
  }

  /** kmp_find: the loop stops at |s| - |t|, so it finds the target exactly when one of its
      occurrences ends there or before. */
  method KmpFind(s: seq<byte>, t: seq<byte>, next: array<nat>) returns (found: bool, ghost steps: nat)
    requires t != [] && Borders(t, next[..], |t|)
    ensures found <==> exists at :: Seen(s, t, at)
    ensures steps <= |s|
  {
    hide Ends, NoLonger, Seen;
    var j: nat, i: nat := 0, 0;
    steps := 0;
    NoMatchYet(s, t);
    while i <= |s| - |t|
      invariant 0 <= i && (i == 0 || i <= |s| - |t| + 1) && j < |t| && Ends(s, i, t, j) && NoLonger(s, i, t, j, |t|)
      invariant forall e: nat :: e <= i ==> !Ends(s, e, t, |t|)
      invariant steps + j <= i
    {
      Start(s, i, t, j, |t|);
      while j != 0 && s[i] != t[j]
        invariant i < |s| && j < |t| && Ends(s, i, t, j) && NoLonger(s, i + 1, t, j + 1, |t|) && steps + j <= i
      {
        assert LongestBorder(t, j - 1 + 1, next[..][j - 1]);
        FallBack(s, i, t, j, next[j - 1], |t|);
        j := next[j - 1];
        steps := steps + 1;
      }
      Extend(s, i, t, j, |t|);
      if s[i] == t[j] {
        j := j + 1;
        if j == |t| {
          MatchSeen(s, i + 1, t);
          return true, steps;
        }
      }
      LongestMatch(s, i + 1, t, j);
      i := i + 1;
    }
    NothingSeen(s, i, t);
    found := false;
  }

  lemma NoMatchYet(s: seq<byte>, t: seq<byte>)
    requires t != []
    ensures Ends(s, 0, t, 0) && NoLonger(s, 0, t, 0, |t|) && !Ends(s, 0, t, |t|)
  {
  }

  lemma MatchSeen(s: seq<byte>, i: nat, t: seq<byte>)
    requires t != [] && i <= |s| - |t| + 1 && Ends(s, i, t, |t|)
    ensures Seen(s, t, i - |t|)
  {
  }

  lemma LongestMatch(s: seq<byte>, i: nat, t: seq<byte>, j: nat)
    requires j < |t| && NoLonger(s, i, t, j, |t|)
    ensures !Ends(s, i, t, |t|)
  {
  }

  lemma NothingSeen(s: seq<byte>, i: nat, t: seq<byte>)
    requires i > |s| - |t| && forall e: nat :: e <= i ==> !Ends(s, e, t, |t|)
    ensures forall at :: !Seen(s, t, at)
  {
    forall at | Seen(s, t, at)
      ensures false
    {
      assert Ends(s, at + |t|, t, |t|);
    }
  }

  // ----- the chunk loop

  const CHUNK := 1024
  const FLAG_SIZE := 32
  const STEP := 992

  /** MUPGRADE_FIRMWARE_FLAG, padded with zeros. */
  const FLAG: seq<byte> := [
    42, 42, 32, 77, 85, 80, 71, 82, 65, 68, 69, 95, 70, 73, 82, 77,
    87, 65, 82, 69, 95, 70, 76, 65, 71, 32, 42, 42, 0, 0, 0, 0]

  /** How many chunks of a partition are looked at. */
  function Chunks(size: nat): (n: nat)
    ensures forall k: nat :: k < n <==> STEP * k + CHUNK < size
  {
    if size <= CHUNK then 0 else (size - CHUNK - 1) / STEP + 1
  }

  /** kmp_find succeeds on the bytes of a chunk. */
  ghost predicate HasFlag(chunk: seq<byte>) {
    exists at :: Seen(chunk, FLAG, at)
  }

  ghost predicate InChunk(flash: seq<byte>, k: nat)
    requires k < Chunks(|flash|)
  {
    HasFlag(flash[STEP * k..STEP * k + CHUNK])
  }

  /** A chunk that can be read, like all before it, has the flag where the search sees it. */
  ghost predicate Found(flash: seq<byte>, failing: set<nat>, k: nat) {
    k < Chunks(|flash|) && InChunk(flash, k) && forall j: nat :: j <= k ==> j !in failing
  }

  /** mupgrade_firmware_check of a partition's contents; reads of the chunks in failing fail. A
      partition too small for one chunk is accepted. */
  method FirmwareCheck(flash: seq<byte>, failing: set<nat>) returns (ok: bool)
    ensures ok <==> Chunks(|flash|) == 0 || exists k: nat :: Found(flash, failing, k)
  {
    var next := new nat[FLAG_SIZE](_ => 0);
    var steps := KmpNext(FLAG, next);
    ok := true;
    var addr := 0;
    ghost var k := 0;
    while addr + CHUNK < |flash|
      invariant addr == STEP * k && Borders(FLAG, next[..], |FLAG|)
      invariant k <= Chunks(|flash|) && (ok <==> k == 0)
      invariant forall j: nat :: j < k ==> j !in failing && !InChunk(flash, j)
      decreases |flash| - addr
    {
      if addr / STEP in failing {
        return false;
      }
      assert addr / STEP == k;
      var chunk := flash[addr..addr + CHUNK];
      ok, steps := KmpFind(chunk, FLAG, next);
      assert chunk == flash[STEP * k..STEP * k + CHUNK];
      assert ok == HasFlag(chunk);
      if ok {
        assert Found(flash, failing, k);
        return;
      }
      addr := addr + CHUNK - FLAG_SIZE;
      k := k + 1;
    }
  }

  /** Where the flag must be for the check to see it. */
  ghost predicate Visible(flash: seq<byte>, p: nat) {
    Occurs(flash, FLAG, p) && p % STEP <= CHUNK - 2 * FLAG_SIZE + 1 && STEP * (p / STEP) + CHUNK < |flash|
  }

  /** With a readable flash the check accepts exactly those partitions that have a flag starting at
      most 961 bytes into a chunk; those starting 962 to 991 bytes in are missed. */
  lemma AcceptsIffVisible(flash: seq<byte>)
    requires Chunks(|flash|) > 0
    ensures (exists k: nat :: Found(flash, {}, k)) <==> (exists p: nat :: Visible(flash, p))
  {
    hide Visible, Found;
    forall k: nat | Found(flash, {}, k)
      ensures exists p: nat :: Visible(flash, p)
    {
      FoundVisible(flash, k);
    }
    forall p: nat | Visible(flash, p)
      ensures exists k: nat :: Found(flash, {}, k)
    {
      VisibleFound(flash, p);
    }
  }

  lemma FoundVisible(flash: seq<byte>, k: nat)
    requires Found(flash, {}, k)
    ensures exists p: nat :: Visible(flash, p)
  {
    hide FLAG;
    var chunk := flash[STEP * k..STEP * k + CHUNK];
    var at :| Seen(chunk, FLAG, at);
    FlagSize();
    var p: nat := STEP * k + at;
    SliceOfSlice(flash, STEP * k, CHUNK, at, |FLAG|, p);
    assert p / STEP == k && p % STEP == at;
    assert Occurs(flash, FLAG, p) && Visible(flash, p);
  }

  lemma SliceOfSlice(s: seq<byte>, from: nat, size: nat, at: nat, n: nat, p: nat)
    requires from + size <= |s| && at + n <= size && p == from + at
    ensures s[from..from + size][at..at + n] == s[p..p + n]
  {
    var part := s[from..from + size];
    var inner, outer := part[at..at + n], s[p..p + n];
    forall k | 0 <= k < n
      ensures inner[k] == outer[k]
    {
      assert part[at + k] == s[p + k];
    }
    assert inner == outer;
  }

  lemma FlagSize()
    ensures |FLAG| == FLAG_SIZE
  {
  }

  lemma VisibleFound(flash: seq<byte>, p: nat)
    requires Visible(flash, p)
    ensures exists k: nat :: Found(flash, {}, k)
  {
    hide FLAG;
    FlagSize();
    var k: nat, at: nat := p / STEP, p % STEP;
    var chunk := flash[STEP * k..STEP * k + CHUNK];
    SliceOfSlice(flash, STEP * k, CHUNK, at, |FLAG|, p);
    assert Occurs(chunk, FLAG, at) && Seen(chunk, FLAG, at) && HasFlag(chunk);
    assert InChunk(flash, k) && Found(flash, {}, k);
  }

  function Zeros(n: nat): (s: seq<byte>)
    ensures |s| == n && forall i :: 0 <= i < n ==> s[i] == 0
  {
    seq(n, _ => 0)
  }

  /** A partition with the flag 970 bytes in, which the check refuses. */
  lemma FlagMissed(n: nat)
    requires n >= 1024
    ensures var flash := Zeros(970) + FLAG + Zeros(n); Occurs(flash, FLAG, 970) && forall k: nat :: !Found(flash, {}, k)
  {
    var flash := Zeros(970) + FLAG + Zeros(n);
    assert flash[970..970 + |FLAG|] == FLAG;
    forall p: nat
      ensures !Visible(flash, p)
    {
      if Occurs(flash, FLAG, p) {
        OnlyAt970(flash, n, p);
      }
    }
    AcceptsIffVisible(flash);
  }

  lemma OnlyAt970(flash: seq<byte>, n: nat, p: nat)
    requires flash == Zeros(970) + FLAG + Zeros(n) && Occurs(flash, FLAG, p)
    ensures p == 970
  {
    var at := flash[p..p + |FLAG|];
    assert at[0] == 42 && at[1] == 42 && at[2] == 32;
    assert flash[p] == 42 && flash[p + 1] == 42 && flash[p + 2] == 32;
    assert 970 <= p < 970 + |FLAG|;
    assert flash[p] == FLAG[p - 970];
  }
}
