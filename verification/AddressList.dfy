/** Lists of node addresses. */
module AddressList {
  /** A MAC address. */
  type Addr = a: nat | a < 0x1_0000_0000_0000

  ghost predicate Distinct(s: seq<Addr>) {
    forall i, j :: 0 <= i < j < |s| ==> s[i] != s[j]
  }

  ghost predicate Disjoint(s: seq<Addr>, t: seq<Addr>) {
    forall a :: a in s ==> a !in t
  }

  /** s without the first occurrence of a. */
  function RemoveFirst(s: seq<Addr>, a: Addr): seq<Addr> {
    if s == [] then []
    else if s[0] == a then s[1..]
    else [s[0]] + RemoveFirst(s[1..], a)
  }

  lemma {:induction false} RemoveAbsent(s: seq<Addr>, a: Addr)
    requires a !in s
    ensures RemoveFirst(s, a) == s
  {
    if s != [] {
      RemoveAbsent(s[1..], a);
    }
  }

  /** Exactly the first occurrence goes; the others keep their order. */
  lemma {:induction false} RemoveAt(s: seq<Addr>, a: Addr, i: nat)
    requires i < |s| && s[i] == a && a !in s[..i]
    ensures RemoveFirst(s, a) == s[..i] + s[i + 1..]
  {
    if i > 0 {
      assert s[0] != a by {
        assert s[0] in s[..i];
      }
      assert s[1..][..i - 1] == s[..i][1..];
      RemoveAt(s[1..], a, i - 1);
      assert [s[0]] + (s[1..][..i - 1] + s[1..][i..]) == s[..i] + s[i + 1..];
    } else {
      assert s[..0] + s[1..] == s[1..];
    }
  }

  lemma {:induction false} RemoveMembers(s: seq<Addr>, a: Addr)
    requires Distinct(s)
    ensures Distinct(RemoveFirst(s, a))
    ensures forall x :: x in RemoveFirst(s, a) <==> x in s && x != a
  {
    if s != [] {
      RemoveMembers(s[1..], a);
      assert forall x :: x in s <==> x == s[0] || x in s[1..];
      assert s[0] !in s[1..];
    }
  }

  lemma {:induction false} RemoveSubset(s: seq<Addr>, a: Addr)
    ensures forall x :: x in RemoveFirst(s, a) ==> x in s
  {
    if s != [] {
      RemoveSubset(s[1..], a);
    }
  }

  lemma AppendMember(s: seq<Addr>, a: Addr)
    requires Distinct(s) && a !in s
    ensures Distinct(s + [a]) && forall x :: x in s + [a] <==> x in s || x == a
  {
  }

  /** addrs_remove: shifts the addresses behind the first occurrence down by one place, as memmove
      does. Returns the new length. */
  method AddrsRemove(list: array<Addr>, num: nat, addr: Addr) returns (newNum: nat, removed: bool)
    requires num <= list.Length
    modifies list
    ensures newNum <= num && removed == (addr in old(list[..num]))
    ensures newNum == if removed then num - 1 else num
    ensures list[..newNum] == RemoveFirst(old(list[..num]), addr)
  {
    ghost var s := list[..num];
    for i := 0 to num
      invariant list[..num] == s && addr !in s[..i]
    {
      if list[i] == addr {
        newNum := num - 1;
        RemoveAt(s, addr, i);
        if newNum > 0 {
          forall k | i <= k < newNum {
            list[k] := list[k + 1];
          }
        }
        assert list[..newNum] == s[..i] + s[i + 1..];
        return newNum, true;
      }
    }
    RemoveAbsent(s, addr);
    return num, false;
  }
}
