/**
 The stepped addresses stay in the subnet, and for a prefix mask every run of `count`
 consecutive frames visits as many hosts as there are, up to `count`.
 */
module Addresses {
  import opened Unsigned
  import opened Bits
  import opened VariableFields
  import opened Ip4

  // ------- words bit by bit -------

  lemma SameWord(a: uint32, b: uint32)
    requires forall k :: 0 <= k < 32 ==> Bit(a, k) == Bit(b, k)
    ensures a == b
  {
    Pow2Values();
    SameBits(a, b, 32);
  }

  lemma AndWordBit(a: uint32, b: uint32, k: nat)
    requires k < 32
    ensures Bit(AndWord(a, b), k) == (Bit(a, k) && Bit(b, k))
  {
    BitAnd(a, b, k);
  }

  lemma OrWordBit(a: uint32, b: uint32, k: nat)
    requires k < 32
    ensures Bit(OrWord(a, b), k) == (Bit(a, k) || Bit(b, k))
  {
    BitOr(a, b, k);
  }

  lemma NotWordBit(a: uint32, k: nat)
    requires k < 32
    ensures Bit(NotWord(a), k) == !Bit(a, k)
  {
    Pow2Values();
    BitNot(a, 32, k);
  }

  function Subnet(x: uint32, mask: uint32): uint32 { AndWord(x, mask) }

  function Host(x: uint32, mask: uint32): uint32 { AndWord(x, NotWord(mask)) }

  /** Putting a subnet and a host together, for any mask, and taking them apart again. */
  lemma JoinApart(x: uint32, y: uint32, mask: uint32)
    ensures Subnet(OrWord(Subnet(x, mask), Host(y, mask)), mask) == Subnet(x, mask)
    ensures Host(OrWord(Subnet(x, mask), Host(y, mask)), mask) == Host(y, mask)
  {
    var r := OrWord(Subnet(x, mask), Host(y, mask));
    forall k | 0 <= k < 32
      ensures Bit(Subnet(r, mask), k) == Bit(Subnet(x, mask), k) && Bit(Host(r, mask), k) == Bit(Host(y, mask), k)
    {
      JoinBit(x, y, mask, k);
    }
    SameWord(Subnet(r, mask), Subnet(x, mask));
    SameWord(Host(r, mask), Host(y, mask));
  }

  lemma JoinBit(x: uint32, y: uint32, mask: uint32, k: nat)
    requires k < 32
    ensures var r := OrWord(Subnet(x, mask), Host(y, mask));
            Bit(Subnet(r, mask), k) == Bit(Subnet(x, mask), k) && Bit(Host(r, mask), k) == Bit(Host(y, mask), k)
  {
    hide AndWord, OrWord, NotWord, Bit;
    var r := OrWord(Subnet(x, mask), Host(y, mask));
    AndWordBit(r, mask, k);
    AndWordBit(r, NotWord(mask), k);
    OrWordBit(Subnet(x, mask), Host(y, mask), k);
    AndWordBit(x, mask, k);
    AndWordBit(y, NotWord(mask), k);
    NotWordBit(mask, k);
  }

  /** Whatever the mask, mode and frame, the network bits of the base address stay; the host bits
      stay too where the host is fixed, and are those of the random number where it is random. */
  lemma SubnetKept(a: Address, i: nat, rnd: uint32)
    requires a.mode != FixedHost ==> a.count > 0
    ensures Subnet(StepAddress(a, i, rnd), a.mask) == Subnet(a.ip, a.mask)
    ensures a.mode == FixedHost ==> StepAddress(a, i, rnd) == a.ip
    ensures a.mode == RandomHost ==> Host(StepAddress(a, i, rnd), a.mask) == Host(rnd, a.mask)
  {
    hide AndWord, OrWord, NotWord;
    if a.mode != FixedHost { JoinApart(a.ip, SteppedHost(a, i, rnd), a.mask); }
  }

  // ------- prefix masks -------

  function PrefixMask(k: nat): uint32
    requires k <= 32
  {
    Pow2Values();
    Pow2Monotone(k, 32);
    Pow2Positive(k);
    0x1_0000_0000 - Pow2(k)
  }

  lemma Pow2Positive(k: nat)
    ensures Pow2(k) > 0
  {
  }

  lemma MaskIsShifted(k: nat)
    requires k <= 32
    ensures PrefixMask(k) == Shl(Pow2(32 - k) - 1, k)
  {
    Pow2Values();
    Pow2Sum(32 - k, k);
    hide Pow2;
    Distribute(Pow2(32 - k), Pow2(k));
  }

  lemma Distribute(a: nat, b: nat)
    requires a > 0
    ensures (a - 1) * b == a * b - b
  {
  }

  /** The mask has `k` zeros at the low end. */
  lemma MaskBit(k: nat, j: nat)
    requires k <= 32 && j < 32
    ensures Bit(PrefixMask(k), j) == (j >= k)
  {
    hide PrefixMask, Shl, Pow2;
    MaskIsShifted(k);
    BitShl(Pow2(32 - k) - 1, k, j);
    if j >= k { AllOnes(32 - k, j - k); }
  }

  lemma {:induction false} AllOnes(w: nat, i: nat)
    requires i < w
    ensures Bit(Pow2(w) - 1, i)
  {
    if i > 0 {
      assert (Pow2(w) - 1) / 2 == Pow2(w - 1) - 1;
      AllOnes(w - 1, i - 1);
    }
  }

  lemma HostIsRemainder(x: uint32, k: nat)
    requires k <= 32
    ensures Host(x, PrefixMask(k)) == x % Pow2(k)
  {
    hide PrefixMask, AndWord, NotWord;
    var h := Host(x, PrefixMask(k));
    var low := Low(x, k);
    forall j | 0 <= j < 32 ensures Bit(h, j) == Bit(low, j) {
      AndWordBit(x, NotWord(PrefixMask(k)), j);
      NotWordBit(PrefixMask(k), j);
      MaskBit(k, j);
      BitLow(x, k, j);
    }
    LowBelow(x, k);
    SameWord(h, low);
  }

  lemma LowBelow(x: uint32, k: nat)
    requires k <= 32
    ensures Low(x, k) < 0x1_0000_0000 && Low(x, k) == x % Pow2(k)
  {
    Pow2Values();
    Pow2Monotone(k, 32);
  }

  lemma ModOfMod(x: int, p: nat, e: nat, m: nat)
    requires p > 0 && m > 0 && m == e * p
    ensures (x % m) % p == x % p
  {
    var q, r := x / m, x % m;
    var q', r' := r / p, r % p;
    assert q * m == (q * e) * p;
    assert (q * e + q') * p == (q * e) * p + q' * p;
    RemainderUnique(x, p, q * e + q', r');
  }

  lemma WrapGone(x: int, k: nat)
    requires k <= 32
    ensures Pow2(k) > 0 && (x % 0x1_0000_0000) % Pow2(k) == x % Pow2(k)
  {
    Pow2Values();
    Pow2Sum(32 - k, k);
    hide Pow2;
    ModOfMod(x, Pow2(k), Pow2(32 - k), 0x1_0000_0000);
  }

  lemma RemainderUnique(x: int, p: nat, q: int, r: nat)
    requires p > 0 && x == q * p + r && r < p
    ensures x % p == r
  {
    StrictTimes(x / p, q, p);
    StrictTimes(q, x / p, p);
  }

  /** The host of frame `i`, counted from the host number of the base address. */
  function HostAt(base: nat, up: bool, u: nat, p: nat): (h: nat)
    requires p > 0
    ensures h < p
  {
    (if up then base + u else base - u) % p
  }

  lemma SteppedHostIs(a: Address, i: nat, k: nat)
    requires k <= 32 && a.mask == PrefixMask(k) && a.count > 0
    requires a.mode == IncHost || a.mode == DecHost
    ensures Pow2(k) > 0
    ensures Host(StepAddress(a, i, 0), a.mask) == HostAt(a.ip % Pow2(k), a.mode == IncHost, i % a.count, Pow2(k))
  {
    hide PrefixMask, AndWord, OrWord, NotWord, Pow2;
    var base, u := Host(a.ip, a.mask), i % a.count;
    HostIsRemainder(a.ip, k);
    JoinApart(a.ip, SteppedHost(a, i, 0), a.mask);
    HostIsRemainder(SteppedHost(a, i, 0), k);
    if a.mode == IncHost {
      WrapGone(base + u, k);
    } else {
      WrapGone(base + 0x1_0000_0000 - u, k);
      WrapGone(base - u, k);
      RemainderUnique(base + 0x1_0000_0000 - u, 0x1_0000_0000, (base - u) / 0x1_0000_0000 + 1,
          (base - u) % 0x1_0000_0000);
    }
  }

  // ------- counting the hosts -------

  function Hosts(base: nat, up: bool, n: nat, p: nat): set<nat>
    requires p > 0
  {
    set u | 0 <= u < n :: HostAt(base, up, u, p)
  }

  /** Steps less than `p` apart reach different hosts. */
  lemma HostsApart(base: nat, up: bool, u: nat, v: nat, p: nat)
    requires p > 0 && u < v < u + p
    ensures HostAt(base, up, u, p) != HostAt(base, up, v, p)
  {
    var x: int, y: int := if up then base + v else base - u, if up then base + u else base - v;
    if x % p == y % p {
      var q, q' := x / p, y / p;
      assert (q - q') * p == x - y by { assert (q - q') * p == q * p - q' * p; }
      MultipleIsLarge(q - q', p);
      assert false;
    }
  }

  lemma {:induction false} HostsCount(base: nat, up: bool, n: nat, p: nat)
    requires 0 < p && n <= p
    ensures |Hosts(base, up, n, p)| == n
  {
    hide HostAt;
    if n == 0 {
      assert Hosts(base, up, 0, p) == {};
    } else {
      HostsCount(base, up, n - 1, p);
      var h := HostAt(base, up, n - 1, p);
      forall u | 0 <= u < n - 1 ensures HostAt(base, up, u, p) != h { HostsApart(base, up, u, n - 1, p); }
      assert Hosts(base, up, n, p) == Hosts(base, up, n - 1, p) + {h};
    }
  }

  lemma HostPeriod(base: nat, up: bool, u: nat, p: nat)
    requires p > 0
    ensures HostAt(base, up, u, p) == HostAt(base, up, u % p, p)
  {
    var q, r := u / p, u % p;
    if up {
      var x := base + r;
      RemainderUnique(base + u, p, x / p + q, x % p);
    } else {
      var x: int := base - r;
      RemainderUnique(base - u, p, x / p - q, x % p);
    }
  }

  /** Beyond `p` steps there are no new hosts. */
  lemma HostsBeyond(base: nat, up: bool, n: nat, p: nat)
    requires 0 < p <= n
    ensures Hosts(base, up, n, p) == Hosts(base, up, p, p)
  {
    forall u | 0 <= u < n ensures HostAt(base, up, u, p) in Hosts(base, up, p, p) {
      HostPeriod(base, up, u, p);
    }
  }

  function Min(a: nat, b: nat): nat { if a <= b then a else b }

  /** The hosts in the frames from `start` on. */
  function Visited(a: Address, start: nat): set<uint32>
    requires a.count > 0
  {
    set i | start <= i < start + a.count :: Host(StepAddress(a, i, 0), a.mask)
  }

  lemma ResidueReached(start: nat, c: nat, u: nat) returns (i: nat)
    requires u < c
    ensures start <= i < start + c && i % c == u
  {
    var q, r := start / c, start % c;
    i := if u >= r then start + (u - r) else start + (u + c - r);
    RemainderUnique(i, c, if u >= r then q else q + 1, u);
  }

  /** Any `count` consecutive frames visit min(count, 2^k) hosts of a subnet with `k` host bits. */
  lemma HostsVisited(a: Address, k: nat, start: nat)
    requires k <= 32 && a.mask == PrefixMask(k) && a.count > 0
    requires a.mode == IncHost || a.mode == DecHost
    ensures |Visited(a, start)| == Min(a.count, Pow2(k))
  {
    hide PrefixMask, StepAddress, HostAt, Host;
    Pow2Positive(k);
    var (base, up, p) := (a.ip % Pow2(k), a.mode == IncHost, Pow2(k));
    var hosts := Hosts(base, up, a.count, p);
    forall i | start <= i < start + a.count ensures Host(StepAddress(a, i, 0), a.mask) in hosts {
      SteppedHostIs(a, i, k);
    }
    forall h | h in hosts ensures h < 0x1_0000_0000 && h in Visited(a, start) {
      var u :| 0 <= u < a.count && h == HostAt(base, up, u, p);
      var i := ResidueReached(start, a.count, u);
      SteppedHostIs(a, i, k);
    }
    SameSize(Visited(a, start), hosts);
    if a.count <= p {
      HostsCount(base, up, a.count, p);
    } else {
      HostsBeyond(base, up, a.count, p);
      HostsCount(base, up, p, p);
    }
  }

  lemma SameSize(a: set<uint32>, b: set<nat>)
    requires forall x :: x in a ==> x in b
    requires forall x :: x in b ==> x < 0x1_0000_0000 && x in a
    ensures |a| == |b|
  {
    assert a == b;
  }

  /** The first frame of a cycle has the base host; each next one has the next host up or
      down, around the subnet. */
  lemma HostSteps(a: Address, k: nat, i: nat)
    requires k <= 32 && a.mask == PrefixMask(k) && a.count > 0
    requires a.mode == IncHost || a.mode == DecHost
    ensures Pow2(k) > 0
    ensures i % a.count == 0 ==> Host(StepAddress(a, i, 0), a.mask) == Host(a.ip, a.mask)
    ensures (i + 1) % a.count != 0 ==>
              var (now, next) := (Host(StepAddress(a, i, 0), a.mask), Host(StepAddress(a, i + 1, 0), a.mask));
              if a.mode == IncHost then next == (now + 1) % Pow2(k) else (next + 1) % Pow2(k) == now
  {
    hide PrefixMask, StepAddress, Host, Pow2;
    SteppedHostIs(a, i, k);
    SteppedHostIs(a, i + 1, k);
    HostIsRemainder(a.ip, k);
    var (base, up, p) := (a.ip % Pow2(k), a.mode == IncHost, Pow2(k));
    HostNext(base, up, i % a.count, p);
    if (i + 1) % a.count != 0 { NextResidue(i, a.count); }
  }

  lemma HostNext(base: nat, up: bool, u: nat, p: nat)
    requires p > 0
    ensures base < p ==> HostAt(base, up, 0, p) == base
    ensures if up then HostAt(base, up, u + 1, p) == (HostAt(base, up, u, p) + 1) % p
            else (HostAt(base, up, u + 1, p) + 1) % p == HostAt(base, up, u, p)
  {
    PlusOne(if up then base + u else base - (u + 1), p);
    if base < p { RemainderUnique(base, p, 0, base); }
  }

  lemma PlusOne(x: int, p: nat)
    requires p > 0
    ensures (x % p + 1) % p == (x + 1) % p
  {
    var q, r := x / p, x % p;
    var q', r' := (r + 1) / p, (r + 1) % p;
    assert (q + q') * p == q * p + q' * p;
    RemainderUnique(x + 1, p, q + q', r');
  }
}
