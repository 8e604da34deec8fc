/**
 The Internet checksum (RFC 1071): the loop of protocolFrameCksum on a little-endian host,
 and the arithmetic of one's complement sums that the combining code relies on.
 */
module Checksum {
  import opened Bytes

  type u16 = x: nat | x < 0x1_0000

  /** ~x on 16 bits */
  function Inv(x: u16): u16 { 0xFFFF - x }

  function Swap16(x: u16): u16 { (x % 0x100) * 0x100 + x / 0x100 }

  // ------- meaning -------

  /** The octets of `s`, weighted in turn 256 and 1, beginning with 256 when `high`. */
  function OctetSum(s: seq<byte>, high: bool): nat {
    if s == [] then 0 else (if high then 0x100 * s[0] else s[0]) + OctetSum(s[1..], !high)
  }

  /** RFC 1071 section 1: pairs of octets as 16-bit integers, the last one padded with zero. */
  function WordSum(s: seq<byte>): nat {
    if s == [] then 0
    else if |s| == 1 then 0x100 * s[0]
    else 0x100 * s[0] + s[1] + WordSum(s[2..])
  }

  /** The one's complement sum that a number of 16-bit words adding up to `n` has:
      zero only if all are zero, otherwise the residue in 1..0xFFFF. */
  function Fold(n: nat): (r: u16)
    ensures r == 0 <==> n == 0
  {
    if n == 0 then 0 else (n - 1) % 0xFFFF + 1
  }

  function Rfc1071(s: seq<byte>): u16 { Inv(Fold(WordSum(s))) }

  // ------- one's complement arithmetic -------

  lemma FoldOfWord(x: u16)
    ensures Fold(x) == x
  {
  }

  lemma FoldPlus(n: nat, k: nat)
    requires n > 0
    ensures Fold(n + 0xFFFF * k) == Fold(n)
  {
    ModPlus(n - 1, k);
  }

  lemma {:induction false} ModPlus(n: nat, k: nat)
    ensures (n + 0xFFFF * k) % 0xFFFF == n % 0xFFFF
  {
    if k > 0 { ModPlus(n, k - 1); }
  }

  lemma FoldMod(n: nat)
    ensures n > 0 ==> Fold(n) % 0xFFFF == n % 0xFFFF && n == Fold(n) + 0xFFFF * ((n - 1) / 0xFFFF)
  {
  }

  /** A sum may be folded at any time. */
  lemma FoldAdd(a: nat, b: nat)
    ensures Fold(Fold(a) + b) == Fold(a + b)
  {
    if a > 0 {
      FoldMod(a);
      FoldPlus(Fold(a) + b, (a - 1) / 0xFFFF);
    }
  }

  /** Sums with the same one's complement value may stand for each other. */
  lemma FoldSums(a: nat, a': nat, b: nat, b': nat)
    requires Fold(a) == Fold(a') && Fold(b) == Fold(b')
    ensures Fold(a + b) == Fold(a' + b')
  {
    FoldAdd(a, b);
    FoldAdd(a', b);
    FoldAdd(b, a');
    FoldAdd(b', a');
  }

  /** `(sum & 0xFFFF) + (sum >> 16)` */
  lemma FoldCarry(n: nat)
    ensures Fold(n % 0x1_0000 + n / 0x1_0000) == Fold(n)
    ensures n >= 0x1_0000 ==> n % 0x1_0000 + n / 0x1_0000 < n
  {
    var r := n % 0x1_0000 + n / 0x1_0000;
    assert n == r + 0xFFFF * (n / 0x1_0000);
    if r > 0 { FoldPlus(r, n / 0x1_0000); }
  }

  /** Swapping the octets of a sum is multiplying it by 256. */
  lemma SwapFold(n: nat)
    ensures Swap16(Fold(n)) == Fold(0x100 * n)
  {
    var x := Fold(n);
    if n > 0 {
      FoldMod(n);
      var k := x / 0x100 + 0x100 * ((n - 1) / 0xFFFF);
      assert 0x100 * n == Swap16(x) + 0xFFFF * k;
      assert Swap16(x) > 0;
      FoldPlus(Swap16(x), k);
      FoldOfWord(Swap16(x));
    }
  }

  lemma ShiftStep(x: nat, a: nat, b: nat)
    requires Fold(0x100 * a) == Fold(b) && (a == 0 <==> b == 0)
    ensures Fold(0x100 * (x + a)) == Fold(0x100 * x + b)
    ensures Fold(0x100 * (0x100 * x + a)) == Fold(x + b)
  {
    FoldAdd(0x100 * a, 0x100 * x);
    FoldAdd(b, 0x100 * x);
    FoldAdd(0x100 * a, 0x1_0000 * x);
    FoldAdd(b, 0x1_0000 * x);
    assert 0x1_0000 * x + b == x + b + 0xFFFF * x;
    if x + b > 0 { FoldPlus(x + b, x); }
  }

  /** The two ways to weight the octets differ by a swap. */
  lemma {:induction false} OctetSumShift(s: seq<byte>, high: bool)
    ensures Fold(0x100 * OctetSum(s, high)) == Fold(OctetSum(s, !high))
    ensures OctetSum(s, high) == 0 <==> OctetSum(s, !high) == 0
  {
    if s != [] {
      OctetSumShift(s[1..], !high);
      ShiftStep(s[0], OctetSum(s[1..], !high), OctetSum(s[1..], high));
    }
  }

  lemma {:induction false} WordSumIsOctetSum(s: seq<byte>)
    ensures WordSum(s) == OctetSum(s, true)
  {
    if |s| > 1 {
      WordSumIsOctetSum(s[2..]);
      assert s[1..][1..] == s[2..];
    }
  }

  lemma {:induction false} OctetSumConcat(s: seq<byte>, t: seq<byte>, high: bool)
    ensures OctetSum(s + t, high) == OctetSum(s, high) + OctetSum(t, if |s| % 2 == 0 then high else !high)
  {
    if s == [] {
      assert s + t == t;
    } else {
      assert (s + t)[1..] == s[1..] + t;
      OctetSumConcat(s[1..], t, !high);
    }
  }

  // ------- the loop -------

  /** Folds the carries back in until the sum fits 16 bits. */
  method FoldCarries(start: nat) returns (sum: u16)
    requires start < 0x1_0000_0000
    ensures sum == Fold(start)
  {
    var s := start;
    while s / 0x1_0000 != 0
      invariant Fold(s) == Fold(start)
      decreases s
    {
      FoldCarry(s);
      s := s % 0x1_0000 + s / 0x1_0000;
    }
    FoldOfWord(s);
    sum := s;
  }

  /** What the little-endian sum is worth after the final byte swap. */
  lemma LittleEndianSum(fv: seq<byte>)
    ensures Swap16(Inv(Fold(OctetSum(fv, false)))) == Rfc1071(fv)
  {
    SwapInv(Fold(OctetSum(fv, false)));
    SwapFold(OctetSum(fv, false));
    OctetSumShift(fv, false);
    WordSumIsOctetSum(fv);
  }

  lemma OctetSumPair(fv: seq<byte>, i: nat)
    requires i + 2 <= |fv|
    ensures OctetSum(fv[i..], false) == fv[i] + 0x100 * (fv[i + 1] as nat) + OctetSum(fv[i + 2..], false)
  {
    assert fv[i..][1..] == fv[i + 1..] && fv[i + 1..][1..] == fv[i + 2..];
  }

  lemma OctetSumLast(fv: seq<byte>, i: nat)
    requires i <= |fv| <= i + 1
    ensures OctetSum(fv[i..], false) == if i < |fv| then fv[i] else 0
  {
  }

  /** `if (sum & 0x80000000) sum = (sum & 0xFFFF) + (sum >> 16)` */
  function KeepSmall(sum: nat): (r: nat)
    requires sum < 0x1_0000_0000
    ensures r < 0x8000_0000
  {
    if sum >= 0x8000_0000 then sum % 0x1_0000 + sum / 0x1_0000 else sum
  }

  lemma KeepSmallFold(sum: nat, rest: nat)
    requires sum < 0x1_0000_0000
    ensures Fold(KeepSmall(sum) + rest) == Fold(sum + rest)
  {
    FoldCarry(sum);
    FoldAdd(sum, rest);
    FoldAdd(KeepSmall(sum), rest);
  }

  /** protocolFrameCksum, CksumIp: 16-bit loads on a little-endian host, a 32-bit
      accumulator, and a final byte swap. */
  method CksumIp(fv: seq<byte>) returns (cksum: u16)
    ensures cksum == Rfc1071(fv)
  {
    hide Fold, OctetSum, Rfc1071;
    var ip: nat, len: nat, sum: nat := 0, |fv|, 0;
    ghost var total := OctetSum(fv, false);
    assert fv[0..] == fv;
    while len > 1
      invariant ip + len == |fv|
      invariant sum < 0x8000_0000
      invariant Fold(sum + OctetSum(fv[ip..], false)) == Fold(total)
    {
      OctetSumPair(fv, ip);
      sum := (sum + fv[ip] + 0x100 * (fv[ip + 1] as nat)) % 0x1_0000_0000;
      KeepSmallFold(sum, OctetSum(fv[ip + 2..], false));
      sum := KeepSmall(sum);
      ip := ip + 2;
      len := len - 2;
    }
    OctetSumLast(fv, ip);
    if len > 0 {
      sum := sum + fv[ip];
    }
    var folded := FoldCarries(sum);
    LittleEndianSum(fv);
    cksum := Swap16(Inv(folded));
  }

  lemma SwapInv(x: u16)
    ensures Swap16(Inv(x)) == Inv(Swap16(x))
    ensures Swap16(Swap16(x)) == x
  {
    var h, l := x / 0x100, x % 0x100;
    assert Inv(x) == (0xFF - h) * 0x100 + (0xFF - l);
    assert Inv(x) / 0x100 == 0xFF - h && Inv(x) % 0x100 == 0xFF - l;
    assert Swap16(x) / 0x100 == l && Swap16(x) % 0x100 == h;
  }
}
