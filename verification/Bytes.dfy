/** Little-endian integers in byte buffers. */
module Bytes {

  type byte = x: int | 0 <= x < 256

  function Pow256(n: nat): (p: nat)
    ensures p > 0
  {
    if n == 0 then 1 else 256 * Pow256(n - 1)
  }

  // The low `n` bytes of `v`, least significant first.
  function PutLe(v: nat, n: nat): (s: seq<byte>)
    ensures |s| == n
  {
    if n == 0 then [] else [v % 256] + PutLe(v / 256, n - 1)
  }

  function GetLe(s: seq<byte>): nat {
    if s == [] then 0 else s[0] + 256 * GetLe(s[1..])
  }

  lemma {:induction false} GetBound(s: seq<byte>)
    ensures GetLe(s) < Pow256(|s|)
  {
    if s != [] {
      GetBound(s[1..]);
    }
  }

  lemma {:induction false} GetPut(v: nat, n: nat)
    requires v < Pow256(n)
    ensures GetLe(PutLe(v, n)) == v
  {
    if n > 0 {
      GetPut(v / 256, n - 1);
      assert PutLe(v, n)[1..] == PutLe(v / 256, n - 1);
    }
  }

  lemma {:induction false} PutGet(s: seq<byte>)
    ensures PutLe(GetLe(s), |s|) == s
  {
    if s != [] {
      PutGet(s[1..]);
      var v := GetLe(s);
      assert v % 256 == s[0] && v / 256 == GetLe(s[1..]);
    }
  }

  // Two's complement.
  function ToUnsigned(v: int, n: nat): int {
    if v < 0 then v + Pow256(n) else v
  }

  function ToSigned(u: int, n: nat): int {
    if 2 * u >= Pow256(n) then u - Pow256(n) else u
  }

  predicate FitsUnsigned(v: int, n: nat) {
    0 <= v < Pow256(n)
  }

  predicate FitsSigned(v: int, n: nat) {
    0 - Pow256(n) <= 2 * v < Pow256(n)
  }

  lemma SignedRoundTrip(v: int, n: nat)
    requires FitsSigned(v, n)
    ensures FitsUnsigned(ToUnsigned(v, n), n) && ToSigned(ToUnsigned(v, n), n) == v
  {
  }

  lemma UnsignedRoundTrip(u: int, n: nat)
    requires FitsUnsigned(u, n)
    ensures FitsSigned(ToSigned(u, n), n) && ToUnsigned(ToSigned(u, n), n) == u
  {
  }

  // `putU8`, `putU32`, `putU64`: byte `i` is the value shifted right by 8 i bits.
  method Put(dst: array<byte>, at: nat, v: nat, n: nat)
    requires at + n <= dst.Length
    modifies dst
    ensures dst[..] == old(dst[..at]) + PutLe(v, n) + old(dst[at + n..])
  {
    var i, rest := 0, v;
    ghost var all := PutLe(v, n);
    while i < n
      invariant 0 <= i <= n
      invariant all[i..] == PutLe(rest, n - i)
      invariant dst[..at] == old(dst[..at]) && dst[at + n..] == old(dst[at + n..])
      invariant dst[at..at + i] == all[..i]
    {
      assert all[i..][1..] == all[i + 1..];
      dst[at + i] := rest % 256;
      assert dst[at..at + i + 1] == dst[at..at + i] + [all[i]];
      rest := rest / 256;
      i := i + 1;
    }
    assert dst[..] == dst[..at] + dst[at..at + n] + dst[at + n..];
  }

  // `memcpy`
  method Copy(dst: array<byte>, at: nat, s: seq<byte>)
    requires at + |s| <= dst.Length
    modifies dst
    ensures dst[..] == old(dst[..at]) + s + old(dst[at + |s|..])
  {
    var i := 0;
    while i < |s|
      invariant 0 <= i <= |s|
      invariant dst[..at] == old(dst[..at]) && dst[at + |s|..] == old(dst[at + |s|..])
      invariant dst[at..at + i] == s[..i]
    {
      dst[at + i] := s[i];
      assert dst[at..at + i + 1] == dst[at..at + i] + [s[i]];
      i := i + 1;
    }
    assert dst[..] == dst[..at] + dst[at..at + |s|] + dst[at + |s|..];
  }

  // `getU8`, `getU32`, `getU64`: the bytes or-ed together at their shifts.
  method Get(src: array<byte>, at: nat, n: nat) returns (v: nat)
    requires at + n <= src.Length
    ensures v == GetLe(src[at..at + n])
  {
    v := 0;
    var i := 0;
    while i < n
      invariant 0 <= i <= n && v == GetLe(src[at..at + i])
    {
      GetSnoc(src[at..at + i], src[at + i]);
      assert src[at..at + i + 1] == src[at..at + i] + [src[at + i]];
      v := v + src[at + i] * Pow256(i);
      i := i + 1;
    }
  }

  lemma {:induction false} GetSnoc(s: seq<byte>, b: byte)
    ensures GetLe(s + [b]) == GetLe(s) + b * Pow256(|s|)
  {
    if s == [] {
      assert s + [b] == [b];
      assert [b][1..] == [];
    } else {
      GetSnoc(s[1..], b);
      assert (s + [b])[1..] == s[1..] + [b];
      assert 256 * (b * Pow256(|s| - 1)) == b * (256 * Pow256(|s| - 1));
    }
  }
}
