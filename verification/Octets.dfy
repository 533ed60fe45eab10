/** Bytes and the two byte orders. */
module Octets {

  newtype byte = x: int | 0 <= x < 256
  type Bytes = seq<byte>

  function Le16(p: Bytes, i: int): (n: nat)
    requires 0 <= i && i + 2 <= |p|
    ensures n < 0x1_0000
  {
    p[i] as nat + 0x100 * p[i + 1] as nat
  }

  function Be16(p: Bytes, i: int): (n: nat)
    requires 0 <= i && i + 2 <= |p|
    ensures n < 0x1_0000
  {
    0x100 * p[i] as nat + p[i + 1] as nat
  }

  function Be32(p: Bytes, i: int): (n: nat)
    requires 0 <= i && i + 4 <= |p|
    ensures n < 0x1_0000_0000
  {
    0x1_0000 * Be16(p, i) + Be16(p, i + 2)
  }

  function ToBe16(n: nat): (b: Bytes)
    requires n < 0x1_0000
    ensures |b| == 2 && Be16(b, 0) == n
  {
    [(n / 0x100) as byte, (n % 0x100) as byte]
  }

  function ToBe32(n: nat): (b: Bytes)
    requires n < 0x1_0000_0000
    ensures |b| == 4 && Be32(b, 0) == n
  {
    ToBe16(n / 0x1_0000) + ToBe16(n % 0x1_0000)
  }

  /** The other byte order of a 16-bit number. */
  function Reverse16(n: nat): (r: nat)
    requires n < 0x1_0000
    ensures r < 0x1_0000
  {
    n % 0x100 * 0x100 + n / 0x100
  }

  /** `s` stands in `p` from `at` on. */
  ghost predicate Holds(p: Bytes, at: int, s: Bytes) {
    0 <= at && at + |s| <= |p| && forall i :: 0 <= i < |s| ==> p[at + i] == s[i]
  }

  lemma HoldsPart(p: Bytes, at: int, head: Bytes, s: Bytes, tail: Bytes)
    requires Holds(p, at, head + s + tail)
    ensures Holds(p, at, head) && Holds(p, at + |head|, s) && Holds(p, at + |head| + |s|, tail)
  {
    var all := head + s + tail;
    forall i | 0 <= i < |head| ensures p[at + i] == head[i] {
      assert all[i] == head[i];
    }
    forall i | 0 <= i < |s| ensures p[at + |head| + i] == s[i] {
      assert all[|head| + i] == s[i];
    }
    forall i | 0 <= i < |tail| ensures p[at + |head| + |s| + i] == tail[i] {
      assert all[|head| + |s| + i] == tail[i];
    }
  }
}
