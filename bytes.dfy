/** Bytes and the integer layouts built from them: unsigned big-endian
    (network byte order), the host's native order as `memcpy` sees it, the
    `ntohs`/`ntohl`/`ntohll` conversions between the two, and two's complement
    for signed fields. */
module Bytes {

  newtype byte = x: int | 0 <= x < 256

  /** 256 to the power `w`: one more than the largest unsigned value of `w` bytes. */
  function Pow256(w: nat): (r: nat)
    ensures r >= 1
  {
    if w == 0 then 1 else 256 * Pow256(w - 1)
  }

  lemma Pow256Values()
    ensures Pow256(1) == 0x100 && Pow256(2) == 0x1_0000
    ensures Pow256(4) == 0x1_0000_0000 && Pow256(8) == 0x1_0000_0000_0000_0000
  {
    assert Pow256(2) == 256 * Pow256(1);
    assert Pow256(3) == 256 * Pow256(2);
    assert Pow256(4) == 256 * Pow256(3);
    assert Pow256(8) == 256 * 256 * 256 * 256 * Pow256(4);
  }

  /** The unsigned value of `s` read most significant byte first. */
  function BigEndian(s: seq<byte>): (n: nat)
    ensures n < Pow256(|s|)
  {
    if s == [] then 0
    else
      var high := BigEndian(s[..|s| - 1]);
      assert high * 256 <= (Pow256(|s| - 1) - 1) * 256;
      high * 256 + s[|s| - 1] as nat
  }

  /** The `w` bytes of `n`, most significant first. */
  function ToBigEndian(n: nat, w: nat): (s: seq<byte>)
    requires n < Pow256(w)
    ensures |s| == w
  {
    if w == 0 then []
    else ToBigEndian(n / 256, w - 1) + [(n % 256) as byte]
  }

  /** Splitting off the last byte of a number: its quotient and remainder by 256. */
  lemma DivMod256(high: nat, low: nat)
    requires low < 256
    ensures (high * 256 + low) / 256 == high && (high * 256 + low) % 256 == low
  {
  }

  /** Reading back what was written gives the number that was written. */
  lemma {:induction false} BigEndianOfToBigEndian(n: nat, w: nat)
    requires n < Pow256(w)
    ensures BigEndian(ToBigEndian(n, w)) == n
  {
    if w > 0 {
      var s := ToBigEndian(n, w);
      assert s == ToBigEndian(n / 256, w - 1) + [(n % 256) as byte];
      assert s[..w - 1] == ToBigEndian(n / 256, w - 1);
      BigEndianOfToBigEndian(n / 256, w - 1);
      assert BigEndian(s) == BigEndian(s[..w - 1]) * 256 + s[w - 1] as nat;
    }
  }

  /** Writing back what was read gives the bytes that were read. */
  lemma {:induction false} ToBigEndianOfBigEndian(s: seq<byte>)
    ensures ToBigEndian(BigEndian(s), |s|) == s
  {
    if s != [] {
      var init, last := s[..|s| - 1], s[|s| - 1];
      var high := BigEndian(init);
      assert BigEndian(s) == high * 256 + last as nat;
      DivMod256(high, last as nat);
      ToBigEndianOfBigEndian(init);
      assert ToBigEndian(BigEndian(s), |s|) == ToBigEndian(high, |s| - 1) + [last];
      assert s == init + [last];
    }
  }

  datatype ByteOrder = LittleEndianHost | BigEndianHost

  function Reverse(s: seq<byte>): (r: seq<byte>)
    ensures |r| == |s|
    ensures forall i :: 0 <= i < |s| ==> r[i] == s[|s| - 1 - i]
  {
    if s == [] then [] else Reverse(s[1..]) + [s[0]]
  }

  lemma ReverseReverse(s: seq<byte>)
    ensures Reverse(Reverse(s)) == s
  {
    assert forall i :: 0 <= i < |s| ==> Reverse(Reverse(s))[i] == s[i];
  }

  /** The unsigned value `memcpy` puts into a `|s|`-byte integer on a host of
      the given byte order. */
  function HostLoad(order: ByteOrder, s: seq<byte>): (n: nat)
    ensures n < Pow256(|s|)
  {
    match order
    case BigEndianHost => BigEndian(s)
    case LittleEndianHost => BigEndian(Reverse(s))
  }

  /** The bytes `memcpy` writes out of a `w`-byte integer holding `n`. */
  function HostStore(order: ByteOrder, n: nat, w: nat): (s: seq<byte>)
    requires n < Pow256(w)
    ensures |s| == w
  {
    match order
    case BigEndianHost => ToBigEndian(n, w)
    case LittleEndianHost => Reverse(ToBigEndian(n, w))
  }

  /** `ntohs` (w = 2), `ntohl` (w = 4) and `ntohll` (w = 8): the identity on a
      big-endian host, a byte swap on a little-endian one. */
  function NetworkToHost(order: ByteOrder, x: nat, w: nat): (r: nat)
    requires x < Pow256(w)
    ensures r < Pow256(w)
  {
    match order
    case BigEndianHost => x
    case LittleEndianHost => BigEndian(Reverse(ToBigEndian(x, w)))
  }

  /** Whatever the host, loading network-order bytes into an integer and then
      converting it with `ntoh*` yields the big-endian value of the bytes. */
  lemma NetworkToHostOfLoad(order: ByteOrder, s: seq<byte>)
    ensures NetworkToHost(order, HostLoad(order, s), |s|) == BigEndian(s)
  {
    if order == LittleEndianHost {
      ToBigEndianOfBigEndian(Reverse(s));
      ReverseReverse(s);
    }
  }

  /** Storing an integer natively and loading it back on the same host gives
      the integer back. */
  lemma HostLoadOfStore(order: ByteOrder, n: nat, w: nat)
    requires n < Pow256(w)
    ensures HostLoad(order, HostStore(order, n, w)) == n
  {
    BigEndianOfToBigEndian(n, w);
    if order == LittleEndianHost {
      ReverseReverse(ToBigEndian(n, w));
    }
  }

  /** Loading bytes natively and storing the integer back on the same host
      gives the bytes back. */
  lemma HostStoreOfLoad(order: ByteOrder, s: seq<byte>)
    ensures HostStore(order, HostLoad(order, s), |s|) == s
  {
    if order == LittleEndianHost {
      ToBigEndianOfBigEndian(Reverse(s));
      ReverseReverse(s);
    } else {
      ToBigEndianOfBigEndian(s);
    }
  }

  /** Half the range of a `w`-byte integer: signed values lie in [-Half, Half). */
  function Half(w: nat): (h: nat)
    requires w >= 1
    ensures 2 * h == Pow256(w)
  {
    128 * Pow256(w - 1)
  }

  predicate InSignedRange(x: int, w: nat)
    requires w >= 1
  {
    -(Half(w) as int) <= x < Half(w)
  }

  /** The bit pattern of the signed `w`-byte integer `x`, as an unsigned number. */
  function TwosComplement(x: int, w: nat): (u: nat)
    requires w >= 1 && InSignedRange(x, w)
    ensures u < Pow256(w)
    ensures (u < Half(w)) == (x >= 0)
    ensures u - x == 0 || u - x == Pow256(w)
  {
    if x < 0 then x + Pow256(w) else x
  }

  /** The signed `w`-byte integer whose bit pattern is `u`. */
  function FromTwosComplement(u: nat, w: nat): (x: int)
    requires w >= 1 && u < Pow256(w)
    ensures InSignedRange(x, w)
    ensures (x >= 0) == (u < Half(w))
    ensures u - x == 0 || u - x == Pow256(w)
  {
    if u >= Half(w) then u - Pow256(w) else u
  }

  lemma SignedRoundTrip(x: int, w: nat)
    requires w >= 1 && InSignedRange(x, w)
    ensures FromTwosComplement(TwosComplement(x, w), w) == x
  {
  }

  lemma UnsignedRoundTrip(u: nat, w: nat)
    requires w >= 1 && u < Pow256(w)
    ensures TwosComplement(FromTwosComplement(u, w), w) == u
  {
  }

  /** `memcpy` of `bytes` to `buf` at `addr`, followed by the cursor advance of
      the `memwrite` macros: the new cursor is returned. */
  method MemWrite(buf: array<byte>, addr: nat, bytes: seq<byte>) returns (next: nat)
    requires addr + |bytes| <= buf.Length
    modifies buf
    ensures next == addr + |bytes|
    ensures buf[..] == old(buf[..addr]) + bytes + old(buf[next..])
  {
    forall i | addr <= i < addr + |bytes| {
      buf[i] := bytes[i - addr];
    }
    next := addr + |bytes|;
    assert buf[..] == old(buf[..addr]) + bytes + old(buf[next..]);
  }

  /** Two `memwrite`s where the second starts where the first ended write
      the concatenation of their bytes. */
  lemma ConsecutiveWrites(b0: seq<byte>, b1: seq<byte>, b2: seq<byte>, addr: nat, x: seq<byte>, y: seq<byte>)
    requires addr + |x| + |y| <= |b0|
    requires b1 == b0[..addr] + x + b0[addr + |x|..]
    requires b2 == b1[..addr + |x|] + y + b1[addr + |x| + |y|..]
    ensures b2 == b0[..addr] + (x + y) + b0[addr + |x| + |y|..]
  {
    assert b1[..addr + |x|] == b0[..addr] + x;
    assert b1[addr + |x| + |y|..] == b0[addr + |x| + |y|..];
  }

  /** Three `memwrite`s, each starting where the previous one ended, write
      the concatenation of their bytes. */
  lemma ThreeWrites(b0: seq<byte>, b1: seq<byte>, b2: seq<byte>, b3: seq<byte>, addr: nat,
                    x: seq<byte>, y: seq<byte>, z: seq<byte>)
    requires addr + |x| + |y| + |z| <= |b0|
    requires b1 == b0[..addr] + x + b0[addr + |x|..]
    requires b2 == b1[..addr + |x|] + y + b1[addr + |x| + |y|..]
    requires b3 == b2[..addr + |x| + |y|] + z + b2[addr + |x| + |y| + |z|..]
    ensures b3 == b0[..addr] + (x + y + z) + b0[addr + |x| + |y| + |z|..]
  {
    ConsecutiveWrites(b0, b1, b2, addr, x, y);
    ConsecutiveWrites(b0, b2, b3, addr, x + y, z);
  }

  /** A slice of a located sequence is located at the same offset. */
  lemma SubSlice(buf: seq<byte>, pos: nat, e: seq<byte>, i: nat, j: nat)
    requires pos + |e| <= |buf| && buf[pos..pos + |e|] == e && i <= j <= |e|
    ensures buf[pos + i..pos + j] == e[i..j]
  {
    forall k | 0 <= k < j - i
      ensures buf[pos + i..pos + j][k] == e[i..j][k]
    {
      assert buf[pos + i + k] == buf[pos..pos + |e|][i + k];
    }
  }

  /** A slice of a suffix is a slice of the whole. */
  lemma SuffixSlice(buf: seq<byte>, pos: nat, i: nat, j: nat)
    requires pos + j <= |buf| && i <= j
    ensures buf[pos..][i..j] == buf[pos + i..pos + j]
  {
  }
}
