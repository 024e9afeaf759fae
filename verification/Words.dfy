/** Big-endian words: what `big.Int.SetBytes` reads and `big.Int.Bytes` writes. */
module Words {
  import opened Types

  type Bytes = seq<uint8>

  /** The unsigned number a byte string spells, most significant byte first. */
  function SetBytes(b: Bytes): nat {
    if b == [] then 0 else SetBytes(b[..|b| - 1]) * 256 + b[|b| - 1] as nat
  }

  /** Read from the front: each byte weighs 256 to the number of bytes after it. */
  lemma {:induction false} BigEndian(first: uint8, rest: Bytes)
    ensures SetBytes([]) == 0
    ensures SetBytes([first] + rest) == first as nat * Pow256(|rest|) + SetBytes(rest)
  {
    var b := [first] + rest;
    if rest == [] {
      assert b[..0] == [];
    } else {
      BigEndian(first, rest[..|rest| - 1]);
      assert b[..|b| - 1] == [first] + rest[..|rest| - 1];
    }
  }

  function Pow256(k: nat): nat {
    if k == 0 then 1 else 256 * Pow256(k - 1)
  }

  /** The shortest big-endian spelling: no leading zero byte, nothing at all for zero. */
  function MinimalBytes(n: nat): Bytes {
    if n == 0 then [] else MinimalBytes(n / 256) + [(n % 256) as uint8]
  }

  function Zeros(k: nat): Bytes {
    seq(k, _ => 0)
  }

  /** A number right-aligned in `width` bytes, as an ABI encoder lays out an unsigned integer. */
  function PadLeft(n: nat, width: nat): (b: Bytes)
    requires n < Pow256(width)
    ensures |b| == width
  {
    MinimalFits(n, width);
    Zeros(width - |MinimalBytes(n)|) + MinimalBytes(n)
  }

  lemma {:induction false} MinimalFits(n: nat, width: nat)
    requires n < Pow256(width)
    ensures |MinimalBytes(n)| <= width
  {
    if n != 0 {
      MinimalFits(n / 256, width - 1);
    }
  }

  lemma {:induction false} ReadMinimal(n: nat)
    ensures SetBytes(MinimalBytes(n)) == n
  {
    if n != 0 {
      ReadMinimal(n / 256);
      assert MinimalBytes(n)[..|MinimalBytes(n)| - 1] == MinimalBytes(n / 256);
    }
  }

  /** Leading zero bytes do not change the number. */
  lemma {:induction false} ReadPadded(k: nat, b: Bytes)
    ensures SetBytes(Zeros(k) + b) == SetBytes(b)
  {
    var z := Zeros(k) + b;
    if b != [] {
      ReadPadded(k, b[..|b| - 1]);
      assert z[..|z| - 1] == Zeros(k) + b[..|b| - 1];
    } else if k > 0 {
      ReadPadded(k - 1, []);
      assert z[..k - 1] == Zeros(k - 1) + [];
    }
  }

  lemma ReadWord(n: nat, width: nat)
    requires n < Pow256(width)
    ensures SetBytes(PadLeft(n, width)) == n
  {
    MinimalFits(n, width);
    ReadPadded(width - |MinimalBytes(n)|, MinimalBytes(n));
    ReadMinimal(n);
  }

  lemma {:induction false} ReadBound(b: Bytes)
    ensures SetBytes(b) < Pow256(|b|)
  {
    if b != [] {
      ReadBound(b[..|b| - 1]);
    }
  }

  /** Byte strings of one width that spell the same number are equal. */
  lemma {:induction false} ReadInjective(a: Bytes, b: Bytes)
    requires |a| == |b| && SetBytes(a) == SetBytes(b)
    ensures a == b
  {
    if a != [] {
      var k := |a| - 1;
      ReadInjective(a[..k], b[..k]);
      assert a == a[..k] + [a[k]] && b == b[..k] + [b[k]];
    }
  }

  /** A padded encoding is the only string of its width that reads back as the number. */
  lemma WriteWord(b: Bytes)
    ensures SetBytes(b) < Pow256(|b|)
    ensures PadLeft(SetBytes(b), |b|) == b
  {
    ReadBound(b);
    ReadWord(SetBytes(b), |b|);
    ReadInjective(PadLeft(SetBytes(b), |b|), b);
  }

  lemma Word32Bound()
    ensures Pow256(32) == 0x1_0000000000000000_0000000000000000_0000000000000000_0000000000000000
    ensures Pow256(20) == 0x1_0000000000_0000000000_0000000000_0000000000
  {
    Pow256Add(16, 16);
    Pow256Add(8, 8);
    Pow256Add(16, 4);
    assert Pow256(4) == 0x1_0000_0000;
    Pow256Add(4, 4);
  }

  lemma {:induction false} Pow256Add(j: nat, k: nat)
    ensures Pow256(j + k) == Pow256(j) * Pow256(k)
  {
    if j != 0 {
      Pow256Add(j - 1, k);
    }
  }

  // ---- contract answers ----

  /** `common.BytesToAddress`: the last 20 bytes. */
  function BytesToAddress(b: Bytes): Address
    requires |b| == 32
  {
    ReadBound(b[12..]);
    Word32Bound();
    SetBytes(b[12..]) as Address
  }

  /** The address in a word is the number its last twenty bytes spell. */
  lemma AddressOfWord(junk: Bytes, tail: Bytes)
    requires |junk| == 12 && |tail| == 20
    ensures BytesToAddress(junk + tail) as nat == SetBytes(tail)
  {
    assert (junk + tail)[12..] == tail;
  }

  /** An address padded to a word reads back, and the twelve bytes before it are never looked at. */
  lemma AddressRoundTrip(a: Address, junk: Bytes)
    requires |junk| == 12
    ensures Pow256(20) > a as nat
    ensures |junk + PadLeft(a as nat, 20)| == 32 && BytesToAddress(junk + PadLeft(a as nat, 20)) == a
  {
    Word32Bound();
    ReadWord(a as nat, 20);
    assert (junk + PadLeft(a as nat, 20))[12..] == PadLeft(a as nat, 20);
  }
}
