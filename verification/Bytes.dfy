/** Fixed-width big-endian numbers, as the store's metadata values and the log's record headers hold them. */
module Bytes {

  const UINT64_LIMIT: nat := 0x1_0000_0000_0000_0000
  const UINT32_LIMIT: nat := 0x1_0000_0000

  function Pow256(n: nat): (p: nat)
    ensures p >= 1
  {
    if n == 0 then 1 else 256 * Pow256(n - 1)
  }

  /** The low `n` bytes of a number, most significant first. */
  function BigEndian(value: nat, n: nat): (bytes: string)
    ensures |bytes| == n
  {
    if n == 0 then [] else BigEndian(value / 256, n - 1) + [(value % 256) as char]
  }

  function FromBigEndian(bytes: string): nat {
    if bytes == [] then 0
    else FromBigEndian(bytes[..|bytes| - 1]) * 256 + bytes[|bytes| - 1] as nat
  }

  lemma {:induction false} BigEndianRoundTrip(value: nat, n: nat)
    requires value < Pow256(n)
    ensures FromBigEndian(BigEndian(value, n)) == value
  {
    if n > 0 {
      var bytes := BigEndian(value, n);
      assert bytes[..n - 1] == BigEndian(value / 256, n - 1);
      BigEndianRoundTrip(value / 256, n - 1);
    }
  }

  /** The bytes of the two widths the code uses, most significant first. */
  lemma BigEndianBytes(value: nat)
    ensures BigEndian(value, 4) ==
              [(value / 0x100_0000 % 256) as char, (value / 0x1_0000 % 256) as char,
               (value / 0x100 % 256) as char, (value % 256) as char]
    ensures BigEndian(value, 8) == BigEndian(value / 0x1_0000_0000, 4) + BigEndian(value, 4)
  {
    hide BigEndian;
    FourBytes(value, 0);
    FourBytes(value, 4);
  }

  lemma FourBytes(value: nat, n: nat)
    ensures BigEndian(value, n + 4) ==
              BigEndian(value / 0x1_0000_0000, n)
              + [(value / 0x100_0000 % 256) as char, (value / 0x1_0000 % 256) as char,
                 (value / 0x100 % 256) as char, (value % 256) as char]
  {
    var a := value / 256;
    var b := a / 256;
    var c := b / 256;
    assert b == value / 0x1_0000 && c == value / 0x100_0000 && c / 256 == value / 0x1_0000_0000;
    assert BigEndian(value, n + 4) == BigEndian(a, n + 3) + [(value % 256) as char];
    assert BigEndian(a, n + 3) == BigEndian(b, n + 2) + [(a % 256) as char];
    assert BigEndian(b, n + 2) == BigEndian(c, n + 1) + [(b % 256) as char];
    assert BigEndian(c, n + 1) == BigEndian(c / 256, n) + [(c % 256) as char];
  }

  /** Widths used by the code: 4 bytes hold every length below 2^32, 8 bytes every index below 2^64. */
  lemma WidthsSuffice()
    ensures Pow256(4) == UINT32_LIMIT
    ensures Pow256(8) == UINT64_LIMIT
  {
    assert Pow256(4) == 256 * (256 * (256 * (256 * Pow256(0))));
    assert Pow256(8) == 256 * (256 * (256 * (256 * Pow256(4))));
  }
}
