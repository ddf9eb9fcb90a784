/** Fixed-width machine integers, bytes and the little-endian byte order of x64,
    shared by every other module of the model. */
module Common {

  datatype Option<+T> = None | Some(value: T)

  const TWO_8: int := 0x100
  const TWO_16: int := 0x1_0000
  const TWO_32: int := 0x1_0000_0000
  const TWO_64: int := 0x1_0000_0000_0000_0000

  type Byte = b: int | 0 <= b < TWO_8
  type U16 = x: int | 0 <= x < TWO_16
  type U32 = x: int | 0 <= x < TWO_32
  type U64 = x: int | 0 <= x < TWO_64

  /** CHAR16, the UEFI code unit of wide strings. */
  type Char16 = U16

  /** A CHAR16 array read as a C string: the characters before the first L'\0', or all
      of them when there is none. */
  function UntilNul(s: seq<Char16>): (r: seq<Char16>)
    ensures r <= s
    ensures forall i :: 0 <= i < |r| ==> r[i] != 0
    ensures |r| < |s| ==> s[|r|] == 0
  {
    if |s| == 0 || s[0] == 0 then [] else [s[0]] + UntilNul(s[1..])
  }

  /** The string ends at its first terminator: a NUL at k with none before it gives
      exactly the k characters in front of it. */
  lemma UntilNulAt(s: seq<Char16>, k: nat)
    requires k < |s| && s[k] == 0
    requires forall i :: 0 <= i < k ==> s[i] != 0
    ensures UntilNul(s) == s[..k]
  {
  }

  /** The pointer width of every build the model covers (x64). */
  const POINTER_SIZE: nat := 8

  function Pow256(n: nat): (r: nat)
    ensures r >= 1
  {
    if n == 0 then 1 else 256 * Pow256(n - 1)
  }

  /** The n low-order bytes of x, least significant first (memory order on x64). */
  function Le(x: nat, n: nat): (r: seq<Byte>)
    ensures |r| == n
  {
    if n == 0 then [] else [x % 256] + Le(x / 256, n - 1)
  }

  /** The unsigned number whose little-endian representation is bs. */
  function FromLe(bs: seq<Byte>): (r: nat)
    ensures r < Pow256(|bs|)
  {
    if |bs| == 0 then 0 else bs[0] + 256 * FromLe(bs[1..])
  }

  /** Reading back n little-endian bytes gives the value stored, when it fits. */
  lemma {:induction false} FromLeLe(x: nat, n: nat)
    requires x < Pow256(n)
    ensures FromLe(Le(x, n)) == x
  {
    if n > 0 {
      assert x / 256 < Pow256(n - 1);
      FromLeLe(x / 256, n - 1);
      assert Le(x, n)[1..] == Le(x / 256, n - 1);
    }
  }

  /** Storing the value read from n bytes writes back the same n bytes. */
  lemma {:induction false} LeFromLe(bs: seq<Byte>)
    ensures Le(FromLe(bs), |bs|) == bs
  {
    if |bs| > 0 {
      LeFromLe(bs[1..]);
      assert FromLe(bs) % 256 == bs[0];
      assert FromLe(bs) / 256 == FromLe(bs[1..]);
    }
  }

  /** 256^8 is the size of the 64-bit address space. */
  lemma Pow256Eight()
    ensures Pow256(8) == TWO_64
  {
  }

  /** Storing a 64-bit value (a pointer) as 8 bytes loses nothing. */
  lemma Le64RoundTrip(x: U64)
    ensures FromLe(Le(x, 8)) == x
  {
    Pow256Eight();
    FromLeLe(x, 8);
  }

  /** sequence splice: bs overwrites s at position at, every other element kept */
  function Splice<T>(s: seq<T>, at: nat, bs: seq<T>): (r: seq<T>)
    requires at + |bs| <= |s|
    ensures |r| == |s|
    ensures r[at..at + |bs|] == bs
    ensures forall i :: 0 <= i < |s| && !(at <= i < at + |bs|) ==> r[i] == s[i]
  {
    s[..at] + bs + s[at + |bs|..]
  }

  /** Two adjacent splices are one splice of the concatenation. */
  lemma SpliceAdjacent<T>(s: seq<T>, at: nat, a: seq<T>, b: seq<T>)
    requires at + |a| + |b| <= |s|
    ensures Splice(Splice(s, at, a), at + |a|, b) == Splice(s, at, a + b)
  {
    var l := Splice(Splice(s, at, a), at + |a|, b);
    var r := Splice(s, at, a + b);
    forall i | 0 <= i < |s|
      ensures l[i] == r[i]
    {
      if at <= i < at + |a| {
        assert Splice(s, at, a)[at..at + |a|][i - at] == a[i - at];
        assert r[at..at + |a| + |b|][i - at] == (a + b)[i - at];
      } else if at + |a| <= i < at + |a| + |b| {
        assert l[at + |a|..at + |a| + |b|][i - at - |a|] == b[i - at - |a|];
        assert r[at..at + |a| + |b|][i - at] == (a + b)[i - at];
      }
    }
  }
}
