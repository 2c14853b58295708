/** Bytes on the serial line and the few Python built-ins the driver leans on:
    `bytes` values, slicing, `int.from_bytes`/`int.to_bytes` and a read with a timeout. */
module Wire {

  /** One octet on the serial line. */
  type Byte = x: int | 0 <= x < 256

  /** Python's `a ^ b` on two byte values. */
  function Xor(a: Byte, b: Byte): Byte
  {
    ((a as bv8) ^ (b as bv8)) as int
  }

  /** XOR with zero leaves a byte unchanged: `op ^ 0 == op`. */
  lemma XorZero(a: Byte)
    ensures Xor(a, 0) == a
  {
  }

  /** A value or the error that the Python code would raise instead. */
  datatype Result<T, E> = Ok(value: T) | Err(error: E)

  /** A call that returns nothing useful on success, or raises. */
  datatype Outcome<E> = Pass | Fail(error: E)

  datatype Option<T> = None | Some(value: T)

  function Min(a: int, b: int): int { if a <= b then a else b }

  /** The first `n` elements, or all of them when there are fewer: what a serial
      read of `n` bytes returns once its timeout has passed. */
  function Take<T>(s: seq<T>, n: nat): (r: seq<T>)
    ensures |r| == Min(n, |s|)
    ensures r == s[..|r|]
  {
    if n <= |s| then s[..n] else s
  }

  /** What is left after `Take(s, n)`. */
  function Drop<T>(s: seq<T>, n: nat): (r: seq<T>)
    ensures Take(s, n) + r == s
    ensures |r| == |s| - Min(n, |s|)
  {
    if n <= |s| then s[n..] else []
  }

  lemma DropDrop<T>(s: seq<T>, a: nat, b: nat)
    ensures Drop(Drop(s, a), b) == Drop(s, a + b)
  {
  }

  /** Python's normalisation of one slice bound: a negative bound counts from
      the end, and the result is clamped to `0..n`. */
  function SliceBound(i: int, n: nat): (k: nat)
    ensures k <= n
    ensures 0 <= i <= n ==> k == i
    ensures -(n as int) <= i < 0 ==> k == n + i
    ensures i > n ==> k == n
    ensures i < -(n as int) ==> k == 0
  {
    var j := if i < 0 then i + n else i;
    if j < 0 then 0 else if j > n then n else j
  }

  /** Python's `s[lo:hi]`, which never raises. */
  function PySlice<T>(s: seq<T>, lo: int, hi: int): (r: seq<T>)
    ensures |r| <= |s|
    ensures 0 <= lo <= hi <= |s| ==> r == s[lo..hi]
    ensures SliceBound(hi, |s|) <= SliceBound(lo, |s|) ==> r == []
    ensures SliceBound(lo, |s|) <= SliceBound(hi, |s|) ==> r == s[SliceBound(lo, |s|)..SliceBound(hi, |s|)]
  {
    var a, b := SliceBound(lo, |s|), SliceBound(hi, |s|);
    if a <= b then s[a..b] else []
  }

  /** `int.from_bytes(bs, 'big')`. */
  function BigEndian(bs: seq<Byte>): nat
  {
    if bs == [] then 0 else BigEndian(bs[..|bs| - 1]) * 256 + bs[|bs| - 1]
  }

  /** `n.to_bytes(2, 'big')`, which raises OverflowError from 65536 on. */
  function ToBytes2(n: nat): (r: Option<seq<Byte>>)
    ensures r.Some? <==> n < 0x1_0000
    ensures r.Some? ==> |r.value| == 2 && BigEndian(r.value) == n
  {
    if n < 0x1_0000 then
      var bs := [n / 256, n % 256];
      BigEndianPair(bs[0], bs[1]);
      Some(bs)
    else None
  }

  /** Two bytes read big-endian give their 16-bit value. */
  lemma BigEndianPair(hi: Byte, lo: Byte)
    ensures BigEndian([hi, lo]) == hi * 256 + lo
    ensures BigEndian([hi, lo]) < 0x1_0000
  {
    assert [hi, lo][..1] == [hi];
    assert [hi][..0] == [];
    assert BigEndian([hi]) == hi;
  }
}
