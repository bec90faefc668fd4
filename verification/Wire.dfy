/** Little-endian integers and length-prefixed frames on a byte stream. */
module Wire {
  import opened Bytes
  import opened Division

  const MAX_MESSAGE: nat := 64 * 1024 * 1024
  const U32: nat := 0x1_0000_0000

  datatype WireError = UnexpectedEof | InvalidData

  /** What a read took off the front of a stream, and what it left. */
  datatype Read<+T> = Got(value: T, rest: Bytes) | Failed(error: WireError)

  // ----- Little-endian integers -----

  function Pow256(k: nat): (p: nat)
    ensures p > 0
  {
    if k == 0 then 1 else 256 * Pow256(k - 1)
  }

  /** The low k bytes of n, least significant first. */
  function Le(n: nat, k: nat): (b: Bytes)
    ensures |b| == k
  {
    if k == 0 then [] else [n % 256] + Le(n / 256, k - 1)
  }

  function FromLe(b: Bytes): nat {
    if b == [] then 0 else b[0] + 256 * FromLe(b[1..])
  }

  lemma ModUnique(n: nat, c: nat, q: nat, r: nat)
    requires r < c && n == q * c + r
    ensures n % c == r
  {
    DivUnique(n, c, q);
    DivBounds(n, c);
  }

  lemma ModOfLimbs(n: nat, p: nat)
    requires p > 0
    ensures n % 256 + 256 * (n / 256 % p) == n % (256 * p)
  {
    var q, r := n / 256, n % 256;
    DivBounds(q, p);
    var d, m := q / p, q % p;
    assert n == d * (256 * p) + (256 * m + r) by {
      assert d * (256 * p) == 256 * (d * p);
    }
    ModUnique(n, 256 * p, d, 256 * m + r);
  }

  /** Reading back keeps the value modulo the width. */
  lemma {:induction false} FromLeOfLe(n: nat, k: nat)
    ensures FromLe(Le(n, k)) == n % Pow256(k)
  {
    if k > 0 {
      FromLeOfLe(n / 256, k - 1);
      ModOfLimbs(n, Pow256(k - 1));
      assert Le(n, k)[1..] == Le(n / 256, k - 1);
    }
  }

  lemma Widths()
    ensures Pow256(2) == 65536 && Pow256(4) == U32
    ensures Pow256(8) == 0x1_0000_0000_0000_0000
  {
    assert Pow256(0) == 1 && Pow256(1) == 256 && Pow256(3) == 16777216;
    assert Pow256(5) == 0x100_0000_0000 && Pow256(6) == 0x1_0000_0000_0000 && Pow256(7) == 0x100_0000_0000_0000;
  }

  /** A value that fits its field comes back as it was. */
  lemma LeRoundTrip(n: nat, k: nat)
    requires n < Pow256(k)
    ensures FromLe(Le(n, k)) == n
  {
    FromLeOfLe(n, k);
    ModUnique(n, Pow256(k), 0, n);
  }

  lemma {:induction false} FromLeBound(b: Bytes)
    ensures FromLe(b) < Pow256(|b|)
  {
    if b != [] { FromLeBound(b[1..]); }
  }

  lemma Limb(low: nat, high: nat)
    requires low < 256
    ensures (low + 256 * high) % 256 == low && (low + 256 * high) / 256 == high
  {
  }

  /** A field's value determines its bytes. */
  lemma {:induction false} LeOfFromLe(b: Bytes)
    ensures Le(FromLe(b), |b|) == b
  {
    if b != [] {
      LeOfFromLe(b[1..]);
      Limb(b[0], FromLe(b[1..]));
    }
  }

  // ----- Streams and frames -----

  function ReadExact(s: Bytes, n: nat): Read<Bytes> {
    if |s| < n then Failed(UnexpectedEof) else Got(s[..n], s[n..])
  }

  /** A u32 length between lo and hi, and that many bytes. */
  function ReadFrame(s: Bytes, lo: nat, hi: nat): Read<Bytes> {
    if |s| < 4 then Failed(UnexpectedEof) else
    var len := FromLe(s[..4]);
    if !(lo <= len <= hi) then Failed(InvalidData) else ReadExact(s[4..], len)
  }

  lemma Concat(a: Bytes, b: Bytes, c: Bytes)
    ensures a + b + c == a + (b + c)
  {
  }

  lemma HeadAndTail(head: Bytes, body: Bytes, rest: Bytes)
    ensures (head + body + rest)[..|head|] == head && (head + body + rest)[|head|..] == body + rest
    ensures (body + rest)[..|body|] == body && (body + rest)[|body|..] == rest
  {
  }

  /** A frame written with its length field is read back, and the rest stays. */
  lemma FrameRoundTrip(body: Bytes, rest: Bytes, lo: nat, hi: nat)
    requires lo <= |body| <= hi < U32
    ensures ReadFrame(Le(|body|, 4) + body + rest, lo, hi) == Got(body, rest)
  {
    Widths();
    LeRoundTrip(|body|, 4);
    HeadAndTail(Le(|body|, 4), body, rest);
  }

  class Io {
    var input: Bytes
    var output: Bytes

    constructor (input: Bytes)
      ensures this.input == input && output == []
    {
      this.input := input;
      output := [];
    }

    method Take(n: nat) returns (r: Read<Bytes>)
      modifies this`input
      ensures r == ReadExact(old(input), n)
      ensures r.Got? ==> input == r.rest
    {
      r := ReadExact(input, n);
      input := if r.Got? then r.rest else [];
    }

    method TakeFrame(lo: nat, hi: nat) returns (r: Read<Bytes>)
      modifies this`input
      ensures r == ReadFrame(old(input), lo, hi)
      ensures r.Got? ==> input == r.rest
    {
      var head := Take(4);
      if head.Failed? { return Failed(head.error); }
      var len := FromLe(head.value);
      if !(lo <= len <= hi) { return Failed(InvalidData); }
      r := Take(len);
    }

    method WriteAll(b: Bytes)
      modifies this`output
      ensures output == old(output) + b
    {
      output := output + b;
    }
  }
}
