/**
 Names and bytes of cache files: the hash and the path of src/cache/cache.c, and the
 32 bytes of a `cache_entry_header_t` on a 64-bit little-endian machine.
 */
module CacheFormat {
  import opened StringUtil

  // ----- hashing -----

  const FNV_OFFSET: bv64 := 14695981039346656037

  function With(x: bv64, c: bv8): bv64 {
    x ^ (c as bv64)
  }

  function TimesPrime(x: bv64): bv64 {
    x * 1099511628211
  }

  function Mix(h: bv64, c: char): bv64 {
    TimesPrime(With(h, Octet(c)))
  }

  function HashFrom(h: bv64, s: string): bv64
    decreases |s|
  {
    if s == "" then h else HashFrom(Mix(h, s[0]), s[1..])
  }

  const WORD: nat := 0x1_0000_0000_0000_0000

  /** `fnv1a` of a key, as a number. */
  function Hash(key: string): (r: nat)
    ensures r < WORD
  {
    HashFrom(FNV_OFFSET, key) as nat
  }

  method Fnv1a(data: string) returns (h: bv64)
    ensures h as nat == Hash(data)
  {
    h := FNV_OFFSET;
    var i := 0;
    while i < |data|
      invariant 0 <= i <= |data|
      invariant HashFrom(FNV_OFFSET, data) == HashFrom(h, data[i..])
    {
      assert data[i..][1..] == data[i + 1..];
      h := Mix(h, data[i]);
      i := i + 1;
    }
  }

  // ----- what the hash tells apart -----

  /** Multiplication by the inverse of the prime. */
  function Back(x: bv64): bv64 {
    x * 14886173955864302971
  }

  lemma BackUndoes(x: bv64)
    ensures Back(TimesPrime(x)) == x
  {
    hide Back;
    InverseOfPrime(x);
  }

  lemma InverseOfPrime(x: bv64)
    ensures Back(x * 1099511628211) == x
  {
  }

  lemma WithTellsState(x: bv64, y: bv64, c: bv8)
    ensures x != y ==> With(x, c) != With(y, c)
  {
  }

  lemma WithTellsOctet(x: bv64, c: bv8, d: bv8)
    ensures c != d ==> With(x, c) != With(x, d)
  {
  }

  /** A step loses neither the state nor the octet. */
  lemma MixTells(h: bv64, g: bv64, c: char, d: char)
    ensures h != g ==> Mix(h, c) != Mix(g, c)
    ensures Octet(c) != Octet(d) ==> Mix(h, c) != Mix(h, d)
  {
    hide Octet, With, TimesPrime, Back;
    WithTellsState(h, g, Octet(c));
    WithTellsOctet(h, Octet(c), Octet(d));
    BackUndoes(With(h, Octet(c)));
    BackUndoes(With(g, Octet(c)));
    BackUndoes(With(h, Octet(d)));
  }

  lemma {:induction false} TailTells(h: bv64, g: bv64, s: string)
    requires h != g
    ensures HashFrom(h, s) != HashFrom(g, s)
    decreases |s|
  {
    hide Mix;
    if s != "" {
      MixTells(h, g, s[0], s[0]);
      TailTells(Mix(h, s[0]), Mix(g, s[0]), s[1..]);
    }
  }

  lemma {:induction false} OneOctetTells(h: bv64, a: string, c: char, d: char, b: string)
    requires c as int % 256 != d as int % 256
    ensures HashFrom(h, a + [c] + b) != HashFrom(h, a + [d] + b)
    decreases |a|
  {
    hide Mix;
    var s, t := a + [c] + b, a + [d] + b;
    if a == "" {
      assert s[0] == c && t[0] == d && s[1..] == b && t[1..] == b;
      OctetTells(c, d);
      MixTells(h, h, c, d);
      TailTells(Mix(h, c), Mix(h, d), b);
    } else {
      assert s[0] == a[0] == t[0] && s[1..] == a[1..] + [c] + b && t[1..] == a[1..] + [d] + b;
      OneOctetTells(Mix(h, a[0]), a[1..], c, d, b);
    }
  }

  lemma SameNumber(x: bv64, y: bv64)
    requires x as nat == y as nat
    ensures x == y
  {
    assert (x as nat) as bv64 == x;
    assert (y as nat) as bv64 == y;
  }

  /** Keys that differ in one octet have different hashes, and so different files. */
  lemma HashTells(a: string, c: char, d: char, b: string)
    requires c as int % 256 != d as int % 256
    ensures Hash(a + [c] + b) != Hash(a + [d] + b)
  {
    hide HashFrom;
    OneOctetTells(FNV_OFFSET, a, c, d, b);
    if Hash(a + [c] + b) == Hash(a + [d] + b) {
      SameNumber(HashFrom(FNV_OFFSET, a + [c] + b), HashFrom(FNV_OFFSET, a + [d] + b));
      assert false;
    }
  }

  /** The published value of 64-bit FNV-1a for "a". */
  lemma HashOfA()
    ensures HashFrom(FNV_OFFSET, "a") == 0xaf63dc4c8601ec8c && HashFrom(FNV_OFFSET, "") == 0xcbf29ce484222325
  {
    assert "a"[1..] == "";
    OctetOfA();
  }

  // ----- hexadecimal -----

  function Digit(d: nat): (c: char)
    requires d < 16
  {
    if d < 10 then '0' + d as char else 'a' + (d - 10) as char
  }

  lemma DigitInjective(a: nat, b: nat)
    requires a < 16 && b < 16 && Digit(a) == Digit(b)
    ensures a == b
  {
  }

  function Pow16(k: nat): (r: nat)
    ensures r > 0
  {
    if k == 0 then 1 else 16 * Pow16(k - 1)
  }

  /** The last `k` hexadecimal digits of `n`, as `%0kx` prints them. */
  function Hex(n: nat, k: nat): (r: string)
    ensures |r| == k
    decreases k
  {
    if k == 0 then "" else Hex(n / 16, k - 1) + [Digit(n % 16)]
  }

  /** `k` digits tell numbers below `16^k` apart. */
  lemma {:induction false} HexInjective(a: nat, b: nat, k: nat)
    requires a < Pow16(k) && b < Pow16(k) && Hex(a, k) == Hex(b, k)
    ensures a == b
    decreases k
  {
    hide Digit;
    if k > 0 {
      var x, y := Hex(a, k), Hex(b, k);
      assert x[..k - 1] == Hex(a / 16, k - 1) && y[..k - 1] == Hex(b / 16, k - 1);
      assert x[k - 1] == Digit(a % 16) && y[k - 1] == Digit(b % 16);
      DigitInjective(a % 16, b % 16);
      HexInjective(a / 16, b / 16, k - 1);
    }
  }

  lemma WordIsPow16()
    ensures Pow16(16) == WORD
  {
    assert Pow16(4) == 0x1_0000;
    assert Pow16(8) == 0x1_0000_0000;
    assert Pow16(12) == 0x1_0000_0000_0000;
  }

  // ----- paths -----

  const SUFFIX := ".cache"

  /** `cache_path`, by hash; a root of at most 511 bytes leaves the 1024-byte buffer room to spare. */
  function Path(root: string, h: nat): string {
    root + "/" + Hex(h, 16) + SUFFIX
  }

  function TmpPath(root: string, h: nat): string {
    Path(root, h) + ".tmp"
  }

  /** Different hashes have different files, and no temporary file is anybody's cache file. */
  lemma PathsApart(root: string, a: nat, b: nat)
    requires a < WORD && b < WORD
    ensures Path(root, a) == Path(root, b) ==> a == b
    ensures TmpPath(root, a) != Path(root, b)
  {
    hide Hex;
    var p, q := Path(root, a), Path(root, b);
    var n := |root| + 1;
    assert p[n..n + 16] == Hex(a, 16) && q[n..n + 16] == Hex(b, 16);
    assert |TmpPath(root, a)| == |q| + 4;
    if p == q {
      WordIsPow16();
      HexInjective(a, b, 16);
    }
  }

  // ----- the entry header -----

  datatype EntryHeader = EntryHeader(status: int, headersLen: nat, bodyLen: nat, expire: int)

  const HEADER_SIZE := 32

  function Pow256(k: nat): (r: nat)
    ensures r > 0
  {
    if k == 0 then 1 else 256 * Pow256(k - 1)
  }

  /** The low `k` bytes of `n`, least significant first. */
  function Bytes(n: nat, k: nat): (r: string)
    ensures |r| == k
    decreases k
  {
    if k == 0 then "" else [(n % 256) as char] + Bytes(n / 256, k - 1)
  }

  function Number(s: string): nat {
    if s == "" then 0 else s[0] as nat % 256 + 256 * Number(s[1..])
  }

  lemma {:induction false} NumberOfBytes(n: nat, k: nat)
    requires n < Pow256(k)
    ensures Number(Bytes(n, k)) == n
    decreases k
  {
    if k > 0 {
      assert Bytes(n, k)[1..] == Bytes(n / 256, k - 1);
      NumberOfBytes(n / 256, k - 1);
    }
  }

  /** Two's complement in `k` bytes. */
  function Signed(v: int, k: nat): (r: nat)
    requires 0 <= 2 * v + Pow256(k) < 2 * Pow256(k)
    ensures r < Pow256(k)
  {
    if v < 0 then v + Pow256(k) else v
  }

  function Unsigned(n: nat, k: nat): int {
    if 2 * n < Pow256(k) then n else n - Pow256(k)
  }

  lemma SignedBack(v: int, k: nat)
    requires 0 <= 2 * v + Pow256(k) < 2 * Pow256(k)
    ensures Unsigned(Signed(v, k), k) == v
  {
  }

  /** What fits the fields. */
  predicate Storable(e: EntryHeader) {
    && 0 <= 2 * e.status + Pow256(4) < 2 * Pow256(4)
    && e.headersLen < Pow256(8) && e.bodyLen < Pow256(8) && e.headersLen + e.bodyLen < Pow256(8)
    && 0 <= 2 * e.expire + Pow256(8) < 2 * Pow256(8)
  }

  /** The struct as `write` copies it: a 4-byte field, 4 bytes of padding, three 8-byte fields. */
  function Encode(e: EntryHeader): (r: string)
    requires Storable(e)
    ensures |r| == HEADER_SIZE
  {
    Bytes(Signed(e.status, 4), 4) + Bytes(0, 4) + Bytes(e.headersLen, 8) + Bytes(e.bodyLen, 8)
    + Bytes(Signed(e.expire, 8), 8)
  }

  function Decode(s: string): EntryHeader
    requires |s| == HEADER_SIZE
  {
    EntryHeader(Unsigned(Number(s[..4]), 4), Number(s[8..16]), Number(s[16..24]), Unsigned(Number(s[24..]), 8))
  }

  lemma HeaderRoundTrip(e: EntryHeader)
    requires Storable(e)
    ensures Decode(Encode(e)) == e
  {
    hide Bytes, Number, Pow256;
    var s := Encode(e);
    assert s[..4] == Bytes(Signed(e.status, 4), 4);
    assert s[8..16] == Bytes(e.headersLen, 8);
    assert s[16..24] == Bytes(e.bodyLen, 8);
    assert s[24..] == Bytes(Signed(e.expire, 8), 8);
    NumberOfBytes(Signed(e.status, 4), 4);
    NumberOfBytes(e.headersLen, 8);
    NumberOfBytes(e.bodyLen, 8);
    NumberOfBytes(Signed(e.expire, 8), 8);
    SignedBack(e.status, 4);
    SignedBack(e.expire, 8);
  }
}
