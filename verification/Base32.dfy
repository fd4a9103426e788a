/**
 TOTP secrets: the bit-buffer base32 encoder against the unpadded encoding of section 6
 of RFC 4648, stated over bit strings, with a reference decoder.
 */
module Base32 {
  import opened Powers
  import opened Sequences

  const ALPHABET: string := "ABCDEFGHIJKLMNOPQRSTUVWXYZ234567"

  type Byte = n: int | 0 <= n < 256
  type Bit = bool

  /** Width of the JavaScript bit buffer: shifts keep the low 32 bits. */
  const WORD := 0x1_0000_0000

  // ------------------------------------------------------------------ bit strings

  /** The n low bits of v, most significant first. */
  function BitsOf(v: nat, n: nat): (b: seq<Bit>)
    ensures |b| == n
  {
    if n == 0 then [] else BitsOf(v / 2, n - 1) + [v % 2 == 1]
  }

  function NumberOf(bits: seq<Bit>): nat {
    if bits == [] then 0 else 2 * NumberOf(bits[..|bits| - 1]) + (if bits[|bits| - 1] then 1 else 0)
  }

  /** A byte string as the bits of RFC 4648: each byte high bit first. */
  function Stream(bytes: seq<Byte>): (b: seq<Bit>)
    ensures |b| == 8 * |bytes|
  {
    if bytes == [] then [] else Stream(bytes[..|bytes| - 1]) + BitsOf(bytes[|bytes| - 1], 8)
  }

  lemma {:induction false} NumberBound(bits: seq<Bit>)
    ensures NumberOf(bits) < Pow2(|bits|)
  {
    if bits != [] { NumberBound(bits[..|bits| - 1]); }
  }

  lemma {:induction false} NumberOfBits(v: nat, n: nat)
    requires v < Pow2(n)
    ensures NumberOf(BitsOf(v, n)) == v
  {
    if n > 0 {
      NumberOfBits(v / 2, n - 1);
      assert BitsOf(v, n)[..n - 1] == BitsOf(v / 2, n - 1);
    }
  }

  lemma {:induction false} BitsOfNumber(bits: seq<Bit>)
    ensures BitsOf(NumberOf(bits), |bits|) == bits
  {
    if bits != [] {
      BitsOfNumber(bits[..|bits| - 1]);
    }
  }

  /** v >>> m */
  function ShiftRight(v: nat, m: nat): nat {
    if m == 0 then v else ShiftRight(v / 2, m - 1)
  }

  /** The high bits of v come first: its low m bits can be split off. */
  lemma {:induction false} BitsSplit(v: nat, n: nat, m: nat)
    ensures BitsOf(v, n + m) == BitsOf(ShiftRight(v, m), n) + BitsOf(v, m)
    decreases m
  {
    if m > 0 {
      BitsSplit(v / 2, n, m - 1);
      assert BitsOf(v, n + m) == BitsOf(v / 2, n + (m - 1)) + [v % 2 == 1];
    }
  }

  /** Making room for m low bits r below v. */
  lemma {:induction false} BitsShifted(v: nat, r: nat, n: nat, m: nat)
    requires r < Pow2(m)
    ensures BitsOf(v * Pow2(m) + r, n + m) == BitsOf(v, n) + BitsOf(r, m)
    decreases m
  {
    if m > 0 {
      var p := Pow2(m - 1);
      var x := v * Pow2(m) + r;
      assert v * (2 * p) == 2 * (v * p);
      assert x / 2 == v * p + r / 2 && x % 2 == r % 2;
      BitsShifted(v, r / 2, n, m - 1);
      assert BitsOf(x, n + m) == BitsOf(x / 2, n + (m - 1)) + [x % 2 == 1];
    }
  }

  lemma DivUnique(a: nat, p: nat, q: nat, r: nat)
    requires p > 0 && a == q * p + r && r < p
    ensures a / p == q && a % p == r
  {
    var d := a / p - q;
    assert a == (a / p) * p + a % p;
    assert d * p == r - a % p;
  }

  lemma ModHalves(v: nat, p: nat)
    requires p > 0
    ensures v % (2 * p) == 2 * ((v / 2) % p) + v % 2
  {
    var q, r := (v / 2) / p, (v / 2) % p;
    assert v == 2 * (v / 2) + v % 2;
    assert v / 2 == q * p + r;
    assert v == q * (2 * p) + (2 * r + v % 2);
    DivUnique(v, 2 * p, q, 2 * r + v % 2);
  }

  /** Cutting a number to w bits keeps its low n bits. */
  lemma {:induction false} BitsWrapped(v: nat, w: nat, n: nat)
    requires n <= w
    ensures BitsOf(v % Pow2(w), n) == BitsOf(v, n)
    decreases n
  {
    if n > 0 {
      ModHalves(v, Pow2(w - 1));
      assert v % Pow2(w) / 2 == v / 2 % Pow2(w - 1) && v % Pow2(w) % 2 == v % 2;
      BitsWrapped(v / 2, w - 1, n - 1);
    }
  }

  // -------------------------------------------------------- the reference encoding

  /** One character for each whole group of five bits. */
  function Chars(bits: seq<Bit>): string {
    if |bits| < 5 then [] else [ALPHABET[Group(bits[..5])]] + Chars(bits[5..])
  }

  lemma {:induction false} CharsConcat(x: seq<Bit>, y: seq<Bit>, k: nat)
    requires |x| == 5 * k
    ensures Chars(x + y) == Chars(x) + Chars(y)
    decreases k
  {
    if k == 0 {
      assert x + y == y;
    } else {
      assert (x + y)[..5] == x[..5] && (x + y)[5..] == x[5..] + y;
      CharsConcat(x[5..], y, k - 1);
    }
  }

  lemma {:induction false} CharsLength(bits: seq<Bit>, k: nat)
    requires |bits| == 5 * k
    ensures |Chars(bits)| == k
    decreases k
  {
    if k > 0 { CharsLength(bits[5..], k - 1); }
  }

  function Group(bits: seq<Bit>): (v: nat)
    requires |bits| == 5
    ensures v < 32
  {
    NumberBound(bits);
    assert Pow2(5) == 32;
    NumberOf(bits)
  }

  function Zeros(n: nat): (z: seq<Bit>)
    ensures |z| == n
  {
    if n == 0 then [] else Zeros(n - 1) + [false]
  }

  /** Zero bits that complete the final group. */
  function Padding(n: nat): nat { (5 - n % 5) % 5 }

  lemma PaddingOf(n: nat, q: nat, r: nat)
    requires n == 5 * q + r && r < 5
    ensures Padding(n) == if r == 0 then 0 else 5 - r
  {
    DivUnique(n, 5, q, r);
  }

  /** Base32 without padding characters. */
  function Encode(bytes: seq<Byte>): string {
    var bits := Stream(bytes);
    Chars(bits + Zeros(Padding(|bits|)))
  }

  // ------------------------------------------------------------------ the encoder

  lemma CharsAppend(bits: seq<Bit>, g: seq<Bit>, k: nat)
    requires |bits| == 5 * k && |g| == 5
    ensures Chars(bits + g) == Chars(bits) + [ALPHABET[Group(g)]]
  {
    CharsConcat(bits, g, k);
    assert g[..5] == g && Chars(g[5..]) == [];
  }

  lemma GroupOfBits(v: nat)
    ensures Group(BitsOf(v, 5)) == v % 32
  {
    SomePowers();
    BitsWrapped(v, 5, 5);
    NumberOfBits(v % 32, 5);
  }

  lemma SomePowers()
    ensures Pow2(5) == 32 && Pow2(8) == 256 && Pow2(32) == WORD
  {
    assert Pow2(4) == 16;
    assert Pow2(8) == 256;
    assert Pow2(12) == 0x1000;
    assert Pow2(16) == 0x1_0000;
    assert Pow2(20) == 0x10_0000;
    assert Pow2(24) == 0x100_0000;
    assert Pow2(28) == 0x1000_0000;
  }

  /** Shifting a byte in: the 32-bit wrap never reaches the pending bits. */
  lemma ShiftIn(value: nat, bits: nat, b: Byte)
    requires bits <= 4
    ensures BitsOf((value * 256 + b) % WORD, bits + 8) == BitsOf(value, bits) + BitsOf(b, 8)
  {
    SomePowers();
    var shifted := value * 256 + b;
    assert shifted == value * Pow2(8) + b;
    BitsWrapped(shifted, 32, bits + 8);
    BitsShifted(value, b, bits, 8);
  }

  /** The last, zero-filled group. */
  lemma ShiftOut(value: nat, bits: nat)
    requires 0 < bits < 5
    ensures Group(BitsOf(value, bits) + Zeros(5 - bits)) == (value * Pow2(5 - bits)) % WORD % 32
  {
    BitsShifted(value, 0, bits, 5 - bits);
    ZeroBits(5 - bits);
    GroupOfBits(value * Pow2(5 - bits));
    WordKeepsGroup(value * Pow2(5 - bits));
  }

  lemma WordKeepsGroup(v: nat)
    ensures v % WORD % 32 == v % 32
  {
  }

  lemma {:induction false} ZeroBits(n: nat)
    ensures BitsOf(0, n) == Zeros(n)
  {
    if n > 0 { ZeroBits(n - 1); }
  }

  /** The five highest pending bits become one character. */
  lemma EmitStep(done: seq<Bit>, value: nat, bits: nat, k: nat) returns (g: seq<Bit>)
    requires bits >= 5 && |done| == 5 * k
    ensures |g| == 5
    ensures Chars(done + g) == Chars(done) + [ALPHABET[ShiftRight(value, bits - 5) % 32]]
    ensures done + BitsOf(value, bits) == done + g + BitsOf(value, bits - 5)
  {
    g := BitsOf(ShiftRight(value, bits - 5), 5);
    BitsSplit(value, 5, bits - 5);
    Assoc(done, g, BitsOf(value, bits - 5));
    GroupOfBits(ShiftRight(value, bits - 5));
    CharsAppend(done, g, k);
  }

  lemma StreamNext(bytes: seq<Byte>, i: nat)
    requires i < |bytes|
    ensures Stream(bytes[..i + 1]) == Stream(bytes[..i]) + BitsOf(bytes[i], 8)
  {
    assert bytes[..i + 1][..i] == bytes[..i];
  }

  lemma Joined<T>(done: seq<T>, pending: seq<T>, more: seq<T>, all: seq<T>)
    requires all == done + pending
    ensures all + more == done + (pending + more)
  {
  }

  /** A byte joins the pending bits. */
  lemma Absorb(bytes: seq<Byte>, i: nat, done: seq<Bit>, value: nat, bits: nat)
    requires i < |bytes| && bits < 5 && Stream(bytes[..i]) == done + BitsOf(value, bits)
    ensures Stream(bytes[..i + 1]) == done + BitsOf((value * 256 + bytes[i]) % WORD, bits + 8)
  {
    ShiftIn(value, bits, bytes[i]);
    AbsorbBits(bytes, i, done, BitsOf(value, bits), BitsOf((value * 256 + bytes[i]) % WORD, bits + 8));
  }

  lemma AbsorbBits(bytes: seq<Byte>, i: nat, done: seq<Bit>, pending: seq<Bit>, next: seq<Bit>)
    requires i < |bytes| && Stream(bytes[..i]) == done + pending && next == pending + BitsOf(bytes[i], 8)
    ensures Stream(bytes[..i + 1]) == done + next
  {
    StreamNext(bytes, i);
    Joined(done, pending, BitsOf(bytes[i], 8), Stream(bytes[..i]));
  }

  /** The inner loop: emit a character for every five pending bits. */
  method Emit(value: nat, bits0: nat, output0: string, ghost done0: seq<Bit>)
    returns (bits: nat, output: string, ghost done: seq<Bit>)
    requires |done0| == 5 * |output0| && output0 == Chars(done0)
    ensures bits < 5 && |done| == 5 * |output| && output == Chars(done)
    ensures done + BitsOf(value, bits) == done0 + BitsOf(value, bits0)
  {
    bits, output, done := bits0, output0, done0;
    while bits >= 5
      invariant |done| == 5 * |output| && output == Chars(done)
      invariant done + BitsOf(value, bits) == done0 + BitsOf(value, bits0)
    {
      ghost var g := EmitStep(done, value, bits, |output|);
      output := output + [ALPHABET[ShiftRight(value, bits - 5) % 32]];
      bits := bits - 5;
      done := done + g;
    }
  }

  method Base32Encode(bytes: seq<Byte>) returns (output: string)
    ensures output == Encode(bytes)
  {
    var bits, value := 0, 0;
    output := "";
    ghost var done: seq<Bit> := [];
    for i := 0 to |bytes|
      invariant 0 <= bits < 5 && 0 <= value < WORD
      invariant |done| == 5 * |output| && output == Chars(done)
      invariant Stream(bytes[..i]) == done + BitsOf(value, bits)
    {
      Absorb(bytes, i, done, value, bits);
      value := (value * 256 + bytes[i]) % WORD;
      bits := bits + 8;
      bits, output, done := Emit(value, bits, output, done);
    }
    assert bytes[..|bytes|] == bytes;
    LastGroup(bytes, done, value, bits, |output|);
    if bits > 0 {
      output := output + [ALPHABET[(value * Pow2(5 - bits)) % WORD % 32]];
    }
  }

  lemma LastGroup(bytes: seq<Byte>, done: seq<Bit>, value: nat, bits: nat, k: nat)
    requires bits < 5 && |done| == 5 * k && Stream(bytes) == done + BitsOf(value, bits)
    ensures Encode(bytes) ==
      if bits > 0 then Chars(done) + [ALPHABET[(value * Pow2(5 - bits)) % WORD % 32]] else Chars(done)
  {
    PaddingOf(|Stream(bytes)|, k, bits);
    var pad := Zeros(if bits > 0 then 5 - bits else 0);
    assert Encode(bytes) == Chars(done + BitsOf(value, bits) + pad);
    Assoc(done, BitsOf(value, bits), pad);
    if bits > 0 {
      ShiftOut(value, bits);
      CharsAppend(done, BitsOf(value, bits) + pad, k);
    } else {
      assert done + (BitsOf(value, bits) + pad) == done;
    }
  }

  // ------------------------------------------------------------------ its meaning

  /** The padded stream is a whole number of groups. */
  lemma Padded(bytes: seq<Byte>) returns (k: nat)
    ensures |Stream(bytes)| + Padding(|Stream(bytes)|) == 5 * k && k == (8 * |bytes| + 4) / 5
  {
    var n := |Stream(bytes)|;
    k := (8 * |bytes| + 4) / 5;
    PaddingOf(n, n / 5, n % 5);
  }

  /** ceil(8n / 5) characters. */
  lemma EncodedLength(bytes: seq<Byte>)
    ensures |Encode(bytes)| == (8 * |bytes| + 4) / 5
  {
    var k := Padded(bytes);
    CharsLength(Stream(bytes) + Zeros(Padding(|Stream(bytes)|)), k);
  }

  /** The n-th bit of a byte string, each byte high bit first; zero past its end. */
  function BitAt(bytes: seq<Byte>, n: nat): nat {
    if n / 8 < |bytes| then bytes[n / 8] / Pow2(7 - n % 8) % 2 else 0
  }

  /** A to Z, then 2 to 7. */
  function Letter(v: nat): char
    requires v < 32
  {
    if v < 26 then 'A' + v as char else '2' + (v - 26) as char
  }

  lemma AlphabetLetter(v: nat)
    requires v < 32
    ensures ALPHABET[v] == Letter(v)
  {
  }

  lemma HalfThenDivide(v: nat, p: nat)
    requires p > 0
    ensures v / 2 / p == v / (2 * p)
  {
    var q, r := v / 2 / p, v / 2 % p;
    assert v == 2 * (v / 2) + v % 2 && v / 2 == q * p + r;
    assert v == q * (2 * p) + (2 * r + v % 2);
    DivUnique(v, 2 * p, q, 2 * r + v % 2);
  }

  lemma {:induction false} BitOfNumber(v: nat, n: nat, j: nat)
    requires j < n
    ensures BitsOf(v, n)[j] <==> v / Pow2(n - 1 - j) % 2 == 1
    decreases n
  {
    if j < n - 1 {
      BitOfNumber(v / 2, n - 1, j);
      HalfThenDivide(v, Pow2(n - 2 - j));
      assert Pow2(n - 1 - j) == 2 * Pow2(n - 2 - j);
    }
  }

  lemma {:induction false} StreamBit(bytes: seq<Byte>, i: nat, j: nat)
    requires i < |bytes| && j < 8
    ensures Stream(bytes)[8 * i + j] <==> bytes[i] / Pow2(7 - j) % 2 == 1
    decreases |bytes|
  {
    if i == |bytes| - 1 {
      BitOfNumber(bytes[i], 8, j);
    } else {
      StreamBit(bytes[..|bytes| - 1], i, j);
    }
  }

  lemma {:induction false} CharAt(bits: seq<Bit>, k: nat, m: nat)
    requires |bits| == 5 * m && k < m
    ensures |Chars(bits)| == m && Chars(bits)[k] == ALPHABET[Group(bits[5 * k..5 * k + 5])]
    decreases m
  {
    CharsLength(bits, m);
    if k > 0 {
      CharAt(bits[5..], k - 1, m - 1);
      assert bits[5..][5 * (k - 1)..5 * (k - 1) + 5] == bits[5 * k..5 * k + 5];
    }
  }

  function OneBit(b: Bit): nat { if b then 1 else 0 }

  lemma ByteBit(bytes: seq<Byte>, i: nat, j: nat)
    requires i < |bytes| && j < 8
    ensures BitAt(bytes, 8 * i + j) == OneBit(Stream(bytes)[8 * i + j])
  {
    var v := bytes[i] / Pow2(7 - j);
    StreamBit(bytes, i, j);
    assert (8 * i + j) / 8 == i && (8 * i + j) % 8 == j;
    assert v % 2 == 0 || v % 2 == 1;
  }

  lemma PaddedBit(bytes: seq<Byte>, bits: seq<Bit>, pad: nat, n: nat)
    requires bits == Stream(bytes) + Zeros(pad) && n < |bits|
    ensures BitAt(bytes, n) == OneBit(bits[n])
  {
    if n < 8 * |bytes| {
      ByteBit(bytes, n / 8, n % 8);
      assert n == 8 * (n / 8) + n % 8;
    } else {
      ZeroAt(pad, n - 8 * |bytes|);
    }
  }

  lemma {:induction false} ZeroAt(n: nat, k: nat)
    requires k < n
    ensures !Zeros(n)[k]
  {
    if k < n - 1 { ZeroAt(n - 1, k); }
  }

  lemma GroupValue(g: seq<Bit>)
    requires |g| == 5
    ensures Group(g) == 16 * OneBit(g[0]) + 8 * OneBit(g[1]) + 4 * OneBit(g[2]) + 2 * OneBit(g[3]) + OneBit(g[4])
  {
    var g4 := g[..4];
    var g3 := g4[..3];
    var g2 := g3[..2];
    var g1 := g2[..1];
    assert NumberOf(g) == 2 * NumberOf(g4) + OneBit(g[4]);
    assert NumberOf(g4) == 2 * NumberOf(g3) + OneBit(g[3]);
    assert NumberOf(g3) == 2 * NumberOf(g2) + OneBit(g[2]);
    assert NumberOf(g2) == 2 * NumberOf(g1) + OneBit(g[1]);
    assert NumberOf(g1) == 2 * NumberOf(g1[..0]) + OneBit(g[0]);
  }

  function FiveBits(bytes: seq<Byte>, n: nat): nat {
    16 * BitAt(bytes, n) + 8 * BitAt(bytes, n + 1) + 4 * BitAt(bytes, n + 2) + 2 * BitAt(bytes, n + 3)
    + BitAt(bytes, n + 4)
  }

  lemma GroupIs(bytes: seq<Byte>, bits: seq<Bit>, pad: nat, n: nat)
    requires bits == Stream(bytes) + Zeros(pad) && n + 5 <= |bits|
    ensures Group(bits[n..n + 5]) == FiveBits(bytes, n)
  {
    GroupValue(bits[n..n + 5]);
    PaddedBit(bytes, bits, pad, n);
    PaddedBit(bytes, bits, pad, n + 1);
    PaddedBit(bytes, bits, pad, n + 2);
    PaddedBit(bytes, bits, pad, n + 3);
    PaddedBit(bytes, bits, pad, n + 4);
  }

  /** Section 6 of RFC 4648: the k-th character is the letter of the k-th five bits, the last filled up with zeros. */
  lemma CharacterIs(bytes: seq<Byte>, k: nat)
    requires k < (8 * |bytes| + 4) / 5
    ensures |Encode(bytes)| == (8 * |bytes| + 4) / 5
    ensures FiveBits(bytes, 5 * k) < 32 && Encode(bytes)[k] == Letter(FiveBits(bytes, 5 * k))
  {
    var pad := Padding(|Stream(bytes)|);
    var bits := Stream(bytes) + Zeros(pad);
    var m := Padded(bytes);
    CharAt(bits, k, m);
    GroupIs(bytes, bits, pad, 5 * k);
    AlphabetLetter(Group(bits[5 * k..5 * k + 5]));
  }

  /** Position of a character in the alphabet. */
  function Index(c: char): (v: nat)
    ensures v < 32
  {
    if 'A' <= c <= 'Z' then c as int - 'A' as int
    else if '2' <= c <= '7' then c as int - '2' as int + 26 else 0
  }

  function CharBits(s: string): (b: seq<Bit>)
    ensures |b| == 5 * |s|
  {
    if s == [] then [] else BitsOf(Index(s[0]), 5) + CharBits(s[1..])
  }

  /** Whole bytes of a bit string; a shorter remainder is dropped. */
  function Bytes(bits: seq<Bit>): (b: seq<Byte>)
    ensures |b| == |bits| / 8
  {
    if |bits| < 8 then []
    else
      var n := 8 * (|bits| / 8 - 1);
      NumberBound(bits[n..n + 8]);
      assert Pow2(8) == 256;
      Bytes(bits[..n]) + [NumberOf(bits[n..n + 8])]
  }

  /** A reference decoder. */
  function Decode(s: string): seq<Byte> { Bytes(CharBits(s)) }

  lemma AlphabetIndex(v: nat)
    requires v < 32
    ensures Index(ALPHABET[v]) == v
  {
  }

  lemma {:induction false} CharBitsOfChars(bits: seq<Bit>, k: nat)
    requires |bits| == 5 * k
    ensures CharBits(Chars(bits)) == bits
    decreases k
  {
    if k > 0 {
      CharBitsOfChars(bits[5..], k - 1);
      AlphabetIndex(Group(bits[..5]));
      BitsOfNumber(bits[..5]);
      assert Chars(bits)[1..] == Chars(bits[5..]);
      assert bits == bits[..5] + bits[5..];
    }
  }

  lemma {:induction false} BytesOfStream(bytes: seq<Byte>, tail: seq<Bit>)
    requires |tail| < 8
    ensures Bytes(Stream(bytes) + tail) == bytes
    decreases |bytes|
  {
    if bytes != [] {
      var n := |bytes| - 1;
      var bits := Stream(bytes) + tail;
      assert bits[..8 * n] == Stream(bytes[..n]) + [];
      assert bits[8 * n..8 * n + 8] == BitsOf(bytes[n], 8);
      assert Pow2(8) == 256;
      NumberOfBits(bytes[n], 8);
      BytesOfStream(bytes[..n], []);
    }
  }

  /** Decoding recovers every byte string. */
  lemma DecodeEncode(bytes: seq<Byte>)
    ensures Decode(Encode(bytes)) == bytes
  {
    var tail := Zeros(Padding(|Stream(bytes)|));
    var k := Padded(bytes);
    CharBitsOfChars(Stream(bytes) + tail, k);
    BytesOfStream(bytes, tail);
  }

  lemma {:induction false} StreamAppend(a: seq<Byte>, b: seq<Byte>)
    ensures Stream(a + b) == Stream(a) + Stream(b)
    decreases |b|
  {
    if b == [] {
      assert a + b == a;
    } else {
      var n := |b| - 1;
      assert (a + b)[..|a + b| - 1] == a + b[..n];
      StreamAppend(a, b[..n]);
    }
  }

  /** Whole five-byte chunks encode independently of what follows. */
  lemma EncodeConcat(a: seq<Byte>, b: seq<Byte>, k: nat)
    requires |a| == 5 * k
    ensures Encode(a + b) == Encode(a) + Encode(b)
  {
    var x, z := Stream(a), Zeros(Padding(|Stream(b)|));
    StreamAppend(a, b);
    SamePadding(|Stream(b)|, k);
    assert Encode(a + b) == Chars(x + Stream(b) + z);
    Assoc(x, Stream(b), z);
    CharsConcat(x, Stream(b) + z, 8 * k);
    assert Encode(a) == Chars(x) by { assert x + Zeros(0) == x; }
  }

  lemma SamePadding(n: nat, k: nat)
    ensures Padding(40 * k + n) == Padding(n) && Padding(40 * k) == 0
  {
    PaddingOf(n, n / 5, n % 5);
    PaddingOf(40 * k + n, 8 * k + n / 5, n % 5);
    PaddingOf(40 * k, 8 * k, 0);
  }

  lemma NextChunk(bytes: seq<Byte>, i: nat, k: nat)
    requires i < |bytes| && i == 5 * k
    ensures Encode(Upto(bytes, i + 5)) == Encode(Upto(bytes, i)) + Encode(Upto(bytes[i..], 5))
  {
    EncodeConcat(bytes[..i], Upto(bytes[i..], 5), k);
    assert Upto(bytes, i + 5) == bytes[..i] + Upto(bytes[i..], 5);
  }

  /** generateTotpSecret's loop: five-byte slices, encoded one at a time. */
  method EncodeInChunks(bytes: seq<Byte>) returns (secret: string)
    ensures secret == Encode(bytes)
    ensures Decode(secret) == bytes
  {
    secret := "";
    var i := 0;
    ghost var k := 0;
    while i < |bytes|
      invariant i == 5 * k && 0 <= k
      invariant secret == Encode(Upto(bytes, i))
    {
      var chunk := Base32Encode(Upto(bytes[i..], 5));
      NextChunk(bytes, i, k);
      secret := secret + chunk;
      i := i + 5;
      k := k + 1;
    }
    assert Upto(bytes, i) == bytes;
    DecodeEncode(bytes);
  }
}
