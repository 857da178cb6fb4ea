/** BLAKE2b's input buffering: whatever the split into updates, the compression function sees the block schedule of
    section 3.3 of RFC 7693. The compression function itself is a parameter. */
module Blake2b {
  import opened Guards
  import opened Words

  type Hash = h: seq<u64> | |h| == 8 witness [0, 0, 0, 0, 0, 0, 0, 0]

  /** Chaining value, 16 message words, byte count, last-block flag. */
  type Compression = (Hash, seq<u64>, nat, bool) -> Hash

  function Min(a: nat, b: nat): nat { if a < b then a else b }

  // ---------- Words of a block ----------

  /** The bytes of word k, as far as there are any. */
  function Cut(b: seq<u8>, k: nat): (c: seq<u8>)
    ensures |c| <= 8
  {
    b[Min(8 * k, |b|)..Min(8 * k + 8, |b|)]
  }

  lemma LeBound(c: seq<u8>)
    requires |c| <= 8
    ensures 0 <= Le(c) < Pow(256, |c|) && Le(c) < 0x1_0000_0000_0000_0000
  {
    NumBound(c, 256);
    PowAdd(256, |c|, 8 - |c|);
    PowPos(256, |c|);
    PowPos(256, 8 - |c|);
    MulAtLeast(Pow(256, 8 - |c|), Pow(256, |c|));
    EightBytes();
  }

  lemma EightBytes()
    ensures Pow(256, 8) == 0x1_0000_0000_0000_0000
  {
    assert Pow(256, 4) == 0x1_0000_0000;
    PowAdd(256, 4, 4);
  }

  function Word(b: seq<u8>, k: nat): u64 {
    LeBound(Cut(b, k));
    Le(Cut(b, k))
  }

  /** The 16 little-endian words of a block, padded with zero bytes. */
  function WordsOf(b: seq<u8>): (w: seq<u64>)
    ensures |w| == 16 && forall k :: 0 <= k < 16 ==> w[k] == Word(b, k)
  {
    seq(16, k requires 0 <= k < 16 => Word(b, k))
  }

  lemma CutSnoc(b: seq<u8>, x: u8, j: nat)
    requires j == |b| / 8
    ensures |Cut(b, j)| == |b| % 8 && Cut(b + [x], j) == Cut(b, j) + [x]
    ensures forall k: nat :: k != j ==> Cut(b + [x], k) == Cut(b, k)
  {
    forall k: nat | k != j ensures Cut(b + [x], k) == Cut(b, k) { CutKept(b, [x], k); }
  }

  /** A word that is complete, or not begun by the extension, stays. */
  lemma CutKept(b: seq<u8>, m: seq<u8>, k: nat)
    requires 8 * k + 8 <= |b| || |b| + |m| <= 8 * k
    ensures Cut(b + m, k) == Cut(b, k)
  {
    if 8 * k + 8 <= |b| {
      assert Cut(b + m, k) == (b + m)[8 * k..8 * k + 8] == b[8 * k..8 * k + 8];
    } else {
      assert Cut(b + m, k) == [] == Cut(b, k);
    }
  }

  /** A byte more adds its shifted value to the word it falls in. */
  lemma WordSnoc(b: seq<u8>, x: u8, j: nat)
    requires j == |b| / 8
    ensures Word(b, j) < Pow(256, |b| % 8)
    ensures Word(b + [x], j) as int == Word(b, j) as int + x as int * Pow(256, |b| % 8)
  {
    CutSnoc(b, x, j);
    LeBound(Cut(b, j));
    NumSnoc(Cut(b, j), x, 256);
    Commute(x, Pow(256, |b| % 8));
  }

  lemma WordsSnoc(b: seq<u8>, x: u8)
    requires |b| < 128
    ensures WordsOf(b + [x]) == WordsOf(b)[|b| / 8 := Word(b + [x], |b| / 8)]
  {
    CutSnoc(b, x, |b| / 8);
  }

  /** A whole word more, on a word boundary. */
  lemma WordsAppend(b: seq<u8>, m: seq<u8>)
    requires |b| % 8 == 0 && |m| == 8 && |b| < 128
    ensures 0 <= Le(m) < 0x1_0000_0000_0000_0000 && WordsOf(b + m) == WordsOf(b)[|b| / 8 := Le(m)]
  {
    LeBound(m);
    var j := |b| / 8;
    assert Cut(b + m, j) == m;
    forall k | 0 <= k < 16 && k != j ensures Word(b + m, k) == Word(b, k) {
      CutKept(b, m, k);
    }
  }

  lemma {:induction false} BytePower(n: nat)
    ensures Pow(256, n) == Pow(2, 8 * n)
  {
    if n > 0 {
      BytePower(n - 1);
      PowAdd(2, 8, 8 * n - 8);
      assert Pow(2, 4) == 16;
      PowAdd(2, 4, 4);
    }
  }

  // ---------- The block schedule ----------

  /** The chaining value after the first n blocks of s, none of them last. */
  function Chain(f: Compression, h0: Hash, s: seq<u8>, n: nat): Hash
    requires 128 * n <= |s|
  {
    if n == 0 then h0 else f(Chain(f, h0, s, n - 1), WordsOf(s[128 * n - 128..128 * n]), 128 * n, false)
  }

  /** The longest input RFC 7693 allows has fewer bytes. */
  const LIMIT: nat := 0x1_0000_0000_0000_0000_0000_0000_0000_0000

  lemma {:induction false} ChainPrefix(f: Compression, h0: Hash, s: seq<u8>, t: seq<u8>, n: nat)
    requires 128 * n <= |s|
    ensures Chain(f, h0, s + t, n) == Chain(f, h0, s, n)
  {
    if n > 0 {
      ChainPrefix(f, h0, s, t, n - 1);
      assert (s + t)[128 * n - 128..128 * n] == s[128 * n - 128..128 * n];
    }
  }

  /** Blocks before the last one; an empty input still has one block. */
  function FullBlocks(len: nat): nat {
    if len == 0 then 0 else (len - 1) / 128
  }

  /** Section 3.3 of RFC 7693: all blocks but the last, then the last, padded, with the total count. */
  function Digest(f: Compression, h0: Hash, s: seq<u8>): Hash {
    var n := FullBlocks(|s|);
    f(Chain(f, h0, s, n), WordsOf(s[128 * n..]), |s|, true)
  }

  /** The key as the first block. */
  function KeyBlock(key: seq<u8>): (b: seq<u8>)
    ensures |b| == if 0 < |key| <= 128 then 128 else 0
    ensures 0 < |key| <= 128 ==> b[..|key|] == key && forall i :: |key| <= i < 128 ==> b[i] == 0
  {
    if key == [] || |key| > 128 then [] else key + seq(128 - |key|, _ => 0)
  }

  // ---------- The hasher ----------

  /** The byte count, from its two words. */
  function Counter(lo: u64, hi: u64): nat {
    lo as int + hi as int * 0x1_0000_0000_0000_0000
  }

  /** Byte i of a chaining value. */
  function ByteOf(h: Hash, i: nat): (b: u8)
    requires i < 64
  {
    ByteRange(h[i / 8], i % 8);
    h[i / 8] as int / Pow(256, i % 8) % 256
  }

  /** The chaining value as bytes. */
  function Bytes(h: Hash): (b: seq<u8>)
    ensures |b| == 64 && forall i :: 0 <= i < 64 ==> b[i] == ByteOf(h, i)
  {
    seq(64, i requires 0 <= i < 64 => ByteOf(h, i))
  }

  /** Eight bytes spell a word, the lowest first. */
  lemma BytesMeans(h: Hash, k: nat)
    requires k < 8
    ensures Le(Bytes(h)[8 * k..8 * k + 8]) == h[k]
  {
    var b := Bytes(h)[8 * k..8 * k + 8];
    forall j | 0 <= j < 8 ensures Pow(256, j) > 0 && b[j] == h[k] as int / Pow(256, j) % 256 {
      PowPos(256, j);
      assert (8 * k + j) / 8 == k && (8 * k + j) % 8 == j;
    }
    WordBytes(b, h[k], 8);
    EightBytes();
    ModUnique(h[k], 0, Pow(256, 8), h[k]);
    assert b[..8] == b;
  }

  lemma {:induction false} WordBytes(b: seq<u8>, w: nat, n: nat)
    requires n <= |b| && forall j :: 0 <= j < n ==> Pow(256, j) > 0 && b[j] == w / Pow(256, j) % 256
    ensures Pow(256, n) > 0 && Le(b[..n]) == w % Pow(256, n)
  {
    PowPos(256, n);
    if n > 0 {
      WordBytes(b, w, n - 1);
      assert b[..n] == b[..n - 1] + [b[n - 1]];
      NumSnoc(b[..n - 1], b[n - 1], 256);
      NextByte(w, Pow(256, n - 1));
    }
  }

  lemma NextByte(w: nat, p: nat)
    requires p > 0
    ensures w % p + p * (w / p % 256) == w % (256 * p)
  {
    var q := w / p;
    assert w == q * p + w % p && q == q / 256 * 256 + q % 256;
    Assoc(q / 256, 256, p);
    assert (q / 256 * 256 + q % 256) * p == q / 256 * 256 * p + q % 256 * p;
    Commute(p, q % 256);
    MulBound(q % 256, 255, p, p);
    ModUnique(w, q / 256, 256 * p, w % p + p * (q % 256));
  }

  lemma ByteRange(w: u64, k: nat)
    ensures Pow(256, k) > 0 && 0 <= w as int / Pow(256, k) % 256 < 256
  {
    PowPos(256, k);
  }

  /** The counter stands at n blocks. */
  ghost predicate CounterOk(lo: u64, hi: u64, n: nat) {
    forall z {:trigger Tick(z)} :: Tick(z) ==> Counter(lo, hi) == 128 * n
  }

  lemma Split<T>(s: seq<T>, m: seq<T>, k: nat)
    requires k <= |m|
    ensures (s + m[..k]) + m[k..] == s + m
  {
  }

  class Hasher {
    const compress: Compression
    ghost const h0: Hash
    const input: array<u64>
    var hash: Hash
    var lo: u64
    var hi: u64
    var idx: nat
    const hashSize: nat
    ghost var stream: seq<u8>   // everything fed so far, the key block included
    ghost var n: nat            // blocks compressed

    /** The buffer holds the bytes of the stream that have not been compressed, and zeros above them. */
    ghost predicate Ready()
      reads this, input
    {
      && input.Length == 16 && idx <= 128 && 128 * n + idx == |stream| < LIMIT
      && forall z {:trigger Look(z)} :: Look(z) ==>
           hash == Chain(compress, h0, stream, n) && CounterOk(lo, hi, n) && input[..] == WordsOf(stream[128 * n..])
    }

    /** A full block stays in the buffer until more input comes. */
    ghost predicate Valid()
      reads this, input
    {
      Ready() && (stream != [] ==> idx > 0)
    }

    /** crypto_blake2b_keyed_init; start gives the parameter block's chaining value. */
    constructor (compress: Compression, start: (nat, nat) -> Hash, hashSize: nat, key: seq<u8>)
      requires |key| <= 128
      ensures Valid() && fresh(input) && this.compress == compress && this.hashSize == hashSize
      ensures h0 == start(hashSize, |key|) && stream == KeyBlock(key)
    {
      this.compress := compress;
      h0 := start(hashSize, |key|);
      hash := start(hashSize, |key|);
      lo, hi, this.hashSize, idx := 0, 0, hashSize, 0;
      input := new u64[16](_ => 0);
      n := 0;
      stream := KeyBlock(key);
      new;
      Prime(key);
    }

    /** The key, if there is one, is the first block. */
    method Prime(key: seq<u8>)
      requires |key| <= 128 && input.Length == 16 && idx == 0 && n == 0 && stream == KeyBlock(key)
      requires hash == h0 && lo == 0 && hi == 0 && forall k :: 0 <= k < 16 ==> input[k] == 0
      modifies this`idx, input
      ensures Valid()
    {
      if |key| > 0 {
        LoadWholeBlock(KeyBlock(key));
        idx := 128;
      } else {
        EmptyWords(stream);
      }
      Start();
    }

    /** Nothing has been compressed yet. */
    lemma Start()
      requires input.Length == 16 && n == 0 && |stream| == idx <= 128
      requires hash == h0 && lo == 0 && hi == 0 && input[..] == WordsOf(stream)
      ensures Valid()
    {
      StartCount(lo, hi, n);
      assert stream[128 * n..] == stream;
    }

    /** load64_le_buf of a whole block. */
    method LoadWholeBlock(m: seq<u8>)
      requires input.Length == 16 && |m| == 128
      modifies input
      ensures input[..] == WordsOf(m)
    {
      for k := 0 to 16
        invariant forall j :: 0 <= j < k ==> input[j] == Word(m, j)
      {
        input[k] := Word(m, k);
      }
    }

    /** blake2b_compress: the count grows by the bytes in the buffer, with the carry into its high word. */
    method Compress(last: bool)
      requires idx <= 128 && input.Length == 16 && Counter(lo, hi) + idx < LIMIT
      modifies this`hash, this`lo, this`hi
      ensures Counter(lo, hi) == Counter(old(lo), old(hi)) + idx
      ensures hash == compress(old(hash), input[..], Counter(lo, hi), last)
    {
      var low := (lo as int + idx) % 0x1_0000_0000_0000_0000;
      var high := (hi as int + if low < idx then 1 else 0) % 0x1_0000_0000_0000_0000;
      CounterAdds(lo, hi, idx, low, high);
      lo, hi := low, high;
      hash := compress(hash, input[..], Counter(lo, hi), last);
    }

    /** A full block is compressed before anything is added to it. */
    method CompressFull()
      requires Ready() && idx == 128
      modifies this`hash, this`lo, this`hi, this`n
      ensures n == old(n) + 1 && 128 * n == |stream| && hash == Chain(compress, h0, stream, n) && CounterOk(lo, hi, n)
    {
      assert Look(0) && Tick(0);
      Compress(false);
      assert stream[128 * n..] == stream[128 * (n + 1) - 128..128 * (n + 1)];
      n := n + 1;
    }

    /** Makes room: a full block is compressed and the buffer zeroed. */
    method MakeRoom()
      requires Ready()
      modifies this`hash, this`lo, this`hi, this`n, this`idx, input
      ensures Ready() && idx < 128 && idx == (if old(idx) == 128 then 0 else old(idx))
    {
      if idx == 128 {
        CompressFull();
        idx := 0;
        Zero();
        EmptyWords(stream[128 * n..]);
      } else if idx == 0 {
        Zero();
        EmptyWords(stream[128 * n..]);
      }
    }

    method Zero()
      requires input.Length == 16
      modifies input
      ensures forall k :: 0 <= k < 16 ==> input[k] == 0
    {
      for k := 0 to 16
        invariant forall j :: 0 <= j < k ==> input[j] == 0
      {
        input[k] := 0;
      }
    }

    /** One byte is or-ed into its word. */
    method AppendByte(x: u8)
      requires Ready() && idx < 128
      requires |stream| + 1 < LIMIT
      modifies this`idx, this`stream, input
      ensures Ready() && idx == old(idx) + 1 && stream == old(stream) + [x] && n == old(n)
    {
      assert Look(0);
      ghost var b := stream[128 * n..];
      var word, byte := idx / 8, idx % 8;
      WordSnoc(b, x, word);
      BytePower(byte);
      OrDisjoint(input[word], x, 8 * byte);
      WordsSnoc(b, x);
      input[word] := Or(input[word], x * Pow(2, 8 * byte));
      idx := idx + 1;
      ChainPrefix(compress, h0, stream, [x], n);
      stream := stream + [x];
      assert stream[128 * n..] == b + [x];
    }

    method AppendBytes(m: seq<u8>)
      requires Ready() && idx + |m| <= 128
      requires |stream| + |m| < LIMIT
      modifies this`idx, this`stream, input
      ensures Ready() && idx == old(idx) + |m| && stream == old(stream) + m && n == old(n)
    {
      for i := 0 to |m|
        invariant Ready() && idx == old(idx) + i && stream == old(stream) + m[..i] && n == old(n)
      {
        AppendByte(m[i]);
        assert m[..i + 1] == m[..i] + [m[i]];
      }
      assert m[..|m|] == m;
    }

    /** One little-endian word, on a word boundary. */
    method AppendWord(at: nat, w: seq<u8>)
      requires Ready() && |w| == 8 && idx == 8 * at && at < 16
      requires |stream| + |w| < LIMIT
      modifies this`idx, this`stream, input
      ensures Ready() && idx == old(idx) + 8 && stream == old(stream) + w && n == old(n)
    {
      assert Look(0);
      ghost var b := stream[128 * n..];
      WordsAppend(b, w);
      input[at] := Le(w);
      idx := idx + 8;
      ChainPrefix(compress, h0, stream, w, n);
      stream := stream + w;
      assert stream[128 * n..] == b + w;
    }

    /** load64_le_buf: whole words, stored from word at on. Unless there are none, that is where the buffer ends. */
    method LoadWords(at: nat, m: seq<u8>, count: nat)
      requires Ready() && |m| == 8 * count && idx + |m| <= 128 && (count > 0 ==> idx == 8 * at)
      requires |stream| + |m| < LIMIT
      modifies this`idx, this`stream, input
      ensures Ready() && idx == old(idx) + |m| && stream == old(stream) + m && n == old(n)
    {
      for i := 0 to count
        invariant Ready() && idx == old(idx) + 8 * i && stream == old(stream) + m[..8 * i] && n == old(n)
      {
        AppendWord(at + i, m[8 * i..8 * i + 8]);
        assert m[..8 * i + 8] == m[..8 * i] + m[8 * i..8 * i + 8];
      }
      assert m[..8 * count] == m;
    }

    /** A whole block replaces the buffer, after the full one there has been compressed. */
    method LoadBlock(m: seq<u8>)
      requires Valid() && |m| == 128 && (idx == 0 || idx == 128)
      requires |stream| + |m| < LIMIT
      modifies this`hash, this`lo, this`hi, this`n, this`idx, this`stream, input
      ensures Valid() && idx == 128 && stream == old(stream) + m
    {
      if idx == 128 { CompressFull(); }
      LoadWholeBlock(m);
      idx := 128;
      ChainPrefix(compress, h0, stream, m, n);
      stream := stream + m;
      assert stream[128 * n..] == m;
    }

    /** Bytes up to the next word boundary. */
    method AlignWord(m: seq<u8>) returns (rest: seq<u8>)
      requires Valid()
      requires |stream| + |m| < LIMIT
      modifies this`idx, this`stream, input
      ensures Valid() && stream + rest == old(stream) + m && (idx % 8 == 0 || rest == [])
    {
      rest := m;
      if idx % 8 != 0 {
        var nb := Min(8 - idx % 8, |m|);
        AppendBytes(m[..nb]);
        rest := m[nb..];
        Split(old(stream), m, nb);
      }
    }

    /** Words up to the next block boundary. */
    method AlignBlock(m: seq<u8>) returns (rest: seq<u8>)
      requires Valid() && (idx % 8 == 0 || m == [])
      requires |stream| + |m| < LIMIT
      modifies this`idx, this`stream, input
      ensures Valid() && stream + rest == old(stream) + m
      ensures (idx == 0 || idx == 128 || |rest| < 8) && (idx % 8 == 0 || rest == [])
    {
      rest := m;
      if idx % 128 != 0 {
        var nb := Min(128 - idx, |m|) / 8;
        LoadWords(idx / 8, m[..8 * nb], nb);
        rest := m[8 * nb..];
        Split(old(stream), m, 8 * nb);
      }
    }

    /** Whole blocks. */
    method Blocks(m: seq<u8>) returns (rest: seq<u8>)
      requires Valid() && (idx == 0 || idx == 128 || |m| < 8) && (idx % 8 == 0 || m == [])
      requires |stream| + |m| < LIMIT
      modifies this`hash, this`lo, this`hi, this`n, this`idx, this`stream, input
      ensures Valid() && stream + rest == old(stream) + m && |rest| < 128
      ensures (idx == 0 || idx == 128 || |rest| < 8) && (idx % 8 == 0 || rest == [])
    {
      rest := m;
      for i := 0 to |m| / 128
        invariant Valid() && stream + rest == old(stream) + m && |rest| == |m| - 128 * i
        invariant (idx == 0 || idx == 128 || |m| < 8) && (idx % 8 == 0 || m == [])
      {
        ghost var s := stream;
        LoadBlock(rest[..128]);
        Split(s, rest, 128);
        rest := rest[128..];
      }
    }

    /** What is left, less than a block: words are stored at the start of the buffer, which is empty if there are
        any. */
    method Rest(m: seq<u8>)
      requires Valid() && |m| < 128 && (idx == 0 || idx == 128 || |m| < 8) && (idx % 8 == 0 || m == [])
      requires |stream| + |m| < LIMIT
      modifies this`hash, this`lo, this`hi, this`n, this`idx, this`stream, input
      ensures Valid() && stream == old(stream) + m
    {
      if |m| != 0 {
        MakeRoom();
        var nb := |m| / 8;
        LoadWords(0, m[..8 * nb], nb);
        AppendBytes(m[8 * nb..]);
        Split(old(stream), m, 8 * nb);
      }
    }

    /** crypto_blake2b_update */
    method Update(m: seq<u8>)
      requires Valid()
      requires |stream| + |m| < LIMIT
      modifies this`hash, this`lo, this`hi, this`n, this`idx, this`stream, input
      ensures Valid() && stream == old(stream) + m
    {
      if |m| == 0 { return; }
      var rest := AlignWord(m);
      rest := AlignBlock(rest);
      rest := Blocks(rest);
      Rest(rest);
    }

    /** crypto_blake2b_final: the first bytes of the digest of everything that was fed. */
    method Finish() returns (out: seq<u8>)
      requires Valid()
      modifies this`hash, this`lo, this`hi
      ensures |out| == Min(hashSize, 64) && out == Bytes(Digest(compress, h0, stream))[..|out|]
    {
      assert Look(0) && Tick(0);
      Compress(true);
      LastBlock(|stream|, n, idx);
      out := [];
      for i := 0 to Min(hashSize, 64)
        invariant |out| == i && forall j :: 0 <= j < i ==> out[j] == ByteOf(hash, j)
        invariant hash == Digest(compress, h0, stream)
      {
        out := out + [ByteOf(hash, i)];
      }
    }
  }

  lemma LastBlock(len: nat, n: nat, idx: nat)
    requires len == 128 * n + idx && idx <= 128 && (len > 0 ==> idx > 0)
    ensures FullBlocks(len) == n
  {
  }

  /** One-shot hashing and any split into updates agree: the digest is that of the concatenation. */
  method HashAll(f: Compression, start: (nat, nat) -> Hash, hashSize: nat, key: seq<u8>, parts: seq<seq<u8>>)
    returns (out: seq<u8>)
    requires |key| <= 64 && hashSize <= 64 && 128 + |Join(parts)| < LIMIT
    ensures |out| == hashSize
    ensures out == Bytes(Digest(f, start(hashSize, |key|), KeyBlock(key) + Join(parts)))[..|out|]
  {
    var h := new Hasher(f, start, hashSize, key);
    Feed(h, parts);
    out := h.Finish();
  }

  method Feed(h: Hasher, parts: seq<seq<u8>>)
    requires h.Valid() && |h.stream| + |Join(parts)| < LIMIT
    modifies h, h.input
    ensures h.Valid() && h.stream == old(h.stream) + Join(parts)
  {
    var rest := parts;
    while rest != []
      invariant h.Valid() && h.stream + Join(rest) == old(h.stream) + Join(parts)
      decreases |rest|
    {
      Shift(h.stream, rest[0], Join(rest[1..]));
      h.Update(rest[0]);
      rest := rest[1..];
    }
  }

  lemma Shift<T>(a: seq<T>, b: seq<T>, c: seq<T>)
    ensures a + (b + c) == (a + b) + c
  {
  }

  function Join(parts: seq<seq<u8>>): seq<u8> {
    if parts == [] then [] else parts[0] + Join(parts[1..])
  }

  lemma EmptyWords(e: seq<u8>)
    requires e == []
    ensures forall k :: 0 <= k < 16 ==> WordsOf(e)[k] == 0
  {
    forall k | 0 <= k < 16 ensures Word(e, k) == 0 {
      assert Cut(e, k) == [];
    }
  }

  lemma StartCount(lo: u64, hi: u64, n: nat)
    requires lo == 0 && hi == 0 && n == 0
    ensures CounterOk(lo, hi, n)
  {
  }

  /** The two-word addition with carry is exact below 2^128. */
  lemma CounterAdds(lo: u64, hi: u64, y: nat, low: nat, high: nat)
    requires y <= 128 && low == (lo as int + y) % 0x1_0000_0000_0000_0000 && Counter(lo, hi) + y < LIMIT
    requires high == (hi as int + if low < y then 1 else 0) % 0x1_0000_0000_0000_0000
    ensures low + high * 0x1_0000_0000_0000_0000 == Counter(lo, hi) + y
  {
    var w := 0x1_0000_0000_0000_0000;
    if lo as int + y < w {
      assert low == lo as int + y && high == hi;
    } else {
      assert low == lo as int + y - w;
    }
  }
}
