/** The streaming side of lib/sha256.c: the digest of a message that comes in pieces.  What is done with a block of
    64 bytes is a parameter. */
module Sha256 {
  import opened Arithmetic

  const WORD := 0x1_0000_0000

  type Byte = b: nat | b < 256
  type State = seq<nat>
  type Compression = (State, seq<Byte>) -> State

  // ---------------------------------------------------------------- specification

  /** The state after the blocks of a message of whole blocks. */
  function Absorbed(f: Compression, start: State, s: seq<Byte>): State
    requires |s| % 64 == 0
  {
    if s == [] then start else f(Absorbed(f, start, s[..|s| - 64]), s[|s| - 64..])
  }

  /** The part of a message that fills whole blocks, and the rest. */
  function Whole(s: seq<Byte>): (r: seq<Byte>)
    ensures |r| % 64 == 0
  {
    s[..|s| - |s| % 64]
  }

  function Rest(s: seq<Byte>): (r: seq<Byte>)
    ensures |r| == |s| % 64
  {
    s[|s| - |s| % 64..]
  }

  /** The lower 32 bits of a number as four bytes, the highest one first. */
  function Four(w: nat): (r: seq<Byte>)
    ensures |r| == 4
  {
    [w / 0x100_0000 % 256, w / 0x1_0000 % 256, w / 0x100 % 256, w % 256]
  }

  /** The number that bytes stand for. */
  function Number(s: seq<Byte>): nat {
    if s == [] then 0 else Number(s[..|s| - 1]) * 256 + s[|s| - 1]
  }

  /** The number of null bytes after the first byte of the padding: section 5.1.1 of FIPS 180-2 asks for the
      smallest number that makes the length 8 bytes short of whole blocks. */
  function NullBytes(n: nat): (k: nat)
    ensures k < 64 && (n + 1 + k) % 64 == 56
  {
    (119 - n % 64) % 64
  }

  function Nulls(k: nat): (r: seq<Byte>)
    ensures |r| == k
  {
    seq(k, _ => 0)
  }

  /** The length in bits, as eight bytes. */
  function LengthBytes(n: nat): (r: seq<Byte>)
    ensures |r| == 8
  {
    var bits := 8 * n % 0x1_0000_0000_0000_0000;
    Four(bits / WORD) + Four(bits % WORD)
  }

  /** A message with its padding. */
  function Padded(s: seq<Byte>): (r: seq<Byte>)
    ensures |r| % 64 == 0
  {
    WholeBlocks(|s| + 1 + NullBytes(|s|));
    s + [0x80] + Nulls(NullBytes(|s|)) + LengthBytes(|s|)
  }

  lemma WholeBlocks(n: nat)
    requires n % 64 == 56
    ensures (n + 8) % 64 == 0
  {
  }

  function Encoded(h: State): seq<Byte> {
    if h == [] then [] else Four(h[0]) + Encoded(h[1..])
  }

  /** The initial state. */
  const START: State := [0x6A09E667, 0xBB67AE85, 0x3C6EF372, 0xA54FF53A, 0x510E527F, 0x9B05688C, 0x1F83D9AB, 0x5BE0CD19]

  /** The digest of a message. */
  function Digest(f: Compression, s: seq<Byte>): seq<Byte> {
    Encoded(Absorbed(f, START, Padded(s)))
  }

  // ---------------------------------------------------------------- about the specification

  /** The bytes of a digest are the words of the state in their order, each with its highest byte first. */
  lemma {:induction false} EncodedAt(h: State, i: nat)
    requires i < |h|
    ensures |Encoded(h)| == 4 * |h| && Number(Encoded(h)[4 * i..4 * i + 4]) == h[i] % WORD
    ensures Encoded(h)[4 * i] == h[i] / 0x100_0000 % 256
  {
    EncodedSize(h);
    if i == 0 {
      FourIs(h[0]);
      assert Encoded(h)[..4] == Four(h[0]);
    } else {
      EncodedAt(h[1..], i - 1);
      assert Encoded(h)[4 * i..4 * i + 4] == Encoded(h[1..])[4 * (i - 1)..4 * (i - 1) + 4];
    }
  }

  lemma {:induction false} EncodedSize(h: State)
    ensures |Encoded(h)| == 4 * |h|
  {
    if h == [] {
    } else {
      EncodedSize(h[1..]);
    }
  }

  /** The padding of section 5.1.1 of FIPS 180-2: a one bit, as few null bits as make whole blocks, and the length in
      bits in 64 bits, its highest byte first. */
  lemma PaddedIsStandard(s: seq<Byte>)
    ensures var p := Padded(s);
            && |p| % 64 == 0 && |s| + 9 <= |p| < |s| + 9 + 64 && p[..|s|] == s && p[|s|] == 0x80
            && (forall k | |s| < k < |p| - 8 :: p[k] == 0)
            && Number(p[|p| - 8..|p| - 4]) * WORD + Number(p[|p| - 4..]) == 8 * |s| % 0x1_0000_0000_0000_0000
  {
    var p, bits := Padded(s), 8 * |s| % 0x1_0000_0000_0000_0000;
    assert p[|p| - 8..|p| - 4] == Four(bits / WORD) && p[|p| - 4..] == Four(bits % WORD);
    FourIs(bits / WORD);
    FourIs(bits % WORD);
    SmallNumbers(bits);
  }

  /** The initial state: the first 32 bits of the fractional parts of the square roots of the first eight primes, by
      section 5.3.2 of FIPS 180-2. */
  lemma StartIs()
    ensures |START| == 8
    ensures forall i | 0 <= i < 8 ::
      var r := FLOORS[i] * WORD + START[i];
      START[i] < WORD && r * r <= PRIMES[i] * WORD * WORD < (r + 1) * (r + 1)
  {
    forall i | 0 <= i < 8
      ensures var r := FLOORS[i] * WORD + START[i]; START[i] < WORD && r * r <= PRIMES[i] * WORD * WORD < (r + 1) * (r + 1)
    {
      assert i == 0 || i == 1 || i == 2 || i == 3 || i == 4 || i == 5 || i == 6 || i == 7;
    }
  }

  const PRIMES: seq<nat> := [2, 3, 5, 7, 11, 13, 17, 19]

  /** The integer parts of their square roots. */
  const FLOORS: seq<nat> := [1, 1, 2, 2, 3, 3, 4, 4]

  /** No smaller number of null bytes will do. */
  lemma NullBytesIsLeast(n: nat, k: nat)
    requires (n + 1 + k) % 64 == 56
    ensures NullBytes(n) <= k
  {
  }

  lemma FourIs(w: nat)
    ensures Number(Four(w)) == w % WORD
  {
    var r := Four(w);
    assert r[..3][..2] == r[..2] && r[..2][..1] == r[..1] && r[..1][..0] == [];
    assert Number(r[..1]) == r[0];
    assert Number(r[..2]) == Number(r[..1]) * 256 + r[1];
    assert Number(r[..3]) == Number(r[..2]) * 256 + r[2];
    assert r[..4] == r;
    FourBytes(w);
  }

  lemma FourBytes(w: nat)
    ensures ((w / 0x100_0000 % 256 * 256 + w / 0x1_0000 % 256) * 256 + w / 0x100 % 256) * 256 + w % 256 == w % WORD
  {
    assert w / 0x1_0000 == w / 0x100 / 256 && w / 0x100_0000 == w / 0x1_0000 / 256;
    assert w / WORD == w / 0x100_0000 / 256;
  }

  /** Messages of less than 2^61 bytes with the same padded form are the same. */
  lemma PaddingIsInjective(s: seq<Byte>, t: seq<Byte>)
    requires |s| < 0x2000_0000_0000_0000 && |t| < 0x2000_0000_0000_0000 && Padded(s) == Padded(t)
    ensures s == t
  {
    var p, q := Padded(s), Padded(t);
    assert p[|p| - 8..] == LengthBytes(|s|) && q[|q| - 8..] == LengthBytes(|t|);
    LengthIs(|s|);
    LengthIs(|t|);
    assert |s| == |t|;
    assert s == p[..|s|] && t == q[..|t|];
  }

  lemma LengthIs(n: nat)
    requires n < 0x2000_0000_0000_0000
    ensures Number(LengthBytes(n)[..4]) * WORD + Number(LengthBytes(n)[4..]) == 8 * n
  {
    hide Four, Number;
    var bits := 8 * n;
    assert bits % 0x1_0000_0000_0000_0000 == bits;
    assert LengthBytes(n)[..4] == Four(bits / WORD) && LengthBytes(n)[4..] == Four(bits % WORD);
    FourIs(bits / WORD);
    FourIs(bits % WORD);
    SmallNumbers(bits);
  }

  lemma SmallNumbers(bits: nat)
    requires bits < 0x1_0000_0000_0000_0000
    ensures bits / WORD % WORD == bits / WORD && bits % WORD % WORD == bits % WORD && bits / WORD * WORD + bits % WORD == bits
  {
  }

  /** One more block. */
  lemma OneMoreBlock(f: Compression, start: State, s: seq<Byte>, block: seq<Byte>)
    requires |s| % 64 == 0 && |block| == 64
    ensures Absorbed(f, start, s + block) == f(Absorbed(f, start, s), block)
  {
    assert (s + block)[..|s + block| - 64] == s && (s + block)[|s + block| - 64..] == block;
  }

  // ---------------------------------------------------------------- the context

  /** The counter is two words.  It counts an update right exactly when the update is shorter than 2^32 bytes or
      passes a multiple of 2^32 only once: the higher word is never increased by more than one. */
  lemma CountIsRight(total0: nat, n: nat)
    requires total0 < WORD
    ensures var t := (total0 + n) % WORD;
            (total0 + n) / WORD == (if t < n then 1 else 0) <==> n < WORD || total0 + n < 2 * WORD
  {
    if n < WORD {
      DivMod(total0 + n, WORD, if total0 + n < WORD then 0 else 1, if total0 + n < WORD then total0 + n else total0 + n - WORD);
    }
  }

  /** The words of the counter after `k` more bytes. */
  lemma Counted(n: nat, k: nat)
    requires k < WORD || n % WORD + k < 2 * WORD
    ensures var t := (n % WORD + k) % WORD;
            (n + k) % WORD == t && (n + k) / WORD == n / WORD + (if t < k then 1 else 0)
  {
    var a := n % WORD + k;
    CountIsRight(n % WORD, k);
    DivMod(n + k, WORD, n / WORD + a / WORD, a % WORD);
  }

  /** The bytes complete a block. */
  lemma Completes(f: Compression, start: State, s: seq<Byte>, t: seq<Byte>)
    requires |s| % 64 + |t| == 64
    ensures Whole(s + t) == Whole(s) + (Rest(s) + t) && Rest(s + t) == []
    ensures Absorbed(f, start, Whole(s + t)) == f(Absorbed(f, start, Whole(s)), Rest(s) + t)
  {
    DivMod(|s| + |t|, 64, |s| / 64 + 1, 0);
    assert s == Whole(s) + Rest(s);
    OneMoreBlock(f, start, Whole(s), Rest(s) + t);
    assert s + t == Whole(s) + (Rest(s) + t);
  }

  /** The bytes do not complete a block. */
  lemma Falls(s: seq<Byte>, t: seq<Byte>)
    requires |s| % 64 + |t| < 64
    ensures Whole(s + t) == Whole(s) && Rest(s + t) == Rest(s) + t
  {
    DivMod(|s| + |t|, 64, |s| / 64, |s| % 64 + |t|);
    assert s == Whole(s) + Rest(s);
  }

  class Context {
    const compress: Compression
    var total0: nat
    var total1: nat
    var state: State
    const buffer: array<Byte>
    ghost var message: seq<Byte>

    /** The context stands for the message so far. */
    ghost predicate Valid()
      reads this, buffer
    {
      && buffer.Length == 64 && total0 == |message| % WORD && total1 == |message| / WORD
      && Fed(message)
    }

    /** The state and the buffer stand for a message. */
    ghost predicate Fed(s: seq<Byte>)
      requires buffer.Length == 64
      reads this`state, buffer
    {
      state == Absorbed(compress, START, Whole(s)) && buffer[..|s| % 64] == Rest(s)
    }

    constructor (f: Compression)
      ensures Valid() && message == [] && compress == f && fresh(buffer)
    {
      compress := f;
      total0, total1, state, message := 0, 0, START, [];
      buffer := new Byte[64];
    }

    method CopyIn(at: nat, input: seq<Byte>)
      requires at + |input| <= buffer.Length
      modifies buffer
      ensures buffer[..] == old(buffer[..at]) + input + old(buffer[at + |input|..])
    {
      forall i | at <= i < at + |input| {
        buffer[i] := input[i - at];
      }
    }

    /** Adds a piece to the message. */
    method Update(input: seq<Byte>)
      requires Valid() && (|input| < WORD || total0 + |input| < 2 * WORD)
      modifies this, buffer
      ensures Valid() && message == old(message) + input
    {
      hide Absorbed, Whole, Rest;
      if input == [] {
        assert message + input == message;
        return;
      }
      Counted(|message|, |input|);
      Low6(|message|);
      var left: nat := total0 % 64;
      var fill := 64 - left;
      total0 := (total0 + |input|) % WORD;
      if total0 < |input| {
        total1 := total1 + 1;
      }
      Feed(left, fill, input);
      message := message + input;
    }

    method Feed(left0: nat, fill: nat, input: seq<Byte>)
      requires buffer.Length == 64 && Fed(message) && left0 == |message| % 64 && fill == 64 - left0
      modifies this`state, buffer
      ensures Fed(message + input)
    {
      hide Absorbed, Whole, Rest;
      var pos: nat, left: nat := 0, left0;
      if left != 0 && |input| >= fill {
        Completes(compress, START, message, input[..fill]);
        CopyIn(left, input[..fill]);
        assert buffer[..] == Rest(message) + input[..fill];
        state := compress(state, buffer[..]);
        pos := fill;
        left := 0;
        assert buffer[..0] == [];
      } else {
        assert input[..pos] == [] && message + [] == message;
      }
      while |input| - pos >= 64
        invariant pos <= |input| && Fed(message + input[..pos]) && left == |message + input[..pos]| % 64
        invariant left != 0 ==> |input| - pos < 64 - left
        decreases |input| - pos
      {
        Completes(compress, START, message + input[..pos], input[pos..pos + 64]);
        assert message + input[..pos] + input[pos..pos + 64] == message + input[..pos + 64];
        assert Rest(message + input[..pos]) + input[pos..pos + 64] == input[pos..pos + 64];
        state := compress(state, input[pos..pos + 64]);
        pos := pos + 64;
        assert buffer[..0] == [];
      }
      Falls(message + input[..pos], input[pos..]);
      assert message + input[..pos] + input[pos..] == message + input;
      if pos < |input| {
        CopyIn(left, input[pos..]);
      } else {
        assert input[pos..] == [];
      }
    }

    /** The digest of the message.  The context then stands for the padded message. */
    method Finish() returns (digest: seq<Byte>)
      requires Valid()
      modifies this, buffer
      ensures digest == Digest(compress, old(message))
      ensures var h := Absorbed(compress, START, Padded(old(message)));
              |digest| == 4 * |h| && forall i | 0 <= i < |h| :: Number(digest[4 * i..4 * i + 4]) == h[i] % WORD
    {
      hide Absorbed, Whole, Rest, LengthBytes, Padded, Four, NullBytes;
      var high, low := total0 / 0x2000_0000 + total1 * 8, total0 * 8;
      var length := Four(high) + Four(low);
      LengthWords(|message|);
      Low6(|message|);
      var last := total0 % 64;
      var padn: nat := if last < 56 then 56 - last else 120 - last;
      PaddingIs(|message|, padn);
      PaddedIs(message, padn);
      Update(PADDING()[..padn]);
      Update(length);
      digest := Encoded(state);
      EncodedSize(state);
      forall i | 0 <= i < |state| ensures Number(digest[4 * i..4 * i + 4]) == state[i] % WORD {
        EncodedAt(state, i);
      }
    }
  }

  /** The first byte of the padding, and as many null bytes as may be needed. */
  function PADDING(): (r: seq<Byte>)
    ensures |r| == 64
  {
    [0x80] + Nulls(63)
  }

  lemma PaddingIs(n: nat, padn: nat)
    requires padn == if n % 64 < 56 then 56 - n % 64 else 120 - n % 64
    ensures padn == 1 + NullBytes(n) <= 64 && PADDING()[..padn] == [0x80] + Nulls(NullBytes(n))
  {
  }

  lemma PaddedIs(s: seq<Byte>, padn: nat)
    requires padn <= 64 && PADDING()[..padn] == [0x80] + Nulls(NullBytes(|s|))
    ensures s + PADDING()[..padn] + LengthBytes(|s|) == Padded(s) && Whole(Padded(s)) == Padded(s)
  {
  }

  /** The counter in bits. */
  lemma LengthWords(n: nat)
    ensures Four(n % WORD / 0x2000_0000 + n / WORD * 8) + Four(n % WORD * 8) == LengthBytes(n)
  {
    hide Four;
    BitWords(n);
    var bits := 8 * n % 0x1_0000_0000_0000_0000;
    SameFour(n % WORD / 0x2000_0000 + n / WORD * 8, bits / WORD, 8 * n / 0x1_0000_0000_0000_0000);
    SameFour(n % WORD * 8, bits % WORD, n % WORD * 8 / WORD);
  }

  lemma BitWords(n: nat)
    ensures var bits := 8 * n % 0x1_0000_0000_0000_0000;
            && n % WORD / 0x2000_0000 + n / WORD * 8 == 8 * n / 0x1_0000_0000_0000_0000 * WORD + bits / WORD
            && n % WORD * 8 == n % WORD * 8 / WORD * WORD + bits % WORD
  {
    var t0, t1 := n % WORD, n / WORD;
    var high, low := t0 / 0x2000_0000 + t1 * 8, t0 * 8 % WORD;
    EighthWord(t0);
    var k, bits := 8 * n / 0x1_0000_0000_0000_0000, 8 * n % 0x1_0000_0000_0000_0000;
    Quotient(n, WORD);
    Quotient(8 * n, 0x1_0000_0000_0000_0000);
    Quotient(bits, WORD);
    DivMod(8 * n, WORD, high, low);
    DivMod(8 * n, WORD, k * WORD + bits / WORD, bits % WORD);
    Quotient(t0 * 8, WORD);
  }

  lemma EighthWord(t: nat)
    requires t < WORD
    ensures 8 * t == t / 0x2000_0000 * WORD + t * 8 % WORD
  {
  }

  lemma SameFour(x: nat, y: nat, k: nat)
    requires x == k * WORD + y && y < WORD
    ensures Four(x) == Four(y)
  {
    SameByte(x, y, k, 0x100_0000, 1);
    SameByte(x, y, k, 0x1_0000, 0x100);
    SameByte(x, y, k, 0x100, 0x1_0000);
    SameByte(x, y, k, 1, 0x100_0000);
  }

  lemma SameByte(x: nat, y: nat, k: nat, p: nat, q: nat)
    requires x == k * WORD + y && p > 0 && p * (256 * q) == WORD
    ensures x / p % 256 == y / p % 256
  {
    MulSwap(k, p, 256 * q);
    MulSwap(k, 256 * q, p);
    Quotient(y, p);
    Distribute(k * (256 * q), y / p, p);
    DivMod(x, p, k * (256 * q) + y / p, y % p);
    MulSwap(k, 256, q);
    Quotient(y / p, 256);
    DivMod(x / p, 256, k * q + y / p / 256, y / p % 256);
  }

  /** The pieces one after the other. */
  function Joined(pieces: seq<seq<Byte>>): seq<Byte> {
    if pieces == [] then [] else Joined(pieces[..|pieces| - 1]) + pieces[|pieces| - 1]
  }

  /** The digest does not depend on the pieces that the message comes in. */
  method DigestOf(f: Compression, pieces: seq<seq<Byte>>) returns (digest: seq<Byte>)
    requires forall i | 0 <= i < |pieces| :: |pieces[i]| < WORD
    ensures digest == Digest(f, Joined(pieces))
  {
    var c := new Context(f);
    for i := 0 to |pieces|
      invariant c.Valid() && c.message == Joined(pieces[..i]) && c.compress == f && fresh(c) && fresh(c.buffer)
    {
      assert pieces[..i + 1][..i] == pieces[..i];
      c.Update(pieces[i]);
    }
    assert pieces[..|pieces|] == pieces;
    digest := c.Finish();
  }

  /** The six low bits of the counter. */
  lemma Low6(n: nat)
    ensures n % WORD % 64 == n % 64
  {
    assert n == n / WORD * WORD + n % WORD;
    DivMod(n, 64, n / WORD * (WORD / 64) + n % WORD / 64, n % WORD % 64);
  }
}
