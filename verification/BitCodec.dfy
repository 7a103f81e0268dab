/**
  The 32-bit field codec. A machine word is its 32 bits, least significant
  first; the mask-and-shift code is proved to be the arithmetic it stands for.
 */
module BitCodec {
  import opened DivMod

  type Bits = seq<bool>
  type Word = w: Bits | |w| == 32 witness seq(32, _ => false)

  /** A field: which word, the offset of its least significant bit, its width. */
  datatype Code = Code(word: nat, offset: nat, width: nat)

  predicate WellFormed(c: Code) {
    1 <= c.width && c.offset + c.width <= 32
  }

  // ----- machine operations -----

  function And(a: Word, b: Word): Word { seq(32, i requires 0 <= i < 32 => a[i] && b[i]) }

  function Or(a: Word, b: Word): Word { seq(32, i requires 0 <= i < 32 => a[i] || b[i]) }

  function Not(a: Word): Word { seq(32, i requires 0 <= i < 32 => !a[i]) }

  function ShiftLeft(a: Word, n: nat): Word { seq(32, i requires 0 <= i < 32 => i >= n && a[i - n]) }

  function ShiftRight(a: Word, n: nat): Word { seq(32, i requires 0 <= i < 32 => i + n < 32 && a[i + n]) }

  /** MAKE_MASK32: the word whose value is 2^width - 1. */
  function Mask(width: nat): Word { seq(32, i => i < width) }

  // ----- the source's codec -----

  /** e32: a value placed in its field, all else zero. */
  function Encode32(offset: nat, width: nat, value: Word): Word {
    ShiftLeft(And(value, Mask(width)), offset)
  }

  /** d32: the field read out. */
  function Decode32(offset: nat, width: nat, w: Word): Word {
    And(ShiftRight(w, offset), Mask(width))
  }

  /** i32: the field kept, all else cleared. */
  function Isolate32(offset: nat, width: nat, w: Word): Word {
    Encode32(offset, width, Decode32(offset, width, w))
  }

  /** r32: the field cleared, all else kept. */
  function Remove32(offset: nat, width: nat, w: Word): Word {
    And(Not(ShiftLeft(Mask(width), offset)), w)
  }

  // ----- words as numbers -----

  function Pow2(n: nat): (p: nat)
    ensures p > 0
  {
    if n == 0 then 1 else 2 * Pow2(n - 1)
  }

  function Num(b: Bits): nat {
    if b == [] then 0 else (if b[0] then 1 else 0) + 2 * Num(b[1..])
  }

  function FromNum(x: nat, n: nat): (b: Bits)
    ensures |b| == n
    decreases n, x
  {
    if n == 0 then [] else [x % 2 == 1] + FromNum(x / 2, n - 1)
  }

  function WordOf(x: nat): Word { FromNum(x, 32) }

  lemma {:induction false} NumBound(b: Bits)
    ensures Num(b) < Pow2(|b|)
  {
    if b != [] { NumBound(b[1..]); }
  }

  lemma {:induction false} NumConcat(a: Bits, b: Bits)
    ensures Num(a + b) == Num(a) + Pow2(|a|) * Num(b)
  {
    if a == [] {
      assert a + b == b;
    } else {
      assert (a + b)[1..] == a[1..] + b;
      NumConcat(a[1..], b);
      Doubled(Pow2(|a[1..]|), Num(b));
      assert Pow2(|a|) == 2 * Pow2(|a[1..]|);
    }
  }

  lemma Doubled(p: nat, n: nat)
    ensures 2 * (p * n) == (2 * p) * n
  {
  }

  lemma {:induction false} NumZeros(b: Bits)
    requires forall i :: 0 <= i < |b| ==> !b[i]
    ensures Num(b) == 0
  {
    if b != [] { NumZeros(b[1..]); }
  }

  lemma {:induction false} NumOfFromNum(x: nat, n: nat)
    requires x < Pow2(n)
    ensures Num(FromNum(x, n)) == x
    decreases n
  {
    if n > 0 {
      NumOfFromNum(x / 2, n - 1);
      assert FromNum(x, n)[1..] == FromNum(x / 2, n - 1);
    }
  }

  lemma {:induction false} NumInjective(a: Bits, b: Bits)
    requires |a| == |b| && Num(a) == Num(b)
    ensures a == b
  {
    if a != [] {
      NumInjective(a[1..], b[1..]);
      assert a == [a[0]] + a[1..] && b == [b[0]] + b[1..];
    }
  }

  /** The low bits of a number are its remainder, the high bits its quotient. */
  lemma SplitNum(b: Bits, n: nat)
    requires n <= |b|
    ensures Num(b[..n]) == Num(b) % Pow2(n) && Num(b[n..]) == Num(b) / Pow2(n)
  {
    assert b == b[..n] + b[n..];
    NumConcat(b[..n], b[n..]);
    NumBound(b[..n]);
    DivModUnique(Num(b), Pow2(n), Num(b[n..]), Num(b[..n]));
  }

  lemma MaskValue(width: nat)
    requires width <= 32
    ensures Num(Mask(width)) == Pow2(width) - 1
  {
    LowBits(Mask(width), width);
    NumOnes(Mask(width)[..width]);
  }

  /** A word with nothing above bit `n` is its low part. */
  lemma LowBits(b: Bits, n: nat)
    requires n <= |b| && forall i :: n <= i < |b| ==> !b[i]
    ensures Num(b) == Num(b[..n])
  {
    assert b == b[..n] + b[n..];
    NumConcat(b[..n], b[n..]);
    NumZeros(b[n..]);
  }

  lemma {:induction false} NumOnes(b: Bits)
    requires forall i :: 0 <= i < |b| ==> b[i]
    ensures Num(b) == Pow2(|b|) - 1
  {
    if b != [] { NumOnes(b[1..]); }
  }

  // ----- the codec is arithmetic -----

  /** The source's read-modify-write of one word. */
  function WithField(c: Code, w: Word, value: Word): Word {
    Or(Remove32(c.offset, c.width, w), Encode32(c.offset, c.width, value))
  }

  /** Decoding is division and remainder. */
  lemma DecodeIsArithmetic(c: Code, w: Word)
    requires WellFormed(c)
    ensures Num(Decode32(c.offset, c.width, w)) == Num(w) / Pow2(c.offset) % Pow2(c.width)
  {
    var d := Decode32(c.offset, c.width, w);
    var high := w[c.offset..];
    assert d == high[..c.width] + d[c.width..];
    NumConcat(high[..c.width], d[c.width..]);
    NumZeros(d[c.width..]);
    SplitNum(w, c.offset);
    SplitNum(high, c.width);
  }

  /** A write replaces the middle of three bit strings. */
  lemma WithFieldParts(c: Code, w: Word, value: Word)
    requires WellFormed(c)
    ensures WithField(c, w, value) == w[..c.offset] + value[..c.width] + w[c.offset + c.width..]
    ensures w == w[..c.offset] + w[c.offset..c.offset + c.width] + w[c.offset + c.width..]
  {
  }

  lemma DecodeIsMiddle(c: Code, w: Word)
    requires WellFormed(c)
    ensures Num(Decode32(c.offset, c.width, w)) == Num(w[c.offset..c.offset + c.width])
  {
    var d := Decode32(c.offset, c.width, w);
    var field := w[c.offset..c.offset + c.width];
    assert d == field + d[c.width..];
    NumConcat(field, d[c.width..]);
    NumZeros(d[c.width..]);
  }

  /** Encoding replaces the old field value by the new one, modulo the width,
      and changes nothing else in the number. */
  lemma EncodeIsArithmetic(c: Code, w: Word, value: Word)
    requires WellFormed(c)
    ensures Num(WithField(c, w, value))
            == Num(w) - Num(Decode32(c.offset, c.width, w)) * Pow2(c.offset)
               + (Num(value) % Pow2(c.width)) * Pow2(c.offset)
  {
    var lo, mid, hi := w[..c.offset], w[c.offset..c.offset + c.width], w[c.offset + c.width..];
    WithFieldParts(c, w, value);
    DecodeIsMiddle(c, w);
    SplitNum(value, c.width);
    ThreeParts(lo, mid, hi);
    ThreeParts(lo, value[..c.width], hi);
  }

  lemma ThreeParts(lo: Bits, mid: Bits, hi: Bits)
    ensures Num(lo + mid + hi) == Num(lo) + Num(mid) * Pow2(|lo|) + Pow2(|lo| + |mid|) * Num(hi)
  {
    NumConcat(lo + mid, hi);
    NumConcat(lo, mid);
  }

  /** Isolating is what encoding the decoded value into a zero word gives. */
  lemma WordIsFieldPlusRest(c: Code, w: Word)
    requires WellFormed(c)
    ensures w == Or(Remove32(c.offset, c.width, w), Isolate32(c.offset, c.width, w))
    ensures And(Remove32(c.offset, c.width, w), Isolate32(c.offset, c.width, w)) == Mask(0)
  {
  }

  // ----- fields of a cacheline -----

  predicate Disjoint(c: Code, d: Code) {
    c.word != d.word || c.offset + c.width <= d.offset || d.offset + d.width <= c.offset
  }

  /** dce_attr_code_decode */
  function Decode(c: Code, cl: seq<Word>): Word
    requires c.word < |cl|
  {
    Decode32(c.offset, c.width, cl[c.word])
  }

  function Encoded(c: Code, cl: seq<Word>, value: Word): seq<Word>
    requires c.word < |cl|
  {
    cl[c.word := WithField(c, cl[c.word], value)]
  }

  /** A write is read back modulo the width; every disjoint field is untouched. */
  lemma WriteThenRead(c: Code, cl: seq<Word>, value: Word)
    requires WellFormed(c) && c.word < |cl|
    ensures Decode(c, Encoded(c, cl, value)) == And(value, Mask(c.width))
    ensures Num(Decode(c, Encoded(c, cl, value))) == Num(value) % Pow2(c.width)
    ensures forall d :: WellFormed(d) && d.word < |cl| && Disjoint(c, d) ==>
              Decode(d, Encoded(c, cl, value)) == Decode(d, cl)
  {
    ReadBack(c, cl, value);
    forall d | WellFormed(d) && d.word < |cl| && Disjoint(c, d)
      ensures Decode(d, Encoded(c, cl, value)) == Decode(d, cl)
    {
      OthersUntouched(c, cl, value, d);
    }
  }

  lemma ReadBack(c: Code, cl: seq<Word>, value: Word)
    requires WellFormed(c) && c.word < |cl|
    ensures Decode(c, Encoded(c, cl, value)) == And(value, Mask(c.width))
    ensures Num(Decode(c, Encoded(c, cl, value))) == Num(value) % Pow2(c.width)
  {
    var low := And(value, Mask(c.width));
    assert Decode(c, Encoded(c, cl, value)) == low;
    LowBits(low, c.width);
    assert low[..c.width] == value[..c.width];
    SplitNum(value, c.width);
  }

  lemma OthersUntouched(c: Code, cl: seq<Word>, value: Word, d: Code)
    requires WellFormed(c) && c.word < |cl| && WellFormed(d) && d.word < |cl| && Disjoint(c, d)
    ensures Decode(d, Encoded(c, cl, value)) == Decode(d, cl)
  {
  }

  /** dce_attr_code_encode, in place. */
  method Encode(c: Code, cl: array<Word>, value: Word)
    requires WellFormed(c) && c.word < cl.Length
    modifies cl
    ensures cl[..] == Encoded(c, old(cl[..]), value)
    ensures Num(Decode(c, cl[..])) == Num(value) % Pow2(c.width)
    ensures forall d :: WellFormed(d) && d.word < cl.Length && Disjoint(c, d) ==>
        Decode(d, cl[..]) == Decode(d, old(cl[..]))
  {
    WriteThenRead(c, cl[..], value);
    cl[c.word] := Or(Remove32(c.offset, c.width, cl[c.word]), Encode32(c.offset, c.width, value));
  }

  datatype Write = Write(code: Code, value: Word)

  predicate Fits(writes: seq<Write>, size: nat) {
    forall i :: 0 <= i < |writes| ==> WellFormed(writes[i].code) && writes[i].code.word < size
  }

  function AfterWrites(cl: seq<Word>, writes: seq<Write>): (r: seq<Word>)
    requires Fits(writes, |cl|)
    ensures |r| == |cl|
    decreases writes
  {
    if writes == [] then cl
    else AfterWrites(Encoded(writes[0].code, cl, writes[0].value), writes[1..])
  }

  lemma {:induction false} DisjointWritesLeave(cl: seq<Word>, writes: seq<Write>, d: Code)
    requires Fits(writes, |cl|) && WellFormed(d) && d.word < |cl|
    requires forall i :: 0 <= i < |writes| ==> Disjoint(writes[i].code, d)
    ensures Decode(d, AfterWrites(cl, writes)) == Decode(d, cl)
    decreases writes
  {
    if writes != [] {
      WriteThenRead(writes[0].code, cl, writes[0].value);
      assert Disjoint(writes[0].code, d);
      DisjointWritesLeave(Encoded(writes[0].code, cl, writes[0].value), writes[1..], d);
    }
  }

  /** After any sequence of writes a field holds its last write, taken modulo
      its width, as long as every later write was to a disjoint field. */
  lemma {:induction false} LastWriteWins(cl: seq<Word>, writes: seq<Write>, k: nat)
    requires Fits(writes, |cl|) && k < |writes|
    requires forall i :: k < i < |writes| ==> Disjoint(writes[i].code, writes[k].code)
    ensures var d := writes[k].code;
            Num(Decode(d, AfterWrites(cl, writes))) == Num(writes[k].value) % Pow2(d.width)
    decreases k
  {
    var c, v := writes[0].code, writes[0].value;
    var next := Encoded(c, cl, v);
    if k > 0 {
      LastWriteWins(next, writes[1..], k - 1);
    } else {
      WriteThenRead(c, cl, v);
      DisjointWritesLeave(next, writes[1..], c);
    }
  }

  // ----- signed fields -----

  /** dce_attr_code_makesigned on a decoded field value. */
  function MakeSigned(width: nat, value: nat): int
    requires 1 <= width
  {
    if value >= Pow2(width - 1) then -(Pow2(width) - value) else value
  }

  /** The two's complement of `x` in `width` bits. */
  function TwosComplement(width: nat, x: int): int {
    if x >= 0 then x else Pow2(width) + x
  }

  predicate InSignedRange(width: nat, x: int)
    requires 1 <= width
  {
    0 <= x + Pow2(width - 1) && x < Pow2(width - 1)
  }

  /** Two's complement in a wide word, cut down to `n` bits, is two's complement
      in `n` bits. */
  lemma CutTwosComplement(total: nat, n: nat, x: int)
    requires 1 <= n < total && InSignedRange(n, x)
    ensures 0 <= TwosComplement(total, x) < Pow2(total)
    ensures TwosComplement(total, x) % Pow2(n) == TwosComplement(n, x)
  {
    Pow2Adds(n, total - n);
    WrapNegative(Pow2(n), Pow2(total - n), x);
  }

  lemma WrapNegative(p: nat, big: nat, x: int)
    requires big >= 1 && -(p as int) <= x < p
    ensures x >= 0 ==> x < p * big && x % p == x
    ensures x < 0 ==> 0 <= p * big + x < p * big && (p * big + x) % p == p + x
  {
    MultipleIsFar(p, big);
    if x >= 0 {
      DivModUnique(x, p, 0, x);
    } else {
      assert p * (big - 1) == p * big - p;
      DivModUnique(p * big + x, p, big - 1, p + x);
    }
  }

  /** Storing a signed value in a field of 1 to 31 bits and re-signing what is
      read back gives the value. */
  lemma SignedRoundTrip(c: Code, cl: seq<Word>, x: int)
    requires WellFormed(c) && c.width <= 31 && c.word < |cl| && InSignedRange(c.width, x)
    ensures 0 <= TwosComplement(32, x)
    ensures MakeSigned(c.width, Num(Decode(c, Encoded(c, cl, WordOf(TwosComplement(32, x)))))) == x
  {
    CutTwosComplement(32, c.width, x);
    NumOfFromNum(TwosComplement(32, x), 32);
    WriteThenRead(c, cl, WordOf(TwosComplement(32, x)));
  }

  lemma {:induction false} Pow2Adds(a: nat, b: nat)
    ensures Pow2(a) * Pow2(b) == Pow2(a + b)
  {
    if a > 0 {
      Pow2Adds(a - 1, b);
      assert (2 * Pow2(a - 1)) * Pow2(b) == 2 * (Pow2(a - 1) * Pow2(b));
    }
  }

  lemma {:induction false} Pow2Grows(a: nat, b: nat)
    requires a <= b
    ensures Pow2(a) <= Pow2(b)
    decreases b
  {
    if a < b { Pow2Grows(a, b - 1); }
  }
}
