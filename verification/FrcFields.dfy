/** The FRC word of a DCE frame descriptor: its fields and what follows from
    their layout. */
module FrcFields {
  import opened BitCodec
  import opened DivMod

  const FD_WORDS := 8

  const CMD := Code(4, 29, 3)
  const NOP_TOKEN := Code(4, 0, 29)
  const CIC_TOKEN := Code(4, 0, 29)
  const SCUS := Code(4, 8, 2)
  const USDC := Code(4, 10, 1)
  const USPC := Code(4, 11, 1)
  const UHC := Code(4, 12, 1)
  const CE := Code(4, 13, 2)
  const CF := Code(4, 16, 2)
  const B64 := Code(4, 18, 1)
  const RB := Code(4, 19, 1)
  const INITIAL := Code(4, 20, 1)
  const RECYCLE := Code(4, 21, 1)
  const SCRF := Code(4, 22, 1)
  const Z_FLUSH := Code(4, 23, 3)
  const SF := Code(4, 28, 1)

  const CMD_PROCESS := 0
  const CMD_CTX_INVALIDATE := 4
  const CMD_NOP := 7
  const CLEANUP_FRC := 0x10000000

  /** The fields of a PROCESS request, in bit order. */
  const REQUEST: seq<Code> := [SCUS, USDC, USPC, UHC, CE, CF, B64, RB, INITIAL, RECYCLE, SCRF, Z_FLUSH, SF, CMD]

  type Fd = fd: seq<Word> | |fd| == FD_WORDS witness seq(FD_WORDS, _ => Mask(0))

  function Field(c: Code, fd: Fd): nat
    requires c.word < FD_WORDS
  {
    Num(Decode(c, fd))
  }

  function Set(c: Code, fd: Fd, value: nat): Fd
    requires c.word < FD_WORDS
  {
    Encoded(c, fd, WordOf(value))
  }

  lemma RequestLayout(i: nat, j: nat)
    requires i < |REQUEST| && j < |REQUEST|
    ensures WellFormed(REQUEST[i]) && REQUEST[i].word == 4
    ensures i < j ==> REQUEST[i].offset + REQUEST[i].width <= REQUEST[j].offset
    ensures i != j ==> Disjoint(REQUEST[i], REQUEST[j])
    decreases j
  {
    if i < j - 1 { RequestLayout(i, j - 1); }
  }

  /** Request setters may be called in any order and any number of times: each
      field ends up with the last value given to it, modulo its width. */
  lemma SettersAreIndependent(fd: Fd, writes: seq<Write>, k: nat)
    requires k < |writes|
    requires forall i :: 0 <= i < |writes| ==> writes[i].code in REQUEST
    requires forall i :: k < i < |writes| ==> writes[i].code != writes[k].code
    ensures Fits(writes, |fd|)
    ensures Field(writes[k].code, AfterWrites(fd, writes)) == Num(writes[k].value) % Pow2(writes[k].code.width)
  {
    forall i | 0 <= i < |writes|
      ensures WellFormed(writes[i].code) && writes[i].code.word == 4
      ensures k < i ==> Disjoint(writes[i].code, writes[k].code)
    {
      var a :| 0 <= a < |REQUEST| && REQUEST[a] == writes[i].code;
      var b :| 0 <= b < |REQUEST| && REQUEST[b] == writes[k].code;
      RequestLayout(a, b);
    }
    LastWriteWins(fd, writes, k);
  }

  /** A flow key survives the trip through the 29-bit token field, and the
      command next to it is left alone. */
  lemma TokenRoundTrip(fd: Fd, key: nat)
    requires key < 65535
    ensures Field(NOP_TOKEN, Set(NOP_TOKEN, fd, key)) == key
    ensures Field(CMD, Set(NOP_TOKEN, fd, key)) == Field(CMD, fd)
  {
    SmallNumbers();
    NumOfFromNum(key, 32);
    WriteThenRead(NOP_TOKEN, fd, WordOf(key));
    assert Disjoint(NOP_TOKEN, CMD);
    DivModUnique(key, Pow2(29), 0, key);
  }

  lemma SmallNumbers()
    ensures 65535 < Pow2(29) < Pow2(32) && Pow2(1) == 2
  {
    Pow2Is65536();
    Pow2Grows(16, 29);
    Pow2Grows(29, 31);
    assert Pow2(32) == 2 * Pow2(31);
  }

  lemma Pow2Is65536()
    ensures Pow2(16) == 65536
  {
    assert Pow2(4) == 16;
    Pow2Adds(4, 4);
    Pow2Adds(8, 8);
  }

  /** The cleanup test compares a one-bit field with a 29-bit constant: no frame
      ever passes it. */
  lemma CleanupTestNeverFires(fd: Fd)
    ensures Field(SCRF, fd) != CLEANUP_FRC
  {
    DecodeIsMiddle(SCRF, fd[4]);
    NumBound(fd[4][22..23]);
    SmallNumbers();
  }

  // ----- the PROCESS request of a session -----

  const ZERO_FD: Fd := seq(FD_WORDS, _ => Mask(0))

  function Bit(b: bool): nat { if b then 1 else 0 }

  /** What a session puts in the FRC: statefulness, the two stream bits, the flush. */
  ghost predicate Carries(fd: Fd, stateful: bool, recycle: bool, initial: bool, flush: nat) {
    forall c {:trigger Field(c, fd)} :: c == CMD || c == SF || c == RECYCLE || c == INITIAL || c == Z_FLUSH ==>
      Field(c, fd) == Wanted(c, stateful, recycle, initial, flush)
  }

  function Wanted(c: Code, stateful: bool, recycle: bool, initial: bool, flush: nat): nat {
    if c == CMD then CMD_PROCESS
    else if c == SF then Bit(stateful)
    else if c == RECYCLE then Bit(recycle)
    else if c == INITIAL then Bit(initial)
    else flush
  }

  /** The FRC of a request as a number. */
  function RequestValue(stateful: bool, recycle: bool, initial: bool, flush: nat): nat {
    Bit(stateful) * 0x1000_0000 + Bit(recycle) * 0x20_0000 + Bit(initial) * 0x10_0000 + flush * 0x80_0000
  }

  /** The request built over a zeroed descriptor carries exactly that. */
  method Request(stateful: bool, recycle: bool, initial: bool, flush: nat) returns (fd: Fd)
    requires flush < 8
    ensures Carries(fd, stateful, recycle, initial, flush)
    ensures Num(fd[4]) == RequestValue(stateful, recycle, initial, flush)
    ensures forall i :: 0 <= i < FD_WORDS && i != 4 ==> fd[i] == Mask(0)
  {
    var values := [Bit(stateful), Bit(recycle), Bit(initial), flush];
    var writes := seq(4, i requires 0 <= i < 4 => Write([SF, RECYCLE, INITIAL, Z_FLUSH][i], WordOf(values[i])));
    RequestReads(writes, values);
    RequestIsNumber(writes, values);
    fd := AfterWrites(ZERO_FD, writes);
  }

  lemma {:induction false} RequestReads(writes: seq<Write>, values: seq<nat>)
    requires |writes| == |values| == 4
    requires forall i :: 0 <= i < 4 ==> writes[i] == Write([SF, RECYCLE, INITIAL, Z_FLUSH][i], WordOf(values[i]))
    requires values[0] < 2 && values[1] < 2 && values[2] < 2 && values[3] < 8
    ensures Fits(writes, FD_WORDS)
    ensures var fd := AfterWrites(ZERO_FD, writes);
            && Field(CMD, fd) == CMD_PROCESS && Field(SF, fd) == values[0]
            && Field(RECYCLE, fd) == values[1] && Field(INITIAL, fd) == values[2] && Field(Z_FLUSH, fd) == values[3]
  {
    assert writes[0].code == SF && writes[1].code == RECYCLE && writes[2].code == INITIAL && writes[3].code == Z_FLUSH;
    assert forall i :: 0 <= i < 4 ==> WellFormed(writes[i].code) && Disjoint(writes[i].code, CMD);
    CommandIsProcess(writes);
    assert Pow2(1) == 2 && Pow2(3) == 8;
    SmallRead(writes, 0, values[0]);
    SmallRead(writes, 1, values[1]);
    SmallRead(writes, 2, values[2]);
    SmallRead(writes, 3, values[3]);
  }

  lemma CommandIsProcess(writes: seq<Write>)
    requires Fits(writes, FD_WORDS) && forall i :: 0 <= i < |writes| ==> Disjoint(writes[i].code, CMD)
    ensures Field(CMD, AfterWrites(ZERO_FD, writes)) == CMD_PROCESS
  {
    DisjointWritesLeave(ZERO_FD, writes, CMD);
    NumZeros(Decode(CMD, ZERO_FD));
  }

  /** A value that fits its field is read back as it is. */
  lemma {:induction false} SmallRead(writes: seq<Write>, k: nat, value: nat)
    requires Fits(writes, FD_WORDS) && k < |writes| && writes[k].value == WordOf(value)
    requires value < Pow2(writes[k].code.width) && value < 8
    requires forall i :: k < i < |writes| ==> Disjoint(writes[i].code, writes[k].code)
    ensures Field(writes[k].code, AfterWrites(ZERO_FD, writes)) == value
  {
    LastWriteWins(ZERO_FD, writes, k);
    SmallNumbers();
    NumOfFromNum(value, 32);
    DivModUnique(value, Pow2(writes[k].code.width), 0, value);
  }

  // ----- the request as a number -----

  /** What a write adds to a word whose field was 0. */
  function Part(w: Write): nat { (Num(w.value) % Pow2(w.code.width)) * Pow2(w.code.offset) }

  function SumOfWrites(writes: seq<Write>): nat {
    if writes == [] then 0 else Part(writes[0]) + SumOfWrites(writes[1..])
  }

  lemma OneMore(c: Code, cl: seq<Word>, v: Word)
    requires WellFormed(c) && c.word < |cl| && Num(Decode(c, cl)) == 0
    ensures Num(Encoded(c, cl, v)[c.word]) == Num(cl[c.word]) + Part(Write(c, v))
  {
    EncodeIsArithmetic(c, cl[c.word], v);
    assert Num(Decode(c, cl)) * Pow2(c.offset) == 0;
  }

  /** Writes to disjoint zero fields of one word add up. */
  lemma {:induction false} WritesAddUp(cl: seq<Word>, writes: seq<Write>, w: nat)
    requires Fits(writes, |cl|) && w < |cl| && forall i :: 0 <= i < |writes| ==> writes[i].code.word == w
    requires forall i, j :: 0 <= i < j < |writes| ==> Disjoint(writes[i].code, writes[j].code)
    requires forall i :: 0 <= i < |writes| ==> Num(Decode(writes[i].code, cl)) == 0
    ensures Num(AfterWrites(cl, writes)[w]) == Num(cl[w]) + SumOfWrites(writes)
    ensures forall j :: 0 <= j < |cl| && j != w ==> AfterWrites(cl, writes)[j] == cl[j]
    decreases writes
  {
    if writes != [] {
      var c, v := writes[0].code, writes[0].value;
      OneMore(c, cl, v);
      assert writes[0] == Write(c, v);
      forall i | 1 <= i < |writes| ensures Num(Decode(writes[i].code, Encoded(c, cl, v))) == 0 {
        OthersUntouched(c, cl, v, writes[i].code);
      }
      WritesAddUp(Encoded(c, cl, v), writes[1..], w);
    }
  }

  lemma Powers()
    ensures Pow2(20) == 0x10_0000 && Pow2(21) == 0x20_0000 && Pow2(23) == 0x80_0000 && Pow2(28) == 0x1000_0000
  {
    Pow2Is65536();
    assert Pow2(4) == 16 && Pow2(5) == 32 && Pow2(7) == 128;
    Pow2Adds(16, 4);
    Pow2Adds(16, 5);
    Pow2Adds(16, 7);
    Pow2Adds(23, 5);
  }

  lemma OneWrite(w: Write, value: nat, p: nat)
    requires w.value == WordOf(value) && value < Pow2(w.code.width) && value < 8 && p == Pow2(w.code.offset)
    ensures Part(w) == value * p
  {
    SmallNumbers();
    NumOfFromNum(value, 32);
    DivModUnique(value, Pow2(w.code.width), 0, value);
  }

  lemma SumOfFour(writes: seq<Write>)
    requires |writes| == 4
    ensures SumOfWrites(writes) == Part(writes[0]) + Part(writes[1]) + Part(writes[2]) + Part(writes[3])
  {
    assert SumOfWrites(writes[4..]) == 0;
    assert writes[3..][1..] == writes[4..] && SumOfWrites(writes[3..]) == Part(writes[3]);
    assert writes[2..][1..] == writes[3..] && SumOfWrites(writes[2..]) == Part(writes[2]) + Part(writes[3]);
    assert writes[1..][1..] == writes[2..];
  }

  lemma {:induction false} RequestTotal(writes: seq<Write>, values: seq<nat>)
    requires |writes| == |values| == 4 && values[0] < 2 && values[1] < 2 && values[2] < 2 && values[3] < 8
    requires writes[0] == Write(SF, WordOf(values[0])) && writes[1] == Write(RECYCLE, WordOf(values[1]))
    requires writes[2] == Write(INITIAL, WordOf(values[2])) && writes[3] == Write(Z_FLUSH, WordOf(values[3]))
    ensures SumOfWrites(writes) ==
            values[0] * 0x1000_0000 + values[1] * 0x20_0000 + values[2] * 0x10_0000 + values[3] * 0x80_0000
  {
    assert Pow2(1) == 2 && Pow2(3) == 8;
    Powers();
    OneWrite(writes[0], values[0], 0x1000_0000);
    OneWrite(writes[1], values[1], 0x20_0000);
    OneWrite(writes[2], values[2], 0x10_0000);
    OneWrite(writes[3], values[3], 0x80_0000);
    SumOfFour(writes);
  }

  lemma ZeroField(c: Code)
    requires WellFormed(c) && c.word < FD_WORDS
    ensures Num(Decode(c, ZERO_FD)) == 0 && Num(ZERO_FD[c.word]) == 0
  {
    NumZeros(Decode(c, ZERO_FD));
    NumZeros(ZERO_FD[c.word]);
  }

  /** Every field of the descriptor reads 0. */
  ghost predicate AllZero(cl: seq<Word>) {
    forall c: Code {:trigger Decode(c, cl)} :: WellFormed(c) && c.word < |cl| ==> Num(Decode(c, cl)) == 0
  }

  lemma WritesToZero(cl: seq<Word>, writes: seq<Write>)
    requires |cl| == FD_WORDS && AllZero(cl) && Fits(writes, FD_WORDS)
    requires forall i :: 0 <= i < |writes| ==> writes[i].code.word == 4
    requires forall i, j :: 0 <= i < j < |writes| ==> Disjoint(writes[i].code, writes[j].code)
    ensures Num(AfterWrites(cl, writes)[4]) == Num(cl[4]) + SumOfWrites(writes)
    ensures forall j :: 0 <= j < FD_WORDS && j != 4 ==> AfterWrites(cl, writes)[j] == cl[j]
  {
    forall i | 0 <= i < |writes| ensures Num(Decode(writes[i].code, cl)) == 0 {
      assert WellFormed(writes[i].code);
    }
    WritesAddUp(cl, writes, 4);
  }

  lemma {:induction false} RequestIsNumber(writes: seq<Write>, values: seq<nat>)
    requires |writes| == |values| == 4
    requires forall i :: 0 <= i < 4 ==> writes[i] == Write([SF, RECYCLE, INITIAL, Z_FLUSH][i], WordOf(values[i]))
    requires values[0] < 2 && values[1] < 2 && values[2] < 2 && values[3] < 8 && Fits(writes, FD_WORDS)
    ensures var fd := AfterWrites(ZERO_FD, writes);
            && Num(fd[4]) == values[0] * 0x1000_0000 + values[1] * 0x20_0000 + values[2] * 0x10_0000
                             + values[3] * 0x80_0000
            && forall i :: 0 <= i < FD_WORDS && i != 4 ==> fd[i] == Mask(0)
  {
    assert writes[0].code == SF && writes[1].code == RECYCLE && writes[2].code == INITIAL && writes[3].code == Z_FLUSH;
    assert AllZero(ZERO_FD) by {
      forall c: Code | WellFormed(c) && c.word < FD_WORDS ensures Num(Decode(c, ZERO_FD)) == 0 { ZeroField(c); }
    }
    ZeroField(CMD);
    WritesToZero(ZERO_FD, writes);
    RequestTotal(writes, values);
  }
}
