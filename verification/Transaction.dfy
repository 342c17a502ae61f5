/**
 The parts of a Bitcoin transaction (crates/mutiny-bitcoin/src/lib.rs) and the parser
 as the source writes it: a cursor, loops, and a buffer that collects the stripped form.
 */
module Transaction {
  import opened Wrappers
  import opened Arithmetic
  import opened Bytes
  import opened Crypto
  import opened Codecs
  import opened TransactionFormat

  // ------------------------------------------------------------ CompactSize

  function CompactSize(n: nat): seq<byte> {
    if n < 0xfd then [n]
    else if n <= 0xffff then [0xfd] + LeBytes(n, 2)
    else if n <= 0xffff_ffff then [0xfe] + LeBytes(n, 4)
    else [0xff] + LeBytes(n, 8)
  }

  /** A little-endian integer that a shorter form could not hold. */
  function ReadWide(b: seq<byte>, width: nat, least: nat): Result<Read<nat>> {
    var raw :- Take(b, width);
    if LeNat(raw.value) < least then Failure else Success(Read(LeNat(raw.value), raw.rest))
  }

  /** `read_compact_size` */
  function ReadCompactSize(b: seq<byte>): Result<Read<nat>> {
    var first :- Take(b, 1);
    if first.value[0] < 0xfd then Success(Read(first.value[0], first.rest))
    else if first.value[0] == 0xfd then ReadWide(first.rest, 2, 0xfd)
    else if first.value[0] == 0xfe then ReadWide(first.rest, 4, 0x1_0000)
    else ReadWide(first.rest, 8, 0x1_0000_0000)
  }

  lemma WideWritten(n: nat, width: nat, least: nat, rest: seq<byte>)
    requires least <= n < Pow256(width)
    ensures ReadWide(LeBytes(n, width) + rest, width, least) == Success(Read(n, rest))
  {
    LeNatOfLeBytes(n, width);
    var b := LeBytes(n, width) + rest;
    assert b[..width] == LeBytes(n, width) && b[width..] == rest;
  }

  lemma WideAccepted(b: seq<byte>, width: nat, least: nat)
    requires ReadWide(b, width, least).Success?
    ensures var r := ReadWide(b, width, least).value;
            least <= r.value < Pow256(width) && b == LeBytes(r.value, width) + r.rest
  {
    LeBytesOfLeNat(b[..width]);
    LeNatBound(b[..width]);
  }

  /** Every 64-bit count is read back, whatever follows it. */
  lemma CompactSizeWritten(n: nat, rest: seq<byte>)
    requires n < U64
    ensures ReadCompactSize(CompactSize(n) + rest) == Success(Read(n, rest))
  {
    Pow256Values();
    var b := CompactSize(n) + rest;
    assert b[..1] == [b[0]];
    if n < 0xfd {
      assert b[1..] == rest;
    } else if n <= 0xffff {
      assert b[1..] == LeBytes(n, 2) + rest;
      WideWritten(n, 2, 0xfd, rest);
    } else if n <= 0xffff_ffff {
      assert b[1..] == LeBytes(n, 4) + rest;
      WideWritten(n, 4, 0x1_0000, rest);
    } else {
      assert b[1..] == LeBytes(n, 8) + rest;
      WideWritten(n, 8, 0x1_0000_0000, rest);
    }
  }

  /** Only the shortest form of a count is accepted. */
  lemma CompactSizeAccepted(b: seq<byte>)
    requires ReadCompactSize(b).Success?
    ensures var r := ReadCompactSize(b).value; r.value < U64 && b == CompactSize(r.value) + r.rest
  {
    Pow256Values();
    var r := ReadCompactSize(b).value;
    assert b == [b[0]] + b[1..];
    if b[0] == 0xfd {
      WideAccepted(b[1..], 2, 0xfd);
      assert b == ([0xfd] + LeBytes(r.value, 2)) + r.rest;
    } else if b[0] == 0xfe {
      WideAccepted(b[1..], 4, 0x1_0000);
      assert b == ([0xfe] + LeBytes(r.value, 4)) + r.rest;
    } else if b[0] == 0xff {
      WideAccepted(b[1..], 8, 0x1_0000_0000);
      assert b == ([0xff] + LeBytes(r.value, 8)) + r.rest;
    }
  }

  function Count(): Codec<nat> {
    Codec(CompactSize, ReadCompactSize, (n: nat) => n < U64)
  }

  lemma CountLawful()
    ensures Lawful(Count()) && NoMarker(Count()) && AtLeast(Count(), 1)
  {
    var c := Count();
    forall n: nat, rest: seq<byte> | c.ok(n) ensures c.read(c.write(n) + rest) == Success(Read(n, rest)) {
      CompactSizeWritten(n, rest);
    }
    forall b | c.read(b).Success?
      ensures c.ok(c.read(b).value.value) && b == c.write(c.read(b).value.value) + c.read(b).value.rest
    {
      CompactSizeAccepted(b);
    }
  }

  // ------------------------------------------------------------- components

  /** An eight-byte little-endian amount. */
  function ReadAmount(b: seq<byte>): Result<Read<nat>> {
    ReadWide(b, 8, 0)
  }

  function Amount(): Codec<nat> {
    Codec((n: nat) => LeBytes(n, 8), ReadAmount, (n: nat) => n < U64)
  }

  lemma AmountLawful()
    ensures Lawful(Amount()) && AtLeast(Amount(), 8)
  {
    var c := Amount();
    Pow256Values();
    forall n: nat, rest: seq<byte> | c.ok(n) ensures c.read(c.write(n) + rest) == Success(Read(n, rest)) {
      WideWritten(n, 8, 0, rest);
    }
    forall b | c.read(b).Success?
      ensures c.ok(c.read(b).value.value) && b == c.write(c.read(b).value.value) + c.read(b).value.rest
    {
      WideAccepted(b, 8, 0);
    }
  }

  /** Outpoint, script, sequence number. */
  function InCodec(count: Codec<nat>): Codec<TxIn> {
    Mapped(Pair(Fixed(36), Pair(VarBytes(count), Fixed(4))),
           (t: (seq<byte>, (seq<byte>, seq<byte>))) => TxIn(t.0, t.1.0, t.1.1),
           (i: TxIn) => (i.prevout, (i.script, i.sequence)))
  }

  lemma InLawful(count: Codec<nat>)
    requires Lawful(count) && AtLeast(count, 1)
    ensures Lawful(InCodec(count)) && AtLeast(InCodec(count), 41)
  {
    FixedLawful(36);
    FixedLawful(4);
    VarBytesLawful(count);
    PairLawful(VarBytes(count), Fixed(4));
    PairLawful(Fixed(36), Pair(VarBytes(count), Fixed(4)));
    MappedLawful(Pair(Fixed(36), Pair(VarBytes(count), Fixed(4))),
                 (t: (seq<byte>, (seq<byte>, seq<byte>))) => TxIn(t.0, t.1.0, t.1.1),
                 (i: TxIn) => (i.prevout, (i.script, i.sequence)));
  }

  /** Amount and script. */
  function OutCodec(amount: Codec<nat>, count: Codec<nat>): Codec<TxOut> {
    Mapped(Pair(amount, VarBytes(count)), (t: (nat, seq<byte>)) => TxOut(t.0, t.1), (o: TxOut) => (o.value, o.script))
  }

  lemma OutLawful(amount: Codec<nat>, count: Codec<nat>)
    requires Lawful(amount) && Lawful(count) && AtLeast(amount, 8) && AtLeast(count, 1)
    ensures Lawful(OutCodec(amount, count)) && AtLeast(OutCodec(amount, count), 9)
  {
    VarBytesLawful(count);
    PairLawful(amount, VarBytes(count));
    MappedLawful(Pair(amount, VarBytes(count)),
                 (t: (nat, seq<byte>)) => TxOut(t.0, t.1), (o: TxOut) => (o.value, o.script));
  }

  function BitcoinParts(): Parts {
    Parts(Count(), InCodec(Count()), OutCodec(Amount(), Count()), ListOf(Count(), VarBytes(Count())))
  }

  lemma AssembledOk(count: Codec<nat>, amount: Codec<nat>)
    requires Lawful(count) && AtLeast(count, 1) && NoMarker(count) && |count.write(0)| == 1
    requires Lawful(amount) && AtLeast(amount, 8)
    ensures PartsOk(Parts(count, InCodec(count), OutCodec(amount, count), ListOf(count, VarBytes(count))))
  {
    InLawful(count);
    OutLawful(amount, count);
    VarBytesLawful(count);
    ListLawful(count, VarBytes(count));
    StackSizes(count);
  }

  lemma StackSizes(count: Codec<nat>)
    requires AtLeast(count, 1) && |count.write(0)| == 1
    ensures EmptyIsShortest(ListOf(count, VarBytes(count)))
  {
    var item := VarBytes(count);
    var stack := ListOf(count, item);
    forall x | x != [] && stack.ok(x) ensures |stack.write(x)| > 1 {
      assert item.ok(x[0]) && |item.write(x[0])| >= 1;
    }
  }

  /** The parser's parts meet every condition of the format theorems. */
  lemma BitcoinPartsOk()
    ensures PartsOk(BitcoinParts())
  {
    CountLawful();
    AmountLawful();
    AssembledOk(Count(), Amount());
  }

  /** One input and one output, all of it empty or zero. */
  function ZeroTx(): Tx {
    var zeros: seq<byte>, four: seq<byte> := seq(36, _ => 0), [0, 0, 0, 0];
    Tx(four, [TxIn(zeros, [], four)], [TxOut(0, [])], four)
  }

  lemma ZeroOk(flag: byte, stack: seq<seq<byte>>)
    requires flag != 0 && |stack| < U64 && forall i :: 0 <= i < |stack| ==> |stack[i]| < U64
    ensures WireOk(BitcoinParts(), Wire(ZeroTx(), Segwit(flag, [stack])))
  {
    StackOk(Count(), stack);
  }

  lemma StackOk(count: Codec<nat>, stack: seq<seq<byte>>)
    requires count.ok(|stack|) && forall i :: 0 <= i < |stack| ==> count.ok(|stack[i]|)
    ensures ListOf(count, VarBytes(count)).ok(stack)
  {
    var item := VarBytes(count);
    assert AllOk(item, stack);
  }

  /** A transaction with a witness that is accepted with the flag 2; the flag alone is at fault. */
  lemma ConcreteOtherFlag() returns (bytes: seq<byte>)
    ensures ParseTransaction(BitcoinParts(), bytes).Success? && !IsBip144(BitcoinParts(), bytes)
    ensures |bytes| >= 6 && bytes[5] == 2 && IsBip144(BitcoinParts(), bytes[5 := 1])
  {
    var p, stacks: seq<seq<seq<byte>>> := BitcoinParts(), [[[]]];
    BitcoinPartsOk();
    ZeroOk(2, [[]]);
    assert stacks[0] != [];
    OtherFlagAccepted(p, ZeroTx(), 2, stacks);
    bytes := Serialise(p, Wire(ZeroTx(), Segwit(2, stacks)));
  }

  /** One that is accepted with the flag 1 and no witness at all. */
  lemma ConcreteEmptyWitness() returns (bytes: seq<byte>)
    ensures ParseTransaction(BitcoinParts(), bytes).Success? && !IsBip144(BitcoinParts(), bytes)
    ensures |bytes| >= 6 && bytes[5] == 1
  {
    var p, stacks: seq<seq<seq<byte>>> := BitcoinParts(), [[]];
    BitcoinPartsOk();
    ZeroOk(1, []);
    EmptyWitnessAccepted(p, ZeroTx(), 1, stacks);
    bytes := Serialise(p, Wire(ZeroTx(), Segwit(1, stacks)));
  }

  // ------------------------------------------------------------- the layout

  /** Outpoint, script with its length, sequence number. */
  lemma InputLayout(i: TxIn)
    ensures BitcoinParts().input.write(i) == i.prevout + ((CompactSize(|i.script|) + i.script) + i.sequence)
  {
  }

  /** Eight little-endian bytes of value, script with its length. */
  lemma OutputLayout(o: TxOut)
    ensures BitcoinParts().output.write(o) == LeBytes(o.value, 8) + (CompactSize(|o.script|) + o.script)
  {
  }

  /** The number of items, then every item with its length. */
  lemma {:induction false} StackLayout(stack: seq<seq<byte>>)
    ensures BitcoinParts().stack.write(stack) == CompactSize(|stack|) + ItemBytes(stack)
  {
    ItemsLayout(Count(), stack);
  }

  function ItemBytes(items: seq<seq<byte>>): seq<byte> {
    if items == [] then [] else (CompactSize(|items[0]|) + items[0]) + ItemBytes(items[1..])
  }

  lemma {:induction false} ItemsLayout(count: Codec<nat>, items: seq<seq<byte>>)
    requires forall n :: count.write(n) == CompactSize(n)
    ensures WriteMany(VarBytes(count), items) == ItemBytes(items)
  {
    if items != [] {
      ItemsLayout(count, items[1..]);
    }
  }

  /** The parts of a transaction with a witness, in order, when there is one of each. */
  lemma WireLayout(p: Parts, version: seq<byte>, i: TxIn, o: TxOut, lockTime: seq<byte>, flag: byte, st: seq<seq<byte>>)
    ensures Serialise(p, Wire(Tx(version, [i], [o], lockTime), Segwit(flag, [st]))) ==
            version + [0, flag] + p.count.write(1) + p.input.write(i) + p.count.write(1) + p.output.write(o)
            + p.stack.write(st) + lockTime
    ensures LegacyBytes(p, Tx(version, [i], [o], lockTime)) ==
            version + p.count.write(1) + p.input.write(i) + p.count.write(1) + p.output.write(o) + lockTime
  {
    OneWritten(p.input, i);
    OneWritten(p.output, o);
    OneWritten(p.stack, st);
  }

  lemma OneWritten<T>(c: Codec<T>, x: T)
    ensures WriteMany(c, [x]) == c.write(x)
  {
    assert [x][1..] == [];
    assert c.write(x) + [] == c.write(x);
  }

  // ------------------------------------------------------------- the parser

  /** The cursor stands at `at`, and `stripped` has collected what it passed. */
  datatype Cursor = Cursor(at: nat, stripped: seq<byte>)

  lemma RawBytes<T(!new)>(c: Codec<T>, bytes: seq<byte>, at: nat)
    requires Lawful(c) && at <= |bytes| && c.read(bytes[at..]).Success?
    ensures var r := c.read(bytes[at..]).value;
            && |r.rest| <= |bytes| - at && bytes[at..|bytes| - |r.rest|] == c.write(r.value)
            && bytes[|bytes| - |r.rest|..] == r.rest
  {
    var r := c.read(bytes[at..]).value;
    assert bytes[at..] == c.write(r.value) + r.rest;
    var n := |bytes| - |r.rest|;
    assert bytes[at..n] == bytes[at..][..n - at];
    assert bytes[n..] == bytes[at..][n - at..];
  }

  /** After `i` of `n` elements: `xs` read, their bytes collected, the rest still to read. */
  ghost predicate Reading<T>(c: Codec<T>, n: nat, bytes: seq<byte>, from: Cursor, i: nat, xs: seq<T>, now: Cursor) {
    && i <= n && from.at <= |bytes| && now.at <= |bytes|
    && now.stripped == from.stripped + WriteMany(c, xs)
    && ReadMany(c, n, bytes[from.at..]) == Prefixed(xs, ReadMany(c, n - i, bytes[now.at..]))
  }

  lemma ReadingStarts<T>(c: Codec<T>, n: nat, bytes: seq<byte>, from: Cursor)
    requires from.at <= |bytes|
    ensures Reading(c, n, bytes, from, 0, [], from)
  {
    PrefixedNone(ReadMany(c, n, bytes[from.at..]));
  }

  lemma ReadingFails<T>(c: Codec<T>, n: nat, bytes: seq<byte>, from: Cursor, i: nat, xs: seq<T>, now: Cursor)
    requires Reading(c, n, bytes, from, i, xs, now) && i < n && c.read(bytes[now.at..]).Failure?
    ensures ReadMany(c, n, bytes[from.at..]).Failure?
  {
  }

  lemma ReadingStep<T(!new)>(c: Codec<T>, n: nat, bytes: seq<byte>, from: Cursor, i: nat, xs: seq<T>, now: Cursor)
    requires Lawful(c) && Reading(c, n, bytes, from, i, xs, now) && i < n && c.read(bytes[now.at..]).Success?
    ensures var one := c.read(bytes[now.at..]).value;
            var at := |bytes| - |one.rest|;
            now.at <= at
            && Reading(c, n, bytes, from, i + 1, xs + [one.value], Cursor(at, now.stripped + bytes[now.at..at]))
  {
    RawBytes(c, bytes, now.at);
    PrefixedOnce(c, xs, n - i, bytes[now.at..]);
    StrippedOnce(c, from.stripped, xs, c.read(bytes[now.at..]).value.value);
  }

  lemma ReadingEnds<T>(c: Codec<T>, n: nat, bytes: seq<byte>, from: Cursor, xs: seq<T>, now: Cursor)
    requires Reading(c, n, bytes, from, n, xs, now)
    ensures ReadMany(c, n, bytes[from.at..]) == Success(Read(xs, bytes[now.at..]))
  {
    assert xs + [] == xs;
  }

  /** One of the parser's `for` loops: `n` elements, each copied to the stripped form. */
  method ReadElements<T(!new)>(c: Codec<T>, n: nat, bytes: seq<byte>, from: Cursor)
    returns (r: Result<(seq<T>, Cursor)>)
    requires Lawful(c) && from.at <= |bytes|
    ensures r.Success? <==> ReadMany(c, n, bytes[from.at..]).Success?
    ensures r.Success? ==>
              var (xs, end) := r.value;
              && end.at <= |bytes| && ReadMany(c, n, bytes[from.at..]) == Success(Read(xs, bytes[end.at..]))
              && end.stripped == from.stripped + WriteMany(c, xs)
  {
    var xs: seq<T> := [];
    var now := from;
    var i := 0;
    ReadingStarts(c, n, bytes, from);
    while i < n
      invariant 0 <= i <= n && Reading(c, n, bytes, from, i, xs, now)
    {
      var one := c.read(bytes[now.at..]);
      if one.Failure? {
        ReadingFails(c, n, bytes, from, i, xs, now);
        return Failure;
      }
      ReadingStep(c, n, bytes, from, i, xs, now);
      var at := |bytes| - |one.value.rest|;
      now := Cursor(at, now.stripped + bytes[now.at..at]);
      xs := xs + [one.value.value];
      i := i + 1;
    }
    ReadingEnds(c, n, bytes, from, xs, now);
    return Success((xs, now));
  }

  lemma StrippedOnce<T>(c: Codec<T>, before: seq<byte>, xs: seq<T>, x: T)
    ensures before + WriteMany(c, xs) + c.write(x) == before + WriteMany(c, xs + [x])
  {
    WriteOneMore(c, xs, x);
  }

  /** A counted loop: the count with its limit, then the elements. */
  method ReadSection<T(!new)>(count: Codec<nat>, c: Codec<T>, limit: nat, bytes: seq<byte>, from: Cursor)
    returns (r: Result<(seq<T>, Cursor)>)
    requires Lawful(count) && Lawful(c) && from.at <= |bytes|
    ensures r.Success? <==> ReadSome(count, c, limit, bytes[from.at..]).Success?
    ensures r.Success? ==>
              var (xs, end) := r.value;
              && end.at <= |bytes| && ReadSome(count, c, limit, bytes[from.at..]) == Success(Read(xs, bytes[end.at..]))
              && end.stripped == from.stripped + (count.write(|xs|) + WriteMany(c, xs))
  {
    var n := count.read(bytes[from.at..]);
    if n.Failure? || n.value.value == 0 || n.value.value > limit {
      return Failure;
    }
    RawBytes(count, bytes, from.at);
    var at := |bytes| - |n.value.rest|;
    var start := Cursor(at, from.stripped + bytes[from.at..at]);
    r := ReadElements(c, n.value.value, bytes, start);
    if r.Success? {
      ManyAccepted(c, n.value.value, bytes[at..]);
      assert start.stripped + WriteMany(c, r.value.0)
             == from.stripped + (count.write(|r.value.0|) + WriteMany(c, r.value.0));
    }
  }

  /** The body codec reads in the order the source does. */
  lemma BodyReads(p: Parts, maxIns: nat, maxOuts: nat, segwit: bool, b: seq<byte>)
    ensures BodyCodec(p, maxIns, maxOuts, segwit).read(b) == ReadBody(p, maxIns, maxOuts, segwit, b)
  {
  }

  function ReadBody(p: Parts, maxIns: nat, maxOuts: nat, segwit: bool, b: seq<byte>): Result<Read<Body>> {
    var ins :- ReadSome(p.count, p.input, maxIns, b);
    var outs :- ReadSome(p.count, p.output, maxOuts, ins.rest);
    var stacks :- ReadMany(p.stack, if segwit then |ins.value| else 0, outs.rest);
    var lock :- Take(stacks.rest, 4);
    Success(Read((ins.value, (outs.value, (stacks.value, lock.value))), lock.rest))
  }

  /** The loops of `parse_transaction`: everything after version and marker. */
  method ParseSections(p: Parts, maxIns: nat, maxOuts: nat, segwit: bool, bytes: seq<byte>, from: Cursor)
    returns (r: Result<(Body, seq<byte>)>)
    requires Lawful(p.count) && Lawful(p.input) && Lawful(p.output) && Lawful(p.stack) && from.at <= |bytes|
    ensures r.Success? <==> ReadBody(p, maxIns, maxOuts, segwit, bytes[from.at..]).Success?
                            && ReadBody(p, maxIns, maxOuts, segwit, bytes[from.at..]).value.rest == []
    ensures r.Success? ==>
              var (body, stripped) := r.value;
              && ReadBody(p, maxIns, maxOuts, segwit, bytes[from.at..]) == Success(Read(body, []))
              && stripped == from.stripped + Inputs(p, body.0) + Outputs(p, body.1.0) + body.1.1.1
  {
    var ins := ReadSection(p.count, p.input, maxIns, bytes, from);
    if ins.Failure? {
      return Failure;
    }
    var outs := ReadSection(p.count, p.output, maxOuts, bytes, ins.value.1);
    if outs.Failure? {
      return Failure;
    }
    var stacks := ReadElements(p.stack, if segwit then |ins.value.0| else 0, bytes, outs.value.1);
    if stacks.Failure? {
      return Failure;
    }
    var at := stacks.value.1.at;
    if at + 4 > |bytes| {
      return Failure;
    }
    var lock := bytes[at..at + 4];
    assert bytes[at..][..4] == lock && bytes[at..][4..] == bytes[at + 4..];
    if at + 4 != |bytes| {
      return Failure;
    }
    return Success(((ins.value.0, (outs.value.0, (stacks.value.0, lock))), outs.value.1.stripped + lock));
  }

  /** `parse_transaction` over any lawful parts. */
  method ParseWithParts(p: Parts, bytes: seq<byte>) returns (r: Result<Parsed>)
    requires PartsOk(p)
    ensures r == ParseTransaction(p, bytes)
  {
    if |bytes| < 4 {
      return Failure;
    }
    var version := bytes[..4];
    var segwit := Marked(bytes[4..]);
    var at := if segwit then 6 else 4;
    assert segwit ==> bytes[4..][2..] == bytes[6..];
    var maxIns, maxOuts := |bytes| / 41 + 1, |bytes| / 9 + 1;
    BodyReads(p, maxIns, maxOuts, segwit, bytes[at..]);
    var body := ParseSections(p, maxIns, maxOuts, segwit, bytes, Cursor(at, version));
    if body.Failure? {
      return Failure;
    }
    return Success(Parsed(DoubleSha256(body.value.1), body.value.0.1.0));
  }

  /** `parse_transaction` */
  method ParseBitcoinTransaction(bytes: seq<byte>) returns (r: Result<Parsed>)
    ensures r == ParseTransaction(BitcoinParts(), bytes)
  {
    BitcoinPartsOk();
    r := ParseWithParts(BitcoinParts(), bytes);
  }
}
