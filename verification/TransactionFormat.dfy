/**
 The two serialisations of a Bitcoin transaction (BIP 144, section Serialization) and
 the parser of crates/mutiny-bitcoin/src/lib.rs, over the codecs of their parts.
 */
module TransactionFormat {
  import opened Wrappers
  import opened Bytes
  import opened Crypto
  import opened Codecs

  datatype TxIn = TxIn(prevout: seq<byte>, script: seq<byte>, sequence: seq<byte>)

  datatype TxOut = TxOut(value: nat, script: seq<byte>)

  datatype Tx = Tx(version: seq<byte>, inputs: seq<TxIn>, outputs: seq<TxOut>, lockTime: seq<byte>)

  /** Without witnesses, or with a flag byte and one witness stack per input. */
  datatype Form = Legacy | Segwit(flag: byte, stacks: seq<seq<seq<byte>>>)

  datatype Wire = Wire(tx: Tx, form: Form)

  datatype Parts = Parts(count: Codec<nat>, input: Codec<TxIn>, output: Codec<TxOut>, stack: Codec<seq<seq<byte>>>)

  ghost predicate AtLeast<T(!new)>(c: Codec<T>, size: nat) {
    forall x :: c.ok(x) ==> |c.write(x)| >= size
  }

  /** A positive count does not begin with the segwit marker. */
  ghost predicate NoMarker(count: Codec<nat>) {
    forall n :: n > 0 && count.ok(n) ==> |count.write(n)| > 0 && count.write(n)[0] != 0
  }

  /** An empty witness stack takes one byte, every other one more. */
  ghost predicate EmptyIsShortest(stack: Codec<seq<seq<byte>>>) {
    |stack.write([])| == 1 && forall x :: x != [] && stack.ok(x) ==> |stack.write(x)| > 1
  }

  ghost predicate PartsOk(p: Parts) {
    && Lawful(p.count) && Lawful(p.input) && Lawful(p.output) && Lawful(p.stack)
    && AtLeast(p.input, 41) && AtLeast(p.output, 9) && NoMarker(p.count) && EmptyIsShortest(p.stack)
  }

  // ------------------------------------------------------------ serialising

  function Inputs(p: Parts, inputs: seq<TxIn>): seq<byte> {
    p.count.write(|inputs|) + WriteMany(p.input, inputs)
  }

  function Outputs(p: Parts, outputs: seq<TxOut>): seq<byte> {
    p.count.write(|outputs|) + WriteMany(p.output, outputs)
  }

  function Stacks(form: Form): seq<seq<seq<byte>>> {
    if form.Segwit? then form.stacks else []
  }

  /** Everything after the version and the marker. */
  function BodyBytes(p: Parts, w: Wire): seq<byte> {
    Inputs(p, w.tx.inputs) + (Outputs(p, w.tx.outputs) + (WriteMany(p.stack, Stacks(w.form)) + w.tx.lockTime))
  }

  function Serialise(p: Parts, w: Wire): seq<byte> {
    w.tx.version + ((if w.form.Segwit? then [0, w.form.flag] else []) + BodyBytes(p, w))
  }

  /** The form without witnesses, whose double hash is the transaction id. */
  function LegacyBytes(p: Parts, tx: Tx): seq<byte> {
    tx.version + Inputs(p, tx.inputs) + Outputs(p, tx.outputs) + tx.lockTime
  }

  lemma LegacyForm(p: Parts, tx: Tx)
    ensures Serialise(p, Wire(tx, Legacy)) == LegacyBytes(p, tx)
  {
  }

  /** A transaction that has inputs and outputs and whose parts fit their fields. */
  predicate TxOk(p: Parts, tx: Tx) {
    && |tx.version| == 4 && |tx.lockTime| == 4
    && |tx.inputs| > 0 && p.count.ok(|tx.inputs|) && AllOk(p.input, tx.inputs)
    && |tx.outputs| > 0 && p.count.ok(|tx.outputs|) && AllOk(p.output, tx.outputs)
  }

  predicate FormOk(p: Parts, inputs: nat, form: Form) {
    form.Segwit? ==> form.flag != 0 && |form.stacks| == inputs && AllOk(p.stack, form.stacks)
  }

  predicate WireOk(p: Parts, w: Wire) {
    TxOk(p, w.tx) && FormOk(p, |w.tx.inputs|, w.form)
  }

  // ---------------------------------------------------------------- parsing

  /** A counted list of at least one and at most `limit` elements. */
  function ReadSome<T>(count: Codec<nat>, c: Codec<T>, limit: nat, b: seq<byte>): Result<Read<seq<T>>> {
    var n :- count.read(b);
    if n.value == 0 || n.value > limit then Failure else ReadMany(c, n.value, n.rest)
  }

  function SomeOf<T>(count: Codec<nat>, c: Codec<T>, limit: nat): Codec<seq<T>> {
    Codec((xs: seq<T>) => count.write(|xs|) + WriteMany(c, xs), (b: seq<byte>) => ReadSome(count, c, limit, b),
          (xs: seq<T>) => 0 < |xs| <= limit && count.ok(|xs|) && AllOk(c, xs))
  }

  type Tail = (seq<TxOut>, (seq<seq<seq<byte>>>, seq<byte>))
  type Body = (seq<TxIn>, Tail)

  /** Outputs, one stack per input when the marker was seen, lock time. */
  function TailCodec(p: Parts, maxOuts: nat, stacks: nat): Codec<Tail> {
    Pair(SomeOf(p.count, p.output, maxOuts), Pair(Many(p.stack, stacks), Fixed(4)))
  }

  function BodyCodec(p: Parts, maxIns: nat, maxOuts: nat, segwit: bool): Codec<Body> {
    Then(SomeOf(p.count, p.input, maxIns),
         (inputs: seq<TxIn>) => TailCodec(p, maxOuts, if segwit then |inputs| else 0))
  }

  /** The segwit marker: a zero byte and then a byte that is not zero. */
  predicate Marked(b: seq<byte>) {
    |b| >= 2 && b[0] == 0 && b[1] != 0
  }

  function MakeWire(version: seq<byte>, flag: Option<byte>, body: Body): Wire {
    Wire(Tx(version, body.0, body.1.0, body.1.1.1), if flag.Some? then Segwit(flag.value, body.1.1.0) else Legacy)
  }

  function ParseBody(c: Codec<Body>, version: seq<byte>, flag: Option<byte>, b: seq<byte>): Result<Wire> {
    var body :- c.read(b);
    if body.rest != [] then Failure else Success(MakeWire(version, flag, body.value))
  }

  /** The parser over the body codecs for the two forms. */
  function ParseWith(plain: Codec<Body>, marked: Codec<Body>, bytes: seq<byte>): Result<Wire> {
    var version :- Take(bytes, 4);
    if Marked(version.rest)
    then ParseBody(marked, version.value, Some(version.rest[1]), version.rest[2..])
    else ParseBody(plain, version.value, None, version.rest)
  }

  /** The length of the input bounds both counts. */
  function Parse(p: Parts, bytes: seq<byte>): Result<Wire> {
    var maxIns, maxOuts := |bytes| / 41 + 1, |bytes| / 9 + 1;
    ParseWith(BodyCodec(p, maxIns, maxOuts, false), BodyCodec(p, maxIns, maxOuts, true), bytes)
  }

  // -------------------------------------------------------------- both ways

  lemma SomeLawful<T(!new)>(count: Codec<nat>, c: Codec<T>, limit: nat)
    requires Lawful(count) && Lawful(c)
    ensures Lawful(SomeOf(count, c, limit))
  {
    var l := SomeOf(count, c, limit);
    forall xs: seq<T>, rest | l.ok(xs) ensures l.read(l.write(xs) + rest) == Success(Read(xs, rest)) {
      assert l.write(xs) + rest == count.write(|xs|) + (WriteMany(c, xs) + rest);
      ManyReadBack(c, xs, rest);
    }
    forall s | l.read(s).Success?
      ensures l.ok(l.read(s).value.value) && s == l.write(l.read(s).value.value) + l.read(s).value.rest
    {
      var n := count.read(s).value;
      ManyAccepted(c, n.value, n.rest);
      var r := ReadMany(c, n.value, n.rest).value;
      assert s == count.write(n.value) + (WriteMany(c, r.value) + r.rest);
    }
  }

  lemma TailLawful(p: Parts, maxOuts: nat, stacks: nat)
    requires Lawful(p.count) && Lawful(p.output) && Lawful(p.stack)
    ensures Lawful(TailCodec(p, maxOuts, stacks))
  {
    SomeLawful(p.count, p.output, maxOuts);
    ManyLawful(p.stack, stacks);
    FixedLawful(4);
    PairLawful(Many(p.stack, stacks), Fixed(4));
    PairLawful(SomeOf(p.count, p.output, maxOuts), Pair(Many(p.stack, stacks), Fixed(4)));
  }

  lemma BodyLawful(p: Parts, maxIns: nat, maxOuts: nat, segwit: bool)
    requires PartsOk(p)
    ensures Lawful(BodyCodec(p, maxIns, maxOuts, segwit))
  {
    SomeLawful(p.count, p.input, maxIns);
    var next := (inputs: seq<TxIn>) => TailCodec(p, maxOuts, if segwit then |inputs| else 0);
    forall inputs ensures Lawful(next(inputs)) {
      TailLawful(p, maxOuts, if segwit then |inputs| else 0);
    }
    ThenLawful(SomeOf(p.count, p.input, maxIns), next);
  }

  function BodyOf(w: Wire): Body {
    (w.tx.inputs, (w.tx.outputs, (Stacks(w.form), w.tx.lockTime)))
  }

  predicate WithinLimits(w: Wire, maxIns: nat, maxOuts: nat) {
    |w.tx.inputs| <= maxIns && |w.tx.outputs| <= maxOuts
  }

  /** What `c` must do to be the body codec of one form. */
  ghost predicate IsBody(p: Parts, c: Codec<Body>, segwit: bool, maxIns: nat, maxOuts: nat) {
    && Lawful(c)
    && (forall w: Wire :: w.form.Segwit? == segwit ==> c.write(BodyOf(w)) == BodyBytes(p, w))
    && (forall w: Wire :: w.form.Segwit? == segwit && Framed(w) ==>
          (c.ok(BodyOf(w)) <==> WireOk(p, w) && WithinLimits(w, maxIns, maxOuts)))
    && (forall body: Body :: c.ok(body) && !segwit ==> body.1.1.0 == [])
  }

  /** The parts outside the body. */
  predicate Framed(w: Wire) {
    |w.tx.version| == 4 && (w.form.Segwit? ==> w.form.flag != 0)
  }

  lemma BodyWrites(p: Parts, maxIns: nat, maxOuts: nat, w: Wire)
    ensures BodyCodec(p, maxIns, maxOuts, w.form.Segwit?).write(BodyOf(w)) == BodyBytes(p, w)
  {
  }

  lemma BodyFits(p: Parts, maxIns: nat, maxOuts: nat, w: Wire)
    requires Framed(w)
    ensures BodyCodec(p, maxIns, maxOuts, w.form.Segwit?).ok(BodyOf(w))
            <==> WireOk(p, w) && WithinLimits(w, maxIns, maxOuts)
  {
  }

  lemma NoStacks(p: Parts, maxIns: nat, maxOuts: nat, body: Body)
    requires BodyCodec(p, maxIns, maxOuts, false).ok(body)
    ensures body.1.1.0 == []
  {
  }

  lemma BodyIs(p: Parts, segwit: bool, maxIns: nat, maxOuts: nat)
    requires PartsOk(p)
    ensures IsBody(p, BodyCodec(p, maxIns, maxOuts, segwit), segwit, maxIns, maxOuts)
  {
    BodyLawful(p, maxIns, maxOuts, segwit);
    BodyIsAny(p, BodyCodec(p, maxIns, maxOuts, segwit), segwit, maxIns, maxOuts);
  }

  lemma BodyIsAny(p: Parts, c: Codec<Body>, segwit: bool, maxIns: nat, maxOuts: nat)
    requires Lawful(c) && c == BodyCodec(p, maxIns, maxOuts, segwit)
    ensures IsBody(p, c, segwit, maxIns, maxOuts)
  {
    forall w: Wire | w.form.Segwit? == segwit ensures c.write(BodyOf(w)) == BodyBytes(p, w) {
      BodyWrites(p, maxIns, maxOuts, w);
    }
    forall w: Wire | w.form.Segwit? == segwit && Framed(w)
      ensures c.ok(BodyOf(w)) <==> WireOk(p, w) && WithinLimits(w, maxIns, maxOuts)
    {
      BodyFits(p, maxIns, maxOuts, w);
    }
    forall body: Body | c.ok(body) && !segwit ensures body.1.1.0 == [] {
      NoStacks(p, maxIns, maxOuts, body);
    }
  }

  lemma {:induction false} ManySize<T(!new)>(c: Codec<T>, xs: seq<T>, size: nat)
    requires AtLeast(c, size) && AllOk(c, xs)
    ensures |WriteMany(c, xs)| >= size * |xs|
  {
    if xs != [] {
      ManySize(c, xs[1..], size);
      assert size * |xs| == size + size * (|xs| - 1);
    }
  }

  /** The counts are within the limits that the length allows. */
  lemma CountsFit(p: Parts, w: Wire)
    requires PartsOk(p) && WireOk(p, w)
    ensures var size := |Serialise(p, w)|; |w.tx.inputs| <= size / 41 + 1 && |w.tx.outputs| <= size / 9 + 1
  {
    ManySize(p.input, w.tx.inputs, 41);
    ManySize(p.output, w.tx.outputs, 9);
  }

  lemma BodyReadBack(p: Parts, c: Codec<Body>, w: Wire, maxIns: nat, maxOuts: nat)
    requires IsBody(p, c, w.form.Segwit?, maxIns, maxOuts) && WireOk(p, w) && WithinLimits(w, maxIns, maxOuts)
    ensures var flag := if w.form.Segwit? then Some(w.form.flag) else None;
            ParseBody(c, w.tx.version, flag, BodyBytes(p, w)) == Success(w)
  {
    assert c.write(BodyOf(w)) + [] == BodyBytes(p, w);
    assert c.ok(BodyOf(w));
    assert c.read(c.write(BodyOf(w)) + []) == Success(Read(BodyOf(w), []));
  }

  lemma UnmarkedBody(p: Parts, w: Wire)
    requires PartsOk(p) && WireOk(p, w)
    ensures !Marked(BodyBytes(p, w))
  {
    var n := |w.tx.inputs|;
    assert BodyBytes(p, w)[0] == p.count.write(n)[0];
  }

  lemma ReadBackWith(p: Parts, plain: Codec<Body>, marked: Codec<Body>, w: Wire, maxIns: nat, maxOuts: nat)
    requires PartsOk(p) && WireOk(p, w) && WithinLimits(w, maxIns, maxOuts)
    requires IsBody(p, plain, false, maxIns, maxOuts) && IsBody(p, marked, true, maxIns, maxOuts)
    ensures ParseWith(plain, marked, Serialise(p, w)) == Success(w)
  {
    var bytes, body := Serialise(p, w), BodyBytes(p, w);
    assert bytes[..4] == w.tx.version;
    if w.form.Segwit? {
      BodyReadBack(p, marked, w, maxIns, maxOuts);
      assert bytes[4..] == [0, w.form.flag] + body;
      assert ([0, w.form.flag] + body)[2..] == body;
    } else {
      BodyReadBack(p, plain, w, maxIns, maxOuts);
      assert bytes[4..] == body;
      UnmarkedBody(p, w);
    }
  }

  lemma ReadBackWithin(p: Parts, w: Wire, maxIns: nat, maxOuts: nat)
    requires PartsOk(p) && WireOk(p, w) && WithinLimits(w, maxIns, maxOuts)
    ensures ParseWith(BodyCodec(p, maxIns, maxOuts, false), BodyCodec(p, maxIns, maxOuts, true), Serialise(p, w))
            == Success(w)
  {
    BodyIs(p, false, maxIns, maxOuts);
    BodyIs(p, true, maxIns, maxOuts);
    ReadBackWith(p, BodyCodec(p, maxIns, maxOuts, false), BodyCodec(p, maxIns, maxOuts, true), w, maxIns, maxOuts);
  }

  lemma ReadBackBytes(p: Parts, w: Wire, bytes: seq<byte>)
    requires PartsOk(p) && WireOk(p, w) && WithinLimits(w, |bytes| / 41 + 1, |bytes| / 9 + 1)
    requires forall maxIns, maxOuts | WithinLimits(w, maxIns, maxOuts) ::
               ParseWith(BodyCodec(p, maxIns, maxOuts, false), BodyCodec(p, maxIns, maxOuts, true), bytes) == Success(w)
    ensures Parse(p, bytes) == Success(w)
  {
  }

  /** Every serialisation parses to what was serialised. */
  lemma ParseSerialised(p: Parts, w: Wire)
    requires PartsOk(p) && WireOk(p, w)
    ensures Parse(p, Serialise(p, w)) == Success(w)
  {
    CountsFit(p, w);
    forall maxIns, maxOuts | WithinLimits(w, maxIns, maxOuts)
      ensures ParseWith(BodyCodec(p, maxIns, maxOuts, false), BodyCodec(p, maxIns, maxOuts, true), Serialise(p, w))
              == Success(w)
    {
      ReadBackWithin(p, w, maxIns, maxOuts);
    }
    ReadBackBytes(p, w, Serialise(p, w));
  }

  lemma BodyAccepted(p: Parts, c: Codec<Body>, version: seq<byte>, flag: Option<byte>, b: seq<byte>,
                     maxIns: nat, maxOuts: nat)
    requires IsBody(p, c, flag.Some?, maxIns, maxOuts) && |version| == 4 && (flag.Some? ==> flag.value != 0)
    requires ParseBody(c, version, flag, b).Success?
    ensures var w := ParseBody(c, version, flag, b).value; WireOk(p, w) && b == BodyBytes(p, w)
  {
    var w := ParseBody(c, version, flag, b).value;
    var body := c.read(b).value.value;
    assert c.ok(body) && b == c.write(body) + [];
    assert BodyOf(w) == body;
  }

  lemma AcceptedWith(p: Parts, plain: Codec<Body>, marked: Codec<Body>, bytes: seq<byte>, maxIns: nat, maxOuts: nat)
    requires IsBody(p, plain, false, maxIns, maxOuts) && IsBody(p, marked, true, maxIns, maxOuts)
    requires ParseWith(plain, marked, bytes).Success?
    ensures var w := ParseWith(plain, marked, bytes).value; WireOk(p, w) && Serialise(p, w) == bytes
  {
    var version, rest := bytes[..4], bytes[4..];
    assert bytes == version + rest;
    if Marked(rest) {
      BodyAccepted(p, marked, version, Some(rest[1]), rest[2..], maxIns, maxOuts);
      assert rest == [0, rest[1]] + rest[2..];
    } else {
      BodyAccepted(p, plain, version, None, rest, maxIns, maxOuts);
      assert [] + rest == rest;
    }
  }

  /** Whatever is accepted is a serialisation of the transaction it parses to. */
  lemma SerialiseParsed(p: Parts, bytes: seq<byte>)
    requires PartsOk(p) && Parse(p, bytes).Success?
    ensures WireOk(p, Parse(p, bytes).value) && Serialise(p, Parse(p, bytes).value) == bytes
  {
    var maxIns, maxOuts := |bytes| / 41 + 1, |bytes| / 9 + 1;
    BodyIs(p, false, maxIns, maxOuts);
    BodyIs(p, true, maxIns, maxOuts);
    AcceptedWith(p, BodyCodec(p, maxIns, maxOuts, false), BodyCodec(p, maxIns, maxOuts, true), bytes, maxIns, maxOuts);
  }

  // ------------------------------------------------------------- the result

  /** `ParsedBitcoinTransaction` */
  datatype Parsed = Parsed(txid: Digest, outputs: seq<TxOut>)

  /** What `parse_transaction` returns. */
  function ParseTransaction(p: Parts, bytes: seq<byte>): Result<Parsed> {
    var w :- Parse(p, bytes);
    Success(Parsed(DoubleSha256(LegacyBytes(p, w.tx)), w.tx.outputs))
  }

  /**
   Both serialisations of a transaction give its outputs and the hash of its legacy
   form, whatever the witnesses and the (non-zero) flag are.
   */
  lemma BothFormsAgree(p: Parts, tx: Tx, flag: byte, stacks: seq<seq<seq<byte>>>)
    requires PartsOk(p) && WireOk(p, Wire(tx, Segwit(flag, stacks)))
    ensures ParseTransaction(p, LegacyBytes(p, tx))
            == ParseTransaction(p, Serialise(p, Wire(tx, Segwit(flag, stacks))))
            == Success(Parsed(DoubleSha256(LegacyBytes(p, tx)), tx.outputs))
  {
    LegacyForm(p, tx);
    ParseSerialised(p, Wire(tx, Legacy));
    ParseSerialised(p, Wire(tx, Segwit(flag, stacks)));
  }

  /** A byte string is accepted exactly when it is a serialisation, and then of one transaction only. */
  lemma AcceptedIffSerialisation(p: Parts, bytes: seq<byte>)
    requires PartsOk(p)
    ensures ParseTransaction(p, bytes).Success? <==> exists w :: WireOk(p, w) && Serialise(p, w) == bytes
    ensures forall v, w | WireOk(p, v) && WireOk(p, w) && Serialise(p, v) == bytes && Serialise(p, w) == bytes :: v == w
  {
    if Parse(p, bytes).Success? {
      SerialiseParsed(p, bytes);
    }
    forall w | WireOk(p, w) && Serialise(p, w) == bytes ensures Parse(p, bytes) == Success(w) {
      ParseSerialised(p, w);
    }
  }

  // ------------------------------------------------------- against BIP 144

  /** Some input has a witness. */
  predicate HasWitness(stacks: seq<seq<seq<byte>>>) {
    exists i :: 0 <= i < |stacks| && stacks[i] != []
  }

  /**
   The flag byte is 1 (BIP 141, section Transaction ID), and a transaction whose witness
   is empty has the old form (BIP 144, section Serialization).
   */
  predicate Strict(w: Wire) {
    w.form.Segwit? ==> w.form.flag == 1 && HasWitness(w.form.stacks)
  }

  /** The bytes are the serialisation that these two standards give some transaction. */
  ghost predicate IsBip144(p: Parts, bytes: seq<byte>) {
    exists w :: WireOk(p, w) && Strict(w) && Serialise(p, w) == bytes
  }

  /** Where the marker and the flag of a serialisation stand. */
  lemma MarkerBytes(p: Parts, w: Wire)
    requires PartsOk(p) && WireOk(p, w)
    ensures var bytes := Serialise(p, w);
            && |bytes| >= 4 && (Marked(bytes[4..]) <==> w.form.Segwit?)
            && (w.form.Segwit? ==> |bytes| >= 6 && bytes[5] == w.form.flag)
  {
    var bytes, body := Serialise(p, w), BodyBytes(p, w);
    if w.form.Segwit? {
      assert bytes[4..] == [0, w.form.flag] + body;
    } else {
      assert bytes[4..] == body;
      UnmarkedBody(p, w);
    }
  }

  /** Witness stacks take one byte each exactly when all are empty. */
  lemma {:induction false} WitnessSize(p: Parts, stacks: seq<seq<seq<byte>>>)
    requires PartsOk(p) && AllOk(p.stack, stacks)
    ensures |WriteMany(p.stack, stacks)| >= |stacks|
    ensures HasWitness(stacks) <==> |WriteMany(p.stack, stacks)| > |stacks|
  {
    if stacks != [] {
      WitnessSize(p, stacks[1..]);
      if HasWitness(stacks[1..]) {
        var i :| 0 <= i < |stacks[1..]| && stacks[1..][i] != [];
        assert stacks[i + 1] != [];
      }
      if HasWitness(stacks) {
        var i :| 0 <= i < |stacks| && stacks[i] != [];
        assert i > 0 ==> stacks[1..][i - 1] != [];
      }
    }
  }

  /** What the witness adds to the legacy form: marker, flag and stacks. */
  lemma SegwitSize(p: Parts, w: Wire)
    requires w.form.Segwit?
    ensures |Serialise(p, w)| == |LegacyBytes(p, w.tx)| + 2 + |WriteMany(p.stack, w.form.stacks)|
  {
  }

  /**
   Accepted bytes are a BIP 144 serialisation exactly when they carry no segwit marker,
   or carry the flag 1 and are longer than the legacy form by more than marker, flag and
   one byte per input. The parser takes any flag that is not zero and any witness.
   */
  lemma AcceptedBip144Iff(p: Parts, bytes: seq<byte>)
    requires PartsOk(p) && ParseTransaction(p, bytes).Success?
    ensures |bytes| >= 4 && (Marked(bytes[4..]) ==> |bytes| >= 6)
    ensures var tx := Parse(p, bytes).value.tx;
            IsBip144(p, bytes) <==>
              !Marked(bytes[4..]) || (bytes[5] == 1 && |bytes| > |LegacyBytes(p, tx)| + 2 + |tx.inputs|)
  {
    SerialiseParsed(p, bytes);
    var w := Parse(p, bytes).value;
    MarkerBytes(p, w);
    if w.form.Segwit? {
      WitnessSize(p, w.form.stacks);
      SegwitSize(p, w);
    }
    OnlyOneWire(p, bytes, w);
  }

  lemma OnlyOneWire(p: Parts, bytes: seq<byte>, w: Wire)
    requires PartsOk(p) && WireOk(p, w) && Serialise(p, w) == bytes
    ensures IsBip144(p, bytes) <==> Strict(w)
  {
    AcceptedIffSerialisation(p, bytes);
  }

  /** Every BIP 144 serialisation is accepted. */
  lemma Bip144Accepted(p: Parts, bytes: seq<byte>)
    requires PartsOk(p) && IsBip144(p, bytes)
    ensures ParseTransaction(p, bytes).Success?
  {
    AcceptedIffSerialisation(p, bytes);
  }

  /** The flag is byte 5 and nothing else depends on it. */
  lemma FlagByte(p: Parts, tx: Tx, flag: byte, stacks: seq<seq<seq<byte>>>)
    requires |tx.version| == 4
    ensures var bytes := Serialise(p, Wire(tx, Segwit(flag, stacks)));
            && |bytes| >= 6 && bytes[5] == flag
            && bytes[5 := 1] == Serialise(p, Wire(tx, Segwit(1, stacks)))
  {
    var bytes, body := Serialise(p, Wire(tx, Segwit(flag, stacks))), BodyBytes(p, Wire(tx, Segwit(flag, stacks)));
    assert body == BodyBytes(p, Wire(tx, Segwit(1, stacks)));
    assert bytes == tx.version + ([0, flag] + body);
  }

  lemma WitnessStandard(p: Parts, tx: Tx, stacks: seq<seq<seq<byte>>>)
    requires WireOk(p, Wire(tx, Segwit(1, stacks))) && HasWitness(stacks)
    ensures IsBip144(p, Serialise(p, Wire(tx, Segwit(1, stacks))))
  {
    assert Strict(Wire(tx, Segwit(1, stacks)));
  }

  /**
   The first failing family: with another flag than 1 a transaction is accepted as the same
   one, and is no BIP 144 serialisation. When it has a witness, the flag alone is at fault.
   */
  lemma OtherFlagAccepted(p: Parts, tx: Tx, flag: byte, stacks: seq<seq<seq<byte>>>)
    requires PartsOk(p) && WireOk(p, Wire(tx, Segwit(flag, stacks))) && flag != 1
    ensures var bytes := Serialise(p, Wire(tx, Segwit(flag, stacks)));
            && ParseTransaction(p, bytes) == Success(Parsed(DoubleSha256(LegacyBytes(p, tx)), tx.outputs))
            && !IsBip144(p, bytes)
            && |bytes| >= 6 && bytes[5] == flag && (HasWitness(stacks) ==> IsBip144(p, bytes[5 := 1]))
  {
    BothFormsAgree(p, tx, flag, stacks);
    var w := Wire(tx, Segwit(flag, stacks));
    OnlyOneWire(p, Serialise(p, w), w);
    FlagByte(p, tx, flag, stacks);
    if HasWitness(stacks) {
      WitnessStandard(p, tx, stacks);
    }
  }

  /** The second: so it is with nothing but empty stacks, whatever the flag. */
  lemma EmptyWitnessAccepted(p: Parts, tx: Tx, flag: byte, stacks: seq<seq<seq<byte>>>)
    requires PartsOk(p) && WireOk(p, Wire(tx, Segwit(flag, stacks))) && !HasWitness(stacks)
    ensures var bytes := Serialise(p, Wire(tx, Segwit(flag, stacks)));
            && ParseTransaction(p, bytes) == Success(Parsed(DoubleSha256(LegacyBytes(p, tx)), tx.outputs))
            && !IsBip144(p, bytes) && |bytes| >= 6 && bytes[5] == flag
  {
    BothFormsAgree(p, tx, flag, stacks);
    var w := Wire(tx, Segwit(flag, stacks));
    OnlyOneWire(p, Serialise(p, w), w);
    FlagByte(p, tx, flag, stacks);
  }
}
