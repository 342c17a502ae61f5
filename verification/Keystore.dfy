/**
 The wallet backup format (crates/mutiny-keystore/src/lib.rs): entries sorted by role
 and label, each an encrypted key file with its public metadata in front, closed by a
 SHA-256 of everything before it.
 */
module Keystore {
  import opened Wrappers
  import opened Bytes
  import opened Crypto
  import opened Sorting
  import opened Codecs

  const BACKUP_MAGIC: seq<byte> := [77, 85, 84, 66, 75, 85, 80, 49] // MUTBKUP1
  const KEY_MAGIC: seq<byte> := [77, 85, 84, 75, 69, 89, 86, 49]    // MUTKEYV1
  const BACKUP_VERSION := 1
  const KEY_VERSION := 1
  const FILE_LEN := 152
  const MAX_ENTRIES := 4096
  const HEADER := 16

  /** Role 1 is a node identity, 2 a licence owner, 3 a licence miner. */
  datatype Entry = Entry(role: byte, name: seq<byte>, publicKey: seq<byte>, secretFile: seq<byte>)

  // ------------------------------------------------------------- one entry

  datatype Metadata = Metadata(role: byte, network: nat, publicKey: seq<byte>)

  predicate KdfOk(memory: nat, iterations: nat, parallelism: nat) {
    8 <= memory <= 1_048_576 && 1 <= iterations <= 10 && 1 <= parallelism <= 16
  }

  /** `parse_metadata` */
  function ParseMetadata(b: seq<byte>): Result<Metadata> {
    if |b| != FILE_LEN || b[..8] != KEY_MAGIC || BeNat(b[8..10]) != KEY_VERSION
       || !(1 <= b[10] <= 3) || b[11] != 0
       || !KdfOk(BeNat(b[16..20]), BeNat(b[20..24]), BeNat(b[24..28]))
    then Failure
    else Success(Metadata(b[10], BeNat(b[12..16]), b[56..88]))
  }

  /** ASCII letters and digits, `-` and `_`. */
  predicate LabelByte(b: byte) {
    48 <= b <= 57 || 65 <= b <= 90 || 97 <= b <= 122 || b == 45 || b == 95
  }

  predicate LabelValid(name: seq<byte>) {
    1 <= |name| <= 64 && forall i :: 0 <= i < |name| ==> LabelByte(name[i])
  }

  /** What both directions demand of an entry in a backup for `network`. */
  predicate EntryOk(network: nat, e: Entry) {
    && (e.role == 2 || e.role == 3) && LabelValid(e.name)
    && ParseMetadata(e.secretFile) == Success(Metadata(e.role, network, e.publicKey))
  }

  function ReadByte(b: seq<byte>): Result<Read<nat>> {
    if b == [] then Failure else Success(Read(b[0], b[1..]))
  }

  function ByteCodec(): Codec<nat> {
    Codec((n: nat) => [n % 256], ReadByte, (n: nat) => n < 256)
  }

  lemma ByteLawful()
    ensures Lawful(ByteCodec())
  {
    var c := ByteCodec();
    forall n: nat, rest: seq<byte> | c.ok(n) ensures c.read(c.write(n) + rest) == Success(Read(n, rest)) {
      assert ([n % 256] + rest)[1..] == rest;
    }
    forall b | c.read(b).Success?
      ensures c.ok(c.read(b).value.value) && b == c.write(c.read(b).value.value) + c.read(b).value.rest
    {
      assert b == [b[0]] + b[1..];
    }
  }

  type Quad = (nat, (seq<byte>, (seq<byte>, seq<byte>)))

  function QuadCodec(byte_: Codec<nat>): Codec<Quad> {
    Pair(byte_, Pair(VarBytes(byte_), Pair(Fixed(32), Fixed(FILE_LEN))))
  }

  function ToEntry(q: Quad): Entry {
    Entry(q.0 % 256, q.1.0, q.1.1.0, q.1.1.1)
  }

  function FromEntry(e: Entry): Quad {
    (e.role, (e.name, (e.publicKey, e.secretFile)))
  }

  /** Role, label with its length, public key, key file; refused unless all of it is in order. */
  function EntryCodec(byte_: Codec<nat>, network: nat): Codec<Entry> {
    Filtered(Mapped(QuadCodec(byte_), ToEntry, FromEntry), (e: Entry) => EntryOk(network, e))
  }

  lemma QuadLawful(byte_: Codec<nat>)
    requires Lawful(byte_)
    ensures Lawful(QuadCodec(byte_))
  {
    FixedLawful(32);
    FixedLawful(FILE_LEN);
    VarBytesLawful(byte_);
    PairLawful(Fixed(32), Fixed(FILE_LEN));
    PairLawful(VarBytes(byte_), Pair(Fixed(32), Fixed(FILE_LEN)));
    PairLawful(byte_, Pair(VarBytes(byte_), Pair(Fixed(32), Fixed(FILE_LEN))));
  }

  lemma EntryLawful(network: nat)
    ensures Lawful(EntryCodec(ByteCodec(), network))
  {
    ByteLawful();
    QuadLawful(ByteCodec());
    var quad := QuadCodec(ByteCodec());
    assert forall q: Quad :: quad.ok(q) ==> q.0 < 256;
    MappedLawful(quad, ToEntry, FromEntry);
    FilteredLawful(Mapped(quad, ToEntry, FromEntry), (e: Entry) => EntryOk(network, e));
  }

  /** An entry that is in order can be written. */
  lemma EntryWritable(network: nat, e: Entry)
    ensures EntryCodec(ByteCodec(), network).ok(e) <==> EntryOk(network, e)
  {
    if EntryOk(network, e) {
      assert |e.secretFile| == FILE_LEN && e.publicKey == e.secretFile[56..88];
      assert QuadCodec(ByteCodec()).ok(FromEntry(e));
    }
  }

  // ------------------------------------------------------------------ order

  /** `wallet_sort_key`: by role, then by label. */
  predicate KeyLe(a: Entry, b: Entry) {
    a.role < b.role || (a.role == b.role && LexLe(a.name, b.name))
  }

  lemma KeyOrder()
    ensures TotalPreorder(KeyLe)
  {
    forall a, b ensures KeyLe(a, b) || KeyLe(b, a) {
      LexLeTotal(a.name, b.name);
    }
    forall a, b, c | KeyLe(a, b) && KeyLe(b, c) ensures KeyLe(a, c) {
      if a.role == b.role == c.role {
        LexLeTransitive(a.name, b.name, c.name);
      }
    }
  }

  predicate SameKey(a: Entry, b: Entry) {
    a.role == b.role && a.name == b.name
  }

  lemma KeyLeAntisymmetric(a: Entry, b: Entry)
    requires KeyLe(a, b) && KeyLe(b, a)
    ensures SameKey(a, b)
  {
    LexLeAntisymmetric(a.name, b.name);
  }

  /** Each entry's key is above the one before it. */
  predicate Increasing(es: seq<Entry>) {
    forall i :: 0 < i < |es| ==> KeyLe(es[i - 1], es[i]) && !SameKey(es[i - 1], es[i])
  }

  predicate NoRepeats(es: seq<Entry>) {
    forall i :: 0 < i < |es| ==> !SameKey(es[i - 1], es[i])
  }

  lemma {:induction false} IncreasingFar(es: seq<Entry>, i: nat, j: nat)
    requires Increasing(es) && i < j < |es|
    ensures KeyLe(es[i], es[j]) && !SameKey(es[i], es[j])
  {
    assert KeyLe(es[j - 1], es[j]) && !SameKey(es[j - 1], es[j]);
    if i < j - 1 {
      IncreasingFar(es, i, j - 1);
      KeyOrder();
      if SameKey(es[i], es[j]) {
        LexLeReflexive(es[i].name);
        KeyLeAntisymmetric(es[j - 1], es[j]);
      }
    }
  }

  /** Increasing entries are sorted, and the order tells them apart. */
  lemma IncreasingSorted(es: seq<Entry>)
    requires Increasing(es)
    ensures Sorted(KeyLe, es) && Separates(KeyLe, multiset(es))
  {
    forall i, j | 0 <= i < j < |es| ensures KeyLe(es[i], es[j]) && !SameKey(es[i], es[j]) {
      IncreasingFar(es, i, j);
    }
    forall x, y | x in multiset(es) && y in multiset(es) && KeyLe(x, y) && KeyLe(y, x) ensures x == y {
      KeyLeAntisymmetric(x, y);
      var i :| 0 <= i < |es| && es[i] == x;
      var j :| 0 <= j < |es| && es[j] == y;
    }
  }

  lemma SortedNoRepeats(es: seq<Entry>)
    requires Sorted(KeyLe, es)
    ensures NoRepeats(es) <==> Increasing(es)
  {
  }

  // ----------------------------------------------------------------- format

  function Header(network: nat, count: nat): seq<byte> {
    BACKUP_MAGIC + BeBytes(BACKUP_VERSION, 2) + BeBytes(network, 4) + BeBytes(count, 2)
  }

  function Body(c: Codec<Entry>, network: nat, es: seq<Entry>): seq<byte> {
    Header(network, |es|) + WriteMany(c, es)
  }

  /** `encode_wallet_backup` */
  function Encode(c: Codec<Entry>, network: nat, es: seq<Entry>): Result<seq<byte>> {
    var ordered := Sort(KeyLe, es);
    if |es| > MAX_ENTRIES || !AllOk(c, ordered) || !NoRepeats(ordered) then Failure
    else Success(Seal(Body(c, network, ordered)))
  }

  /** The network and the count of a header. */
  function ReadHeader(h: seq<byte>): Result<(nat, nat)> {
    if |h| != HEADER || h[..8] != BACKUP_MAGIC || BeNat(h[8..10]) != BACKUP_VERSION then Failure
    else Success((BeNat(h[10..14]), BeNat(h[14..16])))
  }

  /** The entries of a backup for the network that the header names. */
  function ReadEntries(codec: nat -> Codec<Entry>, header: (nat, nat), b: seq<byte>): Result<(nat, seq<Entry>)> {
    if header.1 > MAX_ENTRIES then Failure
    else
      var r :- ReadMany(codec(header.0), header.1, b);
      if r.rest != [] || !Increasing(r.value) then Failure else Success((header.0, r.value))
  }

  /** `decode_wallet_backup` */
  function Decode(codec: nat -> Codec<Entry>, bytes: seq<byte>): Result<(nat, seq<Entry>)> {
    if |bytes| < HEADER + 32 || Sha256(bytes[..|bytes| - 32]) != bytes[|bytes| - 32..] then Failure
    else
      var header :- ReadHeader(bytes[..HEADER]);
      ReadEntries(codec, header, bytes[HEADER..|bytes| - 32])
  }

  lemma HeaderReadBack(network: nat, count: nat)
    requires network < 0x1_0000_0000 && count < 0x1_0000
    ensures |Header(network, count)| == HEADER && ReadHeader(Header(network, count)) == Success((network, count))
  {
    Pow256Values();
    BeNatOfBeBytes(BACKUP_VERSION, 2);
    BeNatOfBeBytes(network, 4);
    BeNatOfBeBytes(count, 2);
    var h := Header(network, count);
    assert h[..8] == BACKUP_MAGIC && h[8..10] == BeBytes(BACKUP_VERSION, 2);
    assert h[10..14] == BeBytes(network, 4) && h[14..16] == BeBytes(count, 2);
  }

  lemma HeaderAccepted(h: seq<byte>)
    requires ReadHeader(h).Success?
    ensures var (network, count) := ReadHeader(h).value;
            network < 0x1_0000_0000 && count < 0x1_0000 && h == Header(network, count)
  {
    Pow256Values();
    BeBytesOfBeNat(h[8..10]);
    BeBytesOfBeNat(h[10..14]);
    BeBytesOfBeNat(h[14..16]);
    BeNatBound(h[10..14]);
    BeNatBound(h[14..16]);
    assert h == h[..8] + h[8..10] + h[10..14] + h[14..16];
  }

  ghost predicate AllLawful(codec: nat -> Codec<Entry>) {
    forall network: nat :: Lawful(codec(network))
  }

  lemma BodyParts(c: Codec<Entry>, network: nat, es: seq<Entry>)
    requires network < 0x1_0000_0000 && |es| <= MAX_ENTRIES
    ensures var b := Seal(Body(c, network, es));
            && |b| >= HEADER + 32
            && b[..|b| - 32] == Body(c, network, es) && b[|b| - 32..] == Sha256(Body(c, network, es))
            && b[..HEADER] == Header(network, |es|) && b[HEADER..|b| - 32] == WriteMany(c, es)
  {
    HeaderReadBack(network, |es|);
    var body := Body(c, network, es);
    var b := Seal(body);
    assert b[..|b| - 32] == body;
    assert b[HEADER..|b| - 32] == body[HEADER..];
    assert b[..HEADER] == body[..HEADER];
  }

  /** Increasing entries that are in order are read back. */
  lemma EntriesReadBack(codec: nat -> Codec<Entry>, network: nat, es: seq<Entry>)
    requires AllLawful(codec) && |es| <= MAX_ENTRIES && AllOk(codec(network), es) && Increasing(es)
    ensures ReadEntries(codec, (network, |es|), WriteMany(codec(network), es)) == Success((network, es))
  {
    ManyReadBack(codec(network), es, []);
    assert WriteMany(codec(network), es) + [] == WriteMany(codec(network), es);
  }

  /** Decoding an encoding gives the entries sorted by role and label. */
  lemma DecodeEncoded(codec: nat -> Codec<Entry>, network: nat, es: seq<Entry>)
    requires AllLawful(codec) && network < 0x1_0000_0000 && Encode(codec(network), network, es).Success?
    ensures Decode(codec, Encode(codec(network), network, es).value) == Success((network, Sort(KeyLe, es)))
  {
    var ordered := Sort(KeyLe, es);
    KeyOrder();
    SortSorted(KeyLe, es);
    SortedNoRepeats(ordered);
    BodyParts(codec(network), network, ordered);
    HeaderReadBack(network, |ordered|);
    EntriesReadBack(codec, network, ordered);
  }

  lemma EntriesAccepted(codec: nat -> Codec<Entry>, header: (nat, nat), b: seq<byte>)
    requires AllLawful(codec) && ReadEntries(codec, header, b).Success?
    ensures var (network, es) := ReadEntries(codec, header, b).value;
            && network == header.0 && |es| == header.1 <= MAX_ENTRIES && AllOk(codec(network), es) && Increasing(es)
            && b == WriteMany(codec(network), es)
  {
    var c := codec(header.0);
    ManyAccepted(c, header.1, b);
    var written := WriteMany(c, ReadMany(c, header.1, b).value.value);
    assert written + [] == written;
  }

  lemma Reassembled(bytes: seq<byte>)
    requires |bytes| >= HEADER + 32 && Sha256(bytes[..|bytes| - 32]) == bytes[|bytes| - 32..]
    ensures bytes == Seal(bytes[..HEADER] + bytes[HEADER..|bytes| - 32])
  {
    assert bytes[..|bytes| - 32] == bytes[..HEADER] + bytes[HEADER..|bytes| - 32];
    assert bytes == bytes[..|bytes| - 32] + bytes[|bytes| - 32..];
  }

  /** Increasing entries that are in order encode without being moved. */
  lemma EncodeIncreasing(c: Codec<Entry>, network: nat, es: seq<Entry>)
    requires |es| <= MAX_ENTRIES && AllOk(c, es) && Increasing(es)
    ensures Encode(c, network, es) == Success(Seal(Body(c, network, es)))
  {
    KeyOrder();
    IncreasingSorted(es);
    SortOfSorted(KeyLe, es);
    SortedNoRepeats(es);
  }

  /** Every accepted byte string is the encoding of what it decodes to. */
  lemma EncodeDecoded(codec: nat -> Codec<Entry>, bytes: seq<byte>)
    requires AllLawful(codec) && Decode(codec, bytes).Success?
    ensures var (network, es) := Decode(codec, bytes).value;
            network < 0x1_0000_0000 && Encode(codec(network), network, es) == Success(bytes)
  {
    var (network, es) := Decode(codec, bytes).value;
    HeaderAccepted(bytes[..HEADER]);
    EntriesAccepted(codec, ReadHeader(bytes[..HEADER]).value, bytes[HEADER..|bytes| - 32]);
    Reassembled(bytes);
    EncodeIncreasing(codec(network), network, es);
  }

  lemma PermutedSuccess(c: Codec<Entry>, network: nat, es: seq<Entry>, fs: seq<Entry>)
    requires multiset(es) == multiset(fs) && Encode(c, network, es).Success?
    ensures Encode(c, network, fs) == Encode(c, network, es)
  {
    KeyOrder();
    SortSorted(KeyLe, es);
    var ordered := Sort(KeyLe, es);
    SortedNoRepeats(ordered);
    IncreasingSorted(ordered);
    SortPermutation(KeyLe, es, fs);
    SameLength(es, fs);
  }

  /** The encoding, or the refusal, does not depend on the order of the entries. */
  lemma EncodePermuted(c: Codec<Entry>, network: nat, es: seq<Entry>, fs: seq<Entry>)
    requires multiset(es) == multiset(fs)
    ensures Encode(c, network, es) == Encode(c, network, fs)
  {
    if Encode(c, network, es).Success? {
      PermutedSuccess(c, network, es, fs);
    } else if Encode(c, network, fs).Success? {
      PermutedSuccess(c, network, fs, es);
    }
  }
}
