/**
 Key files as they are written (crates/mutiny-keystore/src/lib.rs), against the metadata
 that a backup reads off them.
 */
module KeyFiles {
  import opened Wrappers
  import opened Bytes
  import opened Crypto
  import opened Sorting
  import opened Codecs
  import opened Keystore
  import opened KeystoreBackup

  /** Everything a key file holds besides its magic, version and flags. */
  datatype KeyFile = KeyFile(
    role: byte, network: nat, memory: nat, iterations: nat, parallelism: nat,
    salt: seq<byte>, nonce: seq<byte>, publicKey: seq<byte>, ciphertext: seq<byte>, tag: seq<byte>)

  /** One of the three roles, and key derivation parameters within their limits. */
  predicate KeyFileOk(k: KeyFile) {
    && 1 <= k.role <= 3 && k.network < 0x1_0000_0000
    && 8 <= k.memory <= 0x10_0000 && 1 <= k.iterations <= 10 && 1 <= k.parallelism <= 16
    && |k.salt| == 16 && |k.nonce| == 12 && |k.publicKey| == |k.ciphertext| == |k.tag| == 32
  }

  function Numbers(k: KeyFile): (b: seq<byte>)
    ensures |b| == 16
  {
    BeBytes(k.network, 4) + BeBytes(k.memory, 4) + BeBytes(k.iterations, 4) + BeBytes(k.parallelism, 4)
  }

  /** `seal_seed_with_material`: the fields in the order in which they are written. */
  function Written(k: KeyFile): seq<byte> {
    ([77, 85, 84, 75, 69, 89, 86, 49] + [0, 1, k.role, 0]) + Numbers(k)
    + (k.salt + k.nonce) + k.publicKey + (k.ciphertext + k.tag)
  }

  lemma NumberBack(n: nat)
    requires n < 0x1_0000_0000
    ensures BeNat(BeBytes(n, 4)) == n
  {
    Pow256Values();
    BeNatOfBeBytes(n, 4);
  }

  lemma NumbersBack(k: KeyFile)
    requires KeyFileOk(k)
    ensures var b := Numbers(k);
            && BeNat(b[..4]) == k.network && BeNat(b[4..8]) == k.memory
            && BeNat(b[8..12]) == k.iterations && BeNat(b[12..]) == k.parallelism
  {
    var b := Numbers(k);
    assert b[..4] == BeBytes(k.network, 4) && b[4..8] == BeBytes(k.memory, 4);
    assert b[8..12] == BeBytes(k.iterations, 4) && b[12..] == BeBytes(k.parallelism, 4);
    NumberBack(k.network);
    NumberBack(k.memory);
    NumberBack(k.iterations);
    NumberBack(k.parallelism);
  }

  lemma VersionBytes(b: seq<byte>)
    requires |b| == 2
    ensures BeNat(b) == 1 <==> b == [0, 1]
  {
    assert BeNat(b) == 256 * BeNat(b[..1]) + b[1];
    assert BeNat(b[..1]) == 256 * BeNat(b[..1][..0]) + b[..1][0];
  }

  /** Where the parts of a file lie. */
  lemma WrittenParts(k: KeyFile)
    requires KeyFileOk(k)
    ensures var b := Written(k);
            && |b| == 152 && b[..8] == KEY_MAGIC && b[8..10] == [0, 1] && b[10] == k.role && b[11] == 0
            && b[12..28] == Numbers(k) && b[56..88] == k.publicKey
  {
  }

  /** Metadata is read off exactly the files that could have been written, and is what was written. */
  lemma MetadataIff(b: seq<byte>, m: Metadata)
    ensures ParseMetadata(b) == Success(m) <==>
            exists k :: KeyFileOk(k) && Written(k) == b && m == Metadata(k.role, k.network, k.publicKey)
  {
    if ParseMetadata(b) == Success(m) {
      var k := Rewritten(b);
      assert m == Metadata(k.role, k.network, k.publicKey);
    }
    forall k | KeyFileOk(k) && Written(k) == b && m == Metadata(k.role, k.network, k.publicKey)
      ensures ParseMetadata(b) == Success(m)
    {
      MetadataOfWritten(k);
    }
  }

  lemma MetadataOfWritten(k: KeyFile)
    requires KeyFileOk(k)
    ensures ParseMetadata(Written(k)) == Success(Metadata(k.role, k.network, k.publicKey))
  {
    var b := Written(k);
    WrittenParts(k);
    NumbersBack(k);
    VersionBytes(b[8..10]);
    assert b[12..16] == b[12..28][..4] && b[16..20] == b[12..28][4..8];
    assert b[20..24] == b[12..28][8..12] && b[24..28] == b[12..28][12..];
  }

  /** The file that these bytes are. */
  lemma Rewritten(b: seq<byte>) returns (k: KeyFile)
    requires ParseMetadata(b).Success?
    ensures KeyFileOk(k) && Written(k) == b
    ensures ParseMetadata(b) == Success(Metadata(k.role, k.network, k.publicKey))
  {
    k := KeyFile(b[10], BeNat(b[12..16]), BeNat(b[16..20]), BeNat(b[20..24]), BeNat(b[24..28]),
                 b[28..44], b[44..56], b[56..88], b[88..120], b[120..]);
    Pow256Values();
    BeNatBound(b[12..16]);
    VersionBytes(b[8..10]);
    BeBytesOfBeNat(b[12..16]);
    BeBytesOfBeNat(b[16..20]);
    BeBytesOfBeNat(b[20..24]);
    BeBytesOfBeNat(b[24..28]);
    assert b[..8] == [77, 85, 84, 75, 69, 89, 86, 49] && b[8..12] == [0, 1, k.role, 0];
    assert Numbers(k) == b[12..28];
    assert b == ((b[..8] + b[8..12]) + b[12..28]) + (b[28..44] + b[44..56]) + b[56..88] + (b[88..120] + b[120..]);
  }

  // ------------------------------------------------------------ what a backup holds

  predicate LabelChar(c: char) {
    'a' <= c <= 'z' || 'A' <= c <= 'Z' || '0' <= c <= '9' || c == '-' || c == '_'
  }

  /** Labels are made of letters, digits, hyphens and underscores. */
  lemma LabelBytes(b: byte)
    ensures LabelByte(b) <==> LabelChar(b as char)
  {
  }

  /** A licence key with a proper label, and a file written for this role, network and public key. */
  ghost predicate Backable(network: nat, e: Entry) {
    && (e.role == 2 || e.role == 3)
    && 1 <= |e.name| <= 64 && (forall i :: 0 <= i < |e.name| ==> LabelChar(e.name[i] as char))
    && exists k :: KeyFileOk(k) && Written(k) == e.secretFile
                   && Metadata(k.role, k.network, k.publicKey) == Metadata(e.role, network, e.publicKey)
  }

  lemma EntryOkIff(network: nat, e: Entry)
    ensures EntryOk(network, e) <==> Backable(network, e)
  {
    MetadataIff(e.secretFile, Metadata(e.role, network, e.publicKey));
    forall i | 0 <= i < |e.name| ensures LabelByte(e.name[i]) <==> LabelChar(e.name[i] as char) {
      LabelBytes(e.name[i]);
    }
  }

  ghost predicate AllBackable(network: nat, es: seq<Entry>) {
    forall e :: e in es ==> Backable(network, e)
  }

  /** No two entries have the same role and label. */
  predicate DistinctKeys(es: seq<Entry>) {
    forall i, j :: 0 <= i < j < |es| ==> es[i].role != es[j].role || es[i].name != es[j].name
  }

  lemma AllOkIff(network: nat, es: seq<Entry>, ordered: seq<Entry>)
    requires multiset(ordered) == multiset(es)
    ensures AllOk(BackupCodec()(network), ordered) <==> AllBackable(network, es)
  {
    forall e: Entry ensures BackupCodec()(network).ok(e) <==> Backable(network, e) {
      EntryWritable(network, e);
      EntryOkIff(network, e);
    }
    forall e: Entry ensures e in es <==> e in ordered {
      assert e in multiset(es) <==> e in multiset(ordered);
    }
  }

  lemma DistinctKeysIff(es: seq<Entry>)
    ensures NoRepeats(Sort(KeyLe, es)) <==> DistinctKeys(es)
  {
    var ordered := Sort(KeyLe, es);
    var key := (e: Entry) => (e.role, e.name);
    KeyOrder();
    SortSorted(KeyLe, es);
    SortedNoRepeats(ordered);
    if DistinctKeys(es) {
      assert DistinctBy(key, es);
      PermutedDistinctBy(key, es, ordered);
    }
    if Increasing(ordered) {
      forall i, j | 0 <= i < j < |ordered| ensures key(ordered[i]) != key(ordered[j]) {
        IncreasingFar(ordered, i, j);
      }
      PermutedDistinctBy(key, ordered, es);
      forall i, j | 0 <= i < j < |es| ensures es[i].role != es[j].role || es[i].name != es[j].name {
        assert key(es[i]) != key(es[j]);
      }
    }
  }

  /** Entries can be backed up exactly when they are few enough, all proper, and no key repeats. */
  lemma EncodeIff(network: nat, es: seq<Entry>)
    ensures Encode(BackupCodec()(network), network, es).Success? <==>
            |es| <= 4096 && AllBackable(network, es) && DistinctKeys(es)
  {
    AllOkIff(network, es, Sort(KeyLe, es));
    DistinctKeysIff(es);
  }

  /** By role, and within a role by label. */
  ghost predicate Ascending(es: seq<Entry>) {
    forall i, j :: 0 <= i < j < |es| ==> Earlier(es[i], es[j])
  }

  ghost predicate Earlier(a: Entry, b: Entry) {
    a.role < b.role || (a.role == b.role && exists k: nat :: PartsAt(a.name, b.name, k))
  }

  lemma AscendingIff(es: seq<Entry>)
    ensures Increasing(es) <==> Ascending(es)
  {
    forall a: Entry, b: Entry ensures KeyLe(a, b) && !SameKey(a, b) <==> Earlier(a, b) {
      LexBeforeIff(a.name, b.name);
    }
    forall i, j | Increasing(es) && 0 <= i < j < |es| ensures Earlier(es[i], es[j]) {
      IncreasingFar(es, i, j);
    }
  }

  /** Bytes are accepted as a backup exactly when they are the encoding of ascending entries. */
  lemma DecodeIff(bytes: seq<byte>, network: nat, es: seq<Entry>)
    ensures Decode(BackupCodec(), bytes) == Success((network, es)) <==>
            network < 0x1_0000_0000 && Ascending(es) && Encode(BackupCodec()(network), network, es) == Success(bytes)
  {
    BackupLawful();
    AscendingIff(es);
    if Decode(BackupCodec(), bytes) == Success((network, es)) {
      EncodeDecoded(BackupCodec(), bytes);
    }
    if network < 0x1_0000_0000 && Increasing(es) && Encode(BackupCodec()(network), network, es) == Success(bytes) {
      DecodeEncoded(BackupCodec(), network, es);
      KeyOrder();
      IncreasingSorted(es);
      SortOfSorted(KeyLe, es);
    }
  }

  function EntryBytes(e: Entry): seq<byte> {
    [e.role, |e.name| % 256] + e.name + e.publicKey + e.secretFile
  }

  function AllBytes(es: seq<Entry>): seq<byte> {
    if es == [] then [] else EntryBytes(es[0]) + AllBytes(es[1..])
  }

  lemma EntryLayout(network: nat, e: Entry)
    ensures BackupCodec()(network).write(e) == EntryBytes(e)
  {
    var one, files := ByteCodec(), Pair(Fixed(32), Fixed(FILE_LEN));
    assert files.write((e.publicKey, e.secretFile)) == e.publicKey + e.secretFile;
    assert one.write(e.role) == [e.role] && one.write(|e.name|) == [|e.name| % 256];
    assert QuadCodec(one).write(FromEntry(e)) == one.write(e.role) + ((one.write(|e.name|) + e.name)
                                                 + files.write((e.publicKey, e.secretFile)));
  }

  lemma {:induction false} EntriesLayout(network: nat, es: seq<Entry>)
    ensures WriteMany(BackupCodec()(network), es) == AllBytes(es)
  {
    if es != [] {
      EntryLayout(network, es[0]);
      EntriesLayout(network, es[1..]);
    }
  }

  /** The bytes of a backup of ascending entries. */
  lemma BackupLayout(network: nat, es: seq<Entry>)
    requires network < 0x1_0000_0000 && Ascending(es) && Encode(BackupCodec()(network), network, es).Success?
    ensures var header := [77, 85, 84, 66, 75, 85, 80, 49] + [0, 1] + BeBytes(network, 4) + BeBytes(|es|, 2);
            var body := header + AllBytes(es);
            Encode(BackupCodec()(network), network, es) == Success(body + Sha256(body))
  {
    AscendingIff(es);
    KeyOrder();
    IncreasingSorted(es);
    SortOfSorted(KeyLe, es);
    EntriesLayout(network, es);
    VersionBytes(BeBytes(1, 2));
    BeNatOfBeBytes(1, 2);
  }
}
