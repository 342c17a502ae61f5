/**
 The three file formats of the store (crates/mutiny-node/src/storage.rs): meta,
 journal and snapshot, each closed by a SHA-256 of what precedes it. Decoding
 inverts encoding, and whatever decodes is the encoding of its value.
 */
module StorageCodec {
  import opened Bytes
  import opened Wrappers
  import opened Crypto
  import opened Records
  import opened Storage

  const META_MAGIC: seq<byte> := [77, 85, 84, 83, 84, 71, 48, 49]     // MUTSTG01
  const SNAPSHOT_MAGIC: seq<byte> := [77, 85, 84, 83, 78, 80, 48, 49] // MUTSNP01
  const JOURNAL_MAGIC: seq<byte> := [77, 85, 84, 74, 82, 78, 48, 49]  // MUTJRN01
  const FORMAT_VERSION := 1
  const META_WIDTHS: seq<nat> := [8, 2, 4, 32, 8, 8, 32, 32, 32, 32]
  const JOURNAL_WIDTHS: seq<nat> := [8, 2, 8, 8, 32]
  const SNAPSHOT_WIDTHS: seq<nat> := [8, 2, 8, 8]
  const META_BODY := 190
  const JOURNAL_BODY := 58
  const SNAPSHOT_HEADER := 26

  lemma Widths()
    ensures Total(META_WIDTHS) == META_BODY
    ensures Total(JOURNAL_WIDTHS) == JOURNAL_BODY
    ensures Total(SNAPSHOT_WIDTHS) == SNAPSHOT_HEADER
  {
    assert Total([32, 32]) == 64;
    assert Total([32, 32, 32, 32]) == 128;
    assert Total([8, 8, 32, 32, 32, 32]) == 144;
    assert Total([4, 32, 8, 8, 32, 32, 32, 32]) == 180;
    assert Total([8, 8, 32]) == 48;
    assert Total([8, 8]) == 16;
  }

  // --------------------------------------------------------------------- meta

  function MetaParts(m: Meta): seq<seq<byte>> {
    var id := m.identity;
    [META_MAGIC, BeBytes(FORMAT_VERSION, 2), BeBytes(id.networkId, 4), id.genesisId, BeBytes(m.generation, 8),
     BeBytes(id.height, 8), id.tipHash, id.stateRoot, id.chainwork, m.snapshotHash]
  }

  /** `encode_meta` */
  function EncodeMeta(m: Meta): seq<byte> {
    Seal(Join(MetaParts(m)))
  }

  function MetaOfParts(f: seq<seq<byte>>): (r: Result<Meta>)
    requires |f| == |META_WIDTHS|
  {
    if f[0] != META_MAGIC || BeNat(f[1]) != FORMAT_VERSION then Failure
    else
      Success(Meta(Identity(BeNat(f[2]), f[3], BeNat(f[5]), f[6], f[7], f[8]), BeNat(f[4]), f[9]))
  }

  /** `decode_meta` */
  function DecodeMeta(bytes: seq<byte>): (r: Result<Meta>) {
    var body :- Unseal(bytes, META_BODY);
    Widths();
    MetaOfParts(Fields(body, META_WIDTHS))
  }

  ghost predicate MetaFits(m: Meta) {
    IdentityFits(m.identity) && m.generation < GENERATION_LIMIT && |m.snapshotHash| == 32
  }

  lemma MetaOfMetaParts(m: Meta)
    requires MetaFits(m)
    ensures MetaOfParts(MetaParts(m)) == Success(m)
  {
    NumbersRead(m.identity.networkId, 4);
    NumbersRead(m.generation, 8);
    NumbersRead(m.identity.height, 8);
    NumbersRead(FORMAT_VERSION, 2);
  }

  lemma MetaPartWidths(m: Meta)
    requires MetaFits(m)
    ensures HaveWidths(MetaParts(m), META_WIDTHS)
  {
  }

  lemma MetaRoundTrip(m: Meta)
    requires MetaFits(m)
    ensures DecodeMeta(EncodeMeta(m)) == Success(m)
  {
    Widths();
    MetaPartWidths(m);
    FieldsOfJoin(MetaParts(m), META_WIDTHS);
    UnsealSealed(Join(MetaParts(m)));
    MetaOfMetaParts(m);
  }

  lemma NumbersRead(n: nat, width: nat)
    requires width in {2, 4, 8}
    requires n < if width == 2 then 0x1_0000 else if width == 4 then 0x1_0000_0000 else GENERATION_LIMIT
    ensures BeNat(BeBytes(n, width)) == n
  {
    Pow256Values();
    BeNatOfBeBytes(n, width);
  }

  lemma MetaPartsAgain(f: seq<seq<byte>>)
    requires HaveWidths(f, META_WIDTHS) && MetaOfParts(f).Success?
    ensures MetaParts(MetaOfParts(f).value) == f
  {
    NumberAgain(f, META_WIDTHS, 1);
    NumberAgain(f, META_WIDTHS, 2);
    NumberAgain(f, META_WIDTHS, 4);
    NumberAgain(f, META_WIDTHS, 5);
    var g := MetaParts(MetaOfParts(f).value);
    assert g[0] == f[0] && g[1] == f[1] && g[2] == f[2] && g[3] == f[3] && g[4] == f[4];
    assert g[5] == f[5] && g[6] == f[6] && g[7] == f[7] && g[8] == f[8] && g[9] == f[9];
  }

  lemma NumberAgain(f: seq<seq<byte>>, widths: seq<nat>, i: nat)
    requires HaveWidths(f, widths) && i < |f|
    ensures BeBytes(BeNat(f[i]), widths[i]) == f[i]
  {
    BeBytesOfBeNat(f[i]);
  }

  lemma MetaUnique(bytes: seq<byte>)
    requires DecodeMeta(bytes).Success?
    ensures EncodeMeta(DecodeMeta(bytes).value) == bytes
  {
    Widths();
    SealUnsealed(bytes, META_BODY);
    var body := Unseal(bytes, META_BODY).value;
    JoinOfFields(body, META_WIDTHS);
    MetaPartsAgain(Fields(body, META_WIDTHS));
  }

  // ------------------------------------------------------------------ journal

  function JournalParts(j: Journal): seq<seq<byte>> {
    [JOURNAL_MAGIC, BeBytes(FORMAT_VERSION, 2), BeBytes(j.generation, 8), BeBytes(j.previous, 8), j.snapshotHash]
  }

  /** `encode_journal` */
  function EncodeJournal(j: Journal): seq<byte> {
    Seal(Join(JournalParts(j)))
  }

  function JournalOfParts(f: seq<seq<byte>>): (r: Result<Journal>)
    requires |f| == |JOURNAL_WIDTHS|
  {
    if f[0] != JOURNAL_MAGIC || BeNat(f[1]) != FORMAT_VERSION then Failure
    else Success(Journal(BeNat(f[2]), BeNat(f[3]), f[4]))
  }

  /** `decode_journal` */
  function DecodeJournal(bytes: seq<byte>): (r: Result<Journal>) {
    var body :- Unseal(bytes, JOURNAL_BODY);
    Widths();
    JournalOfParts(Fields(body, JOURNAL_WIDTHS))
  }

  ghost predicate JournalFits(j: Journal) {
    j.generation < GENERATION_LIMIT && j.previous < GENERATION_LIMIT && |j.snapshotHash| == 32
  }

  lemma JournalRoundTrip(j: Journal)
    requires JournalFits(j)
    ensures DecodeJournal(EncodeJournal(j)) == Success(j)
  {
    Widths();
    FieldsOfJoin(JournalParts(j), JOURNAL_WIDTHS);
    UnsealSealed(Join(JournalParts(j)));
    NumbersRead(j.generation, 8);
    NumbersRead(j.previous, 8);
    NumbersRead(FORMAT_VERSION, 2);
  }

  lemma JournalPartsAgain(f: seq<seq<byte>>)
    requires HaveWidths(f, JOURNAL_WIDTHS) && JournalOfParts(f).Success?
    ensures JournalParts(JournalOfParts(f).value) == f
  {
    NumberAgain(f, JOURNAL_WIDTHS, 1);
    NumberAgain(f, JOURNAL_WIDTHS, 2);
    NumberAgain(f, JOURNAL_WIDTHS, 3);
    var g := JournalParts(JournalOfParts(f).value);
    assert g[0] == f[0] && g[1] == f[1] && g[2] == f[2] && g[3] == f[3] && g[4] == f[4];
  }

  lemma JournalUnique(bytes: seq<byte>)
    requires DecodeJournal(bytes).Success?
    ensures EncodeJournal(DecodeJournal(bytes).value) == bytes
  {
    Widths();
    SealUnsealed(bytes, JOURNAL_BODY);
    var body := Unseal(bytes, JOURNAL_BODY).value;
    JoinOfFields(body, JOURNAL_WIDTHS);
    JournalPartsAgain(Fields(body, JOURNAL_WIDTHS));
  }

  // ----------------------------------------------------------------- snapshot

  function SnapshotHeader(generation: nat, length: nat): seq<seq<byte>> {
    [SNAPSHOT_MAGIC, BeBytes(FORMAT_VERSION, 2), BeBytes(generation, 8), BeBytes(length, 8)]
  }

  /** `encode_snapshot` */
  function EncodeSnapshot(generation: nat, payload: seq<byte>): seq<byte> {
    Seal(Join(SnapshotHeader(generation, |payload|)) + payload)
  }

  /** `decode_snapshot` */
  function DecodeSnapshot(bytes: seq<byte>, expected: nat): (r: Result<seq<byte>>) {
    if |bytes| < SNAPSHOT_HEADER + 32 then Failure
    else
      Widths();
      var f := Fields(bytes[..SNAPSHOT_HEADER], SNAPSHOT_WIDTHS);
      if f[0] != SNAPSHOT_MAGIC || BeNat(f[1]) != FORMAT_VERSION || BeNat(f[2]) != expected then Failure
      else
        var body :- Unseal(bytes, SNAPSHOT_HEADER + BeNat(f[3]));
        Success(body[SNAPSHOT_HEADER..])
  }

  lemma SnapshotRoundTrip(generation: nat, payload: seq<byte>)
    requires generation < GENERATION_LIMIT && |payload| < GENERATION_LIMIT
    ensures DecodeSnapshot(EncodeSnapshot(generation, payload), generation) == Success(payload)
  {
    Widths();
    var header := SnapshotHeader(generation, |payload|);
    FieldsOfJoin(header, SNAPSHOT_WIDTHS);
    var body := Join(header) + payload;
    UnsealSealed(body);
    assert Seal(body)[..SNAPSHOT_HEADER] == Join(header);
    assert body[SNAPSHOT_HEADER..] == payload;
    NumbersRead(generation, 8);
    NumbersRead(|payload|, 8);
    NumbersRead(FORMAT_VERSION, 2);
  }

  lemma SnapshotHeaderAgain(f: seq<seq<byte>>, generation: nat)
    requires HaveWidths(f, SNAPSHOT_WIDTHS)
    requires f[0] == SNAPSHOT_MAGIC && BeNat(f[1]) == FORMAT_VERSION && BeNat(f[2]) == generation
    ensures SnapshotHeader(generation, BeNat(f[3])) == f
  {
    NumberAgain(f, SNAPSHOT_WIDTHS, 1);
    NumberAgain(f, SNAPSHOT_WIDTHS, 2);
    NumberAgain(f, SNAPSHOT_WIDTHS, 3);
    var g := SnapshotHeader(generation, BeNat(f[3]));
    assert g[0] == f[0] && g[1] == f[1] && g[2] == f[2] && g[3] == f[3];
  }

  lemma SnapshotUnique(bytes: seq<byte>, generation: nat)
    requires DecodeSnapshot(bytes, generation).Success?
    ensures EncodeSnapshot(generation, DecodeSnapshot(bytes, generation).value) == bytes
  {
    Widths();
    var header := bytes[..SNAPSHOT_HEADER];
    JoinOfFields(header, SNAPSHOT_WIDTHS);
    var f := Fields(header, SNAPSHOT_WIDTHS);
    SnapshotHeaderAgain(f, generation);
    SealUnsealed(bytes, SNAPSHOT_HEADER + BeNat(f[3]));
    var body := Unseal(bytes, SNAPSHOT_HEADER + BeNat(f[3])).value;
    assert body == header + body[SNAPSHOT_HEADER..];
  }

  // -------------------------------------------------------------- the formats

  const FileFormats: FileCodec := FileCodec(
    (m: Meta) => EncodeMeta(m), (b: seq<byte>) => DecodeMeta(b),
    (j: Journal) => EncodeJournal(j), (b: seq<byte>) => DecodeJournal(b),
    (g: nat, payload: seq<byte>) => EncodeSnapshot(g, payload), (b: seq<byte>, g: nat) => DecodeSnapshot(b, g),
    (b: seq<byte>) => Sha256(b))

  /** The store's own file formats meet what the protocol needs of them. */
  lemma FileFormatsRoundTrip()
    ensures RoundTrips(FileFormats)
  {
    forall m: Meta | MetaFits(m) ensures FileFormats.decodeMeta(FileFormats.encodeMeta(m)) == Success(m) {
      MetaRoundTrip(m);
    }
    forall j: Journal | JournalFits(j) ensures FileFormats.decodeJournal(FileFormats.encodeJournal(j)) == Success(j) {
      JournalRoundTrip(j);
    }
    forall g: nat, payload | g < GENERATION_LIMIT && |payload| < GENERATION_LIMIT
      ensures FileFormats.unframe(FileFormats.frame(g, payload), g) == Success(payload)
    {
      SnapshotRoundTrip(g, payload);
    }
  }
}
