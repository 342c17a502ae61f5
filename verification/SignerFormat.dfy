/**
 The signer's record and scope formats
 (crates/mutiny-node/src/mining_signer.rs) against the Tier-3 equivocation test of
 the punishment rules (crates/mutiny-node/src/punishment.rs).
 */
module SignerFormat {
  import opened Bytes
  import opened Wrappers
  import opened Runs
  import opened Crypto
  import opened Signer

  const RECORD_MAGIC: seq<byte> := [77, 85, 84, 77, 83, 65, 48, 49] // MUTMSA01
  const BODY_LEN := 8 + BINDING_LEN + 8 + CORE_LEN

  /** The tag that starts the hashed scope; its text plays no part. */
  const ScopeTag: seq<byte>

  /** `scope`: parent and height do not split it. */
  function Scope(binding: seq<byte>, core: seq<byte>): seq<byte> {
    if |core| == CORE_LEN then Sha256(ScopeTag + binding + core[6..14] + core[110..208]) else []
  }

  function Body(binding: seq<byte>, height: nat, core: seq<byte>): seq<byte> {
    RECORD_MAGIC + binding + BeBytes(height, 8) + core
  }

  /** `record` */
  function Record(binding: seq<byte>, height: nat, core: seq<byte>): seq<byte> {
    Body(binding, height, core) + Sha256(Body(binding, height, core))
  }

  /** `validate_record` */
  function ValidateRecord(bytes: seq<byte>, expected: seq<byte>): (r: Result<seq<byte>>) {
    if |bytes| != BODY_LEN + 32 || |expected| != BINDING_LEN then Failure
    else if bytes[..8] != RECORD_MAGIC || bytes[8..8 + BINDING_LEN] != expected then Failure
    else if Sha256(bytes[..BODY_LEN]) != bytes[BODY_LEN..] then Failure
    else
      var core := bytes[16 + BINDING_LEN..BODY_LEN];
      if core[2..6] != expected[8..12] || core[142..174] != expected[44..76] then Failure
      else Success(Scope(expected, core))
  }

  const Formats: Format := Format(
    (b: seq<byte>, c: seq<byte>) => Scope(b, c),
    (b: seq<byte>, h: nat, c: seq<byte>) => Record(b, h, c),
    (x: seq<byte>, b: seq<byte>) => ValidateRecord(x, b))

  /** Where the parts of a record lie. */
  lemma RecordParts(binding: seq<byte>, height: nat, core: seq<byte>)
    requires |binding| == BINDING_LEN && |core| == CORE_LEN
    ensures var r := Record(binding, height, core);
            && |r| == BODY_LEN + 32
            && r[..8] == RECORD_MAGIC && r[8..8 + BINDING_LEN] == binding
            && r[8 + BINDING_LEN..16 + BINDING_LEN] == BeBytes(height, 8)
            && r[16 + BINDING_LEN..BODY_LEN] == core
            && r[..BODY_LEN] == Body(binding, height, core) && r[BODY_LEN..] == Sha256(Body(binding, height, core))
  {
    var r := Record(binding, height, core);
    assert r[..BODY_LEN] == Body(binding, height, core);
    assert Body(binding, height, core)[..8] == RECORD_MAGIC;
    assert Body(binding, height, core)[8..8 + BINDING_LEN] == binding;
    assert Body(binding, height, core)[8 + BINDING_LEN..16 + BINDING_LEN] == BeBytes(height, 8);
    assert Body(binding, height, core)[16 + BINDING_LEN..] == core;
  }

  /** A record that `authorize` writes is accepted under its binding, with its own scope. */
  lemma RecordValidates(binding: seq<byte>, height: nat, core: seq<byte>)
    requires |binding| == BINDING_LEN && |core| == CORE_LEN
    requires core[2..6] == binding[8..12] && core[142..174] == binding[44..76]
    ensures ValidateRecord(Record(binding, height, core), binding) == Success(Scope(binding, core))
  {
    RecordParts(binding, height, core);
  }

  /** Conversely only records of this binding, for its network and licence, are accepted. */
  lemma ValidateIff(bytes: seq<byte>, binding: seq<byte>, scope: seq<byte>)
    requires |binding| == BINDING_LEN
    ensures ValidateRecord(bytes, binding) == Success(scope) <==>
            exists height: nat, core: seq<byte> :: Recorded(bytes, binding, scope, height, core)
  {
    if ValidateRecord(bytes, binding) == Success(scope) {
      var height, core := BeNat(bytes[8 + BINDING_LEN..16 + BINDING_LEN]), bytes[16 + BINDING_LEN..BODY_LEN];
      Pow256Values();
      BeNatBound(bytes[8 + BINDING_LEN..16 + BINDING_LEN]);
      BeBytesOfBeNat(bytes[8 + BINDING_LEN..16 + BINDING_LEN]);
      assert bytes[..BODY_LEN] == Body(binding, height, core);
      assert bytes == bytes[..BODY_LEN] + bytes[BODY_LEN..];
      assert Recorded(bytes, binding, scope, height, core);
    }
    forall height: nat, core: seq<byte> | Recorded(bytes, binding, scope, height, core)
      ensures ValidateRecord(bytes, binding) == Success(scope)
    {
      RecordValidates(binding, height, core);
    }
  }

  ghost predicate Recorded(bytes: seq<byte>, binding: seq<byte>, scope: seq<byte>, height: nat, core: seq<byte>)
    requires |binding| == BINDING_LEN
  {
    && height < 0x1_0000_0000_0000_0000 && |core| == CORE_LEN && bytes == Record(binding, height, core)
    && core[2..6] == binding[8..12] && core[142..174] == binding[44..76] && scope == Scope(binding, core)
  }

  lemma FormatsDetermine()
    ensures RecordsDetermine(Formats)
  {
    forall a: Grant, b: Grant |
      && |a.core| == |b.core| == CORE_LEN && |a.binding| == |b.binding| == BINDING_LEN
      && Formats.record(a.binding, a.height, a.core) == Formats.record(b.binding, b.height, b.core)
      ensures a.core == b.core
    {
      RecordParts(a.binding, a.height, a.core);
      RecordParts(b.binding, b.height, b.core);
    }
  }

  /** The Tier-3 branch of `validate_objective_evidence` on two signed cores. */
  ghost predicate Tier3(a: seq<byte>, b: seq<byte>)
    requires |a| == |b| == CORE_LEN
  {
    && a != b && a[6..14] == b[6..14]
    && a[110..142] == b[110..142] && a[142..174] == b[142..174]
    && a[174..176] == b[174..176] && a[176..208] == b[176..208]
    && LexLe(a[176..208], a[110..142]) && a[176..208] != a[110..142]
  }

  /** Tier-3 evidence has one scope. */
  lemma Tier3SameScope(binding: seq<byte>, a: seq<byte>, b: seq<byte>)
    requires |a| == |b| == CORE_LEN && Tier3(a, b)
    ensures Scope(binding, a) == Scope(binding, b)
  {
    assert a[110..208] == a[110..142] + a[142..174] + a[174..176] + a[176..208];
    assert b[110..208] == b[110..142] + b[142..174] + b[174..176] + b[176..208];
  }

  /** Nothing this signer ever signs, in any run, can be punished as same-ticket equivocation. */
  lemma NeverEquivocates(events: seq<Event>, i: nat, j: nat)
    requires Run(Machine(Formats), Start, events).Success?
    requires i < |Run(Machine(Formats), Start, events).value.signed|
    requires j < |Run(Machine(Formats), Start, events).value.signed|
    ensures var signed := Run(Machine(Formats), Start, events).value.signed;
            && |signed[i].core| == |signed[j].core| == CORE_LEN
            && !Tier3(signed[i].core, signed[j].core)
  {
    FormatsDetermine();
    SameScopeSameCore(Formats, events, i, j);
    var signed := Run(Machine(Formats), Start, events).value.signed;
    if Tier3(signed[i].core, signed[j].core) {
      Tier3SameScope(signed[i].binding, signed[i].core, signed[j].core);
      assert false;
    }
  }
}
