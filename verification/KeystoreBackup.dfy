/**
 The backup encoder and decoder as the source writes them: a growing body, a moving
 position, and the previous key.
 */
module KeystoreBackup {
  import opened Wrappers
  import opened Bytes
  import opened Crypto
  import opened Sorting
  import opened Codecs
  import opened Keystore

  /** The first `i` entries written, all in order and none repeated. */
  ghost predicate Writing(c: Codec<Entry>, head: seq<byte>, es: seq<Entry>, i: nat, body: seq<byte>) {
    && i <= |es| && body == head + WriteMany(c, es[..i])
    && AllOk(c, es[..i]) && NoRepeats(es[..i])
  }

  lemma WritingStep(c: Codec<Entry>, head: seq<byte>, es: seq<Entry>, i: nat, body: seq<byte>)
    requires i < |es| && Writing(c, head, es, i, body)
    ensures c.ok(es[i]) && (i == 0 || !SameKey(es[i - 1], es[i])) ==> Writing(c, head, es, i + 1, body + c.write(es[i]))
  {
    WriteOneMore(c, es[..i], es[i]);
    assert es[..i + 1] == es[..i] + [es[i]];
  }

  /** `encode_wallet_backup` */
  method EncodeWalletBackup(c: Codec<Entry>, network: nat, entries: seq<Entry>) returns (r: Result<seq<byte>>)
    ensures r == Encode(c, network, entries)
  {
    if |entries| > MAX_ENTRIES {
      return Failure;
    }
    var ordered := Sort(KeyLe, entries);
    var body := WriteBody(c, Header(network, |ordered|), ordered);
    if body.Failure? {
      return Failure;
    }
    return Success(body.value + Sha256(body.value));
  }

  /** The entry loop of `encode_wallet_backup`. */
  method WriteBody(c: Codec<Entry>, head: seq<byte>, ordered: seq<Entry>) returns (r: Result<seq<byte>>)
    ensures r == if AllOk(c, ordered) && NoRepeats(ordered) then Success(head + WriteMany(c, ordered)) else Failure
  {
    var body := head;
    var i := 0;
    while i < |ordered|
      invariant 0 <= i <= |ordered| && Writing(c, head, ordered, i, body)
    {
      if !c.ok(ordered[i]) || (i > 0 && SameKey(ordered[i - 1], ordered[i])) {
        return Failure;
      }
      WritingStep(c, head, ordered, i, body);
      body := body + c.write(ordered[i]);
      i := i + 1;
    }
    assert ordered[..i] == ordered;
    return Success(body);
  }

  /** After `i` of `count` entries: increasing so far, `rest` still to read. */
  ghost predicate Reading(c: Codec<Entry>, count: nat, b: seq<byte>, i: nat, entries: seq<Entry>, rest: seq<byte>) {
    && i <= count && |entries| == i && Increasing(entries)
    && ReadMany(c, count, b) == Prefixed(entries, ReadMany(c, count - i, rest))
  }

  predicate Follows(entries: seq<Entry>, e: Entry) {
    entries == [] || (KeyLe(entries[|entries| - 1], e) && !SameKey(entries[|entries| - 1], e))
  }

  lemma ReadingStarts(c: Codec<Entry>, count: nat, b: seq<byte>)
    ensures Reading(c, count, b, 0, [], b)
  {
    PrefixedNone(ReadMany(c, count, b));
  }

  lemma ReadingStep(c: Codec<Entry>, count: nat, b: seq<byte>, i: nat, entries: seq<Entry>, rest: seq<byte>)
    requires Reading(c, count, b, i, entries, rest) && i < count && c.read(rest).Success?
    ensures var one := c.read(rest).value;
            && (Follows(entries, one.value) ==> Reading(c, count, b, i + 1, entries + [one.value], one.rest))
            && (!Follows(entries, one.value) && ReadMany(c, count, b).Success? ==>
                  !Increasing(ReadMany(c, count, b).value.value))
  {
    var one := c.read(rest).value;
    PrefixedOnce(c, entries, count - i, rest);
    if !Follows(entries, one.value) {
      OutOfOrder(entries, one.value, ReadMany(c, count - i - 1, one.rest));
    }
  }

  lemma ReadingEnds(c: Codec<Entry>, count: nat, b: seq<byte>, entries: seq<Entry>, rest: seq<byte>)
    requires Reading(c, count, b, count, entries, rest)
    ensures ReadMany(c, count, b) == Success(Read(entries, rest))
  {
    assert entries + [] == entries;
  }

  /** The entry loop of `decode_wallet_backup`. */
  method ReadLoop(c: Codec<Entry>, count: nat, b: seq<byte>) returns (r: Result<seq<Entry>>)
    ensures r.Success? <==> ReadMany(c, count, b).Success? && ReadMany(c, count, b).value.rest == []
                            && Increasing(ReadMany(c, count, b).value.value)
    ensures r.Success? ==> r.value == ReadMany(c, count, b).value.value
  {
    var entries: seq<Entry> := [];
    var rest := b;
    var i := 0;
    ReadingStarts(c, count, b);
    while i < count
      invariant 0 <= i <= count && Reading(c, count, b, i, entries, rest)
    {
      var one := c.read(rest);
      if one.Failure? {
        return Failure;
      }
      ReadingStep(c, count, b, i, entries, rest);
      if !Follows(entries, one.value.value) {
        return Failure;
      }
      entries := entries + [one.value.value];
      rest := one.value.rest;
      i := i + 1;
    }
    ReadingEnds(c, count, b, entries, rest);
    if rest != [] {
      return Failure;
    }
    return Success(entries);
  }

  /** A key that is not above the one before it spoils the whole list. */
  lemma OutOfOrder(es: seq<Entry>, e: Entry, r: Result<Read<seq<Entry>>>)
    requires es != [] && (!KeyLe(es[|es| - 1], e) || SameKey(es[|es| - 1], e))
    ensures Prefixed(es + [e], r).Success? ==> !Increasing(Prefixed(es + [e], r).value.value)
  {
    if r.Success? {
      var all := es + [e] + r.value.value;
      assert all[|es| - 1] == es[|es| - 1] && all[|es|] == e;
    }
  }

  /** `decode_wallet_backup` */
  method DecodeWalletBackup(codec: nat -> Codec<Entry>, bytes: seq<byte>) returns (r: Result<(nat, seq<Entry>)>)
    ensures r == Decode(codec, bytes)
  {
    if |bytes| < HEADER + 32 {
      return Failure;
    }
    var checksumAt := |bytes| - 32;
    if Sha256(bytes[..checksumAt]) != bytes[checksumAt..] {
      return Failure;
    }
    var header := ReadHeader(bytes[..HEADER]);
    if header.Failure? || header.value.1 > MAX_ENTRIES {
      return Failure;
    }
    var entries := ReadLoop(codec(header.value.0), header.value.1, bytes[HEADER..checksumAt]);
    if entries.Failure? {
      return Failure;
    }
    return Success((header.value.0, entries.value));
  }

  /** The entry codec of each network. */
  function BackupCodec(): nat -> Codec<Entry> {
    (network: nat) => EntryCodec(ByteCodec(), network)
  }

  /** The entry codecs meet the conditions of the format theorems. */
  lemma BackupLawful()
    ensures AllLawful(BackupCodec())
  {
    forall network: nat ensures Lawful(BackupCodec()(network)) {
      EntryLawful(network);
    }
  }
}
