/**
 The header part of the node state (crates/mutiny-node/src/bitcoin_headers.rs):
 the stored list, the best-chain singleton, the import operation and the
 from-scratch check.
 */
module HeaderLedger {
  import opened Bytes
  import opened Wrappers
  import opened CompactTarget
  import opened HeaderRules
  import opened HeaderStore
  import opened Runs
  import Sorting

  const BTC_DISABLE_EPOCH := 2_101_248
  const REQUIRED_CONFIRMATIONS := 6
  const CONTEXT_START := DEVNET_ANCHOR_HEIGHT - 10
  const CONTEXT_START_TIMESTAMP := 1_799_994_000
  const DEVNET_NETWORK_ID := 0x4d55_5403
  const MAINNET_NETWORK_ID := 0x4d55_5401
  const DEVNET_BTC_BITS: u32 := 0x207f_ffff

  const DevnetGenesisId: BlockHash
  const MainnetGenesisId: BlockHash

  /** `resolve_tuple_policy`, as far as header validation goes. */
  function ResolvePolicy(networkId: nat, genesisId: BlockHash): Option<Policy> {
    if networkId == DEVNET_NETWORK_ID && genesisId == DevnetGenesisId then
      Some(DevnetFixedBits(DEVNET_BTC_BITS))
    else if networkId == MAINNET_NETWORK_ID && genesisId == MainnetGenesisId then
      Some(Mainnet)
    else None
  }

  /** A decoded `BITCOIN_HEADERS` operation; its wire format allows 1 to 256 headers. */
  datatype Batch = Batch(networkId: nat, genesisId: BlockHash, headers: seq<Header>)

  // ---------------------------------------------------- the list and its index

  ghost predicate Distinct(headers: seq<Row>) {
    forall i, j :: 0 <= i < j < |headers| ==> headers[i].hash != headers[j].hash
  }

  /** The list as a map from block hash to row. */
  function Index(headers: seq<Row>): (rows: Rows) {
    if headers == [] then map[]
    else
      var last := headers[|headers| - 1];
      Index(headers[..|headers| - 1])[last.hash := last]
  }

  lemma {:induction false} IndexSound(headers: seq<Row>, k: BlockHash)
    requires k in Index(headers)
    ensures Index(headers)[k].hash == k && Index(headers)[k] in headers
  {
    if k != headers[|headers| - 1].hash {
      IndexSound(headers[..|headers| - 1], k);
    }
  }

  lemma {:induction false} IndexAt(headers: seq<Row>, i: nat)
    requires Distinct(headers) && i < |headers|
    ensures headers[i].hash in Index(headers) && Index(headers)[headers[i].hash] == headers[i]
  {
    if i < |headers| - 1 {
      IndexAt(headers[..|headers| - 1], i);
    }
  }

  lemma IndexComplete(headers: seq<Row>, r: Row)
    requires Distinct(headers)
    ensures r in headers <==> r.hash in Index(headers) && Index(headers)[r.hash] == r
  {
    if r in headers {
      var i :| 0 <= i < |headers| && headers[i] == r;
      IndexAt(headers, i);
    }
    if r.hash in Index(headers) {
      IndexSound(headers, r.hash);
    }
  }

  predicate ByHash(a: Row, b: Row) {
    LexLe(a.hash.bytes, b.hash.bytes)
  }

  lemma ByHashTotal()
    ensures Sorting.TotalPreorder(ByHash)
  {
    forall x: Row, y: Row ensures ByHash(x, y) || ByHash(y, x) {
      LexLeTotal(x.hash.bytes, y.hash.bytes);
    }
    forall x: Row, y: Row, z: Row | ByHash(x, y) && ByHash(y, z) ensures ByHash(x, z) {
      LexLeTransitive(x.hash.bytes, y.hash.bytes, z.hash.bytes);
    }
  }

  lemma {:induction false} OccursOnce(headers: seq<Row>, r: Row)
    requires Distinct(headers)
    ensures multiset(headers)[r] <= 1
  {
    if headers != [] {
      var front, last := headers[..|headers| - 1], headers[|headers| - 1];
      assert headers == front + [last];
      OccursOnce(front, r);
      assert r == last ==> r !in front;
    }
  }

  lemma DistinctOfPermutation(a: seq<Row>, b: seq<Row>)
    requires Distinct(a) && multiset(a) == multiset(b)
    ensures Distinct(b)
  {
    forall i, j | 0 <= i < j < |b| ensures b[i].hash != b[j].hash {
      assert b[i] in multiset(b) && b[j] in multiset(b);
      assert b[i] in a && b[j] in a;
      OccursOnce(a, b[i]);
      TwiceWhenRepeated(b, i, j);
    }
  }

  lemma TwiceWhenRepeated(b: seq<Row>, i: nat, j: nat)
    requires i < j < |b|
    ensures b[i] == b[j] ==> multiset(b)[b[i]] >= 2
  {
    assert b == b[..j] + [b[j]] + b[j + 1..];
    assert b[i] in b[..j];
  }

  /** Distinctness and the index do not depend on the order of the list. */
  lemma IndexOfPermutation(a: seq<Row>, b: seq<Row>)
    requires Distinct(a) && multiset(a) == multiset(b)
    ensures Distinct(b) && Index(a) == Index(b)
  {
    DistinctOfPermutation(a, b);
    assert forall r :: r in multiset(a) <==> r in a;
    assert forall r :: r in multiset(b) <==> r in b;
    IndexCovers(a, b);
    IndexCovers(b, a);
    assert Index(a).Keys == Index(b).Keys;
  }

  lemma IndexCovers(a: seq<Row>, b: seq<Row>)
    requires Distinct(a) && Distinct(b) && forall r :: r in a ==> r in b
    ensures forall k :: k in Index(a) ==> k in Index(b) && Index(b)[k] == Index(a)[k]
  {
    forall k | k in Index(a) ensures k in Index(b) && Index(b)[k] == Index(a)[k] {
      IndexSound(a, k);
      IndexComplete(b, Index(a)[k]);
    }
  }

  lemma {:induction false} AbsentFromIndex(headers: seq<Row>, hash: BlockHash)
    requires forall j :: 0 <= j < |headers| ==> headers[j].hash != hash
    ensures hash !in Index(headers)
  {
    if headers != [] {
      AbsentFromIndex(headers[..|headers| - 1], hash);
    }
  }

  lemma IndexPush(front: seq<Row>, row: Row)
    requires Distinct(front)
    ensures Distinct(front + [row]) <==> row.hash !in Index(front)
    ensures Index(front + [row]) == Index(front)[row.hash := row]
  {
    var all := front + [row];
    assert all[..|all| - 1] == front;
    if row.hash in Index(front) {
      IndexSound(front, row.hash);
      var i :| 0 <= i < |front| && front[i] == Index(front)[row.hash];
      assert all[i].hash == all[|front|].hash;
    } else {
      forall i | 0 <= i < |front| ensures all[i].hash != row.hash {
        IndexAt(front, i);
      }
    }
  }

  /** `iter().find(|row| row.block_hash_internal == hash)` */
  method Find(headers: seq<Row>, hash: BlockHash) returns (r: Option<Row>)
    requires Distinct(headers)
    ensures r == if hash in Index(headers) then Some(Index(headers)[hash]) else None
  {
    for i := 0 to |headers|
      invariant forall j :: 0 <= j < i ==> headers[j].hash != hash
    {
      if headers[i].hash == hash {
        IndexAt(headers, i);
        return Some(headers[i]);
      }
    }
    AbsentFromIndex(headers, hash);
    return None;
  }

  /** `check_state`: what it accepts is `ListOk`. */
  ghost predicate ListOk(rules: RuleSet, policy: Option<Policy>, headers: seq<Row>, best: Option<Best>) {
    Distinct(headers) && StateOk(rules, policy, Index(headers), best)
  }

  ghost predicate HashesOk(headers: seq<Row>) {
    forall r :: r in headers ==> HashOf(r.header) == r.hash
  }

  lemma PrefixDistinct(headers: seq<Row>, n: nat)
    requires n <= |headers|
    ensures Distinct(headers) ==> Distinct(headers[..n])
  {
  }

  /** The first pass of `check_state`: index the rows, refusing repeats and wrong hashes. */
  method BuildIndex(headers: seq<Row>) returns (r: Option<Rows>)
    ensures r.Some? <==> Distinct(headers) && HashesOk(headers)
    ensures r.Some? ==> r.value == Index(headers)
  {
    var rows: Rows := map[];
    for i := 0 to |headers|
      invariant Distinct(headers[..i]) && rows == Index(headers[..i]) && HashesOk(headers[..i])
    {
      var stored := headers[i];
      assert headers[..i + 1] == headers[..i] + [stored];
      IndexPush(headers[..i], stored);
      if stored.hash in rows {
        PrefixDistinct(headers, i + 1);
        return None;
      }
      if HashOf(stored.header) != stored.hash {
        assert stored in headers;
        return None;
      }
      rows := rows[stored.hash := stored];
    }
    assert headers[..|headers|] == headers;
    return Some(rows);
  }

  /** The closing test of `check_state`: the singleton is a greatest-work row. */
  method CheckBest(rows: Rows, best: Option<Best>) returns (ok: bool)
    requires rows != map[]
    ensures ok <==> BestOk(rows, best)
  {
    if best.None? || best.value.hash !in rows {
      return false;
    }
    var tip := rows[best.value.hash];
    if best.value.height != tip.height || best.value.work != tip.work {
      return false;
    }
    var todo := rows.Keys;
    while todo != {}
      invariant todo <= rows.Keys
      invariant forall k :: k in rows.Keys - todo ==> rows[k].work <= best.value.work
    {
      var k :| k in todo;
      if rows[k].work > best.value.work {
        return false;
      }
      todo := todo - {k};
    }
    return true;
  }

  lemma HashesOfIndex(headers: seq<Row>)
    requires HashesOk(headers)
    ensures forall k :: k in Index(headers) ==>
              Index(headers)[k].hash == k && HashOf(Index(headers)[k].header) == k
  {
    forall k | k in Index(headers)
      ensures Index(headers)[k].hash == k && HashOf(Index(headers)[k].header) == k
    {
      IndexSound(headers, k);
    }
  }

  lemma ListOkHashes(rules: RuleSet, policy: Option<Policy>, headers: seq<Row>, best: Option<Best>)
    requires ListOk(rules, policy, headers, best)
    ensures HashesOk(headers) && (headers != [] ==> Index(headers) != map[])
  {
    forall r | r in headers ensures HashOf(r.header) == r.hash {
      IndexComplete(headers, r);
      assert RowOk(rules, policy.value, Index(headers), r.hash);
    }
    if headers != [] {
      IndexAt(headers, 0);
    }
  }

  /**
   `check_state`: recomputes everything from the stored bytes. It reports success
   exactly when every row and the singleton are what the headers determine.
   */
  method CheckState(rules: RuleSet, policy: Option<Policy>, headers: seq<Row>, best: Option<Best>)
    returns (ok: bool)
    ensures ok <==> ListOk(rules, policy, headers, best)
  {
    if ListOk(rules, policy, headers, best) {
      ListOkHashes(rules, policy, headers, best);
    }
    if (headers != [] || best.Some?) && policy.None? {
      return false;
    }
    var index := BuildIndex(headers);
    if index.None? {
      return false;
    }
    var rows := index.value;
    if headers == [] {
      return best.None?;
    }
    IndexAt(headers, 0);
    HashesOfIndex(headers);
    if AnchorHash(policy.value).Failure? {
      return false;
    }
    var consistent := ValidateRows(rules, policy.value, rows);
    if !consistent {
      return false;
    }
    ok := CheckBest(rows, best);
  }

  /** The stored list is sorted by hash, so it is determined by its index. */
  lemma SortedListDetermined(a: seq<Row>, b: seq<Row>)
    requires Distinct(a) && Distinct(b) && Index(a) == Index(b)
    requires Sorting.Sorted(ByHash, a) && Sorting.Sorted(ByHash, b)
    ensures a == b
  {
    ByHashTotal();
    forall r ensures multiset(a)[r] == multiset(b)[r] {
      OccursOnce(a, r);
      OccursOnce(b, r);
      IndexComplete(a, r);
      IndexComplete(b, r);
      assert r in multiset(a) <==> r in a;
      assert r in multiset(b) <==> r in b;
    }
    forall x, y | x in multiset(a) && y in multiset(a) && ByHash(x, y) && ByHash(y, x) ensures x == y {
      LexLeAntisymmetric(x.hash.bytes, y.hash.bytes);
      IndexComplete(a, x);
      IndexComplete(a, y);
    }
    Sorting.SortedUnique(ByHash, a, b);
  }

  class HeaderState {
    const rules: RuleSet
    const networkId: nat
    const genesisId: BlockHash
    var headers: seq<Row>
    var best: Option<Best>

    constructor (rules: RuleSet, networkId: nat, genesisId: BlockHash)
      ensures this.rules == rules && this.networkId == networkId && this.genesisId == genesisId
      ensures headers == [] && best == None && Ok()
    {
      this.rules, this.networkId, this.genesisId := rules, networkId, genesisId;
      headers, best := [], None;
    }

    function ActivePolicy(): Option<Policy> {
      ResolvePolicy(networkId, genesisId)
    }

    ghost predicate Ok()
      reads this
    {
      ListOk(rules, ActivePolicy(), headers, best)
    }

    /** What the caller must offer for the import to go through. */
    ghost predicate Accepts(batch: Batch, blockEpoch: nat)
      reads this
    {
      && blockEpoch < BTC_DISABLE_EPOCH && Ok() && ActivePolicy().Some?
      && 1 <= |batch.headers| <= 256
      && batch.networkId == networkId && batch.genesisId == genesisId
      && ImportAll(rules, ActivePolicy().value, Index(headers), best, batch.headers).Success?
    }

    /**
     `apply_operation`. The closing `check_state` never rejects: the operation
     succeeds as soon as its loop does, and then leaves a list that the
     from-scratch check accepts. A refused batch changes nothing.
     */
    method ApplyOperation(batch: Batch, blockEpoch: nat) returns (ok: bool)
      modifies this
      ensures ok <==> old(Accepts(batch, blockEpoch))
      ensures !ok ==> headers == old(headers) && best == old(best)
      ensures ok ==>
                && Ok() && Sorting.Sorted(ByHash, headers)
                && ImportAll(rules, ActivePolicy().value, old(Index(headers)), old(best), batch.headers)
                   == Success((Index(headers), best))
    {
      if blockEpoch >= BTC_DISABLE_EPOCH {
        return false;
      }
      var opening := CheckState(rules, ActivePolicy(), headers, best);
      if !opening {
        return false;
      }
      if ActivePolicy().None? {
        return false;
      }
      var policy := ActivePolicy().value;
      if !(1 <= |batch.headers| <= 256) || batch.networkId != networkId || batch.genesisId != genesisId {
        return false;
      }
      var imported, list, tip := ImportLoop(rules, policy, headers, best, batch.headers);
      if !imported {
        return false;
      }
      ByHashTotal();
      Sorting.SortSorted(ByHash, list);
      var sorted := Sorting.Sort(ByHash, list);
      IndexOfPermutation(list, sorted);
      ImportAllPreserves(rules, policy, Index(headers), best, batch.headers);
      var closing := CheckState(rules, ActivePolicy(), sorted, tip);
      assert closing;
      if !closing {
        return false;
      }
      headers, best := sorted, tip;
      return true;
    }
  }

  /** The loop of `apply_operation` over a copy of the list, its index and the tip. */
  method ImportLoop(rules: RuleSet, policy: Policy, headers: seq<Row>, best: Option<Best>, batch: seq<Header>)
    returns (ok: bool, list: seq<Row>, tip: Option<Best>)
    requires Distinct(headers)
    ensures ok <==> ImportAll(rules, policy, Index(headers), best, batch).Success?
    ensures ok ==>
              && Distinct(list)
              && ImportAll(rules, policy, Index(headers), best, batch) == Success((Index(list), tip))
  {
    list, tip := headers, best;
    var index := Index(headers);
    for i := 0 to |batch|
      invariant Distinct(list) && index == Index(list)
      invariant ImportAll(rules, policy, Index(headers), best, batch[..i]) == Success((index, tip))
    {
      var header := batch[i];
      assert batch[..i + 1][..i] == batch[..i];
      assert ImportAll(rules, policy, Index(headers), best, batch[..i + 1])
             == ImportOne(rules, policy, index, tip, header);
      var stepped, row := ImportHeader(rules, policy, list, index, header);
      if !stepped {
        RunPrefixFails(ImportStep(rules, policy), (Index(headers), best), batch, i + 1);
        return false, list, tip;
      }
      if row.Some? {
        IndexPush(list, row.value);
        list := list + [row.value];
        index := index[row.value.hash := row.value];
        if tip.None? || row.value.work > tip.value.work {
          tip := Some(Best(row.value.hash, row.value.height, row.value.work));
        }
      }
    }
    assert batch[..|batch|] == batch;
    return true, list, tip;
  }

  /** `parent_metadata` */
  method FindParent(policy: Policy, list: seq<Row>, previous: BlockHash) returns (r: Result<(nat, nat)>)
    requires Distinct(list)
    ensures r == ParentMetadata(Index(list), policy, previous)
  {
    var anchor := AnchorHash(policy);
    if anchor.Failure? {
      return Failure;
    }
    if previous == anchor.value {
      return Success((AnchorHeight(policy), 0));
    }
    var parent := Find(list, previous);
    if parent.None? {
      return Failure;
    }
    return Success((parent.value.height, parent.value.work));
  }

  /** One header of the loop: already stored, refused, or the row to append. */
  method ImportHeader(rules: RuleSet, policy: Policy, list: seq<Row>, index: Rows, header: Header)
    returns (ok: bool, row: Option<Row>)
    requires Distinct(list) && index == Index(list)
    ensures HashOf(header) in index ==> row.None? && ok == (index[HashOf(header)].header == header)
    ensures HashOf(header) !in index ==>
              && ok == row.Some? == ExpectedRow(rules, index, policy, header).Success?
              && (ok ==> ExpectedRow(rules, index, policy, header) == Success(row.value))
  {
    var hash := HashOf(header);
    var existing := Find(list, hash);
    if existing.Some? {
      return existing.value.header == header, None;
    }
    var parent := FindParent(policy, list, header.previous);
    if parent.Failure? {
      return false, None;
    }
    var computed := RowAbove(rules, index, policy, header, parent.value.0, parent.value.1);
    return computed.Success?, if computed.Success? then Some(computed.value) else None;
  }
}
