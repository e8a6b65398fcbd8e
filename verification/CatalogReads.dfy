/** Reading the records of a registration from a host, page by page and chunk by chunk, and
    the bounded cache of what was read from them. */
module CatalogReads {
  import opened Text

  const MAX_RECORDS := 256
  const MAX_BYTES := 16 * 1024 * 1024
  const MAX_CACHED := 1024
  const PAGE_SIZE := 256
  const CHUNK_SIZE := 1024 * 1024
  const OFFSET_LIMIT := 0x1_0000_0000

  datatype Record = Record(document: string, bytes: seq<bv8>)

  /** What a page says about a record: where it is read, and how long it is. */
  datatype Entry = Entry(document: string, index: nat, length: nat)

  /** Offsets of pages have 32 bits. */
  type Offset = n: nat | n < OFFSET_LIMIT

  datatype Page = Page(items: seq<Entry>, next: Option<Offset>)

  datatype Chunk = Chunk(offset: nat, total: nat, bytes: seq<bv8>)

  datatype Error = HostFailed | TooManyRecords | TooManyBytes | Changed | EmptyChunk | NoProgress | Conflict | Malformed

  datatype Result<+T> = Ok(value: T) | Err(error: Error)

  /** A host answers each call, counted from the first, in whatever way it likes. */
  datatype Host = Host(
    page: (nat, string, Offset, nat) -> Result<Page>,
    read: (nat, Entry, nat, nat) -> Result<Option<Chunk>>)

  // ------------------------------------------------------------------- correct hosts

  function EntryOf(records: seq<Record>, k: nat): Entry
    requires k < |records|
  {
    Entry(records[k].document, k, |records[k].bytes|)
  }

  /** A page of correct entries, at least one unless it is the last. */
  predicate CorrectPage(records: seq<Record>, offset: nat, p: Page) {
    && offset + |p.items| <= |records|
    && (forall k :: 0 <= k < |p.items| ==> p.items[k] == EntryOf(records, offset + k))
    && (p.next.None? ==> offset + |p.items| == |records|)
    && (p.next.Some? ==> p.next.value == offset + |p.items| && p.items != [])
  }

  /** A slice of the record, of any size but nothing. */
  predicate CorrectChunk(record: Record, offset: nat, c: Chunk) {
    && c.offset == offset && c.total == |record.bytes| && offset + |c.bytes| <= |record.bytes|
    && c.bytes == record.bytes[offset..offset + |c.bytes|]
    && (c.bytes == [] ==> offset == |record.bytes|)
  }

  /** A host that serves these records for an id, however it slices them. */
  ghost predicate Serves(host: Host, id: string, records: seq<Record>) {
    && |records| < OFFSET_LIMIT
    && (forall call: nat, offset: Offset :: offset <= |records| ==>
          host.page(call, id, offset, PAGE_SIZE).Ok? && CorrectPage(records, offset, host.page(call, id, offset, PAGE_SIZE).value))
    && (forall call: nat, k: nat, at: nat :: k < |records| && at <= |records[k].bytes| ==>
          CorrectRead(records[k], at, host.read(call, EntryOf(records, k), at, CHUNK_SIZE)))
  }

  predicate CorrectRead(record: Record, at: nat, r: Result<Option<Chunk>>) {
    r.Ok? && r.value.Some? && CorrectChunk(record, at, r.value.value)
  }

  /** A host whose chunks never reach beyond the length that they declare. */
  ghost predicate Bounded(host: Host) {
    forall call: nat, entry: Entry, at: nat :: InBounds(host.read(call, entry, at, CHUNK_SIZE))
  }

  predicate InBounds(answer: Result<Option<Chunk>>) {
    answer.Ok? && answer.value.Some? ==> answer.value.value.offset + |answer.value.value.bytes| <= answer.value.value.total
  }

  function Total(records: seq<Record>): nat {
    if records == [] then 0 else Total(records[..|records| - 1]) + |records[|records| - 1].bytes|
  }

  predicate WithinLimits(records: seq<Record>) { |records| <= MAX_RECORDS && Total(records) <= MAX_BYTES }

  lemma {:induction false} TotalGrows(records: seq<Record>, n: nat)
    requires n <= |records|
    ensures Total(records[..n]) <= Total(records)
    decreases |records|
  {
    if n < |records| {
      assert records[..|records| - 1][..n] == records[..n];
      TotalGrows(records[..|records| - 1], n);
    } else {
      assert records[..n] == records;
    }
  }

  lemma TotalNext(records: seq<Record>, n: nat)
    requires n < |records|
    ensures Total(records[..n + 1]) == Total(records[..n]) + |records[n].bytes|
  {
    assert records[..n + 1][..n] == records[..n];
  }

  // ------------------------------------------------------------------------- reading

  /** Reads one record to its end; ends with every host, and with a correct one it has the
      record's exact bytes. */
  method ReadRecord(host: Host, entry: Entry, call0: nat, ghost records: seq<Record>) returns (r: Result<seq<bv8>>, call: nat)
    ensures r.Ok? ==> entry.length <= |r.value|
    ensures r.Ok? && Bounded(host) ==> |r.value| == entry.length
    ensures WholeChunk(entry, host.read(call0, entry, 0, CHUNK_SIZE)) ==> r == Ok(host.read(call0, entry, 0, CHUNK_SIZE).value.value.bytes)
    ensures Readable(host, records, entry) ==> r == Ok(records[entry.index].bytes)
  {
    var bytes: seq<bv8>, offset := [], 0;
    call := call0;
    while true
      invariant offset == |bytes| && (offset > 0 ==> offset < entry.length)
      invariant WholeChunk(entry, host.read(call0, entry, 0, CHUNK_SIZE)) ==> offset == 0 && call == call0
      invariant Readable(host, records, entry) ==> offset <= entry.length && bytes == records[entry.index].bytes[..offset]
      decreases if offset <= entry.length then entry.length - offset else 0
    {
      var answer := host.read(call, entry, offset, CHUNK_SIZE);
      assert Readable(host, records, entry) ==> CorrectRead(records[entry.index], offset, answer);
      assert Bounded(host) ==> InBounds(answer);
      call := call + 1;
      if answer.Err? { return Err(answer.error), call; }
      if answer.value.None? { return Err(HostFailed), call; }
      var chunk := answer.value.value;
      if chunk.offset != offset || chunk.total != entry.length { return Err(Changed), call; }
      bytes := bytes + chunk.bytes;
      offset := offset + |chunk.bytes|;
      if offset >= chunk.total {
        assert offset == |chunk.bytes| ==> bytes == chunk.bytes;
        if Readable(host, records, entry) { WholeRecord(records[entry.index], bytes, offset); }
        return Ok(bytes), call;
      }
      if chunk.bytes == [] { return Err(EmptyChunk), call; }
    }
  }

  /** A first chunk with all that was declared, or more. */
  predicate WholeChunk(entry: Entry, answer: Result<Option<Chunk>>) {
    answer.Ok? && answer.value.Some? && answer.value.value.offset == 0 && answer.value.value.total == entry.length <= |answer.value.value.bytes|
  }

  /** A record that declares no bytes and is served with any: nothing keeps it to the limit. */
  method OverrunningRecord(document: string, bytes: seq<bv8>) returns (r: Result<seq<bv8>>)
    ensures r == Ok(bytes)
  {
    var host := Host((call, id, offset, limit) => Err(HostFailed), (call: nat, entry: Entry, at: nat, limit: nat) => Ok(Some(Chunk(at, 0, bytes))));
    var call;
    r, call := ReadRecord(host, Entry(document, 0, 0), 0, []);
  }

  lemma WholeRecord(record: Record, bytes: seq<bv8>, offset: nat)
    requires offset == |record.bytes| && bytes == record.bytes[..offset]
    ensures bytes == record.bytes
  {}

  /** An entry whose record the host serves. */
  ghost predicate Readable(host: Host, records: seq<Record>, entry: Entry) {
    && entry.index < |records| && entry == EntryOf(records, entry.index)
    && forall call: nat, at: nat :: at <= |records[entry.index].bytes| ==> CorrectRead(records[entry.index], at, host.read(call, entry, at, CHUNK_SIZE))
  }

  lemma ServedIsReadable(host: Host, id: string, records: seq<Record>, k: nat)
    requires Serves(host, id, records) && k < |records|
    ensures Readable(host, records, EntryOf(records, k))
  {}

  /** The records so far are the first ones. */
  ghost predicate Known(records: seq<Record>, known: seq<Record>, total: nat) {
    |known| <= |records| && known == records[..|known|] && total == Total(known)
  }

  /** One more record, if the limits allow it. */
  method ReadNext(host: Host, entry: Entry, known: seq<Record>, total0: nat, call0: nat, ghost records: seq<Record>)
    returns (r: Result<seq<Record>>, total: nat, call: nat)
    requires |known| <= MAX_RECORDS && total0 <= MAX_BYTES
    ensures r.Ok? ==> known < r.value && |r.value| == |known| + 1 <= MAX_RECORDS && total <= MAX_BYTES
    ensures r.Ok? && Bounded(host) ==> Total(r.value) - Total(known) == total - total0
    ensures Known(records, known, total0) && Readable(host, records, entry) && entry.index == |known| ==>
      if WithinLimits(records[..|known| + 1]) then r.Ok? && Known(records, r.value, total) else r.Err?
  {
    total, call := total0, call0;
    if |known| >= MAX_RECORDS { return Err(TooManyRecords), total, call; }
    total := total + entry.length;
    ghost var served := Known(records, known, total0) && Readable(host, records, entry) && entry.index == |known|;
    if served { TotalNext(records, |known|); }
    if total > MAX_BYTES { return Err(TooManyBytes), total, call; }
    var bytes;
    bytes, call := ReadRecord(host, entry, call, records);
    if bytes.Err? { return Err(bytes.error), total, call; }
    r := Ok(known + [Record(entry.document, bytes.value)]);
    assert r.value[..|known|] == known;
    if served { assert r.value == records[..|known| + 1]; }
  }

  /** The records of one page, behind those that were read before. */
  method ReadPage(host: Host, id: string, items: seq<Entry>, known: seq<Record>, total0: nat, call0: nat, ghost records: seq<Record>)
    returns (r: Result<seq<Record>>, total: nat, call: nat)
    requires |known| <= MAX_RECORDS && total0 <= MAX_BYTES
    ensures r.Ok? ==> known <= r.value && |r.value| == |known| + |items| <= MAX_RECORDS && total <= MAX_BYTES
    ensures r.Ok? && Bounded(host) ==> Total(r.value) - Total(known) == total - total0
    ensures Serves(host, id, records) && Ahead(records, items, known, total0) ==>
      if WithinLimits(records[..|known| + |items|]) then r.Ok? && Known(records, r.value, total) else r.Err?
  {
    var found := known;
    total, call := total0, call0;
    var k := 0;
    ghost var served := Serves(host, id, records) && Ahead(records, items, known, total0);
    if served { TotalGrows(records, |known|); }
    while k < |items|
      invariant 0 <= k <= |items| && known <= found && |found| == |known| + k <= MAX_RECORDS && total <= MAX_BYTES
      invariant Bounded(host) ==> Total(found) - Total(known) == total - total0
      invariant served ==> Known(records, found, total)
      invariant served && k > 0 ==> WithinLimits(found)
    {
      if served {
        ServedIsReadable(host, id, records, |found|);
        LimitsGrow(records, |found| + 1, |known| + |items|);
      }
      var next;
      next, total, call := ReadNext(host, items[k], found, total, call, records);
      if next.Err? { return Err(next.error), total, call; }
      found := next.value;
      k := k + 1;
    }
    r := Ok(found);
  }

  /** The entries are those of the records that come next. */
  ghost predicate Ahead(records: seq<Record>, items: seq<Entry>, known: seq<Record>, total: nat) {
    && Known(records, known, total) && |known| + |items| <= |records|
    && forall k :: 0 <= k < |items| ==> items[k] == EntryOf(records, |known| + k)
  }

  lemma LimitsGrow(records: seq<Record>, n: nat, m: nat)
    requires n <= m <= |records|
    ensures WithinLimits(records[..m]) ==> WithinLimits(records[..n])
    ensures Total(records[..n]) <= Total(records[..m])
  {
    assert records[..m][..n] == records[..n];
    TotalGrows(records[..m], n);
  }

  /** `registration_records`: ends with every host. With one that serves the records, it
      gives exactly them, unless there are too many or they are too long; one that stays
      inside the lengths it declares never gives more bytes than the limit. */
  method RegistrationRecords(host: Host, id: string, ghost records: seq<Record>) returns (r: Result<seq<Record>>)
    ensures r.Ok? ==> |r.value| <= MAX_RECORDS
    ensures r.Ok? && Bounded(host) ==> Total(r.value) <= MAX_BYTES
    ensures Serves(host, id, records) ==> if WithinLimits(records) then r == Ok(records) else r.Err?
  {
    var found: seq<Record> := [];
    var offset: Offset := 0;
    var total: nat, call: nat := 0, 0;
    ghost var served := Serves(host, id, records);
    while true
      invariant |found| <= MAX_RECORDS && total <= MAX_BYTES && (Bounded(host) ==> Total(found) == total)
      invariant served ==> offset == |found| && Known(records, found, total)
      decreases OFFSET_LIMIT - offset
    {
      var page := host.page(call, id, offset, PAGE_SIZE);
      call := call + 1;
      if page.Err? { return Err(page.error); }
      var more;
      more, total, call := ReadPage(host, id, page.value.items, found, total, call, records);
      if more.Err? {
        if served && WithinLimits(records) { LimitsAt(records, offset + |page.value.items|); }
        return Err(more.error);
      }
      found := more.value;
      if page.value.next.None? {
        if served { assert records[..|records|] == records; }
        return Ok(found);
      }
      if page.value.next.value <= offset { return Err(NoProgress); }
      offset := page.value.next.value;
    }
  }

  lemma LimitsAt(records: seq<Record>, n: nat)
    requires n <= |records| && WithinLimits(records)
    ensures WithinLimits(records[..n])
  {
    TotalGrows(records, n);
  }

  // ---------------------------------------------------------------------- contracts

  /** What can be changed by a registration; read from a document by `parse`. */
  datatype Contract = Contract(text: string)

  type Parser = Record -> Option<Result<Contract>>

  /** The contracts of the records that hold one; an error if one cannot be read. */
  function Parsed(parse: Parser, records: seq<Record>): Result<seq<Contract>> {
    if records == [] then Ok([])
    else
      match (Parsed(parse, records[..|records| - 1]), parse(records[|records| - 1]))
      case (Err(e), _) => Err(e)
      case (Ok(before), None) => Ok(before)
      case (Ok(before), Some(Err(e))) => Err(e)
      case (Ok(before), Some(Ok(contract))) => Ok(before + [contract])
  }

  /** The one contract that all of them agree on. */
  function Agreed(contracts: seq<Contract>): Result<Option<Contract>> {
    if contracts == [] then Ok(None)
    else if forall k :: 0 <= k < |contracts| ==> contracts[k] == contracts[0] then Ok(Some(contracts[0]))
    else Err(Conflict)
  }

  /** What is computed without a cache. */
  function Uncached(parse: Parser, records: seq<Record>): Result<Option<Contract>> {
    match Parsed(parse, records)
    case Err(e) => Err(e)
    case Ok(contracts) => Agreed(contracts)
  }

  /** `{digest}\0{id}`. */
  function CacheKey(digest: string, id: string): string { digest + ['\0'] + id }

  predicate NulFree(s: string) { '\0' !in s }

  /** Keys of digests without a NUL are the same only for the same digest and id. */
  lemma KeysDiffer(digest: string, id: string, digest': string, id': string)
    requires NulFree(digest) && NulFree(digest') && CacheKey(digest, id) == CacheKey(digest', id')
    ensures digest == digest' && id == id'
  {
    var a, b := CacheKey(digest, id), CacheKey(digest', id');
    assert a[|digest|] == '\0' && b[|digest'|] == '\0';
    assert forall k :: 0 <= k < |digest| ==> a[k] == digest[k] && a[k] in digest;
    assert forall k :: 0 <= k < |digest'| ==> b[k] == digest'[k] && b[k] in digest';
    assert |digest| == |digest'|;
    assert a[..|digest|] == digest && b[..|digest|] == digest';
    assert a[|digest| + 1..] == id && b[|digest| + 1..] == id';
  }

  /** The records behind every digest and id. */
  type Catalogs = (string, string) -> seq<Record>

  class ContractCache {
    const parse: Parser
    var entries: map<string, Option<Contract>>

    constructor (parse: Parser)
      ensures entries == map[] && this.parse == parse
    {
      this.parse, entries := parse, map[];
    }

    predicate Bounded() reads this { |entries| <= MAX_CACHED }

    /** Every entry is what would be computed for its digest and id. */
    ghost predicate Faithful(catalogs: Catalogs) reads this {
      forall digest, id :: NulFree(digest) && CacheKey(digest, id) in entries ==>
        WithinLimits(catalogs(digest, id)) && Uncached(parse, catalogs(digest, id)) == Ok(entries[CacheKey(digest, id)])
    }

    /** `expression_change_contract`: with a correct host, cached or not, the contract of the
        records behind the digest and the id; with any host, a bounded cache. */
    method ChangeContract(digest: string, id: string, host: Host, ghost catalogs: Catalogs) returns (r: Result<Option<Contract>>)
      requires Bounded()
      modifies this`entries
      ensures Bounded() && (r.Ok? ==> CacheKey(digest, id) in entries) && (r.Err? ==> entries == old(entries))
      ensures old(Faithful(catalogs)) && NulFree(digest) && Serves(host, id, catalogs(digest, id)) ==>
        Faithful(catalogs) && if WithinLimits(catalogs(digest, id)) then r == Uncached(parse, catalogs(digest, id)) else r.Err?
    {
      var key := CacheKey(digest, id);
      if key in entries { return Ok(entries[key]); }
      var records := RegistrationRecords(host, id, catalogs(digest, id));
      if records.Err? { return Err(records.error); }
      r := Uncached(parse, records.value);
      if r.Err? { return; }
      ghost var correct := Faithful(catalogs) && NulFree(digest) && Serves(host, id, catalogs(digest, id));
      Insert(digest, id, r.value, catalogs, correct);
    }

    /** A full cache is emptied before a new key goes in. */
    method Insert(digest: string, id: string, contract: Option<Contract>, ghost catalogs: Catalogs, ghost correct: bool)
      requires Bounded()
      requires correct ==>
        Faithful(catalogs) && NulFree(digest) && WithinLimits(catalogs(digest, id)) && Uncached(parse, catalogs(digest, id)) == Ok(contract)
      modifies this`entries
      ensures Bounded() && CacheKey(digest, id) in entries && (correct ==> Faithful(catalogs))
    {
      var key := CacheKey(digest, id);
      if |entries| >= MAX_CACHED && key !in entries { entries := map[]; }
      ghost var before := entries;
      entries := entries[key := contract];
      if correct {
        forall d, i | NulFree(d) && CacheKey(d, i) in entries
          ensures WithinLimits(catalogs(d, i)) && Uncached(parse, catalogs(d, i)) == Ok(entries[CacheKey(d, i)])
        {
          if CacheKey(d, i) == key { KeysDiffer(d, i, digest, id); } else { assert CacheKey(d, i) in before; }
        }
      }
    }
  }

  /** A digest with a NUL can share its key with another. */
  lemma KeysCanCollide()
    ensures CacheKey("a", "b\0c") == CacheKey("a\0b", "c")
  {}
}
