/** The DNS service: every write goes to the provider first and then into a cache of the zone's records. */
module Dns {
  import opened Cloudflare
  import Text

  /** A record as the service shows it. */
  datatype DnsRecord = DnsRecord(id: RecordId, zoneName: string, providerRecordId: RecordId, data: RecordInput)

  function ToModelRecord(zoneName: string, remote: Record): DnsRecord {
    DnsRecord(remote.id, zoneName, remote.id, remote.data)
  }

  function ToModelRecords(zoneName: string, remote: seq<Record>): (records: seq<DnsRecord>)
    ensures |records| == |remote|
    ensures forall i :: 0 <= i < |remote| ==> records[i] == ToModelRecord(zoneName, remote[i])
  {
    seq(|remote|, i requires 0 <= i < |remote| => ToModelRecord(zoneName, remote[i]))
  }

  /* ---------- Zone names ---------- */

  function LowerChar(c: char): char {
    if 'A' <= c <= 'Z' then c - 'A' + 'a' else c
  }

  function Lower(s: string): (r: string)
    ensures |r| == |s| && forall i :: 0 <= i < |s| ==> r[i] == LowerChar(s[i])
  {
    seq(|s|, i requires 0 <= i < |s| => LowerChar(s[i]))
  }

  function NormalizeZone(name: string): string { Text.TrimSpace(Lower(name)) }

  /** A normalized name stays as it is, so the cache is always looked up under the name it was filled under. */
  lemma NormalizeIsIdempotent(name: string)
    ensures NormalizeZone(NormalizeZone(name)) == NormalizeZone(name)
  {
    var n := NormalizeZone(name);
    forall i | 0 <= i < |n|
      ensures LowerChar(n[i]) == n[i]
    {
      Text.TrimSpaceFrom(Lower(name), i);
    }
    assert Lower(n) == n;
  }

  /* ---------- What a cached list says about the provider's ---------- */

  predicate Distinct(records: seq<DnsRecord>) {
    forall i, j :: 0 <= i < j < |records| ==> records[i].id != records[j].id
  }

  /** Every cached record is, as it stands, one of the provider's; none is there twice. */
  predicate Partial(cached: seq<DnsRecord>, zoneName: string, remote: seq<Record>) {
    Distinct(cached) && forall r :: r in cached ==> r in ToModelRecords(zoneName, remote)
  }

  /** And the other way round: the cache has every record of the provider's. */
  predicate Complete(cached: seq<DnsRecord>, zoneName: string, remote: seq<Record>) {
    Partial(cached, zoneName, remote) && forall r :: r in ToModelRecords(zoneName, remote) ==> r in cached
  }

  lemma FreshIsComplete(zoneName: string, remote: seq<Record>)
    requires UniqueIds(remote)
    ensures Complete(ToModelRecords(zoneName, remote), zoneName, remote)
  {
  }

  lemma CreateKeeps(cached: seq<DnsRecord>, zoneName: string, remote: seq<Record>, record: Record)
    requires Partial(cached, zoneName, remote) && forall i :: 0 <= i < |remote| ==> remote[i].id != record.id
    ensures Partial(cached + [ToModelRecord(zoneName, record)], zoneName, remote + [record])
    ensures Complete(cached, zoneName, remote) ==>
      Complete(cached + [ToModelRecord(zoneName, record)], zoneName, remote + [record])
  {
    var mapped := ToModelRecords(zoneName, remote);
    assert ToModelRecords(zoneName, remote + [record]) == mapped + [ToModelRecord(zoneName, record)];
    forall i | 0 <= i < |cached|
      ensures cached[i].id != record.id
    {
      assert cached[i] in mapped;
    }
  }

  /** The list with the first record of this id replaced, or with the record added when there is none. */
  function Replaced(records: seq<DnsRecord>, record: DnsRecord): seq<DnsRecord> {
    if records == [] then [record]
    else if records[0].id == record.id then [record] + records[1..]
    else [records[0]] + Replaced(records[1..], record)
  }

  lemma {:induction false} ReplacedAt(records: seq<DnsRecord>, record: DnsRecord, k: nat)
    requires k <= |records| && forall i :: 0 <= i < k ==> records[i].id != record.id
    requires k < |records| ==> records[k].id == record.id
    ensures Replaced(records, record) == if k < |records| then records[k := record] else records + [record]
  {
    if k > 0 {
      ReplacedAt(records[1..], record, k - 1);
    }
  }

  lemma {:induction false} ReplacedHas(records: seq<DnsRecord>, record: DnsRecord, r: DnsRecord)
    requires Distinct(records)
    ensures r in Replaced(records, record) <==> r == record || (r in records && r.id != record.id)
    ensures Distinct(Replaced(records, record))
  {
    if records != [] {
      var rest := records[1..];
      assert r in records <==> r == records[0] || r in rest;
      ReplacedHas(rest, record, r);
      if records[0].id != record.id {
        forall j | 0 <= j < |Replaced(rest, record)|
          ensures Replaced(rest, record)[j].id != records[0].id
        {
          ReplacedHas(rest, record, Replaced(rest, record)[j]);
        }
      }
    }
  }

  lemma OverwrittenHas(zoneName: string, before: seq<Record>, after: seq<Record>, record: Record, r: DnsRecord)
    requires UniqueIds(before) && Overwritten(before, after, record)
    ensures r in ToModelRecords(zoneName, after) <==>
      r == ToModelRecord(zoneName, record) || (r in ToModelRecords(zoneName, before) && r.id != record.id)
  {
    var k :| 0 <= k < |before| && before[k].id == record.id && after == before[k := record];
    var was, now := ToModelRecords(zoneName, before), ToModelRecords(zoneName, after);
    assert now[k] == ToModelRecord(zoneName, record);
    if r in was && r.id != record.id {
      var j :| 0 <= j < |was| && was[j] == r;
      assert now[j] == r;
    }
    if r in now && r != now[k] {
      var j :| 0 <= j < |now| && now[j] == r;
      assert was[j] == r;
    }
  }

  lemma UpdateKeeps(cached: seq<DnsRecord>, zoneName: string, before: seq<Record>, after: seq<Record>, record: Record)
    requires UniqueIds(before) && Partial(cached, zoneName, before) && Overwritten(before, after, record)
    ensures Partial(Replaced(cached, ToModelRecord(zoneName, record)), zoneName, after)
    ensures Complete(cached, zoneName, before) ==>
      Complete(Replaced(cached, ToModelRecord(zoneName, record)), zoneName, after)
  {
    var now := Replaced(cached, ToModelRecord(zoneName, record));
    ReplacedHas(cached, ToModelRecord(zoneName, record), ToModelRecord(zoneName, record));
    forall r
      ensures r in now ==> r in ToModelRecords(zoneName, after)
      ensures Complete(cached, zoneName, before) && r in ToModelRecords(zoneName, after) ==> r in now
    {
      ReplacedHas(cached, ToModelRecord(zoneName, record), r);
      OverwrittenHas(zoneName, before, after, record, r);
    }
  }

  /** The list without the records of this id. */
  function Without(records: seq<DnsRecord>, id: RecordId): seq<DnsRecord> {
    if records == [] then []
    else
      var init, last := records[..|records| - 1], records[|records| - 1];
      if last.providerRecordId == id || last.id == id then Without(init, id) else Without(init, id) + [last]
  }

  lemma {:induction false} WithoutHas(records: seq<DnsRecord>, id: RecordId, r: DnsRecord)
    ensures r in Without(records, id) <==> r in records && r.providerRecordId != id && r.id != id
    ensures Distinct(records) ==> Distinct(Without(records, id))
  {
    if records != [] {
      var init, last := records[..|records| - 1], records[|records| - 1];
      assert r in records <==> r in init || r == last;
      WithoutHas(init, id, r);
      if Distinct(records) {
        forall j | 0 <= j < |Without(init, id)|
          ensures Without(init, id)[j].id != last.id
        {
          WithoutHas(init, id, Without(init, id)[j]);
        }
      }
    }
  }

  lemma RemovedHas(zoneName: string, before: seq<Record>, after: seq<Record>, id: RecordId, r: DnsRecord)
    requires UniqueIds(before) && Removed(before, after, id)
    ensures r in ToModelRecords(zoneName, after) <==> r in ToModelRecords(zoneName, before) && r.id != id
  {
    var k :| 0 <= k < |before| && before[k].id == id && after == before[..k] + before[k + 1..];
    var mapped, left := ToModelRecords(zoneName, before), ToModelRecords(zoneName, after);
    var others := mapped[..k] + mapped[k + 1..];
    forall j | 0 <= j < |left|
      ensures left[j] == others[j]
    {
      assert after[j] == before[if j < k then j else j + 1];
    }
    assert left == others;
    AllButOne(mapped, k, r);
  }

  lemma AllButOne(records: seq<DnsRecord>, k: nat, r: DnsRecord)
    requires Distinct(records) && k < |records|
    ensures r in records[..k] + records[k + 1..] <==> r in records && r.id != records[k].id
  {
    assert records == records[..k] + [records[k]] + records[k + 1..];
  }

  lemma DeleteKeeps(cached: seq<DnsRecord>, zoneName: string, before: seq<Record>, after: seq<Record>, id: RecordId)
    requires UniqueIds(before) && Partial(cached, zoneName, before) && Removed(before, after, id)
    ensures Partial(Without(cached, id), zoneName, after)
    ensures Complete(cached, zoneName, before) ==> Complete(Without(cached, id), zoneName, after)
  {
    forall r
      ensures r in Without(cached, id) ==> r in ToModelRecords(zoneName, after)
      ensures Complete(cached, zoneName, before) && r in ToModelRecords(zoneName, after) ==> r in Without(cached, id)
    {
      WithoutHas(cached, id, r);
      RemovedHas(zoneName, before, after, id, r);
    }
    WithoutHas(cached, id, DnsRecord(0, "", 0, RecordInput("", "", "", 0)));
  }

  /** The same for a first update: its record is all of the zone only if the zone had no other. */
  lemma FirstUpdateIsPartial(zoneName: string, before: seq<Record>, after: seq<Record>, record: Record)
    requires UniqueIds(before) && Overwritten(before, after, record)
    ensures Partial([ToModelRecord(zoneName, record)], zoneName, after)
    ensures Complete([ToModelRecord(zoneName, record)], zoneName, after) <==> |before| == 1
  {
    UpdateKeeps([], zoneName, before, after, record);
    var k :| 0 <= k < |before| && before[k].id == record.id && after == before[k := record];
    if |before| > 1 {
      var mapped, j := ToModelRecords(zoneName, after), if k == 0 then 1 else 0;
      assert mapped[j].id == before[j].id && mapped[j] in mapped;
    }
  }

  /** And for a first deletion: the empty cache it leaves is all of the zone only if nothing else was there. */
  lemma FirstDeleteIsPartial(zoneName: string, before: seq<Record>, after: seq<Record>, id: RecordId)
    requires UniqueIds(before) && Removed(before, after, id)
    ensures Partial([], zoneName, after)
    ensures Complete([], zoneName, after) <==> |before| == 1
  {
    if |before| > 1 {
      var mapped := ToModelRecords(zoneName, after);
      assert mapped[0] in mapped;
    }
  }

  /**
   A first write to a zone that was never listed leaves a cache of that one record, which is all of the zone
   only if the zone was empty. Until a refresh, that is what is listed.
   */
  lemma FirstWriteIsPartial(zoneName: string, remote: seq<Record>, record: Record)
    requires UniqueIds(remote) && forall i :: 0 <= i < |remote| ==> remote[i].id != record.id
    ensures Partial([ToModelRecord(zoneName, record)], zoneName, remote + [record])
    ensures Complete([ToModelRecord(zoneName, record)], zoneName, remote + [record]) <==> remote == []
  {
    CreateKeeps([], zoneName, remote, record);
    assert [] + [ToModelRecord(zoneName, record)] == [ToModelRecord(zoneName, record)];
    if remote != [] {
      var mapped := ToModelRecords(zoneName, remote + [record]);
      assert mapped[0].id == remote[0].id && mapped[0] in mapped;
    } else {
      assert [] + [record] == [record];
    }
  }

  /* ---------- The service ---------- */

  /** The provider's list has grown by the record that `r` shows. */
  ghost predicate CreatedAs(zoneName: string, before: seq<Record>, after: seq<Record>, r: DnsRecord) {
    exists record :: r == ToModelRecord(zoneName, record) && after == before + [record]
  }

  /** The record that `r` shows has taken the place of the one with its id in the provider's list. */
  ghost predicate UpdatedAs(zoneName: string, before: seq<Record>, after: seq<Record>, r: DnsRecord) {
    exists record :: r == ToModelRecord(zoneName, record) && Overwritten(before, after, record)
  }

  /** What the cache says of zone `n` is true. */
  ghost predicate CacheOk(records: map<string, seq<DnsRecord>>, listed: set<string>,
                          zoneIds: map<string, string>, remote: map<string, seq<Record>>, n: string)
  {
    && (n in records ==>
          n in zoneIds && zoneIds[n] in remote && Partial(records[n], n, remote[zoneIds[n]]))
    && (n in listed ==> n in records && Complete(records[n], n, remote[zoneIds[n]]))
  }

  ghost predicate Agrees(records: map<string, seq<DnsRecord>>, listed: set<string>,
                         zoneIds: map<string, string>, remote: map<string, seq<Record>>)
  {
    forall n {:trigger CacheOk(records, listed, zoneIds, remote, n)} :: CacheOk(records, listed, zoneIds, remote, n)
  }

  /** A new list for zone `n`, with or without a change of that zone at the provider, leaves the others alone. */
  lemma ChangeKeeps(records: map<string, seq<DnsRecord>>, listed: set<string>, nowListed: set<string>,
                    zoneIds: map<string, string>, remote: map<string, seq<Record>>, after: map<string, seq<Record>>,
                    n: string, cached: seq<DnsRecord>)
    requires Distinguishes(zoneIds) && Agrees(records, listed, zoneIds, remote)
    requires n in zoneIds && zoneIds[n] in after && after == remote[zoneIds[n] := after[zoneIds[n]]]
    requires listed <= nowListed <= listed + {n}
    requires Partial(cached, n, after[zoneIds[n]]) && (n in nowListed ==> Complete(cached, n, after[zoneIds[n]]))
    ensures Agrees(records[n := cached], nowListed, zoneIds, after)
  {
    var now := records[n := cached];
    forall m: string
      ensures CacheOk(now, nowListed, zoneIds, after, m)
    {
      assert CacheOk(records, listed, zoneIds, remote, m);
    }
  }

  lemma BothIds(cached: seq<DnsRecord>, zoneName: string, remote: seq<Record>)
    requires Partial(cached, zoneName, remote)
    ensures forall i :: 0 <= i < |cached| ==> cached[i].providerRecordId == cached[i].id
  {
    forall i | 0 <= i < |cached|
      ensures cached[i].providerRecordId == cached[i].id
    {
      assert cached[i] in ToModelRecords(zoneName, remote);
    }
  }

  function CachedIn(records: map<string, seq<DnsRecord>>, n: string): seq<DnsRecord> {
    if n in records then records[n] else []
  }

  predicate Distinguishes(zoneIds: map<string, string>) {
    forall a, b :: a in zoneIds && b in zoneIds && zoneIds[a] == zoneIds[b] ==> a == b
  }

  /** Zone `n` is one of the provider's, and the only one that differs between two moments. */
  ghost predicate OnlyZone(zoneIds: map<string, string>, remote: map<string, seq<Record>>,
                           after: map<string, seq<Record>>, n: string)
  {
    && Distinguishes(zoneIds) && n in zoneIds && zoneIds[n] in remote && zoneIds[n] in after
    && after == remote[zoneIds[n] := after[zoneIds[n]]] && UniqueIds(remote[zoneIds[n]])
  }

  lemma CreateAgrees(records: map<string, seq<DnsRecord>>, listed: set<string>, zoneIds: map<string, string>,
                     remote: map<string, seq<Record>>, after: map<string, seq<Record>>, n: string, record: Record)
    requires Agrees(records, listed, zoneIds, remote) && OnlyZone(zoneIds, remote, after, n)
    requires after[zoneIds[n]] == remote[zoneIds[n]] + [record]
    requires forall i :: 0 <= i < |remote[zoneIds[n]]| ==> remote[zoneIds[n]][i].id != record.id
    ensures Agrees(records[n := CachedIn(records, n) + [ToModelRecord(n, record)]], listed, zoneIds, after)
  {
    assert CacheOk(records, listed, zoneIds, remote, n);
    CreateKeeps(CachedIn(records, n), n, remote[zoneIds[n]], record);
    ChangeKeeps(records, listed, listed, zoneIds, remote, after, n, CachedIn(records, n) + [ToModelRecord(n, record)]);
  }

  lemma UpdateAgrees(records: map<string, seq<DnsRecord>>, listed: set<string>, zoneIds: map<string, string>,
                     remote: map<string, seq<Record>>, after: map<string, seq<Record>>, n: string, record: Record)
    requires Agrees(records, listed, zoneIds, remote) && OnlyZone(zoneIds, remote, after, n)
    requires Overwritten(remote[zoneIds[n]], after[zoneIds[n]], record)
    ensures Agrees(records[n := Replaced(CachedIn(records, n), ToModelRecord(n, record))], listed, zoneIds, after)
    ensures forall i :: 0 <= i < |CachedIn(records, n)| ==>
      CachedIn(records, n)[i].providerRecordId == CachedIn(records, n)[i].id
  {
    assert CacheOk(records, listed, zoneIds, remote, n);
    BothIds(CachedIn(records, n), n, remote[zoneIds[n]]);
    UpdateKeeps(CachedIn(records, n), n, remote[zoneIds[n]], after[zoneIds[n]], record);
    ChangeKeeps(records, listed, listed, zoneIds, remote, after, n,
                Replaced(CachedIn(records, n), ToModelRecord(n, record)));
  }

  lemma DeleteAgrees(records: map<string, seq<DnsRecord>>, listed: set<string>, zoneIds: map<string, string>,
                     remote: map<string, seq<Record>>, after: map<string, seq<Record>>, n: string, id: RecordId)
    requires Agrees(records, listed, zoneIds, remote) && OnlyZone(zoneIds, remote, after, n)
    requires Removed(remote[zoneIds[n]], after[zoneIds[n]], id)
    ensures Agrees(records[n := Without(CachedIn(records, n), id)], listed, zoneIds, after)
  {
    assert CacheOk(records, listed, zoneIds, remote, n);
    DeleteKeeps(CachedIn(records, n), n, remote[zoneIds[n]], after[zoneIds[n]], id);
    ChangeKeeps(records, listed, listed, zoneIds, remote, after, n, Without(CachedIn(records, n), id));
  }

  function Failure<T>(r: Result<T>): Option<Error> {
    if r.Err? then Some(r.error) else None
  }

  datatype ZoneMeta = ZoneMeta(name: string, providerZoneId: string)

  /** `listed` are the zones whose records have been fetched since the configuration was loaded. */
  class Service {
    const provider: Provider
    var token: string
    var zoneNames: seq<string>
    var zones: map<string, string>
    var records: map<string, seq<DnsRecord>>
    ghost var listed: set<string>

    ghost predicate ZonesOk()
      reads this, provider
    {
      forall n :: n in zones ==> n in provider.zoneIds && zones[n] == provider.zoneIds[n]
    }

    /** Every cached zone is part of the provider's, and every listed one is all of it. */
    ghost predicate Valid()
      reads this, provider
    {
      provider.Valid() && ZonesOk() && Agrees(records, listed, provider.zoneIds, provider.remote)
    }

    constructor (provider: Provider, token: string, zoneNames: seq<string>)
      requires provider.Valid()
      ensures Valid() && this.provider == provider && this.token == token && this.zoneNames == zoneNames
      ensures records == map[] && listed == {}
    {
      this.provider, this.token, this.zoneNames := provider, token, zoneNames;
      zones, records, listed := map[], map[], {};
    }

    /** The cached list of zone `n` is the provider's, in some order. */
    ghost predicate CachesAllOf(n: string)
      reads this, provider
    {
      && n in records && n in provider.zoneIds && provider.zoneIds[n] in provider.remote
      && Complete(records[n], n, provider.remote[provider.zoneIds[n]])
    }

    /** A reload forgets everything. */
    method Replace(token: string, zoneNames: seq<string>)
      requires Valid()
      modifies this
      ensures Valid() && records == map[] && listed == {}
      ensures this.token == Text.TrimSpace(token) && this.zoneNames == zoneNames
    {
      this.token, this.zoneNames := Text.TrimSpace(token), zoneNames;
      zones, records, listed := map[], map[], {};
    }

    /** What keeps the service from a zone, if nothing else goes wrong. */
    ghost function Refusal(zoneName: string): Option<Error>
      reads this
    {
      var n := NormalizeZone(zoneName);
      if n in zones || (n in zoneNames && n in provider.zoneIds) then None else Some(NotFound)
    }

    /** The zone was found, or else was refused, or the provider has failed. */
    ghost predicate Looked(r: Result<ZoneMeta>, zoneName: string, refusal: Option<Error>, before: map<string, string>)
      reads this, provider
    {
      var n := NormalizeZone(zoneName);
      if r.Err? then zones == before && Justified(refusal, Some(r.error))
      else
        && refusal.None? && n in provider.zoneIds && r.value == ZoneMeta(n, provider.zoneIds[n])
        && zones == before[n := provider.zoneIds[n]]
    }

    /** A failure is the refusal that was due, unless the provider has failed before that was known. */
    ghost predicate Justified(refusal: Option<Error>, failure: Option<Error>)
      reads provider
    {
      || failure == refusal
      || (provider.broken && failure == Some(ProviderFailed) && (refusal.None? || refusal == Some(NotFound)))
    }

    /** The provider's name for a zone. */
    function ZoneIdOf(zoneName: string): string {
      var n := NormalizeZone(zoneName);
      if n in provider.zoneIds then provider.zoneIds[n] else ""
    }

    /** The provider has no such record in the zone. */
    ghost predicate Missing(zoneName: string, id: RecordId)
      reads provider
    {
      ZoneIdOf(zoneName) in provider.remote && !HasId(provider.remote[ZoneIdOf(zoneName)], id)
    }

    /**
     A change past the checks was asked of the provider, just as it was to be, and a refused one was not. A change
     fails if it is refused, if its record is missing, or if the provider fails.
     */
    ghost predicate Asked(refusal: Option<Error>, missing: bool, failure: Option<Error>, before: seq<Write>, write: Write)
      reads provider
    {
      if refusal.Some? then provider.writes == before && failure.Some? && Justified(refusal, failure)
      else
        && (failure.None? ==> provider.writes == before + [write] && !missing)
        && (failure.Some? ==> failure == Some(ProviderFailed) && (provider.broken || missing))
        && (provider.writes == before + [write] || (provider.writes == before && provider.broken))
    }

    method EnsureZone(zoneName: string) returns (r: Result<ZoneMeta>)
      requires Valid()
      modifies this`zones, provider`broken
      ensures Valid() && (old(provider.broken) ==> provider.broken)
      ensures Looked(r, zoneName, old(Refusal(zoneName)), old(zones))
      ensures NormalizeZone(zoneName) !in zoneNames ==> provider.broken == old(provider.broken)
    {
      var name := NormalizeZone(zoneName);
      if name in zones {
        return Ok(ZoneMeta(name, zones[name]));
      }
      var allowed := false;
      for i := 0 to |zoneNames|
        invariant !allowed ==> name !in zoneNames[..i]
        invariant allowed ==> name in zoneNames
      {
        if zoneNames[i] == name {
          allowed := true;
          break;
        }
      }
      if !allowed {
        assert zoneNames[..|zoneNames|] == zoneNames;
        return Err(NotFound);
      }
      var remote := provider.FindZone(name);
      if remote.Err? {
        return Err(remote.error);
      }
      zones := zones[name := remote.value];
      return Ok(ZoneMeta(name, remote.value));
    }

    /** The same for a zone that the provider is to be asked about, for which it takes a token. */
    ghost function Refused(zoneName: string): Option<Error>
      reads this
    {
      if token == "" then Some(NotConfigured) else Refusal(zoneName)
    }

    method ProviderForZone(zoneName: string) returns (r: Result<ZoneMeta>)
      requires Valid()
      modifies this`zones, provider`broken
      ensures Valid() && (old(provider.broken) ==> provider.broken)
      ensures Looked(r, zoneName, old(Refused(zoneName)), old(zones))
    {
      if token == "" {
        return Err(NotConfigured);
      }
      r := EnsureZone(zoneName);
    }

    /** Fetches a zone: on success the cache is the provider's list, on failure nothing has changed. */
    method RefreshZone(zoneName: string) returns (r: Result<seq<DnsRecord>>)
      requires Valid()
      modifies this`zones, this`records, this`listed, provider`broken
      ensures Valid() && (old(provider.broken) ==> provider.broken)
      ensures Justified(old(Refused(zoneName)), Failure(r))
      ensures r.Ok? ==>
        var n := NormalizeZone(zoneName);
        n in provider.zoneIds && r.value == ToModelRecords(n, provider.remote[provider.zoneIds[n]]) &&
        records == old(records)[n := r.value] && listed == old(listed) + {n}
      ensures r.Err? ==> records == old(records) && listed == old(listed)
    {
      var name := NormalizeZone(zoneName);
      NormalizeIsIdempotent(zoneName);
      var meta := ProviderForZone(name);
      if meta.Err? {
        return Err(meta.error);
      }
      var remote := provider.ListRecords(meta.value.providerZoneId);
      if remote.Err? {
        return Err(remote.error);
      }
      var fetched := ConvertAll(name, remote.value);
      FreshIsComplete(name, remote.value);
      zones := zones[name := meta.value.providerZoneId];
      ChangeKeeps(records, listed, listed + {name}, provider.zoneIds, provider.remote, provider.remote, name, fetched);
      records := records[name := fetched];
      listed := listed + {name};
      return Ok(fetched);
    }

    /** What is cached, or else what is fetched; complete unless only writes have filled the cache. */
    method ListRecords(zoneName: string) returns (r: Result<seq<DnsRecord>>)
      requires Valid()
      modifies this`zones, this`records, this`listed, provider`broken
      ensures Valid() && listed >= old(listed) && (old(provider.broken) ==> provider.broken)
      ensures NormalizeZone(zoneName) !in old(records) ==> Justified(old(Refused(zoneName)), Failure(r))
      ensures r.Ok? ==>
        var n := NormalizeZone(zoneName);
        n in provider.zoneIds && Partial(r.value, n, provider.remote[provider.zoneIds[n]]) &&
        (n in old(listed) || n !in old(records) ==> Complete(r.value, n, provider.remote[provider.zoneIds[n]]))
      ensures NormalizeZone(zoneName) in old(records) ==>
        r == Ok(old(records)[NormalizeZone(zoneName)]) && records == old(records)
      ensures r.Err? ==> records == old(records)
    {
      var name := NormalizeZone(zoneName);
      if name in records {
        assert CacheOk(records, listed, provider.zoneIds, provider.remote, name);
        return Ok(records[name]);
      }
      NormalizeIsIdempotent(zoneName);
      r := RefreshZone(name);
      if r.Ok? {
        FreshIsComplete(name, provider.remote[provider.zoneIds[name]]);
      }
    }

    method CreateRecord(zoneName: string, input: RecordInput, valid: bool) returns (r: Result<DnsRecord>)
      requires Valid()
      modifies this`zones, this`records, provider
      ensures Valid()
      ensures !valid ==> r == Err(InvalidInput)
      ensures r.Ok? ==>
        var n := NormalizeZone(zoneName);
        records == old(records)[n := CachedIn(old(records), n) + [r.value]] && n in provider.zoneIds &&
        provider.remote == old(provider.remote)[provider.zoneIds[n] := provider.remote[provider.zoneIds[n]]] &&
        CreatedAs(n, old(provider.remote[provider.zoneIds[n]]), provider.remote[provider.zoneIds[n]], r.value)
      ensures r.Err? ==> records == old(records) && provider.remote == old(provider.remote)
      ensures Asked(if valid then old(Refused(zoneName)) else Some(InvalidInput), false, Failure(r), old(provider.writes),
                    Creation(ZoneIdOf(zoneName), input))
      ensures old(provider.broken) ==> provider.broken
    {
      if !valid {
        return Err(InvalidInput);
      }
      var meta := ProviderForZone(zoneName);
      if meta.Err? {
        return Err(meta.error);
      }
      var name, zoneId := meta.value.name, meta.value.providerZoneId;
      ghost var before := provider.remote;
      var remote := provider.CreateRecord(zoneId, input);
      if remote.Err? {
        return Err(remote.error);
      }
      var record := ToModelRecord(name, remote.value);
      CreateAgrees(records, listed, provider.zoneIds, before, provider.remote, name, remote.value);
      records := records[name := CachedIn(records, name) + [record]];
      return Ok(record);
    }

    method UpdateRecord(zoneName: string, recordId: RecordId, input: RecordInput, valid: bool)
      returns (r: Result<DnsRecord>)
      requires Valid()
      modifies this`zones, this`records, provider
      ensures Valid()
      ensures !valid ==> r == Err(InvalidInput)
      ensures r.Ok? ==>
        var n := NormalizeZone(zoneName);
        records == old(records)[n := Replaced(CachedIn(old(records), n), r.value)] && n in provider.zoneIds &&
        provider.remote == old(provider.remote)[provider.zoneIds[n] := provider.remote[provider.zoneIds[n]]] &&
        r.value.id == recordId &&
        UpdatedAs(n, old(provider.remote[provider.zoneIds[n]]), provider.remote[provider.zoneIds[n]], r.value)
      ensures r.Err? ==> records == old(records) && provider.remote == old(provider.remote)
      ensures Asked(if valid then old(Refused(zoneName)) else Some(InvalidInput), old(Missing(zoneName, recordId)),
                    Failure(r), old(provider.writes), Change(ZoneIdOf(zoneName), recordId, input))
      ensures old(provider.broken) ==> provider.broken
    {
      if !valid {
        return Err(InvalidInput);
      }
      var meta := ProviderForZone(zoneName);
      if meta.Err? {
        return Err(meta.error);
      }
      var name, zoneId := meta.value.name, meta.value.providerZoneId;
      ghost var before := provider.remote;
      var cached := CachedIn(records, name);
      var remote := provider.UpdateRecord(zoneId, recordId, input);
      if remote.Err? {
        return Err(remote.error);
      }
      var record := ToModelRecord(name, remote.value);
      UpdateAgrees(records, listed, provider.zoneIds, before, provider.remote, name, remote.value);
      var replaced := ReplaceFirst(cached, recordId, record);
      records := records[name := replaced];
      return Ok(record);
    }

    method DeleteRecord(zoneName: string, recordId: RecordId) returns (r: Result<()>)
      requires Valid()
      modifies this`zones, this`records, provider
      ensures Valid()
      ensures r.Ok? ==>
        var n := NormalizeZone(zoneName);
        records == old(records)[n := Without(CachedIn(old(records), n), recordId)] && n in provider.zoneIds &&
        provider.remote == old(provider.remote)[provider.zoneIds[n] := provider.remote[provider.zoneIds[n]]] &&
        Removed(old(provider.remote[provider.zoneIds[n]]), provider.remote[provider.zoneIds[n]], recordId)
      ensures r.Err? ==> records == old(records) && provider.remote == old(provider.remote)
      ensures Asked(old(Refused(zoneName)), old(Missing(zoneName, recordId)), Failure(r), old(provider.writes),
                    Deletion(ZoneIdOf(zoneName), recordId))
      ensures old(provider.broken) ==> provider.broken
    {
      var meta := ProviderForZone(zoneName);
      if meta.Err? {
        return Err(meta.error);
      }
      var name, zoneId := meta.value.name, meta.value.providerZoneId;
      ghost var before := provider.remote;
      var cached := CachedIn(records, name);
      var deleted := provider.DeleteRecord(zoneId, recordId);
      if deleted.Err? {
        return deleted;
      }
      DeleteAgrees(records, listed, provider.zoneIds, before, provider.remote, name, recordId);
      var next := Filter(cached, recordId);
      records := records[name := next];
      return Ok(());
    }
  }

  method ConvertAll(zoneName: string, remote: seq<Record>) returns (records: seq<DnsRecord>)
    ensures records == ToModelRecords(zoneName, remote)
  {
    records := [];
    for i := 0 to |remote|
      invariant records == ToModelRecords(zoneName, remote[..i])
    {
      records := records + [ToModelRecord(zoneName, remote[i])];
    }
    assert remote[..|remote|] == remote;
  }

  /** Replaces the record with this id where it stands, or appends. */
  method ReplaceFirst(records: seq<DnsRecord>, recordId: RecordId, record: DnsRecord) returns (result: seq<DnsRecord>)
    requires record.id == recordId && forall i :: 0 <= i < |records| ==> records[i].providerRecordId == records[i].id
    ensures result == Replaced(records, record)
  {
    result := records;
    for i := 0 to |records|
      invariant result == records && forall j :: 0 <= j < i ==> records[j].id != recordId
    {
      if result[i].providerRecordId == recordId || result[i].id == recordId {
        ReplacedAt(records, record, i);
        result := result[i := record];
        return;
      }
    }
    ReplacedAt(records, record, |records|);
    result := result + [record];
  }

  method Filter(records: seq<DnsRecord>, recordId: RecordId) returns (next: seq<DnsRecord>)
    ensures next == Without(records, recordId)
  {
    next := [];
    for i := 0 to |records|
      invariant next == Without(records[..i], recordId)
    {
      assert records[..i + 1][..i] == records[..i];
      if records[i].providerRecordId == recordId || records[i].id == recordId {
        continue;
      }
      next := next + [records[i]];
    }
    assert records[..|records|] == records;
  }

  /* ---------- All sequential runs ---------- */

  datatype Request =
    | List(zone: string)
    | Refresh(zone: string)
    | Create(zone: string, input: RecordInput, valid: bool)
    | Update(zone: string, id: RecordId, input: RecordInput, valid: bool)
    | Delete(zone: string, id: RecordId)
    | Reload(token: string, zoneNames: seq<string>)

  /**
   Whatever is asked, in whatever order, with whatever failures: a zone that was listed since the last reload
   has a cache that equals the provider's records, and every other cached zone a part of them.
   */
  method Serve(s: Service, requests: seq<Request>)
    requires s.Valid()
    modifies s, s.provider
    ensures s.Valid() && forall n :: n in s.listed ==> s.CachesAllOf(n)
    ensures (forall i :: 0 <= i < |requests| ==> !requests[i].Reload?) ==> s.listed >= old(s.listed)
  {
    for i := 0 to |requests|
      invariant s.Valid()
      invariant (forall j :: 0 <= j < i ==> !requests[j].Reload?) ==> s.listed >= old(s.listed)
    {
      match requests[i] {
        case List(zone) => var _ := s.ListRecords(zone);
        case Refresh(zone) => var _ := s.RefreshZone(zone);
        case Create(zone, input, valid) => var _ := s.CreateRecord(zone, input, valid);
        case Update(zone, id, input, valid) => var _ := s.UpdateRecord(zone, id, input, valid);
        case Delete(zone, id) => var _ := s.DeleteRecord(zone, id);
        case Reload(token, zoneNames) => s.Replace(token, zoneNames);
      }
    }
    forall n | n in s.listed
      ensures s.CachesAllOf(n)
    {
      assert CacheOk(s.records, s.listed, s.provider.zoneIds, s.provider.remote, n);
    }
  }
}
