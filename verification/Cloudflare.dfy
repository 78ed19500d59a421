/** The DNS provider as its client sees it: zones of records with unique ids, listed page by page. */
module Cloudflare {

  datatype Result<+T> = Ok(value: T) | Err(error: Error)

  datatype Option<+T> = None | Some(value: T)

  datatype Error = NotConfigured | NotFound | InvalidInput | ProviderFailed

  type RecordId = nat

  datatype RecordInput = RecordInput(kind: string, name: string, content: string, ttl: int)

  datatype Record = Record(id: RecordId, data: RecordInput)

  const PER_PAGE: nat := 100

  predicate UniqueIds(records: seq<Record>) {
    forall i, j :: 0 <= i < j < |records| ==> records[i].id != records[j].id
  }

  /** `record` has taken the place of the one with its id. */
  ghost predicate Overwritten(before: seq<Record>, after: seq<Record>, record: Record) {
    exists k :: 0 <= k < |before| && before[k].id == record.id && after == before[k := record]
  }

  /** The record with this id has gone. */
  ghost predicate Removed(before: seq<Record>, after: seq<Record>, id: RecordId) {
    exists k :: 0 <= k < |before| && before[k].id == id && after == before[..k] + before[k + 1..]
  }

  function PageStart(records: seq<Record>, page: nat): nat
    requires page >= 1
  {
    if (page - 1) * PER_PAGE < |records| then (page - 1) * PER_PAGE else |records|
  }

  function Page(records: seq<Record>, page: nat): seq<Record>
    requires page >= 1
  {
    records[PageStart(records, page)..PageStart(records, page + 1)]
  }

  function TotalPages(records: seq<Record>): nat {
    (|records| + PER_PAGE - 1) / PER_PAGE
  }

  predicate HasId(records: seq<Record>, id: RecordId) {
    exists i :: 0 <= i < |records| && records[i].id == id
  }

  /** What the provider was asked to do. */
  datatype Write =
    | Creation(zoneId: string, input: RecordInput)
    | Change(zoneId: string, id: RecordId, input: RecordInput)
    | Deletion(zoneId: string, id: RecordId)

  /** A call may fail, which `broken` remembers; it has no effect then. `writes` are the calls for a change. */
  class Provider {
    const zoneIds: map<string, string>
    var remote: map<string, seq<Record>>
    var nextId: RecordId
    ghost var broken: bool
    ghost var writes: seq<Write>

    ghost predicate Valid()
      reads this
    {
      && (forall a, b :: a in zoneIds && b in zoneIds && zoneIds[a] == zoneIds[b] ==> a == b)
      && (forall name :: name in zoneIds ==> zoneIds[name] in remote)
      && (forall z :: z in remote ==> UniqueIds(remote[z]))
      && forall z, i :: z in remote && 0 <= i < |remote[z]| ==> remote[z][i].id < nextId
    }

    constructor (zoneIds: map<string, string>)
      requires forall a, b :: a in zoneIds && b in zoneIds && zoneIds[a] == zoneIds[b] ==> a == b
      ensures Valid() && this.zoneIds == zoneIds
    {
      this.zoneIds := zoneIds;
      remote, nextId := map z | z in zoneIds.Values :: [], 0;
      broken, writes := false, [];
    }

    method Fails() returns (failed: bool)
      modifies this`broken
      ensures broken <==> old(broken) || failed
    {
      failed := *;
      broken := broken || failed;
    }

    method FindZone(name: string) returns (r: Result<string>)
      modifies this`broken
      ensures r == Err(ProviderFailed) ==> broken
      ensures r != Err(ProviderFailed) ==>
        r == (if name in zoneIds then Ok(zoneIds[name]) else Err(NotFound)) && broken == old(broken)
    {
      var failed := Fails();
      if failed {
        return Err(ProviderFailed);
      }
      return if name in zoneIds then Ok(zoneIds[name]) else Err(NotFound);
    }

    /** One page, and the number of pages if the answer tells it. */
    method FetchPage(zoneId: string, page: nat) returns (r: Result<seq<Record>>, totalPages: nat)
      requires page >= 1 && zoneId in remote
      modifies this`broken
      ensures r.Ok? ==> r.value == Page(remote[zoneId], page)
      ensures broken == (old(broken) || r.Err?) && (r.Err? ==> r == Err(ProviderFailed))
      ensures totalPages == 0 || totalPages == TotalPages(remote[zoneId])
    {
      var failed := Fails();
      var told: bool := *;
      totalPages := if told then TotalPages(remote[zoneId]) else 0;
      r := if failed then Err(ProviderFailed) else Ok(Page(remote[zoneId], page));
    }

    /** All pages of a zone that stands still, put together, are its records, whether or not answers tell the count. */
    method ListRecords(zoneId: string) returns (r: Result<seq<Record>>)
      requires zoneId in remote
      modifies this`broken
      ensures r.Ok? ==> r.value == remote[zoneId]
      ensures broken == (old(broken) || r.Err?) && (r.Err? ==> r == Err(ProviderFailed))
    {
      var records: seq<Record>, page := [], 1;
      while true
        invariant page >= 1 && (page - 1) * PER_PAGE <= |remote[zoneId]|
        invariant records == remote[zoneId][..(page - 1) * PER_PAGE] && broken == old(broken)
        decreases |remote[zoneId]| - (page - 1) * PER_PAGE
      {
        var pageRecords, totalPages := FetchPage(zoneId, page);
        if pageRecords.Err? {
          return pageRecords;
        }
        records := records + pageRecords.value;
        assert records == remote[zoneId][..PageStart(remote[zoneId], page + 1)];
        if totalPages > 0 {
          if page >= totalPages {
            break;
          }
        } else if |pageRecords.value| < PER_PAGE {
          break;
        }
        page := page + 1;
      }
      return Ok(records);
    }

    /** The provider stores the record in a form of its own, under a new id, and returns what it stored. */
    method CreateRecord(zoneId: string, input: RecordInput) returns (r: Result<Record>)
      requires Valid() && zoneId in remote
      modifies this
      ensures Valid() && remote.Keys == old(remote.Keys)
      ensures r.Ok? ==> remote == old(remote)[zoneId := old(remote[zoneId]) + [r.value]]
      ensures r.Ok? ==> forall i :: 0 <= i < |old(remote[zoneId])| ==> old(remote[zoneId])[i].id != r.value.id
      ensures r.Err? ==> remote == old(remote) && r == Err(ProviderFailed)
      ensures writes == old(writes) + [Creation(zoneId, input)] && broken == (old(broken) || r.Err?)
    {
      writes := writes + [Creation(zoneId, input)];
      var failed := Fails();
      if failed {
        return Err(ProviderFailed);
      }
      var stored: RecordInput := *;
      var record := Record(nextId, stored);
      remote := remote[zoneId := remote[zoneId] + [record]];
      nextId := nextId + 1;
      return Ok(record);
    }

    method UpdateRecord(zoneId: string, id: RecordId, input: RecordInput) returns (r: Result<Record>)
      requires Valid() && zoneId in remote
      modifies this
      ensures Valid() && remote.Keys == old(remote.Keys)
      ensures r.Ok? ==> r.value.id == id
      ensures r.Ok? ==> Overwritten(old(remote[zoneId]), remote[zoneId], r.value)
      ensures r.Ok? ==> remote == old(remote)[zoneId := remote[zoneId]]
      ensures r.Err? ==> remote == old(remote) && r == Err(ProviderFailed)
      ensures r.Err? ==> broken || !HasId(remote[zoneId], id)
      ensures writes == old(writes) + [Change(zoneId, id, input)] && (old(broken) ==> broken)
    {
      writes := writes + [Change(zoneId, id, input)];
      var failed := Fails();
      if failed {
        return Err(ProviderFailed);
      }
      var records := remote[zoneId];
      for k := 0 to |records|
        invariant remote == old(remote) && Valid() && forall j :: 0 <= j < k ==> records[j].id != id
      {
        if records[k].id == id {
          var stored: RecordInput := *;
          remote := remote[zoneId := records[k := Record(id, stored)]];
          return Ok(Record(id, stored));
        }
      }
      return Err(ProviderFailed);
    }

    method DeleteRecord(zoneId: string, id: RecordId) returns (r: Result<()>)
      requires Valid() && zoneId in remote
      modifies this
      ensures Valid() && remote.Keys == old(remote.Keys)
      ensures r.Ok? ==> Removed(old(remote[zoneId]), remote[zoneId], id)
      ensures r.Ok? ==> remote == old(remote)[zoneId := remote[zoneId]]
      ensures r.Err? ==> remote == old(remote) && r == Err(ProviderFailed)
      ensures r.Err? ==> broken || !HasId(remote[zoneId], id)
      ensures writes == old(writes) + [Deletion(zoneId, id)] && (old(broken) ==> broken)
    {
      writes := writes + [Deletion(zoneId, id)];
      var failed := Fails();
      if failed {
        return Err(ProviderFailed);
      }
      var records := remote[zoneId];
      for k := 0 to |records|
        invariant remote == old(remote) && Valid() && forall j :: 0 <= j < k ==> records[j].id != id
      {
        if records[k].id == id {
          remote := remote[zoneId := records[..k] + records[k + 1..]];
          return Ok(());
        }
      }
      return Err(ProviderFailed);
    }
  }
}
