/**
 * The download service as an object: its methods act on the disk one
 * file-system action at a time, and the disks they leave behind are exactly the
 * sequences DownloadStorage reasons about.
 */
module DownloadService {
  import opened Wrappers
  import opened DownloadStorage

  datatype Result<+T> = Success(value: T) | Failure

  // The record is the request's, made when it was answered, for the time to live.
  predicate Describes(record: Record, r: Request, ttl: nat) {
    && record.id == r.id && record.owner == r.owner && record.encoded == r.encoded
    && record.createdAt == r.now && record.expiresAt == r.now + ttl
  }

  class DownloadStore {
    const limits: Limits
    var files: map<Path, nat>
    var index: Index
    ghost var trace: seq<Disk>  // the disk after each action so far

    ghost function Disk(): DownloadStorage.Disk
      reads this
    {
      DownloadStorage.Disk(files, index)
    }

    constructor (limits: Limits)
      ensures this.limits == limits && Disk() == DownloadStorage.Disk(map[], map[]) && trace == []
    {
      this.limits := limits;
      files, index, trace := map[], map[], [];
    }

    // The two kinds of action: one changes the files, one replaces the index.
    method Files(changed: map<Path, nat>)
      modifies this`files, this`trace
      ensures files == changed && trace == old(trace) + [Disk()]
    {
      files := changed;
      trace := trace + [Disk()];
    }

    method ReplaceIndex(changed: Index)
      modifies this`index, this`trace
      ensures index == changed && trace == old(trace) + [Disk()]
    {
      index := changed;
      trace := trace + [Disk()];
    }

    method SumUp(m: Measure) returns (total: nat)
      ensures total == Total(index, m)
    {
      total := 0;
      var rest := index.Keys;
      while rest != {}
        invariant rest <= index.Keys
        invariant total + SumOf(index, rest, m) == Total(index, m)
        decreases rest
      {
        var id :| id in rest;
        SumSplits(index, rest, id, m);
        total := total + Weight(index[id], m);
        rest := rest - {id};
      }
    }

    // _read_index: the file is not too long, and every entry names a file of
    // exactly its size.
    method ReadIndex() returns (accepted: bool)
      ensures accepted <==> Accepted(Disk())
    {
      var encoded := SumUp(Encoded);
      if 2 + encoded > MAX_INDEX {
        return false;
      }
      accepted := forall id | id in index ::
        index[id].id == id && index[id].size > 0 && index[id].path in files && files[index[id].path] == index[id].size;
    }

    // _transfer_budget; `free` is what the volume reports.
    method TransferBudget(free: nat) returns (budget: Result<int>)
      requires limits.Valid()
      ensures budget == if DownloadStorage.Budget(Disk(), limits, free) <= 0 then Failure
                        else Success(DownloadStorage.Budget(Disk(), limits, free))
    {
      var used := SumUp(Stored);
      var quota := limits.maxTotal - used;
      if quota <= 0 {
        return Failure;
      }
      var headroom := if free / 20 < 256 * MIB then free / 20 else 256 * MIB;
      var room := free - headroom;
      if room <= 0 {
        return Failure;
      }
      var least := if quota < room then quota else room;
      budget := Success(if limits.maxFile < least then limits.maxFile else least);
    }

    // _stream_to_file, after the part file was created empty.
    method StreamToFile(part: Path, chunks: seq<Chunk>, budget: int) returns (written: Option<nat>)
      requires part in files && files[part] == 0
      modifies this`files, this`trace
      ensures trace == old(trace) + StreamStates(old(Disk()), part, chunks, budget, 0)
      ensures written == Received(chunks, budget, 0)
      ensures written.Some? ==> files == old(files)[part := written.value]
    {
      var total: nat := 0;
      ghost var all := StreamStates(Disk(), part, chunks, budget, 0);
      assert chunks[0..] == chunks;
      for i := 0 to |chunks|
        invariant files == old(files)[part := total]
        invariant trace + StreamStates(Disk(), part, chunks[i..], budget, total) == old(trace) + all
        invariant Received(chunks[i..], budget, total) == Received(chunks, budget, 0)
      {
        StreamUnfolds(Disk(), part, chunks, i, budget, total);
        if chunks[i].None? || total + chunks[i].value > budget {
          Files(files - {part});
          return None;
        }
        ghost var before := trace;
        total := total + chunks[i].value;
        Files(files[part := total]);
        Reassociate(before, Disk(), StreamStates(Disk(), part, chunks[i + 1..], budget, total));
      }
      assert trace + [] == trace;
      written := Some(total);
    }

    // The guarded block that enters a finished file in the index.
    method Commit(record: Record, commit: DownloadStorage.Commit) returns (entered: bool)
      requires commit != RenameFails
      modifies this`files, this`index, this`trace
      ensures trace == old(trace) + CommitStates(old(Disk()), record, commit)
      ensures entered <==> commit == Completes
      ensures entered ==> files == old(files) && index == old(index)[record.id := record]
    {
      if commit == FailsBeforeReplace {
        Files(files - {record.path});
        return false;
      }
      ReplaceIndex(index[record.id := record]);
      if commit == FailsAfterReplace {
        Files(files - {record.path});
        return false;
      }
      entered := true;
    }

    // The received part moves to its final path and is entered in the index.
    method PlaceAndCommit(r: Request, size: nat, commit: DownloadStorage.Commit, ghost start: DownloadStorage.Disk)
      returns (record: Result<Record>)
      requires commit != RenameFails && FreshFor(start, r) && Disk() == Receiving(start, r, size)
      modifies this
      ensures trace == old(trace)
                       + ([Placed(start, r, size)]
                          + CommitStates(Placed(start, r, size),
                                         NewRecord(r, FinalPath(start, r), size, limits), commit))
      ensures record.Success? <==> commit == Completes
      ensures record.Success? ==> index == start.index[r.id := record.value]
                                  && record.value.size == size && record.value.path in files
                                  && files[record.value.path] == size
      ensures record.Success? ==> Describes(record.value, r, limits.ttl)
    {
      var final := if Named(r.owner, r.name) in files then Prefixed(r.owner, r.id, r.name) else Named(r.owner, r.name);
      Files((files - {Part(r.owner, r.id)})[final := size]);
      assert Disk() == Placed(start, r, size);
      var entry := Record(r.id, r.owner, final, size, r.now, r.now + limits.ttl, r.encoded);
      var entered := Commit(entry, commit);
      record := if entered then Success(entry) else Failure;
    }

    // The download into a fresh part file; None when it is refused or fails.
    method Receive(r: Request, free: nat, chunks: seq<Chunk>) returns (size: Option<nat>, ghost budget: int)
      requires limits.Valid() && FreshFor(Disk(), r)
      modifies this`files, this`trace
      ensures budget == DownloadStorage.Budget(old(Disk()), limits, free)
      ensures var start := old(Disk());
              if !Accepted(start) || budget <= 0 then
                size.None? && trace == old(trace)
              else
                && size == Received(chunks, budget, 0)
                && (size.Some? ==> Disk() == Receiving(start, r, size.value))
                && trace == old(trace) + ([Receiving(start, r, 0)]
                            + StreamStates(Receiving(start, r, 0), Part(r.owner, r.id), chunks, budget, 0))
    {
      ghost var start := Disk();
      budget := DownloadStorage.Budget(start, limits, free);
      var accepted := ReadIndex();
      if !accepted {
        return None, budget;
      }
      var allowed := TransferBudget(free);
      if allowed.Failure? {
        return None, budget;
      }
      var part := Part(r.owner, r.id);
      Files(files[part := 0]);
      size := StreamToFile(part, chunks, allowed.value);
      if size.Some? {
        assert Disk() == Receiving(start, r, size.value);
      }
      Reassociate(old(trace), Receiving(start, r, 0), StreamStates(Receiving(start, r, 0), part, chunks, budget, 0));
    }

    // _fetch_locked from the first index read on.
    method Fetch(r: Request, free: nat, chunks: seq<Chunk>, commit: DownloadStorage.Commit)
      returns (record: Result<Record>)
      requires limits.Valid() && FreshFor(Disk(), r)
      modifies this
      ensures trace == old(trace) + FetchStates(old(Disk()), limits, r, free, chunks, commit)
      ensures record.Success? ==> commit == Completes && index == old(index)[r.id := record.value]
                                  && record.value.path in files && files[record.value.path] == record.value.size
      ensures record.Success? ==> Describes(record.value, r, limits.ttl)
    {
      ghost var start := Disk();
      var size, budget := Receive(r, free, chunks);
      if size.None? || commit == RenameFails {
        return Failure;
      }
      record := PlaceAndCommit(r, size.value, commit, start);
    }

    // _fetch_media_locked from the budget on; `size` is the size of the one
    // file the extractor left.
    method FetchMedia(r: Request, free: nat, size: nat, commit: DownloadStorage.Commit)
      returns (record: Result<Record>)
      requires limits.Valid() && FreshFor(Disk(), r)
      modifies this
      ensures trace == old(trace) + MediaStates(old(Disk()), limits, r, free, size, commit)
      ensures record.Success? ==> commit == Completes && index == old(index)[r.id := record.value]
                                  && record.value.path in files && files[record.value.path] == record.value.size
      ensures record.Success? ==> Describes(record.value, r, limits.ttl)
    {
      var accepted := ReadIndex();
      if !accepted {
        return Failure;
      }
      var allowed := TransferBudget(free);
      if allowed.Failure? || !(0 < size <= allowed.value) || commit == RenameFails {
        return Failure;
      }
      var path := Prefixed(r.owner, r.id, r.name);
      Files(files[path := size]);
      var entry := Record(r.id, r.owner, path, size, r.now, r.now + limits.ttl, r.encoded);
      ghost var moved := Disk();
      var entered := Commit(entry, commit);
      Reassociate(old(trace), moved, CommitStates(moved, entry, commit));
      record := if entered then Success(entry) else Failure;
    }

    // The loop of _cleanup_expired_locked over the entries.
    method SelectRetired(order: seq<nat>, now: int, midnight: Option<int>)
      returns (shorter: Index, retired: seq<nat>, freed: nat)
      requires forall id | id in order :: id in index
      requires forall i, j | 0 <= i < j < |order| :: order[i] != order[j]
      ensures retired == Retired(index, order, now, midnight)
      ensures shorter == index - (set id | id in retired)
      ensures freed + Used(shorter) == Used(index)
    {
      shorter, retired, freed := index, [], 0;
      for i := 0 to |order|
        invariant retired == Retired(index, order[..i], now, midnight)
        invariant shorter == index - (set id | id in retired)
        invariant freed + Used(shorter) == Used(index)
      {
        var id := order[i];
        RetiredOneMore(index, order, i, now, midnight);
        assert id in order && id !in order[..i] && id !in retired;
        if Expired(index[id], now, midnight) {
          UsedAfterOne(shorter, id);
          DroppedOneMore(index, retired, id);
          freed := freed + shorter[id].size;
          shorter := shorter - {id};
          retired := retired + [id];
        }
      }
      assert order[..|order|] == order;
    }

    // _cleanup_expired_locked: commit the shorter index, then remove the files.
    // `order` is the order of the entries; `stuck` the ones whose file cannot go.
    method CleanupExpired(order: seq<nat>, now: int, midnight: Option<int>, stuck: set<nat>)
      returns (removed: nat, freed: nat)
      requires forall id :: id in order <==> id in index
      requires forall i, j | 0 <= i < j < |order| :: order[i] != order[j]
      modifies this
      ensures old(Accepted(Disk())) ==>
                var retired := Retired(old(index), order, now, midnight);
                && index == old(index) - (set id | id in retired)
                && removed == |retired|
                && freed + Used(index) == Used(old(index))
                && trace == old(trace) + if removed == 0 then [] else RetireStates(old(Disk()), retired, stuck)
      ensures old(Accepted(Disk())) ==>
                && index.Keys <= old(index).Keys
                && (forall id | id in old(index) ::
                      && (id !in index <==>
                            || old(index)[id].expiresAt <= now
                            || (midnight.Some? && old(index)[id].createdAt < midnight.value))
                      && (id in index ==> index[id] == old(index)[id]))
                && (forall path | path in old(files) ::
                      && (path !in files <==> exists id | id in old(index) ::
                            id !in index && id !in stuck && old(index)[id].path == path)
                      && (path in files ==> files[path] == old(files)[path]))
      ensures !old(Accepted(Disk())) ==> Disk() == old(Disk()) && trace == old(trace)
    {
      removed, freed := 0, 0;
      var accepted := ReadIndex();
      if !accepted {
        return;
      }
      var shorter, retired;
      shorter, retired, freed := SelectRetired(order, now, midnight);
      removed := |retired|;
      RetiredAreExpired(index, order, now, midnight);
      if removed == 0 {
        assert shorter == index;
        return;
      }
      RetireAll(shorter, retired, stuck);
    }

    method RetireAll(shorter: Index, retired: seq<nat>, stuck: set<nat>)
      requires forall id | id in retired :: id in index
      requires shorter == index - (set id | id in retired)
      modifies this
      ensures index == shorter && files == old(files) - Removed(old(index), retired, stuck)
      ensures trace == old(trace) + RetireStates(old(Disk()), retired, stuck)
    {
      ghost var start := Disk();
      var entries := index;
      ReplaceIndex(shorter);
      assert Disk() == start.(index := start.index - (set id | id in retired));
      ghost var first := Disk();
      UnlinkAll(entries, retired, stuck);
      Reassociate(old(trace), first, UnlinkStates(first, entries, retired, stuck));
    }

    method UnlinkAll(entries: Index, ids: seq<nat>, stuck: set<nat>)
      requires forall id | id in ids :: id in entries
      modifies this`files, this`trace
      ensures trace == old(trace) + UnlinkStates(old(Disk()), entries, ids, stuck)
      ensures files == old(files) - Removed(entries, ids, stuck)
    {
      ghost var all := UnlinkStates(Disk(), entries, ids, stuck);
      assert ids[0..] == ids;
      for i := 0 to |ids|
        invariant trace + UnlinkStates(Disk(), entries, ids[i..], stuck) == old(trace) + all
        invariant files == old(files) - Removed(entries, ids[..i], stuck)
      {
        UnlinkUnfolds(Disk(), entries, ids, i, stuck);
        RemovedOneMore(entries, ids, i, stuck);
        Files(if ids[i] in stuck then files else files - {entries[ids[i]].path});
      }
      assert trace + [] == trace && ids[..|ids|] == ids;
    }

    // _delete_locked for a record the caller's `get` found.
    method Delete(owner: string, id: nat, stuck: bool) returns (deleted: bool)
      modifies this
      ensures deleted <==> old(Accepted(Disk())) && id in old(index) && old(index)[id].owner == owner
      ensures trace == old(trace) + if deleted then RetireStates(old(Disk()), [id], if stuck then {id} else {}) else []
      ensures deleted ==> index == old(index) - {id}
      ensures deleted ==> files == old(files) - if stuck then {} else {old(index)[id].path}
      ensures !deleted ==> Disk() == old(Disk())
    {
      var accepted := ReadIndex();
      if !accepted || id !in index || index[id].owner != owner {
        return false;
      }
      assert (set other | other in [id]) == {id};
      RetireAll(index - {id}, [id], if stuck then {id} else {});
      deleted := true;
    }
  }

  // The files that go with the listed entries, the stuck ones excepted.
  function Removed(entries: Index, ids: seq<nat>, stuck: set<nat>): set<Path>
    requires forall id | id in ids :: id in entries
  {
    set id | id in ids && id !in stuck :: entries[id].path
  }

  lemma RemovedOneMore(entries: Index, ids: seq<nat>, i: nat, stuck: set<nat>)
    requires i < |ids| && forall id | id in ids :: id in entries
    ensures Removed(entries, ids[..i + 1], stuck)
            == Removed(entries, ids[..i], stuck) + if ids[i] in stuck then {} else {entries[ids[i]].path}
  {
    assert ids[..i + 1] == ids[..i] + [ids[i]];
  }

  lemma Reassociate(a: seq<Disk>, d: Disk, b: seq<Disk>)
    ensures (a + [d]) + b == a + ([d] + b)
  {
  }

  lemma StreamUnfolds(d: Disk, part: Path, chunks: seq<Chunk>, i: nat, budget: int, written: nat)
    requires i < |chunks|
    ensures StreamStates(d, part, chunks[i..], budget, written)
            == if chunks[i].None? || written + chunks[i].value > budget then
                 [d.(files := d.files - {part})]
               else
                 var grown := d.(files := d.files[part := written + chunks[i].value]);
                 [grown] + StreamStates(grown, part, chunks[i + 1..], budget, written + chunks[i].value)
    ensures Received(chunks[i..], budget, written)
            == if chunks[i].None? || written + chunks[i].value > budget then None
               else Received(chunks[i + 1..], budget, written + chunks[i].value)
  {
    assert chunks[i..][1..] == chunks[i + 1..];
  }

  lemma UnlinkUnfolds(d: Disk, entries: Index, ids: seq<nat>, i: nat, stuck: set<nat>)
    requires i < |ids| && forall id | id in ids :: id in entries
    ensures var after := if ids[i] in stuck then d else d.(files := d.files - {entries[ids[i]].path});
            UnlinkStates(d, entries, ids[i..], stuck) == [after] + UnlinkStates(after, entries, ids[i + 1..], stuck)
  {
    assert ids[i..][1..] == ids[i + 1..];
  }

  // The entries to retire, in the order they are met.
  function Retired(index: Index, order: seq<nat>, now: int, midnight: Option<int>): (ids: seq<nat>)
    ensures forall id | id in ids :: id in index && id in order
  {
    if order == [] then
      []
    else
      var front, last := order[..|order| - 1], order[|order| - 1];
      Retired(index, front, now, midnight)
      + if last in index && Expired(index[last], now, midnight) then [last] else []
  }

  lemma RetiredOneMore(index: Index, order: seq<nat>, i: nat, now: int, midnight: Option<int>)
    requires i < |order|
    ensures Retired(index, order[..i + 1], now, midnight)
            == Retired(index, order[..i], now, midnight)
               + if order[i] in index && Expired(index[order[i]], now, midnight) then [order[i]] else []
  {
    assert order[..i + 1][..i] == order[..i];
  }

  lemma DroppedOneMore(index: Index, ids: seq<nat>, id: nat)
    ensures index - (set one | one in ids) - {id} == index - (set one | one in ids + [id])
  {
  }

  lemma {:induction false} RetiredAreExpired(index: Index, order: seq<nat>, now: int, midnight: Option<int>)
    ensures forall id :: id in Retired(index, order, now, midnight)
                         <==> && id in order && id in index
                              && (index[id].expiresAt <= now
                                  || (midnight.Some? && index[id].createdAt < midnight.value))
    decreases |order|
  {
    if order != [] {
      var front, last := order[..|order| - 1], order[|order| - 1];
      RetiredAreExpired(index, front, now, midnight);
      assert order == front + [last];
    }
  }

  // A download is kept until its time to live is over or a later midnight is given.
  lemma KeptForItsTimeToLive(r: Request, path: Path, size: nat, limits: Limits, index: Index, order: seq<nat>,
                             now: int, midnight: Option<int>)
    requires r.id in index && index[r.id] == NewRecord(r, path, size, limits) && r.id in order
    ensures r.id in Retired(index, order, now, midnight)
            <==> now - r.now >= limits.ttl || (midnight.Some? && r.now < midnight.value)
  {
    RetiredAreExpired(index, order, now, midnight);
  }

  lemma UsedAfterOne(index: Index, id: nat)
    requires id in index
    ensures Used(index) == index[id].size + Used(index - {id})
  {
    var after := index - {id};
    SumSplits(index, index.Keys, id, Stored);
    assert after.Keys == index.Keys - {id};
    SumIgnoresOthers(index, after, after.Keys, Stored);
  }
}
