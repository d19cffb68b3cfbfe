/**
 * Managed downloads: an index of records, the files it refers to, and a byte
 * quota.  Every operation is the sequence of disks it leaves behind, one per
 * file-system action, so a crash at any point is a prefix of that sequence.
 *
 * Operations are serialised by the storage lock.  The index is replaced by one
 * rename of a temporary file, so it has no intermediate states of its own.
 */
module DownloadStorage {
  import opened Wrappers

  // A fresh download id is a random UUID; paths built from it name nothing else.
  datatype Path = Named(owner: string, name: string)
                | Prefixed(owner: string, id: nat, name: string)
                | Part(owner: string, id: nat)

  // `encoded` is what the entry takes in the index file, its key and separators included.
  datatype Record = Record(id: nat, owner: string, path: Path, size: nat, createdAt: int, expiresAt: int, encoded: nat)

  type Index = map<nat, Record>

  datatype Disk = Disk(files: map<Path, nat>, index: Index)

  datatype Limits = Limits(maxTotal: nat, maxFile: nat, ttl: nat) {
    predicate Valid() {
      1 <= maxFile <= maxTotal
    }
  }

  // --------------------------------------------------------- quota, index file

  const MIB := 1024 * 1024

  // What an entry weighs: its file against the quota, its text in the index file.
  datatype Measure = Stored | Encoded

  function Weight(record: Record, m: Measure): nat {
    match m
    case Stored => record.size
    case Encoded => record.encoded
  }

  ghost function SumOf(index: Index, ids: set<nat>, m: Measure): nat
    requires ids <= index.Keys
  {
    if ids == {} then
      0
    else
      var id :| id in ids;
      Weight(index[id], m) + SumOf(index, ids - {id}, m)
  }

  ghost function Total(index: Index, m: Measure): nat {
    SumOf(index, index.Keys, m)
  }

  // used_bytes
  ghost function Used(index: Index): nat {
    Total(index, Stored)
  }

  // The size of the index file; an empty one is two braces.
  ghost function FileSize(index: Index): nat {
    2 + Total(index, Encoded)
  }

  // The index file may not be larger to be read; nothing limits it when written.
  const MAX_INDEX := 8 * MIB

  lemma {:induction false} SumSplits(index: Index, ids: set<nat>, one: nat, m: Measure)
    requires ids <= index.Keys && one in ids
    ensures SumOf(index, ids, m) == Weight(index[one], m) + SumOf(index, ids - {one}, m)
  {
    var id :| id in ids && SumOf(index, ids, m) == Weight(index[id], m) + SumOf(index, ids - {id}, m);
    if id != one {
      SumSplits(index, ids - {id}, one, m);
      SumSplits(index, ids - {one}, id, m);
      assert ids - {id} - {one} == ids - {one} - {id};
    }
  }

  lemma {:induction false} SumIgnoresOthers(a: Index, b: Index, ids: set<nat>, m: Measure)
    requires ids <= a.Keys && ids <= b.Keys
    requires forall id | id in ids :: a[id] == b[id]
    ensures SumOf(a, ids, m) == SumOf(b, ids, m)
  {
    if ids != {} {
      var id :| id in ids && SumOf(a, ids, m) == Weight(a[id], m) + SumOf(a, ids - {id}, m);
      SumIgnoresOthers(a, b, ids - {id}, m);
      SumSplits(b, ids, id, m);
    }
  }

  lemma TotalAfterAdding(index: Index, record: Record, m: Measure)
    requires record.id !in index
    ensures Total(index[record.id := record], m) == Total(index, m) + Weight(record, m)
  {
    var after := index[record.id := record];
    SumSplits(after, after.Keys, record.id, m);
    assert after.Keys - {record.id} == index.Keys;
    SumIgnoresOthers(after, index, index.Keys, m);
  }

  lemma {:induction false} SumShrinks(index: Index, kept: set<nat>, ids: set<nat>, m: Measure)
    requires kept <= ids <= index.Keys
    ensures SumOf(index, kept, m) <= SumOf(index, ids, m)
  {
    if kept != ids {
      var gone :| gone in ids && gone !in kept;
      SumSplits(index, ids, gone, m);
      SumShrinks(index, kept, ids - {gone}, m);
    }
  }

  lemma TotalAfterRemoving(index: Index, gone: set<nat>, m: Measure)
    ensures Total(index - gone, m) <= Total(index, m)
  {
    var after := index - gone;
    SumIgnoresOthers(after, index, after.Keys, m);
    SumShrinks(index, after.Keys, index.Keys, m);
  }

  // -------------------------------------------------------------- invariants

  // Every entry is about an existing file of exactly its size.
  ghost predicate Truthful(d: Disk) {
    forall id | id in d.index ::
      var record := d.index[id];
      record.id == id && record.size > 0 && record.path in d.files && d.files[record.path] == record.size
  }

  // What `_read_index` checks before it trusts the index.
  ghost predicate Accepted(d: Disk) {
    FileSize(d.index) <= MAX_INDEX && Truthful(d)
  }

  ghost predicate PathsDistinct(index: Index) {
    forall a, b | a in index && b in index && index[a].path == index[b].path :: a == b
  }

  ghost predicate Sound(d: Disk, limits: Limits) {
    Accepted(d) && PathsDistinct(d.index) && Used(d.index) <= limits.maxTotal
  }

  // ------------------------------------------------------------------- fetch

  datatype Request = Request(owner: string, name: string, id: nat, now: int, encoded: nat)

  // A piece of the response body, or the connection failing.
  type Chunk = Option<nat>

  // How the rename and the index update end.
  datatype Commit = Completes | RenameFails | FailsBeforeReplace | FailsAfterReplace

  predicate FreshFor(d: Disk, r: Request) {
    && r.id !in d.index
    && Part(r.owner, r.id) !in d.files
    && Prefixed(r.owner, r.id, r.name) !in d.files
  }

  // _transfer_budget; a result of zero or less means the transfer is refused.
  ghost function Budget(d: Disk, limits: Limits, free: nat): int {
    var quota := limits.maxTotal - Used(d.index);
    var headroom := if free / 20 < 256 * MIB then free / 20 else 256 * MIB;
    var room := free - headroom;
    var least := if quota < room then quota else room;
    if limits.maxFile < least then limits.maxFile else least
  }

  // The bytes written once the whole body has arrived within the budget.
  function Received(chunks: seq<Chunk>, budget: int, written: nat): Option<nat> {
    if chunks == [] then Some(written)
    else if chunks[0].None? || written + chunks[0].value > budget then None
    else Received(chunks[1..], budget, written + chunks[0].value)
  }

  // _stream_to_file: the part file grows and is removed when anything is raised.
  function StreamStates(d: Disk, part: Path, chunks: seq<Chunk>, budget: int, written: nat): seq<Disk>
    decreases |chunks|
  {
    if chunks == [] then
      []
    else if chunks[0].None? || written + chunks[0].value > budget then
      [d.(files := d.files - {part})]
    else
      var grown := d.(files := d.files[part := written + chunks[0].value]);
      [grown] + StreamStates(grown, part, chunks[1..], budget, written + chunks[0].value)
  }

  function FinalPath(d: Disk, r: Request): Path {
    if Named(r.owner, r.name) in d.files then Prefixed(r.owner, r.id, r.name) else Named(r.owner, r.name)
  }

  function NewRecord(r: Request, path: Path, size: nat, limits: Limits): Record {
    Record(r.id, r.owner, path, size, r.now, r.now + limits.ttl, r.encoded)
  }

  // From a file in place to its index entry; an exception removes the file.
  function CommitStates(d: Disk, record: Record, commit: Commit): seq<Disk> {
    var entered := d.(index := d.index[record.id := record]);
    match commit
    case Completes => [entered]
    case RenameFails => []
    case FailsBeforeReplace => [d.(files := d.files - {record.path})]
    case FailsAfterReplace => [entered, entered.(files := d.files - {record.path})]
  }

  // The disk while the body is received: the part file holds what has arrived.
  function Receiving(d: Disk, r: Request, written: nat): Disk {
    d.(files := d.files[Part(r.owner, r.id) := written])
  }

  function Placed(d: Disk, r: Request, size: nat): Disk {
    d.(files := d.files[FinalPath(d, r) := size])
  }

  ghost function FetchStates(d: Disk, limits: Limits, r: Request, free: nat, chunks: seq<Chunk>, commit: Commit)
    : seq<Disk>
  {
    var budget := Budget(d, limits, free);
    if !Accepted(d) || budget <= 0 then
      []
    else
      var part := Part(r.owner, r.id);
      var received := Received(chunks, budget, 0);
      [Receiving(d, r, 0)] + StreamStates(Receiving(d, r, 0), part, chunks, budget, 0)
      + if received.None? || commit == RenameFails then []
        else [Placed(d, r, received.value)]
             + CommitStates(Placed(d, r, received.value), NewRecord(r, FinalPath(d, r), received.value, limits), commit)
  }

  // yt-dlp leaves a file of a checked size, which is moved into place.
  ghost function MediaStates(d: Disk, limits: Limits, r: Request, free: nat, size: nat, commit: Commit): seq<Disk> {
    if !Accepted(d) || !(0 < size <= Budget(d, limits, free)) || commit == RenameFails then
      []
    else
      var path := Prefixed(r.owner, r.id, r.name);
      var moved := d.(files := d.files[path := size]);
      [moved] + CommitStates(moved, NewRecord(r, path, size, limits), commit)
  }

  // ------------------------------------------------------------ fetch: proofs

  ghost predicate AllSound(states: seq<Disk>, limits: Limits) {
    forall i | 0 <= i < |states| :: Sound(states[i], limits)
  }

  // Files that no entry names may come, change and go.
  lemma UnindexedFilesAreFree(d: Disk, after: Disk, limits: Limits)
    requires Sound(d, limits) && after.index == d.index
    requires forall id | id in d.index ::
               d.index[id].path in after.files && after.files[d.index[id].path] == d.files[d.index[id].path]
    ensures Sound(after, limits)
  {
  }

  lemma {:induction false} StreamingIsSound(d: Disk, limits: Limits, r: Request, chunks: seq<Chunk>, budget: int,
                                            written: nat)
    requires Sound(d, limits) && FreshFor(d, r)
    ensures AllSound(StreamStates(Receiving(d, r, written), Part(r.owner, r.id), chunks, budget, written), limits)
    decreases |chunks|
  {
    var part := Part(r.owner, r.id);
    var here := Receiving(d, r, written);
    if chunks != [] {
      if chunks[0].None? || written + chunks[0].value > budget {
        UnindexedFilesAreFree(d, here.(files := here.files - {part}), limits);
      } else {
        var more := written + chunks[0].value;
        assert here.(files := here.files[part := more]) == Receiving(d, r, more);
        UnindexedFilesAreFree(d, Receiving(d, r, more), limits);
        StreamingIsSound(d, limits, r, chunks[1..], budget, more);
      }
    }
  }

  lemma {:induction false} ReceivedFits(chunks: seq<Chunk>, budget: int, written: nat)
    requires written <= budget
    ensures Received(chunks, budget, written).Some? ==> written <= Received(chunks, budget, written).value <= budget
  {
    if chunks != [] && chunks[0].Some? && written + chunks[0].value <= budget {
      ReceivedFits(chunks[1..], budget, written + chunks[0].value);
    }
  }

  // One more entry of this length would make the index file unreadable.
  ghost predicate TooLong(index: Index, encoded: nat) {
    FileSize(index) + encoded > MAX_INDEX
  }

  // A finished file at an unindexed path, small enough for the quota: the
  // commit keeps every state sound exactly unless it records an empty file,
  // makes the index file too long, or is interrupted right after the index was
  // replaced.
  lemma CommitIsSoundExactly(d: Disk, limits: Limits, record: Record, commit: Commit)
    requires Sound(d, limits) && record.id !in d.index
    requires record.path in d.files && d.files[record.path] == record.size
    requires forall id | id in d.index :: d.index[id].path != record.path
    requires Used(d.index) + record.size <= limits.maxTotal
    ensures AllSound(CommitStates(d, record, commit), limits)
            <==> !(commit == FailsAfterReplace
                   || (commit == Completes && (record.size == 0 || TooLong(d.index, record.encoded))))
  {
    var states := CommitStates(d, record, commit);
    var entered := d.(index := d.index[record.id := record]);
    TotalAfterAdding(d.index, record, Stored);
    TotalAfterAdding(d.index, record, Encoded);
    match commit {
      case Completes =>
        assert states[0] == entered && entered.index[record.id] == record;
      case RenameFails =>
      case FailsBeforeReplace =>
        UnindexedFilesAreFree(d, d.(files := d.files - {record.path}), limits);
      case FailsAfterReplace =>
        assert states[1].index[record.id] == record && record.path !in states[1].files;
    }
  }

  lemma PlacedFileIsUnindexed(d: Disk, limits: Limits, r: Request, size: nat)
    requires Sound(d, limits) && FreshFor(d, r)
    ensures Sound(Placed(d, r, size), limits)
    ensures forall id | id in d.index :: d.index[id].path != FinalPath(d, r)
  {
    UnindexedFilesAreFree(d, Placed(d, r, size), limits);
  }

  lemma AllSoundConcat(a: seq<Disk>, b: seq<Disk>, limits: Limits)
    ensures AllSound(a + b, limits) <==> AllSound(a, limits) && AllSound(b, limits)
  {
    if AllSound(a + b, limits) {
      assert forall i | 0 <= i < |a| :: (a + b)[i] == a[i];
      assert forall i | 0 <= i < |b| :: (a + b)[|a| + i] == b[i];
    }
  }

  predicate RecordsNothing(received: Option<nat>) {
    received == Some(0)
  }

  // A direct transfer leaves every disk sound, at every crash point, if and
  // only if it does not record an empty body, does not make the index file too
  // long, and no exception comes between the replacement of the index and the
  // end of the guarded block.
  lemma FetchIsSoundExactly(d: Disk, limits: Limits, r: Request, free: nat, chunks: seq<Chunk>, commit: Commit)
    requires limits.Valid() && Sound(d, limits) && FreshFor(d, r)
    ensures var budget := Budget(d, limits, free);
            var received := Received(chunks, budget, 0);
            AllSound(FetchStates(d, limits, r, free, chunks, commit), limits)
            <==> !(budget > 0 && received.Some?
                   && (commit == FailsAfterReplace
                       || (commit == Completes && (RecordsNothing(received) || TooLong(d.index, r.encoded)))))
  {
    var budget := Budget(d, limits, free);
    if budget > 0 {
      var first := Receiving(d, r, 0);
      var received := Received(chunks, budget, 0);
      UnindexedFilesAreFree(d, first, limits);
      StreamingIsSound(d, limits, r, chunks, budget, 0);
      var stream := [first] + StreamStates(first, Part(r.owner, r.id), chunks, budget, 0);
      assert AllSound(stream, limits) by {
        AllSoundConcat([first], StreamStates(first, Part(r.owner, r.id), chunks, budget, 0), limits);
      }
      if received.Some? && commit != RenameFails {
        var placed := Placed(d, r, received.value);
        var record := NewRecord(r, FinalPath(d, r), received.value, limits);
        ReceivedFits(chunks, budget, 0);
        PlacedFileIsUnindexed(d, limits, r, received.value);
        CommitIsSoundExactly(placed, limits, record, commit);
        AllSoundConcat([placed], CommitStates(placed, record, commit), limits);
        AllSoundConcat(stream, [placed] + CommitStates(placed, record, commit), limits);
      } else {
        assert FetchStates(d, limits, r, free, chunks, commit) == stream;
      }
    }
  }

  lemma MediaIsSoundExactly(d: Disk, limits: Limits, r: Request, free: nat, size: nat, commit: Commit)
    requires limits.Valid() && Sound(d, limits) && FreshFor(d, r)
    ensures AllSound(MediaStates(d, limits, r, free, size, commit), limits)
            <==> !(0 < size <= Budget(d, limits, free)
                   && (commit == FailsAfterReplace || (commit == Completes && TooLong(d.index, r.encoded))))
  {
    if 0 < size <= Budget(d, limits, free) && commit != RenameFails {
      var path := Prefixed(r.owner, r.id, r.name);
      var moved := d.(files := d.files[path := size]);
      var record := NewRecord(r, path, size, limits);
      UnindexedFilesAreFree(d, moved, limits);
      CommitIsSoundExactly(moved, limits, record, commit);
      AllSoundConcat([moved], CommitStates(moved, record, commit), limits);
    }
  }

  // ----------------------------------------------------------------- removal

  // The index loses the entries first, then their files go one by one; the
  // ones in `stuck` cannot be unlinked and stay behind as orphans.
  function UnlinkStates(d: Disk, index: Index, ids: seq<nat>, stuck: set<nat>): seq<Disk>
    requires forall id | id in ids :: id in index
    decreases |ids|
  {
    if ids == [] then
      []
    else
      var after := if ids[0] in stuck then d else d.(files := d.files - {index[ids[0]].path});
      [after] + UnlinkStates(after, index, ids[1..], stuck)
  }

  function RetireStates(d: Disk, ids: seq<nat>, stuck: set<nat>): seq<Disk>
    requires forall id | id in ids :: id in d.index
  {
    var dropped := d.(index := d.index - (set id | id in ids));
    [dropped] + UnlinkStates(dropped, d.index, ids, stuck)
  }

  predicate Expired(record: Record, now: int, midnight: Option<int>) {
    record.expiresAt <= now || (midnight.Some? && record.createdAt < midnight.value)
  }

  lemma DroppingEntriesIsSound(d: Disk, limits: Limits, gone: set<nat>)
    requires Sound(d, limits)
    ensures Sound(d.(index := d.index - gone), limits)
  {
    TotalAfterRemoving(d.index, gone, Stored);
    TotalAfterRemoving(d.index, gone, Encoded);
  }

  lemma {:induction false} UnlinkingIsSound(d: Disk, limits: Limits, index: Index, ids: seq<nat>, stuck: set<nat>)
    requires Sound(d, limits)
    requires forall id | id in ids :: id in index
    requires forall id, kept | id in ids && kept in d.index :: index[id].path != d.index[kept].path
    ensures AllSound(UnlinkStates(d, index, ids, stuck), limits)
    decreases |ids|
  {
    if ids != [] {
      var after := if ids[0] in stuck then d else d.(files := d.files - {index[ids[0]].path});
      UnindexedFilesAreFree(d, after, limits);
      UnlinkingIsSound(after, limits, index, ids[1..], stuck);
    }
  }

  // Deletion and clean-up are sound at every crash point, whichever files
  // refuse to go: no two entries share a path, so no survivor loses its file.
  lemma RetiringIsSound(d: Disk, limits: Limits, ids: seq<nat>, stuck: set<nat>)
    requires Sound(d, limits) && forall id | id in ids :: id in d.index
    ensures AllSound(RetireStates(d, ids, stuck), limits)
  {
    var gone := set id | id in ids;
    var dropped := d.(index := d.index - gone);
    DroppingEntriesIsSound(d, limits, gone);
    UnlinkingIsSound(dropped, limits, d.index, ids, stuck);
  }

  // -------------------------------------------------------------------- runs

  datatype Operation =
    | Fetch(request: Request, free: nat, chunks: seq<Chunk>, commit: Commit)
    | FetchMedia(request: Request, free: nat, size: nat, commit: Commit)
    | Retire(ids: seq<nat>, stuck: set<nat>)

  ghost predicate CanRun(d: Disk, op: Operation) {
    match op
    case Fetch(r, _, _, _) => FreshFor(d, r)
    case FetchMedia(r, _, _, _) => FreshFor(d, r)
    case Retire(ids, _) => forall id | id in ids :: id in d.index
  }

  ghost function States(d: Disk, limits: Limits, op: Operation): seq<Disk>
    requires CanRun(d, op)
  {
    match op
    case Fetch(r, free, chunks, commit) => FetchStates(d, limits, r, free, chunks, commit)
    case FetchMedia(r, free, size, commit) => MediaStates(d, limits, r, free, size, commit)
    case Retire(ids, stuck) => if Accepted(d) then RetireStates(d, ids, stuck) else []
  }

  // The faults of an operation that damage the storage.
  ghost predicate Damages(d: Disk, limits: Limits, op: Operation) {
    match op
    case Fetch(r, free, chunks, commit) =>
      var budget := Budget(d, limits, free);
      var received := Received(chunks, budget, 0);
      && budget > 0 && received.Some?
      && (|| commit == FailsAfterReplace
          || (commit == Completes && (RecordsNothing(received) || TooLong(d.index, r.encoded))))
    case FetchMedia(r, free, size, commit) =>
      && 0 < size <= Budget(d, limits, free)
      && (commit == FailsAfterReplace || (commit == Completes && TooLong(d.index, r.encoded)))
    case Retire(_, _) => false
  }

  lemma OperationIsSoundExactly(d: Disk, limits: Limits, op: Operation)
    requires limits.Valid() && Sound(d, limits) && CanRun(d, op)
    ensures AllSound(States(d, limits, op), limits) <==> !Damages(d, limits, op)
  {
    match op {
      case Fetch(r, free, chunks, commit) => FetchIsSoundExactly(d, limits, r, free, chunks, commit);
      case FetchMedia(r, free, size, commit) => MediaIsSoundExactly(d, limits, r, free, size, commit);
      case Retire(ids, stuck) => RetiringIsSound(d, limits, ids, stuck);
    }
  }

  // One operation, cut off after any of its actions or run to its end.
  ghost predicate LeadsTo(d: Disk, limits: Limits, op: Operation, after: Disk) {
    CanRun(d, op) && (after == d || after in States(d, limits, op))
  }

  // Operations and crashes in any order.
  ghost predicate Follows(disks: seq<Disk>, ops: seq<Operation>, limits: Limits) {
    && |disks| == |ops| + 1
    && forall i | 0 <= i < |ops| :: LeadsTo(disks[i], limits, ops[i], disks[i + 1])
  }

  ghost predicate IsRun(disks: seq<Disk>, ops: seq<Operation>, limits: Limits) {
    Follows(disks, ops, limits) && disks[0] == Disk(map[], map[])
  }

  lemma EmptyIndexIsFree()
    ensures Used(map[]) == 0 && FileSize(map[]) == 2
  {
    var index: Index := map[];
    assert SumOf(index, {}, Stored) == 0 && SumOf(index, {}, Encoded) == 0 && index.Keys == {};
  }

  lemma EmptyDiskIsSound(limits: Limits)
    ensures Sound(Disk(map[], map[]), limits)
  {
    EmptyIndexIsFree();
  }

  // The main result: in every run whose operations do no damage every disk is
  // sound, so no entry dangles, the quota holds and the index can be read.
  lemma {:induction false} EveryDiskIsSound(disks: seq<Disk>, ops: seq<Operation>, limits: Limits, n: nat)
    requires limits.Valid() && IsRun(disks, ops, limits) && n < |disks|
    requires forall i | 0 <= i < n :: !Damages(disks[i], limits, ops[i])
    ensures Sound(disks[n], limits)
  {
    if n == 0 {
      EmptyDiskIsSound(limits);
    } else {
      EveryDiskIsSound(disks, ops, limits, n - 1);
      assert LeadsTo(disks[n - 1], limits, ops[n - 1], disks[n]);
      OperationIsSoundExactly(disks[n - 1], limits, ops[n - 1]);
    }
  }

  ghost predicate SoundThroughout(d: Disk, limits: Limits, op: Operation) {
    CanRun(d, op) && AllSound(States(d, limits, op), limits)
  }

  // Over a whole run: every disk at every crash point of every operation is sound
  // if and only if no operation of the run does damage.
  lemma {:induction false} RunIsSoundExactly(disks: seq<Disk>, ops: seq<Operation>, limits: Limits)
    requires limits.Valid() && IsRun(disks, ops, limits)
    ensures (forall i | 0 <= i < |ops| :: SoundThroughout(disks[i], limits, ops[i]))
            <==> (forall i | 0 <= i < |ops| :: !Damages(disks[i], limits, ops[i]))
  {
    if forall i | 0 <= i < |ops| :: !Damages(disks[i], limits, ops[i]) {
      forall i | 0 <= i < |ops|
        ensures SoundThroughout(disks[i], limits, ops[i])
      {
        EveryDiskIsSound(disks, ops, limits, i);
        assert LeadsTo(disks[i], limits, ops[i], disks[i + 1]);
        OperationIsSoundExactly(disks[i], limits, ops[i]);
      }
    } else if forall i | 0 <= i < |ops| :: SoundThroughout(disks[i], limits, ops[i]) {
      SoundOperationsDoNoDamage(disks, ops, limits, |ops|);
    }
  }

  lemma {:induction false} SoundOperationsDoNoDamage(disks: seq<Disk>, ops: seq<Operation>, limits: Limits, n: nat)
    requires limits.Valid() && IsRun(disks, ops, limits) && n <= |ops|
    requires forall i | 0 <= i < n :: SoundThroughout(disks[i], limits, ops[i])
    ensures forall i | 0 <= i < n :: !Damages(disks[i], limits, ops[i])
  {
    if n > 0 {
      SoundOperationsDoNoDamage(disks, ops, limits, n - 1);
      EveryDiskIsSound(disks, ops, limits, n - 1);
      assert SoundThroughout(disks[n - 1], limits, ops[n - 1]);
      OperationIsSoundExactly(disks[n - 1], limits, ops[n - 1]);
    }
  }

  // --------------------------------------------------------- the closed index

  // An index that is refused stays so, whatever the reason: every operation
  // reads it first, also the ones that would mend it.
  lemma {:induction false} RefusedIndexIsForever(disks: seq<Disk>, ops: seq<Operation>, limits: Limits,
                                                 from: nat, n: nat)
    requires Follows(disks, ops, limits) && from <= n < |disks| && !Accepted(disks[from])
    ensures disks[n] == disks[from]
  {
    if from < n {
      RefusedIndexIsForever(disks, ops, limits, from, n - 1);
      assert LeadsTo(disks[n - 1], limits, ops[n - 1], disks[n]);
      assert States(disks[n - 1], limits, ops[n - 1]) == [];
    }
  }

  // A body without a byte is recorded with size zero, on any sound disk ...
  lemma EmptyBodyIsRefusedLater(d: Disk, limits: Limits, r: Request, free: nat)
    requires limits.Valid() && Sound(d, limits) && FreshFor(d, r) && Budget(d, limits, free) > 0
    ensures var states := FetchStates(d, limits, r, free, [], Completes);
            states != [] && !Accepted(states[|states| - 1])
  {
    var states := FetchStates(d, limits, r, free, [], Completes);
    assert states[|states| - 1].index[r.id] == NewRecord(r, FinalPath(d, r), 0, limits);
  }

  // ... and an exception right after the index was replaced removes the file
  // that the new entry names.
  lemma InterruptedCommitIsRefusedLater(d: Disk, limits: Limits, r: Request, free: nat, chunks: seq<Chunk>)
    requires limits.Valid() && Sound(d, limits) && FreshFor(d, r) && Budget(d, limits, free) > 0
    requires Received(chunks, Budget(d, limits, free), 0).Some?
    ensures var states := FetchStates(d, limits, r, free, chunks, FailsAfterReplace);
            states != [] && !Accepted(states[|states| - 1])
  {
    var size := Received(chunks, Budget(d, limits, free), 0).value;
    var path := FinalPath(d, r);
    var commits := CommitStates(Placed(d, r, size), NewRecord(r, path, size, limits), FailsAfterReplace);
    var states := FetchStates(d, limits, r, free, chunks, FailsAfterReplace);
    assert commits[1].index[r.id].path == path && path !in commits[1].files;
    assert states[|states| - 1] == commits[1];
  }

  // Both happen on a fresh store, with the first transfer.
  lemma FirstFetchClosesTheIndex(limits: Limits, r: Request, op: Operation) returns (disks: seq<Disk>)
    requires limits.Valid()
    requires op == Fetch(r, 1024 * MIB, [], Completes) || op == Fetch(r, 1024 * MIB, [Some(1)], FailsAfterReplace)
    ensures IsRun(disks, [op], limits) && !Accepted(disks[1])
  {
    var empty := Disk(map[], map[]);
    EmptyDiskIsSound(limits);
    EmptyIndexIsFree();
    assert Budget(empty, limits, 1024 * MIB) >= 1;
    if op.chunks == [] {
      EmptyBodyIsRefusedLater(empty, limits, r, 1024 * MIB);
    } else {
      assert [Some(1 as nat)][1..] == [];
      InterruptedCommitIsRefusedLater(empty, limits, r, 1024 * MIB, op.chunks);
    }
    var states := States(empty, limits, op);
    disks := [empty, states[|states| - 1]];
    assert LeadsTo(disks[0], limits, op, disks[1]);
  }

  // The same request over and over, under fresh ids, for one-byte media files.
  function Again(r: Request, n: nat): Request {
    r.(id := n)
  }

  function TinyPath(r: Request, n: nat): Path {
    Prefixed(r.owner, n, r.name)
  }

  function AddTiny(d: Disk, r: Request, n: nat, limits: Limits): Disk {
    Disk(d.files[TinyPath(r, n) := 1], d.index[n := NewRecord(Again(r, n), TinyPath(r, n), 1, limits)])
  }

  function TinyFiles(r: Request, n: nat, limits: Limits): Disk {
    if n == 0 then Disk(map[], map[]) else AddTiny(TinyFiles(r, n - 1, limits), r, n - 1, limits)
  }

  ghost predicate AllTiny(d: Disk, r: Request, n: nat, limits: Limits) {
    && (forall id: nat :: id in d.index <==> id < n)
    && (forall id | id in d.index ::
          && d.index[id] == NewRecord(Again(r, id), TinyPath(r, id), 1, limits)
          && TinyPath(r, id) in d.files && d.files[TinyPath(r, id)] == 1)
    && (forall path | path in d.files :: path.Prefixed? && path.id < n)
  }

  lemma TinyAreDistinct(d: Disk, r: Request, n: nat, limits: Limits)
    requires AllTiny(d, r, n, limits)
    ensures Truthful(d) && PathsDistinct(d.index) && FreshFor(d, Again(r, n))
  {
    forall a, b | a in d.index && b in d.index && d.index[a].path == d.index[b].path
      ensures a == b
    {
      assert d.index[a].path == TinyPath(r, a) && d.index[b].path == TinyPath(r, b);
    }
  }

  lemma OneMoreTiny(d: Disk, r: Request, n: nat, limits: Limits)
    requires AllTiny(d, r, n, limits)
    ensures var after := AddTiny(d, r, n, limits);
            && AllTiny(after, r, n + 1, limits)
            && Used(after.index) == Used(d.index) + 1 && FileSize(after.index) == FileSize(d.index) + r.encoded
  {
    var record := NewRecord(Again(r, n), TinyPath(r, n), 1, limits);
    TotalAfterAdding(d.index, record, Stored);
    TotalAfterAdding(d.index, record, Encoded);
  }

  // The size of an index file of n equal entries.
  function EqualEntries(n: nat, encoded: nat): nat {
    if n == 0 then 2 else EqualEntries(n - 1, encoded) + encoded
  }

  lemma {:induction false} EqualEntriesMultiply(n: nat, encoded: nat)
    ensures EqualEntries(n, encoded) == 2 + n * encoded
  {
    if n > 0 {
      EqualEntriesMultiply(n - 1, encoded);
      assert n * encoded == (n - 1) * encoded + encoded;
    }
  }

  ghost predicate TinyTotals(d: Disk, r: Request, n: nat) {
    Used(d.index) == n && FileSize(d.index) == EqualEntries(n, r.encoded)
  }

  lemma {:induction false} TinyFilesAreAsDescribed(r: Request, n: nat, limits: Limits)
    ensures AllTiny(TinyFiles(r, n, limits), r, n, limits)
    ensures TinyTotals(TinyFiles(r, n, limits), r, n)
  {
    if n == 0 {
      EmptyIndexIsFree();
    } else {
      TinyFilesAreAsDescribed(r, n - 1, limits);
      OneMoreTiny(TinyFiles(r, n - 1, limits), r, n - 1, limits);
    }
  }

  function TinyFetch(r: Request, n: nat): Operation {
    FetchMedia(Again(r, n), 1024 * MIB, 1, Completes)
  }

  lemma TinyFetchAddsOne(r: Request, n: nat, limits: Limits)
    requires limits.Valid() && n < limits.maxTotal && 2 + n * r.encoded <= MAX_INDEX
    ensures var d := TinyFiles(r, n, limits);
            Sound(d, limits) && LeadsTo(d, limits, TinyFetch(r, n), TinyFiles(r, n + 1, limits))
  {
    TinyFilesAreAsDescribed(r, n, limits);
    EqualEntriesMultiply(n, r.encoded);
    var d := TinyFiles(r, n, limits);
    TinyAreDistinct(d, r, n, limits);
    assert Budget(d, limits, 1024 * MIB) >= 1;
    var states := MediaStates(d, limits, Again(r, n), 1024 * MIB, 1, Completes);
    assert states == States(d, limits, TinyFetch(r, n));
    assert states[1] == TinyFiles(r, n + 1, limits);
  }

  // And it happens under the quota, without any fault: small downloads alone
  // make the index too long.
  lemma TinyDownloadsCloseTheIndex(limits: Limits, r: Request) returns (disks: seq<Disk>, ops: seq<Operation>)
    requires limits.Valid() && limits.maxTotal >= MAX_INDEX && 1 <= r.encoded <= MAX_INDEX - 2
    ensures IsRun(disks, ops, limits)
    ensures forall i | 0 <= i < |ops| :: Sound(disks[i], limits) && ops[i] == TinyFetch(r, i)
    ensures var last := disks[|ops|];
            && Truthful(last) && Used(last.index) == |ops| <= limits.maxTotal
            && FileSize(last.index) > MAX_INDEX && !Accepted(last)
  {
    var n := (MAX_INDEX - 2) / r.encoded + 1;
    CountToLimit(MAX_INDEX - 2, r.encoded);
    disks := seq(n + 1, i requires 0 <= i => TinyFiles(r, i, limits));
    ops := seq(n, i requires 0 <= i => TinyFetch(r, i));
    forall i | 0 <= i < n
      ensures Sound(disks[i], limits) && LeadsTo(disks[i], limits, ops[i], disks[i + 1])
    {
      CountBelowLimit(MAX_INDEX - 2, r.encoded, i);
      TinyFetchAddsOne(r, i, limits);
    }
    TinyFilesAreAsDescribed(r, n, limits);
    EqualEntriesMultiply(n, r.encoded);
    TinyAreDistinct(disks[n], r, n, limits);
  }

  lemma CountToLimit(limit: nat, step: nat)
    requires 1 <= step
    ensures (limit / step + 1) * step > limit && limit / step <= limit
  {
    assert limit == (limit / step) * step + limit % step;
    assert (limit / step + 1) * step == (limit / step) * step + step;
    assert (limit / step) * step >= limit / step;
  }

  lemma CountBelowLimit(limit: nat, step: nat, i: nat)
    requires 1 <= step && i <= limit / step
    ensures i * step <= limit
  {
    assert limit == (limit / step) * step + limit % step;
    assert (limit / step - i) * step >= 0;
    assert (limit / step - i) * step == (limit / step) * step - i * step;
  }
}
