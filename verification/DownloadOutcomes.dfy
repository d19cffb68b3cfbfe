/**
 * What a transfer or a removal leaves on the disk, told by files and fields:
 * how many bytes may come, which of them stay, and what a failure leaves behind.
 */
module DownloadOutcomes {
  import opened Wrappers
  import opened DownloadStorage

  // ------------------------------------------------------------------- budget

  // What the volume keeps free: a twentieth, at most 256 MiB.
  function Reserve(free: nat): nat {
    if free >= 20 * 256 * MIB then 256 * MIB else free / 20
  }

  predicate Affordable(d: Disk, limits: Limits, free: nat, size: int, used: nat) {
    size <= limits.maxFile && used + size <= limits.maxTotal && size + Reserve(free) <= free
  }

  // The budget is the largest transfer that fits the file limit, the quota and
  // the volume.
  lemma BudgetIsLargest(d: Disk, limits: Limits, free: nat, size: int)
    ensures size <= Budget(d, limits, free) <==> Affordable(d, limits, free, size, Used(d.index))
  {
  }

  // ------------------------------------------------------------------ receiving

  function Bytes(chunks: seq<Chunk>): nat {
    if chunks == [] then 0 else (if chunks[0].Some? then chunks[0].value else 0) + Bytes(chunks[1..])
  }

  lemma {:induction false} ReceivedFrom(chunks: seq<Chunk>, budget: int, written: nat)
    requires written <= budget
    ensures Received(chunks, budget, written)
            == if None !in chunks && written + Bytes(chunks) <= budget then Some(written + Bytes(chunks)) else None
    decreases |chunks|
  {
    if chunks != [] {
      assert None in chunks <==> chunks[0].None? || None in chunks[1..];
      if chunks[0].Some? && written + chunks[0].value <= budget {
        ReceivedFrom(chunks[1..], budget, written + chunks[0].value);
      }
    }
  }

  // A body is received exactly if every piece of it comes and all of it fits.
  lemma ReceivedExactly(chunks: seq<Chunk>, budget: nat)
    ensures Received(chunks, budget, 0)
            == if None !in chunks && Bytes(chunks) <= budget then Some(Bytes(chunks)) else None
  {
    ReceivedFrom(chunks, budget, 0);
  }

  lemma {:induction false} StreamEnds(d: Disk, part: Path, chunks: seq<Chunk>, budget: int, written: nat)
    requires part in d.files && d.files[part] == written
    ensures var states := [d] + StreamStates(d, part, chunks, budget, written);
            states[|states| - 1] == match Received(chunks, budget, written)
                                    case Some(size) => d.(files := d.files[part := size])
                                    case None => d.(files := d.files - {part})
    decreases |chunks|
  {
    if chunks == [] {
      assert d.files[part := written] == d.files;
    } else if chunks[0].Some? && written + chunks[0].value <= budget {
      var more := written + chunks[0].value;
      var grown := d.(files := d.files[part := more]);
      StreamEnds(grown, part, chunks[1..], budget, more);
      var received := Received(chunks[1..], budget, more);
      assert received.Some? ==> grown.files[part := received.value] == d.files[part := received.value];
      assert grown.files - {part} == d.files - {part};
    }
  }

  lemma {:induction false} NoMoreStatesThanChunks(d: Disk, part: Path, chunks: seq<Chunk>, budget: int, written: nat)
    ensures |StreamStates(d, part, chunks, budget, written)| <= |chunks|
    decreases |chunks|
  {
    if chunks != [] && chunks[0].Some? && written + chunks[0].value <= budget {
      var more := written + chunks[0].value;
      NoMoreStatesThanChunks(d.(files := d.files[part := more]), part, chunks[1..], budget, more);
    }
  }

  // While it is received, the part file holds what has come so far, and no
  // other file and no entry changes.
  lemma {:induction false} StreamGrows(d: Disk, part: Path, chunks: seq<Chunk>, budget: int, written: nat, i: nat)
    requires i < |StreamStates(d, part, chunks, budget, written)|
    ensures i < |chunks|
    ensures StreamStates(d, part, chunks, budget, written)[i]
            == d.(files := if None in chunks[..i + 1] || written + Bytes(chunks[..i + 1]) > budget
                           then d.files - {part}
                           else d.files[part := written + Bytes(chunks[..i + 1])])
    decreases |chunks|
  {
    NoMoreStatesThanChunks(d, part, chunks, budget, written);
    assert chunks[..i + 1][0] == chunks[0] && chunks[..i + 1][1..] == chunks[1..][..i];
    if i == 0 {
      assert chunks[..1] == [chunks[0]];
    } else {
      var more := written + chunks[0].value;
      var grown := d.(files := d.files[part := more]);
      StreamGrows(grown, part, chunks[1..], budget, more, i - 1);
      var rest := chunks[1..][..i];
      assert None in chunks[..i + 1] <==> None in rest;
      assert grown.files[part := more + Bytes(rest)] == d.files[part := more + Bytes(rest)];
      assert grown.files - {part} == d.files - {part};
    }
  }

  // ------------------------------------------------------------------ transfers

  function LastOf(d: Disk, states: seq<Disk>): Disk {
    if states == [] then d else states[|states| - 1]
  }

  // The new entry, field by field.
  predicate Entered(before: Index, after: Index, r: Request, path: Path, size: nat, ttl: nat) {
    && after.Keys == before.Keys + {r.id}
    && (forall id | id in before && id != r.id :: after[id] == before[id])
    && after[r.id].id == r.id && after[r.id].owner == r.owner && after[r.id].path == path
    && after[r.id].size == size && after[r.id].createdAt == r.now && after[r.id].expiresAt == r.now + ttl
    && after[r.id].encoded == r.encoded
  }

  // The path a file ends under: its own name, or the id before it if that is taken.
  predicate FiledUnder(d: Disk, r: Request, path: Path) {
    path == if Named(r.owner, r.name) in d.files then Prefixed(r.owner, r.id, r.name) else Named(r.owner, r.name)
  }

  // How a transfer that received its body leaves the disk.
  predicate TransferEnds(d: Disk, after: Disk, r: Request, path: Path, size: nat, ttl: nat, commit: Commit) {
    match commit
    case Completes => after.files == d.files[path := size] && Entered(d.index, after.index, r, path, size, ttl)
    case RenameFails => after.files == d.files[Part(r.owner, r.id) := size] && after.index == d.index
    case FailsBeforeReplace => after == d
    case FailsAfterReplace => after.files == d.files && Entered(d.index, after.index, r, path, size, ttl)
  }

  lemma CommitEnds(d: Disk, r: Request, path: Path, size: nat, limits: Limits, commit: Commit)
    requires path !in d.files && r.id !in d.index && commit != RenameFails
    ensures var moved := d.(files := d.files[path := size]);
            TransferEnds(d, LastOf(moved, CommitStates(moved, NewRecord(r, path, size, limits), commit)),
                         r, path, size, limits.ttl, commit)
  {
    assert d.files[path := size] - {path} == d.files;
  }

  // A transfer leaves the disk as it was unless its whole body came and fitted
  // the budget.  Then it leaves the file and its entry, or by its fault the
  // part file, nothing, or an entry without a file.
  lemma FetchEndsExactly(d: Disk, limits: Limits, r: Request, free: nat, chunks: seq<Chunk>, commit: Commit,
                         path: Path)
    requires Accepted(d) && FreshFor(d, r) && FiledUnder(d, r, path)
    ensures var after := LastOf(d, FetchStates(d, limits, r, free, chunks, commit));
            var affordable := Affordable(d, limits, free, 1, Used(d.index))
                              && Affordable(d, limits, free, Bytes(chunks), Used(d.index));
            if None in chunks || !affordable then
              after == d
            else
              TransferEnds(d, after, r, path, Bytes(chunks), limits.ttl, commit)
  {
    var budget := Budget(d, limits, free);
    BudgetIsLargest(d, limits, free, 1);
    BudgetIsLargest(d, limits, free, Bytes(chunks));
    if budget > 0 {
      FetchEnds(d, limits, r, budget, chunks, commit, path);
      assert FetchStates(d, limits, r, free, chunks, commit) == AfterRead(d, limits, r, budget, chunks, commit);
    }
  }

  // The states of a transfer from its budget on.
  function AfterRead(d: Disk, limits: Limits, r: Request, budget: int, chunks: seq<Chunk>, commit: Commit): seq<Disk> {
    var received := Received(chunks, budget, 0);
    [Receiving(d, r, 0)] + StreamStates(Receiving(d, r, 0), Part(r.owner, r.id), chunks, budget, 0)
    + if received.None? || commit == RenameFails then []
      else [Placed(d, r, received.value)]
           + CommitStates(Placed(d, r, received.value), NewRecord(r, FinalPath(d, r), received.value, limits), commit)
  }

  lemma FetchEnds(d: Disk, limits: Limits, r: Request, budget: nat, chunks: seq<Chunk>, commit: Commit, path: Path)
    requires FreshFor(d, r) && FiledUnder(d, r, path)
    ensures var after := LastOf(d, AfterRead(d, limits, r, budget, chunks, commit));
            if None in chunks || Bytes(chunks) > budget then
              after == d
            else
              TransferEnds(d, after, r, path, Bytes(chunks), limits.ttl, commit)
  {
    var part := Part(r.owner, r.id);
    StreamEnds(Receiving(d, r, 0), part, chunks, budget, 0);
    ReceivedExactly(chunks, budget);
    assert d.files[part := 0] - {part} == d.files;
    assert d.files[part := 0][part := Bytes(chunks)] == d.files[part := Bytes(chunks)];
    if commit != RenameFails {
      CommitEnds(d, r, path, Bytes(chunks), limits, commit);
    }
  }

  // A media transfer leaves nothing unless its file has a size within the budget.
  lemma MediaEndsExactly(d: Disk, limits: Limits, r: Request, free: nat, size: nat, commit: Commit)
    requires Accepted(d) && FreshFor(d, r)
    ensures var after := LastOf(d, MediaStates(d, limits, r, free, size, commit));
            if size == 0 || !Affordable(d, limits, free, size, Used(d.index)) || commit == RenameFails then
              after == d
            else
              TransferEnds(d, after, r, Prefixed(r.owner, r.id, r.name), size, limits.ttl, commit)
  {
    BudgetIsLargest(d, limits, free, size);
    if commit != RenameFails {
      CommitEnds(d, r, Prefixed(r.owner, r.id, r.name), size, limits, commit);
    }
  }

  // ------------------------------------------------------------------- removal

  // The files of the listed entries that can be unlinked.
  function Unlinkable(index: Index, ids: seq<nat>, stuck: set<nat>): set<Path>
    requires forall id | id in ids :: id in index
  {
    set id | id in ids && id !in stuck :: index[id].path
  }

  lemma UnlinkableSplits(index: Index, first: nat, rest: seq<nat>, stuck: set<nat>)
    requires first in index && forall id | id in rest :: id in index
    ensures Unlinkable(index, [first] + rest, stuck)
            == (if first in stuck then {} else {index[first].path}) + Unlinkable(index, rest, stuck)
  {
  }

  lemma {:induction false} UnlinkedSoFar(d: Disk, index: Index, ids: seq<nat>, stuck: set<nat>, i: nat)
    requires i < |ids| && forall id | id in ids :: id in index
    ensures |UnlinkStates(d, index, ids, stuck)| == |ids|
    ensures UnlinkStates(d, index, ids, stuck)[i] == d.(files := d.files - Unlinkable(index, ids[..i + 1], stuck))
    decreases |ids|
  {
    var after := if ids[0] in stuck then d else d.(files := d.files - {index[ids[0]].path});
    if |ids| > 1 {
      UnlinkedSoFar(after, index, ids[1..], stuck, if i > 0 then i - 1 else 0);
    }
    assert ids[..i + 1] == [ids[0]] + ids[1..][..i];
    UnlinkableSplits(index, ids[0], ids[1..][..i], stuck);
  }

  // A removal first takes the entries out of the index, and only then their
  // files one after the other; what cannot be unlinked stays, and nothing else goes.
  lemma RetiringIsExact(d: Disk, ids: seq<nat>, stuck: set<nat>, i: nat)
    requires i <= |ids| && forall id | id in ids :: id in d.index
    ensures |RetireStates(d, ids, stuck)| == |ids| + 1
    ensures var after := RetireStates(d, ids, stuck)[i];
            && after.index == (map id | id in d.index && id !in ids :: d.index[id])
            && after.files == d.files - (set id | id in ids[..i] && id !in stuck :: d.index[id].path)
  {
    var dropped := d.(index := d.index - set id | id in ids);
    assert dropped.index == map id | id in d.index && id !in ids :: d.index[id];
    if ids != [] {
      UnlinkedSoFar(dropped, d.index, ids, stuck, if i > 0 then i - 1 else 0);
    }
  }
}
