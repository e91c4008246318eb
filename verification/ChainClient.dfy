/**
 * The pure helpers of the chain client: splitting a block span into chunks, and reading the internal
 * native transfers out of a call trace.
 */
module ChainClient {
  import opened Wrappers

  // ---- block ranges -------------------------------------------------------------------------

  datatype Range = Range(first: int, last: int)

  /** Contiguous chunks from `first` up to `last`, every one but the final of full size. */
  predicate Partition(ranges: seq<Range>, first: int, last: int, chunk: nat) {
    && (forall k :: 0 <= k < |ranges| ==> ranges[k].first == first + k * chunk)
    && (forall k :: 0 <= k < |ranges| ==> ranges[k].last == Min(first + k * chunk + chunk - 1, last))
    && |ranges| * chunk >= last - first + 1
    && (ranges != [] ==> (|ranges| - 1) * chunk < last - first + 1)
  }

  method BlockRanges(first: int, last: int, chunk: int) returns (r: Option<seq<Range>>)
    ensures r.None? <==> chunk <= 0
    ensures r.Some? ==> (r.value == [] <==> first > last) && Partition(r.value, first, last, chunk)
  {
    if chunk <= 0 {
      return None;
    }
    if first > last {
      return Some([]);
    }
    var ranges: seq<Range> := [];
    var start := first;
    while start <= last
      invariant forall k :: 0 <= k < |ranges| ==> ranges[k].first == first + k * chunk
      invariant forall k :: 0 <= k < |ranges| ==> ranges[k].last == Min(first + k * chunk + chunk - 1, last)
      invariant start == Min(first + |ranges| * chunk, last + 1)
      invariant ranges != [] ==> (|ranges| - 1) * chunk < last - first + 1
      decreases last + 1 - start
    {
      var end := Min(start + chunk - 1, last);
      assert start == first + |ranges| * chunk;
      assert (|ranges| + 1) * chunk == |ranges| * chunk + chunk;
      ranges := ranges + [Range(start, end)];
      start := end + 1;
    }
    return Some(ranges);
  }

  lemma ChunkInside(ranges: seq<Range>, first: int, last: int, chunk: nat, k: nat)
    requires chunk > 0 && Partition(ranges, first, last, chunk) && k < |ranges|
    ensures first <= ranges[k].first <= ranges[k].last <= last && ranges[k].last < ranges[k].first + chunk
  {
    Times(k, |ranges| - 1, chunk);
    Times(0, k, chunk);
  }

  /** Every block of the span lies in a chunk, and every chunk in the span; no chunk is oversized. */
  lemma ChunksCover(ranges: seq<Range>, first: int, last: int, chunk: nat, block: int)
    requires chunk > 0 && Partition(ranges, first, last, chunk)
    ensures first <= block <= last <==> exists k :: 0 <= k < |ranges| && ranges[k].first <= block <= ranges[k].last
    ensures forall k :: 0 <= k < |ranges| ==> ranges[k].first <= ranges[k].last < ranges[k].first + chunk
  {
    forall k | 0 <= k < |ranges|
      ensures first <= ranges[k].first <= ranges[k].last <= last && ranges[k].last < ranges[k].first + chunk
    {
      ChunkInside(ranges, first, last, chunk, k);
    }
    if first <= block <= last {
      ChunkOf(ranges, first, last, chunk, block);
    }
  }

  lemma ChunkOf(ranges: seq<Range>, first: int, last: int, chunk: nat, block: int)
    requires chunk > 0 && Partition(ranges, first, last, chunk) && first <= block <= last
    ensures exists k :: 0 <= k < |ranges| && ranges[k].first <= block <= ranges[k].last
  {
    var k := (block - first) / chunk;
    assert k * chunk <= block - first < k * chunk + chunk;
    if k >= |ranges| {
      Times(|ranges|, k, chunk);
    }
    assert ranges[k].first <= block <= ranges[k].last;
  }

  /** Chunks do not overlap: a block is in at most one. */
  lemma ChunksDisjoint(ranges: seq<Range>, first: int, last: int, chunk: nat, i: nat, j: nat)
    requires chunk > 0 && Partition(ranges, first, last, chunk) && i < j < |ranges|
    ensures ranges[i].last < ranges[j].first
  {
    Times(i + 1, j, chunk);
  }

  lemma Times(i: nat, j: nat, n: nat)
    requires i <= j
    ensures i * n <= j * n && (i + 1) * n == i * n + n
  {
    assert j * n == i * n + (j - i) * n;
  }

  // ---- call traces --------------------------------------------------------------------------

  /** A call of a trace. `error` marks one that reverted; `to` is absent for a contract creation. */
  datatype Call = Call(from: string, to: Option<string>, value: int, error: bool, calls: seq<Call>)

  class Calls {
    var out: seq<Call>
  }

  function Flattened(calls: seq<Call>): seq<Call> {
    if calls == [] then [] else FlattenedOne(calls[0]) + Flattened(calls[1..])
  }

  function FlattenedOne(call: Call): seq<Call> {
    if call.error then [] else [call] + Flattened(call.calls)
  }

  lemma {:induction false} FlattenedConcat(a: seq<Call>, b: seq<Call>)
    ensures Flattened(a + b) == Flattened(a) + Flattened(b)
    decreases |a|
  {
    if a == [] {
      assert a + b == b;
    } else {
      assert (a + b)[1..] == a[1..] + b;
      FlattenedConcat(a[1..], b);
    }
  }

  method Walk(node: Call, found: Calls)
    modifies found
    ensures found.out == old(found.out) + Flattened(node.calls)
    decreases node
  {
    for k := 0 to |node.calls|
      invariant found.out == old(found.out) + Flattened(node.calls[..k])
    {
      var child := node.calls[k];
      assert node.calls[..k + 1] == node.calls[..k] + [child];
      FlattenedConcat(node.calls[..k], [child]);
      assert Flattened([child]) == FlattenedOne(child);
      if child.error {
        continue;
      }
      found.out := found.out + [child];
      Walk(child, found);
    }
    assert node.calls[..|node.calls|] == node.calls;
  }

  method FlattenInternalCalls(frame: Call) returns (out: seq<Call>)
    ensures out == Flattened(frame.calls)
  {
    var found := new Calls;
    found.out := [];
    Walk(frame, found);
    out := found.out;
  }

  // ---- which calls, in which order ----------------------------------------------------------

  /** A way down the trace: the child to take at each depth. */
  type Path = seq<nat>

  /** The path leads to a call, and neither it nor any call above it reverted. */
  predicate Live(calls: seq<Call>, path: Path)
    decreases |path|
  {
    path != [] && path[0] < |calls| && !calls[path[0]].error && (|path| == 1 || Live(calls[path[0]].calls, path[1..]))
  }

  function CallAt(calls: seq<Call>, path: Path): Call
    requires Live(calls, path)
    decreases |path|
  {
    if |path| == 1 then calls[path[0]] else CallAt(calls[path[0]].calls, path[1..])
  }

  /** The position at which the walk meets the call of a live path. */
  function Position(calls: seq<Call>, path: Path): (k: nat)
    requires Live(calls, path)
    ensures k < |Flattened(calls)| && Flattened(calls)[k] == CallAt(calls, path)
    decreases |path|
  {
    var i := path[0];
    assert calls == calls[..i] + ([calls[i]] + calls[i + 1..]);
    FlattenedConcat(calls[..i], [calls[i]] + calls[i + 1..]);
    assert ([calls[i]] + calls[i + 1..])[1..] == calls[i + 1..];
    |Flattened(calls[..i])| + if |path| == 1 then 0 else 1 + Position(calls[i].calls, path[1..])
  }

  /** The live path met at a position: the inverse of `Position`. */
  function PathAt(calls: seq<Call>, k: nat): (path: Path)
    requires k < |Flattened(calls)|
    ensures Live(calls, path) && Position(calls, path) == k
    decreases calls
  {
    var here := |FlattenedOne(calls[0])|;
    if k >= here then
      var rest := PathAt(calls[1..], k - here);
      var path := [rest[0] + 1] + rest[1..];
      ShiftedPosition(calls, rest);
      path
    else if k == 0 then [0]
    else
      var below := PathAt(calls[0].calls, k - 1);
      assert ([0] + below)[1..] == below;
      [0] + below
  }

  /** Skipping the first call of a list shifts the positions of the others by what it emits. */
  lemma ShiftedPosition(calls: seq<Call>, rest: Path)
    requires calls != [] && Live(calls[1..], rest)
    ensures var path := [rest[0] + 1] + rest[1..];
            Live(calls, path) && Position(calls, path) == |FlattenedOne(calls[0])| + Position(calls[1..], rest)
  {
    var path := [rest[0] + 1] + rest[1..];
    assert path[1..] == rest[1..];
    assert calls[..rest[0] + 1][1..] == calls[1..][..rest[0]];
  }

  /** Depth-first order: a call comes before its descendants and before what its later siblings lead to. */
  predicate Before(p: Path, q: Path)
    decreases |p|
  {
    q != [] && (p == [] || p[0] < q[0] || (p[0] == q[0] && Before(p[1..], q[1..])))
  }

  lemma {:induction false} PositionsInOrder(calls: seq<Call>, p: Path, q: Path)
    requires Live(calls, p) && Live(calls, q) && Before(p, q)
    ensures Position(calls, p) < Position(calls, q)
    decreases |p|
  {
    if p[0] < q[0] {
      var i, j := p[0], q[0];
      assert calls[..j] == calls[..i] + ([calls[i]] + calls[i + 1..j]);
      FlattenedConcat(calls[..i], [calls[i]] + calls[i + 1..j]);
      assert ([calls[i]] + calls[i + 1..j])[1..] == calls[i + 1..j];
    } else if |p| > 1 {
      PositionsInOrder(calls[p[0]].calls, p[1..], q[1..]);
    }
  }

  lemma {:induction false} PathsOrdered(p: Path, q: Path)
    ensures p == q || Before(p, q) || Before(q, p)
    decreases |p|
  {
    if p != [] && q != [] && p[0] == q[0] {
      PathsOrdered(p[1..], q[1..]);
      assert p == [p[0]] + p[1..] && q == [q[0]] + q[1..];
    }
  }

  /**
   * The walk emits exactly the calls with no reverted call at or above them, each once, in depth-first
   * order: positions and live paths are in one-to-one correspondence.
   */
  lemma WalkIsExact(calls: seq<Call>, p: Path, k: nat)
    requires Live(calls, p)
    ensures PathAt(calls, Position(calls, p)) == p
    ensures k < |Flattened(calls)| ==> Position(calls, PathAt(calls, k)) == k
  {
    var q := PathAt(calls, Position(calls, p));
    PathsOrdered(p, q);
    if Before(p, q) {
      PositionsInOrder(calls, p, q);
    } else if Before(q, p) {
      PositionsInOrder(calls, q, p);
    }
  }

  // ---- internal transfers -------------------------------------------------------------------

  const NATIVE_LOG_INDEX := -1

  datatype NativeTransfer = NativeTransfer(from: string, to: string, value: int, txHash: string, block: int,
                                           blockHash: string, logIndex: int)

  datatype Entry = Entry(txHash: string, result: Option<Call>)

  predicate Watched(call: Call, wanted: set<string>) {
    call.to.Some? && call.value > 0 && call.to.value in wanted
  }

  function TransferAt(call: Call, position: nat, txHash: string, block: int, blockHash: string): NativeTransfer
    requires call.to.Some?
  {
    NativeTransfer(call.from, call.to.value, call.value, txHash, block, blockHash, NATIVE_LOG_INDEX - 1 - position)
  }

  /** The transfers among the first `n` calls. */
  function Emitted(flat: seq<Call>, n: nat, wanted: set<string>, txHash: string, block: int,
                   blockHash: string): seq<NativeTransfer>
    requires n <= |flat|
  {
    if n == 0 then [] else
      Emitted(flat, n - 1, wanted, txHash, block, blockHash)
      + if Watched(flat[n - 1], wanted) then [TransferAt(flat[n - 1], n - 1, txHash, block, blockHash)] else []
  }

  function SubCalls(entry: Entry): seq<Call> {
    if entry.result.Some? then entry.result.value.calls else []
  }

  function OfEntry(entry: Entry, wanted: set<string>, block: int, blockHash: string): seq<NativeTransfer> {
    var flat := Flattened(SubCalls(entry));
    Emitted(flat, |flat|, wanted, entry.txHash, block, blockHash)
  }

  function OfBlock(traced: seq<Entry>, wanted: set<string>, block: int, blockHash: string): seq<NativeTransfer> {
    if traced == [] then [] else
      OfBlock(traced[..|traced| - 1], wanted, block, blockHash)
      + OfEntry(traced[|traced| - 1], wanted, block, blockHash)
  }

  method InternalTransfersFromTrace(traced: seq<Entry>, wanted: set<string>, block: int, blockHash: string)
    returns (transfers: seq<NativeTransfer>)
    ensures transfers == OfBlock(traced, wanted, block, blockHash)
  {
    transfers := [];
    for k := 0 to |traced|
      invariant transfers == OfBlock(traced[..k], wanted, block, blockHash)
    {
      var entry := traced[k];
      assert traced[..k + 1][..k] == traced[..k];
      var flat := [];
      if entry.result.Some? {
        flat := FlattenInternalCalls(entry.result.value);
      }
      ghost var before := transfers;
      for position := 0 to |flat|
        invariant transfers == before + Emitted(flat, position, wanted, entry.txHash, block, blockHash)
      {
        var call := flat[position];
        if call.to.None? || call.value <= 0 || call.to.value !in wanted {
          continue;
        }
        transfers := transfers + [TransferAt(call, position, entry.txHash, block, blockHash)];
      }
    }
    assert traced[..|traced|] == traced;
  }

  /** What is emitted, call by call. */
  lemma {:induction false} EmittedExactly(flat: seq<Call>, n: nat, wanted: set<string>, txHash: string, block: int,
                                          blockHash: string, t: NativeTransfer)
    requires n <= |flat|
    ensures t in Emitted(flat, n, wanted, txHash, block, blockHash)
      <==> exists k :: 0 <= k < n && Watched(flat[k], wanted) && t == TransferAt(flat[k], k, txHash, block, blockHash)
    decreases n
  {
    if n == 0 {
    } else {
      EmittedExactly(flat, n - 1, wanted, txHash, block, blockHash, t);
    }
  }

  /**
   * A transfer is reported exactly for the calls that are live, carry value and reach a watched address,
   * under the index of their place in the trace.
   */
  lemma ReportedExactly(entry: Entry, wanted: set<string>, block: int, blockHash: string, t: NativeTransfer)
    ensures t in OfEntry(entry, wanted, block, blockHash)
      <==> Reported(entry, wanted, block, blockHash, t)
  {
    var calls := SubCalls(entry);
    var flat := Flattened(calls);
    EmittedExactly(flat, |flat|, wanted, entry.txHash, block, blockHash, t);
    if t in OfEntry(entry, wanted, block, blockHash) {
      var k :| 0 <= k < |flat| && Watched(flat[k], wanted)
        && t == TransferAt(flat[k], k, entry.txHash, block, blockHash);
      assert Reports(entry, PathAt(calls, k), wanted, block, blockHash, t);
    }
  }

  /** The call at path `p` hands over value, its own, to a watched address, its own. */
  predicate Reports(entry: Entry, p: Path, wanted: set<string>, block: int, blockHash: string, t: NativeTransfer) {
    var calls := SubCalls(entry);
    && Live(calls, p)
    && (var call := CallAt(calls, p);
        && call.to.Some? && call.value > 0 && call.to.value in wanted
        && t == NativeTransfer(call.from, call.to.value, call.value, entry.txHash, block, blockHash,
             NATIVE_LOG_INDEX - 1 - Position(calls, p)))
  }

  ghost predicate Reported(entry: Entry, wanted: set<string>, block: int, blockHash: string, t: NativeTransfer) {
    exists p: Path :: Reports(entry, p, wanted, block, blockHash, t)
  }

  /** The same for a whole traced block. */
  lemma {:induction false} BlockReportedExactly(traced: seq<Entry>, wanted: set<string>, block: int, blockHash: string,
                                                t: NativeTransfer)
    ensures t in OfBlock(traced, wanted, block, blockHash)
      <==> exists k :: 0 <= k < |traced| && Reported(traced[k], wanted, block, blockHash, t)
    decreases |traced|
  {
    if traced == [] {
      return;
    }
    hide OfEntry;
    var front, last := traced[..|traced| - 1], traced[|traced| - 1];
    BlockReportedExactly(front, wanted, block, blockHash, t);
    ReportedExactly(last, wanted, block, blockHash, t);
    hide Reported;
    assert traced == front + [last];
    ReportedInLonger(front, last, wanted, block, blockHash, t);
  }

  lemma ReportedInLonger(front: seq<Entry>, last: Entry, wanted: set<string>, block: int, blockHash: string,
                         t: NativeTransfer)
    ensures (exists k :: 0 <= k < |front + [last]| && Reported((front + [last])[k], wanted, block, blockHash, t)) <==>
      (Reported(last, wanted, block, blockHash, t) ||
       exists k :: 0 <= k < |front| && Reported(front[k], wanted, block, blockHash, t))
  {
    hide Reported;
    var traced := front + [last];
    if k :| 0 <= k < |front| && Reported(front[k], wanted, block, blockHash, t) {
      assert Reported(traced[k], wanted, block, blockHash, t);
    }
    if Reported(last, wanted, block, blockHash, t) {
      assert Reported(traced[|front|], wanted, block, blockHash, t);
    }
  }

  /** Indexes strictly decrease, from below the native sentinel down to `lowest`. */
  predicate Descending(out: seq<NativeTransfer>, lowest: int, txHash: string) {
    && (forall i :: 0 <= i < |out| ==> lowest <= out[i].logIndex < NATIVE_LOG_INDEX && out[i].txHash == txHash)
    && (forall i, j :: 0 <= i < j < |out| ==> out[j].logIndex < out[i].logIndex)
  }

  lemma {:induction false} EmittedDescending(flat: seq<Call>, n: nat, wanted: set<string>, txHash: string, block: int,
                                             blockHash: string)
    requires n <= |flat|
    ensures Descending(Emitted(flat, n, wanted, txHash, block, blockHash), NATIVE_LOG_INDEX - n, txHash)
    decreases n
  {
    if n == 0 {
    } else {
      var before := Emitted(flat, n - 1, wanted, txHash, block, blockHash);
      EmittedDescending(flat, n - 1, wanted, txHash, block, blockHash);
      if Watched(flat[n - 1], wanted) {
        var t := TransferAt(flat[n - 1], n - 1, txHash, block, blockHash);
        assert Emitted(flat, n, wanted, txHash, block, blockHash) == before + [t];
        assert Descending(before + [t], NATIVE_LOG_INDEX - n, txHash);
      } else {
        assert Emitted(flat, n, wanted, txHash, block, blockHash) == before;
      }
    }
  }

  predicate DistinctKeys(out: seq<NativeTransfer>) {
    forall i, j :: 0 <= i < j < |out| ==> out[i].txHash != out[j].txHash || out[i].logIndex != out[j].logIndex
  }

  predicate FromEntries(out: seq<NativeTransfer>, traced: seq<Entry>) {
    forall t :: t in out ==> t.logIndex < NATIVE_LOG_INDEX && exists e :: e in traced && e.txHash == t.txHash
  }

  /**
   * Natural keys: in a block whose transactions have distinct hashes, no two transfers share
   * (transaction, index), and none has the index of the top-level native transfer or of a log.
   */
  lemma {:induction false} IndexesDistinct(traced: seq<Entry>, wanted: set<string>, block: int, blockHash: string)
    requires forall i, j :: 0 <= i < j < |traced| ==> traced[i].txHash != traced[j].txHash
    ensures DistinctKeys(OfBlock(traced, wanted, block, blockHash))
    ensures FromEntries(OfBlock(traced, wanted, block, blockHash), traced)
    decreases |traced|
  {
    if traced == [] {
      return;
    }
    hide FromEntries, DistinctKeys, OfEntry;
    var front, last := traced[..|traced| - 1], traced[|traced| - 1];
    IndexesDistinct(front, wanted, block, blockHash);
    EntryDescending(last, wanted, block, blockHash);
    assert traced == front + [last];
    KeysJoin(OfBlock(front, wanted, block, blockHash), front, OfEntry(last, wanted, block, blockHash), last);
  }

  lemma EntryDescending(entry: Entry, wanted: set<string>, block: int, blockHash: string)
    ensures exists lowest :: Descending(OfEntry(entry, wanted, block, blockHash), lowest, entry.txHash)
  {
    var flat := Flattened(SubCalls(entry));
    EmittedDescending(flat, |flat|, wanted, entry.txHash, block, blockHash);
    assert Descending(OfEntry(entry, wanted, block, blockHash), NATIVE_LOG_INDEX - |flat|, entry.txHash);
  }

  /** The transfers of one more transaction, whose hash is new. */
  lemma KeysJoin(before: seq<NativeTransfer>, front: seq<Entry>, added: seq<NativeTransfer>, last: Entry)
    requires DistinctKeys(before) && FromEntries(before, front)
    requires exists lowest :: Descending(added, lowest, last.txHash)
    requires forall e :: e in front ==> e.txHash != last.txHash
    ensures DistinctKeys(before + added) && FromEntries(before + added, front + [last])
  {
    assert last in front + [last];
    assert forall i :: 0 <= i < |before| ==> before[i] in before && before[i].txHash != last.txHash;
  }

  function Filtered(transfers: seq<NativeTransfer>, wanted: set<string>): seq<NativeTransfer> {
    if transfers == [] then [] else
      Filtered(transfers[..|transfers| - 1], wanted)
      + if transfers[|transfers| - 1].to in wanted then [transfers[|transfers| - 1]] else []
  }

  lemma {:induction false} FilteredConcat(a: seq<NativeTransfer>, b: seq<NativeTransfer>, wanted: set<string>)
    ensures Filtered(a + b, wanted) == Filtered(a, wanted) + Filtered(b, wanted)
    decreases |b|
  {
    if b == [] {
      assert a + b == a;
    } else {
      assert (a + b)[..|a + b| - 1] == a + b[..|b| - 1];
      FilteredConcat(a, b[..|b| - 1], wanted);
    }
  }

  lemma {:induction false} EmittedFiltered(flat: seq<Call>, n: nat, small: set<string>, large: set<string>,
                                           txHash: string, block: int, blockHash: string)
    requires n <= |flat| && small <= large
    ensures Emitted(flat, n, small, txHash, block, blockHash)
      == Filtered(Emitted(flat, n, large, txHash, block, blockHash), small)
    decreases n
  {
    if n == 0 {
    } else {
      EmittedFiltered(flat, n - 1, small, large, txHash, block, blockHash);
      var added :=
        if Watched(flat[n - 1], large) then [TransferAt(flat[n - 1], n - 1, txHash, block, blockHash)] else [];
      FilteredConcat(Emitted(flat, n - 1, large, txHash, block, blockHash), added, small);
    }
  }

  /** Stability: watching fewer addresses only leaves transfers out; the rest keep their indexes. */
  lemma {:induction false} WatchingFewerFilters(traced: seq<Entry>, small: set<string>, large: set<string>,
                                                block: int, blockHash: string)
    requires small <= large
    ensures OfBlock(traced, small, block, blockHash) == Filtered(OfBlock(traced, large, block, blockHash), small)
    decreases |traced|
  {
    if traced == [] {
    } else {
      var front, last := traced[..|traced| - 1], traced[|traced| - 1];
      WatchingFewerFilters(front, small, large, block, blockHash);
      var flat := Flattened(SubCalls(last));
      EmittedFiltered(flat, |flat|, small, large, last.txHash, block, blockHash);
      FilteredConcat(OfBlock(front, large, block, blockHash), OfEntry(last, large, block, blockHash), small);
    }
  }
}
