// Prefill dispatch: the rank of each routed token among those its sender sends to the same expert,
// and the receiver's prefix sums, together give every routed token its own receive slot.
module Dispatch {
  import opened Arith

  // ---------- Sender ----------

  // Occurrences of expert e among the first k routings.
  function Occurrences(t: seq<int>, e: int, k: nat): nat
    requires k <= |t|
  {
    if k == 0 then 0 else Occurrences(t, e, k - 1) + (if t[k - 1] == e then 1 else 0)
  }

  lemma {:induction false} OccurrencesMonotone(t: seq<int>, e: int, a: nat, b: nat)
    requires a <= b <= |t|
    ensures Occurrences(t, e, a) <= Occurrences(t, e, b)
  {
    if a == b {
    } else {
      OccurrencesMonotone(t, e, a, b - 1);
    }
  }

  lemma {:induction false} OccurrenceOfRank(t: seq<int>, e: int, r: nat, k: nat) returns (q: nat)
    requires k <= |t| && r < Occurrences(t, e, k)
    ensures q < k && t[q] == e && Occurrences(t, e, q) == r
  {
    if r < Occurrences(t, e, k - 1) {
      q := OccurrenceOfRank(t, e, r, k - 1);
    } else {
      q := k - 1;
    }
  }

  lemma RankOrder(t: seq<int>, e: int, p: nat, q: nat)
    requires p < |t| && q < |t| && t[p] == e && Occurrences(t, e, q) <= Occurrences(t, e, p)
    ensures q <= p
  {
    OccurrencesMonotone(t, e, if p < q then p + 1 else q, q);
  }

  lemma RankIsUnique(t: seq<int>, p: nat, q: nat)
    requires p < |t| && q < |t| && t[p] == t[q] && Occurrences(t, t[p], p) == Occurrences(t, t[q], q)
    ensures p == q
  {
    RankOrder(t, t[p], p, q);
    RankOrder(t, t[p], q, p);
  }

  // Entries for a negative expert are never written.
  method SendTokenIdx(topk: seq<int>, numTokens: nat, numTopk: nat, numExperts: nat)
    returns (sendTokenIdx: array<int>, localExpertAcc: array<int>)
    requires |topk| == numTokens * numTopk
    requires forall q :: 0 <= q < |topk| ==> topk[q] < numExperts
    ensures sendTokenIdx.Length == |topk| && localExpertAcc.Length == numExperts
    ensures forall q :: 0 <= q < |topk| && topk[q] >= 0 ==> sendTokenIdx[q] == Occurrences(topk, topk[q], q)
    ensures forall e :: 0 <= e < numExperts ==> localExpertAcc[e] == Occurrences(topk, e, |topk|)
  {
    localExpertAcc := new int[numExperts](_ => 0);
    sendTokenIdx := new int[numTokens * numTopk];
    for i := 0 to numTokens
      invariant i * numTopk <= |topk|
      invariant forall q :: 0 <= q < i * numTopk && topk[q] >= 0 ==> sendTokenIdx[q] == Occurrences(topk, topk[q], q)
      invariant forall e :: 0 <= e < numExperts ==> localExpertAcc[e] == Occurrences(topk, e, i * numTopk)
    {
      ghost var row := i * numTopk;
      assert row + numTopk == (i + 1) * numTopk <= numTokens * numTopk by {
        MulMonotone(i + 1, numTokens, numTopk);
      }
      for j := 0 to numTopk
        invariant forall q :: 0 <= q < row + j && topk[q] >= 0 ==> sendTokenIdx[q] == Occurrences(topk, topk[q], q)
        invariant forall e :: 0 <= e < numExperts ==> localExpertAcc[e] == Occurrences(topk, e, row + j)
      {
        var q := i * numTopk + j;
        var expertIdx := topk[q];
        if expertIdx >= 0 {
          sendTokenIdx[q] := localExpertAcc[expertIdx];
          localExpertAcc[expertIdx] := localExpertAcc[expertIdx] + 1;
        }
      }
    }
  }

  // ---------- Receiver ----------

  const SEND_PER_GROUP := 3

  lemma CellBound(index: nat, experts: nat, ranks: nat)
    requires index < experts * ranks
    ensures ranks > 0 && index / ranks < experts
    ensures (index % ranks) * experts + index / ranks < experts * ranks
  {
    RowOfFlat(index, experts, ranks);
    RowBound(index % ranks, index / ranks, ranks, experts);
  }

  // What one source announces to one local expert: tokens sent, offset in its window, its batch size.
  datatype Cell = Cell(count: int, offset: int, batch: int)

  // The cells of recv_data in the receiver's order: expert by expert, within an expert source by source.
  function Cells(recvData: seq<int>, experts: nat, ranks: nat): (cells: seq<Cell>)
    requires |recvData| == SEND_PER_GROUP * (experts * ranks)
    ensures |cells| == experts * ranks
  {
    seq(experts * ranks, k requires 0 <= k < experts * ranks =>
      CellBound(k, experts, ranks);
      var p := SEND_PER_GROUP * ((k % ranks) * experts + k / ranks);
      Cell(recvData[p], recvData[p + 1], recvData[p + 2]))
  }

  lemma CellAt(recvData: seq<int>, e: nat, src: nat, experts: nat, ranks: nat)
    requires |recvData| == SEND_PER_GROUP * (experts * ranks) && e < experts && src < ranks
    ensures e * ranks + src < experts * ranks && src * experts + e < experts * ranks
    ensures var p := 3 * (src * experts + e);
            Cells(recvData, experts, ranks)[e * ranks + src] == Cell(recvData[p], recvData[p + 1], recvData[p + 2])
  {
    RowBound(e, src, experts, ranks);
    RowBound(src, e, ranks, experts);
    DivModUnique(e, src, ranks);
  }

  // Where source src announces what it sends to local expert e.
  function PairIdx(src: nat, e: nat, experts: nat): nat {
    SEND_PER_GROUP * (src * experts + e)
  }

  lemma CellFor(recvData: seq<int>, cells: seq<Cell>, e: nat, src: nat, experts: nat, ranks: nat, row: nat)
    requires |recvData| == SEND_PER_GROUP * (experts * ranks) && cells == Cells(recvData, experts, ranks)
    requires e < experts && src < ranks && row == e * ranks
    ensures e * ranks + src == row + src < |cells| && PairIdx(src, e, experts) + 2 < |recvData|
    ensures var p := PairIdx(src, e, experts);
            cells[row + src] == Cell(recvData[p], recvData[p + 1], recvData[p + 2])
  {
    CellAt(recvData, e, src, experts, ranks);
  }

  // Tokens announced in the first m cells.
  function Received(cells: seq<Cell>, m: nat): int
    requires m <= |cells|
  {
    if m == 0 then 0 else Received(cells, m - 1) + cells[m - 1].count
  }

  // The largest batch announced in the first m cells.
  function LargestBatch(cells: seq<Cell>, m: nat): int
    requires m <= |cells|
  {
    if m == 0 then 0
    else if LargestBatch(cells, m - 1) < cells[m - 1].batch then cells[m - 1].batch
    else LargestBatch(cells, m - 1)
  }

  // It is at least every announced batch, and 0 or one of them.
  lemma {:induction false} LargestIsAnnounced(cells: seq<Cell>, m: nat)
    requires m <= |cells|
    ensures LargestBatch(cells, m) >= 0 && forall k :: 0 <= k < m ==> cells[k].batch <= LargestBatch(cells, m)
    ensures LargestBatch(cells, m) == 0 || exists k :: 0 <= k < m && cells[k].batch == LargestBatch(cells, m)
  {
    if m == 0 {
    } else {
      LargestIsAnnounced(cells, m - 1);
    }
  }

  // Tokens received for local expert e.
  function ExpertTotal(cells: seq<Cell>, ranks: nat, e: nat): int {
    if (e + 1) * ranks <= |cells| then
      MulMonotone(e, e + 1, ranks);
      Received(cells, (e + 1) * ranks) - Received(cells, e * ranks)
    else 0
  }

  lemma ExpertTotalAt(cells: seq<Cell>, ranks: nat, e: nat, row: nat)
    requires row == e * ranks && row + ranks == (e + 1) * ranks <= |cells|
    ensures ExpertTotal(cells, ranks, e) == Received(cells, row + ranks) - Received(cells, row)
  {
  }

  // The tables filled for the first m cells.
  ghost predicate Filled(recvCount: array<int>, recvOffset: array<int>, cells: seq<Cell>, m: nat)
    requires recvCount.Length == recvOffset.Length == |cells| && m <= |cells|
    reads recvCount, recvOffset
  {
    && (forall k :: 0 <= k < m ==> recvCount[k] == Received(cells, k + 1))
    && (forall k :: 0 <= k < m ==> recvOffset[k] == cells[k].offset)
  }

  method WriteCell(recvCount: array<int>, recvOffset: array<int>, index: nat, count: int, offset: int,
                   ghost cells: seq<Cell>)
    requires recvCount.Length == recvOffset.Length == |cells| && recvCount != recvOffset && index < |cells|
    requires Filled(recvCount, recvOffset, cells, index)
    requires count == Received(cells, index + 1) && offset == cells[index].offset
    modifies recvCount, recvOffset
    ensures Filled(recvCount, recvOffset, cells, index + 1)
  {
    recvCount[index] := count;
    recvOffset[index] := offset;
  }

  lemma RowBelow(e: nat, experts: nat, ranks: nat)
    requires e < experts
    ensures e * ranks + ranks == (e + 1) * ranks <= experts * ranks
  {
    MulMonotone(e + 1, experts, ranks);
  }

  // One expert's row of cells, source by source.
  method RecvExpert(recvData: seq<int>, experts: nat, ranks: nat, e: nat, recvCount: array<int>, recvOffset: array<int>,
                    before: int, batchBefore: int, ghost cells: seq<Cell>, ghost row: nat)
    returns (total: int, maxBatch: int, expertTotal: int)
    requires |recvData| == SEND_PER_GROUP * (experts * ranks) && cells == Cells(recvData, experts, ranks)
    requires e < experts && row == e * ranks && row + ranks <= |cells|
    requires recvCount.Length == recvOffset.Length == |cells| && recvCount != recvOffset
    requires Filled(recvCount, recvOffset, cells, row)
    requires before == Received(cells, row) && batchBefore == LargestBatch(cells, row)
    modifies recvCount, recvOffset
    ensures Filled(recvCount, recvOffset, cells, row + ranks)
    ensures total == Received(cells, row + ranks) && maxBatch == LargestBatch(cells, row + ranks)
    ensures expertTotal == ExpertTotal(cells, ranks, e)
  {
    RowBelow(e, experts, ranks);
    ExpertTotalAt(cells, ranks, e, row);
    total, maxBatch, expertTotal := before, batchBefore, 0;
    for src := 0 to ranks
      invariant Filled(recvCount, recvOffset, cells, row + src)
      invariant total == Received(cells, row + src)
      invariant maxBatch == LargestBatch(cells, row + src)
      invariant expertTotal == total - before
    {
      var index := e * ranks + src;
      var pairIdx := PairIdx(src, e, experts);
      CellFor(recvData, cells, e, src, experts, ranks, row);
      total := total + recvData[pairIdx];
      WriteCell(recvCount, recvOffset, index, total, recvData[pairIdx + 1], cells);
      if maxBatch < recvData[pairIdx + 2] {
        maxBatch := recvData[pairIdx + 2];
      }
      expertTotal := expertTotal + recvData[pairIdx];
    }
  }

  method RecvLayout(recvData: seq<int>, experts: nat, ranks: nat)
    returns (recvCount: array<int>, recvOffset: array<int>, total: int, maxBatch: int, perExpert: seq<int>)
    requires |recvData| == SEND_PER_GROUP * (experts * ranks)
    ensures recvCount.Length == recvOffset.Length == experts * ranks && |perExpert| == experts
    ensures var cells := Cells(recvData, experts, ranks);
            && Filled(recvCount, recvOffset, cells, |cells|)
            && total == Received(cells, |cells|)
            && maxBatch == LargestBatch(cells, |cells|)
            && forall e :: 0 <= e < experts ==> perExpert[e] == ExpertTotal(cells, ranks, e)
  {
    ghost var cells := Cells(recvData, experts, ranks);
    recvCount := new int[experts * ranks];
    recvOffset := new int[experts * ranks];
    total, maxBatch, perExpert := 0, 0, [];
    ghost var row := 0;
    for e := 0 to experts
      invariant row == e * ranks <= |cells| && |perExpert| == e
      invariant Filled(recvCount, recvOffset, cells, row)
      invariant total == Received(cells, row) && maxBatch == LargestBatch(cells, row)
      invariant forall x :: 0 <= x < e ==> perExpert[x] == ExpertTotal(cells, ranks, x)
    {
      RowBelow(e, experts, ranks);
      var expertTotal;
      total, maxBatch, expertTotal :=
        RecvExpert(recvData, experts, ranks, e, recvCount, recvOffset, total, maxBatch, cells, row);
      perExpert := perExpert + [expertTotal];
      row := row + ranks;
    }
  }

  // ---------- One slot per routed token ----------

  // The routings of every rank, and what the receiving rank is told about them.
  ghost predicate Routings(topk: seq<seq<int>>, experts: nat) {
    forall src, q :: 0 <= src < |topk| && 0 <= q < |topk[src]| ==> topk[src][q] < |topk| * experts
  }

  // Contract of the notify collective at rank d: cell (e, src) counts what src routes to expert d*experts + e.
  ghost predicate Notified(cells: seq<Cell>, topk: seq<seq<int>>, experts: nat, d: nat) {
    && |cells| == experts * |topk|
    && forall k :: 0 <= k < |cells| && |topk| > 0 ==>
         cells[k].count == Occurrences(topk[k % |topk|], d * experts + k / |topk|, |topk[k % |topk|]|)
  }

  // The same contract on the received data itself: what source src announces for local expert e.
  ghost predicate Announced(recvData: seq<int>, topk: seq<seq<int>>, experts: nat, d: nat) {
    && |recvData| == SEND_PER_GROUP * (experts * |topk|)
    && forall src: nat, e: nat :: src < |topk| && e < experts ==> AnnouncedAt(recvData, topk, experts, d, src, e)
  }

  ghost predicate AnnouncedAt(recvData: seq<int>, topk: seq<seq<int>>, experts: nat, d: nat, src: nat, e: nat)
    requires src < |topk|
  {
    && PairIdx(src, e, experts) < |recvData|
    && recvData[PairIdx(src, e, experts)] == Occurrences(topk[src], d * experts + e, |topk[src]|)
  }

  lemma AnnouncedIsNotified(recvData: seq<int>, topk: seq<seq<int>>, experts: nat, d: nat)
    requires Announced(recvData, topk, experts, d)
    ensures Notified(Cells(recvData, experts, |topk|), topk, experts, d)
  {
    var ranks := |topk|;
    var cells := Cells(recvData, experts, ranks);
    forall k | 0 <= k < |cells| && ranks > 0
      ensures cells[k].count == Occurrences(topk[k % ranks], d * experts + k / ranks, |topk[k % ranks]|)
    {
      RowOfFlat(k, experts, ranks);
      DivModParts(k, ranks);
      var e, src := k / ranks, k % ranks;
      CellFor(recvData, cells, e, src, experts, ranks, e * ranks);
      assert AnnouncedAt(recvData, topk, experts, d, src, e);
    }
  }

  // Routing q of rank src goes to an expert of rank d.
  ghost predicate Destined(topk: seq<seq<int>>, experts: nat, d: nat, src: nat, q: nat) {
    src < |topk| && q < |topk[src]| && d * experts <= topk[src][q] < d * experts + experts
  }

  // The cell a routing belongs to.
  ghost function CellOf(topk: seq<seq<int>>, experts: nat, d: nat, src: nat, q: nat): (k: nat)
    requires Destined(topk, experts, d, src, q)
    ensures k < experts * |topk|
  {
    RowBound(topk[src][q] - d * experts, src, experts, |topk|);
    (topk[src][q] - d * experts) * |topk| + src
  }

  // send_token_idx plus the preceding entry of recv_count.
  ghost function Slot(cells: seq<Cell>, topk: seq<seq<int>>, experts: nat, d: nat, src: nat, q: nat): int
    requires Notified(cells, topk, experts, d) && Destined(topk, experts, d, src, q)
  {
    Occurrences(topk[src], topk[src][q], q) + Received(cells, CellOf(topk, experts, d, src, q))
  }

  // The slot is what a sender and the receiver compute: the entry of send_token_idx plus, except in the
  // first cell, the entry of recv_count before the routing's cell.
  lemma SlotFromTables(sendTokenIdx: array<int>, recvCount: array<int>, recvOffset: array<int>, cells: seq<Cell>,
                       topk: seq<seq<int>>, experts: nat, d: nat, src: nat, q: nat)
    requires Notified(cells, topk, experts, d) && Destined(topk, experts, d, src, q)
    requires sendTokenIdx.Length == |topk[src]|
    requires forall i :: 0 <= i < |topk[src]| && topk[src][i] >= 0 ==>
               sendTokenIdx[i] == Occurrences(topk[src], topk[src][i], i)
    requires recvCount.Length == recvOffset.Length == |cells| && Filled(recvCount, recvOffset, cells, |cells|)
    ensures var k := CellOf(topk, experts, d, src, q);
            sendTokenIdx[q] + (if k == 0 then 0 else recvCount[k - 1]) == Slot(cells, topk, experts, d, src, q)
  {
    assert topk[src][q] >= 0 by {
      MulMonotone(0, d, experts);
    }
  }

  lemma {:induction false} ReceivedMonotone(cells: seq<Cell>, a: nat, b: nat)
    requires a <= b <= |cells| && forall k :: 0 <= k < |cells| ==> cells[k].count >= 0
    ensures Received(cells, a) <= Received(cells, b)
  {
    if a == b {
    } else {
      ReceivedMonotone(cells, a, b - 1);
    }
  }

  lemma SlotInCell(cells: seq<Cell>, topk: seq<seq<int>>, experts: nat, d: nat, src: nat, q: nat)
    requires Notified(cells, topk, experts, d) && Destined(topk, experts, d, src, q)
    ensures var k := CellOf(topk, experts, d, src, q);
            && k / |topk| == topk[src][q] - d * experts && k % |topk| == src
            && Received(cells, k) <= Slot(cells, topk, experts, d, src, q) < Received(cells, k + 1)
  {
    var k := CellOf(topk, experts, d, src, q);
    DivModUnique(topk[src][q] - d * experts, src, |topk|);
    OccurrencesMonotone(topk[src], topk[src][q], q + 1, |topk[src]|);
  }

  lemma CountsNonNegative(cells: seq<Cell>, topk: seq<seq<int>>, experts: nat, d: nat)
    requires Notified(cells, topk, experts, d)
    ensures forall k :: 0 <= k < |cells| ==> cells[k].count >= 0
  {
  }

  // Slots lie in [0, total_recv_tokens).
  lemma SlotInRange(cells: seq<Cell>, topk: seq<seq<int>>, experts: nat, d: nat, src: nat, q: nat)
    requires Notified(cells, topk, experts, d) && Destined(topk, experts, d, src, q)
    ensures 0 <= Slot(cells, topk, experts, d, src, q) < Received(cells, |cells|)
  {
    var k := CellOf(topk, experts, d, src, q);
    SlotInCell(cells, topk, experts, d, src, q);
    CountsNonNegative(cells, topk, experts, d);
    ReceivedMonotone(cells, 0, k);
    ReceivedMonotone(cells, k + 1, |cells|);
  }

  // No two routings share a slot.
  lemma SlotInjective(cells: seq<Cell>, topk: seq<seq<int>>, experts: nat, d: nat, src: nat, q: nat, src': nat, q': nat)
    requires Notified(cells, topk, experts, d)
    requires Destined(topk, experts, d, src, q) && Destined(topk, experts, d, src', q')
    requires Slot(cells, topk, experts, d, src, q) == Slot(cells, topk, experts, d, src', q')
    ensures src == src' && q == q'
  {
    var k, k' := CellOf(topk, experts, d, src, q), CellOf(topk, experts, d, src', q');
    SlotInCell(cells, topk, experts, d, src, q);
    SlotInCell(cells, topk, experts, d, src', q');
    CountsNonNegative(cells, topk, experts, d);
    ReceivedMonotone(cells, if k < k' then k + 1 else k', k');
    ReceivedMonotone(cells, if k' < k then k' + 1 else k, k);
    assert k == k';
    RankIsUnique(topk[src], q, q');
  }

  lemma {:induction false} LocateCell(cells: seq<Cell>, s: int, m: nat) returns (k: nat)
    requires m <= |cells| && 0 <= s < Received(cells, m)
    ensures k < m && Received(cells, k) <= s < Received(cells, k + 1)
  {
    if s < Received(cells, m - 1) {
      k := LocateCell(cells, s, m - 1);
    } else {
      k := m - 1;
    }
  }

  // Every slot is some routing's.
  lemma SlotOnto(cells: seq<Cell>, topk: seq<seq<int>>, experts: nat, d: nat, s: int) returns (src: nat, q: nat)
    requires Notified(cells, topk, experts, d) && 0 <= s < Received(cells, |cells|)
    ensures Destined(topk, experts, d, src, q) && Slot(cells, topk, experts, d, src, q) == s
  {
    var k := LocateCell(cells, s, |cells|);
    RowOfFlat(k, experts, |topk|);
    DivModParts(k, |topk|);
    src := k % |topk|;
    q := OccurrenceOfRank(topk[src], d * experts + k / |topk|, s - Received(cells, k), |topk[src]|);
  }

  // ---------- Conservation ----------

  // From the received data: slots are a bijection from the routings to this rank onto [0, total).
  lemma SlotsAreABijection(recvData: seq<int>, topk: seq<seq<int>>, experts: nat, d: nat)
    requires Announced(recvData, topk, experts, d)
    ensures Notified(Cells(recvData, experts, |topk|), topk, experts, d)
    ensures var cells := Cells(recvData, experts, |topk|);
            && (forall src, q :: Destined(topk, experts, d, src, q) ==>
                  0 <= Slot(cells, topk, experts, d, src, q) < Received(cells, |cells|))
            && (forall src, q, src', q' | Destined(topk, experts, d, src, q) && Destined(topk, experts, d, src', q') ::
                  Slot(cells, topk, experts, d, src, q) == Slot(cells, topk, experts, d, src', q') ==>
                  src == src' && q == q')
            && (forall s :: 0 <= s < Received(cells, |cells|) ==> Taken(cells, topk, experts, d, s))
  {
    AnnouncedIsNotified(recvData, topk, experts, d);
    var cells := Cells(recvData, experts, |topk|);
    forall src, q | Destined(topk, experts, d, src, q)
      ensures 0 <= Slot(cells, topk, experts, d, src, q) < Received(cells, |cells|)
    {
      SlotInRange(cells, topk, experts, d, src, q);
    }
    forall src, q, src', q' | Destined(topk, experts, d, src, q) && Destined(topk, experts, d, src', q')
        && Slot(cells, topk, experts, d, src, q) == Slot(cells, topk, experts, d, src', q')
      ensures src == src' && q == q'
    {
      SlotInjective(cells, topk, experts, d, src, q, src', q');
    }
    forall s | 0 <= s < Received(cells, |cells|)
      ensures Taken(cells, topk, experts, d, s)
    {
      var src, q := SlotOnto(cells, topk, experts, d, s);
    }
  }

  // Some routing has this slot.
  ghost predicate Taken(cells: seq<Cell>, topk: seq<seq<int>>, experts: nat, d: nat, s: int)
    requires Notified(cells, topk, experts, d)
  {
    exists src: nat, q: nat :: Destined(topk, experts, d, src, q) && Slot(cells, topk, experts, d, src, q) == s
  }

  // Routings to global expert x from the first k ranks.
  ghost function SentTo(topk: seq<seq<int>>, x: int, k: nat): nat
    requires k <= |topk|
  {
    if k == 0 then 0 else SentTo(topk, x, k - 1) + Occurrences(topk[k - 1], x, |topk[k - 1]|)
  }

  lemma {:induction false} RowConserved(cells: seq<Cell>, topk: seq<seq<int>>, experts: nat, d: nat, e: nat, src: nat)
    requires Notified(cells, topk, experts, d) && e < experts && src <= |topk|
    ensures e * |topk| + src <= |cells|
    ensures Received(cells, e * |topk| + src) == Received(cells, e * |topk|) + SentTo(topk, d * experts + e, src)
  {
    MulMonotone(e + 1, experts, |topk|);
    assert (e + 1) * |topk| == e * |topk| + |topk|;
    if src == 0 {
    } else {
      RowConserved(cells, topk, experts, d, e, src - 1);
      DivModUnique(e, src - 1, |topk|);
    }
  }

  // A local expert receives exactly what all ranks send it.
  lemma ExpertConserved(cells: seq<Cell>, topk: seq<seq<int>>, experts: nat, d: nat, e: nat)
    requires Notified(cells, topk, experts, d) && e < experts
    ensures ExpertTotal(cells, |topk|, e) == SentTo(topk, d * experts + e, |topk|)
  {
    RowConserved(cells, topk, experts, d, e, |topk|);
    assert (e + 1) * |topk| == e * |topk| + |topk|;
    ExpertTotalAt(cells, |topk|, e, e * |topk|);
  }

  // Routings to global experts below n.
  ghost function SentBelow(topk: seq<seq<int>>, n: nat): nat {
    if n == 0 then 0 else SentBelow(topk, n - 1) + SentTo(topk, n - 1, |topk|)
  }

  lemma {:induction false} RankConserved(cells: seq<Cell>, topk: seq<seq<int>>, experts: nat, d: nat, e: nat)
    requires Notified(cells, topk, experts, d) && e <= experts
    ensures e * |topk| <= |cells|
    ensures Received(cells, e * |topk|) == SentBelow(topk, d * experts + e) - SentBelow(topk, d * experts)
  {
    MulMonotone(e, experts, |topk|);
    if e == 0 {
    } else {
      RankConserved(cells, topk, experts, d, e - 1);
      RowConserved(cells, topk, experts, d, e - 1, |topk|);
      assert e * |topk| == (e - 1) * |topk| + |topk|;
    }
  }

  // Non-negative routings among the first k.
  ghost function Routed(t: seq<int>, k: nat): nat
    requires k <= |t|
  {
    if k == 0 then 0 else Routed(t, k - 1) + (if t[k - 1] >= 0 then 1 else 0)
  }

  ghost function AllRouted(topk: seq<seq<int>>, k: nat): nat
    requires k <= |topk|
  {
    if k == 0 then 0 else AllRouted(topk, k - 1) + Routed(topk[k - 1], |topk[k - 1]|)
  }

  ghost function OccurrencesBelow(t: seq<int>, n: nat, k: nat): nat
    requires k <= |t|
  {
    if n == 0 then 0 else OccurrencesBelow(t, n - 1, k) + Occurrences(t, n - 1, k)
  }

  lemma {:induction false} OccurrencesBelowStep(t: seq<int>, n: nat, k: nat)
    requires k < |t|
    ensures OccurrencesBelow(t, n, k + 1) == OccurrencesBelow(t, n, k) + (if 0 <= t[k] < n then 1 else 0)
  {
    if n == 0 {
    } else {
      OccurrencesBelowStep(t, n - 1, k);
    }
  }

  lemma {:induction false} OccurrencesZero(t: seq<int>, n: nat)
    ensures OccurrencesBelow(t, n, 0) == 0
  {
    if n == 0 {
    } else {
      OccurrencesZero(t, n - 1);
    }
  }

  lemma {:induction false} RoutedIsBelow(t: seq<int>, n: nat, k: nat)
    requires k <= |t| && forall q :: 0 <= q < |t| ==> t[q] < n
    ensures OccurrencesBelow(t, n, k) == Routed(t, k)
  {
    if k == 0 {
      OccurrencesZero(t, n);
    } else {
      RoutedIsBelow(t, n, k - 1);
      OccurrencesBelowStep(t, n, k - 1);
    }
  }

  // Routings to experts below n, rank by rank.
  ghost function BelowFrom(topk: seq<seq<int>>, n: nat, k: nat): nat
    requires k <= |topk|
  {
    if k == 0 then 0 else BelowFrom(topk, n, k - 1) + OccurrencesBelow(topk[k - 1], n, |topk[k - 1]|)
  }

  lemma {:induction false} BelowFromStep(topk: seq<seq<int>>, n: nat, k: nat)
    requires k <= |topk|
    ensures BelowFrom(topk, n + 1, k) == BelowFrom(topk, n, k) + SentTo(topk, n, k)
  {
    if k == 0 {
    } else {
      BelowFromStep(topk, n, k - 1);
    }
  }

  lemma {:induction false} BelowFromZero(topk: seq<seq<int>>, k: nat)
    requires k <= |topk|
    ensures BelowFrom(topk, 0, k) == 0
  {
    if k == 0 {
    } else {
      BelowFromZero(topk, k - 1);
    }
  }

  lemma {:induction false} SentBelowByRank(topk: seq<seq<int>>, n: nat)
    ensures SentBelow(topk, n) == BelowFrom(topk, n, |topk|)
  {
    if n == 0 {
      BelowFromZero(topk, |topk|);
    } else {
      SentBelowByRank(topk, n - 1);
      BelowFromStep(topk, n - 1, |topk|);
    }
  }

  lemma {:induction false} AllRoutedIsBelow(topk: seq<seq<int>>, n: nat, k: nat)
    requires k <= |topk| && forall src, q :: 0 <= src < |topk| && 0 <= q < |topk[src]| ==> topk[src][q] < n
    ensures BelowFrom(topk, n, k) == AllRouted(topk, k)
  {
    if k == 0 {
    } else {
      AllRoutedIsBelow(topk, n, k - 1);
      RoutedIsBelow(topk[k - 1], n, |topk[k - 1]|);
    }
  }

  // total_recv_tokens over the first d ranks.
  ghost function AllReceived(cells: seq<seq<Cell>>, d: nat): int
    requires d <= |cells|
  {
    if d == 0 then 0 else AllReceived(cells, d - 1) + Received(cells[d - 1], |cells[d - 1]|)
  }

  lemma {:induction false} AllReceivedIs(cells: seq<seq<Cell>>, topk: seq<seq<int>>, experts: nat, d: nat)
    requires d <= |cells| && forall r :: 0 <= r < |cells| ==> Notified(cells[r], topk, experts, r)
    ensures AllReceived(cells, d) == SentBelow(topk, d * experts)
  {
    if d == 0 {
    } else {
      AllReceivedIs(cells, topk, experts, d - 1);
      RankConserved(cells[d - 1], topk, experts, d - 1, experts);
      assert (d - 1) * experts + experts == d * experts;
    }
  }

  // Over all ranks, exactly the routings with a non-negative expert are received.
  lemma TokensConserved(cells: seq<seq<Cell>>, topk: seq<seq<int>>, experts: nat)
    requires |cells| == |topk| && Routings(topk, experts)
    requires forall r :: 0 <= r < |cells| ==> Notified(cells[r], topk, experts, r)
    ensures AllReceived(cells, |cells|) == AllRouted(topk, |topk|)
  {
    AllReceivedIs(cells, topk, experts, |cells|);
    SentBelowByRank(topk, |topk| * experts);
    AllRoutedIsBelow(topk, |topk| * experts, |topk|);
  }
}
