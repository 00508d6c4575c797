/** How often pieces are written and completion is reported, over runs. */
module CompletionRuns {
  import opened Bytes
  import opened Peers
  import opened Torrents
  import opened PieceManagers
  import opened SwarmEvents
  import opened SwarmSpec
  import opened SwarmInvariants
  import opened Runs
  import opened StoreRuns
  import M = Messages

  function WriteCount(outs: seq<Output>, i: nat): nat {
    if outs == [] then 0
    else
      var o := outs[|outs| - 1];
      WriteCount(outs[..|outs| - 1], i) + if o.WritePiece? && o.range.pieceIndex == i then 1 else 0
  }

  function CompletedCount(outs: seq<Output>): nat {
    if outs == [] then 0
    else CompletedCount(outs[..|outs| - 1]) + if outs[|outs| - 1].Completed? then 1 else 0
  }

  lemma {:induction false} CountsAppend(xs: seq<Output>, ys: seq<Output>, i: nat)
    ensures WriteCount(xs + ys, i) == WriteCount(xs, i) + WriteCount(ys, i)
    ensures CompletedCount(xs + ys) == CompletedCount(xs) + CompletedCount(ys)
  {
    if ys == [] {
      assert xs + ys == xs;
    } else {
      assert (xs + ys)[..|xs + ys| - 1] == xs + ys[..|ys| - 1];
      CountsAppend(xs, ys[..|ys| - 1], i);
    }
  }

  lemma {:induction false} QuietCounts(outs: seq<Output>, i: nat)
    requires Quiet(outs)
    ensures WriteCount(outs, i) == 0 && CompletedCount(outs) == 0
  {
    if outs != [] {
      QuietCounts(outs[..|outs| - 1], i);
    }
  }

  lemma HeadCounts(i: nat, data: bytes, j: nat)
    ensures var head := [Broadcast(M.Have(i)), WritePiece(BlockRange(i, 0, |data|), data)];
      WriteCount(head, j) == (if j == i then 1 else 0) && CompletedCount(head) == 0
  {
    var head := [Broadcast(M.Have(i)), WritePiece(BlockRange(i, 0, |data|), data)];
    assert head[..1][..0] == [];
    assert WriteCount(head[..1], j) == 0 && CompletedCount(head[..1]) == 0;
  }

  lemma FinishCounts(last: bool, j: nat)
    ensures WriteCount(Finish(last), j) == 0 && CompletedCount(Finish(last)) == if last then 1 else 0
  {
    assert Finish(last) != [] ==> Finish(last)[..0] == [];
  }

  lemma DeliveryCounts(c: Config, s: State, outs: seq<Output>, s': State, i: nat, data: bytes, rest: seq<Output>,
                       j: nat)
    requires Ready(c, s) && Delivers(c, s, outs, s', i, data, rest)
    ensures WriteCount(outs, j)
        == (if j == i then 1 else 0) && CompletedCount(outs) == if AllComplete(s'.pieces) then 1 else 0
  {
    var head := [Broadcast(M.Have(i)), WritePiece(BlockRange(i, 0, |data|), data)];
    var last := Finish(AllComplete(s'.pieces));
    hide WriteCount, CompletedCount;
    CountsAppend(head + last, rest, j);
    CountsAppend(head, last, j);
    HeadCounts(i, data, j);
    FinishCounts(AllComplete(s'.pieces), j);
    QuietCounts(rest, j);
  }

  ghost function Holds(s: State, i: nat): nat { if i in CompleteSet(s.pieces) then 1 else 0 }

  ghost function Done(s: State): nat { if AllComplete(s.pieces) then 1 else 0 }

  lemma AllIsSet(states: seq<PieceState>)
    ensures AllComplete(states) <==> forall i :: 0 <= i < |states| ==> i in CompleteSet(states)
  {
    forall i | 0 <= i < |states| ensures states[i].Complete? <==> i in CompleteSet(states) {
    }
  }

  /**
   * A step that is not fed from the store writes exactly the piece it completes, and reports the end exactly when it
   * brings it about.
   */
  lemma StepCounts(c: Config, s: State, input: Input, outs: seq<Output>, s': State, i: nat)
    requires Ready(c, s) && Next(c, s, input, outs, s') && !input.LocalPiece?
    ensures WriteCount(outs, i) + Holds(s, i) == Holds(s', i)
    ensures CompletedCount(outs) + Done(s) == Done(s')
  {
    StepKinds(c, s, input, outs, s');
    hide Next, Ready, WriteCount, CompletedCount, Quiet, Delivers, CompleteSet, AllComplete;
    if Idle(s, outs, s') {
      QuietCounts(outs, i);
      SameSetSameEnd(s, s');
    } else {
      var k: nat, data: bytes, rest: seq<Output> :| Delivers(c, s, outs, s', k, data, rest);
      DeliveryCounts(c, s, outs, s', k, data, rest, i);
      DeliveryAdds(c, s, outs, s', k, data, rest);
    }
  }

  lemma SameSetSameEnd(s: State, s': State)
    requires |s.pieces| == |s'.pieces| && CompleteSet(s.pieces) == CompleteSet(s'.pieces)
    ensures Done(s) == Done(s')
  {
    AllIsSet(s.pieces);
    AllIsSet(s'.pieces);
  }

  lemma DeliveryAdds(c: Config, s: State, outs: seq<Output>, s': State, i: nat, data: bytes, rest: seq<Output>)
    requires Ready(c, s) && Delivers(c, s, outs, s', i, data, rest)
    ensures Done(s) == 0 && i !in CompleteSet(s.pieces) && CompleteSet(s'.pieces) == CompleteSet(s.pieces) + {i}
  {
    hide Ready, Quiet;
  }

  // ---- Runs ----

  /** How often piece `i` was written, and how often local data completed it. */
  ghost function Written(tr: Trace, i: nat): nat {
    if tr == [] then 0 else Written(Init(tr), i) + WriteCount(tr[|tr| - 1].outs, i)
  }

  ghost function Restored(init: State, tr: Trace, i: nat): nat {
    if tr == [] then 0
    else
      Restored(init, Init(tr), i) +
      var step, before := tr[|tr| - 1], Last(init, Init(tr));
      if step.input.LocalPiece? && i !in CompleteSet(before.pieces) && i in CompleteSet(step.after.pieces)
      then 1 else 0
  }

  /** How often completion was reported, and how often local data completed the last piece. */
  ghost function Reported(tr: Trace): nat {
    if tr == [] then 0 else Reported(Init(tr)) + CompletedCount(tr[|tr| - 1].outs)
  }

  ghost function RestoredLast(init: State, tr: Trace): nat {
    if tr == [] then 0
    else
      RestoredLast(init, Init(tr)) +
      var step, before := tr[|tr| - 1], Last(init, Init(tr));
      if step.input.LocalPiece? && !AllComplete(before.pieces) && AllComplete(step.after.pieces)
      then 1 else 0
  }

  lemma AllStays(c: Config, s: State, input: Input, outs: seq<Output>, s': State)
    requires Ready(c, s) && Ready(c, s') && Next(c, s, input, outs, s') && AllComplete(s.pieces)
    ensures AllComplete(s'.pieces)
  {
    hide Next;
    forall i | 0 <= i < |s'.pieces| ensures s'.pieces[i].Complete? {
      assert i in CompleteSet(s.pieces);
      CompleteGrows(c, s, input, outs, s', i);
    }
  }

  lemma InitHolds(c: Config, init: State, i: nat)
    requires IsInit(c, init)
    ensures Holds(init, i) == 0 && Done(init) == 0
  {
    assert !init.pieces[0].Complete?;
  }

  /**
   * A piece is complete exactly when it was written once or completed from local data once: never both,
   * never twice. Completion of the torrent is reported at most once, and is missing only if local data
   * completed the last piece.
   */
  lemma {:induction false} CompletionIsExact(c: Config, init: State, tr: Trace, i: nat)
    requires Run(c, init, tr)
    ensures Written(tr, i) + Restored(init, tr, i) == Holds(Last(init, tr), i)
    ensures Reported(tr) + RestoredLast(init, tr) == Done(Last(init, tr))
  {
    RunInv(c, init, tr);
    hide Inv, Next, WriteCount, CompletedCount, CompleteSet, AllComplete, Ready;
    if tr == [] {
      InitHolds(c, init, i);
    } else {
      var step, before := tr[|tr| - 1], Last(init, Init(tr));
      CompletionIsExact(c, init, Init(tr), i);
      if step.input.LocalPiece? {
        LocalCounts(c, before, step.input, step.outs, step.after, i);
      } else {
        StepCounts(c, before, step.input, step.outs, step.after, i);
      }
    }
  }

  lemma LocalCounts(c: Config, s: State, input: Input, outs: seq<Output>, s': State, i: nat)
    requires Ready(c, s) && Ready(c, s') && Next(c, s, input, outs, s') && input.LocalPiece?
    ensures WriteCount(outs, i) == CompletedCount(outs) == 0
    ensures i in CompleteSet(s.pieces) ==> i in CompleteSet(s'.pieces)
    ensures AllComplete(s.pieces) ==> AllComplete(s'.pieces)
  {
    hide Ready, CompleteSet, AllComplete;
    assert outs == [];
    if i in CompleteSet(s.pieces) {
      CompleteGrows(c, s, input, outs, s', i);
    }
    if AllComplete(s.pieces) {
      AllStays(c, s, input, outs, s');
    }
  }

  // ---- Local data on a piece that peers have already contributed to ----

  /**
   * Filling piece `i` from a store that holds `content` does not complete it unless that content has the expected
   * hash.
   */
  ghost predicate SafeFill(sha: bytes -> Hash, m: Metainfo, states: seq<PieceState>, i: nat, content: bytes)
    requires PiecesOk(m, states) && i < |states|
  {
    |content| == PieceLen(m, i) ==>
      FillLocal(sha, m, states, UnreceivedBlocks(m, states, i), content)[i].Complete? ==> sha(content) == m.pieces[i]
  }

  ghost predicate AlwaysSafe(m: Metainfo, states: seq<PieceState>, i: nat)
    requires PiecesOk(m, states) && i < |states|
  {
    forall sha: bytes -> Hash, content: bytes :: SafeFill(sha, m, states, i, content)
  }

  /**
   * Local data is safe for every store and every hash exactly when no block of the piece has been
   * received yet. Otherwise the blocks of peers and of the store can complete a piece together that
   * nothing then writes.
   */
  lemma LocalSafeIffUntouched(m: Metainfo, states: seq<PieceState>, i: nat)
    requires PiecesOk(m, states) && i < |states| && states[i].Partial?
    ensures AlwaysSafe(m, states, i) <==> !IsPartial(states, i)
  {
    if states[i].received == 0 {
      forall sha: bytes -> Hash, content: bytes ensures SafeFill(sha, m, states, i, content) {
        if |content| == PieceLen(m, i) {
          UntouchedIsSafe(sha, m, states, i, content);
        }
      }
    } else {
      var sha, content := TouchedIsUnsafe(m, states, i);
    }
  }

  lemma FillFromStore(sha: bytes -> Hash, m: Metainfo, states: seq<PieceState>, i: nat, content: bytes)
    requires PiecesOk(m, states) && i < |states| && states[i].Partial? && |content| == PieceLen(m, i)
    ensures |states[i].blocks| == BlockCount(|content|)
    ensures FillLocal(sha, m, states, UnreceivedBlocks(m, states, i), content)[i].Complete?
      <==> sha(Joined(Filled(states[i].blocks, content))) == m.pieces[i]
  {
    assert content[..|content|] == content;
    assert UnreceivedBlocks(m, states, i) == MissingFrom(|content|, i, states[i].blocks, 0);
    FillWhole(sha, m, states, i, 0, content, content);
  }

  lemma UntouchedIsSafe(sha: bytes -> Hash, m: Metainfo, states: seq<PieceState>, i: nat, content: bytes)
    requires PiecesOk(m, states) && i < |states| && states[i].Partial? && states[i].received == 0
    requires |content| == PieceLen(m, i)
    ensures SafeFill(sha, m, states, i, content)
  {
    FillFromStore(sha, m, states, i, content);
    NoneReceived(states[i].blocks);
    hide FillLocal, UnreceivedBlocks;
    BlockCountPositive(|content|);
    JoinedContent(states[i].blocks, content);
  }

  lemma {:induction false} NoneReceived(blocks: seq<BlockState>)
    requires CountReceived(blocks) == 0
    ensures forall k :: 0 <= k < |blocks| ==> blocks[k].Missing?
  {
    if blocks != [] {
      NoneReceived(blocks[..|blocks| - 1]);
      forall k | 0 <= k < |blocks| - 1 ensures blocks[k].Missing? {
        assert blocks[..|blocks| - 1][k] == blocks[k];
      }
    }
  }

  lemma {:induction false} SomeReceived(blocks: seq<BlockState>) returns (k: nat)
    requires CountReceived(blocks) > 0
    ensures k < |blocks| && blocks[k].Received?
  {
    if blocks[|blocks| - 1].Received? {
      k := |blocks| - 1;
    } else {
      k := SomeReceived(blocks[..|blocks| - 1]);
    }
  }

  /** A received block stands at its place in the joined buffer. */
  lemma {:induction false} JoinedAt(length: nat, blocks: seq<BlockState>, k: nat)
    requires |blocks| <= BlockCount(length) && k < |blocks|
    requires forall j :: 0 <= j < |blocks| ==> blocks[j].Received? && |blocks[j].data| == BlockLen(length, j)
    ensures k * BLOCK_SIZE < |Joined(blocks)| && blocks[k].data != []
    ensures Joined(blocks)[k * BLOCK_SIZE] == blocks[k].data[0]
  {
    var n := |blocks| - 1;
    BlockInterval(length, n);
    JoinedLength(length, blocks[..n]);
    if k < n {
      JoinedAt(length, blocks[..n], k);
    }
  }

  function OtherDigest(h: Hash): (r: Hash)
    ensures r != h
  {
    var r := h[0 := if h[0] == 0 then 1 else 0];
    assert r[0] != h[0];
    r
  }

  lemma TouchedIsUnsafe(m: Metainfo, states: seq<PieceState>, i: nat) returns (sha: bytes -> Hash, content: bytes)
    requires PiecesOk(m, states) && i < |states| && states[i].Partial? && states[i].received > 0
    ensures !SafeFill(sha, m, states, i, content)
  {
    var blocks := states[i].blocks;
    var k := SomeReceived(blocks);
    var length: nat := PieceLen(m, i);
    BlockInterval(length, k);
    var other: byte := if blocks[k].data[0] == 0 then 1 else 0;
    content := seq(length, _ => other);
    var filled := Filled(blocks, content);
    forall j | 0 <= j < |filled| ensures filled[j].Received? && |filled[j].data| == BlockLen(length, j) {
      BlockInterval(length, j);
    }
    JoinedAt(length, filled, k);
    var mixture, expected := Joined(filled), m.pieces[i];
    var wrong := OtherDigest(expected);
    sha := b => if b == mixture then expected else wrong;
    FillFromStore(sha, m, states, i, content);
    assert content[k * BLOCK_SIZE] == other;
    assert content != mixture;
    assert sha(content) == wrong;
  }
}
