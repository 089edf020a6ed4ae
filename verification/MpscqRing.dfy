/**
 What the shared part of the ring keeps: the three counters in order, the positions
 between commit_tail and reserve_tail tiled by claims, the committed positions holding
 what was reserved for them, and everything delivered so far equal to what was
 reserved, in order, without the padding.
 */
module MpscqRing {
  import opened Arith
  import opened Options
  import opened Mpscq

  /** What an actor has reserved and not yet given up. */
  datatype Claim =
    | NoClaim
    | Data(tok: nat, data: seq<Elem>, written: nat)           // a reservation, its first elements written
    | Lap(at: nat, lap: nat, published: bool)                 // a jump to the next lap, commit_tail moved or not

  /** The shared state, and the claim of every actor: producers first, the consumer last. */
  datatype Ring = Ring(
    size: nat, head: nat, commit: nat, reserve: nat,
    slots: seq<Elem>, cells: seq<Cell>, taken: seq<Elem>, claims: seq<Claim>)

  /** The elements among some cells. */
  function Contents(cells: seq<Cell>): seq<Elem> {
    if cells == [] then []
    else
      var last := cells[|cells| - 1];
      Contents(cells[..|cells| - 1]) + (if last.item.Some? then [last.item.value] else [])
  }

  // ------------------------------------------------------------------ the invariant

  ghost predicate Bounds(r: Ring) {
    && r.size > 0 && |r.slots| == r.size && |r.cells| == r.reserve
    && r.head <= r.commit <= r.reserve <= r.head + r.size
  }

  ghost predicate ClaimOk(r: Ring, o: nat, c: Claim)
    requires r.size > 0 && |r.slots| == r.size && |r.cells| == r.reserve
  {
    match c
    case NoClaim => true
    case Data(tok, data, written) =>
      && 1 <= |data| && written <= |data|
      && r.commit <= tok && tok + |data| <= r.reserve && tok % r.size + |data| <= r.size
      && (forall j :: tok <= j < tok + |data| ==> r.cells[j] == Cell(o, Some(data[j - tok])))
      && (forall i :: 0 <= i < written ==> r.slots[tok % r.size + i] == data[i])
    case Lap(at, lap, published) =>
      && r.head == at && at % r.size != 0 && lap == NextLap(r.size, at) && lap <= r.reserve
      && (if published then lap <= r.commit else r.commit == at)
      && (forall i :: at <= i < lap ==> r.cells[i] == Cell(o, None))
  }

  ghost predicate ClaimsOk(r: Ring)
    requires Bounds(r)
  {
    forall o :: 0 <= o < |r.claims| ==> ClaimOk(r, o, r.claims[o])
  }

  predicate Owns(c: Claim, i: nat) {
    match c
    case NoClaim => false
    case Data(tok, data, _) => tok <= i < tok + |data|
    case Lap(at, lap, published) => !published && at <= i < lap
  }

  /** Every position that is reserved and not committed belongs to the claim of its owner. */
  ghost predicate Tiled(r: Ring)
    requires Bounds(r)
  {
    forall i :: r.commit <= i < r.reserve ==> r.cells[i].owner < |r.claims| && Owns(r.claims[r.cells[i].owner], i)
  }

  ghost predicate Skipped(r: Ring, i: nat, o: nat) {
    o < |r.claims| && r.claims[o].Lap? && r.claims[o].published && r.claims[o].at <= i < r.claims[o].lap
  }

  /** Committed positions hold their element; padding is there only while head is about to jump over it. */
  ghost predicate Visible(r: Ring)
    requires Bounds(r)
  {
    forall i :: r.head <= i < r.commit ==>
      if r.cells[i].item.Some? then r.slots[i % r.size] == r.cells[i].item.value
      else Skipped(r, i, r.cells[i].owner)
  }

  ghost predicate RingOk(r: Ring) {
    && Bounds(r) && ClaimsOk(r) && Tiled(r) && Visible(r)
    && r.taken == Contents(r.cells[..r.head])
  }

  // ------------------------------------------------------------------ arithmetic of the ring

  lemma ModStep(size: nat, a: nat, k: nat)
    requires size > 0 && a % size + k < size
    ensures (a + k) % size == a % size + k
  {
    DivBounds(a, size);
    assert a + k == (a / size) * size + (a % size + k);
    DivUnique(a + k, size, a / size);
  }

  /** Positions less than a lap apart use different slots. */
  lemma DistinctSlots(size: nat, i: nat, j: nat)
    requires size > 0 && i < j < i + size
    ensures i % size != j % size
  {
    var m := i % size;
    if m + (j - i) < size {
      ModStep(size, i, j - i);
    } else {
      ModStep(size, i, size - 1 - m);
      var e := i + (size - 1 - m);
      assert e % size == size - 1;
      var k := j - e - 1;
      LapStart(size, i);
      ModStep(size, e + 1, k);
    }
  }

  lemma LapStart(size: nat, at: nat)
    requires size > 0
    ensures NextLap(size, at) % size == 0
  {
    DivBounds(at, size);
    assert NextLap(size, at) == (at / size + 1) * size;
    MulMod(at / size + 1, size);
  }

  // ------------------------------------------------------------------ contents

  lemma {:induction false} ContentsAppend(a: seq<Cell>, b: seq<Cell>)
    ensures Contents(a + b) == Contents(a) + Contents(b)
    decreases |b|
  {
    if b == [] {
      assert a + b == a;
    } else {
      var n := |b| - 1;
      assert (a + b)[..|a + b| - 1] == a + b[..n];
      ContentsAppend(a, b[..n]);
    }
  }

  lemma {:induction false} ContentsPadding(cells: seq<Cell>)
    requires forall i :: 0 <= i < |cells| ==> cells[i].item.None?
    ensures Contents(cells) == []
    decreases |cells|
  {
    if cells != [] { ContentsPadding(cells[..|cells| - 1]); }
  }

  lemma {:induction false} ContentsItems(cells: seq<Cell>, out: seq<Elem>)
    requires |out| == |cells| && forall i :: 0 <= i < |cells| ==> cells[i].item == Some(out[i])
    ensures Contents(cells) == out
    decreases |cells|
  {
    if cells != [] {
      var n := |cells| - 1;
      ContentsItems(cells[..n], out[..n]);
      assert out == out[..n] + [out[n]];
    }
  }

  lemma ContentsPrefix(cells: seq<Cell>, n: nat)
    requires n <= |cells|
    ensures Contents(cells[..n]) <= Contents(cells)
  {
    hide Contents;
    ContentsAppend(cells[..n], cells[n..]);
    assert cells[..n] + cells[n..] == cells;
  }
}
