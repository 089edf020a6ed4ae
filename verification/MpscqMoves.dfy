/** The changes the protocol makes to the shared ring, and that each keeps the ring's invariant. */
module MpscqMoves {
  import opened Options
  import opened Mpscq
  import opened MpscqRing

  /** Two claims never own the same position. */
  lemma OneOwner(r: Ring, o: nat, o': nat, i: nat)
    requires RingOk(r) && o < |r.claims| && o' < |r.claims|
    requires Owns(r.claims[o], i) && Owns(r.claims[o'], i)
    ensures o == o' && r.commit <= i < r.reserve
  {
    OwnerCell(r, o, i);
    OwnerCell(r, o', i);
  }

  lemma OwnerCell(r: Ring, o: nat, i: nat)
    requires RingOk(r) && o < |r.claims| && Owns(r.claims[o], i)
    ensures r.commit <= i < r.reserve && r.cells[i].owner == o
    ensures r.claims[o].Data? ==> r.cells[i] == Cell(o, Some(r.claims[o].data[i - r.claims[o].tok]))
  {
    assert ClaimOk(r, o, r.claims[o]);
  }

  // ------------------------------------------------------------------ reserving

  function TakeData(r: Ring, o: nat, data: seq<Elem>): Ring
    requires o < |r.claims|
  {
    r.(reserve := r.reserve + |data|, cells := r.cells + Items(o, data),
       claims := r.claims[o := Data(r.reserve, data, 0)])
  }

  lemma TakeDataOk(r: Ring, o: nat, data: seq<Elem>)
    requires RingOk(r) && o < |r.claims| && r.claims[o] == NoClaim
    requires 1 <= |data| && r.reserve + |data| <= r.head + r.size && r.reserve % r.size + |data| <= r.size
    ensures RingOk(TakeData(r, o, data))
  {
    hide Visible, Contents;
    var r' := TakeData(r, o, data);
    forall o' | 0 <= o' < |r'.claims| ensures ClaimOk(r', o', r'.claims[o']) {
      assert ClaimOk(r, o', r.claims[o']);
    }
    forall i | r'.commit <= i < r'.reserve
      ensures r'.cells[i].owner < |r'.claims| && Owns(r'.claims[r'.cells[i].owner], i)
    {
      if i < r.reserve { assert Owns(r.claims[r.cells[i].owner], i); }
    }
    VisibleKept(r, r');
    assert r'.cells[..r.head] == r.cells[..r.head];
  }

  /** Visible positions are untouched when slots stay and published jumps stay. */
  lemma VisibleKept(r: Ring, r': Ring)
    requires Bounds(r) && Visible(r) && Bounds(r')
    requires r'.head == r.head && r'.commit == r.commit && r'.slots == r.slots && r'.size == r.size
    requires r.cells <= r'.cells && |r'.claims| == |r.claims|
    requires forall o :: 0 <= o < |r.claims| && r.claims[o].Lap? && r.claims[o].published ==> r'.claims[o] == r.claims[o]
    ensures Visible(r')
  {
    forall i | r'.head <= i < r'.commit
      ensures if r'.cells[i].item.Some? then r'.slots[i % r'.size] == r'.cells[i].item.value
              else Skipped(r', i, r'.cells[i].owner)
    {
      assert r'.cells[i] == r.cells[i];
      if r.cells[i].item.None? { assert Skipped(r, i, r.cells[i].owner); }
    }
  }

  function TakeLap(r: Ring, o: nat): Ring
    requires o < |r.claims| && r.size > 0
  {
    var lap := NextLap(r.size, r.reserve);
    r.(reserve := lap, cells := r.cells + Padding(o, lap - r.reserve),
       claims := r.claims[o := Lap(r.reserve, lap, false)])
  }

  lemma TakeLapOk(r: Ring, o: nat)
    requires RingOk(r) && o < |r.claims| && r.claims[o] == NoClaim
    requires r.head == r.reserve && r.head % r.size != 0
    ensures RingOk(TakeLap(r, o))
  {
    var r' := TakeLap(r, o);
    forall o' | 0 <= o' < |r'.claims| ensures ClaimOk(r', o', r'.claims[o']) {
      assert ClaimOk(r, o', r.claims[o']);
    }
    VisibleKept(r, r');
    assert r'.cells[..r.head] == r.cells[..r.head];
  }

  // ------------------------------------------------------------------ writing

  function WriteSlot(r: Ring, o: nat): Ring
    requires o < |r.claims| && r.claims[o].Data? && r.claims[o].written < |r.claims[o].data|
    requires r.size > 0 && |r.slots| == r.size && r.claims[o].tok % r.size + |r.claims[o].data| <= r.size
  {
    var c := r.claims[o];
    r.(slots := r.slots[c.tok % r.size + c.written := c.data[c.written]],
       claims := r.claims[o := c.(written := c.written + 1)])
  }

  /** The slot of a reserved position is used by no committed position and by no other claim. */
  lemma SlotFree(r: Ring, i: nat, j: nat)
    requires Bounds(r) && r.commit <= j < r.reserve && r.head <= i < r.reserve && i != j
    ensures i % r.size != j % r.size
  {
    if i < j { DistinctSlots(r.size, i, j); } else { DistinctSlots(r.size, j, i); }
  }

  lemma WriteSlotOk(r: Ring, o: nat)
    requires RingOk(r) && o < |r.claims| && r.claims[o].Data? && r.claims[o].written < |r.claims[o].data|
    ensures r.claims[o].tok % r.size + |r.claims[o].data| <= r.size
    ensures RingOk(WriteSlot(r, o))
  {
    hide Visible, Contents;
    assert ClaimOk(r, o, r.claims[o]);
    var r' := WriteSlot(r, o);
    forall o' | 0 <= o' < |r'.claims| ensures ClaimOk(r', o', r'.claims[o']) {
      assert ClaimOk(r, o', r.claims[o']);
      if o' != o && r.claims[o'].Data? {
        OthersWritten(r, o, o');
      }
    }
    forall i | r'.commit <= i < r'.reserve
      ensures r'.cells[i].owner < |r'.claims| && Owns(r'.claims[r'.cells[i].owner], i)
    {
      assert Owns(r.claims[r.cells[i].owner], i);
    }
    WriteSlotVisible(r, o);
  }

  /** Writing a reserved slot leaves the committed ones. */
  lemma WriteSlotVisible(r: Ring, o: nat)
    requires RingOk(r) && o < |r.claims| && r.claims[o].Data? && r.claims[o].written < |r.claims[o].data|
    requires r.claims[o].tok % r.size + |r.claims[o].data| <= r.size
    ensures Bounds(WriteSlot(r, o)) && Visible(WriteSlot(r, o))
  {
    var c := r.claims[o];
    var r' := WriteSlot(r, o);
    var j := c.tok + c.written;
    ModStep(r.size, c.tok, c.written);
    OwnerCell(r, o, j);
    hide ClaimsOk, Tiled, Contents;
    forall i | r'.head <= i < r'.commit
      ensures if r'.cells[i].item.Some? then r'.slots[i % r'.size] == r'.cells[i].item.value
              else Skipped(r', i, r'.cells[i].owner)
    {
      SlotFree(r, i, j);
      if r.cells[i].item.None? { assert Skipped(r, i, r.cells[i].owner); }
    }
  }

  /** Writing for one claim leaves what another has written. */
  lemma OthersWritten(r: Ring, o: nat, o': nat)
    requires RingOk(r) && o < |r.claims| && o' < |r.claims| && o != o'
    requires r.claims[o].Data? && r.claims[o'].Data? && r.claims[o].written < |r.claims[o].data|
    requires r.claims[o].tok % r.size + |r.claims[o].data| <= r.size
    requires ClaimOk(r, o', r.claims[o'])
    ensures forall i :: 0 <= i < r.claims[o'].written ==>
              WriteSlot(r, o).slots[r.claims[o'].tok % r.size + i] == r.claims[o'].data[i]
  {
    var c, c' := r.claims[o], r.claims[o'];
    var j := c.tok + c.written;
    ModStep(r.size, c.tok, c.written);
    forall i | 0 <= i < c'.written ensures WriteSlot(r, o).slots[c'.tok % r.size + i] == c'.data[i] {
      ModStep(r.size, c'.tok, i);
      if c'.tok + i == j { OneOwner(r, o, o', j); }
      OwnerCell(r, o, j);
      OwnerCell(r, o', c'.tok + i);
      SlotFree(r, c'.tok + i, j);
    }
  }

  // ------------------------------------------------------------------ publishing

  function PublishData(r: Ring, o: nat): Ring
    requires o < |r.claims| && r.claims[o].Data?
  {
    r.(commit := r.claims[o].tok + |r.claims[o].data|, claims := r.claims[o := NoClaim])
  }

  /** Another claim starts at or after the end of the claim that holds commit_tail. */
  lemma ClaimsAfter(r: Ring, o: nat, end: nat, o': nat)
    requires RingOk(r) && o < |r.claims| && o' < |r.claims| && o != o' && end <= r.reserve
    requires r.commit < end && forall i :: r.commit <= i < end ==> Owns(r.claims[o], i)
    ensures r.claims[o'].Data? ==> end <= r.claims[o'].tok
    ensures r.claims[o'].Lap? ==> r.claims[o'].published
  {
    assert ClaimOk(r, o', r.claims[o']);
    var c' := r.claims[o'];
    if c'.Data? && c'.tok < end {
      OneOwner(r, o, o', c'.tok);
    }
    if c'.Lap? && !c'.published {
      OneOwner(r, o, o', r.commit);
    }
  }

  lemma PublishDataOk(r: Ring, o: nat)
    requires RingOk(r) && o < |r.claims| && r.claims[o].Data?
    requires r.claims[o].written == |r.claims[o].data| && r.commit == r.claims[o].tok
    ensures RingOk(PublishData(r, o)) && PublishData(r, o).commit > r.commit
  {
    hide Visible, Contents;
    var c := r.claims[o];
    var end := c.tok + |c.data|;
    var r' := PublishData(r, o);
    assert ClaimOk(r, o, c);
    forall o' | 0 <= o' < |r'.claims| ensures ClaimOk(r', o', r'.claims[o']) {
      assert ClaimOk(r, o', r.claims[o']);
      if o' != o { ClaimsAfter(r, o, end, o'); }
    }
    forall i | r'.commit <= i < r'.reserve
      ensures r'.cells[i].owner < |r'.claims| && Owns(r'.claims[r'.cells[i].owner], i)
    {
      assert Owns(r.claims[r.cells[i].owner], i);
    }
    PublishVisible(r, o);
  }

  /** What is published was written before. */
  lemma PublishVisible(r: Ring, o: nat)
    requires RingOk(r) && o < |r.claims| && r.claims[o].Data?
    requires r.claims[o].written == |r.claims[o].data| && r.commit == r.claims[o].tok
    ensures Bounds(PublishData(r, o)) && Visible(PublishData(r, o))
  {
    hide Tiled, Contents;
    var c := r.claims[o];
    var r' := PublishData(r, o);
    assert ClaimOk(r, o, c);
    forall i | r'.head <= i < r'.commit
      ensures if r'.cells[i].item.Some? then r'.slots[i % r'.size] == r'.cells[i].item.value
              else Skipped(r', i, r'.cells[i].owner)
    {
      if i < r.commit {
        if r.cells[i].item.None? { assert Skipped(r, i, r.cells[i].owner); }
      } else {
        var k := i - c.tok;
        ModStep(r.size, c.tok, k);
        assert r.slots[c.tok % r.size + k] == c.data[k];
      }
    }
  }

  function PublishLap(r: Ring, o: nat): Ring
    requires o < |r.claims| && r.claims[o].Lap?
  {
    r.(commit := r.claims[o].lap, claims := r.claims[o := r.claims[o].(published := true)])
  }

  lemma PublishLapOk(r: Ring, o: nat)
    requires RingOk(r) && o < |r.claims| && r.claims[o].Lap? && !r.claims[o].published
    ensures r.commit == r.claims[o].at && r.head == r.commit
    ensures RingOk(PublishLap(r, o))
  {
    var c := r.claims[o];
    var r' := PublishLap(r, o);
    assert ClaimOk(r, o, c);
    forall o' | 0 <= o' < |r'.claims| ensures ClaimOk(r', o', r'.claims[o']) {
      assert ClaimOk(r, o', r.claims[o']);
      if o' != o { ClaimsAfter(r, o, c.lap, o'); }
    }
    forall i | r'.commit <= i < r'.reserve
      ensures r'.cells[i].owner < |r'.claims| && Owns(r'.claims[r'.cells[i].owner], i)
    {
      assert Owns(r.claims[r.cells[i].owner], i);
    }
    forall i | r'.head <= i < r'.commit ensures r'.cells[i].item.None? && Skipped(r', i, r'.cells[i].owner) {
      assert r.cells[i] == Cell(o, None);
    }
  }

  // ------------------------------------------------------------------ moving head

  /** Only one jump can be under way, and head is where it starts. */
  lemma OneJump(r: Ring, o: nat, o': nat)
    requires RingOk(r) && o < |r.claims| && o' < |r.claims| && r.claims[o].Lap? && r.claims[o'].Lap?
    ensures o == o'
  {
    assert ClaimOk(r, o, r.claims[o]) && ClaimOk(r, o', r.claims[o']);
    assert r.cells[r.head] == Cell(o, None) && r.cells[r.head] == Cell(o', None);
  }

  function JumpHead(r: Ring, o: nat): Ring
    requires o < |r.claims| && r.claims[o].Lap?
  {
    r.(head := r.claims[o].lap, claims := r.claims[o := NoClaim])
  }

  lemma JumpHeadOk(r: Ring, o: nat)
    requires RingOk(r) && o < |r.claims| && r.claims[o].Lap? && r.claims[o].published
    ensures r.head == r.claims[o].at && r.head < r.claims[o].lap && r.claims[o].lap % r.size == 0
    ensures RingOk(JumpHead(r, o))
  {
    hide Visible, Contents;
    var c := r.claims[o];
    var r' := JumpHead(r, o);
    assert ClaimOk(r, o, c);
    LapStart(r.size, c.at);
    forall o' | 0 <= o' < |r'.claims| ensures ClaimOk(r', o', r'.claims[o']) {
      assert ClaimOk(r, o', r.claims[o']);
      if o' != o && r.claims[o'].Lap? { OneJump(r, o, o'); }
    }
    forall i | r'.commit <= i < r'.reserve
      ensures r'.cells[i].owner < |r'.claims| && Owns(r'.claims[r'.cells[i].owner], i)
    {
      assert Owns(r.claims[r.cells[i].owner], i);
    }
    JumpVisible(r, o);
    JumpDelivers(r, o);
  }

  lemma JumpVisible(r: Ring, o: nat)
    requires RingOk(r) && o < |r.claims| && r.claims[o].Lap? && r.claims[o].published
    ensures Bounds(JumpHead(r, o)) && Visible(JumpHead(r, o))
  {
    hide Tiled, Contents;
    var r' := JumpHead(r, o);
    assert ClaimOk(r, o, r.claims[o]);
    LapStart(r.size, r.claims[o].at);
    forall i | r'.head <= i < r'.commit
      ensures r'.cells[i].item.Some? && r'.slots[i % r'.size] == r'.cells[i].item.value
    {
      if r.cells[i].item.None? {
        assert Skipped(r, i, r.cells[i].owner);
        OneJump(r, o, r.cells[i].owner);
      }
    }
  }

  /** The jump passes over nothing but padding. */
  lemma JumpDelivers(r: Ring, o: nat)
    requires RingOk(r) && o < |r.claims| && r.claims[o].Lap?
    ensures r.head <= r.claims[o].lap <= |r.cells|
    ensures Contents(r.cells[..r.claims[o].lap]) == Contents(r.cells[..r.head])
  {
    hide Visible, Tiled, Contents;
    var c := r.claims[o];
    assert ClaimOk(r, o, c);
    var jumped := r.cells[r.head..c.lap];
    forall i | 0 <= i < |jumped| ensures jumped[i].item.None? {
      assert r.cells[r.head + i] == Cell(o, None);
    }
    ContentsPadding(jumped);
    ContentsAppend(r.cells[..r.head], jumped);
    assert r.cells[..r.head] + jumped == r.cells[..c.lap];
  }

  function Pop(r: Ring, out: seq<Elem>): Ring {
    r.(head := r.head + |out|, taken := r.taken + out)
  }

  lemma PopDelivers(r: Ring, out: seq<Elem>)
    requires Bounds(r) && r.head + |out| <= r.commit
    requires forall j :: r.head <= j < r.head + |out| ==> r.cells[j].item == Some(out[j - r.head])
    ensures Contents(r.cells[..r.head + |out|]) == Contents(r.cells[..r.head]) + out
  {
    var popped := r.cells[r.head..r.head + |out|];
    ContentsItems(popped, out);
    ContentsAppend(r.cells[..r.head], popped);
    assert r.cells[..r.head] + popped == r.cells[..r.head + |out|];
  }

  lemma PopOk(r: Ring, out: seq<Elem>)
    requires RingOk(r) && 1 <= |out| && r.head + |out| <= r.commit
    requires forall j :: r.head <= j < r.head + |out| ==> r.cells[j].item == Some(out[j - r.head])
    ensures RingOk(Pop(r, out))
  {
    var r' := Pop(r, out);
    assert r.cells[r.head].item.Some?;
    forall o | 0 <= o < |r'.claims| ensures ClaimOk(r', o, r'.claims[o]) {
      assert ClaimOk(r, o, r.claims[o]);
    }
    forall i | r'.commit <= i < r'.reserve
      ensures r'.cells[i].owner < |r'.claims| && Owns(r'.claims[r'.cells[i].owner], i)
    {
      assert Owns(r.claims[r.cells[i].owner], i);
    }
    forall i | r'.head <= i < r'.commit
      ensures if r'.cells[i].item.Some? then r'.slots[i % r'.size] == r'.cells[i].item.value
              else Skipped(r', i, r'.cells[i].owner)
    {
      if r.cells[i].item.None? { assert Skipped(r, i, r.cells[i].owner); }
    }
    PopDelivers(r, out);
  }
}
