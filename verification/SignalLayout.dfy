/**
 Planning where the optional context records of a signal frame go: first inside
 `__reserved[]`, and past the frame once an extra_context record has been placed.
 */
module SignalLayout {

  const SIGFRAME_MAXSZ := 0x4_0000
  const END_SIZE := 16           // the zero terminator, rounded up
  const EXTRA_SIZE := 32         // struct extra_context, rounded up
  const U64 := 0x1_0000_0000_0000_0000

  type Size = n: nat | n < 0x1_0000_0000_0000_0000

  function RoundUp16(x: nat): (r: nat)
    ensures r % 16 == 0 && x <= r < x + 16
  {
    (x + 15) / 16 * 16
  }

  /** The macro round_up on a size_t: the largest fifteen sizes wrap to 0. */
  function Padded(size: Size): (r: nat)
    ensures r % 16 == 0 && r == if size + 16 <= U64 then RoundUp16(size) else 0
  {
    RoundUp16(size) % U64
  }

  /** Unsigned 64-bit subtraction. */
  function Sub64(a: nat, b: nat): nat {
    (a - b) % U64
  }

  // ------------------------------------------------------------------ what a reservation is to give

  /** A call of signal_frame_layout_reserve. */
  datatype Want = Want(size: Size, extend: bool)

  /** The room that is left: the next offset, its bound, and where extra_context is, if it has been placed. */
  datatype Room = Room(next: nat, max: nat, extra: nat)

  /** The room behind extra_context and its inline terminator. */
  function Extended(room: Room): Room {
    Room(room.next + 48, 0x4_0000 - 16, room.next)
  }

  /** The room in which a record is looked for: the extended one if the record needs it and may have it. */
  function Chosen(room: Room, w: Want): Room {
    if room.extra == 0 && w.extend && room.next + Padded(w.size) > room.max then Extended(room) else room
  }

  /** Whether a record is granted: exactly if it fits there. */
  predicate Fits(room: Room, w: Want) {
    var r := Chosen(room, w);
    r.next + Padded(w.size) <= r.max
  }

  function After(room: Room, w: Want): Room {
    var r := Chosen(room, w);
    if Fits(room, w) then r.(next := r.next + Padded(w.size)) else r
  }

  function AfterAll(room: Room, wants: seq<Want>): Room {
    if wants == [] then room else After(AfterAll(room, wants[..|wants| - 1]), wants[|wants| - 1])
  }

  /** The offset that request `i` of a plan gets, or 0. */
  function OffsetOf(room: Room, wants: seq<Want>, i: nat): nat
    requires i < |wants|
  {
    var r := AfterAll(room, wants[..i]);
    if Fits(r, wants[i]) then Chosen(r, wants[i]).next else 0
  }

  /**
   The granted records of a plan, offset 0 standing for none: aligned, inside the area, one behind the
   other, and clear of extra_context and its inline terminator.
   */
  ghost predicate Placed(wants: seq<Want>, offsets: seq<nat>, lo: nat, hi: nat, extra: nat) {
    && |offsets| == |wants|
    && (forall i :: 0 <= i < |wants| && offsets[i] != 0 ==>
          && offsets[i] % 16 == 0 && lo <= offsets[i] && offsets[i] + Padded(wants[i].size) <= hi
          && (extra != 0 ==> offsets[i] + Padded(wants[i].size) <= extra || extra + 48 <= offsets[i]))
    && (forall i, j :: 0 <= i < j < |wants| && offsets[i] != 0 && offsets[j] != 0 ==>
          offsets[i] + Padded(wants[i].size) <= offsets[j])
  }

  lemma NonePlaced(room: Room, lo: nat)
    ensures Placed([], [], lo, room.next, room.extra) && AfterAll(room, []) == room
  {
  }

  lemma AfterOne(room: Room, wants: seq<Want>, i: nat)
    requires i < |wants|
    ensures AfterAll(room, wants[..i + 1]) == After(AfterAll(room, wants[..i]), wants[i])
  {
    assert wants[..i + 1][..i] == wants[..i];
  }

  lemma PlacedMore(wants: seq<Want>, i: nat, offsets: seq<nat>, lo: nat, room: Room, room': Room, offset: nat)
    requires i < |wants| && Placed(wants[..i], offsets, lo, room.next, room.extra) && lo <= room.next
    requires room' == After(room, wants[i]) && room.next % 16 == 0
    requires offset == if Fits(room, wants[i]) then Chosen(room, wants[i]).next else 0
    requires room.extra != 0 ==> room.extra + EXTRA_SIZE + END_SIZE <= room.next
    ensures Placed(wants[..i + 1], offsets + [offset], lo, room'.next, room'.extra)
  {
    hide Padded;
    forall k | 0 <= k < i
      ensures wants[..i + 1][k] == wants[..i][k] == wants[k]
    {
    }
  }

  class Layout {
    const base: nat              // offset of __reserved[] in the frame
    const reserved: nat          // size of __reserved[]
    var nextOffset: nat
    var offsetMax: nat
    var extraOffset: nat         // 0 until extra_context is placed

    function View(): Room
      reads this
    {
      Room(nextOffset, offsetMax, extraOffset)
    }

    ghost predicate Valid()
      reads this
    {
      && 0 < base && base % 16 == 0 && reserved % 16 == 0
      && END_SIZE + EXTRA_SIZE <= reserved && base + reserved <= SIGFRAME_MAXSZ - END_SIZE
      && nextOffset % 16 == 0 && base <= nextOffset <= offsetMax
      && (if extraOffset == 0
          then offsetMax == base + reserved - END_SIZE - EXTRA_SIZE
          else && offsetMax == SIGFRAME_MAXSZ - END_SIZE
               && base <= extraOffset && extraOffset % 16 == 0
               && extraOffset + EXTRA_SIZE + END_SIZE <= base + reserved
               && extraOffset + EXTRA_SIZE + END_SIZE <= nextOffset)
    }

    /** signal_frame_layout_init. */
    constructor (base: nat, reserved: nat)
      requires 0 < base && base % 16 == 0 && reserved % 16 == 0
      requires END_SIZE + EXTRA_SIZE <= reserved && base + reserved <= SIGFRAME_MAXSZ - END_SIZE
      ensures Valid() && this.base == base && this.reserved == reserved
      ensures nextOffset == base && extraOffset == 0 && offsetMax == base + reserved - 48
    {
      this.base, this.reserved := base, reserved;
      nextOffset := base;
      offsetMax := base + reserved - END_SIZE - EXTRA_SIZE;
      extraOffset := 0;
    }

    /** The room that a plain reservation needs: signal_frame_layout_reserve with `extend` false. */
    method Append(size: Size) returns (ok: bool, offset: nat)
      requires nextOffset <= offsetMax < U64 && nextOffset % 16 == 0
      modifies this`nextOffset
      ensures ok <==> Padded(size) <= offsetMax - old(nextOffset)
      ensures ok ==> offset == old(nextOffset) && nextOffset == offset + Padded(size)
      ensures !ok ==> offset == 0 && nextOffset == old(nextOffset)
      ensures nextOffset % 16 == 0
    {
      var padded := Padded(size);
      offset := 0;
      if padded > Sub64(offsetMax, nextOffset) {
        return false, offset;
      }
      offset := nextOffset;
      nextOffset := nextOffset + padded;
      ok := true;
    }

    /**
     The extension step of signal_frame_layout_reserve: takes back the room kept for the
     extra_context header, places the header and its inline terminator, and opens the
     area up to SIGFRAME_MAXSZ. The reservation of the header never fails.
     */
    method PlaceExtra() returns (ok: bool)
      requires Valid() && extraOffset == 0
      modifies this
      ensures ok && Valid() && extraOffset == old(nextOffset) > 0
      ensures View() == Extended(old(View()))
    {
      offsetMax := offsetMax + EXTRA_SIZE;
      var offset;
      ok, offset := Append(EXTRA_SIZE);
      assert ok;    // so the path that takes the room back is never entered
      extraOffset := offset;
      nextOffset := nextOffset + END_SIZE;
      offsetMax := SIGFRAME_MAXSZ - END_SIZE;
    }

    /**
     signal_frame_layout_reserve: appends a record, moving to the extended area if the
     inline one is full and `extend` allows it.
     */
    method Reserve(w: Want) returns (ok: bool, offset: nat)
      requires Valid()
      modifies this
      ensures Valid() && View() == After(old(View()), w)
      ensures ok == Fits(old(View()), w) && offset == if ok then Chosen(old(View()), w).next else 0
      ensures ok ==> offset > 0 && offset % 16 == 0 && nextOffset == offset + Padded(w.size)
      ensures old(nextOffset) <= nextOffset && (ok ==> old(nextOffset) <= offset)
      ensures extraOffset == old(extraOffset) || (old(extraOffset) == 0 && extraOffset == old(nextOffset))
    {
      if Padded(w.size) > Sub64(offsetMax, nextOffset) && extraOffset == 0 && w.extend {
        var placed := PlaceExtra();
        assert placed;
      }
      ok, offset := Append(w.size);
    }

    /** The last part of signal_frame_layout_plan: the terminator always finds the room kept for it. */
    method Seal() returns (ok: bool, endOffset: nat)
      requires Valid()
      modifies this
      ensures ok && endOffset == old(nextOffset) && endOffset % 16 == 0
      ensures nextOffset == endOffset + 16 == offsetMax
      ensures extraOffset == old(extraOffset)
      ensures if extraOffset == 0 then base <= endOffset && nextOffset + EXTRA_SIZE <= base + reserved
              else extraOffset + EXTRA_SIZE + END_SIZE <= endOffset && nextOffset <= SIGFRAME_MAXSZ
    {
      offsetMax := offsetMax + END_SIZE;
      ok, endOffset := Append(8);
      offsetMax := nextOffset;
    }

    /**
     A whole plan: any sequence of reservations, in the order given, and the terminator. Each is granted
     exactly if it fits the room that the ones before it left.
     */
    method PlanAll(wants: seq<Want>) returns (offsets: seq<nat>, endOffset: nat)
      requires Valid() && extraOffset == 0 && nextOffset == base
      modifies this
      ensures |offsets| == |wants|
      ensures forall i :: 0 <= i < |wants| ==> offsets[i] == OffsetOf(old(View()), wants, i)
      ensures extraOffset == AfterAll(old(View()), wants).extra
      ensures Placed(wants, offsets, base, endOffset, extraOffset)
      ensures extraOffset != 0 ==> base <= extraOffset && extraOffset + EXTRA_SIZE + END_SIZE <= base + reserved
      ensures endOffset % 16 == 0 && nextOffset == endOffset + END_SIZE
      ensures if extraOffset == 0 then nextOffset + EXTRA_SIZE <= base + reserved
              else extraOffset + EXTRA_SIZE + END_SIZE <= endOffset && nextOffset <= SIGFRAME_MAXSZ
    {
      hide After, Chosen, Fits, Padded, AfterAll, Placed;
      offsets := [];
      var i := 0;
      NonePlaced(View(), base);
      ghost var room := View();
      while i < |wants|
        invariant 0 <= i <= |wants| && |offsets| == i && Valid()
        invariant View() == AfterAll(old(View()), wants[..i])
        invariant forall k :: 0 <= k < i ==> offsets[k] == OffsetOf(old(View()), wants, k)
        invariant Placed(wants[..i], offsets, base, nextOffset, extraOffset)
      {
        AfterOne(room, wants, i);
        label turn:
        var ok, offset := Reserve(wants[i]);
        PlacedMore(wants, i, offsets, base, old@turn(View()), View(), offset);
        offsets := offsets + [offset];
        i := i + 1;
      }
      assert wants[..i] == wants;
      var sealed;
      sealed, endOffset := Seal();
    }
  }

  /** A request is padded to at least its size unless it is one of the largest fifteen, which get nothing. */
  lemma PaddedEnough(size: Size)
    ensures size <= Padded(size) <==> size + 16 <= U64
  {
  }

  /** Such a request is granted, with no room at all. */
  lemma HugeGranted(room: Room)
    requires room.next <= room.max
    ensures var w := Want(U64 - 1, true); Fits(room, w) && After(room, w) == room
  {
  }
}
