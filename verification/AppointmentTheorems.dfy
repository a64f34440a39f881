/** What the appointment book and its deferred-arrival windows keep over every run. */
module AppointmentTheorems {
  import opened Wrappers
  import opened Text
  import opened Keyed
  import opened Appointments

  // --- Slot ids --------------------------------------------------------------

  lemma TwoDigitsOf(i: nat)
    requires i < SLOTS_PER_GATE
    ensures |TwoDigits(i)| == 2
    ensures TwoDigits(i) == (if i < 10 then ['0', Digit(i)] else ['1', Digit(i - 10)])
  {
    if i >= 10 {
      assert Decimal(i) == Decimal(1) + [Digit(i - 10)];
    }
  }

  lemma TwoDigitsAreInjective(i: nat, j: nat)
    requires i < SLOTS_PER_GATE && j < SLOTS_PER_GATE && TwoDigits(i) == TwoDigits(j)
    ensures i == j
  {
    TwoDigitsOf(i);
    TwoDigitsOf(j);
    hide TwoDigits;
    assert TwoDigits(i)[0] == TwoDigits(j)[0] && TwoDigits(i)[1] == TwoDigits(j)[1];
  }

  /** The gate and the digits of an id stand at fixed distances from its ends. */
  lemma IdParts(gate: string, digits: string)
    requires |digits| == 2
    ensures var id := "TAS-" + gate + "-" + digits;
            |id| == |gate| + 7 && id[4..|id| - 3] == gate && id[|id| - 2..] == digits
  {
  }

  /** No two gates share a slot id, whatever their names. */
  lemma SlotIdsAreInjective(g: string, i: nat, h: string, j: nat)
    requires i < SLOTS_PER_GATE && j < SLOTS_PER_GATE && SlotId(g, i) == SlotId(h, j)
    ensures g == h && i == j
  {
    TwoDigitsOf(i);
    TwoDigitsOf(j);
    hide TwoDigits;
    IdParts(g, TwoDigits(i));
    IdParts(h, TwoDigits(j));
    TwoDigitsAreInjective(i, j);
  }

  /** `s` is the `k`th slot of its gate. */
  ghost predicate IsNumber(s: Slot, k: nat) {
    k < SLOTS_PER_GATE && s.slotId == SlotId(s.gateId, k)
  }

  /** Minted under its own gate, booked or rescheduled, and moved nowhere while booked. */
  ghost predicate SlotOk(s: Slot) {
    && (exists k: nat :: IsNumber(s, k))
    && s.status != Cancelled && (s.status == Booked ==> s.rescheduledTo == None)
  }

  ghost predicate DistinctIds(book: Book) {
    forall i, j | 0 <= i < j < |book| :: book[i].slotId != book[j].slotId
  }

  /** Gate `g` has its `k`th slot. */
  ghost predicate HasNumber(book: Book, g: string, k: nat) {
    exists i :: 0 <= i < |book| && book[i].gateId == g && book[i].slotId == SlotId(g, k)
  }

  ghost predicate GateIsWhole(book: Book, g: string) {
    HasGate(book, g) ==> forall k: nat | k < SLOTS_PER_GATE :: HasNumber(book, g, k)
  }

  ghost predicate BookOk(book: Book) {
    && DistinctIds(book)
    && (forall i | 0 <= i < |book| :: SlotOk(book[i]))
    && (forall g :: GateIsWhole(book, g))
  }

  function NewSlots(gate: string, base: int, n: nat): (s: seq<Slot>)
    ensures |s| == n && forall i | 0 <= i < n :: s[i] == NewSlot(gate, base, i)
  {
    if n == 0 then [] else NewSlots(gate, base, n - 1) + [NewSlot(gate, base, n - 1)]
  }

  lemma NewKeyIsAbsent(book: Book, gate: string, base: int, n: nat)
    requires n < SLOTS_PER_GATE && !HasGate(book, gate)
    requires forall i | 0 <= i < |book| :: SlotOk(book[i])
    ensures forall i | 0 <= i < |book| + n :: (book + NewSlots(gate, base, n))[i].slotId != SlotId(gate, n)
  {
    var all := book + NewSlots(gate, base, n);
    forall i | 0 <= i < |all| ensures all[i].slotId != SlotId(gate, n) {
      if all[i].slotId == SlotId(gate, n) {
        if i < |book| {
          var k: nat :| IsNumber(book[i], k);
          SlotIdsAreInjective(book[i].gateId, k, gate, n);
          assert false;
        } else {
          SlotIdsAreInjective(gate, i - |book|, gate, n);
          assert false;
        }
      }
    }
  }

  /** Minting a gate overwrites nothing: it appends that gate's slots to the book. */
  lemma {:induction false} MintAppends(book: Book, gate: string, base: int, n: nat)
    requires n <= SLOTS_PER_GATE && !HasGate(book, gate)
    requires forall i | 0 <= i < |book| :: SlotOk(book[i])
    ensures Mint(book, gate, base, n) == book + NewSlots(gate, base, n)
  {
    hide SlotOk, HasGate, SlotId, Put;
    if n != 0 {
      MintAppends(book, gate, base, n - 1);
      NewKeyIsAbsent(book, gate, base, n - 1);
      PutOfNewKeyAppends(SlotKey(), book + NewSlots(gate, base, n - 1), NewSlot(gate, base, n - 1));
    }
  }

  lemma NewSlotIsOk(gate: string, base: int, k: nat)
    requires k < SLOTS_PER_GATE
    ensures SlotOk(NewSlot(gate, base, k))
  {
    assert IsNumber(NewSlot(gate, base, k), k);
  }

  lemma AppendedGateIsWhole(book: Book, gate: string, base: int, g: string)
    requires forall h :: GateIsWhole(book, h)
    ensures GateIsWhole(book + NewSlots(gate, base, SLOTS_PER_GATE), g)
  {
    var all := book + NewSlots(gate, base, SLOTS_PER_GATE);
    if HasGate(all, g) {
      forall k: nat | k < SLOTS_PER_GATE ensures HasNumber(all, g, k) {
        if g == gate {
          assert all[|book| + k] == NewSlot(gate, base, k);
        } else {
          var j :| 0 <= j < |all| && all[j].gateId == g;
          assert book[j].gateId == g && GateIsWhole(book, g);
          assert HasNumber(book, g, k);
          var i :| 0 <= i < |book| && book[i].gateId == g && book[i].slotId == SlotId(g, k);
          assert all[i] == book[i];
        }
      }
    }
  }

  lemma {:induction false} AppendKeepsIdsDistinct(book: Book, gate: string, base: int, n: nat)
    requires n <= SLOTS_PER_GATE && !HasGate(book, gate) && DistinctIds(book)
    requires forall i | 0 <= i < |book| :: SlotOk(book[i])
    ensures DistinctIds(book + NewSlots(gate, base, n))
    decreases n
  {
    hide SlotOk, HasGate, SlotId;
    if n == 0 {
      assert book + NewSlots(gate, base, 0) == book;
    } else {
      AppendKeepsIdsDistinct(book, gate, base, n - 1);
      NewKeyIsAbsent(book, gate, base, n - 1);
      var before := book + NewSlots(gate, base, n - 1);
      assert book + NewSlots(gate, base, n) == before + [NewSlot(gate, base, n - 1)];
    }
  }

  lemma AppendedKeepsBook(book: Book, gate: string, base: int)
    requires BookOk(book) && !HasGate(book, gate)
    ensures BookOk(book + NewSlots(gate, base, SLOTS_PER_GATE))
  {
    AppendKeepsIdsDistinct(book, gate, base, SLOTS_PER_GATE);
    forall g ensures GateIsWhole(book + NewSlots(gate, base, SLOTS_PER_GATE), g) {
      AppendedGateIsWhole(book, gate, base, g);
    }
    forall k: nat | k < SLOTS_PER_GATE ensures SlotOk(NewSlot(gate, base, k)) {
      NewSlotIsOk(gate, base, k);
    }
    hide SlotOk, GateIsWhole, HasGate, NewSlot;
  }

  /** The first touch of a gate appends its twelve slots; a later one changes nothing. */
  lemma {:induction false} EnsureGateKeepsBook(book: Book, gate: string, now: int)
    requires BookOk(book)
    ensures BookOk(EnsureGate(book, gate, now)) && HasGate(EnsureGate(book, gate, now), gate)
    ensures EnsureGate(book, gate, now)
            == book + if HasGate(book, gate) then [] else NewSlots(gate, now - now % MINUTE, SLOTS_PER_GATE)
  {
    hide Mint, DistinctIds, SlotOk, GateIsWhole;
    var base := now - now % MINUTE;
    if !HasGate(book, gate) {
      MintAppends(book, gate, base, SLOTS_PER_GATE);
      AppendedKeepsBook(book, gate, base);
      var all := book + NewSlots(gate, base, SLOTS_PER_GATE);
      assert all[|book|] == NewSlot(gate, base, 0);
    }
    hide BookOk;
  }

  lemma MarkKeepsSlot(s: Slot, pick: Slot -> bool, status: Status, to: Option<string>)
    requires SlotOk(s) && status != Cancelled && (status == Booked ==> to == None)
    ensures SlotOk(Mark(s, pick, status, to))
  {
    var k: nat :| IsNumber(s, k);
    assert IsNumber(Mark(s, pick, status, to), k);
  }

  lemma MarkedKeepsWhole(book: Book, pick: Slot -> bool, status: Status, to: Option<string>, g: string)
    requires GateIsWhole(book, g)
    ensures GateIsWhole(Marked(book, pick, status, to), g)
  {
    var b := Marked(book, pick, status, to);
    if HasGate(b, g) {
      var j :| 0 <= j < |b| && b[j].gateId == g;
      assert book[j].gateId == g;
      forall k: nat | k < SLOTS_PER_GATE ensures HasNumber(b, g, k) {
        assert HasNumber(book, g, k);
        var i :| 0 <= i < |book| && book[i].gateId == g && book[i].slotId == SlotId(g, k);
        assert b[i].gateId == g && b[i].slotId == SlotId(g, k);
      }
    }
  }

  /** Marking leaves keys alone, and clears the move of what it books. */
  lemma {:induction false} MarkedKeepsBook(book: Book, pick: Slot -> bool, status: Status, to: Option<string>)
    requires BookOk(book) && status != Cancelled && (status == Booked ==> to == None)
    ensures BookOk(Marked(book, pick, status, to))
  {
    var b := Marked(book, pick, status, to);
    assert DistinctIds(b);
    hide DistinctIds, SlotOk, GateIsWhole, Mark;
    forall i | 0 <= i < |b| ensures SlotOk(b[i]) {
      MarkKeepsSlot(book[i], pick, status, to);
    }
    forall g ensures GateIsWhole(b, g) {
      MarkedKeepsWhole(book, pick, status, to, g);
    }
  }

  // --- Windows over every run ------------------------------------------------

  ghost predicate WindowsOk(windows: seq<Window>) {
    && |windows| <= 32
    && forall i, j | 0 <= i < j < |windows| :: windows[i].correlationId != windows[j].correlationId
  }

  lemma SeatKeepsWindows(windows: seq<Window>, entry: Window)
    requires WindowsOk(windows)
    ensures WindowsOk(Seat(windows, entry))
  {
    var i := IndexOf(windows, entry.correlationId);
    if i == |windows| {
      forall j | 0 <= j < |windows| ensures windows[j].correlationId != entry.correlationId {
      }
    }
  }

  lemma BookingKeepsWindows(windows: seq<Window>, gate: string, t: int)
    requires WindowsOk(windows)
    ensures WindowsOk(CheckBooking(windows, gate, t).0)
  {
  }

  lemma {:induction false} StepKeepsState(s: State, op: Op)
    requires BookOk(s.slots) && WindowsOk(s.windows)
    ensures BookOk(Step(s, op).slots) && WindowsOk(Step(s, op).windows)
  {
    hide BookOk, WindowsOk, Marked, EnsureGate;
    match op
    case OpTouch(gate, now) => EnsureGateKeepsBook(s.slots, gate, now);
    case OpReschedule(gate, to, now) =>
      EnsureGateKeepsBook(s.slots, gate, now);
      MarkedKeepsBook(EnsureGate(s.slots, gate, now), BookedAt(gate), Rescheduled, to);
    case OpRestore(gate) => MarkedKeepsBook(s.slots, RescheduledAt(gate), Booked, None);
    case OpApply(win, mintedAt, receivedAt) =>
      var b := GateTouched(s.slots, win.gateId, mintedAt);
      if Truthy(win.gateId) {
        EnsureGateKeepsBook(s.slots, win.gateId.value, mintedAt);
      }
      MarkedKeepsBook(b, InWindow(win), Rescheduled, None);
      SeatKeepsWindows(s.windows, Entry(b, s.windows, win, receivedAt));
    case OpSeat(stored, now) => SeatKeepsWindows(s.windows, Reseated(stored, now));
    case OpBook(gate, t) => BookingKeepsWindows(s.windows, gate, t);
  }

  /**
   * In every run: slot ids are distinct, every gate named has all its slots, a booked slot is moved nowhere,
   * and at most 32 windows stand, with distinct correlation ids.
   */
  lemma {:induction false} EveryRunKeepsState(ops: seq<Op>)
    ensures BookOk(Execute(State([], []), ops).slots) && WindowsOk(Execute(State([], []), ops).windows)
  {
    if |ops| == 0 {
      assert forall g :: GateIsWhole([], g);
    } else {
      EveryRunKeepsState(ops[..|ops| - 1]);
      StepKeepsState(Execute(State([], []), ops[..|ops| - 1]), ops[|ops| - 1]);
    }
  }

  // --- What each operation does to the slots ---------------------------------

  /** The `i`th slot of a gate first named at `now`: on the minute, a quarter of an hour apart, booked and unmoved. */
  ghost predicate IsFresh(s: Slot, gate: string, now: int, i: int) {
    && 0 <= i < 12
    && s.slotId == "TAS-" + gate + "-"
                   + (if i < 10 then ['0', '0' + i as char] else ['1', '0' + (i - 10) as char])
    && s.gateId == gate && s.start == now - now % 60_000_000 + i * 15 * 60_000_000
    && s.status == Booked && s.rescheduledTo == None
  }

  lemma NewSlotIsFresh(gate: string, now: int, i: nat)
    requires i < SLOTS_PER_GATE
    ensures IsFresh(NewSlot(gate, now - now % MINUTE, i), gate, now, i)
  {
    TwoDigitsOf(i);
    hide TwoDigits;
  }

  /** A gate already in the book is left alone; a new one gets twelve fresh slots at the end of the book. */
  lemma FirstTouchMintsTwelve(book: Book, gate: string, now: int)
    requires BookOk(book)
    ensures var b := EnsureGate(book, gate, now);
            if exists i | 0 <= i < |book| :: book[i].gateId == gate then b == book
            else |b| == |book| + 12 && book <= b && forall i | |book| <= i < |b| :: IsFresh(b[i], gate, now, i - |book|)
  {
    EnsureGateKeepsBook(book, gate, now);
    var fresh_ := NewSlots(gate, now - now % MINUTE, SLOTS_PER_GATE);
    forall i: nat | i < SLOTS_PER_GATE ensures IsFresh(fresh_[i], gate, now, i) {
      NewSlotIsFresh(gate, now, i);
    }
    hide EnsureGate, BookOk, IsFresh;
  }

  /** Position `at[k]` is the `k`th at which the books differ, and `listed[k]` its slot afterwards. */
  ghost predicate ListsAt(before: Book, after: Book, listed: seq<Slot>, at: seq<nat>) {
    && |before| == |after| && |at| == |listed|
    && (forall k | 0 <= k < |at| :: at[k] < |after| && listed[k] == after[at[k]])
    && (forall k, l | 0 <= k < l < |at| :: at[k] < at[l])
    && (forall i | 0 <= i < |before| :: i in at <==> before[i] != after[i])
  }

  /** `listed` holds exactly the slots that changed, as they are afterwards, in book order. */
  ghost predicate ListsTheChanged(before: Book, after: Book, listed: seq<Slot>) {
    exists at: seq<nat> :: ListsAt(before, after, listed, at)
  }

  lemma ListOneMore(before: Book, after: Book, listed: seq<Slot>, at: seq<nat>)
    requires |before| == |after| > 0
    requires ListsAt(before[..|before| - 1], after[..|after| - 1], listed, at)
    ensures var n := |before| - 1;
            if before[n] != after[n] then ListsAt(before, after, listed + [after[n]], at + [n])
            else ListsAt(before, after, listed, at)
  {
    var n := |before| - 1;
    forall i | 0 <= i < n ensures i in at <==> before[i] != after[i] {
      assert before[..n][i] == before[i] && after[..n][i] == after[i];
    }
    assert n !in at;
    if before[n] != after[n] {
      var longer := at + [n];
      assert forall i :: i in longer <==> i in at || i == n;
    }
  }

  lemma OneMoreListed(before: Book, after: Book, listed: seq<Slot>)
    requires |before| == |after| > 0
    requires ListsTheChanged(before[..|before| - 1], after[..|after| - 1], listed)
    ensures var n := |before| - 1;
            ListsTheChanged(before, after, listed + if before[n] != after[n] then [after[n]] else [])
  {
    var n := |before| - 1;
    var at: seq<nat> :| ListsAt(before[..n], after[..n], listed, at);
    ListOneMore(before, after, listed, at);
    assert listed + [] == listed;
    hide ListsAt;
  }

  lemma {:induction false} AffectedAreTheChanged(book: Book, pick: Slot -> bool, status: Status, to: Option<string>)
    requires forall s | pick(s) :: s.status != status
    ensures ListsTheChanged(book, Marked(book, pick, status, to), Affected(book, pick, status, to))
  {
    var marked := Marked(book, pick, status, to);
    if |book| == 0 {
      assert ListsAt(book, marked, [], []);
    } else {
      var n := |book| - 1;
      AffectedAreTheChanged(book[..n], pick, status, to);
      assert marked[..n] == Marked(book[..n], pick, status, to);
      OneMoreListed(book, marked, Affected(book[..n], pick, status, to));
    }
  }

  /** Closing a gate reschedules its booked slots, leaves every other slot, and lists what it changed. */
  lemma CloseReschedulesTheBooked(book: Book, gate: string, to: Option<string>, now: int)
    ensures var minted := EnsureGate(book, gate, now);
            var (closed, affected) := Reschedule(book, gate, to, now);
            && |closed| == |minted|
            && (forall i | 0 <= i < |closed| ::
                  closed[i] == if minted[i].gateId == gate && minted[i].status == Booked
                               then minted[i].(status := Rescheduled, rescheduledTo := to)
                               else minted[i])
            && (forall i | 0 <= i < |closed| && closed[i].gateId == gate :: closed[i].status != Booked)
            && ListsTheChanged(minted, closed, affected)
  {
    AffectedAreTheChanged(EnsureGate(book, gate, now), BookedAt(gate), Rescheduled, to);
    hide EnsureGate, Affected, ListsTheChanged;
  }

  /** Resetting a gate books its rescheduled slots again, leaves every other slot, and counts what it changed. */
  lemma ResetBooksTheRescheduled(book: Book, gate: string)
    ensures var (reset, n) := Restore(book, gate);
            && |reset| == |book|
            && (forall i | 0 <= i < |reset| ::
                  reset[i] == if book[i].gateId == gate && book[i].status == Rescheduled
                              then book[i].(status := Booked, rescheduledTo := None)
                              else book[i])
            && exists listed :: ListsTheChanged(book, reset, listed) && |listed| == n
  {
    AffectedAreTheChanged(book, RescheduledAt(gate), Booked, None);
    hide Affected, ListsTheChanged;
  }

  lemma {:induction false} SlotIdsAreOf(slots: seq<Slot>)
    ensures |SlotIds(slots)| == |slots| && forall k | 0 <= k < |slots| :: SlotIds(slots)[k] == slots[k].slotId
  {
    if |slots| != 0 {
      SlotIdsAreOf(slots[..|slots| - 1]);
    }
  }

  /** `ids` are those of the slots that changed, in book order. */
  ghost predicate NamesTheChanged(before: Book, after: Book, ids: seq<string>) {
    exists listed :: ListsTheChanged(before, after, listed) && SlotIds(listed) == ids
  }

  /** The slot is booked, of the window's gate if it names one, and starts within the window. */
  predicate InReach(s: Slot, win: Arrival) {
    && s.status == Booked && win.windowStart <= s.start < win.windowStart + win.windowMin * 60_000_000
    && (win.gateId == None || win.gateId == Some("") || win.gateId == Some(s.gateId))
  }

  /** What an applied window says of itself: its bounds and cap, the bookings it had, and the slots it flipped. */
  ghost predicate Describes(w: Window, win: Arrival, receivedAt: int, booked: int) {
    && w.correlationId == win.correlationId && w.gateId == win.gateId && w.source == win.source
    && w.start == win.windowStart && w.end == win.windowStart + win.windowMin * 60_000_000
    && w.windowMin == win.windowMin && w.slotCap == win.slotCap && w.receivedAt == receivedAt && w.booked == booked
  }

  /** An applied window reschedules the booked slots within its reach, and its entry says so. */
  lemma WindowReschedulesItsReach(s: State, win: Arrival, mintedAt: int, receivedAt: int)
    ensures var touched := if win.gateId.Some? && win.gateId != Some("")
                           then EnsureGate(s.slots, win.gateId.value, mintedAt) else s.slots;
            var after := ApplyWindow(s, win, mintedAt, receivedAt);
            var old_, new_ := FindWindow(s.windows, win.correlationId), FindWindow(after.windows, win.correlationId);
            && |after.slots| == |touched|
            && (forall i | 0 <= i < |touched| ::
                  after.slots[i] == if InReach(touched[i], win)
                                    then touched[i].(status := Rescheduled, rescheduledTo := None)
                                    else touched[i])
            && new_.Some? && Describes(new_.value, win, receivedAt, if old_.Some? then old_.value.booked else 0)
            && NamesTheChanged(touched, after.slots, new_.value.appliedSlots)
  {
    var touched := GateTouched(s.slots, win.gateId, mintedAt);
    AffectedAreTheChanged(touched, InWindow(win), Rescheduled, None);
    SeatedIsFound(s.windows, Entry(touched, s.windows, win, receivedAt));
    hide EnsureGate, Affected, ListsTheChanged, Seat, FindWindow, SlotIds;
  }

  /** A known id is seated where it stands; a new one last, and the oldest window goes once there are 32. */
  lemma SeatKeepsTheLatest(windows: seq<Window>, entry: Window)
    requires WindowsOk(windows)
    ensures var i, seated := IndexOf(windows, entry.correlationId), Seat(windows, entry);
            seated == if i < |windows| then windows[i := entry]
                      else (if |windows| < 32 then windows else windows[1..]) + [entry]
  {
    assert |windows| == 32 ==> (windows + [entry])[1..] == windows[1..] + [entry];
  }

  /** A stored window is seated as it was stored; a reading not stored is now, and bookings not stored are none. */
  lemma RestoredAsStored(s: State, stored: StoredWindow, now: int)
    ensures var after := Step(s, OpSeat(stored, now));
            var w := FindWindow(after.windows, stored.correlationId);
            && after.slots == s.slots && w.Some?
            && w.value.correlationId == stored.correlationId && w.value.gateId == stored.gateId
            && w.value.start == stored.start && w.value.end == stored.end && w.value.windowMin == stored.windowMin
            && w.value.slotCap == stored.slotCap && w.value.source == stored.source
            && w.value.receivedAt == (if stored.receivedAt.Some? then stored.receivedAt.value else now)
            && w.value.booked == (if stored.booked.Some? then stored.booked.value else 0)
            && w.value.appliedSlots == (if stored.appliedSlots.Some? then stored.appliedSlots.value else [])
  {
    SeatedIsFound(s.windows, Reseated(stored, now));
    hide Seat, FindWindow;
  }

  // --- Closing a gate and resetting it ---------------------------------------

  ghost predicate NoneRescheduled(book: Book, gate: string) {
    forall i | 0 <= i < |book| && book[i].gateId == gate :: book[i].status != Rescheduled
  }

  /** Restoring counts every slot the closure marked and every one marked before it. */
  lemma {:induction false} RestoreCounts(book: Book, gate: string, to: Option<string>)
    ensures |Affected(Marked(book, BookedAt(gate), Rescheduled, to), RescheduledAt(gate), Booked, None)|
            == |Affected(book, BookedAt(gate), Rescheduled, to)| + |Affected(book, RescheduledAt(gate), Booked, None)|
  {
    if |book| != 0 {
      var front := book[..|book| - 1];
      RestoreCounts(front, gate, to);
      var m := Marked(book, BookedAt(gate), Rescheduled, to);
      assert m[..|m| - 1] == Marked(front, BookedAt(gate), Rescheduled, to);
    }
  }

  lemma {:induction false} NoneCounted(book: Book, gate: string)
    ensures |Affected(book, RescheduledAt(gate), Booked, None)| == 0 <==> NoneRescheduled(book, gate)
  {
    if |book| != 0 {
      var front, last := book[..|book| - 1], book[|book| - 1];
      NoneCounted(front, gate);
      if NoneRescheduled(front, gate) && !(last.gateId == gate && last.status == Rescheduled) {
        forall i | 0 <= i < |book| && book[i].gateId == gate ensures book[i].status != Rescheduled {
          assert i < |front| ==> front[i] == book[i];
        }
      } else if !NoneRescheduled(front, gate) {
        var i :| 0 <= i < |front| && front[i].gateId == gate && front[i].status == Rescheduled;
        assert book[i] == front[i];
      }
    }
  }

  lemma {:induction false} ResetSlots(minted: Book, gate: string, to: Option<string>)
    requires BookOk(minted)
    ensures Marked(Marked(minted, BookedAt(gate), Rescheduled, to), RescheduledAt(gate), Booked, None) == minted
            <==> NoneRescheduled(minted, gate)
  {
    var closed := Marked(minted, BookedAt(gate), Rescheduled, to);
    var reset := Marked(closed, RescheduledAt(gate), Booked, None);
    forall i | 0 <= i < |minted|
      ensures reset[i] == minted[i] <==> !(minted[i].gateId == gate && minted[i].status == Rescheduled)
    {
      assert SlotOk(minted[i]);
      assert closed[i] == Mark(minted[i], BookedAt(gate), Rescheduled, to);
      assert reset[i] == Mark(closed[i], RescheduledAt(gate), Booked, None);
    }
  }

  /**
   * Closing a gate and resetting it is the identity on the minted book, with equal counts,
   * exactly when the gate had no rescheduled slot before.
   */
  lemma {:induction false} RestoreUndoesReschedule(book: Book, gate: string, to: Option<string>, now: int)
    requires BookOk(book)
    ensures var minted := EnsureGate(book, gate, now);
            var (closed, affected) := Reschedule(book, gate, to, now);
            var (reset, n) := Restore(closed, gate);
            && (reset == minted <==> NoneRescheduled(minted, gate))
            && (n == |affected| <==> NoneRescheduled(minted, gate))
  {
    var minted := EnsureGate(book, gate, now);
    EnsureGateKeepsBook(book, gate, now);
    RestoreCounts(minted, gate, to);
    NoneCounted(minted, gate);
    ResetSlots(minted, gate, to);
  }

  // --- Applying a window -----------------------------------------------------

  lemma {:induction false} NothingPicked(book: Book, pick: Slot -> bool, status: Status, to: Option<string>)
    requires forall i | 0 <= i < |book| :: !pick(book[i])
    ensures Affected(book, pick, status, to) == [] && Marked(book, pick, status, to) == book
  {
    if |book| != 0 {
      NothingPicked(book[..|book| - 1], pick, status, to);
    }
  }

  lemma KnownGate(book: Book, gate: string, now: int)
    requires HasGate(book, gate)
    ensures EnsureGate(book, gate, now) == book
  {
  }

  lemma {:induction false} ReapplyPicksNothing(s: State, win: Arrival, m1: int, r1: int, m2: int)
    requires BookOk(s.slots)
    ensures var slots := ApplyWindow(s, win, m1, r1).slots;
            && GateTouched(slots, win.gateId, m2) == slots
            && Affected(slots, InWindow(win), Rescheduled, None) == []
            && Marked(slots, InWindow(win), Rescheduled, None) == slots
  {
    hide Seat, Entry, BookOk, EnsureGate, Affected;
    var b := GateTouched(s.slots, win.gateId, m1);
    var slots := ApplyWindow(s, win, m1, r1).slots;
    if Truthy(win.gateId) {
      EnsureGateKeepsBook(s.slots, win.gateId.value, m1);
      var i :| 0 <= i < |b| && b[i].gateId == win.gateId.value;
      assert slots[i].gateId == win.gateId.value;
      KnownGate(slots, win.gateId.value, m2);
    }
    forall i | 0 <= i < |slots| ensures !InWindow(win)(slots[i]) {
      assert slots[i] == Mark(b[i], InWindow(win), Rescheduled, None);
    }
    NothingPicked(slots, InWindow(win), Rescheduled, None);
  }

  /**
   * A redelivered window changes no slot, keeps its place and its bookings; its list of
   * applied slots is replaced by the empty list of the second application.
   */
  lemma ReapplyFlipsNothing(s: State, win: Arrival, m1: int, r1: int, m2: int, r2: int)
    requires BookOk(s.slots)
    ensures var once := ApplyWindow(s, win, m1, r1);
            var twice := ApplyWindow(once, win, m2, r2);
            && twice.slots == once.slots
            && FindWindow(once.windows, win.correlationId).Some?
            && twice.windows == once.windows[IndexOf(once.windows, win.correlationId) :=
                 FindWindow(once.windows, win.correlationId).value.(receivedAt := r2, appliedSlots := [])]
  {
    var once := ApplyWindow(s, win, m1, r1);
    ReapplyPicksNothing(s, win, m1, r1, m2);
    var b := GateTouched(s.slots, win.gateId, m1);
    SeatedIsFound(s.windows, Entry(b, s.windows, win, r1));
    assert Entry(once.slots, once.windows, win, r2)
        == FindWindow(once.windows, win.correlationId).value.(receivedAt := r2, appliedSlots := []);
  }

  /** The window flips slot `s`, and would charge a booking for `s`, alike. */
  ghost predicate FlipsWhatItCovers(book: Book, windows: seq<Window>, win: Arrival, s: Slot) {
    InWindow(win)(s) <==> s.status == Booked && Covers(Entry(book, windows, win, 0), s.gateId, s.start)
  }

  /**
   * An applied window flips exactly the booked slots whose bookings it meters, unless its gate is the
   * empty text: then it flips slots of every gate and meters the gate of that name only.
   */
  lemma WindowFlipsWhatItCovers(book: Book, windows: seq<Window>, win: Arrival)
    requires win.windowMin >= 1
    ensures (forall s :: FlipsWhatItCovers(book, windows, win, s)) <==> win.gateId != Some("")
  {
    if win.gateId == Some("") {
      assert !FlipsWhatItCovers(book, windows, win, Slot("", "G", win.windowStart, Booked, None));
    } else {
      forall s ensures FlipsWhatItCovers(book, windows, win, s) {
      }
    }
  }

  // --- Which window decides --------------------------------------------------

  lemma {:induction false} LastCoveringIsLast(windows: seq<Window>, gate: string, t: int)
    ensures var k := LastCovering(windows, gate, t);
            && (k.None? <==> forall i | 0 <= i < |windows| :: !Covers(windows[i], gate, t))
            && (k.Some? ==> Covers(windows[k.value], gate, t)
                            && forall i | k.value < i < |windows| :: !Covers(windows[i], gate, t))
  {
    if |windows| != 0 {
      var last := |windows| - 1;
      LastCoveringIsLast(windows[..last], gate, t);
      if !Covers(windows[last], gate, t) {
        var k := LastCovering(windows[..last], gate, t);
        if k.None? {
          forall i | 0 <= i < |windows| ensures !Covers(windows[i], gate, t) {
            assert i < last ==> windows[..last][i] == windows[i];
          }
        } else {
          assert windows[..last][k.value] == windows[k.value];
          forall i | k.value < i < |windows| ensures !Covers(windows[i], gate, t) {
            assert i < last ==> windows[..last][i] == windows[i];
          }
        }
      }
    }
  }

  /** Only the last-inserted covering window decides a booking: every other window is left as it was. */
  lemma OnlyTheLastCoveringWindowDecides(windows: seq<Window>, gate: string, t: int, k: nat)
    requires k < |windows| && Covers(windows[k], gate, t)
    requires forall i | k < i < |windows| :: !Covers(windows[i], gate, t)
    ensures var (after, answer) := CheckBooking(windows, gate, t);
            && |after| == |windows|
            && (answer.allowed <==> windows[k].booked < windows[k].slotCap)
            && after[k] == windows[k].(booked := windows[k].booked + if answer.allowed then 1 else 0)
            && answer.window == Some(after[k])
            && forall i | 0 <= i < |windows| && i != k :: after[i] == windows[i]
  {
    LastCoveringIsLast(windows, gate, t);
  }

  /** A booking no window covers is allowed and charged to nothing. */
  lemma UncoveredBookingsAreFree(windows: seq<Window>, gate: string, t: int)
    ensures (CheckBooking(windows, gate, t).1.window == None)
            <==> forall i | 0 <= i < |windows| :: !Covers(windows[i], gate, t)
    ensures CheckBooking(windows, gate, t).1.window == None ==>
              CheckBooking(windows, gate, t) == (windows, Answer(true, None))
  {
    LastCoveringIsLast(windows, gate, t);
  }

  ghost predicate InReceiptOrder(windows: seq<Window>) {
    forall i, j | 0 <= i < j < |windows| :: windows[i].receivedAt < windows[j].receivedAt
  }

  /**
   * The list stays in order of receipt exactly when the applied id is new or stands last already:
   * a redelivered older window keeps its place, and is not the one a booking tries first.
   */
  lemma ReceiptOrderIsKeptUnlessAnOlderWindowReturns(s: State, win: Arrival, mintedAt: int, receivedAt: int)
    requires InReceiptOrder(s.windows)
    requires forall i | 0 <= i < |s.windows| :: s.windows[i].receivedAt < receivedAt
    ensures InReceiptOrder(ApplyWindow(s, win, mintedAt, receivedAt).windows)
            <==> IndexOf(s.windows, win.correlationId) >= |s.windows| - 1
  {
    hide Affected, Marked, EnsureGate;
    var after := ApplyWindow(s, win, mintedAt, receivedAt).windows;
    var i := IndexOf(s.windows, win.correlationId);
    if i < |s.windows| - 1 {
      assert after[i].receivedAt == receivedAt && after[|after| - 1] == s.windows[|after| - 1];
    }
  }

  // --- The booking cap -------------------------------------------------------

  /** This operation books a truck against window `id`. */
  predicate Charges(windows: seq<Window>, op: Op, id: string) {
    op.OpBook?
    && var (_, answer) := CheckBooking(windows, op.gate, op.t);
       answer.allowed && answer.window.Some? && answer.window.value.correlationId == id
  }

  /** Bookings charged to `id` over a run. */
  function Charged(s: State, ops: seq<Op>, id: string): nat {
    if |ops| == 0 then 0
    else
      var before := ops[..|ops| - 1];
      Charged(s, before, id) + if Charges(Execute(s, before).windows, ops[|ops| - 1], id) then 1 else 0
  }

  predicate Reseats(op: Op, id: string) {
    (op.OpApply? && op.win.correlationId == id) || (op.OpSeat? && op.stored.correlationId == id)
  }

  lemma FoundAt(windows: seq<Window>, k: nat)
    requires WindowsOk(windows) && k < |windows|
    ensures IndexOf(windows, windows[k].correlationId) == k
  {
  }

  /** Seating another window leaves `id` as it is, or drops it off the front. */
  lemma SeatOther(windows: seq<Window>, entry: Window, id: string)
    requires WindowsOk(windows) && entry.correlationId != id
    ensures var after := FindWindow(Seat(windows, entry), id);
            after == None || after == FindWindow(windows, id)
  {
    SeatKeepsWindows(windows, entry);
    var seated := Seat(windows, entry);
    var k := IndexOf(seated, id);
    if k < |seated| {
      assert seated[k] in windows;
      var j :| 0 <= j < |windows| && windows[j] == seated[k];
      FoundAt(windows, j);
    }
  }

  lemma {:induction false} SameIdsSameIndex(a: seq<Window>, b: seq<Window>, id: string)
    requires |a| == |b| && forall i | 0 <= i < |a| :: a[i].correlationId == b[i].correlationId
    ensures IndexOf(a, id) == IndexOf(b, id)
  {
    var i, j := IndexOf(a, id), IndexOf(b, id);
    assert i < |a| ==> b[i].correlationId == id;
    assert j < |b| ==> a[j].correlationId == id;
  }

  lemma BookOne(windows: seq<Window>, gate: string, t: int, id: string)
    requires WindowsOk(windows)
    ensures var before := FindWindow(windows, id);
            var after := FindWindow(CheckBooking(windows, gate, t).0, id);
            if Charges(windows, OpBook(gate, t), id)
            then before.Some? && before.value.booked < before.value.slotCap
                 && after == Some(before.value.(booked := before.value.booked + 1))
            else after == before
  {
    BookingKeepsWindows(windows, gate, t);
    var k := LastCovering(windows, gate, t);
    var after := CheckBooking(windows, gate, t).0;
    if k.Some? {
      FoundAt(windows, k.value);
      FoundAt(after, k.value);
    }
    SameIdsSameIndex(windows, after, id);
  }

  lemma {:induction false} StepCharges(s: State, op: Op, id: string)
    requires WindowsOk(s.windows) && !Reseats(op, id)
    ensures var before, after := FindWindow(s.windows, id), FindWindow(Step(s, op).windows, id);
            var c := if Charges(s.windows, op, id) then 1 else 0;
            && (c == 1 ==> before.Some? && before.value.booked < before.value.slotCap)
            && (after.Some? ==> before.Some? && after.value == before.value.(booked := before.value.booked + c))
  {
    hide WindowsOk, Affected, Marked, EnsureGate, FindWindow;
    match op
    case OpApply(win, mintedAt, receivedAt) =>
      var b := GateTouched(s.slots, win.gateId, mintedAt);
      SeatOther(s.windows, Entry(b, s.windows, win, receivedAt), id);
    case OpSeat(stored, now) => SeatOther(s.windows, Reseated(stored, now), id);
    case OpBook(gate, t) => BookOne(s.windows, gate, t, id);
    case _ =>
  }

  lemma {:induction false} RunKeepsWindows(s: State, ops: seq<Op>)
    requires WindowsOk(s.windows)
    ensures WindowsOk(Execute(s, ops).windows)
  {
    if |ops| != 0 {
      var before := Execute(s, ops[..|ops| - 1]);
      RunKeepsWindows(s, ops[..|ops| - 1]);
      match ops[|ops| - 1]
      case OpApply(win, mintedAt, receivedAt) =>
        var b := GateTouched(before.slots, win.gateId, mintedAt);
        SeatKeepsWindows(before.windows, Entry(b, before.windows, win, receivedAt));
      case OpSeat(stored, now) => SeatKeepsWindows(before.windows, Reseated(stored, now));
      case OpBook(gate, t) => BookingKeepsWindows(before.windows, gate, t);
      case _ =>
    }
  }

  /** The window of `id` has counted exactly the bookings charged to it, as long as it stands. */
  lemma {:induction false} BookedCountsCharges(s: State, ops: seq<Op>, id: string)
    requires WindowsOk(s.windows) && forall i | 0 <= i < |ops| :: !Reseats(ops[i], id)
    ensures var start, end := FindWindow(s.windows, id), FindWindow(Execute(s, ops).windows, id);
            var n := Charged(s, ops, id);
            && (n > 0 ==> start.Some? && start.value.booked + n <= start.value.slotCap)
            && (end.Some? ==> start.Some? && end.value == start.value.(booked := start.value.booked + n))
  {
    if |ops| != 0 {
      var front := ops[..|ops| - 1];
      BookedCountsCharges(s, front, id);
      RunKeepsWindows(s, front);
      StepCharges(Execute(s, front), ops[|ops| - 1], id);
    }
  }

  /**
   * Between two applications or restores of an id, whatever else happens, the bookings charged to it
   * never exceed the room its cap left: `max(0, slot_cap - booked)` at the start, none if no window stands.
   */
  lemma {:induction false} BookingsRespectTheCap(s: State, ops: seq<Op>, id: string)
    requires WindowsOk(s.windows) && forall i | 0 <= i < |ops| :: !Reseats(ops[i], id)
    ensures var w := FindWindow(s.windows, id);
            Charged(s, ops, id) <= if w.Some? && w.value.slotCap > w.value.booked
                                   then w.value.slotCap - w.value.booked else 0
  {
    BookedCountsCharges(s, ops, id);
  }
}
