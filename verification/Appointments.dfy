/** The terminal appointment book: gate slots and the deferred-arrival windows that meter bookings. */
module Appointments {
  import opened Wrappers
  import opened Text
  import opened Keyed

  const SLOTS_PER_GATE := 12
  const CADENCE_MIN := 15
  const MAX_WINDOWS := 32

  /** Instants are counted in microseconds. */
  const MINUTE := 60_000_000

  datatype Status = Booked | Rescheduled | Cancelled

  datatype Slot = Slot(slotId: string, gateId: string, start: int, status: Status, rescheduledTo: Option<string>)

  /** A keyed table in insertion order. */
  type Book = seq<Slot>

  // --- Slots -----------------------------------------------------------------

  function TwoDigits(i: nat): string {
    if i < 10 then "0" + Decimal(i) else Decimal(i)
  }

  function SlotId(gate: string, i: nat): string {
    "TAS-" + gate + "-" + TwoDigits(i)
  }

  function NewSlot(gate: string, base: int, i: nat): Slot {
    Slot(SlotId(gate, i), gate, base + CADENCE_MIN * i * MINUTE, Booked, None)
  }

  function SlotKey(): Slot -> string {
    (s: Slot) => s.slotId
  }

  predicate HasGate(book: Book, gate: string) {
    exists i | 0 <= i < |book| :: book[i].gateId == gate
  }

  function Mint(book: Book, gate: string, base: int, n: nat): Book {
    if n == 0 then book else Put(SlotKey(), Mint(book, gate, base, n - 1), NewSlot(gate, base, n - 1))
  }

  /** Mints a gate's slots the first time the gate is named. */
  function EnsureGate(book: Book, gate: string, now: int): Book {
    if HasGate(book, gate) then book else Mint(book, gate, now - now % MINUTE, SLOTS_PER_GATE)
  }

  function Mark(s: Slot, pick: Slot -> bool, status: Status, to: Option<string>): Slot {
    if pick(s) then s.(status := status, rescheduledTo := to) else s
  }

  function Marked(book: Book, pick: Slot -> bool, status: Status, to: Option<string>): (b: Book)
    ensures |b| == |book|
    ensures forall i | 0 <= i < |book| :: b[i] == Mark(book[i], pick, status, to)
  {
    if |book| == 0 then []
    else Marked(book[..|book| - 1], pick, status, to) + [Mark(book[|book| - 1], pick, status, to)]
  }

  /** The picked slots, as they are after marking. */
  function Affected(book: Book, pick: Slot -> bool, status: Status, to: Option<string>): seq<Slot> {
    if |book| == 0 then []
    else
      var last := book[|book| - 1];
      Affected(book[..|book| - 1], pick, status, to) + if pick(last) then [Mark(last, pick, status, to)] else []
  }

  function BookedAt(gate: string): Slot -> bool {
    (s: Slot) => s.gateId == gate && s.status == Booked
  }

  function RescheduledAt(gate: string): Slot -> bool {
    (s: Slot) => s.gateId == gate && s.status == Rescheduled
  }

  function Reschedule(book: Book, gate: string, to: Option<string>, now: int): (Book, seq<Slot>) {
    var b := EnsureGate(book, gate, now);
    (Marked(b, BookedAt(gate), Rescheduled, to), Affected(b, BookedAt(gate), Rescheduled, to))
  }

  function Restore(book: Book, gate: string): (Book, nat) {
    (Marked(book, RescheduledAt(gate), Booked, None), |Affected(book, RescheduledAt(gate), Booked, None)|)
  }

  // --- Deferred-arrival windows ----------------------------------------------

  datatype Arrival = Arrival(correlationId: string, gateId: Option<string>, windowStart: int, windowMin: int,
                             slotCap: int, source: string)

  datatype Window = Window(correlationId: string, gateId: Option<string>, start: int, end: int, windowMin: int,
                           slotCap: int, source: string, receivedAt: int, booked: int, appliedSlots: seq<string>)

  /** A window as persisted, some fields possibly empty. */
  datatype StoredWindow = StoredWindow(correlationId: string, gateId: Option<string>, start: int, end: int,
                                       windowMin: int, slotCap: int, source: string, receivedAt: Option<int>,
                                       booked: Option<int>, appliedSlots: Option<seq<string>>)

  predicate Truthy(s: Option<string>) {
    s.Some? && s.value != ""
  }

  function InWindow(win: Arrival): Slot -> bool {
    (s: Slot) => !(Truthy(win.gateId) && Some(s.gateId) != win.gateId)
         && s.status == Booked && win.windowStart <= s.start < win.windowStart + win.windowMin * MINUTE
  }

  function SlotIds(slots: seq<Slot>): seq<string> {
    if |slots| == 0 then [] else SlotIds(slots[..|slots| - 1]) + [slots[|slots| - 1].slotId]
  }

  /** Index of the window of a correlation id, or the length of the list. */
  function IndexOf(windows: seq<Window>, id: string): (i: nat)
    ensures i <= |windows| && (i < |windows| ==> windows[i].correlationId == id)
    ensures forall j | 0 <= j < i :: windows[j].correlationId != id
  {
    Position((w: Window) => w.correlationId, windows, id)
  }

  function FindWindow(windows: seq<Window>, id: string): Option<Window> {
    var i := IndexOf(windows, id);
    if i < |windows| then Some(windows[i]) else None
  }

  function LastWindows(windows: seq<Window>): seq<Window> {
    if |windows| > MAX_WINDOWS then windows[|windows| - MAX_WINDOWS..] else windows
  }

  /** Updates the window of the same correlation id where it stands, or appends and drops the oldest beyond the cap. */
  function Seat(windows: seq<Window>, entry: Window): seq<Window> {
    var i := IndexOf(windows, entry.correlationId);
    if i < |windows| then windows[i := entry] else LastWindows(windows + [entry])
  }

  function GateTouched(book: Book, gate: Option<string>, now: int): Book {
    if Truthy(gate) then EnsureGate(book, gate.value, now) else book
  }

  function Entry(book: Book, windows: seq<Window>, win: Arrival, receivedAt: int): Window {
    var found := FindWindow(windows, win.correlationId);
    Window(win.correlationId, win.gateId, win.windowStart, win.windowStart + win.windowMin * MINUTE, win.windowMin,
           win.slotCap, win.source, receivedAt, if found.Some? then found.value.booked else 0,
           SlotIds(Affected(book, InWindow(win), Rescheduled, None)))
  }

  datatype State = State(slots: Book, windows: seq<Window>)

  function ApplyWindow(s: State, win: Arrival, mintedAt: int, receivedAt: int): State {
    var b := GateTouched(s.slots, win.gateId, mintedAt);
    State(Marked(b, InWindow(win), Rescheduled, None), Seat(s.windows, Entry(b, s.windows, win, receivedAt)))
  }

  function Reseated(stored: StoredWindow, now: int): Window {
    Window(stored.correlationId, stored.gateId, stored.start, stored.end, stored.windowMin, stored.slotCap,
           stored.source, if stored.receivedAt.Some? then stored.receivedAt.value else now,
           if stored.booked.Some? then stored.booked.value else 0,
           if stored.appliedSlots.Some? then stored.appliedSlots.value else [])
  }

  predicate Covers(w: Window, gate: string, t: int) {
    (w.gateId == None || w.gateId == Some(gate)) && w.start <= t < w.end
  }

  function LastCovering(windows: seq<Window>, gate: string, t: int): (k: Option<nat>)
    ensures k.Some? ==> k.value < |windows|
  {
    if |windows| == 0 then None
    else
      var last := |windows| - 1;
      if Covers(windows[last], gate, t) then Some(last) else LastCovering(windows[..last], gate, t)
  }

  /** What a booking request is told, with the window that decided it. */
  datatype Answer = Answer(allowed: bool, window: Option<Window>)

  function CheckBooking(windows: seq<Window>, gate: string, t: int): (seq<Window>, Answer) {
    var k := LastCovering(windows, gate, t);
    if k.None? then (windows, Answer(true, None))
    else
      var w := windows[k.value];
      if w.booked >= w.slotCap then (windows, Answer(false, Some(w)))
      else
        var charged := w.(booked := w.booked + 1);
        (windows[k.value := charged], Answer(true, Some(charged)))
  }

  // --- Runs ------------------------------------------------------------------

  datatype Op =
    | OpTouch(gate: string, now: int)
    | OpReschedule(gate: string, to: Option<string>, now: int)
    | OpRestore(gate: string)
    | OpApply(win: Arrival, mintedAt: int, receivedAt: int)
    | OpSeat(stored: StoredWindow, now: int)
    | OpBook(gate: string, t: int)

  function Step(s: State, op: Op): State {
    match op
    case OpTouch(gate, now) => s.(slots := EnsureGate(s.slots, gate, now))
    case OpReschedule(gate, to, now) => s.(slots := Reschedule(s.slots, gate, to, now).0)
    case OpRestore(gate) => s.(slots := Restore(s.slots, gate).0)
    case OpApply(win, mintedAt, receivedAt) => ApplyWindow(s, win, mintedAt, receivedAt)
    case OpSeat(stored, now) => s.(windows := Seat(s.windows, Reseated(stored, now)))
    case OpBook(gate, t) => s.(windows := CheckBooking(s.windows, gate, t).0)
  }

  function Execute(s: State, ops: seq<Op>): State {
    if |ops| == 0 then s else Step(Execute(s, ops[..|ops| - 1]), ops[|ops| - 1])
  }

  // --- The appointment system itself -----------------------------------------

  lemma {:induction false} SlotIdsLength(slots: seq<Slot>)
    ensures |SlotIds(slots)| == |slots|
  {
    if |slots| != 0 {
      SlotIdsLength(slots[..|slots| - 1]);
    }
  }

  /** A seated entry is the one its id finds. */
  lemma SeatedIsFound(windows: seq<Window>, entry: Window)
    ensures FindWindow(Seat(windows, entry), entry.correlationId) == Some(entry)
  {
    var seated, id := Seat(windows, entry), entry.correlationId;
    var i := IndexOf(windows, id);
    if i < |windows| {
      assert seated[i] == entry && IndexOf(seated, id) == i;
    } else {
      assert seated[|seated| - 1] == entry && IndexOf(seated, id) == |seated| - 1;
    }
  }

  class AppointmentSystem {
    var slots: Book
    var windows: seq<Window>

    constructor ()
      ensures slots == [] && windows == []
    {
      slots, windows := [], [];
    }

    method MintSlots(gate: string, base: int, count: nat)
      modifies this`slots
      ensures slots == Mint(old(slots), gate, base, count)
    {
      for n := 0 to count
        invariant slots == Mint(old(slots), gate, base, n)
      {
        slots := Put(SlotKey(), slots, NewSlot(gate, base, n));
      }
    }

    method EnsureGateSlots(gate: string, now: int)
      modifies this`slots
      ensures slots == EnsureGate(old(slots), gate, now)
    {
      var i := 0;
      while i < |slots|
        invariant i <= |slots| && forall j | 0 <= j < i :: slots[j].gateId != gate
      {
        if slots[i].gateId == gate {
          return;
        }
        i := i + 1;
      }
      hide Mint;
      MintSlots(gate, now - now % MINUTE, SLOTS_PER_GATE);
    }

    /** Marks the picked slots in place and lists them. */
    method MarkSlots(pick: Slot -> bool, status: Status, to: Option<string>) returns (affected: seq<Slot>)
      modifies this`slots
      ensures slots == Marked(old(slots), pick, status, to)
      ensures affected == Affected(old(slots), pick, status, to)
    {
      affected := [];
      for i := 0 to |slots|
        invariant |slots| == |old(slots)|
        invariant forall j | 0 <= j < i :: slots[j] == Mark(old(slots)[j], pick, status, to)
        invariant forall j | i <= j < |slots| :: slots[j] == old(slots)[j]
        invariant affected == Affected(old(slots)[..i], pick, status, to)
      {
        assert old(slots)[..i + 1][..i] == old(slots)[..i];
        if pick(slots[i]) {
          slots := slots[i := slots[i].(status := status, rescheduledTo := to)];
          affected := affected + [slots[i]];
        }
      }
      assert old(slots)[..|slots|] == old(slots);
    }

    method RescheduleGate(gate: string, to: Option<string>, now: int) returns (affected: seq<Slot>)
      modifies this`slots
      ensures (slots, affected) == Reschedule(old(slots), gate, to, now)
    {
      EnsureGateSlots(gate, now);
      affected := MarkSlots(BookedAt(gate), Rescheduled, to);
    }

    method RestoreGate(gate: string) returns (n: nat)
      modifies this`slots
      ensures (slots, n) == Restore(old(slots), gate)
    {
      var affected := MarkSlots(RescheduledAt(gate), Booked, None);
      n := |affected|;
    }

    method FindEntry(id: string) returns (i: nat)
      ensures i == IndexOf(windows, id)
    {
      i := 0;
      while i < |windows| && windows[i].correlationId != id
        invariant i <= |windows| && forall j | 0 <= j < i :: windows[j].correlationId != id
      {
        i := i + 1;
      }
    }

    /** Appends an entry and keeps the last windows only. */
    method Append(entry: Window)
      modifies this`windows
      ensures windows == LastWindows(old(windows) + [entry])
    {
      windows := windows + [entry];
      if |windows| > MAX_WINDOWS {
        windows := windows[|windows| - MAX_WINDOWS..];
      }
    }

    method ApplyDeferredWindow(win: Arrival, mintedAt: int, receivedAt: int) returns (applied: nat, entry: Window)
      modifies this
      ensures State(slots, windows) == ApplyWindow(State(old(slots), old(windows)), win, mintedAt, receivedAt)
      ensures applied == |entry.appliedSlots|
      ensures FindWindow(windows, win.correlationId) == Some(entry) && entry.receivedAt == receivedAt
    {
      if Truthy(win.gateId) {
        EnsureGateSlots(win.gateId.value, mintedAt);
      }
      ghost var touched := slots;
      var affected := MarkSlots(InWindow(win), Rescheduled, None);
      SlotIdsLength(affected);
      var i := FindEntry(win.correlationId);
      var end := win.windowStart + win.windowMin * MINUTE;
      var booked := if i < |windows| then windows[i].booked else 0;
      entry := Window(win.correlationId, win.gateId, win.windowStart, end, win.windowMin, win.slotCap, win.source,
                      receivedAt, booked, SlotIds(affected));
      assert entry == Entry(touched, windows, win, receivedAt);
      SeatedIsFound(windows, entry);
      if i < |windows| {
        windows := windows[i := entry];
      } else {
        Append(entry);
      }
      applied := |affected|;
    }

    method RestoreDeferredWindow(stored: StoredWindow, now: int)
      modifies this`windows
      ensures windows == Seat(old(windows), Reseated(stored, now))
    {
      var entry := Reseated(stored, now);
      var i := FindEntry(entry.correlationId);
      if i < |windows| {
        windows := windows[i := entry];
      } else {
        Append(entry);
      }
    }

    method CheckBookingAllowed(gate: string, t: int) returns (answer: Answer)
      modifies this`windows
      ensures (windows, answer) == CheckBooking(old(windows), gate, t)
    {
      var i := |windows|;
      assert windows[..i] == windows;
      while i > 0
        invariant 0 <= i <= |windows| && windows == old(windows)
        invariant LastCovering(windows[..i], gate, t) == LastCovering(windows, gate, t)
      {
        i := i - 1;
        assert windows[..i + 1][..i] == windows[..i];
        if Covers(windows[i], gate, t) {
          var w := windows[i];
          if w.booked >= w.slotCap {
            return Answer(false, Some(w));
          }
          windows := windows[i := w.(booked := w.booked + 1)];
          return Answer(true, Some(windows[i]));
        }
      }
      return Answer(true, None);
    }
  }
}
