/** The gate-capture table driven by boots with the ICEGATE customs adapter on or off. */
module IcegateAdapter {
  import opened Wrappers
  import opened GateSeed

  datatype Kind = ESEAL | FORM13 | WEIGHBRIDGE | ICEGATE

  const SOURCES: seq<Kind> := [ESEAL, FORM13, WEIGHBRIDGE, ICEGATE]

  datatype Mode = Sim | Live

  /** The idempotency key of a capture. */
  datatype Key = Key(containerNo: string, kind: Kind, capturedAt: int)

  datatype Payload =
    | OfEseal(eseal: Eseal)
    | OfForm13(form13: Form13)
    | OfWeighbridge(weighbridge: Weighbridge)
    | OfIcegate(icegate: Icegate, leoGranted: bool)
    | OfCustoms(shippingBillNo: Option<string>, containerNo: string, leoStatus: string, granted: bool,
                igmNo: string, assessment: string)

  datatype Capture = Capture(vehiclePlate: Option<string>, gateId: Option<string>, mode: Mode, status: string,
                             payload: Payload)

  type Table = map<Key, Capture>

  datatype Row = Row(key: Key, capture: Capture)

  // --- Captures of the seed --------------------------------------------------

  /** A stored record with its four streams. */
  datatype SeedRecord = SeedRecord(containerNo: string, vehiclePlate: string, eseal: Eseal, form13: Form13,
                                   weighbridge: Weighbridge, icegate: Icegate)

  /** Streams without a clock of their own inherit the e-seal's capture time. */
  function SeedRow(rec: SeedRecord, kind: Kind): Row {
    var plate := Some(rec.vehiclePlate);
    match kind
    case ESEAL => Row(Key(rec.containerNo, ESEAL, rec.eseal.capturedAt),
                      Capture(plate, None, Sim, rec.eseal.status, OfEseal(rec.eseal)))
    case FORM13 => Row(Key(rec.containerNo, FORM13, rec.eseal.capturedAt),
                       Capture(plate, None, Sim, "REGISTERED", OfForm13(rec.form13)))
    case WEIGHBRIDGE => Row(Key(rec.containerNo, WEIGHBRIDGE, rec.weighbridge.capturedAt),
                            Capture(plate, None, Sim, "WEIGHED", OfWeighbridge(rec.weighbridge)))
    case ICEGATE => Row(Key(rec.containerNo, ICEGATE, rec.eseal.capturedAt),
                        Capture(plate, None, Sim, rec.icegate.leoStatus,
                                OfIcegate(rec.icegate, rec.icegate.leoStatus == "GRANTED")))
  }

  /** The rows a boot upserts for one record from its first `n` sources. */
  function RecordRows(rec: SeedRecord, adapterOn: bool, n: nat): seq<Row>
    requires n <= |SOURCES|
  {
    if n == 0 then []
    else RecordRows(rec, adapterOn, n - 1)
         + if SOURCES[n - 1] == ICEGATE && adapterOn then [] else [SeedRow(rec, SOURCES[n - 1])]
  }

  function SeedRows(store: seq<SeedRecord>, adapterOn: bool): seq<Row> {
    if |store| == 0 then []
    else SeedRows(store[..|store| - 1], adapterOn) + RecordRows(store[|store| - 1], adapterOn, |SOURCES|)
  }

  // --- Captures of the customs tables ----------------------------------------

  /** One declared container joined with its vessel, message, status view and out-of-charge entry. */
  datatype Declared = Declared(containerNo: string, igmNo: string, entryInward: Option<int>, eta: Option<int>,
                               sent: Option<int>, created: int, status: Option<(bool, bool)>, beNo: Option<string>)

  function DeclaredAt(c: Declared): int {
    if c.entryInward.Some? then c.entryInward.value
    else if c.eta.Some? then c.eta.value
    else if c.sent.Some? then c.sent.value
    else c.created
  }

  function CustomsRow(c: Declared): Row {
    var cleared := c.status.Some? && c.status.value.0;
    var selected := c.status.Some? && c.status.value.1;
    var leo := if cleared then "GRANTED" else "PENDING";
    Row(Key(c.containerNo, ICEGATE, DeclaredAt(c)),
        Capture(None, None, Live, leo,
                OfCustoms(c.beNo, c.containerNo, leo, cleared, c.igmNo,
                          if selected then "ASSESSED" else "FACILITATED")))
  }

  // --- Statements ------------------------------------------------------------

  /** Insert, or update everything but the plate and the gate. */
  function Upsert(t: Table, row: Row): Table {
    t[row.key := if row.key in t
                 then t[row.key].(mode := row.capture.mode, status := row.capture.status,
                                  payload := row.capture.payload)
                 else row.capture]
  }

  function UpsertAll(t: Table, rows: seq<Row>): Table {
    if |rows| == 0 then t else Upsert(UpsertAll(t, rows[..|rows| - 1]), rows[|rows| - 1])
  }

  function InsertIfNew(t: Table, row: Row): Table {
    if row.key in t then t else t[row.key := row.capture]
  }

  function InsertAll(t: Table, customs: seq<Declared>): Table {
    if |customs| == 0 then t
    else InsertIfNew(InsertAll(t, customs[..|customs| - 1]), CustomsRow(customs[|customs| - 1]))
  }

  /** Deletes the ICEGATE rows of one mode. */
  function Purge(t: Table, mode: Mode): Table {
    map k | k in t && !(k.kind == ICEGATE && t[k].mode == mode) :: t[k]
  }

  // --- Boots -----------------------------------------------------------------

  /** The flag at boot, and whether the sync or the purge went through. */
  datatype Boot = On(synced: bool) | Off(purged: bool)

  /** What is fixed across boots: the seed and the customs tables. */
  datatype World = World(store: seq<SeedRecord>, customs: seq<Declared>)

  function Synced(t: Table, customs: seq<Declared>): Table {
    InsertAll(Purge(t, Sim), customs)
  }

  function BootOnce(w: World, t: Table, boot: Boot): Table {
    match boot
    case On(synced) =>
      var seeded := UpsertAll(t, SeedRows(w.store, true));
      if synced then Synced(seeded, w.customs) else seeded
    case Off(purged) =>
      UpsertAll(if purged then Purge(t, Live) else t, SeedRows(w.store, false))
  }

  function Run(w: World, boots: seq<Boot>): Table {
    if |boots| == 0 then map[] else BootOnce(w, Run(w, boots[..|boots| - 1]), boots[|boots| - 1])
  }

  lemma {:induction false} UpsertAllSplits(t: Table, a: seq<Row>, b: seq<Row>)
    ensures UpsertAll(t, a + b) == UpsertAll(UpsertAll(t, a), b)
  {
    if |b| == 0 {
      assert a + b == a;
    } else {
      UpsertAllSplits(t, a, b[..|b| - 1]);
      assert (a + b)[..|a + b| - 1] == a + b[..|b| - 1];
    }
  }

  class CaptureTable {
    var rows: Table

    constructor ()
      ensures rows == map[]
    {
      rows := map[];
    }

    method UpsertCapture(row: Row)
      modifies this
      ensures rows == Upsert(old(rows), row)
    {
      if row.key in rows {
        var kept := rows[row.key];
        rows := rows[row.key := Capture(kept.vehiclePlate, kept.gateId, row.capture.mode, row.capture.status,
                                        row.capture.payload)];
      } else {
        rows := rows[row.key := row.capture];
      }
    }

    /** Purges the synthetic rows and inserts the customs rows as one transaction; a failure leaves the table alone. */
    method SyncIcegateCaptures(customs: seq<Declared>, commits: bool)
      modifies this
      ensures rows == if commits then Synced(old(rows), customs) else old(rows)
    {
      var table := Purge(rows, Sim);
      for i := 0 to |customs|
        invariant table == InsertAll(Purge(old(rows), Sim), customs[..i])
        invariant rows == old(rows)
      {
        assert customs[..i + 1][..i] == customs[..i];
        table := InsertIfNew(table, CustomsRow(customs[i]));
      }
      assert customs[..|customs|] == customs;
      if commits {
        rows := table;
      }
    }

    method UpsertRecord(rec: SeedRecord, adapterOn: bool)
      modifies this
      ensures rows == UpsertAll(old(rows), RecordRows(rec, adapterOn, |SOURCES|))
    {
      for j := 0 to |SOURCES|
        invariant rows == UpsertAll(old(rows), RecordRows(rec, adapterOn, j))
      {
        ghost var done := RecordRows(rec, adapterOn, j);
        if SOURCES[j] == ICEGATE && adapterOn {
          assert RecordRows(rec, adapterOn, j + 1) == done;
          continue;
        }
        var row := SeedRow(rec, SOURCES[j]);
        assert RecordRows(rec, adapterOn, j + 1) == done + [row];
        assert (done + [row])[..|done|] == done;
        UpsertCapture(row);
      }
    }

    method UpsertStore(store: seq<SeedRecord>, adapterOn: bool)
      modifies this
      ensures rows == UpsertAll(old(rows), SeedRows(store, adapterOn))
    {
      for i := 0 to |store|
        invariant rows == UpsertAll(old(rows), SeedRows(store[..i], adapterOn))
      {
        assert store[..i + 1][..i] == store[..i];
        ghost var before := rows;
        UpsertRecord(store[i], adapterOn);
        UpsertAllSplits(old(rows), SeedRows(store[..i], adapterOn), RecordRows(store[i], adapterOn, |SOURCES|));
      }
      assert store[..|store|] == store;
    }

    method PersistDatasetOnce(w: World, boot: Boot)
      modifies this
      ensures rows == BootOnce(w, old(rows), boot)
    {
      var adapterOn := boot.On?;
      if boot.Off? && boot.purged {
        rows := Purge(rows, Live);
      }
      UpsertStore(w.store, adapterOn);
      if adapterOn {
        SyncIcegateCaptures(w.customs, boot.synced);
      }
    }
  }
}
