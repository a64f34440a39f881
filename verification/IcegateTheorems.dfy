/** Rollback of the ICEGATE adapter is symmetric, over every sequence of boots. */
module IcegateTheorems {
  import opened Wrappers
  import opened IcegateAdapter

  // --- Tables as overlays ----------------------------------------------------

  /** `m` upserted over `t`: rows of `t` keep their plate and gate. */
  function Merge(t: Table, m: Table): Table {
    map k | k in t.Keys + m.Keys ::
      if k !in m then t[k]
      else if k in t then t[k].(mode := m[k].mode, status := m[k].status, payload := m[k].payload)
      else m[k]
  }

  /** `m` inserted under `t`: rows of `t` stay. */
  function Under(t: Table, m: Table): Table {
    map k | k in t.Keys + m.Keys :: if k in t then t[k] else m[k]
  }

  function Others(t: Table): Table {
    map k | k in t && k.kind != ICEGATE :: t[k]
  }

  function IcegateRows(t: Table): Table {
    map k | k in t && k.kind == ICEGATE :: t[k]
  }

  /** The seed's rows in an empty table. */
  function Seed(w: World): Table {
    UpsertAll(map[], SeedRows(w.store, false))
  }

  /** The customs rows in an empty table. */
  function Customs(w: World): Table {
    InsertAll(map[], w.customs)
  }

  lemma UpsertMerges(t: Table, m: Table, row: Row)
    ensures Upsert(Merge(t, m), row) == Merge(t, Upsert(m, row))
  {
  }

  lemma {:induction false} UpsertAllMerges(t: Table, rows: seq<Row>)
    ensures UpsertAll(t, rows) == Merge(t, UpsertAll(map[], rows))
  {
    if |rows| == 0 {
      assert Merge(t, map[]) == t;
    } else {
      var front, last := rows[..|rows| - 1], rows[|rows| - 1];
      UpsertAllMerges(t, front);
      UpsertMerges(t, UpsertAll(map[], front), last);
    }
  }

  lemma {:induction false} InsertAllIsUnder(t: Table, customs: seq<Declared>)
    ensures InsertAll(t, customs) == Under(t, InsertAll(map[], customs))
  {
    hide CustomsRow;
    if |customs| == 0 {
      assert Under(t, map[]) == t;
    } else {
      InsertAllIsUnder(t, customs[..|customs| - 1]);
    }
  }

  /** Seed rows are synthetic and carry their truck's plate. */
  ghost predicate SeedLike(t: Table) {
    forall k | k in t :: t[k].mode == Sim && t[k].vehiclePlate.Some? && t[k].gateId == None
  }

  /** Customs rows are live ICEGATE rows without a plate. */
  ghost predicate CustomsLike(t: Table) {
    forall k | k in t :: k.kind == ICEGATE && t[k].mode == Live && t[k].vehiclePlate == None && t[k].gateId == None
  }

  lemma {:induction false} UpsertsAreSeedLike(rows: seq<Row>)
    requires forall i | 0 <= i < |rows| :: rows[i].capture.mode == Sim && rows[i].capture.vehiclePlate.Some?
                                           && rows[i].capture.gateId == None
    ensures SeedLike(UpsertAll(map[], rows))
  {
    if |rows| != 0 {
      UpsertsAreSeedLike(rows[..|rows| - 1]);
    }
  }

  lemma {:induction false} RecordRowsAreSeedLike(rec: SeedRecord, adapterOn: bool, n: nat)
    requires n <= |SOURCES|
    ensures forall r | r in RecordRows(rec, adapterOn, n) ::
              r.capture.mode == Sim && r.capture.vehiclePlate.Some? && r.capture.gateId == None
  {
    if n != 0 {
      RecordRowsAreSeedLike(rec, adapterOn, n - 1);
    }
  }

  lemma {:induction false} SeedRowsAreSeedLike(store: seq<SeedRecord>, adapterOn: bool)
    ensures forall r | r in SeedRows(store, adapterOn) ::
              r.capture.mode == Sim && r.capture.vehiclePlate.Some? && r.capture.gateId == None
  {
    if |store| != 0 {
      SeedRowsAreSeedLike(store[..|store| - 1], adapterOn);
      RecordRowsAreSeedLike(store[|store| - 1], adapterOn, |SOURCES|);
      hide RecordRows;
    }
  }

  lemma SeedIsSeedLike(w: World)
    ensures SeedLike(Seed(w))
  {
    SeedRowsAreSeedLike(w.store, false);
    UpsertsAreSeedLike(SeedRows(w.store, false));
  }

  lemma {:induction false} CustomsIsCustomsLike(customs: seq<Declared>)
    ensures CustomsLike(InsertAll(map[], customs))
  {
    if |customs| != 0 {
      CustomsIsCustomsLike(customs[..|customs| - 1]);
    }
  }

  lemma CustomsAreCustomsLike(w: World)
    ensures CustomsLike(Customs(w))
  {
    CustomsIsCustomsLike(w.customs);
  }

  lemma NothingUpserted(t: Table)
    ensures UpsertAll(t, []) == t
  {
  }

  lemma UpsertOne(t: Table, rows: seq<Row>, row: Row)
    ensures UpsertAll(t, rows + [row]) == Upsert(UpsertAll(t, rows), row)
  {
    assert (rows + [row])[..|rows|] == rows;
  }

  lemma OthersUpsert(t: Table, row: Row)
    ensures Others(Upsert(t, row)) == if row.key.kind == ICEGATE then Others(t) else Upsert(Others(t), row)
  {
  }

  lemma KeyOfSource(rec: SeedRecord, kind: Kind)
    ensures SeedRow(rec, kind).key.kind == kind && SeedRow(rec, kind).key.containerNo == rec.containerNo
  {
  }

  lemma {:induction false} RecordSkipsIcegate(t: Table, rec: SeedRecord, n: nat)
    requires n <= |SOURCES|
    ensures UpsertAll(Others(t), RecordRows(rec, true, n)) == Others(UpsertAll(t, RecordRows(rec, false, n)))
  {
    hide SeedRow, UpsertAll, Others, Upsert;
    if n == 0 {
      NothingUpserted(t);
      NothingUpserted(Others(t));
    } else {
      RecordSkipsIcegate(t, rec, n - 1);
      var a, b, row := RecordRows(rec, true, n - 1), RecordRows(rec, false, n - 1), SeedRow(rec, SOURCES[n - 1]);
      UpsertOne(t, b, row);
      UpsertOne(Others(t), a, row);
      OthersUpsert(UpsertAll(t, b), row);
      KeyOfSource(rec, SOURCES[n - 1]);
      assert a + [] == a;
    }
  }

  /** With the adapter on, exactly the other sources' rows are upserted. */
  lemma {:induction false} AdapterSkipsIcegate(store: seq<SeedRecord>)
    ensures UpsertAll(map[], SeedRows(store, true)) == Others(UpsertAll(map[], SeedRows(store, false)))
  {
    if |store| != 0 {
      var front, last := store[..|store| - 1], store[|store| - 1];
      AdapterSkipsIcegate(front);
      UpsertAllSplits(map[], SeedRows(front, true), RecordRows(last, true, 4));
      UpsertAllSplits(map[], SeedRows(front, false), RecordRows(last, false, 4));
      RecordSkipsIcegate(UpsertAll(map[], SeedRows(front, false)), last, 4);
    }
  }

  // --- What the seed and the customs tables hold -----------------------------

  ghost predicate DistinctContainers(store: seq<SeedRecord>) {
    forall i, j | 0 <= i < j < |store| :: store[i].containerNo != store[j].containerNo
  }

  lemma FourRows(rec: SeedRecord)
    ensures RecordRows(rec, false, |SOURCES|)
            == [SeedRow(rec, ESEAL), SeedRow(rec, FORM13), SeedRow(rec, WEIGHBRIDGE), SeedRow(rec, ICEGATE)]
  {
    hide SeedRow;
    assert RecordRows(rec, false, 1) == [SeedRow(rec, ESEAL)];
    assert RecordRows(rec, false, 2) == [SeedRow(rec, ESEAL), SeedRow(rec, FORM13)];
    assert RecordRows(rec, false, 3) == [SeedRow(rec, ESEAL), SeedRow(rec, FORM13), SeedRow(rec, WEIGHBRIDGE)];
  }

  lemma FourUpserts(t: Table, a: Row, b: Row, c: Row, d: Row)
    ensures UpsertAll(t, [a, b, c, d]) == Upsert(Upsert(Upsert(Upsert(t, a), b), c), d)
  {
    hide Upsert;
    UpsertOne(t, [a, b, c], d);
    UpsertOne(t, [a, b], c);
    UpsertOne(t, [a], b);
    UpsertOne(t, [], a);
    assert [] + [a] == [a] && [a] + [b] == [a, b] && [a, b] + [c] == [a, b, c] && [a, b, c] + [d] == [a, b, c, d];
  }

  /** The capture of each source of `rec` stands in `t`. */
  ghost predicate Holds(t: Table, rec: SeedRecord) {
    forall kind :: SeedRow(rec, kind).key in t && t[SeedRow(rec, kind).key] == SeedRow(rec, kind).capture
  }

  lemma RecordUpserts(t: Table, rec: SeedRecord)
    requires forall k | k in t :: k.containerNo != rec.containerNo
    ensures var after := UpsertAll(t, RecordRows(rec, false, |SOURCES|));
            && Holds(after, rec)
            && (forall k :: k in after <==> k in t || k == SeedRow(rec, k.kind).key)
            && (forall k | k in t :: after[k] == t[k])
  {
    FourRows(rec);
    FourUpserts(t, SeedRow(rec, ESEAL), SeedRow(rec, FORM13), SeedRow(rec, WEIGHBRIDGE), SeedRow(rec, ICEGATE));
    forall kind ensures SeedRow(rec, kind).key.kind == kind && SeedRow(rec, kind).key.containerNo == rec.containerNo {
      KeyOfSource(rec, kind);
    }
    hide SeedRow, UpsertAll, RecordRows;
  }

  lemma AllStillHold(t: Table, after: Table, store: seq<SeedRecord>)
    requires forall i | 0 <= i < |store| :: Holds(t, store[i])
    requires forall k | k in t :: k in after && after[k] == t[k]
    ensures forall i | 0 <= i < |store| :: Holds(after, store[i])
  {
    hide SeedRow;
  }

  /** `k` is the key of a capture of one of the records. */
  ghost predicate IsSeedKey(store: seq<SeedRecord>, k: Key) {
    exists i :: 0 <= i < |store| && k == SeedRow(store[i], k.kind).key
  }

  /** Exactly the four captures of every record. */
  ghost predicate HoldsExactly(t: Table, store: seq<SeedRecord>) {
    && (forall i | 0 <= i < |store| :: Holds(t, store[i]))
    && (forall k | k in t :: IsSeedKey(store, k))
  }

  lemma {:induction false} KeysOfOthers(t: Table, store: seq<SeedRecord>, rec: SeedRecord, k: Key)
    requires HoldsExactly(t, store) && k in t && forall i | 0 <= i < |store| :: store[i].containerNo != rec.containerNo
    ensures k.containerNo != rec.containerNo
  {
    hide SeedRow, Holds;
    var i :| 0 <= i < |store| && k == SeedRow(store[i], k.kind).key;
    KeyOfSource(store[i], k.kind);
  }

  lemma SeedKeyGrows(store: seq<SeedRecord>, rec: SeedRecord, k: Key)
    ensures IsSeedKey(store, k) || k == SeedRow(rec, k.kind).key ==> IsSeedKey(store + [rec], k)
  {
    hide SeedRow;
    if IsSeedKey(store, k) {
      var i :| 0 <= i < |store| && k == SeedRow(store[i], k.kind).key;
      assert (store + [rec])[i] == store[i];
    }
    assert (store + [rec])[|store|] == rec;
  }

  lemma OneMoreRecord(t: Table, store: seq<SeedRecord>, rec: SeedRecord)
    requires HoldsExactly(t, store) && forall i | 0 <= i < |store| :: store[i].containerNo != rec.containerNo
    ensures HoldsExactly(UpsertAll(t, RecordRows(rec, false, |SOURCES|)), store + [rec])
  {
    hide UpsertAll, RecordRows, SeedRow, Holds, IsSeedKey;
    forall k | k in t ensures k.containerNo != rec.containerNo {
      KeysOfOthers(t, store, rec, k);
    }
    RecordUpserts(t, rec);
    var after := UpsertAll(t, RecordRows(rec, false, |SOURCES|));
    AllStillHold(t, after, store);
    forall k | k in after ensures IsSeedKey(store + [rec], k) {
      SeedKeyGrows(store, rec, k);
    }
  }

  lemma NoRecords()
    ensures HoldsExactly(UpsertAll(map[], SeedRows([], false)), [])
  {
  }

  /** With distinct container numbers the seed holds exactly the four captures of every record. */
  lemma {:induction false} SeedHoldsFourCapturesEach(store: seq<SeedRecord>)
    requires DistinctContainers(store)
    ensures HoldsExactly(UpsertAll(map[], SeedRows(store, false)), store)
  {
    hide RecordRows, HoldsExactly, UpsertAll;
    if |store| == 0 {
      NoRecords();
    } else {
      var front, last := store[..|store| - 1], store[|store| - 1];
      SeedHoldsFourCapturesEach(front);
      OneMoreRecord(UpsertAll(map[], SeedRows(front, false)), front, last);
      UpsertAllSplits(map[], SeedRows(front, false), RecordRows(last, false, |SOURCES|));
      assert store == front + [last];
    }
  }

  /** Index of the first declared container with key `k`, or their number. */
  function FirstDeclared(customs: seq<Declared>, k: Key): (i: nat)
    ensures i <= |customs| && (i < |customs| ==> CustomsRow(customs[i]).key == k)
    ensures forall j | 0 <= j < i :: CustomsRow(customs[j]).key != k
  {
    if |customs| == 0 || CustomsRow(customs[0]).key == k then 0 else 1 + FirstDeclared(customs[1..], k)
  }

  /** The customs rows are those of the declared containers, the first one of each key. */
  lemma {:induction false} FirstDeclaredIsInserted(customs: seq<Declared>, k: Key)
    ensures k in InsertAll(map[], customs) <==> FirstDeclared(customs, k) < |customs|
    ensures k in InsertAll(map[], customs) ==>
              InsertAll(map[], customs)[k] == CustomsRow(customs[FirstDeclared(customs, k)]).capture
  {
    hide CustomsRow;
    if |customs| != 0 {
      var n := |customs| - 1;
      var front := customs[..n];
      FirstDeclaredIsInserted(front, k);
      var i, j := FirstDeclared(customs, k), FirstDeclared(front, k);
      assert j < n ==> front[j] == customs[j];
      assert i < n ==> front[i] == customs[i];
      hide FirstDeclared;
    }
  }

  // --- What the captures say -------------------------------------------------

  /** `t` holds the capture of one source of a record: synthetic, with the truck's plate and the stream as recorded. */
  ghost predicate Captures(t: Table, rec: SeedRecord, kind: Kind, at: int, status: string, payload: Payload) {
    && Key(rec.containerNo, kind, at) in t
    && t[Key(rec.containerNo, kind, at)] == Capture(Some(rec.vehiclePlate), None, Sim, status, payload)
  }

  lemma HeldIsCaptured(t: Table, rec: SeedRecord, kind: Kind, row: Row)
    requires Holds(t, rec) && row == SeedRow(rec, kind)
    ensures row.key in t && t[row.key] == row.capture
  {
    hide SeedRow;
  }

  lemma EachRecordIsHeld(w: World, i: nat)
    requires DistinctContainers(w.store) && i < |w.store|
    ensures Holds(Seed(w), w.store[i])
  {
    SeedHoldsFourCapturesEach(w.store);
    hide Holds, UpsertAll, SeedRows, IsSeedKey;
  }

  /** The four captures of a record; the streams without a clock stand under the time of the e-seal. */
  lemma SeedShowsTheStreams(w: World, i: nat)
    requires DistinctContainers(w.store) && i < |w.store|
    ensures var t, rec := Seed(w), w.store[i];
            && Captures(t, rec, ESEAL, rec.eseal.capturedAt, rec.eseal.status, OfEseal(rec.eseal))
            && Captures(t, rec, FORM13, rec.eseal.capturedAt, "REGISTERED", OfForm13(rec.form13))
            && Captures(t, rec, WEIGHBRIDGE, rec.weighbridge.capturedAt, "WEIGHED", OfWeighbridge(rec.weighbridge))
            && Captures(t, rec, ICEGATE, rec.eseal.capturedAt, rec.icegate.leoStatus,
                        OfIcegate(rec.icegate, rec.icegate.leoStatus == "GRANTED"))
  {
    EachRecordIsHeld(w, i);
    hide Seed, Holds;
    var t, rec := Seed(w), w.store[i];
    HeldIsCaptured(t, rec, ESEAL, SeedRow(rec, ESEAL));
    HeldIsCaptured(t, rec, FORM13, SeedRow(rec, FORM13));
    HeldIsCaptured(t, rec, WEIGHBRIDGE, SeedRow(rec, WEIGHBRIDGE));
    HeldIsCaptured(t, rec, ICEGATE, SeedRow(rec, ICEGATE));
  }

  /** The container stands under its entry inward, else its arrival estimate, else when its message was sent or made. */
  predicate StandsAt(c: Declared, at: int) {
    && (c.entryInward.Some? ==> at == c.entryInward.value)
    && (c.entryInward.None? && c.eta.Some? ==> at == c.eta.value)
    && (c.entryInward.None? && c.eta.None? && c.sent.Some? ==> at == c.sent.value)
    && (c.entryInward.None? && c.eta.None? && c.sent.None? ==> at == c.created)
  }

  /** A live capture without plate or gate: granted when cleared out of charge, assessed when selected for scanning. */
  predicate SaysOf(capture: Capture, c: Declared) {
    var cleared := c.status == Some((true, true)) || c.status == Some((true, false));
    var selected := c.status == Some((true, true)) || c.status == Some((false, true));
    && capture.mode == Live && capture.vehiclePlate == None && capture.gateId == None
    && capture.status == (if cleared then "GRANTED" else "PENDING")
    && capture.payload == OfCustoms(c.beNo, c.containerNo, if cleared then "GRANTED" else "PENDING", cleared, c.igmNo,
                                    if selected then "ASSESSED" else "FACILITATED")
  }

  /** Key `k` is that of declared container `i`, and of none before it. */
  ghost predicate DeclaredFirst(customs: seq<Declared>, k: Key, i: int) {
    && 0 <= i < |customs| && k.kind == ICEGATE
    && customs[i].containerNo == k.containerNo && StandsAt(customs[i], k.capturedAt)
    && forall j | 0 <= j < i :: !(customs[j].containerNo == k.containerNo && StandsAt(customs[j], k.capturedAt))
  }

  lemma CustomsRowSays(c: Declared, k: Key)
    ensures CustomsRow(c).key == k <==> k.kind == ICEGATE && c.containerNo == k.containerNo && StandsAt(c, k.capturedAt)
    ensures SaysOf(CustomsRow(c).capture, c)
  {
    assert c.status.Some? ==> c.status == Some((c.status.value.0, c.status.value.1));
  }

  /** A customs row stands under a key exactly when a container is declared with it, and says what the first says. */
  lemma CustomsSaysWhatWasDeclared(w: World, k: Key)
    ensures k in Customs(w) <==> exists i :: DeclaredFirst(w.customs, k, i)
    ensures forall i | DeclaredFirst(w.customs, k, i) :: k in Customs(w) && SaysOf(Customs(w)[k], w.customs[i])
  {
    var customs, first := w.customs, FirstDeclared(w.customs, k);
    FirstDeclaredIsInserted(customs, k);
    forall c ensures CustomsRow(c).key == k
                     <==> k.kind == ICEGATE && c.containerNo == k.containerNo && StandsAt(c, k.capturedAt)
    {
      CustomsRowSays(c, k);
    }
    hide CustomsRow, StandsAt, FirstDeclared;
    if first < |customs| {
      CustomsRowSays(customs[first], k);
      assert DeclaredFirst(customs, k, first);
    }
    forall i | DeclaredFirst(customs, k, i) ensures i == first {
      assert CustomsRow(customs[i]).key == k;
    }
  }

  // --- One boot, in overlays -------------------------------------------------

  lemma BootOverlays(w: World, t: Table, boot: Boot)
    ensures BootOnce(w, t, boot) ==
            match boot
            case On(false) => Merge(t, Others(Seed(w)))
            case On(true) => Under(Purge(Merge(t, Others(Seed(w))), Sim), Customs(w))
            case Off(purged) => Merge(if purged then Purge(t, Live) else t, Seed(w))
  {
    AdapterSkipsIcegate(w.store);
    UpsertAllMerges(t, SeedRows(w.store, true));
    UpsertAllMerges(Purge(t, Live), SeedRows(w.store, false));
    UpsertAllMerges(t, SeedRows(w.store, false));
    InsertAllIsUnder(Purge(Merge(t, Others(Seed(w))), Sim), w.customs);
    hide SeedRows, Merge, Others, Under, Purge, UpsertAll, InsertAll;
  }

  // --- What every table reached looks like -----------------------------------

  /** A row left synthetic over a live one: it lost its plate. */
  predicate LostPlate(w: World, k: Key, c: Capture) {
    k in Customs(w) && k in Seed(w) && c == Seed(w)[k].(vehiclePlate := None)
  }

  ghost predicate RowOk(w: World, k: Key, c: Capture) {
    if k.kind == ICEGATE && c.mode == Live then k in Customs(w) && c == Customs(w)[k]
    else k in Seed(w) && (c == Seed(w)[k] || (k.kind == ICEGATE && LostPlate(w, k, c)))
  }

  ghost predicate TableOk(w: World, t: Table) {
    forall k | k in t :: RowOk(w, k, t[k])
  }

  /** No synthetic row lost its plate. */
  ghost predicate PlatesKept(w: World, t: Table) {
    forall k | k in t && t[k].mode == Sim :: k in Seed(w) && t[k] == Seed(w)[k]
  }

  lemma BootKeepsTable(w: World, t: Table, boot: Boot)
    requires TableOk(w, t)
    ensures TableOk(w, BootOnce(w, t, boot))
  {
    BootOverlays(w, t, boot);
    SeedIsSeedLike(w);
    CustomsAreCustomsLike(w);
    hide BootOnce, Seed, Customs;
  }

  lemma {:induction false} EveryTableIsOk(w: World, boots: seq<Boot>)
    ensures TableOk(w, Run(w, boots))
  {
    if |boots| != 0 {
      EveryTableIsOk(w, boots[..|boots| - 1]);
      BootKeepsTable(w, Run(w, boots[..|boots| - 1]), boots[|boots| - 1]);
    }
  }

  /** After any boot, the rows of the other sources are the seed's, whatever the adapter did. */
  lemma {:induction false} OtherSourcesAreUnaffected(w: World, boots: seq<Boot>)
    requires |boots| > 0
    ensures Others(Run(w, boots)) == Others(Seed(w))
  {
    var before := Run(w, boots[..|boots| - 1]);
    EveryTableIsOk(w, boots[..|boots| - 1]);
    BootOverlays(w, before, boots[|boots| - 1]);
    SeedIsSeedLike(w);
    CustomsAreCustomsLike(w);
    hide BootOnce, Seed, Customs;
  }

  // --- Ending with the adapter on --------------------------------------------

  /** A successful sync leaves no synthetic ICEGATE row, from any table. */
  lemma SyncLeavesNoSimIcegate(w: World, t: Table)
    ensures forall k | k in BootOnce(w, t, On(true)) && k.kind == ICEGATE :: BootOnce(w, t, On(true))[k].mode == Live
  {
    BootOverlays(w, t, On(true));
    CustomsAreCustomsLike(w);
    hide BootOnce, Seed, Customs;
  }

  /** Upserting the other sources over a table reached leaves their seed rows, and every live row. */
  lemma MergeOfOk(w: World, t: Table)
    requires TableOk(w, t)
    ensures var m := Merge(t, Others(Seed(w)));
            && Others(m) == Others(Seed(w))
            && (forall k | k in m && k.kind == ICEGATE && m[k].mode == Live :: k in Customs(w) && m[k] == Customs(w)[k])
  {
    SeedIsSeedLike(w);
    CustomsAreCustomsLike(w);
    hide Seed, Customs;
  }

  lemma SyncResult(w: World, t: Table)
    requires TableOk(w, t)
    ensures BootOnce(w, t, On(true)) == Under(Others(Seed(w)), Customs(w))
  {
    BootOverlays(w, t, On(true));
    SeedIsSeedLike(w);
    CustomsAreCustomsLike(w);
    hide BootOnce, Seed, Customs;
    MergeOfOk(w, t);
    hide RowOk, Merge;
  }

  lemma RunAppends(w: World, boots: seq<Boot>, boot: Boot)
    ensures Run(w, boots + [boot]) == BootOnce(w, Run(w, boots), boot)
  {
    assert (boots + [boot])[..|boots|] == boots;
  }

  /** Any history ending in a successful sync leaves the table of one such boot from empty. */
  lemma EndingOnIsOneSync(w: World, boots: seq<Boot>)
    ensures Run(w, boots + [On(true)]) == Run(w, [On(true)])
    ensures Run(w, boots + [On(true)]) == Under(Others(Seed(w)), Customs(w))
  {
    hide BootOnce;
    EveryTableIsOk(w, boots);
    SyncResult(w, Run(w, boots));
    SyncResult(w, map[]);
    RunAppends(w, boots, On(true));
    RunAppends(w, [], On(true));
    assert [] + [On(true)] == [On(true)];
  }

  /** A failed sync leaves the ICEGATE rows as they were. */
  lemma FailedSyncKeepsIcegate(w: World, t: Table)
    ensures IcegateRows(BootOnce(w, t, On(false))) == IcegateRows(t)
  {
    BootOverlays(w, t, On(false));
    hide BootOnce, Seed, Customs;
  }

  // --- Ending with the adapter off -------------------------------------------

  lemma PurgedOffResult(w: World, t: Table)
    requires TableOk(w, t) && PlatesKept(w, t)
    ensures BootOnce(w, t, Off(true)) == Seed(w)
  {
    BootOverlays(w, t, Off(true));
    SeedIsSeedLike(w);
    hide BootOnce, Seed, Customs;
  }

  /** No customs capture has the key of a seed capture. */
  ghost predicate KeysApart(w: World) {
    Customs(w).Keys !! Seed(w).Keys
  }

  // --- The trail of a shared key ---------------------------------------------

  /** What stands under a key that the seed and the customs tables share. */
  datatype Trail = Bare | FromSeed | FromCustoms | Stripped

  function Moved(trail: Trail, boot: Boot): Trail {
    match boot
    case On(true) => FromCustoms
    case On(false) => trail
    case Off(true) => if trail == Stripped then Stripped else FromSeed
    case Off(false) => if trail == FromCustoms then Stripped else if trail == Bare then FromSeed else trail
  }

  function TrailOf(boots: seq<Boot>): Trail {
    if |boots| == 0 then Bare else Moved(TrailOf(boots[..|boots| - 1]), boots[|boots| - 1])
  }

  /** A stripped row is the seed's without its plate. */
  ghost predicate Shows(w: World, t: Table, k: Key, trail: Trail)
    requires k in Customs(w) && k in Seed(w)
  {
    match trail
    case Bare => k !in t
    case FromSeed => k in t && t[k] == Seed(w)[k]
    case FromCustoms => k in t && t[k] == Customs(w)[k]
    case Stripped => k in t && t[k] == Seed(w)[k].(vehiclePlate := None)
  }

  lemma BootMovesTheTrail(w: World, t: Table, boot: Boot, k: Key, trail: Trail)
    requires k in Customs(w) && k in Seed(w) && Shows(w, t, k, trail)
    ensures Shows(w, BootOnce(w, t, boot), k, Moved(trail, boot))
  {
    BootOverlays(w, t, boot);
    SeedIsSeedLike(w);
    CustomsAreCustomsLike(w);
    hide BootOnce, Seed, Customs;
  }

  /** In every history each shared key shows what the trail of the boots says. */
  lemma {:induction false} SharedKeysFollowTheTrail(w: World, boots: seq<Boot>, k: Key)
    requires k in Customs(w) && k in Seed(w)
    ensures Shows(w, Run(w, boots), k, TrailOf(boots))
  {
    hide BootOnce, Customs, Seed, Moved;
    if |boots| != 0 {
      var n := |boots| - 1;
      SharedKeysFollowTheTrail(w, boots[..n], k);
      BootMovesTheTrail(w, Run(w, boots[..n]), boots[n], k, TrailOf(boots[..n]));
    }
  }

  /** A sync at `i` went through, and nothing but failed syncs followed. */
  ghost predicate SyncedSince(boots: seq<Boot>, i: int) {
    0 <= i < |boots| && boots[i] == On(true) && forall m | i < m < |boots| :: boots[m] == On(false)
  }

  /** The first off boot after the sync at `i` is at `j`, its purge failed, and no later sync went through. */
  ghost predicate PurgeFailedAt(boots: seq<Boot>, i: int, j: int) {
    && 0 <= i < j < |boots| && boots[i] == On(true) && boots[j] == Off(false)
    && (forall m | i < m < j :: boots[m] == On(false))
    && (forall m | j < m < |boots| :: boots[m] != On(true))
  }

  ghost predicate EndsSynced(boots: seq<Boot>) {
    exists i :: SyncedSince(boots, i)
  }

  ghost predicate EndsStripped(boots: seq<Boot>) {
    exists i, j :: PurgeFailedAt(boots, i, j)
  }

  lemma EndsSyncedSnoc(front: seq<Boot>, boot: Boot)
    ensures EndsSynced(front + [boot]) <==> boot == On(true) || (boot == On(false) && EndsSynced(front))
  {
    var all := front + [boot];
    if boot == On(true) {
      assert SyncedSince(all, |front|);
    }
    if boot == On(false) && EndsSynced(front) {
      var i :| SyncedSince(front, i);
      assert SyncedSince(all, i);
    }
    if EndsSynced(all) && boot != On(true) {
      var i :| SyncedSince(all, i);
      assert all[|front|] == boot;
      assert forall m | 0 <= m < |front| :: front[m] == all[m];
      assert SyncedSince(front, i);
    }
  }

  lemma EndsStrippedSnoc(front: seq<Boot>, boot: Boot)
    ensures EndsStripped(front + [boot])
            <==> (boot != On(true) && EndsStripped(front)) || (boot == Off(false) && EndsSynced(front))
  {
    var all := front + [boot];
    assert forall m | 0 <= m < |front| :: front[m] == all[m];
    if boot != On(true) && EndsStripped(front) {
      var i, j :| PurgeFailedAt(front, i, j);
      assert PurgeFailedAt(all, i, j);
    }
    if boot == Off(false) && EndsSynced(front) {
      var i :| SyncedSince(front, i);
      assert PurgeFailedAt(all, i, |front|);
    }
    if EndsStripped(all) {
      var i, j :| PurgeFailedAt(all, i, j);
      assert all[|front|] == boot;
      if j == |front| {
        assert SyncedSince(front, i);
      } else {
        assert PurgeFailedAt(front, i, j);
      }
    }
  }

  /** The trail is stripped exactly when the first off boot after the last successful sync failed to purge. */
  lemma {:induction false} StrippedExactlyWhenAPurgeFailed(boots: seq<Boot>)
    ensures TrailOf(boots) == FromCustoms <==> EndsSynced(boots)
    ensures TrailOf(boots) == Stripped <==> EndsStripped(boots)
  {
    if |boots| != 0 {
      var front, last := boots[..|boots| - 1], boots[|boots| - 1];
      StrippedExactlyWhenAPurgeFailed(front);
      EndsSyncedSnoc(front, last);
      EndsStrippedSnoc(front, last);
      assert boots == front + [last];
      hide EndsSynced, EndsStripped;
    }
  }

  // --- Rollback --------------------------------------------------------------

  lemma PlatesKeptUnlessStripped(w: World, boots: seq<Boot>)
    requires KeysApart(w) || !EndsStripped(boots)
    ensures PlatesKept(w, Run(w, boots))
  {
    hide Run, Customs, Seed, TrailOf, EndsStripped;
    EveryTableIsOk(w, boots);
    StrippedExactlyWhenAPurgeFailed(boots);
    CustomsAreCustomsLike(w);
    var t := Run(w, boots);
    forall k | k in t && t[k].mode == Sim ensures k in Seed(w) && t[k] == Seed(w)[k] {
      if k in Customs(w) && k in Seed(w) {
        SharedKeysFollowTheTrail(w, boots, k);
      }
    }
  }

  lemma PlatesKeptWhenEmpty(w: World)
    ensures TableOk(w, map[]) && PlatesKept(w, map[])
  {
  }

  lemma StrippedRowsRemain(w: World, boots: seq<Boot>)
    requires !KeysApart(w) && EndsStripped(boots)
    ensures Run(w, boots + [Off(true)]) != Seed(w)
  {
    hide Run, Customs, Seed, EndsStripped, TrailOf;
    var k :| k in Customs(w) && k in Seed(w);
    EndsStrippedSnoc(boots, Off(true));
    StrippedExactlyWhenAPurgeFailed(boots + [Off(true)]);
    SharedKeysFollowTheTrail(w, boots + [Off(true)], k);
    SeedIsSeedLike(w);
  }

  /**
   * Rollback, history by history: with syncs and purges failing or not, a history that ends with the adapter
   * off and the purge done leaves the table of one off boot from empty if and only if no customs capture
   * shares its key with a seed capture, or the first off boot after the last successful sync did purge.
   */
  lemma RollbackIsSymmetric(w: World, boots: seq<Boot>)
    ensures Run(w, [Off(true)]) == Seed(w)
    ensures Run(w, boots + [Off(true)]) == Seed(w) <==> KeysApart(w) || !EndsStripped(boots)
  {
    hide BootOnce, Customs, Seed, EndsStripped, KeysApart, PlatesKept;
    RunAppends(w, boots, Off(true));
    RunAppends(w, [], Off(true));
    assert [] + [Off(true)] == [Off(true)];
    PlatesKeptWhenEmpty(w);
    PurgedOffResult(w, map[]);
    if KeysApart(w) || !EndsStripped(boots) {
      EveryTableIsOk(w, boots);
      PlatesKeptUnlessStripped(w, boots);
      PurgedOffResult(w, Run(w, boots));
    } else {
      StrippedRowsRemain(w, boots);
    }
  }

  /**
   * Every history ending with the adapter off and the purge done, failed purges included, leaves one off boot's
   * table.
   */
  ghost predicate AlwaysSymmetric(w: World) {
    forall boots: seq<Boot> :: Run(w, boots + [Off(true)]) == Run(w, [Off(true)])
  }

  lemma {:induction false} StrippedStays(boots: seq<Boot>, more: seq<Boot>)
    requires EndsStripped(boots) && On(true) !in more
    ensures EndsStripped(boots + more)
  {
    hide EndsStripped, EndsSynced;
    if |more| == 0 {
      assert boots + more == boots;
    } else {
      var front, last := more[..|more| - 1], more[|more| - 1];
      StrippedStays(boots, front);
      EndsStrippedSnoc(boots + front, last);
      assert boots + more == boots + front + [last];
    }
  }

  /** A synthetic row that lost its plate stays so until the next successful sync, after which a purge restores it. */
  lemma SharedKeyLosesItsPlateUntilTheNextSync(w: World, boots: seq<Boot>, more: seq<Boot>, k: Key)
    requires k in Customs(w) && k in Seed(w)
    requires EndsStripped(boots) && On(true) !in more
    ensures k in Run(w, boots + more) && Run(w, boots + more)[k] == Seed(w)[k].(vehiclePlate := None)
    ensures Seed(w)[k].vehiclePlate.Some?
    ensures Run(w, boots + more + [On(true)] + [Off(true)]) == Seed(w)
  {
    hide Run, Customs, Seed, EndsStripped, EndsSynced, TrailOf;
    SeedIsSeedLike(w);
    StrippedStays(boots, more);
    StrippedExactlyWhenAPurgeFailed(boots + more);
    SharedKeysFollowTheTrail(w, boots + more, k);
    EndsStrippedSnoc(boots + more, On(true));
    RollbackIsSymmetric(w, boots + more + [On(true)]);
  }

  lemma OneFailedPurge()
    ensures EndsStripped([On(true), Off(false)])
  {
    assert PurgeFailedAt([On(true), Off(false)], 0, 1);
  }

  /** When purges may fail, rollback is symmetric over every history exactly when the keys are apart. */
  lemma SymmetricExactlyWhenKeysApart(w: World)
    ensures AlwaysSymmetric(w) <==> KeysApart(w)
  {
    hide Run, KeysApart, EndsStripped;
    if KeysApart(w) {
      forall boots: seq<Boot> ensures Run(w, boots + [Off(true)]) == Run(w, [Off(true)]) {
        RollbackIsSymmetric(w, boots);
      }
    } else {
      var boots := [On(true), Off(false)];
      OneFailedPurge();
      RollbackIsSymmetric(w, boots);
      assert Run(w, boots + [Off(true)]) != Run(w, [Off(true)]);
    }
  }

  // --- Restarts --------------------------------------------------------------

  lemma MergeTwice(t: Table, m: Table)
    ensures Merge(Merge(t, m), m) == Merge(t, m)
  {
  }

  lemma PurgeTwice(t: Table, m: Table)
    requires SeedLike(m)
    ensures Merge(Purge(Merge(Purge(t, Live), m), Live), m) == Merge(Purge(t, Live), m)
  {
    assert Purge(Merge(Purge(t, Live), m), Live) == Merge(Purge(t, Live), m);
    MergeTwice(Purge(t, Live), m);
  }

  /** Upserting `c` at `k` would change nothing. */
  ghost predicate Settled(t: Table, k: Key, c: Capture) {
    k in t && t[k] == t[k].(mode := c.mode, status := c.status, payload := c.payload)
  }

  lemma MergeSettled(t: Table, m: Table)
    requires forall k | k in m :: Settled(t, k, m[k])
    ensures Merge(t, m) == t
  {
  }

  lemma {:induction false} SyncTwice(t: Table, f: Table, c: Table)
    requires CustomsLike(c)
    ensures var once := Under(Purge(Merge(t, Others(f)), Sim), c);
            Under(Purge(Merge(once, Others(f)), Sim), c) == once
  {
    var o := Others(f);
    var once := Under(Purge(Merge(t, o), Sim), c);
    forall k | k in o ensures Settled(once, k, o[k]) {
      assert k in Merge(t, o) && k !in c;
    }
    hide Others;
    MergeSettled(once, o);
    assert Purge(once, Sim) == once;
  }

  /** Booting again the same way changes nothing, from any table. */
  lemma RestartChangesNothing(w: World, t: Table, boot: Boot)
    ensures BootOnce(w, BootOnce(w, t, boot), boot) == BootOnce(w, t, boot)
  {
    BootOverlays(w, t, boot);
    BootOverlays(w, BootOnce(w, t, boot), boot);
    SeedIsSeedLike(w);
    CustomsAreCustomsLike(w);
    var f, c := Seed(w), Customs(w);
    hide BootOnce, Seed, Customs;
    match boot
    case On(false) => MergeTwice(t, Others(f));
    case On(true) => SyncTwice(t, f, c);
    case Off(false) => MergeTwice(t, f);
    case Off(true) => PurgeTwice(t, f);
  }
}
