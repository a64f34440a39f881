/** The deterministic gate data set: four captured records per container, some with drawn anomalies. */
module GateSeed {
  import opened Wrappers
  import opened Text
  import opened Rounding

  const SEED := "jnpa-uc3-gate-data-v1"
  const PINNED_CLEAN := "MSCU1234566"
  const PINNED_TAMPER := "MAEU7654320"

  const LINE_CODES: seq<string> := ["MSC", "MAE", "HLC", "CMA", "OOL", "EMC", "APL", "COS", "ONE", "ZIM"]
  const CARGO_DESCS: seq<string> := ["COTTON YARN", "ENGINEERING GOODS", "PHARMACEUTICAL FORMULATIONS", "BASMATI RICE",
                                     "LEATHER FOOTWEAR", "CERAMIC TILES", "AUTO COMPONENTS", "ORGANIC CHEMICALS",
                                     "MARINE PRODUCTS (FROZEN)", "READYMADE GARMENTS"]
  const ASSESSMENTS: seq<string> := ["FACILITATED", "FACILITATED", "FACILITATED", "ASSESSED", "QUERY_RAISED"]
  const SERIES: seq<string> := ["MH04", "MH43", "MH06", "GJ01", "KA01", "TN22", "KL07"]
  const LETTERS := "ABCDEFGHJKLMNPRSTUVWXYZ"
  const AXLES: seq<nat> := [4, 5, 6]

  // --- Records ---------------------------------------------------------------

  /** Capture instants are counted in seconds of the reference date. */
  datatype Eseal = Eseal(esealId: string, containerNo: string, status: string, tamperFlag: bool, capturedAt: nat)

  datatype Form13 = Form13(form13No: string, containerNo: string, shippingBillNo: string, cargoDesc: string,
                           grossWtKg: int)

  datatype Weighbridge = Weighbridge(vehiclePlate: string, containerNo: string, measuredWtKg: int, axleCount: nat,
                                     capturedAt: nat)

  datatype Icegate = Icegate(shippingBillNo: string, containerNo: string, leoStatus: string, igmNo: string,
                             assessment: string)

  /** A stream may be absent when it was never captured. */
  datatype GateRecord = GateRecord(containerNo: string, vehiclePlate: string, eseal: Option<Eseal>,
                                   form13: Option<Form13>, weighbridge: Option<Weighbridge>, icegate: Option<Icegate>)

  // --- Hash-driven draws -----------------------------------------------------

  /** The first eight digest bytes of a text, and the check digit appended to ten characters. */
  datatype Source = Source(digest: string -> nat, withCheckDigit: string -> string)

  function Joined(parts: seq<string>): string {
    if |parts| == 0 then "" else "|" + parts[0] + Joined(parts[1..])
  }

  function Hash(src: Source, parts: seq<string>): nat {
    src.digest(SEED + Joined(parts))
  }

  function HashAt(src: Source, what: string, i: nat): nat {
    Hash(src, [what, Decimal(i)])
  }

  function Pct(src: Source, value: nat, what: string, i: nat): bool {
    Hash(src, ["pct", what, Decimal(i)]) % 10_000 < value * 100
  }

  predicate Tampered(src: Source, i: nat) {
    Pct(src, 6, "tamper", i)
  }

  predicate Misweighed(src: Source, i: nat) {
    Pct(src, 7, "wmis", i)
  }

  predicate LeoMissing(src: Source, i: nat) {
    Pct(src, 5, "leomiss", i)
  }

  // --- Field generators ------------------------------------------------------

  const SERIALS := 1_000_000

  /** A line code, the freight category and six digits, with their check digit. */
  function NumberOf(src: Source, line: nat, serial: nat): string
    requires line < |LINE_CODES|
  {
    src.withCheckDigit(LINE_CODES[line] + "U" + ZeroPadded(Decimal(serial), 6))
  }

  function ContainerNo(src: Source, i: nat): string {
    NumberOf(src, HashAt(src, "line", i) % |LINE_CODES|, HashAt(src, "cserial", i) % SERIALS)
  }

  function VehiclePlate(src: Source, i: nat): string {
    SERIES[HashAt(src, "vseries", i) % |SERIES|]
    + [LETTERS[HashAt(src, "vl1", i) % |LETTERS|], LETTERS[HashAt(src, "vl2", i) % |LETTERS|]]
    + ZeroPadded(Decimal(HashAt(src, "vnum", i) % 9999 + 1), 4)
  }

  function ShippingBillNo(src: Source, i: nat): string {
    ZeroPadded(Decimal(HashAt(src, "sb", i) % 9_000_000 + 1_000_000), 7)
  }

  function Seconds(src: Source, i: nat, what: string): nat {
    Hash(src, ["ts", Decimal(i), what]) % 86_400
  }

  /** Declared gross weight of a laden container, 12,000 to 30,000 kg. */
  function GrossWt(src: Source, i: nat): nat {
    12_000 + HashAt(src, "gross", i) % 18_001
  }

  /** Hundredths of a percent by which the reading is off: 400 to 899 when drawn, 0 to 99 otherwise. */
  function DeltaCentiPct(src: Source, i: nat): nat {
    if Misweighed(src, i) then 400 + HashAt(src, "wdelta", i) % 500 else HashAt(src, "wdelta", i) % 100
  }

  /** The gross shifted up or down by hundredths of a percent. */
  function Shifted(gross: nat, up: bool, deltaCentiPct: nat): real {
    var sign := if up then 1.0 else -1.0;
    gross as real * (1.0 + sign * (deltaCentiPct as real / 100.0) / 100.0)
  }

  function MeasuredWt(src: Source, i: nat): int {
    RoundHalfEven(Shifted(GrossWt(src, i), HashAt(src, "wsign", i) % 2 == 0, DeltaCentiPct(src, i)))
  }

  function BuildEseal(src: Source, containerNo: string, i: nat): Eseal {
    Eseal("ESL" + ZeroPadded(Decimal(HashAt(src, "eseal", i) % 10_000_000_000), 10), containerNo,
          if Tampered(src, i) then "TAMPERED" else "ARMED", Tampered(src, i), Seconds(src, i, "eseal"))
  }

  function BuildForm13(src: Source, containerNo: string, i: nat): Form13 {
    Form13("F13" + ZeroPadded(Decimal(HashAt(src, "f13", i) % 1_000_000_000), 9), containerNo,
           ShippingBillNo(src, i), CARGO_DESCS[HashAt(src, "cargo", i) % |CARGO_DESCS|], GrossWt(src, i))
  }

  function BuildWeighbridge(src: Source, containerNo: string, i: nat): Weighbridge {
    Weighbridge(VehiclePlate(src, i), containerNo, MeasuredWt(src, i), AXLES[HashAt(src, "axle", i) % |AXLES|],
                Seconds(src, i, "wb"))
  }

  function BuildIcegate(src: Source, containerNo: string, i: nat): Icegate {
    Icegate(ShippingBillNo(src, i), containerNo, if LeoMissing(src, i) then "PENDING" else "GRANTED",
            "IGM" + ZeroPadded(Decimal(HashAt(src, "igm", i) % 10_000_000), 7),
            if LeoMissing(src, i) then "QUERY_RAISED"
            else ASSESSMENTS[HashAt(src, "assess", i) % |ASSESSMENTS|])
  }

  /** All attributes of index `i`, on a given container number. */
  function BuildFor(src: Source, containerNo: string, i: nat): GateRecord {
    GateRecord(containerNo, VehiclePlate(src, i), Some(BuildEseal(src, containerNo, i)),
               Some(BuildForm13(src, containerNo, i)), Some(BuildWeighbridge(src, containerNo, i)),
               Some(BuildIcegate(src, containerNo, i)))
  }

  function Build(src: Source, i: nat): GateRecord {
    BuildFor(src, ContainerNo(src, i), i)
  }

  // --- Searching for a pinned index ------------------------------------------

  predicate AllClean(src: Source, i: nat) {
    !(Tampered(src, i) || Misweighed(src, i) || LeoMissing(src, i))
  }

  predicate OnlyTampered(src: Source, i: nat) {
    Tampered(src, i) && !Misweighed(src, i) && !LeoMissing(src, i)
  }

  function CleanPick(src: Source): nat -> bool {
    (i: nat) => AllClean(src, i)
  }

  function TamperPick(src: Source): nat -> bool {
    (i: nat) => OnlyTampered(src, i)
  }

  /** The first picked index at or after `from`; the search ends because `bound` is picked. */
  function First(pick: nat -> bool, from: nat, ghost bound: nat): (i: nat)
    requires from <= bound && pick(bound)
    ensures from <= i <= bound && pick(i)
    ensures forall j | from <= j < i :: !pick(j)
    decreases bound - from
  {
    if pick(from) then from else First(pick, from + 1, bound)
  }

  method FindFirst(pick: nat -> bool, ghost bound: nat) returns (i: nat)
    requires pick(bound)
    ensures i == First(pick, 0, bound)
  {
    i := 0;
    while !pick(i)
      invariant i <= bound && First(pick, i, bound) == First(pick, 0, bound)
      decreases bound - i
    {
      i := i + 1;
    }
  }

  // --- The data set ----------------------------------------------------------

  type Dataset = map<string, GateRecord>

  /** The records of the first `n` indices, later ones overwriting earlier ones. */
  function Drawn(src: Source, n: nat): Dataset {
    if n == 0 then map[] else Drawn(src, n - 1)[ContainerNo(src, n - 1) := Build(src, n - 1)]
  }

  /** The index at which filling from `i` stops: enough containers, or more than `4 * total` indices drawn. */
  function FillEnd(src: Source, total: int, i: nat): nat
    decreases 4 * total + 1 - i
  {
    if |Drawn(src, i)| >= total then i
    else if i + 1 > total * 4 then i + 1
    else FillEnd(src, total, i + 1)
  }

  /** The filled set, with the two well-known containers put over it. */
  function Generated(src: Source, total: int, clean: nat, tamper: nat): Dataset {
    Drawn(src, FillEnd(src, total, 0))[PINNED_CLEAN := BuildFor(src, PINNED_CLEAN, clean)]
                                      [PINNED_TAMPER := BuildFor(src, PINNED_TAMPER, tamper)]
  }

  lemma BuildKeepsNumber(src: Source, i: nat)
    ensures Build(src, i).containerNo == ContainerNo(src, i)
  {
    hide ContainerNo, VehiclePlate, BuildEseal, BuildForm13, BuildWeighbridge, BuildIcegate;
  }

  lemma NothingDrawn(src: Source)
    ensures Drawn(src, 0) == map[]
  {
  }

  lemma OneMoreDrawn(src: Source, i: nat)
    ensures Drawn(src, i + 1) == Drawn(src, i)[Build(src, i).containerNo := Build(src, i)]
  {
    BuildKeepsNumber(src, i);
    hide ContainerNo, Build;
  }

  lemma FillStopsOrGoesOn(src: Source, total: int, i: nat)
    ensures FillEnd(src, total, i)
            == if |Drawn(src, i)| >= total then i else if i + 1 > total * 4 then i + 1 else FillEnd(src, total, i + 1)
  {
    hide Drawn;
  }

  method Fill(src: Source, total: int) returns (out: Dataset)
    ensures out == Drawn(src, FillEnd(src, total, 0))
  {
    hide *;
    NothingDrawn(src);
    out := map[];
    var i := 0;
    while |out| < total
      invariant out == Drawn(src, i)
      invariant FillEnd(src, total, i) == FillEnd(src, total, 0)
      decreases 4 * total + 1 - i
    {
      var rec := Build(src, i);
      OneMoreDrawn(src, i);
      FillStopsOrGoesOn(src, total, i);
      out := out[rec.containerNo := rec];
      i := i + 1;
      if i > total * 4 {
        break;
      }
    }
    FillStopsOrGoesOn(src, total, i);
  }

  method GenerateDataset(src: Source, total: int, ghost cleanBound: nat, ghost tamperBound: nat)
    returns (out: Dataset)
    requires AllClean(src, cleanBound) && OnlyTampered(src, tamperBound)
    ensures out == Generated(src, total, First(CleanPick(src), 0, cleanBound), First(TamperPick(src), 0, tamperBound))
  {
    hide FillEnd, Drawn, BuildFor, Tampered, Misweighed, LeoMissing;
    out := Fill(src, total);
    var clean := FindFirst(CleanPick(src), cleanBound);
    out := out[PINNED_CLEAN := BuildFor(src, PINNED_CLEAN, clean)];
    var tamper := FindFirst(TamperPick(src), tamperBound);
    out := out[PINNED_TAMPER := BuildFor(src, PINNED_TAMPER, tamper)];
  }

  // --- What an index draws ---------------------------------------------------

  /** What is drawn for field `what` of index `i`: the digest of the seed, the field and the index. */
  function Draw(src: Source, what: string, i: nat): nat {
    src.digest("jnpa-uc3-gate-data-v1|" + what + "|" + Decimal(i))
  }

  lemma HashAtIsDraw(src: Source, what: string, i: nat)
    ensures HashAt(src, what, i) == Draw(src, what, i)
  {
    var d := Decimal(i);
    assert [what, d][1..] == [d] && [d][1..] == [];
    assert Joined([d]) == "|" + d;
    assert Joined([what, d]) == "|" + what + ("|" + d);
    assert SEED + Joined([what, d]) == "jnpa-uc3-gate-data-v1|" + what + "|" + d;
  }

  lemma PctIsDraw(src: Source, value: nat, what: string, i: nat)
    ensures Pct(src, value, what, i) <==> Draw(src, "pct|" + what, i) % 10_000 < value * 100
  {
    var d := Decimal(i);
    assert ["pct", what, d][1..] == [what, d] && [what, d][1..] == [d] && [d][1..] == [];
    assert Joined([d]) == "|" + d;
    assert Joined([what, d]) == "|" + what + ("|" + d);
    assert Joined(["pct", what, d]) == "|pct" + ("|" + what + ("|" + d));
    assert SEED + Joined(["pct", what, d]) == "jnpa-uc3-gate-data-v1|" + ("pct|" + what) + "|" + d;
  }

  /** Six containers in a hundred are drawn tampered, seven misweighed and five without their order. */
  lemma AnomalyRates(src: Source, i: nat)
    ensures Tampered(src, i) <==> Draw(src, "pct|tamper", i) % 10_000 < 600
    ensures Misweighed(src, i) <==> Draw(src, "pct|wmis", i) % 10_000 < 700
    ensures LeoMissing(src, i) <==> Draw(src, "pct|leomiss", i) % 10_000 < 500
  {
    PctIsDraw(src, 6, "tamper", i);
    PctIsDraw(src, 7, "wmis", i);
    PctIsDraw(src, 5, "leomiss", i);
    assert "pct|" + "tamper" == "pct|tamper" && "pct|" + "wmis" == "pct|wmis" && "pct|" + "leomiss" == "pct|leomiss";
  }

  /** The four streams of a record are of one container and one shipping bill, and show the anomalies drawn. */
  lemma StreamsAgree(src: Source, containerNo: string, i: nat)
    ensures var r := BuildFor(src, containerNo, i);
            && r.containerNo == containerNo
            && r.eseal.Some? && r.form13.Some? && r.weighbridge.Some? && r.icegate.Some?
            && (var (e, f, w, c) := (r.eseal.value, r.form13.value, r.weighbridge.value, r.icegate.value);
                && e.containerNo == f.containerNo == w.containerNo == c.containerNo == containerNo
                && f.shippingBillNo == c.shippingBillNo && w.vehiclePlate == r.vehiclePlate
                && (e.tamperFlag <==> Draw(src, "pct|tamper", i) % 10_000 < 600)
                && e.status == (if e.tamperFlag then "TAMPERED" else "ARMED")
                && c.leoStatus == (if Draw(src, "pct|leomiss", i) % 10_000 < 500 then "PENDING" else "GRANTED")
                && (c.leoStatus == "PENDING" ==> c.assessment == "QUERY_RAISED")
                && f.grossWtKg == 12_000 + Draw(src, "gross", i) % 18_001 && w.axleCount in {4, 5, 6}
                && e.capturedAt < 86_400 && w.capturedAt < 86_400)
  {
    hide ShippingBillNo, VehiclePlate, MeasuredWt, Tampered, Misweighed, LeoMissing, Hash, HashAt;
    AnomalyRates(src, i);
    HashAtIsDraw(src, "gross", i);
    assert AXLES[HashAt(src, "axle", i) % |AXLES|] in {4, 5, 6};
    hide Draw;
  }

  lemma SecondsIsDraw(src: Source, i: nat, what: string)
    ensures Seconds(src, i, what) == src.digest("jnpa-uc3-gate-data-v1|ts|" + Decimal(i) + "|" + what) % 86_400
  {
    var d := Decimal(i);
    assert ["ts", d, what][1..] == [d, what] && [d, what][1..] == [what] && [what][1..] == [];
    assert Joined([what]) == "|" + what;
    assert Joined([d, what]) == "|" + d + ("|" + what);
    assert Joined(["ts", d, what]) == "|ts" + ("|" + d + ("|" + what));
    assert SEED + Joined(["ts", d, what]) == "jnpa-uc3-gate-data-v1|ts|" + d + "|" + what;
  }

  /** The seal's and the form's fields, each drawn from the digest of its own name and padded to its width. */
  lemma SealAndFormAreDrawn(src: Source, containerNo: string, i: nat)
    ensures var e, f := BuildEseal(src, containerNo, i), BuildForm13(src, containerNo, i);
            && e.esealId == "ESL" + ZeroPadded(Decimal(Draw(src, "eseal", i) % 10_000_000_000), 10)
            && e.capturedAt == src.digest("jnpa-uc3-gate-data-v1|ts|" + Decimal(i) + "|" + "eseal") % 86_400
            && f.form13No == "F13" + ZeroPadded(Decimal(Draw(src, "f13", i) % 1_000_000_000), 9)
            && f.shippingBillNo == ZeroPadded(Decimal(Draw(src, "sb", i) % 9_000_000 + 1_000_000), 7)
            && f.cargoDesc == CARGO_DESCS[Draw(src, "cargo", i) % 10]
  {
    HashAtIsDraw(src, "eseal", i);
    HashAtIsDraw(src, "f13", i);
    HashAtIsDraw(src, "sb", i);
    HashAtIsDraw(src, "cargo", i);
    SecondsIsDraw(src, i, "eseal");
    hide HashAt, Draw, Seconds, ZeroPadded, Tampered, GrossWt;
  }

  /** The bridge's and the customs message's fields. */
  lemma BridgeAndOrderAreDrawn(src: Source, containerNo: string, i: nat)
    ensures var w, c := BuildWeighbridge(src, containerNo, i), BuildIcegate(src, containerNo, i);
            && w.axleCount == 4 + Draw(src, "axle", i) % 3
            && w.capturedAt == src.digest("jnpa-uc3-gate-data-v1|ts|" + Decimal(i) + "|" + "wb") % 86_400
            && c.igmNo == "IGM" + ZeroPadded(Decimal(Draw(src, "igm", i) % 10_000_000), 7)
            && (c.leoStatus == "GRANTED" ==> c.assessment == ASSESSMENTS[Draw(src, "assess", i) % 5])
  {
    HashAtIsDraw(src, "axle", i);
    HashAtIsDraw(src, "igm", i);
    HashAtIsDraw(src, "assess", i);
    SecondsIsDraw(src, i, "wb");
    hide HashAt, Draw, Seconds, ZeroPadded, LeoMissing, MeasuredWt, VehiclePlate, ShippingBillNo;
    assert AXLES[0] == 4 && AXLES[1] == 5 && AXLES[2] == 6;
  }

  /** The container number and the plate of an index. */
  lemma NamesAreDrawn(src: Source, i: nat)
    ensures ContainerNo(src, i)
            == src.withCheckDigit(LINE_CODES[Draw(src, "line", i) % 10] + "U"
                                  + ZeroPadded(Decimal(Draw(src, "cserial", i) % 1_000_000), 6))
    ensures VehiclePlate(src, i)
            == SERIES[Draw(src, "vseries", i) % 7]
               + [LETTERS[Draw(src, "vl1", i) % 23], LETTERS[Draw(src, "vl2", i) % 23]]
               + ZeroPadded(Decimal(Draw(src, "vnum", i) % 9999 + 1), 4)
  {
    HashAtIsDraw(src, "line", i);
    HashAtIsDraw(src, "cserial", i);
    HashAtIsDraw(src, "vseries", i);
    HashAtIsDraw(src, "vl1", i);
    HashAtIsDraw(src, "vl2", i);
    HashAtIsDraw(src, "vnum", i);
    hide HashAt, Draw, ZeroPadded;
  }

  /** How far the reading is off, in hundredths of a percent: 4.00 to 8.99 percent if drawn so, else below one. */
  function OffBy(src: Source, i: nat): nat {
    if Draw(src, "pct|wmis", i) % 10_000 < 700 then 400 + Draw(src, "wdelta", i) % 500
    else Draw(src, "wdelta", i) % 100
  }

  /** So many hundredths of a percent of a weight. */
  function Share(gross: nat, centiPct: nat): real {
    gross as real * (centiPct as real / 10_000.0)
  }

  lemma ShiftSplits(gross: nat, up: bool, delta: nat)
    ensures Shifted(gross, up, delta) == if up then gross as real + Share(gross, delta)
                                         else gross as real - Share(gross, delta)
  {
    var rate := delta as real / 10_000.0;
    assert up ==> Shifted(gross, up, delta) == gross as real * (1.0 + rate);
    assert !up ==> Shifted(gross, up, delta) == gross as real * (1.0 - rate);
  }

  /** The reading is the declared weight so far off, up for an even draw and down for an odd one, to the kilogram. */
  lemma ReadingIsDrawn(src: Source, i: nat)
    ensures var gross, up := 12_000 + Draw(src, "gross", i) % 18_001, Draw(src, "wsign", i) % 2 == 0;
            var off := Share(gross, OffBy(src, i));
            -0.5 <= MeasuredWt(src, i) as real - (if up then gross as real + off else gross as real - off) <= 0.5
  {
    HashAtIsDraw(src, "gross", i);
    HashAtIsDraw(src, "wsign", i);
    HashAtIsDraw(src, "wdelta", i);
    AnomalyRates(src, i);
    hide HashAt, Draw, Misweighed, Tampered, LeoMissing, Shifted, RoundHalfEven, Share;
    ShiftSplits(GrossWt(src, i), HashAt(src, "wsign", i) % 2 == 0, OffBy(src, i));
  }
}
