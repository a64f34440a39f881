/** Vehicle ids `TRK-000018`: parsing, formatting and the operator range. */
module VehicleIds {
  import opened Wrappers
  import opened Text

  const OPERATOR_ID_FLOOR := 900_001
  const LAST_SUFFIX := 999_999

  function OrEmpty(s: Option<string>): string {
    if s.Some? then s.value else ""
  }

  /** Trimmed and upper-cased, as every id and plate key is. */
  function Normalize(s: string): string {
    Upper(Strip(s))
  }

  predicate AllDigits(s: string) {
    forall i | 0 <= i < |s| :: '0' <= s[i] <= '9'
  }

  function DigitValue(c: char): (n: nat)
    requires '0' <= c <= '9'
    ensures n < 10
  {
    c as int - '0' as int
  }

  function Value(s: string): nat
    requires AllDigits(s)
  {
    if |s| == 0 then 0 else Value(s[..|s| - 1]) * 10 + DigitValue(s[|s| - 1])
  }

  /** `TRK-` and six digits. */
  predicate LooksLikeTrkId(s: string) {
    |s| == 10 && s[..4] == "TRK-" && AllDigits(s[4..])
  }

  /** Numeric suffix of a vehicle id, 0 when it has another shape. */
  function SeqOf(id: string): nat {
    var v := Normalize(id);
    if LooksLikeTrkId(v) then Value(v[4..]) else 0
  }

  function FormatId(n: nat): string {
    "TRK-" + ZeroPadded(Decimal(n), 6)
  }

  /** The highest operator suffix among the ids, 0 when there is none. */
  function Highest(ids: seq<string>): nat {
    if |ids| == 0 then 0
    else
      var before, n := Highest(ids[..|ids| - 1]), SeqOf(ids[|ids| - 1]);
      if n >= OPERATOR_ID_FLOOR && n > before then n else before
  }

  function NextAfter(highest: nat): string {
    FormatId(if highest + 1 > OPERATOR_ID_FLOOR then highest + 1 else OPERATOR_ID_FLOOR)
  }

  function NextId(ids: seq<string>): string {
    NextAfter(Highest(ids))
  }

  /** The database's form: the greatest text among the well-formed ids of the operator range. */
  function TextMax(ids: seq<string>): Option<string> {
    if |ids| == 0 then None
    else
      var before, id := TextMax(ids[..|ids| - 1]), ids[|ids| - 1];
      if LooksLikeTrkId(id) && StrLeq(FormatId(OPERATOR_ID_FLOOR), id)
         && (before.None? || StrLeq(before.value, id)) then Some(id)
      else before
  }

  function SqlNextId(ids: seq<string>): string {
    var m := TextMax(ids);
    NextAfter(if m.Some? then SeqOf(m.value) else 0)
  }

  // --- Digits ----------------------------------------------------------------

  function Pow10(k: nat): (p: nat)
    ensures p >= 1
  {
    if k == 0 then 1 else 10 * Pow10(k - 1)
  }

  lemma {:induction false} ValueOfDecimal(n: nat)
    ensures Value(Decimal(n)) == n
  {
    if n >= 10 {
      ValueOfDecimal(n / 10);
      var s := Decimal(n);
      assert s[..|s| - 1] == Decimal(n / 10) && s[|s| - 1] == Digit(n % 10);
    } else {
      assert Decimal(n)[..0] == "" && Decimal(n)[0] == Digit(n);
    }
  }

  lemma {:induction false} DecimalLength(n: nat, k: nat)
    requires k >= 1
    ensures |Decimal(n)| <= k <==> n < Pow10(k)
  {
    if n >= 10 {
      if k == 1 {
        assert Pow10(1) == 10;
      } else {
        DecimalLength(n / 10, k - 1);
      }
    } else {
      assert Pow10(k) == 10 * Pow10(k - 1);
    }
  }

  lemma {:induction false} LeadingZero(s: string)
    requires AllDigits(s)
    ensures AllDigits("0" + s) && Value("0" + s) == Value(s)
  {
    var t := "0" + s;
    if |s| == 0 {
      assert t[..0] == "";
    } else {
      LeadingZero(s[..|s| - 1]);
      assert t[..|t| - 1] == "0" + s[..|s| - 1] && t[|t| - 1] == s[|s| - 1];
    }
  }

  lemma {:induction false} PaddingKeepsValue(s: string, width: nat)
    requires AllDigits(s)
    ensures AllDigits(ZeroPadded(s, width)) && Value(ZeroPadded(s, width)) == Value(s)
    decreases width - |s|
  {
    if |s| < width {
      LeadingZero(s);
      PaddingKeepsValue("0" + s, width);
    }
  }

  lemma TenTimes(d: nat, p: nat)
    ensures d * p * 10 == d * (10 * p)
  {
  }

  /** The leading digit weighs more than all that follow. */
  lemma {:induction false} ValueByHead(s: string)
    requires |s| > 0 && AllDigits(s)
    ensures AllDigits(s[1..]) && Value(s) == DigitValue(s[0]) * Pow10(|s| - 1) + Value(s[1..])
    ensures Value(s[1..]) < Pow10(|s| - 1)
  {
    if |s| == 1 {
      assert s[..0] == "" && s[1..] == "";
    } else {
      var front := s[..|s| - 1];
      ValueByHead(front);
      assert s[1..][..|s| - 2] == front[1..];
      assert Pow10(|s| - 1) == 10 * Pow10(|s| - 2);
      TenTimes(DigitValue(s[0]), Pow10(|s| - 2));
    }
  }

  lemma {:induction false} HeadDecides(d: nat, e: nat, p: nat, x: nat, y: nat)
    requires d < e && x < p
    ensures d * p + x < e * p + y
  {
    assert (d + 1) * p <= e * p;
  }

  /** Digit strings of one length sort as text exactly as they do as numbers. */
  lemma {:induction false} LexicalIsNumeric(a: string, b: string)
    requires |a| == |b| && AllDigits(a) && AllDigits(b)
    ensures StrLeq(a, b) <==> Value(a) <= Value(b)
  {
    if |a| != 0 {
      ValueByHead(a);
      ValueByHead(b);
      var d, e, p := DigitValue(a[0]), DigitValue(b[0]), Pow10(|a| - 1);
      if d < e {
        HeadDecides(d, e, p, Value(a[1..]), Value(b[1..]));
      } else if e < d {
        HeadDecides(e, d, p, Value(b[1..]), Value(a[1..]));
      } else {
        LexicalIsNumeric(a[1..], b[1..]);
      }
    }
  }

  // --- Ids -------------------------------------------------------------------

  lemma {:induction false} NormalizeTwice(s: string)
    ensures Normalize(Normalize(s)) == Normalize(s) && Strip(Normalize(s)) == Normalize(s)
  {
    StripTrims(s);
    UpperTwice(Strip(s));
    UpperKeepsTrimmed(Strip(s));
    StripTrims(Normalize(s));
    hide Strip, Upper, Trimmed;
  }

  lemma PrefixedDigitsAreNormal(tail: string)
    requires |tail| > 0 && AllDigits(tail)
    ensures Normalize("TRK-" + tail) == "TRK-" + tail
  {
    hide Strip, Upper;
    var id := "TRK-" + tail;
    StripTrims(id);
    forall i | 0 <= i < |id| ensures !IsSpace(id[i]) && UpperChar(id[i]) == id[i] {
      assert id[i] == if i < 4 then "TRK-"[i] else tail[i - 4];
    }
    hide IsSpace;
    assert Upper(id) == id;
  }

  lemma TrkIdIsNormal(id: string)
    requires LooksLikeTrkId(id)
    ensures Normalize(id) == id
  {
    assert id == "TRK-" + id[4..];
    PrefixedDigitsAreNormal(id[4..]);
  }

  lemma FormatShape(n: nat)
    ensures LooksLikeTrkId(FormatId(n)) <==> n <= LAST_SUFFIX
    ensures n <= LAST_SUFFIX ==> Value(FormatId(n)[4..]) == n
  {
    DecimalLength(n, 6);
    assert Pow10(6) == 1_000_000 by {
      assert Pow10(3) == 1000;
      assert Pow10(6) == 1000 * Pow10(3);
    }
    PaddingKeepsValue(Decimal(n), 6);
    ValueOfDecimal(n);
    assert FormatId(n)[..4] == "TRK-" && FormatId(n)[4..] == ZeroPadded(Decimal(n), 6);
  }

  /** Parsing inverts formatting on every six-digit suffix, and on no other. */
  lemma SeqOfInvertsFormat(n: nat)
    ensures SeqOf(FormatId(n)) == n <==> n <= LAST_SUFFIX
    ensures n > LAST_SUFFIX ==> SeqOf(FormatId(n)) == 0
  {
    FormatShape(n);
    if n <= LAST_SUFFIX {
      TrkIdIsNormal(FormatId(n));
    } else {
      PaddingKeepsValue(Decimal(n), 6);
      PrefixedDigitsAreNormal(ZeroPadded(Decimal(n), 6));
    }
  }

  lemma SixDigits(s: string)
    requires |s| == 6 && AllDigits(s)
    ensures Value(s) <= LAST_SUFFIX
  {
    ValueByHead(s);
    assert Pow10(5) == 100_000 by {
      assert Pow10(5) == 100 * Pow10(3);
      assert Pow10(3) == 1000;
    }
  }

  lemma PrefixedOrder(p: string, a: string, b: string)
    ensures StrLeq(p + a, p + b) <==> StrLeq(a, b)
  {
    if |p| == 0 {
      assert p + a == a && p + b == b;
    } else {
      assert (p + a)[1..] == p[1..] + a && (p + b)[1..] == p[1..] + b;
      PrefixedOrder(p[1..], a, b);
    }
  }

  /** Well-formed ids sort as text exactly as their suffixes do as numbers. */
  lemma IdOrderIsNumeric(a: string, b: string)
    requires LooksLikeTrkId(a) && LooksLikeTrkId(b)
    ensures StrLeq(a, b) <==> SeqOf(a) <= SeqOf(b)
  {
    TrkIdIsNormal(a);
    TrkIdIsNormal(b);
    LexicalIsNumeric(a[4..], b[4..]);
    PrefixedOrder("TRK-", a[4..], b[4..]);
    assert a == "TRK-" + a[4..] && b == "TRK-" + b[4..];
  }

  /** Formatting inverts parsing on every well-formed id. */
  lemma FormatInvertsSeqOf(id: string)
    requires LooksLikeTrkId(id)
    ensures SeqOf(id) <= LAST_SUFFIX && FormatId(SeqOf(id)) == id
  {
    TrkIdIsNormal(id);
    SixDigits(id[4..]);
    var again := FormatId(SeqOf(id));
    FormatShape(SeqOf(id));
    SeqOfInvertsFormat(SeqOf(id));
    IdOrderIsNumeric(again, id);
    IdOrderIsNumeric(id, again);
    StrLeqAntisymmetric(again, id);
  }

  // --- Allocation ------------------------------------------------------------

  lemma {:induction false} HighestBounds(ids: seq<string>)
    ensures Highest(ids) <= LAST_SUFFIX
    ensures forall i | 0 <= i < |ids| :: SeqOf(ids[i]) < OPERATOR_ID_FLOOR || SeqOf(ids[i]) <= Highest(ids)
  {
    if |ids| != 0 {
      HighestBounds(ids[..|ids| - 1]);
      var v := Normalize(ids[|ids| - 1]);
      if LooksLikeTrkId(v) {
        SixDigits(v[4..]);
      }
      forall i | 0 <= i < |ids| ensures SeqOf(ids[i]) < OPERATOR_ID_FLOOR || SeqOf(ids[i]) <= Highest(ids) {
        if i < |ids| - 1 {
          assert ids[..|ids| - 1][i] == ids[i];
        }
      }
    }
  }

  lemma {:induction false} HighestOfLonger(a: seq<string>, b: seq<string>)
    requires a <= b
    ensures Highest(a) <= Highest(b)
    ensures forall i | |a| <= i < |b| && SeqOf(b[i]) >= OPERATOR_ID_FLOOR :: SeqOf(b[i]) <= Highest(b)
    ensures (forall i | |a| <= i < |b| :: SeqOf(b[i]) < OPERATOR_ID_FLOOR) ==> Highest(a) == Highest(b)
    decreases |b|
  {
    hide SeqOf;
    if |a| < |b| {
      var front := b[..|b| - 1];
      HighestOfLonger(a, front);
      assert forall i | |a| <= i < |front| :: front[i] == b[i];
    } else {
      assert a == b;
    }
  }

  /**
   * Below the last suffix the next id is new, well-formed, in the operator range and above every operator id
   * issued; at the last suffix it is `TRK-1000000`, outside the range, whatever ids are added later.
   */
  lemma {:induction false} NextIdAdvances(ids: seq<string>)
    ensures SeqOf(NextId(ids)) > Highest(ids) <==> Highest(ids) < LAST_SUFFIX
    ensures Highest(ids) < LAST_SUFFIX ==>
              LooksLikeTrkId(NextId(ids)) && SeqOf(NextId(ids)) >= OPERATOR_ID_FLOOR && NextId(ids) !in ids
    ensures Highest(ids) == LAST_SUFFIX ==>
              SeqOf(NextId(ids)) == 0 && forall more: seq<string> :: NextId(ids + more) == FormatId(1_000_000)
  {
    var h := Highest(ids);
    var n := if h + 1 > OPERATOR_ID_FLOOR then h + 1 else OPERATOR_ID_FLOOR;
    HighestBounds(ids);
    SeqOfInvertsFormat(n);
    FormatShape(n);
    if h == LAST_SUFFIX {
      assert ids + [] == ids;
      forall more: seq<string> ensures NextId(ids + more) == FormatId(1_000_000) {
        HighestOfLonger(ids, ids + more);
        HighestBounds(ids + more);
      }
    }
  }

  lemma {:induction false} TextMaxIsHighest(ids: seq<string>)
    requires forall i | 0 <= i < |ids| :: Normalize(ids[i]) == ids[i]
    ensures var m := TextMax(ids);
            if m.Some? then LooksLikeTrkId(m.value) && Highest(ids) == SeqOf(m.value) >= OPERATOR_ID_FLOOR
            else Highest(ids) == 0
  {
    if |ids| != 0 {
      var front, id := ids[..|ids| - 1], ids[|ids| - 1];
      TextMaxIsHighest(front);
      if LooksLikeTrkId(id) {
        FormatShape(OPERATOR_ID_FLOOR);
        SeqOfInvertsFormat(OPERATOR_ID_FLOOR);
        IdOrderIsNumeric(FormatId(OPERATOR_ID_FLOOR), id);
        var m := TextMax(front);
        if m.Some? {
          IdOrderIsNumeric(m.value, id);
          if SeqOf(m.value) == SeqOf(id) {
            FormatInvertsSeqOf(id);
          }
        }
      }
    }
  }

  /** The text MAX of the database and the numeric maximum in memory allocate the same id. */
  lemma SqlAndMemoryAgree(ids: seq<string>)
    requires forall i | 0 <= i < |ids| :: Normalize(ids[i]) == ids[i]
    ensures SqlNextId(ids) == NextId(ids)
  {
    TextMaxIsHighest(ids);
  }
}
