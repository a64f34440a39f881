/** The hash-chained, append-only audit log of one enforcement case: its writer and its verifier. */
module AuditChain {
  import opened Wrappers

  datatype Json =
    | JNull
    | JBool(b: bool)
    | JInt(n: int)
    | JStr(s: string)
    | JArr(items: seq<Json>)
    | JObj(fields: map<string, Json>)
  {
    /** Python's truth value, as in `at or ""`. */
    predicate Truthy() {
      match this
      case JNull => false
      case JBool(b) => b
      case JInt(n) => n != 0
      case JStr(s) => s != ""
      case JArr(items) => items != []
      case JObj(fields) => fields != map[]
    }
  }

  type Detail = map<string, Json>

  /** What one audit row says; the hash covers exactly this and the previous hash. */
  datatype Body = Body(event: string, from: Option<string>, to: Option<string>, actor: Option<string>,
                       detail: Detail, at: Json)

  datatype Row = Row(id: nat, event: string, fromStatus: Option<string>, toStatus: Option<string>,
                     actor: Option<string>, detail: Detail, prevHash: Option<string>, hash: Option<string>)

  /** The canonical JSON rendering and the digest, both left abstract. */
  datatype Codec = Codec(canon: Body -> string, sha: string -> string)

  predicate IsHex(s: string) {
    forall i | 0 <= i < |s| :: '0' <= s[i] <= '9' || 'a' <= s[i] <= 'f'
  }

  lemma HexDigits(s: string)
    ensures IsHex(s) <==> forall i | 0 <= i < |s| :: s[i] in "0123456789abcdef"
  {
  }

  /** Different bodies render differently, each rendering is a JSON object, and a digest is 64 hex digits. */
  ghost predicate WellBehaved(codec: Codec) {
    && (forall a, b :: codec.canon(a) == codec.canon(b) ==> a == b)
    && (forall a :: |codec.canon(a)| > 0 && codec.canon(a)[0] == '{')
    && (forall x :: |codec.sha(x)| == 64 && IsHex(codec.sha(x)))
  }

  // --- Writer and verifier ---------------------------------------------------

  function Preimage(codec: Codec, prev: Option<string>, body: Body): string {
    (if prev.Some? then prev.value else "") + codec.canon(body)
  }

  function ChainHash(codec: Codec, prev: Option<string>, body: Body): string {
    codec.sha(Preimage(codec, prev, body))
  }

  /** The stamp popped out of a stored detail, with a missing or empty one read as the empty string. */
  function StampOf(detail: Detail): Json {
    if "at" in detail && detail["at"].Truthy() then detail["at"] else JStr("")
  }

  /** The body the verifier rebuilds from a stored row. */
  function Content(r: Row): Body {
    Body(r.event, r.fromStatus, r.toStatus, r.actor, r.detail - {"at"}, StampOf(r.detail))
  }

  function LastHash(rows: seq<Row>): Option<string> {
    if |rows| == 0 then None else rows[|rows| - 1].hash
  }

  /** Row `r` follows a row whose hash was `prev`. */
  predicate Linked(codec: Codec, prev: Option<string>, r: Row) {
    r.prevHash == prev && r.hash == Some(ChainHash(codec, prev, Content(r)))
  }

  predicate LinkedAt(codec: Codec, rows: seq<Row>, k: nat)
    requires k < |rows|
  {
    Linked(codec, LastHash(rows[..k]), rows[k])
  }

  ghost predicate Accepted(codec: Codec, rows: seq<Row>) {
    forall k | 0 <= k < |rows| :: LinkedAt(codec, rows, k)
  }

  ghost predicate FirstBroken(codec: Codec, rows: seq<Row>, k: nat) {
    && k < |rows| && !LinkedAt(codec, rows, k)
    && forall i | 0 <= i < k :: LinkedAt(codec, rows, i)
  }

  /** The row `_audit` writes after `rows`. */
  function NewRow(codec: Codec, rows: seq<Row>, id: nat, event: string, from: Option<string>, to: Option<string>,
                  actor: Option<string>, detail: Detail, stamp: string): Row
  {
    var prev := LastHash(rows);
    var chain := ChainHash(codec, prev, Body(event, from, to, actor, detail, JStr(stamp)));
    Row(id, event, from, to, actor, detail["at" := JStr(stamp)], prev, Some(chain))
  }

  /** Recomputes the chain from the first row; a broken chain reports the id of the first bad row. */
  method VerifyChain(codec: Codec, rows: seq<Row>) returns (valid: bool, length: nat, brokenAt: Option<nat>)
    ensures length == |rows|
    ensures valid <==> Accepted(codec, rows)
    ensures valid <==> brokenAt == None
    ensures !valid ==> exists k: nat :: FirstBroken(codec, rows, k) && brokenAt == Some(rows[k].id)
  {
    var prev: Option<string> := None;
    for k := 0 to |rows|
      invariant prev == LastHash(rows[..k])
      invariant forall i | 0 <= i < k :: LinkedAt(codec, rows, i)
    {
      var r := rows[k];
      var expected := ChainHash(codec, prev, Content(r));
      if r.prevHash != prev || r.hash != Some(expected) {
        assert FirstBroken(codec, rows, k);
        return false, |rows|, Some(r.id);
      }
      prev := r.hash;
    }
    return true, |rows|, None;
  }

  // --- The writer agrees with the verifier -----------------------------------

  /** Two different strings with one digest. */
  ghost predicate Collision(codec: Codec, x: string, y: string) {
    x != y && codec.sha(x) == codec.sha(y)
  }

  lemma PrefixCancels(prefix: string, x: string, y: string)
    ensures prefix + x == prefix + y <==> x == y
  {
    assert (prefix + x)[|prefix|..] == x;
    assert (prefix + y)[|prefix|..] == y;
  }

  /**
   * A row appended to an accepted chain is accepted when its detail carries no "at" key of its own;
   * with such a key the verifier rejects the row, unless the digest collides on the two renderings.
   */
  lemma AppendVerifiesUnlessDetailHasAt(codec: Codec, rows: seq<Row>, id: nat, event: string, from: Option<string>,
                                        to: Option<string>, actor: Option<string>, detail: Detail, stamp: string)
    requires WellBehaved(codec) && Accepted(codec, rows)
    ensures var r := NewRow(codec, rows, id, event, from, to, actor, detail, stamp);
            && ("at" !in detail ==> Accepted(codec, rows + [r]))
            && ("at" in detail ==>
                  FirstBroken(codec, rows + [r], |rows|)
                  || Collision(codec, Preimage(codec, LastHash(rows), Content(r)),
                               Preimage(codec, LastHash(rows), Body(event, from, to, actor, detail, JStr(stamp)))))
  {
    var r := NewRow(codec, rows, id, event, from, to, actor, detail, stamp);
    var longer := rows + [r];
    assert longer[..|rows|] == rows;
    forall k | 0 <= k < |rows| ensures LinkedAt(codec, longer, k) {
      assert longer[..k] == rows[..k];
      assert LinkedAt(codec, rows, k);
    }
    var written := Body(event, from, to, actor, detail, JStr(stamp));
    assert StampOf(r.detail) == JStr(stamp);
    if "at" !in detail {
      assert r.detail - {"at"} == detail;
      assert Content(r) == written;
    } else {
      assert "at" !in r.detail - {"at"};
      assert Content(r) != written;
      var prefix := if LastHash(rows).Some? then LastHash(rows).value else "";
      PrefixCancels(prefix, codec.canon(Content(r)), codec.canon(written));
    }
  }

  // --- The last hash pins the history ----------------------------------------

  /** The hashes an accepted chain chains on are digests or absent. */
  lemma AcceptedHashShape(codec: Codec, rows: seq<Row>)
    requires WellBehaved(codec) && Accepted(codec, rows)
    ensures LastHash(rows).Some? <==> |rows| > 0
    ensures LastHash(rows).Some? ==> |LastHash(rows).value| == 64 && IsHex(LastHash(rows).value)
  {
    if |rows| > 0 {
      assert LinkedAt(codec, rows, |rows| - 1);
    }
  }

  /** The first character of a preimage tells whether a previous hash precedes the rendering. */
  lemma PreimageHead(codec: Codec, p: Option<string>, a: Body)
    requires WellBehaved(codec)
    requires p.Some? ==> |p.value| == 64 && IsHex(p.value)
    ensures |Preimage(codec, p, a)| > 0
    ensures p.None? <==> Preimage(codec, p, a)[0] == '{'
  {
    if p.Some? {
      assert Preimage(codec, p, a)[0] == p.value[0];
    }
  }

  /** A preimage splits in one way only into a previous hash and a rendering. */
  lemma PreimageSplits(codec: Codec, p: Option<string>, a: Body, q: Option<string>, b: Body)
    requires WellBehaved(codec)
    requires p.Some? ==> |p.value| == 64 && IsHex(p.value)
    requires q.Some? ==> |q.value| == 64 && IsHex(q.value)
    requires Preimage(codec, p, a) == Preimage(codec, q, b)
    ensures p == q && a == b
  {
    PreimageHead(codec, p, a);
    PreimageHead(codec, q, b);
    if p.Some? {
      assert p.value == Preimage(codec, p, a)[..64] == q.value;
      PrefixCancels(p.value, codec.canon(a), codec.canon(b));
    } else {
      PrefixCancels("", codec.canon(a), codec.canon(b));
    }
  }

  /** Some row of one chain and some row of the other have different preimages but one digest. */
  ghost predicate ChainsCollide(codec: Codec, s: seq<Row>, t: seq<Row>) {
    exists i, j :: 0 <= i < |s| && 0 <= j < |t|
      && Collision(codec, Preimage(codec, LastHash(s[..i]), Content(s[i])),
                   Preimage(codec, LastHash(t[..j]), Content(t[j])))
  }

  /** The chains agree in length and, row by row, in content and in both stored hashes. */
  ghost predicate SameHistory(s: seq<Row>, t: seq<Row>) {
    && |s| == |t|
    && forall i | 0 <= i < |s| ::
         Content(s[i]) == Content(t[i]) && s[i].prevHash == t[i].prevHash && s[i].hash == t[i].hash
  }

  lemma AcceptedFront(codec: Codec, rows: seq<Row>, n: nat)
    requires Accepted(codec, rows) && n <= |rows|
    ensures Accepted(codec, rows[..n])
  {
    forall k | 0 <= k < n ensures LinkedAt(codec, rows[..n], k) {
      assert rows[..n][..k] == rows[..k];
      assert LinkedAt(codec, rows, k);
    }
  }

  /** The last rows of two accepted chains with one last hash agree, and so do the hashes before them. */
  lemma LastRowsAgree(codec: Codec, s: seq<Row>, t: seq<Row>)
    requires WellBehaved(codec)
    requires Accepted(codec, s) && Accepted(codec, t) && |s| > 0 && |t| > 0
    requires LastHash(s) == LastHash(t)
    ensures var i, j := |s| - 1, |t| - 1;
            || Collision(codec, Preimage(codec, LastHash(s[..i]), Content(s[i])),
                         Preimage(codec, LastHash(t[..j]), Content(t[j])))
            || (LastHash(s[..i]) == LastHash(t[..j]) && Content(s[i]) == Content(t[j])
                && s[i].prevHash == t[j].prevHash)
  {
    var i, j := |s| - 1, |t| - 1;
    assert LinkedAt(codec, s, i) && LinkedAt(codec, t, j);
    AcceptedFront(codec, s, i);
    AcceptedFront(codec, t, j);
    AcceptedHashShape(codec, s[..i]);
    AcceptedHashShape(codec, t[..j]);
    if Preimage(codec, LastHash(s[..i]), Content(s[i])) == Preimage(codec, LastHash(t[..j]), Content(t[j])) {
      PreimageSplits(codec, LastHash(s[..i]), Content(s[i]), LastHash(t[..j]), Content(t[j]));
    }
  }

  lemma ExtendHistory(s: seq<Row>, t: seq<Row>)
    requires |s| > 0 && |t| > 0 && SameHistory(s[..|s| - 1], t[..|t| - 1])
    requires Content(s[|s| - 1]) == Content(t[|t| - 1])
    requires s[|s| - 1].prevHash == t[|t| - 1].prevHash && s[|s| - 1].hash == t[|t| - 1].hash
    ensures SameHistory(s, t)
  {
    forall i | 0 <= i < |s|
      ensures Content(s[i]) == Content(t[i]) && s[i].prevHash == t[i].prevHash && s[i].hash == t[i].hash
    {
      if i < |s| - 1 {
        assert s[i] == s[..|s| - 1][i] && t[i] == t[..|t| - 1][i];
      }
    }
  }

  lemma CollisionInPrefix(codec: Codec, s: seq<Row>, m: nat, t: seq<Row>, n: nat)
    requires m <= |s| && n <= |t| && ChainsCollide(codec, s[..m], t[..n])
    ensures ChainsCollide(codec, s, t)
  {
    var i, j :| 0 <= i < m && 0 <= j < n
      && Collision(codec, Preimage(codec, LastHash(s[..m][..i]), Content(s[..m][i])),
                   Preimage(codec, LastHash(t[..n][..j]), Content(t[..n][j])));
    assert s[..m][..i] == s[..i] && t[..n][..j] == t[..j];
    assert Collision(codec, Preimage(codec, LastHash(s[..i]), Content(s[i])),
                     Preimage(codec, LastHash(t[..j]), Content(t[j])));
  }

  /** Two accepted chains that end in the same hash tell the same history, or exhibit a digest collision. */
  lemma {:induction false} FinalHashPinsHistory(codec: Codec, s: seq<Row>, t: seq<Row>)
    requires WellBehaved(codec)
    requires Accepted(codec, s) && Accepted(codec, t)
    requires LastHash(s) == LastHash(t)
    ensures SameHistory(s, t) || ChainsCollide(codec, s, t)
    decreases |s|
  {
    AcceptedHashShape(codec, s);
    AcceptedHashShape(codec, t);
    if |s| > 0 && !ChainsCollide(codec, s, t) {
      var i, j := |s| - 1, |t| - 1;
      LastRowsAgree(codec, s, t);
      AcceptedFront(codec, s, i);
      AcceptedFront(codec, t, j);
      FinalHashPinsHistory(codec, s[..i], t[..j]);
      if ChainsCollide(codec, s[..i], t[..j]) {
        CollisionInPrefix(codec, s, i, t, j);
      } else {
        ExtendHistory(s, t);
      }
    }
  }

  /** The verifier reads the stored stamp as it is, but a missing or an empty one of any kind as the empty text. */
  lemma StampReads(detail: Detail)
    ensures "at" !in detail ==> StampOf(detail) == JStr("")
    ensures "at" in detail ==>
              StampOf(detail) == if detail["at"] == JNull || detail["at"] == JBool(false) || detail["at"] == JInt(0)
                                    || detail["at"] == JArr([]) || detail["at"] == JObj(map[])
                                 then JStr("") else detail["at"]
  {
  }

  lemma StampDecides(r: Row, q: Row)
    requires StampOf(r.detail) == StampOf(q.detail)
    requires "at" in r.detail && "at" in q.detail && r.detail["at"].Truthy()
    ensures r.detail["at"] == q.detail["at"]
  {
    assert !JStr("").Truthy();
  }

  /**
   * What content equality leaves open: the verifier reads a missing stamp and an empty one alike, so two
   * rows of equal content have equal details exactly when their stamps agree in presence and value.
   */
  lemma EqualContentEqualDetail(r: Row, q: Row)
    requires Content(r) == Content(q)
    ensures r.detail == q.detail <==>
              (("at" in r.detail) == ("at" in q.detail)
               && ("at" in r.detail && !r.detail["at"].Truthy() ==> r.detail["at"] == q.detail["at"]))
  {
    if ("at" in r.detail) == ("at" in q.detail)
       && ("at" in r.detail && !r.detail["at"].Truthy() ==> r.detail["at"] == q.detail["at"]) {
      if "at" in r.detail && r.detail["at"].Truthy() {
        StampDecides(r, q);
      }
      forall k | k in r.detail ensures k in q.detail && q.detail[k] == r.detail[k] {
        if k != "at" {
          assert k in r.detail - {"at"};
        }
      }
      forall k | k in q.detail ensures k in r.detail {
        if k != "at" {
          assert k in q.detail - {"at"};
        }
      }
    }
  }

  /** Rows as the writer leaves them: with a non-empty stamp. */
  predicate Stamped(r: Row) {
    "at" in r.detail && r.detail["at"].Truthy()
  }

  lemma SameHistoryOfStampedRows(s: seq<Row>, t: seq<Row>)
    requires SameHistory(s, t)
    requires forall i | 0 <= i < |s| :: Stamped(s[i]) && Stamped(t[i])
    ensures forall i | 0 <= i < |s| :: t[i] == s[i].(id := t[i].id)
  {
    forall i | 0 <= i < |s| ensures t[i] == s[i].(id := t[i].id) {
      EqualContentEqualDetail(s[i], t[i]);
      assert Content(s[i]).event == Content(t[i]).event;
    }
  }

  /** Two accepted chains of written rows with one last hash store the same but the row ids, or exhibit a collision. */
  lemma FinalHashPinsStampedRows(codec: Codec, s: seq<Row>, t: seq<Row>)
    requires WellBehaved(codec) && Accepted(codec, s) && Accepted(codec, t)
    requires LastHash(s) == LastHash(t)
    requires (forall i | 0 <= i < |s| :: Stamped(s[i])) && (forall i | 0 <= i < |t| :: Stamped(t[i]))
    ensures || ChainsCollide(codec, s, t)
            || (|s| == |t| && forall i | 0 <= i < |s| :: t[i] == s[i].(id := t[i].id))
  {
    FinalHashPinsHistory(codec, s, t);
    if !ChainsCollide(codec, s, t) {
      SameHistoryOfStampedRows(s, t);
    }
  }

  /** A stored empty stamp and an absent one hash alike: raw rows are not pinned in general. */
  lemma MissingStampHashesLikeEmptyStamp(codec: Codec)
    ensures exists r: Row, q: Row ::
              (Linked(codec, None, r) && Linked(codec, None, q) && r.hash == q.hash && r.detail != q.detail)
  {
    var bare := map[];
    var empty := map["at" := JStr("")];
    assert empty - {"at"} == bare - {"at"} == bare;
    var h := ChainHash(codec, None, Body("e", None, None, None, bare, JStr("")));
    var r := Row(0, "e", None, None, None, bare, None, Some(h));
    var q := Row(0, "e", None, None, None, empty, None, Some(h));
    assert "at" in q.detail && "at" !in r.detail;
    assert !JStr("").Truthy();
    assert Content(r) == Content(q) == Body("e", None, None, None, bare, JStr(""));
    assert Linked(codec, None, r) && Linked(codec, None, q) && r.hash == q.hash && r.detail != q.detail;
  }

  // --- Tampering is located --------------------------------------------------

  /**
   * Replacing one row of an accepted chain by anything at all: the chain breaks exactly there unless the
   * replacement is itself a valid link; a valid link with a new hash breaks exactly the next row, and
   * goes unnoticed only as the last row or when it keeps the stored hash.
   */
  lemma TamperingIsLocated(codec: Codec, rows: seq<Row>, k: nat, r: Row)
    requires Accepted(codec, rows) && k < |rows|
    ensures var valid := Linked(codec, LastHash(rows[..k]), r);
            && (!valid <==> FirstBroken(codec, rows[k := r], k))
            && (valid && r.hash != rows[k].hash && k + 1 < |rows| ==> FirstBroken(codec, rows[k := r], k + 1))
            && (valid && (r.hash == rows[k].hash || k + 1 == |rows|) ==> Accepted(codec, rows[k := r]))
  {
    var bad := rows[k := r];
    forall i | 0 <= i < |rows| && i != k && (i != k + 1 || r.hash == rows[k].hash)
      ensures LinkedAt(codec, bad, i)
    {
      assert LastHash(bad[..i]) == LastHash(rows[..i]);
      assert LinkedAt(codec, rows, i);
    }
    assert bad[..k] == rows[..k];
    if k + 1 < |rows| {
      assert LastHash(bad[..k + 1]) == r.hash;
      assert LinkedAt(codec, rows, k + 1);
      assert LastHash(rows[..k + 1]) == rows[k].hash;
    }
  }

  /** Changing what a row says while keeping its stored hashes breaks exactly that row, or is a collision. */
  lemma EditedContentBreaksItsRow(codec: Codec, rows: seq<Row>, k: nat, r: Row)
    requires WellBehaved(codec) && Accepted(codec, rows) && k < |rows|
    requires r.prevHash == rows[k].prevHash && r.hash == rows[k].hash && Content(r) != Content(rows[k])
    ensures FirstBroken(codec, rows[k := r], k)
            || Collision(codec, Preimage(codec, LastHash(rows[..k]), Content(r)),
                         Preimage(codec, LastHash(rows[..k]), Content(rows[k])))
  {
    TamperingIsLocated(codec, rows, k, r);
    assert LinkedAt(codec, rows, k);
    var prev := LastHash(rows[..k]);
    PrefixCancels(if prev.Some? then prev.value else "", codec.canon(Content(r)), codec.canon(Content(rows[k])));
  }
}
