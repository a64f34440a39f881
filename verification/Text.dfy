/** Strings as the program uses them: code-point order, zero-padded decimals, ASCII case and trimming. */
module Text {

  /** Python's `<=` on strings. */
  predicate StrLeq(a: string, b: string) {
    |a| == 0 || (|b| > 0 && (a[0] < b[0] || (a[0] == b[0] && StrLeq(a[1..], b[1..]))))
  }

  lemma {:induction false} StrLeqTotal(a: string, b: string)
    ensures StrLeq(a, b) || StrLeq(b, a)
  {
    if |a| > 0 && |b| > 0 && a[0] == b[0] {
      StrLeqTotal(a[1..], b[1..]);
    }
  }

  lemma {:induction false} StrLeqAntisymmetric(a: string, b: string)
    requires StrLeq(a, b) && StrLeq(b, a)
    ensures a == b
  {
    if |a| > 0 && |b| > 0 {
      StrLeqAntisymmetric(a[1..], b[1..]);
      assert a == [a[0]] + a[1..] && b == [b[0]] + b[1..];
    }
  }

  lemma {:induction false} StrLeqTransitive(a: string, b: string, c: string)
    requires StrLeq(a, b) && StrLeq(b, c)
    ensures StrLeq(a, c)
  {
    if |a| > 0 && a[0] == b[0] && b[0] == c[0] {
      StrLeqTransitive(a[1..], b[1..], c[1..]);
    }
  }

  /** Text `a` comes before `b` at their first difference, position `i`. */
  predicate LessAt(a: string, b: string, i: nat) {
    i < |a| && i < |b| && a[..i] == b[..i] && a[i] < b[i]
  }

  /** The order is lexicographic by code point: a prefix first, else the text smaller at the first difference. */
  lemma {:induction false} StrLeqIsLexicographic(a: string, b: string)
    ensures StrLeq(a, b) <==> a <= b || exists i: nat :: LessAt(a, b, i)
  {
    if |a| > 0 && |b| > 0 {
      StrLeqIsLexicographic(a[1..], b[1..]);
      assert a[0] < b[0] ==> LessAt(a, b, 0);
      assert a == [a[0]] + a[1..] && b == [b[0]] + b[1..];
      forall i: nat | LessAt(a[1..], b[1..], i) && a[0] == b[0] ensures LessAt(a, b, i + 1) {
        assert a[..i + 1] == [a[0]] + a[1..][..i] && b[..i + 1] == [b[0]] + b[1..][..i];
      }
      forall i: nat | LessAt(a, b, i) && i > 0 ensures LessAt(a[1..], b[1..], i - 1) && a[0] == b[0] {
        assert a[..i][0] == b[..i][0];
        assert a[1..][..i - 1] == a[..i][1..] && b[1..][..i - 1] == b[..i][1..];
      }
    }
  }

  function Digit(n: nat): (c: char)
    requires n < 10
    ensures '0' <= c <= '9' && c as int - '0' as int == n
  {
    '0' + n as char
  }

  /** Decimal digits of a natural number, as in an f-string. */
  function Decimal(n: nat): (s: string)
    ensures |s| > 0 && forall i | 0 <= i < |s| :: '0' <= s[i] <= '9'
  {
    if n < 10 then [Digit(n)] else Decimal(n / 10) + [Digit(n % 10)]
  }

  /** Left-pads with zeros, as `:06d` does; a longer text is left whole. */
  function ZeroPadded(s: string, width: nat): (r: string)
    ensures |r| == if |s| < width then width else |s|
    decreases width - |s|
  {
    if |s| < width then ZeroPadded("0" + s, width) else s
  }

  // --- Trimming and upper case, for the ASCII letters and Latin-1 spaces -----

  predicate IsSpace(c: char) {
    9 <= c as int <= 13 || 28 <= c as int <= 32 || c as int == 0x85 || c as int == 0xA0
  }

  function LStrip(s: string): (r: string)
    ensures |r| > 0 ==> !IsSpace(r[0])
  {
    if |s| > 0 && IsSpace(s[0]) then LStrip(s[1..]) else s
  }

  function RStrip(s: string): (r: string)
    ensures r <= s && (|r| > 0 ==> !IsSpace(r[|r| - 1]))
  {
    if |s| > 0 && IsSpace(s[|s| - 1]) then RStrip(s[..|s| - 1]) else s
  }

  function Strip(s: string): string {
    RStrip(LStrip(s))
  }

  function UpperChar(c: char): char {
    if 'a' <= c <= 'z' then c - 'a' + 'A' else c
  }

  function Upper(s: string): (r: string)
    ensures |r| == |s| && forall i | 0 <= i < |s| :: r[i] == UpperChar(s[i])
  {
    if |s| == 0 then "" else [UpperChar(s[0])] + Upper(s[1..])
  }

  /** No space at either end. */
  predicate Trimmed(s: string) {
    |s| > 0 ==> !IsSpace(s[0]) && !IsSpace(s[|s| - 1])
  }

  lemma StripTrims(s: string)
    ensures Trimmed(Strip(s))
    ensures Trimmed(s) ==> Strip(s) == s
  {
  }

  lemma {:induction false} LStripIsSuffix(s: string)
    ensures |LStrip(s)| <= |s| && s[|s| - |LStrip(s)|..] == LStrip(s)
    ensures forall i | 0 <= i < |s| - |LStrip(s)| :: IsSpace(s[i])
  {
    hide IsSpace;
    if |s| > 0 && IsSpace(s[0]) {
      LStripIsSuffix(s[1..]);
      forall i | 0 <= i < |s| - |LStrip(s)| ensures IsSpace(s[i]) {
        if i > 0 {
          assert s[i] == s[1..][i - 1];
        }
      }
    }
  }

  lemma {:induction false} RStripDropsSpaces(s: string)
    ensures RStrip(s) <= s && forall i | |RStrip(s)| <= i < |s| :: IsSpace(s[i])
  {
    hide IsSpace;
    if |s| > 0 && IsSpace(s[|s| - 1]) {
      RStripDropsSpaces(s[..|s| - 1]);
      forall i | |RStrip(s)| <= i < |s| ensures IsSpace(s[i]) {
        if i < |s| - 1 {
          assert s[i] == s[..|s| - 1][i];
        }
      }
    }
  }

  /** Trimming cuts spaces off both ends and nothing else. */
  lemma StripCutsSpaces(s: string) returns (lo: nat, hi: nat)
    ensures lo <= hi <= |s| && Strip(s) == s[lo..hi] && Trimmed(Strip(s))
    ensures forall i | 0 <= i < lo || hi <= i < |s| :: IsSpace(s[i])
  {
    LStripIsSuffix(s);
    RStripDropsSpaces(LStrip(s));
    lo := |s| - |LStrip(s)|;
    hi := lo + |Strip(s)|;
    StripTrims(s);
    hide IsSpace, Trimmed;
    forall i | hi <= i < |s| ensures IsSpace(s[i]) {
      assert s[i] == LStrip(s)[i - lo];
    }
  }

  lemma StripIsEmptyExactly(s: string)
    ensures Strip(s) == "" <==> forall i | 0 <= i < |s| :: IsSpace(s[i])
  {
    var lo, hi := StripCutsSpaces(s);
    hide Strip;
    if Strip(s) != "" {
      assert s[lo] == Strip(s)[0];
    }
  }

  lemma UpperTwice(s: string)
    ensures Upper(Upper(s)) == Upper(s)
  {
  }

  lemma UpperKeepsTrimmed(s: string)
    requires Trimmed(s)
    ensures Trimmed(Upper(s))
  {
    hide Upper;
  }

  predicate IsAlnum(c: char) {
    '0' <= c <= '9' || 'A' <= c <= 'Z' || 'a' <= c <= 'z'
  }

  /** The letters and digits of a text, upper-cased. */
  function AlnumUpper(s: string): string {
    if |s| == 0 then ""
    else (if IsAlnum(UpperChar(s[0])) then [UpperChar(s[0])] else "") + AlnumUpper(s[1..])
  }

  lemma ConcatAssociates(x: string, y: string, z: string)
    ensures x + (y + z) == (x + y) + z
  {
  }

  /** The letters and digits of a text are those of its parts, one after the other. */
  lemma {:induction false} AlnumUpperOfJoined(a: string, b: string)
    ensures AlnumUpper(a + b) == AlnumUpper(a) + AlnumUpper(b)
  {
    hide IsAlnum, UpperChar;
    if |a| == 0 {
      assert a + b == b;
    } else {
      assert (a + b)[1..] == a[1..] + b && (a + b)[0] == a[0];
      AlnumUpperOfJoined(a[1..], b);
      var head := if IsAlnum(UpperChar(a[0])) then [UpperChar(a[0])] else "";
      ConcatAssociates(head, AlnumUpper(a[1..]), AlnumUpper(b));
    }
  }

  /** Of one character: a capital or digit stands, a small letter becomes its capital, anything else goes. */
  lemma AlnumUpperOfOne(c: char)
    ensures AlnumUpper([c]) == if 'A' <= c <= 'Z' || '0' <= c <= '9' then [c]
                               else if 'a' <= c <= 'z' then [c - 'a' + 'A']
                               else ""
  {
    assert [c][1..] == "";
  }

  predicate IsAt(hay: string, needle: string, i: int) {
    0 <= i <= |hay| - |needle| && hay[i..i + |needle|] == needle
  }

  predicate Contains(hay: string, needle: string) {
    exists i | 0 <= i <= |hay| :: IsAt(hay, needle, i)
  }
}
