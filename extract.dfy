/**
 * The two field extractors of the monitor: `extract_price` keeps the digits of a
 * price text and reads them as a number; `extract_area` finds the leftmost match of
 * the regular expression `(\d+[.,]?\d*)\s*m` in the lower-cased text and reads its
 * group with `,` taken as the decimal point.
 */
module Extract {
  import opened Wrappers

  // ---------------------------------------------------------------------------
  // Characters
  // ---------------------------------------------------------------------------

  /** `\d`, restricted to the ASCII digits. */
  predicate IsDigit(c: char) {
    '0' <= c <= '9'
  }

  /** `\s` on a `str` pattern: the characters Python classes as whitespace. */
  predicate IsSpace(c: char) {
    ('\t' <= c <= '\r') || ('\U{1C}' <= c <= ' ') || c == '\U{85}' || c == '\U{A0}'
    || c == '\U{1680}' || ('\U{2000}' <= c <= '\U{200A}') || c == '\U{2028}' || c == '\U{2029}'
    || c == '\U{202F}' || c == '\U{205F}' || c == '\U{3000}'
  }

  /** The character class `[.,]`. */
  predicate IsSeparator(c: char) {
    c == '.' || c == ','
  }

  function LowerChar(c: char): char {
    if 'A' <= c <= 'Z' then (c as int + 32) as char else c
  }

  /**
   * `str.lower()` on the ASCII letters. Lower-casing keeps every digit, whitespace and
   * separator where it was and turns exactly the `m` and `M` into `m`, so the pattern
   * finds the same matches in the lower-cased text, case aside.
   */
  function Lower(s: string): (r: string)
    ensures |r| == |s|
    ensures forall k :: 0 <= k < |s| ==> (IsDigit(r[k]) <==> IsDigit(s[k]))
    ensures forall k :: 0 <= k < |s| ==> (IsSpace(r[k]) <==> IsSpace(s[k]))
    ensures forall k :: 0 <= k < |s| ==> (IsSeparator(r[k]) <==> IsSeparator(s[k]))
    ensures forall k :: 0 <= k < |s| ==> (r[k] == 'm' <==> s[k] == 'm' || s[k] == 'M')
    ensures forall k :: 0 <= k < |s| ==> IsDigit(s[k]) ==> r[k] == s[k]
  {
    seq(|s|, k requires 0 <= k < |s| => LowerChar(s[k]))
  }

  predicate AllDigits(s: string) {
    forall k :: 0 <= k < |s| ==> IsDigit(s[k])
  }

  predicate NoDigit(s: string) {
    forall k :: 0 <= k < |s| ==> !IsDigit(s[k])
  }

  function DigitValue(c: char): nat {
    if IsDigit(c) then c as int - '0' as int else 0
  }

  /** The number whose decimal digits, most significant first, are `s`. */
  function DigitsValue(s: string): nat
    decreases |s|
  {
    if s == [] then 0 else DigitsValue(s[..|s| - 1]) * 10 + DigitValue(s[|s| - 1])
  }

  /** `str(n)` for a natural number: its decimal digits without leading zeros. */
  function DecimalString(n: nat): (s: string)
    ensures s != [] && AllDigits(s)
    decreases n
  {
    if n < 10 then [('0' as int + n) as char] else DecimalString(n / 10) + [('0' as int + n % 10) as char]
  }

  lemma {:induction false} DecimalStringValue(n: nat)
    ensures DigitsValue(DecimalString(n)) == n
    decreases n
  {
    var s := DecimalString(n);
    if n >= 10 {
      DecimalStringValue(n / 10);
      assert s[..|s| - 1] == DecimalString(n / 10);
    }
  }

  // ---------------------------------------------------------------------------
  // extract_price
  // ---------------------------------------------------------------------------

  /** The digits of `s`, in order, with every other character dropped. */
  function KeepDigits(s: string): (d: string)
    ensures AllDigits(d) && |d| <= |s|
  {
    if s == [] then []
    else (if IsDigit(s[0]) then [s[0]] else []) + KeepDigits(s[1..])
  }

  /** Only a text without a digit loses everything. */
  lemma {:induction false} KeepDigitsEmpty(s: string)
    ensures KeepDigits(s) == [] <==> NoDigit(s)
    decreases |s|
  {
    if s != [] {
      KeepDigitsEmpty(s[1..]);
      if NoDigit(s[1..]) && !IsDigit(s[0]) {
        forall k | 0 <= k < |s| ensures !IsDigit(s[k]) {
          if k > 0 { assert s[k] == s[1..][k - 1]; }
        }
      }
      if NoDigit(s) {
        forall k | 0 <= k < |s[1..]| ensures !IsDigit(s[1..][k]) {
          assert s[1..][k] == s[k + 1];
        }
      }
    }
  }

  lemma {:induction false} KeepDigitsAppend(a: string, b: string)
    ensures KeepDigits(a + b) == KeepDigits(a) + KeepDigits(b)
    decreases |a|
  {
    if a == [] {
      assert a + b == b;
    } else {
      var ab := a + b;
      var h := if IsDigit(a[0]) then [a[0]] else [];
      assert ab[0] == a[0] && ab[1..] == a[1..] + b;
      assert KeepDigits(ab) == h + KeepDigits(a[1..] + b);
      assert KeepDigits(a) == h + KeepDigits(a[1..]);
      KeepDigitsAppend(a[1..], b);
      assert h + (KeepDigits(a[1..]) + KeepDigits(b)) == (h + KeepDigits(a[1..])) + KeepDigits(b);
    }
  }

  lemma {:induction false} KeepDigitsOfDigits(s: string)
    requires AllDigits(s)
    ensures KeepDigits(s) == s
    decreases |s|
  {
    if s != [] {
      KeepDigitsOfDigits(s[1..]);
    }
  }

  /** `extract_price`: `None` for a text without a digit (the empty text included),
      otherwise the number written by the text's digits. */
  function ExtractPrice(text: string): (price: Option<nat>)
    ensures price.None? <==> NoDigit(text)
    ensures price.Some? ==> price.value == DigitsValue(KeepDigits(text))
  {
    KeepDigitsEmpty(text);
    if text == [] then None
    else
      var digits := KeepDigits(text);
      if digits == [] then None else Some(DigitsValue(digits))
  }

  /** A number written in decimal between texts without digits (a currency, a label) is read back exactly. */
  lemma ExtractPriceReadsAmount(before: string, n: nat, after: string)
    requires NoDigit(before) && NoDigit(after)
    ensures ExtractPrice(before + DecimalString(n) + after) == Some(n)
  {
    var d := DecimalString(n);
    KeepDigitsAppend(before + d, after);
    KeepDigitsAppend(before, d);
    KeepDigitsOfDigits(d);
    DecimalStringValue(n);
    KeepDigitsEmpty(before);
    KeepDigitsEmpty(after);
    assert KeepDigits(before + d + after) == d;
  }

  /** Thousands separators, currency signs and other non-digits anywhere in the text do not change the price. */
  lemma ExtractPriceIgnoresNonDigit(a: string, c: char, b: string)
    requires !IsDigit(c)
    ensures ExtractPrice(a + [c] + b) == ExtractPrice(a + b)
  {
    KeepDigitsAppend(a + [c], b);
    KeepDigitsAppend(a, [c]);
    KeepDigitsAppend(a, b);
    assert KeepDigits([c]) == [] by { assert [c][1..] == []; }
    assert KeepDigits(a + [c] + b) == KeepDigits(a + b);
  }

  /** 350 thousand written with any non-digit between the thousands and any currency after it. */
  lemma ExtractPriceReadsGroupedThousands(sep: char, currency: string)
    requires !IsDigit(sep) && NoDigit(currency)
    ensures ExtractPrice("350" + [sep] + "000" + currency) == Some(350000)
  {
    ExtractPriceIgnoresNonDigit("350", sep, "000" + currency);
    assert "350" + [sep] + "000" + currency == "350" + [sep] + ("000" + currency);
    assert "350" + ("000" + currency) == "" + "350000" + currency;
    assert DecimalString(350000) == "350000" by {
      assert DecimalString(3) == "3";
      assert DecimalString(35) == "35";
      assert DecimalString(350) == "350";
      assert DecimalString(3500) == "3500";
      assert DecimalString(35000) == "35000";
    }
    ExtractPriceReadsAmount("", 350000, currency);
  }

  lemma ExtractPriceReadsSpacedThousands()
    ensures ExtractPrice("350 000 zł") == Some(350000)
  {
    ExtractPriceReadsGroupedThousands(' ', " zł");
    assert "350" + [' '] + "000" + " zł" == "350 000 zł";
  }

  /** A price text without digits gives no price. */
  lemma ExtractPriceWithoutDigits()
    ensures ExtractPrice("brak ceny") == None
  {
  }

  // ---------------------------------------------------------------------------
  // extract_area
  // ---------------------------------------------------------------------------

  /** A floor area `mantissa / 10^scale` square metres, read exactly from its decimal text. */
  datatype Decimal = Decimal(mantissa: nat, scale: nat)

  function Pow10(n: nat): nat {
    if n == 0 then 1 else 10 * Pow10(n - 1)
  }

  /** `x <= y` on the values the decimals denote. */
  predicate DecimalLe(x: Decimal, y: Decimal) {
    x.mantissa * Pow10(y.scale) <= y.mantissa * Pow10(x.scale)
  }

  /** End of the maximal run of digits starting at `i`. */
  function DigitRunEnd(s: string, i: nat): (j: nat)
    requires i <= |s|
    ensures i <= j <= |s|
    ensures forall k :: i <= k < j ==> IsDigit(s[k])
    ensures j == |s| || !IsDigit(s[j])
    decreases |s| - i
  {
    if i < |s| && IsDigit(s[i]) then DigitRunEnd(s, i + 1) else i
  }

  /** End of the maximal run of whitespace starting at `i`. */
  function SpaceRunEnd(s: string, i: nat): (j: nat)
    requires i <= |s|
    ensures i <= j <= |s|
    ensures forall k :: i <= k < j ==> IsSpace(s[k])
    ensures j == |s| || !IsSpace(s[j])
    decreases |s| - i
  {
    if i < |s| && IsSpace(s[i]) then SpaceRunEnd(s, i + 1) else i
  }

  /**
   * `(\d+[.,]?\d*)\s*m` matches `s` from position `i`: digits `s[i..a]` (at least one),
   * an optional separator `s[a..b]`, digits `s[b..c]`, whitespace `s[c..e]` and `m` at `e`.
   * The captured group is `s[i..c]`.
   */
  ghost predicate PatternAt(s: string, i: int, a: int, b: int, c: int, e: int) {
    && 0 <= i < a <= b <= c <= e < |s|
    && (forall k :: i <= k < a ==> IsDigit(s[k]))
    && (b == a || (b == a + 1 && IsSeparator(s[a])))
    && (forall k :: b <= k < c ==> IsDigit(s[k]))
    && (forall k :: c <= k < e ==> IsSpace(s[k]))
    && s[e] == 'm'
  }

  ghost predicate MatchesAt(s: string, i: int) {
    exists a, b, c, e :: PatternAt(s, i, a, b, c, e)
  }

  /** The number a match of the pattern denotes: all its digits, with those after the separator, if there is one, as the fraction. */
  ghost function PatternValue(s: string, i: int, a: int, b: int, c: int): Decimal
    requires 0 <= i <= a <= b <= c <= |s|
  {
    Decimal(DigitsValue(s[i..a] + s[b..c]), if b == a then 0 else c - b)
  }

  /** Where the group ends when the pattern matches from `i` (taking each run in full), or `None`. */
  function MatchAt(s: string, i: nat): (groupEnd: Option<nat>)
    requires i <= |s|
    ensures groupEnd.Some? ==> i < groupEnd.value < |s|
  {
    if i == |s| || !IsDigit(s[i]) then None
    else
      var j := DigitRunEnd(s, i);
      if j < |s| && IsSeparator(s[j]) then
        var k := DigitRunEnd(s, j + 1);
        var l := SpaceRunEnd(s, k);
        if l < |s| && s[l] == 'm' then Some(k) else None
      else
        var l := SpaceRunEnd(s, j);
        if l < |s| && s[l] == 'm' then Some(j) else None
  }

  /** What MatchAt finds is a match of the pattern. */
  lemma MatchAtSound(s: string, i: nat) returns (a: nat, b: nat, e: nat)
    requires i <= |s| && MatchAt(s, i).Some?
    ensures PatternAt(s, i, a, b, MatchAt(s, i).value, e)
  {
    a := DigitRunEnd(s, i);
    if a < |s| && IsSeparator(s[a]) {
      b := a + 1;
      e := SpaceRunEnd(s, DigitRunEnd(s, b));
    } else {
      b := a;
      e := SpaceRunEnd(s, a);
    }
  }

  /** Every way the pattern can match from `i` captures the same group, the one MatchAt finds:
      how the regular-expression engine backtracks does not matter. */
  lemma MatchAtComplete(s: string, i: int, a: int, b: int, c: int, e: int)
    requires PatternAt(s, i, a, b, c, e)
    ensures MatchAt(s, i) == Some(c)
  {
    assert !IsDigit(s[c]) && !IsSeparator(s[c]) by {
      assert c == e ==> s[c] == 'm';
      assert c < e ==> IsSpace(s[c]);
    }
    if b == a + 1 {
      DigitRunEndIs(s, i, a);
      DigitRunEndIs(s, b, c);
    } else {
      DigitRunEndIs(s, i, c);
    }
    SpaceRunEndIs(s, c, e);
  }

  /** A run of digits followed by a non-digit ends where the run ends. */
  lemma {:induction false} DigitRunEndIs(s: string, i: nat, a: nat)
    requires i <= a < |s|
    requires forall k :: i <= k < a ==> IsDigit(s[k])
    requires !IsDigit(s[a])
    ensures DigitRunEnd(s, i) == a
    decreases a - i
  {
    if i < a {
      DigitRunEndIs(s, i + 1, a);
    }
  }

  /** A run of whitespace followed by `m` ends where the run ends. */
  lemma {:induction false} SpaceRunEndIs(s: string, c: nat, e: nat)
    requires c <= e < |s|
    requires forall k :: c <= k < e ==> IsSpace(s[k])
    requires s[e] == 'm'
    ensures SpaceRunEnd(s, c) == e
    decreases e - c
  {
    if c < e {
      SpaceRunEndIs(s, c + 1, e);
    }
  }

  lemma MatchAtExact(s: string)
    ensures forall i :: 0 <= i <= |s| ==> (MatchAt(s, i).Some? <==> MatchesAt(s, i))
  {
    forall i | 0 <= i <= |s| && MatchesAt(s, i) ensures MatchAt(s, i).Some? {
      var a, b, c, e :| PatternAt(s, i, a, b, c, e);
      MatchAtComplete(s, i, a, b, c, e);
    }
    forall i | 0 <= i <= |s| && MatchAt(s, i).Some? ensures MatchesAt(s, i) {
      var a, b, e := MatchAtSound(s, i);
    }
  }

  /** `re.search`: the leftmost position at or after `i` where the pattern matches, with its group end. */
  function LeftmostMatch(s: string, i: nat): (r: Option<(nat, nat)>)
    requires i <= |s|
    ensures r.Some? ==> && i <= r.value.0 < |s|
                        && MatchAt(s, r.value.0) == Some(r.value.1) && r.value.1 < |s|
                        && forall p :: i <= p < r.value.0 ==> MatchAt(s, p).None?
    ensures r.None? ==> forall p :: i <= p <= |s| ==> MatchAt(s, p).None?
    decreases |s| - i
  {
    if i == |s| then None
    else
      var here := MatchAt(s, i);
      if here.Some? then Some((i, here.value)) else LeftmostMatch(s, i + 1)
  }

  /** Every comma replaced by a point: no comma is left, and only commas change, into points. */
  function ReplaceCommas(t: string): (u: string)
    ensures |u| == |t|
    ensures ',' !in u
    ensures forall k :: 0 <= k < |t| && u[k] != t[k] ==> t[k] == ',' && u[k] == '.'
    ensures ',' !in t ==> u == t
  {
    seq(|t|, k requires 0 <= k < |t| => if t[k] == ',' then '.' else t[k])
  }

  /** The first index of `x` in `t`, or `|t|`. */
  function IndexOf(t: string, x: char): (p: nat)
    ensures p <= |t| && (p < |t| ==> t[p] == x)
    ensures forall k :: 0 <= k < p ==> t[k] != x
  {
    if t == [] || t[0] == x then 0 else 1 + IndexOf(t[1..], x)
  }

  /**
   * `float(t)` on the texts it is applied to here: digits with at most one `.`.
   * Any other text is reported as the `ValueError` (`None`).
   */
  function ParseDecimal(t: string): Option<Decimal> {
    var p := IndexOf(t, '.');
    if p == |t| then
      if t != [] && AllDigits(t) then Some(Decimal(DigitsValue(t), 0)) else None
    else if |t| > 1 && AllDigits(t[..p]) && AllDigits(t[p + 1..]) then
      Some(Decimal(DigitsValue(t[..p] + t[p + 1..]), |t| - p - 1))
    else None
  }

  /** The group of every match converts without error, to the number the match denotes. */
  lemma GroupValue(s: string, i: int, a: int, b: int, c: int, e: int)
    requires PatternAt(s, i, a, b, c, e)
    ensures ParseDecimal(ReplaceCommas(s[i..c])) == Some(PatternValue(s, i, a, b, c))
  {
    if b == a {
      WholeGroupValue(s, i, a, c);
    } else {
      FractionGroupValue(s, i, a, c);
    }
  }

  /** A group of digits alone converts to a whole number. */
  lemma WholeGroupValue(s: string, i: int, a: int, c: int)
    requires 0 <= i < a <= c <= |s|
    requires forall k :: i <= k < c ==> IsDigit(s[k])
    ensures ParseDecimal(ReplaceCommas(s[i..c])) == Some(Decimal(DigitsValue(s[i..a] + s[a..c]), 0))
  {
    var g := s[i..c];
    assert AllDigits(g) by {
      forall k | 0 <= k < |g| ensures IsDigit(g[k]) { assert g[k] == s[i + k]; }
    }
    assert ReplaceCommas(g) == g;
    assert s[i..a] + s[a..c] == g;
    assert forall k :: 0 <= k < |g| ==> g[k] != '.';
  }

  /** A group with a separator converts to digits over a power of ten. */
  lemma FractionGroupValue(s: string, i: int, a: int, c: int)
    requires 0 <= i < a < c <= |s|
    requires forall k :: i <= k < a ==> IsDigit(s[k])
    requires IsSeparator(s[a])
    requires forall k :: a + 1 <= k < c ==> IsDigit(s[k])
    ensures ParseDecimal(ReplaceCommas(s[i..c])) == Some(Decimal(DigitsValue(s[i..a] + s[a + 1..c]), c - (a + 1)))
  {
    var g := s[i..c];
    var p := a - i;
    var whole, frac := g[..p], g[p + 1..];
    assert g[p] == s[a];
    assert whole == s[i..a];
    assert frac == s[a + 1..c];
    forall k | 0 <= k < |whole| ensures IsDigit(whole[k]) {
      assert whole[k] == s[i + k];
    }
    forall k | 0 <= k < |frac| ensures IsDigit(frac[k]) {
      assert frac[k] == s[a + 1 + k];
    }
    CommaFraction(g, p);
    assert |g| - p - 1 == c - (a + 1);
  }

  /** A group with a separator converts to all its digits over ten to the number of digits after the separator. */
  lemma CommaFraction(g: string, p: nat)
    requires 0 < p < |g| && IsSeparator(g[p])
    requires AllDigits(g[..p]) && AllDigits(g[p + 1..])
    ensures ParseDecimal(ReplaceCommas(g)) == Some(Decimal(DigitsValue(g[..p] + g[p + 1..]), |g| - p - 1))
  {
    var t := ReplaceCommas(g);
    assert t[p] == '.' by {
      assert ',' !in t;
    }
    forall k | 0 <= k < p ensures IsDigit(g[k]) {
      assert g[k] == g[..p][k];
    }
    forall k | p + 1 <= k < |g| ensures IsDigit(g[k]) {
      assert g[k] == g[p + 1..][k - p - 1];
    }
    ReplaceCommasKeepsDigits(g, 0, p);
    ReplaceCommasKeepsDigits(g, p + 1, |g|);
    assert t[..p] == t[0..p] && g[..p] == g[0..p];
    assert t[p + 1..] == t[p + 1..|t|] && g[p + 1..] == g[p + 1..|g|];
    ParseFraction(t, p);
  }

  /** A run of digits comes through the comma replacement unchanged. */
  lemma ReplaceCommasKeepsDigits(g: string, lo: nat, hi: nat)
    requires lo <= hi <= |g|
    requires forall k :: lo <= k < hi ==> IsDigit(g[k])
    ensures ReplaceCommas(g)[lo..hi] == g[lo..hi]
  {
    var t := ReplaceCommas(g);
    forall k | lo <= k < hi ensures t[k] == g[k] {
      assert IsDigit(g[k]);
    }
  }

  /** `float` of digits, a point and digits: the digits over a power of ten. */
  lemma ParseFraction(t: string, p: nat)
    requires p < |t| && t[p] == '.' && p > 0
    requires AllDigits(t[..p]) && AllDigits(t[p + 1..])
    ensures ParseDecimal(t) == Some(Decimal(DigitsValue(t[..p] + t[p + 1..]), |t| - p - 1))
  {
    forall k | 0 <= k < p ensures t[k] != '.' {
      assert t[k] == t[..p][k];
    }
  }

  /** `extract_area`: the first match of the pattern in the lower-cased text, its group converted. */
  function ExtractArea(text: string): Option<Decimal> {
    if text == [] then None
    else
      var s := Lower(text);
      match LeftmostMatch(s, 0)
      case None => None
      case Some((p, c)) => ParseDecimal(ReplaceCommas(s[p..c]))
  }

  /**
   * There is an area exactly when the pattern matches the lower-cased text somewhere; it is
   * then the number written by the leftmost match, which no choice of how the match splits
   * its digits can change.
   */
  lemma ExtractAreaSpec(text: string)
    ensures ExtractArea(text).None? <==> forall p :: 0 <= p < |text| ==> !MatchesAt(Lower(text), p)
    ensures ExtractArea(text).Some? ==>
      exists p, a, b, c, e :: && PatternAt(Lower(text), p, a, b, c, e)
                              && (forall q :: 0 <= q < p ==> !MatchesAt(Lower(text), q))
                              && ExtractArea(text).value == PatternValue(Lower(text), p, a, b, c)
  {
    var s := Lower(text);
    if text != [] {
      MatchAtExact(s);
      match LeftmostMatch(s, 0)
      case None =>
        assert forall p :: 0 <= p < |text| ==> !MatchesAt(s, p);
      case Some((p, c)) =>
        var a, b, e := FoundGroupValue(s, p, c);
        assert MatchesAt(s, p);
        assert forall q :: 0 <= q < p ==> !MatchesAt(s, q);
        assert ExtractArea(text).value == PatternValue(s, p, a, b, c);
    }
  }

  lemma FoundGroupValue(s: string, p: nat, c: nat) returns (a: nat, b: nat, e: nat)
    requires p <= |s| && MatchAt(s, p) == Some(c)
    ensures PatternAt(s, p, a, b, c, e)
    ensures ParseDecimal(ReplaceCommas(s[p..c])) == Some(PatternValue(s, p, a, b, c))
  {
    a, b, e := MatchAtSound(s, p);
    GroupValue(s, p, a, b, c, e);
  }

  /** A text without a digit has no area. */
  lemma ExtractAreaNeedsDigit(text: string)
    requires NoDigit(text)
    ensures ExtractArea(text) == None
  {
    var s := Lower(text);
    ExtractAreaSpec(text);
    forall p | 0 <= p < |text| ensures !MatchesAt(s, p) {
      assert !IsDigit(s[p]);
    }
  }

  /** A match that no earlier position can start is the one `extract_area` reads. */
  lemma ExtractAreaLeftmost(text: string, i: int, a: int, b: int, c: int, e: int)
    requires PatternAt(Lower(text), i, a, b, c, e)
    requires forall q :: 0 <= q < i ==> !IsDigit(Lower(text)[q])
    ensures ExtractArea(text) == Some(PatternValue(Lower(text), i, a, b, c))
  {
    var s := Lower(text);
    var area := ExtractArea(text);
    ExtractAreaSpec(text);
    assert MatchesAt(s, i);
    var p, a', b', c', e' :| && PatternAt(s, p, a', b', c', e')
                             && (forall q :: 0 <= q < p ==> !MatchesAt(s, q))
                             && area.value == PatternValue(s, p, a', b', c');
    assert p == i by {
      assert IsDigit(s[p]);
      assert i < p ==> !MatchesAt(s, i);
    }
    MatchAtComplete(s, i, a, b, c, e);
    MatchAtComplete(s, i, a', b', c', e');
    GroupValue(s, i, a, b, c, e);
    GroupValue(s, i, a', b', c', e');
  }

  /** Where the parts of a written measurement sit in the text. */
  lemma MeasurementLayout(before: string, whole: string, point: string, frac: string,
                          gap: string, unit: char, after: string)
    ensures var text := before + whole + point + frac + gap + [unit] + after;
            var i := |before|;
            var a := i + |whole|;
            var b := a + |point|;
            var c := b + |frac|;
            var e := c + |gap|;
            && e < |text| && text[..i] == before && text[i..a] == whole && text[a..b] == point
            && text[b..c] == frac && text[c..e] == gap && text[e] == unit
  {
    var t2 := before + whole;
    var t3 := t2 + point;
    var t4 := t3 + frac;
    var t5 := t4 + gap;
    var t6 := t5 + [unit];
    var text := t6 + after;
    var i := |before|;
    var a := i + |whole|;
    var b := a + |point|;
    var c := b + |frac|;
    var e := c + |gap|;
    SliceOfPrefix(t6, after, 0, e + 1);
    SliceOfPrefix(t5, [unit], 0, e);
    SliceOfPrefix(t4, gap, 0, c);
    SliceOfPrefix(t3, frac, 0, b);
    SliceOfPrefix(t2, point, 0, a);
    assert text[..e + 1] == t6 && t6[..e] == t5 && t5[..c] == t4 && t4[..b] == t3 && t3[..a] == t2;
    assert text[e] == unit;
    assert text[c..e] == gap by { assert text[c..e] == t6[c..e] == t5[c..e]; }
    assert text[b..c] == frac by { assert text[b..c] == t5[b..c] == t4[b..c]; }
    assert text[a..b] == point by { assert text[a..b] == t4[a..b] == t3[a..b]; }
    assert text[i..a] == whole by { assert text[i..a] == t3[i..a] == t2[i..a]; }
    assert text[..i] == before by { assert text[..i] == t3[..i] == t2[..i]; }
  }

  /** The separator and the whitespace of a measurement, character by character. */
  lemma MeasurementSeparators(text: string, a: nat, b: nat, c: nat, e: nat, point: string, gap: string)
    requires a <= b <= c <= e <= |text|
    requires text[a..b] == point && text[c..e] == gap
    requires point == [] || (|point| == 1 && IsSeparator(point[0]))
    requires forall k :: 0 <= k < |gap| ==> IsSpace(gap[k])
    ensures b == a || (b == a + 1 && IsSeparator(text[a]))
    ensures forall k :: c <= k < e ==> IsSpace(text[k])
  {
    assert point != [] ==> text[a] == point[0] by {
      if point != [] { assert text[a..b][0] == text[a]; }
    }
    forall k | c <= k < e ensures IsSpace(text[k]) {
      assert text[c..e][k - c] == text[k];
    }
  }

  /** A slice within the first part of a concatenation is a slice of that part. */
  lemma SliceOfPrefix<T>(x: seq<T>, y: seq<T>, lo: nat, hi: nat)
    requires lo <= hi <= |x|
    ensures (x + y)[lo..hi] == x[lo..hi]
  {
  }

  /** A text laid out as a measurement matches the pattern where its digits start. */
  lemma MeasurementMatches(text: string, i: nat, a: nat, b: nat, c: nat, e: nat)
    requires i <= a <= b <= c <= e < |text|
    requires NoDigit(text[..i])
    requires a > i && AllDigits(text[i..a]) && AllDigits(text[b..c])
    requires b == a || (b == a + 1 && IsSeparator(text[a]))
    requires forall k :: c <= k < e ==> IsSpace(text[k])
    requires text[e] == 'm' || text[e] == 'M'
    ensures var s := Lower(text);
            && PatternAt(s, i, a, b, c, e)
            && (forall q :: 0 <= q < i ==> !IsDigit(s[q]))
            && s[i..a] == text[i..a] && s[b..c] == text[b..c]
  {
    var s := Lower(text);
    forall q | 0 <= q < i ensures !IsDigit(s[q]) {
      assert text[..i][q] == text[q];
    }
    forall k | i <= k < a ensures s[k] == text[k] {
      assert text[i..a][k - i] == text[k];
    }
    forall k | b <= k < c ensures s[k] == text[k] {
      assert text[b..c][k - b] == text[k];
    }
    assert s[i..a] == text[i..a];
    assert s[b..c] == text[b..c];
  }

  /**
   * A measurement written as digits, an optional `.` or `,` with more digits, optional
   * whitespace and `m` or `M`, after a text without digits, is read back exactly.
   */
  lemma ExtractAreaReadsMeasurement(before: string, whole: string, point: string, frac: string,
                                    gap: string, unit: char, after: string)
    requires NoDigit(before)
    requires whole != [] && AllDigits(whole) && AllDigits(frac)
    requires point == [] || (|point| == 1 && IsSeparator(point[0]))
    requires forall k :: 0 <= k < |gap| ==> IsSpace(gap[k])
    requires unit == 'm' || unit == 'M'
    ensures ExtractArea(before + whole + point + frac + gap + [unit] + after)
            == Some(Decimal(DigitsValue(whole + frac), if point == [] then 0 else |frac|))
  {
    var text := before + whole + point + frac + gap + [unit] + after;
    MeasurementLayout(before, whole, point, frac, gap, unit, after);
    var i := |before|;
    var a := i + |whole|;
    var b := a + |point|;
    var c := b + |frac|;
    MeasurementSeparators(text, a, b, c, c + |gap|, point, gap);
    MeasurementMatches(text, i, a, b, c, c + |gap|);
    var s := Lower(text);
    assert s[i..a] == whole && s[b..c] == frac;
    assert (b == a) == (point == []);
    assert PatternValue(s, i, a, b, c) == Decimal(DigitsValue(whole + frac), if point == [] then 0 else |frac|);
    ExtractAreaLeftmost(text, i, a, b, c, c + |gap|);
  }

  lemma ExtractAreaReadsDecimalComma()
    ensures ExtractArea("Mieszkanie 45,5 m² Centrum") == Some(Decimal(455, 1))
  {
    var text := "Mieszkanie " + "45" + "," + "5" + " " + ['m'] + "² Centrum";
    assert text == "Mieszkanie 45,5 m² Centrum";
    assert NoDigit("Mieszkanie ");
    ExtractAreaReadsMeasurement("Mieszkanie ", "45", ",", "5", " ", 'm', "² Centrum");
    assert "45" + "5" == "455";
    assert DigitsValue("455") == 455 by {
      assert "455"[..2] == "45" && "45"[..1] == "4" && "4"[..0] == "";
    }
  }

  lemma ExtractAreaWithoutNumber()
    ensures ExtractArea("Mieszkanie na sprzedaż") == None
  {
    ExtractAreaNeedsDigit("Mieszkanie na sprzedaż");
  }
}
