/** Amount formatting for the front-end (client/utils/currency.js).
    The floating-point parts -- `Number(value) / 1000` printed by JavaScript, and
    `(Number(wei) / 1e18).toFixed(6)` -- are passed in as functions; the integer
    bucket selection and the trailing-zero strip around them are modelled exactly. */
module Currency {
  import opened Wrappers
  import opened Text

  /** 10^15 wei = 0.001 ETH: below this, amounts are shown in wei. */
  const WeiDisplayLimit: nat := 1_000_000_000_000_000

  /** The JavaScript text of `Number(value) / divisor`, a floating-point quotient. */
  type QuotientText = (nat, nat) -> string

  /** The JavaScript text of `(Number(wei) / 1e18).toFixed(6)`. */
  type FixedEtherText = nat -> string

  // ---------------------------------------------------------------------------
  // Wei buckets
  // ---------------------------------------------------------------------------

  datatype WeiUnit = Wei | KiloWei | MegaWei | GigaWei

  /** The integer range a wei amount falls in: [0, 10^3), [10^3, 10^6), [10^6, 10^9), [10^9, ...). */
  function UnitOf(value: nat): (u: WeiUnit)
    ensures u == Wei <==> value < 1000
    ensures u == KiloWei <==> 1000 <= value < 1_000_000
    ensures u == MegaWei <==> 1_000_000 <= value < 1_000_000_000
    ensures u == GigaWei <==> 1_000_000_000 <= value
  {
    if value < 1000 then Wei
    else if value < 1_000_000 then KiloWei
    else if value < 1_000_000_000 then MegaWei
    else GigaWei
  }

  function UnitSuffix(u: WeiUnit): string {
    match u
    case Wei => " WEI"
    case KiloWei => "K WEI"
    case MegaWei => "M WEI"
    case GigaWei => "B WEI"
  }

  /** The power of 1000 a unit scales the amount by before it is printed. */
  function UnitDivisor(u: WeiUnit): (d: nat)
    ensures d >= 1
  {
    match u
    case Wei => 1
    case KiloWei => 1000
    case MegaWei => 1_000_000
    case GigaWei => 1_000_000_000
  }

  /** The unit chosen for an amount is the largest (up to billions) whose divisor does not exceed
      it, so below billions the printed quotient lies in [1, 1000). */
  lemma UnitDivisorScales(value: nat)
    requires value >= 1
    ensures UnitDivisor(UnitOf(value)) <= value
    ensures UnitOf(value) != GigaWei ==> value < 1000 * UnitDivisor(UnitOf(value))
  {
  }

  /** `formatWei`: the exact integer below 1000, otherwise the amount divided by its unit's
      divisor, followed by the unit letter. */
  function FormatWei(value: nat, quotient: QuotientText): (r: string)
    ensures value < 1000 ==> r == NatToString(value) + " WEI"
    ensures value >= 1000 ==> r == quotient(value, UnitDivisor(UnitOf(value))) + UnitSuffix(UnitOf(value))
    ensures EndsWith(r, UnitSuffix(UnitOf(value)))
  {
    var r :=
      if value < 1000 then NatToString(value) + " WEI"
      else if value < 1_000_000 then quotient(value, 1000) + "K WEI"
      else if value < 1_000_000_000 then quotient(value, 1_000_000) + "M WEI"
      else quotient(value, 1_000_000_000) + "B WEI";
    var suffix := UnitSuffix(UnitOf(value));
    assert r[|r| - |suffix|..] == suffix;
    r
  }

  /** Every wei rendering ends in " WEI". */
  lemma FormatWeiEndsInWei(value: nat, quotient: QuotientText)
    ensures EndsWith(FormatWei(value, quotient), " WEI")
  {
    var r := FormatWei(value, quotient);
    var suffix := UnitSuffix(UnitOf(value));
    assert r[|r| - 4..] == suffix[|suffix| - 4..];
  }

  /** The unit letter shown identifies the integer range of the amount, whatever text the quotient has. */
  lemma FormatWeiUnitIdentifiesRange(value: nat, quotient: QuotientText)
    ensures EndsWith(FormatWei(value, quotient), "K WEI") <==> 1000 <= value < 1_000_000
    ensures EndsWith(FormatWei(value, quotient), "M WEI") <==> 1_000_000 <= value < 1_000_000_000
    ensures EndsWith(FormatWei(value, quotient), "B WEI") <==> 1_000_000_000 <= value
  {
    var r := FormatWei(value, quotient);
    var suffix := UnitSuffix(UnitOf(value));
    if value < 1000 {
      var digits := NatToString(value);
      assert r[|r| - 5] == digits[|digits| - 1];
    } else {
      assert r[|r| - 5] == suffix[0];
    }
  }

  /** An amount below 1000 wei is printed as its exact integer, which reads back as the amount. */
  lemma FormatSmallWeiRoundTrip(value: nat, quotient: QuotientText)
    requires value < 1000
    ensures var r := FormatWei(value, quotient); ParseNat(r[..|r| - 4]) == Some(value)
  {
    var r := FormatWei(value, quotient);
    assert r[..|r| - 4] == NatToString(value);
    NatToStringRoundTrip(value);
  }

  // ---------------------------------------------------------------------------
  // The `/\.?0+$/` strip
  // ---------------------------------------------------------------------------

  /** Start of the run of '0' characters that ends `s` (|s| when `s` does not end in '0'). */
  function TrailingZerosStart(s: string): (k: nat)
    ensures k <= |s|
    ensures forall i :: k <= i < |s| ==> s[i] == '0'
    ensures k > 0 ==> s[k - 1] != '0'
    decreases |s|
  {
    if |s| > 0 && s[|s| - 1] == '0' then TrailingZerosStart(s[..|s| - 1]) else |s|
  }

  /** `s.replace(/\.?0+$/, '')`, computed from the trailing run of zeros. */
  function StripTrailingZeros(s: string): (r: string)
    ensures StartsWith(s, r)
  {
    var k := TrailingZerosStart(s);
    if k == |s| then s
    else if k > 0 && s[k - 1] == '.' then s[..k - 1]
    else s[..k]
  }

  /** At least one '0' from position `i` to the end, and nothing else. */
  predicate ZerosFrom(s: string, i: nat) {
    i < |s| && forall j :: i <= j < |s| ==> s[j] == '0'
  }

  /** The regular expression `\.?0+$` matches the suffix of `s` that starts at `i`. */
  predicate PatternMatchesAt(s: string, i: nat) {
    ZerosFrom(s, i) || (i < |s| && s[i] == '.' && ZerosFrom(s, i + 1))
  }

  /** The positions where the pattern matches are the trailing zeros and a dot right before them. */
  lemma MatchPositions(s: string, i: nat)
    requires i <= |s|
    ensures var k := TrailingZerosStart(s);
      PatternMatchesAt(s, i) <==> (k <= i < |s|) || (i + 1 == k && k < |s| && s[i] == '.')
  {
  }

  /** What `String.prototype.replace` does with a non-global regular expression: scan from the
      left for the first position where the pattern matches, and cut the string there. */
  method ReplaceFirstMatch(s: string) returns (r: string)
    ensures r == StripTrailingZeros(s)
  {
    var i := 0;
    while i < |s| && !PatternMatchesAt(s, i)
      invariant 0 <= i <= |s|
      invariant forall j :: 0 <= j < i ==> !PatternMatchesAt(s, j)
    {
      i := i + 1;
    }
    var k := TrailingZerosStart(s);
    if i < |s| {
      MatchPositions(s, i);
      if k > 0 && s[k - 1] == '.' && k < |s| {
        MatchPositions(s, k - 1);
      } else if k < |s| {
        if k > 0 { MatchPositions(s, k - 1); }
        MatchPositions(s, k);
      }
      r := s[..i];
    } else {
      if k < |s| {
        MatchPositions(s, k);
      }
      r := s;
    }
  }

  /** The shape `toFixed(6)` produces for a non-negative number below 10^21:
      integer digits, a dot, exactly six fraction digits. */
  predicate IsFixed6(s: string) {
    && |s| >= 8
    && s[|s| - 7] == '.'
    && AllDigits(s[..|s| - 7])
    && AllDigits(s[|s| - 6..])
  }

  /** On a `toFixed(6)` text the strip removes only fraction zeros (and the dot when all six are
      zero), never touches the integer part, and leaves no dangling dot or trailing fraction zero. */
  lemma StripFixed6(s: string)
    requires IsFixed6(s)
    ensures var r := StripTrailingZeros(s);
      && |s| - 7 <= |r| <= |s|
      && r == s[..|r|]
      && (forall i :: |r| <= i < |s| && i != |s| - 7 ==> s[i] == '0')
      && (|r| == |s| - 7 <==> s[|s| - 6..] == "000000")
      && (|r| > |s| - 7 ==> r[|r| - 1] != '0' && r[|r| - 1] != '.')
  {
    var k := TrailingZerosStart(s);
    var r := StripTrailingZeros(s);
    var dot := |s| - 7;
    assert s[dot] != '0';
    assert k > dot;
    if s[|s| - 6..] == "000000" {
      assert forall i :: dot < i < |s| ==> s[i] == s[|s| - 6..][i - dot - 1];
      assert k == dot + 1;
    } else {
      var j :| dot < j < |s| && s[j] != '0';
      assert k > j;
      assert s[|s| - 6..][j - dot - 1] == s[j];
    }
  }

  /** `formatETH`: the six-decimal ether text, with `/\.?0+$/` removed, followed by " ETH". */
  function FormatEth(wei: nat, fixed6: FixedEtherText): (r: string)
    ensures EndsWith(r, " ETH")
    ensures r[..|r| - 4] == StripTrailingZeros(fixed6(wei))
  {
    var r := StripTrailingZeros(fixed6(wei)) + " ETH";
    assert r[|r| - 4..] == " ETH";
    r
  }

  // ---------------------------------------------------------------------------
  // Dispatch
  // ---------------------------------------------------------------------------

  /** `formatAmount`: `None` stands for a missing or empty (falsy) value. */
  function FormatAmount(valueInWei: Option<nat>, quotient: QuotientText, fixed6: FixedEtherText): (r: string)
    ensures valueInWei.None? || valueInWei.value == 0 ==> r == "0 ETH"
    ensures valueInWei.Some? && 0 < valueInWei.value < WeiDisplayLimit ==> r == FormatWei(valueInWei.value, quotient)
    ensures valueInWei.Some? && WeiDisplayLimit <= valueInWei.value ==> r == FormatEth(valueInWei.value, fixed6)
  {
    match valueInWei
    case None => "0 ETH"
    case Some(v) =>
      if v == 0 then "0 ETH"
      else if v < WeiDisplayLimit then FormatWei(v, quotient)
      else FormatEth(v, fixed6)
  }

  /** The unit word tells which formatter ran: " WEI" exactly for positive amounts below 10^15,
      " ETH" for everything else (missing, zero, or 10^15 and above). */
  lemma FormatAmountUnit(valueInWei: Option<nat>, quotient: QuotientText, fixed6: FixedEtherText)
    ensures var r := FormatAmount(valueInWei, quotient, fixed6);
      && (EndsWith(r, " WEI") <==> valueInWei.Some? && 0 < valueInWei.value < WeiDisplayLimit)
      && (EndsWith(r, " ETH") <==> !(valueInWei.Some? && 0 < valueInWei.value < WeiDisplayLimit))
  {
    var r := FormatAmount(valueInWei, quotient, fixed6);
    if valueInWei.Some? && 0 < valueInWei.value < WeiDisplayLimit {
      FormatWeiEndsInWei(valueInWei.value, quotient);
      assert r[|r| - 1] == 'I';
    } else {
      assert EndsWith(r, " ETH");
      assert r[|r| - 1] == 'H';
    }
  }
}
