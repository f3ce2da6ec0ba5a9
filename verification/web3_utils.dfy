/** The front-end's address, countdown and block-explorer helpers (client/utils/web3.js). */
module Web3Utils {
  import opened Wrappers
  import opened Text

  // ---------------------------------------------------------------------------
  // Address truncation
  // ---------------------------------------------------------------------------

  /** The horizontal ellipsis inserted between the kept head and tail. */
  const Ellipsis: char := '\U{2026}'

  /** Whole-string match of `^(0x[a-zA-Z0-9]{4})[a-zA-Z0-9]+([a-zA-Z0-9]{4})$`:
      a literal lower-case "0x", then at least 4 + 1 + 4 ASCII letters or digits. */
  predicate MatchesAddressPattern(s: string) {
    && |s| >= 11
    && s[0] == '0' && s[1] == 'x'
    && forall i :: 2 <= i < |s| ==> IsAsciiAlnum(s[i])
  }

  /** Shortens an address to its first six and last four characters;
      anything the pattern does not match is returned untouched. */
  function TruncateEthAddress(address: string): (r: string)
    ensures !MatchesAddressPattern(address) ==> r == address
    ensures MatchesAddressPattern(address) ==>
      && |r| == 11
      && r[..6] == address[..6]
      && r[6] == Ellipsis
      && r[7..] == address[|address| - 4..]
  {
    if MatchesAddressPattern(address) then
      address[..6] + [Ellipsis] + address[|address| - 4..]
    else
      address
  }

  /** A truncated address never matches the pattern again: the ellipsis is not alphanumeric. */
  lemma TruncatedNeverMatches(address: string)
    requires MatchesAddressPattern(address)
    ensures !MatchesAddressPattern(TruncateEthAddress(address))
  {
    var r := TruncateEthAddress(address);
    assert r[6] == Ellipsis && !IsAsciiAlnum(r[6]);
  }

  /** Truncating twice is truncating once. */
  lemma TruncateIdempotent(address: string)
    ensures TruncateEthAddress(TruncateEthAddress(address)) == TruncateEthAddress(address)
  {
    if MatchesAddressPattern(address) {
      TruncatedNeverMatches(address);
    }
  }

  // ---------------------------------------------------------------------------
  // Deadline countdown
  // ---------------------------------------------------------------------------

  const SecondsPerDay: nat := 86400
  const SecondsPerHour: nat := 3600

  /** What the countdown shows: the deadline has passed, or whole days and hours remain. */
  datatype Countdown = Ended | Left(days: nat, hours: nat)

  /** Whole days and the whole hours of the remaining partial day, by floor division. */
  function CountdownOf(timeLeft: int): (c: Countdown)
    ensures c.Ended? <==> timeLeft <= 0
    ensures c.Left? ==>
      && c.hours < 24
      && c.days * SecondsPerDay + c.hours * SecondsPerHour <= timeLeft
      && timeLeft < c.days * SecondsPerDay + (c.hours + 1) * SecondsPerHour
  {
    if timeLeft <= 0 then Ended
    else
      var days := timeLeft / SecondsPerDay;
      var rest := timeLeft % SecondsPerDay;
      var hours := rest / SecondsPerHour;
      assert timeLeft == days * SecondsPerDay + rest;
      assert rest == hours * SecondsPerHour + rest % SecondsPerHour;
      Left(days, hours)
  }

  /** The bounds of `CountdownOf` pin the days and hours down: no other pair satisfies them. */
  lemma CountdownUnique(timeLeft: int, days: nat, hours: nat)
    requires timeLeft > 0
    requires hours < 24
    requires days * SecondsPerDay + hours * SecondsPerHour <= timeLeft
    requires timeLeft < days * SecondsPerDay + (hours + 1) * SecondsPerHour
    ensures CountdownOf(timeLeft) == Left(days, hours)
  {
    var c := CountdownOf(timeLeft);
    var a := c.days * 24 + c.hours;
    var b := days * 24 + hours;
    assert a * 3600 <= timeLeft < a * 3600 + 3600;
    assert b * 3600 <= timeLeft < b * 3600 + 3600;
    assert a == b;
  }

  /** The text `formatDeadline` shows for a countdown: "Ended", "{d}d {h}h left" when at least a
      day remains, otherwise "{h}h left". */
  function RenderCountdown(c: Countdown): (r: string)
    ensures r == "Ended" <==> c.Ended?
    ensures c.Left? ==> EndsWith(r, "h left")
    ensures c.Left? ==> ('d' in r <==> c.days > 0)
    ensures c.Left? && c.days > 0 ==> r == NatToString(c.days) + "d " + NatToString(c.hours) + "h left"
    ensures c.Left? && c.days == 0 ==> r == NatToString(c.hours) + "h left"
  {
    match c
    case Ended => "Ended"
    case Left(d, h) =>
      var hs := NatToString(h);
      if d > 0 then
        var r := NatToString(d) + "d " + hs + "h left";
        assert r[|NatToString(d)|] == 'd';
        r
      else
        var r := hs + "h left";
        assert forall i :: 0 <= i < |hs| ==> hs[i] != 'd';
        assert forall i :: |hs| <= i < |r| ==> r[i] == "h left"[i - |hs|];
        r
  }

  /** The countdown text for an on-chain deadline, seen at `now` (both in seconds). */
  function FormatDeadline(timestamp: int, now: int): (r: string)
    ensures r == "Ended" <==> timestamp - now <= 0
    ensures r != "Ended" ==> EndsWith(r, "h left")
  {
    var c := CountdownOf(timestamp - now);
    var r := RenderCountdown(c);
    assert c.Left? ==> r[|r| - 6..] == "h left" && r[|r| - 1] == 't';
    r
  }

  /** First position of `c` in `s`, or `|s|` when it does not occur. */
  function IndexOf(s: string, c: char): (k: nat)
    ensures k <= |s|
    ensures forall i :: 0 <= i < k ==> s[i] != c
    ensures k < |s| ==> s[k] == c
    decreases |s|
  {
    if |s| == 0 then 0 else if s[0] == c then 0 else 1 + IndexOf(s[1..], c)
  }

  /** Reads a countdown text back: the inverse of `RenderCountdown`. */
  function ParseCountdown(s: string): Option<Countdown> {
    if s == "Ended" then Some(Ended)
    else if !EndsWith(s, "h left") then None
    else
      var body := s[..|s| - 6];
      var k := IndexOf(body, 'd');
      if k == |body| then
        match ParseNat(body)
        case Some(h) => Some(Left(0, h))
        case None => None
      else if k + 1 < |body| && body[k + 1] == ' ' then
        match (ParseNat(body[..k]), ParseNat(body[k + 2..]))
        case (Some(d), Some(h)) => Some(Left(d, h))
        case _ => None
      else None
  }

  lemma IndexOfAfterDigits(digits: string, rest: string, c: char)
    requires AllDigits(digits) && !IsDigit(c)
    ensures IndexOf(digits + [c] + rest, c) == |digits|
  {
    var s := digits + [c] + rest;
    assert s[|digits|] == c;
    assert forall i :: 0 <= i < |digits| ==> s[i] == digits[i];
  }

  /** The days form `ds + "d " + hs + "h left"` ends in "h left", is not "Ended", and before
      that suffix reads `ds`, 'd', a space and `hs`. */
  lemma DaysTextShape(ds: string, hs: string)
    ensures var s := ds + "d " + hs + "h left";
      && EndsWith(s, "h left") && s != "Ended"
      && s[..|s| - 6] == ds + ['d'] + (" " + hs)
  {
    var s := ds + "d " + hs + "h left";
    assert s[|s| - 1] == 't';
    assert s[|s| - 6..] == "h left";
    assert s[..|s| - 6] == ds + ['d'] + (" " + hs);
  }

  /** The hours-only form `hs + "h left"` ends in "h left", is not "Ended", and before that
      suffix holds just `hs`. */
  lemma HoursTextShape(hs: string)
    ensures var s := hs + "h left";
      && EndsWith(s, "h left") && s != "Ended"
      && s[..|s| - 6] == hs
  {
    var s := hs + "h left";
    assert s[|s| - 1] == 't';
    assert s[|s| - 6..] == "h left";
  }

  lemma ParseDaysText(d: nat, h: nat)
    requires d > 0
    ensures ParseCountdown(NatToString(d) + "d " + NatToString(h) + "h left") == Some(Left(d, h))
  {
    var ds := NatToString(d);
    var hs := NatToString(h);
    NatToStringRoundTrip(d);
    NatToStringRoundTrip(h);
    DaysTextShape(ds, hs);
    var body := ds + ['d'] + (" " + hs);
    IndexOfAfterDigits(ds, " " + hs, 'd');
    assert body[..|ds|] == ds;
    assert body[|ds| + 2..] == hs;
  }

  lemma ParseHoursText(h: nat)
    ensures ParseCountdown(NatToString(h) + "h left") == Some(Left(0, h))
  {
    var hs := NatToString(h);
    NatToStringRoundTrip(h);
    HoursTextShape(hs);
    assert forall i :: 0 <= i < |hs| ==> hs[i] != 'd';
  }

  /** The text shown for the remaining time determines the days and hours it was made from. */
  lemma CountdownRoundTrip(c: Countdown)
    ensures ParseCountdown(RenderCountdown(c)) == Some(c)
  {
    match c
    case Ended =>
    case Left(d, h) =>
      if d > 0 {
        ParseDaysText(d, h);
      } else {
        ParseHoursText(h);
      }
  }

  /** The deadline text decodes to exactly the floor-division countdown of the time left. */
  lemma FormatDeadlineDecodes(timestamp: int, now: int)
    ensures ParseCountdown(FormatDeadline(timestamp, now)) == Some(CountdownOf(timestamp - now))
  {
    CountdownRoundTrip(CountdownOf(timestamp - now));
  }

  // ---------------------------------------------------------------------------
  // Block explorer links
  // ---------------------------------------------------------------------------

  /** The configured network name, where "" stands for an unset or empty variable. */
  function EffectiveNetwork(configured: string): (n: string)
    ensures n != ""
    ensures configured != "" ==> n == configured
    ensures configured == "" ==> n == "sepolia"
  {
    if configured == "" then "sepolia" else configured
  }

  /** The explorer page of `address` on the configured network. */
  function GetEtherscanUrl(configured: string, address: string): (r: string)
    ensures EndsWith(r, "/address/" + address)
    ensures configured == "mainnet" ==> r == "https://etherscan.io/address/" + address
    ensures configured != "mainnet" ==>
      r == "https://" + EffectiveNetwork(configured) + ".etherscan.io/address/" + address
  {
    var network := EffectiveNetwork(configured);
    var baseUrl := if network == "mainnet" then "https://etherscan.io" else "https://" + network + ".etherscan.io";
    var r := baseUrl + "/address/" + address;
    assert r[|r| - |"/address/" + address|..] == "/address/" + address;
    r
  }

  /** On one network, the link determines the address it points at. */
  lemma EtherscanUrlInjective(configured: string, a: string, b: string)
    requires GetEtherscanUrl(configured, a) == GetEtherscanUrl(configured, b)
    ensures a == b
  {
    var ra := GetEtherscanUrl(configured, a);
    var network := EffectiveNetwork(configured);
    var baseUrl := if network == "mainnet" then "https://etherscan.io" else "https://" + network + ".etherscan.io";
    var head := baseUrl + "/address/";
    assert ra == head + a;
    assert GetEtherscanUrl(configured, b) == head + b;
    assert a == ra[|head|..];
  }
}
