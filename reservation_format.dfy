/**
 * Field normalisation of the reservation controller: coordinate text, the client
 * name cap, flight-field truncation, the booking-date offset and the preference
 * codes sent to the booking provider (Auriga).
 */
module ReservationFormat {
  import opened Wrappers
  import opened PhpString

  // ---------------------------------------------------------------------------
  // Coordinates (eliminarUltimoDigitoCero)
  // ---------------------------------------------------------------------------

  /**
   * The decimal text PHP prints for a float equals 0.0: it has a '0' and nothing but
   * zeros, a point and a sign ("0", "-0", "0.0").
   */
  predicate IsZeroText(s: string) {
    '0' in s && forall k :: 0 <= k < |s| ==> s[k] == '0' || s[k] == '.' || s[k] == '-'
  }

  predicate HasDigit(s: string) {
    exists k :: 0 <= k < |s| && IsDigit(s[k])
  }

  /**
   * Coordinate formatting over the decimal text `s` of the float: zero becomes "0.0";
   * a text with a decimal point loses its trailing zeros, and a bare trailing point
   * gets one '0' back; a text without a point is kept.
   */
  function FormatCoordinate(s: string): (r: string)
    ensures IsZeroText(s) ==> r == "0.0"
    ensures !IsZeroText(s) && '.' !in s ==> r == s
    ensures !IsZeroText(s) && '.' in s ==>
              && r <= s + "0"
              && (forall k :: |r| <= k < |s| ==> s[k] == '0')
              && '.' in r
              && r[|r| - 1] != '.'
              && (r[|r| - 1] == '0' ==> |r| >= 2 && r[|r| - 2] == '.')
  {
    if IsZeroText(s) then "0.0"
    else if '.' in s then
      var t := TrimEndChar(s, '0');
      DotSurvivesTrim(s, t);
      if |t| > 0 && t[|t| - 1] == '.' then t + "0" else t
    else s
  }

  lemma DotSurvivesTrim(s: string, t: string)
    requires '.' in s && t == TrimEndChar(s, '0')
    ensures '.' in t
  {
    var p :| 0 <= p < |s| && s[p] == '.';
    assert p < |t|;
    assert t[p] == '.';
  }

  /** The coordinate a payload carries: a missing one compares equal to 0.0 in PHP. */
  function CoordinateText(v: Option<string>): (r: string)
    ensures v.None? ==> r == "0.0"
    ensures v.Some? ==> r == FormatCoordinate(v.value)
  {
    if v.None? then "0.0" else FormatCoordinate(v.value)
  }

  /** Formatting a formatted coordinate changes nothing. */
  lemma FormatCoordinateIdempotent(s: string)
    requires HasDigit(s)
    ensures FormatCoordinate(FormatCoordinate(s)) == FormatCoordinate(s)
  {
    var r := FormatCoordinate(s);
    if !IsZeroText(s) && '.' in s {
      var k :| 0 <= k < |s| && IsDigit(s[k]);
      if s[k] != '0' {
        assert k < |r| && r[k] == s[k];
        assert !IsZeroText(r);
      } else {
        var j :| 0 <= j < |s| && s[j] != '0' && s[j] != '.' && s[j] != '-';
        assert j < |r| && r[j] == s[j];
        assert !IsZeroText(r);
      }
      if r[|r| - 1] == '0' {
        var u := r[..|r| - 1];
        assert r == u + ['0'];
        assert TrimEndChar(r, '0') == u;
      } else {
        assert TrimEndChar(r, '0') == r;
      }
    }
  }

  /** The example in the doc comment of eliminarUltimoDigitoCero. */
  lemma FormatCoordinateExample()
    ensures FormatCoordinate("41.3801872805610") == "41.380187280561"
  {
    var t := "41.380187280561";
    assert t[0] == '4' && t[2] == '.' && t[|t| - 1] == '1';
    DropTrailingZero(t);
    assert t + "0" == "41.3801872805610";
  }

  /** Zero keeps its one decimal. */
  lemma ZeroCoordinateExample()
    ensures FormatCoordinate("0.0") == "0.0"
  {
  }

  /** A non-zero decimal text with one trailing zero after its last significant digit loses that zero. */
  lemma DropTrailingZero(t: string)
    requires '.' in t && |t| > 0 && t[|t| - 1] != '0' && t[|t| - 1] != '.'
    requires exists k :: 0 <= k < |t| && t[k] != '0' && t[k] != '.' && t[k] != '-'
    ensures FormatCoordinate(t + "0") == t
  {
    var s := t + "0";
    assert !IsZeroText(s) by {
      var k :| 0 <= k < |t| && t[k] != '0' && t[k] != '.' && t[k] != '-';
      assert s[k] == t[k];
    }
    assert '.' in s by {
      var p :| 0 <= p < |t| && t[p] == '.';
      assert s[p] == '.';
    }
    assert s[..|s| - 1] == t;
    assert TrimEndChar(t, '0') == t;
  }

  // ---------------------------------------------------------------------------
  // Length caps (limitarNombreA30Bytes, the flight block)
  // ---------------------------------------------------------------------------

  /**
   * limitarNombreA30Bytes: a name shorter than 30 bytes is kept; any longer one,
   * including one of exactly 30 bytes, is cut to its first 29 bytes.
   */
  function LimitClientName(s: string): (r: string)
    ensures r <= s && |r| < 30
    ensures |s| < 30 ==> r == s
    ensures |s| >= 30 ==> |r| == 29
  {
    if |s| < 30 then s else s[..29]
  }

  /** The client name field: strlen(null) is 0, so a null name stays null. */
  function ClientNameField(name: Option<string>): (r: Option<string>)
    ensures r.None? <==> name.None?
    ensures name.Some? ==> r.value == LimitClientName(name.value)
  {
    if name.None? then None else Some(LimitClientName(name.value))
  }

  /** substr($s, 0, $n): the first `n` bytes, or all of a shorter string. */
  function Truncate(s: string, n: nat): (r: string)
    ensures r <= s
    ensures |r| == if |s| < n then |s| else n
  {
    if |s| <= n then s else s[..n]
  }

  // ---------------------------------------------------------------------------
  // Booking date offset
  // ---------------------------------------------------------------------------

  predicate IsSign(c: char) {
    c == '+' || c == '-'
  }

  /** `[+-]\d{4}` at the very end of `s`. */
  predicate EndsWithCompactOffset(s: string) {
    |s| >= 5 && IsSign(s[|s| - 5]) && IsDigit(s[|s| - 4]) && IsDigit(s[|s| - 3])
    && IsDigit(s[|s| - 2]) && IsDigit(s[|s| - 1])
  }

  /** `[+-]\d{2}:\d{2}` at the very end of `s`. */
  predicate EndsWithColonOffset(s: string) {
    |s| >= 6 && IsSign(s[|s| - 6]) && IsDigit(s[|s| - 5]) && IsDigit(s[|s| - 4])
    && s[|s| - 3] == ':' && IsDigit(s[|s| - 2]) && IsDigit(s[|s| - 1])
  }

  /** A PCRE `$` anchor: the end of the subject, or just before a final newline. */
  predicate AtEnd(s: string, p: string -> bool) {
    p(s) || (|s| > 0 && s[|s| - 1] == '\n' && p(s[..|s| - 1]))
  }

  /** preg_match('/[+-]\d{4}$/', $s). */
  predicate HasCompactOffset(s: string) {
    AtEnd(s, EndsWithCompactOffset)
  }

  /** preg_match('/[+-]\d{2}:\d{2}$/', $s). */
  predicate HasColonOffset(s: string) {
    AtEnd(s, EndsWithColonOffset)
  }

  /**
   * The booking date sent to the provider. `localDateTime` stands for
   * date('Y-m-d\TH:i:s', strtotime($original)) in the server's time zone; it is
   * used only when the original has no recognisable offset.
   */
  function NormalizeBookingDate(original: string, localDateTime: string): (r: string)
    ensures HasCompactOffset(original) ==> r == original
    ensures !HasCompactOffset(original) && !HasColonOffset(original) ==>
              r == localDateTime + "+0200" && EndsWithCompactOffset(r)
  {
    if HasCompactOffset(original) then original
    else if HasColonOffset(original) then Replace(Replace(original, "+02:00", "+0200"), "-02:00", "-0200")
    else localDateTime + "+0200"
  }

  /** A date ending in "+02:00", with no other "+02:00" or "-02:00", loses the offset's colon. */
  lemma NormalizePlusTwo(d: string, localDateTime: string)
    requires !Contains(d, "+02:00") && !Contains(d, "-02:00")
    ensures NormalizeBookingDate(d + "+02:00", localDateTime) == d + "+0200"
  {
    var s := d + "+02:00";
    assert s[|s| - 6..] == "+02:00";
    assert !EndsWithCompactOffset(s) by { assert s[|s| - 5] == '0'; }
    assert s[|s| - 1] == '0';
    assert EndsWithColonOffset(s);
    assert forall k :: 0 < k < 6 ==> "+02:00"[k] != '+';
    forall j | 0 <= j < |d|
      ensures !OccursAt(s, "+02:00", j)
    {
      NoMatchBeforeJoin(d, "+02:00", "+02:00", j);
    }
    ReplaceAfterClear(d, "+02:00", "+02:00", "+0200");
    assert Replace("+02:00", "+02:00", "+0200") == "+0200" by {
      assert "+02:00"[..6] == "+02:00";
      assert "+02:00"[6..] == "";
    }
    assert Replace(s, "+02:00", "+0200") == d + "+0200";
    MinusTwoAbsentAfterPlus(d);
    ReplaceAbsent(d + "+0200", "-02:00", "-0200");
  }

  /** A date ending in "-02:00", with no other "+02:00" or "-02:00", loses the offset's colon. */
  lemma NormalizeMinusTwo(d: string, localDateTime: string)
    requires !Contains(d, "+02:00") && !Contains(d, "-02:00")
    ensures NormalizeBookingDate(d + "-02:00", localDateTime) == d + "-0200"
  {
    var s := d + "-02:00";
    assert s[|s| - 6..] == "-02:00";
    assert !EndsWithCompactOffset(s) by { assert s[|s| - 5] == '0'; }
    assert s[|s| - 1] == '0';
    assert EndsWithColonOffset(s);
    PlusTwoAbsentAfterMinus(d);
    ReplaceAbsent(s, "+02:00", "+0200");
    assert forall k :: 0 < k < 6 ==> "-02:00"[k] != '-';
    forall j | 0 <= j < |d|
      ensures !OccursAt(s, "-02:00", j)
    {
      NoMatchBeforeJoin(d, "-02:00", "-02:00", j);
    }
    ReplaceAfterClear(d, "-02:00", "-02:00", "-0200");
    assert Replace("-02:00", "-02:00", "-0200") == "-0200" by {
      assert "-02:00"[..6] == "-02:00";
      assert "-02:00"[6..] == "";
    }
  }

  /** Appending "+0200" to a date without "-02:00" creates no "-02:00". */
  lemma MinusTwoAbsentAfterPlus(d: string)
    requires !Contains(d, "-02:00")
    ensures !Contains(d + "+0200", "-02:00")
  {
    var t := d + "+0200";
    assert forall k :: 0 < k < 6 ==> "-02:00"[k] != '+';
    forall j: nat | j + 6 <= |t| ensures !OccursAt(t, "-02:00", j) {
      NoMatchBeforeJoin(d, "+0200", "-02:00", j);
    }
  }

  /** Appending "-02:00" to a date without "+02:00" creates no "+02:00". */
  lemma PlusTwoAbsentAfterMinus(d: string)
    requires !Contains(d, "+02:00")
    ensures !Contains(d + "-02:00", "+02:00")
  {
    var t := d + "-02:00";
    assert forall k :: 0 < k < 6 ==> "+02:00"[k] != '-';
    forall j: nat | j + 6 <= |t| ensures !OccursAt(t, "+02:00", j) {
      if j < |d| {
        NoMatchBeforeJoin(d, "-02:00", "+02:00", j);
      } else {
        assert t[j..j + 6] == "-02:00";
      }
    }
  }

  /** A colon offset other than ±02:00, with neither "+02:00" nor "-02:00" anywhere, is left as it is. */
  lemma NormalizeOtherColonOffset(s: string, localDateTime: string)
    requires HasColonOffset(s) && !HasCompactOffset(s)
    requires !Contains(s, "+02:00") && !Contains(s, "-02:00")
    ensures NormalizeBookingDate(s, localDateTime) == s
  {
    ReplaceAbsent(s, "+02:00", "+0200");
    ReplaceAbsent(s, "-02:00", "-0200");
  }

  // ---------------------------------------------------------------------------
  // Preference codes
  // ---------------------------------------------------------------------------

  const ChildSeatCode := "1662"
  const Vehicle56SeatsCode := "1663"
  const Vehicle7SeatsCode := "1665"
  const AirportPickupCode := "1666"

  /** The position of a code in the order the controller pushes them. */
  function CodeRank(code: string): int {
    if code == ChildSeatCode then 0
    else if code == Vehicle56SeatsCode then 1
    else if code == Vehicle7SeatsCode then 2
    else if code == AirportPickupCode then 3
    else 4
  }

  /** The pickup counts as an airport pickup when its `type` is exactly 'airport'. */
  predicate IsAirport(kind: Option<string>) {
    kind == Some("airport")
  }

  /** Codes of rank below `bound`, in strictly increasing rank. */
  predicate RankedBelow(prefs: seq<string>, bound: int) {
    && (forall i :: 0 <= i < |prefs| ==> CodeRank(prefs[i]) < bound)
    && (forall i, j :: 0 <= i < j < |prefs| ==> CodeRank(prefs[i]) < CodeRank(prefs[j]))
  }

  /** One array_push guarded by `flag`. */
  function PushIf(flag: bool, code: string): seq<string> {
    if flag then [code] else []
  }

  /** The code list `create` builds: one code per flag that is set, in declaration order. */
  function PreferenceCodes(childSeat: bool, vehicle56Seats: bool, vehicle7Seats: bool, pickupKind: Option<string>): (r: seq<string>)
    ensures |r| == (if childSeat then 1 else 0) + (if vehicle56Seats then 1 else 0) + (if vehicle7Seats then 1 else 0)
                   + (if IsAirport(pickupKind) then 1 else 0)
    ensures forall k :: 0 <= k < |r| ==> r[k] in {ChildSeatCode, Vehicle56SeatsCode, Vehicle7SeatsCode, AirportPickupCode}
  {
    PushIf(childSeat, ChildSeatCode) + PushIf(vehicle56Seats, Vehicle56SeatsCode)
    + PushIf(vehicle7Seats, Vehicle7SeatsCode) + PushIf(IsAirport(pickupKind), AirportPickupCode)
  }

  lemma PushKeepsRanked(prefs: seq<string>, flag: bool, code: string, bound: int)
    requires RankedBelow(prefs, CodeRank(code)) && CodeRank(code) < bound
    ensures RankedBelow(prefs + PushIf(flag, code), bound)
    ensures code in prefs + PushIf(flag, code) <==> flag
  {
    if flag {
      assert (prefs + [code])[|prefs|] == code;
    }
  }

  lemma PushKeepsOthers(prefs: seq<string>, flag: bool, code: string, other: string)
    requires RankedBelow(prefs, CodeRank(code)) && CodeRank(other) < CodeRank(code)
    ensures other in prefs + PushIf(flag, code) <==> other in prefs
  {
  }

  /**
   * Each code is present exactly when its flag is set, and the codes come in
   * declaration order whatever the order of the request's fields.
   */
  lemma PreferenceCodesOrdered(childSeat: bool, vehicle56Seats: bool, vehicle7Seats: bool, pickupKind: Option<string>)
    ensures var prefs := PreferenceCodes(childSeat, vehicle56Seats, vehicle7Seats, pickupKind);
            && (ChildSeatCode in prefs <==> childSeat)
            && (Vehicle56SeatsCode in prefs <==> vehicle56Seats)
            && (Vehicle7SeatsCode in prefs <==> vehicle7Seats)
            && (AirportPickupCode in prefs <==> IsAirport(pickupKind))
            && RankedBelow(prefs, 4)
  {
    assert ChildSeatCode[3] == '2' && Vehicle56SeatsCode[3] == '3';
    assert Vehicle7SeatsCode[3] == '5' && AirportPickupCode[3] == '6';
    var p1 := PushIf(childSeat, ChildSeatCode);
    PushKeepsRanked([], childSeat, ChildSeatCode, 1);
    assert [] + p1 == p1;
    var p2 := p1 + PushIf(vehicle56Seats, Vehicle56SeatsCode);
    PushKeepsRanked(p1, vehicle56Seats, Vehicle56SeatsCode, 2);
    PushKeepsOthers(p1, vehicle56Seats, Vehicle56SeatsCode, ChildSeatCode);
    var p3 := p2 + PushIf(vehicle7Seats, Vehicle7SeatsCode);
    PushKeepsRanked(p2, vehicle7Seats, Vehicle7SeatsCode, 3);
    PushKeepsOthers(p2, vehicle7Seats, Vehicle7SeatsCode, ChildSeatCode);
    PushKeepsOthers(p2, vehicle7Seats, Vehicle7SeatsCode, Vehicle56SeatsCode);
    PushKeepsRanked(p3, IsAirport(pickupKind), AirportPickupCode, 4);
    PushKeepsOthers(p3, IsAirport(pickupKind), AirportPickupCode, ChildSeatCode);
    PushKeepsOthers(p3, IsAirport(pickupKind), AirportPickupCode, Vehicle56SeatsCode);
    PushKeepsOthers(p3, IsAirport(pickupKind), AirportPickupCode, Vehicle7SeatsCode);
  }

  /**
   * The preference list of `create`, built by successive array_push calls: one code
   * per flag that is boolean true, in declaration order, never in input order.
   * PreferenceCodes is the resulting list as a function, for the lemmas.
   */
  method BuildPreferences(childSeat: bool, vehicle56Seats: bool, vehicle7Seats: bool, pickupKind: Option<string>)
    returns (prefs: seq<string>)
    ensures prefs == PreferenceCodes(childSeat, vehicle56Seats, vehicle7Seats, pickupKind)
  {
    prefs := [];
    if childSeat {
      prefs := prefs + [ChildSeatCode];
    }
    assert prefs == PushIf(childSeat, ChildSeatCode);
    if vehicle56Seats {
      prefs := prefs + [Vehicle56SeatsCode];
    }
    assert prefs == PushIf(childSeat, ChildSeatCode) + PushIf(vehicle56Seats, Vehicle56SeatsCode);
    if vehicle7Seats {
      prefs := prefs + [Vehicle7SeatsCode];
    }
    ghost var three := PushIf(childSeat, ChildSeatCode) + PushIf(vehicle56Seats, Vehicle56SeatsCode)
                       + PushIf(vehicle7Seats, Vehicle7SeatsCode);
    assert prefs == three;
    if IsAirport(pickupKind) {
      prefs := prefs + [AirportPickupCode];
    }
    assert prefs == three + PushIf(IsAirport(pickupKind), AirportPickupCode);
  }

  /** The payload's `preferences`: an empty list is sent as null. */
  function PreferencesField(prefs: seq<string>): (r: Option<seq<string>>)
    ensures r.None? <==> prefs == []
    ensures r.Some? ==> r.value == prefs
  {
    if prefs == [] then None else Some(prefs)
  }
}
