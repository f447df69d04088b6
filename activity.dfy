/**
 * The presentation rules of the activity controller: the readable form of a stored
 * user agent, the icon and colour of each activity type, and the clamping of the
 * page size and offset read from the query string.
 */
module Activity {
  import opened Wrappers
  import opened PhpString

  // ---------------------------------------------------------------------------
  // parseUserAgent
  // ---------------------------------------------------------------------------

  const Unknown := "Desconocido"

  /** The browser: the first that matches of Firefox, Chrome without "Edg", Safari without "Chrome", Edge. */
  function Browser(ua: string): (r: string)
    ensures r == "Firefox" <==> Contains(ua, "Firefox")
    ensures r == "Chrome" <==> !Contains(ua, "Firefox") && Contains(ua, "Chrome") && !Contains(ua, "Edg")
    ensures r == "Safari" <==> !Contains(ua, "Firefox") && Contains(ua, "Safari") && !Contains(ua, "Chrome")
    ensures r == "Edge" <==>
              !Contains(ua, "Firefox") && Contains(ua, "Edg") && (Contains(ua, "Chrome") || !Contains(ua, "Safari"))
    ensures r == Unknown <==>
              !Contains(ua, "Firefox") && !Contains(ua, "Edg") && !Contains(ua, "Chrome") && !Contains(ua, "Safari")
  {
    if Contains(ua, "Firefox") then "Firefox"
    else if Contains(ua, "Chrome") && !Contains(ua, "Edg") then "Chrome"
    else if Contains(ua, "Safari") && !Contains(ua, "Chrome") then "Safari"
    else if Contains(ua, "Edg") then "Edge"
    else Unknown
  }

  /** The system: the first that matches of Windows, Mac, Linux, Android, iPhone or iPad. */
  function System(ua: string): (r: string)
    ensures r == "Windows" <==> Contains(ua, "Windows")
    ensures r == "macOS" <==> !Contains(ua, "Windows") && Contains(ua, "Mac")
    ensures r == "Linux" <==> !Contains(ua, "Windows") && !Contains(ua, "Mac") && Contains(ua, "Linux")
    ensures r == "Android" <==>
              !Contains(ua, "Windows") && !Contains(ua, "Mac") && !Contains(ua, "Linux") && Contains(ua, "Android")
    ensures r == "iOS" <==>
              !Contains(ua, "Windows") && !Contains(ua, "Mac") && !Contains(ua, "Linux") && !Contains(ua, "Android") &&
              (Contains(ua, "iPhone") || Contains(ua, "iPad"))
    ensures r == Unknown <==>
              !Contains(ua, "Windows") && !Contains(ua, "Mac") && !Contains(ua, "Linux") && !Contains(ua, "Android") &&
              !Contains(ua, "iPhone") && !Contains(ua, "iPad")
  {
    if Contains(ua, "Windows") then "Windows"
    else if Contains(ua, "Mac") then "macOS"
    else if Contains(ua, "Linux") then "Linux"
    else if Contains(ua, "Android") then "Android"
    else if Contains(ua, "iPhone") || Contains(ua, "iPad") then "iOS"
    else Unknown
  }

  /** parseUserAgent: "Desconocido" for a missing or empty() agent, else browser " en " system. */
  function ParseUserAgent(ua: Option<string>): (r: string)
    ensures IsEmptyOpt(ua) ==> r == Unknown
    ensures !IsEmptyOpt(ua) ==> r == Browser(ua.value) + " en " + System(ua.value)
  {
    if IsEmptyOpt(ua) then Unknown else Browser(ua.value) + " en " + System(ua.value)
  }

  /** A text that holds `p` at a known place contains it. */
  lemma ContainsAt(s: string, p: string, i: nat)
    requires OccursAt(s, p, i)
    ensures Contains(s, p)
  {
  }

  /** A text in which no byte starts `p` does not contain it. */
  lemma NotContains(s: string, p: string)
    requires |p| > 0 && p[0] !in s
    ensures !Contains(s, p)
  {
  }

  /**
   * A desktop Edge agent names Chrome and Safari as well, yet is reported as Edge; the
   * "Edg" test on the Chrome branch is what sends it there.
   */
  lemma EdgeAgent()
    ensures Browser("Chrome Safari Edg") == "Edge"
  {
    var ua := "Chrome Safari Edg";
    ContainsAt(ua, "Chrome", 0);
    ContainsAt(ua, "Edg", 14);
    NotContains(ua, "Firefox");
  }

  /** Linux is tested before Android, so an Android agent is reported as Linux. */
  lemma AndroidAgentReportedAsLinux()
    ensures System("Linux; Android") == "Linux"
  {
    ContainsAt("Linux; Android", "Linux", 0);
    NotContains("Linux; Android", "Windows");
    NotContains("Linux; Android", "Mac");
  }

  /** Mac is tested before iPhone, so an iPhone agent, which says "like Mac OS X", is reported as macOS. */
  lemma IPhoneAgentReportedAsMac()
    ensures System("iPhone; like Mac") == "macOS"
  {
    ContainsAt("iPhone; like Mac", "Mac", 13);
    NotContains("iPhone; like Mac", "Windows");
  }

  // ---------------------------------------------------------------------------
  // getActivityIcon and getActivityColor
  // ---------------------------------------------------------------------------

  const LoginSuccess := "login_success"
  const LoginFailed := "login_failed"
  const Logout := "logout"
  const PasswordChanged := "password_changed"
  const ProfileUpdated := "profile_updated"
  const TwoFactorEnabled := "2fa_enabled"
  const TwoFactorDisabled := "2fa_disabled"
  const TwoFactorFailed := "2fa_failed"

  /** The activity types the log records. */
  const KnownTypes: seq<string> :=
    [LoginSuccess, LoginFailed, Logout, PasswordChanged, ProfileUpdated, TwoFactorEnabled, TwoFactorDisabled,
     TwoFactorFailed]

  const Icons: map<string, string> := map[
    LoginSuccess := "Login", LoginFailed := "LoginError", Logout := "Logout", PasswordChanged := "Lock",
    ProfileUpdated := "Person", TwoFactorEnabled := "Security", TwoFactorDisabled := "SecurityOff",
    TwoFactorFailed := "SecurityError"]

  const Colors: map<string, string> := map[
    LoginSuccess := "success", LoginFailed := "error", Logout := "info", PasswordChanged := "warning",
    ProfileUpdated := "info", TwoFactorEnabled := "success", TwoFactorDisabled := "warning",
    TwoFactorFailed := "error"]

  /** `$icons[$type] ?? 'Info'`. */
  function ActivityIcon(t: string): (r: string)
    ensures t in Icons ==> r == Icons[t]
    ensures t !in Icons ==> r == "Info"
  {
    if t in Icons then Icons[t] else "Info"
  }

  /** `$colors[$type] ?? 'default'`. */
  function ActivityColor(t: string): (r: string)
    ensures t in Colors ==> r == Colors[t]
    ensures t !in Colors ==> r == "default"
  {
    if t in Colors then Colors[t] else "default"
  }

  /**
   * Both tables cover exactly the known types; every known type has its own icon, never
   * the fallback 'Info'.
   */
  lemma IconTableCoversKnownTypes(t: string, u: string)
    ensures t in Icons <==> t in KnownTypes
    ensures t in Colors <==> t in KnownTypes
    ensures t in KnownTypes && u in KnownTypes && t != u ==> ActivityIcon(t) != ActivityIcon(u)
    ensures t in KnownTypes ==> ActivityIcon(t) != "Info" && ActivityColor(t) != "default"
  {
  }

  /** The colour marks failures: 'error' exactly for the two failure types. */
  lemma ErrorColourMeansFailure(t: string)
    ensures ActivityColor(t) == "error" <==> t == LoginFailed || t == TwoFactorFailed
  {
  }

  // ---------------------------------------------------------------------------
  // Paging in getUserActivities
  // ---------------------------------------------------------------------------

  /** `isset($_GET['limit']) ? min((int)$_GET['limit'], 50) : 15`. */
  function PageLimit(limit: Option<string>): (r: int)
    ensures limit.None? ==> r == 15
    ensures limit.Some? ==> r <= 50 && (r == 50 || r == IntCast(limit.value))
    ensures limit.Some? && IntCast(limit.value) <= 50 ==> r == IntCast(limit.value)
  {
    if limit.None? then 15
    else
      var n := IntCast(limit.value);
      if n < 50 then n else 50
  }

  /** `isset($_GET['offset']) ? max((int)$_GET['offset'], 0) : 0`. */
  function PageOffset(offset: Option<string>): (r: int)
    ensures r >= 0
    ensures offset.None? ==> r == 0
    ensures offset.Some? && IntCast(offset.value) >= 0 ==> r == IntCast(offset.value)
    ensures offset.Some? && IntCast(offset.value) < 0 ==> r == 0
  {
    if offset.None? then 0
    else
      var n := IntCast(offset.value);
      if n > 0 then n else 0
  }

  /** The limit has no lower bound: a negative request `-<d>` passes through, while the offset stops at 0. */
  lemma NegativePaging(d: string)
    requires forall k :: 0 <= k < |d| ==> IsDigit(d[k])
    ensures PageLimit(Some("-" + d)) == -(DecimalValue(d) as int)
    ensures PageOffset(Some("-" + d)) == 0
  {
    IntCastNegativeDigits(d);
  }

  /** A limit that does not start with a number (after white space and a sign) reads as 0. */
  lemma TextLimitIsZero(s: string)
    requires s != [] && !IsNumericSpace(s[0]) && !IsDigit(s[0]) && s[0] !in "+-."
    ensures PageLimit(Some(s)) == 0
    ensures PageOffset(Some(s)) == 0
  {
    assert SkipNumericSpace(s) == s;
  }

  /** The cast reads exponents: a limit written `<d>e<x>` asks for d·10^x rows, capped at 50. */
  lemma ExponentLimit(d: string, x: string)
    requires d != [] && forall k :: 0 <= k < |d| ==> IsDigit(d[k])
    requires x != [] && forall k :: 0 <= k < |x| ==> IsDigit(x[k])
    ensures var n := DecimalValue(d) * Pow10(DecimalValue(x));
            PageLimit(Some(d + "e" + x)) == if n < 50 then n else 50
  {
    IntCastExponent(d, x);
  }

  /** An offset written `<d>e<x>` skips d·10^x rows. */
  lemma ExponentOffset(d: string, x: string)
    requires d != [] && forall k :: 0 <= k < |d| ==> IsDigit(d[k])
    requires x != [] && forall k :: 0 <= k < |x| ==> IsDigit(x[k])
    ensures PageOffset(Some(d + "e" + x)) == DecimalValue(d) * Pow10(DecimalValue(x))
  {
    IntCastExponent(d, x);
  }

  /** A fractional limit `<d>.<f>` is truncated to d, capped at 50. */
  lemma FractionalLimit(d: string, f: string)
    requires d != [] && forall k :: 0 <= k < |d| ==> IsDigit(d[k])
    requires forall k :: 0 <= k < |f| ==> IsDigit(f[k])
    ensures PageLimit(Some(d + "." + f)) == if DecimalValue(d) < 50 then DecimalValue(d) else 50
  {
    IntCastFraction(d, f);
  }

  /** A decimal limit is honoured up to 50 and capped above it. */
  lemma DecimalLimit(d: string)
    requires forall k :: 0 <= k < |d| ==> IsDigit(d[k])
    ensures PageLimit(Some(d)) == if DecimalValue(d) < 50 then DecimalValue(d) else 50
  {
    IntCastDigits(d);
  }
}
