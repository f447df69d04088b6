/**
 * The strings the provider's signatures are computed over (generarSignature and
 * cancelarEnAuriga) and the authorization header built from a digest of them. The
 * digest itself (sha1) is left to the caller.
 */
module ReservationSignature {
  import opened Wrappers
  import opened PhpString
  import opened ReservationPayload

  /** The provider credentials and base URL the controller reads from its environment. */
  datatype AurigaConfig = AurigaConfig(clientKey: string, clientId: string, apiUrl: string)

  /** Concatenation of a list of strings, in order. */
  function Concat(xs: seq<string>): string
    decreases |xs|
  {
    if xs == [] then "" else Concat(xs[..|xs| - 1]) + xs[|xs| - 1]
  }

  /** `.=` of a nullable value: null appends nothing. */
  function Text(o: Option<string>): string {
    o.GetOr("")
  }

  /** An address's seven fields in the signature's order. */
  function AddressText(a: Address): string {
    a.latitude + a.longitude + a.bldgNumber + a.street + a.locality + a.town + a.country
  }

  function DestinationText(p: Payload): string {
    if p.destinationAddress.Some? then AddressText(p.destinationAddress.value) else ""
  }

  function PreferencesText(p: Payload): string {
    if p.preferences.Some? then Concat(p.preferences.value) else ""
  }

  function FlightText(p: Payload): string {
    if p.flight.Some? then p.flight.value.flightNo + p.flight.value.arrivalTime + p.flight.value.origin else ""
  }

  /**
   * The create signature's input, in the provider's documented order: key, client id,
   * booking date, client name, phone, the pickup's seven fields, then the optional
   * parts. An absent optional part contributes the empty string; bookingId,
   * customerEmail, customerPaymentMethodId, providerName, providerTelephone and
   * serviceId contribute nothing at all.
   */
  function CreateSignatureInput(cfg: AurigaConfig, p: Payload): (s: string)
    ensures StartsWith(s, cfg.clientKey + cfg.clientId + p.bookingDate)
    ensures EndsWith(s, Text(p.account) + Text(p.accountPassword) + Text(p.accountReference) + Text(p.lockedPrice))
  {
    cfg.clientKey + cfg.clientId + p.bookingDate + Text(p.clientName) + Text(p.phoneNumber)
    + AddressText(p.pickupAddress) + DestinationText(p) + Text(p.special) + PreferencesText(p)
    + Text(p.providerId) + Text(p.urlHook) + FlightText(p)
    + Text(p.account) + Text(p.accountPassword) + Text(p.accountReference) + Text(p.lockedPrice)
  }

  /** generarSignature's string, built by successive appends and a foreach over the preferences. */
  method BuildCreateSignatureString(cfg: AurigaConfig, p: Payload) returns (s: string)
    ensures s == CreateSignatureInput(cfg, p)
  {
    s := cfg.clientKey + cfg.clientId;
    s := s + p.bookingDate;
    s := AppendText(s, p.clientName);
    s := AppendText(s, p.phoneNumber);
    s := AppendAddress(s, p.pickupAddress);
    if p.destinationAddress.Some? {
      s := AppendAddress(s, p.destinationAddress.value);
    } else {
      assert s == s + DestinationText(p);
    }
    s := AppendText(s, p.special);
    if p.preferences.Some? {
      s := AppendPreferences(s, p.preferences.value);
    } else {
      assert s == s + PreferencesText(p);
    }
    s := AppendText(s, p.providerId);
    s := AppendText(s, p.urlHook);
    if p.flight.Some? {
      ghost var s0 := s;
      s := s + p.flight.value.flightNo;
      s := s + p.flight.value.arrivalTime;
      s := s + p.flight.value.origin;
      assert s == s0 + FlightText(p);
    } else {
      assert s == s + FlightText(p);
    }
    s := AppendText(s, p.account);
    s := AppendText(s, p.accountPassword);
    s := AppendText(s, p.accountReference);
    s := AppendText(s, p.lockedPrice);
  }

  /** `if ($v !== null) $s .= $v;` */
  method AppendText(s: string, o: Option<string>) returns (r: string)
    ensures r == s + Text(o)
  {
    r := s;
    if o.Some? {
      r := r + o.value;
    } else {
      assert r == s + "";
    }
  }

  /** The seven appends of one address. */
  method AppendAddress(s: string, a: Address) returns (r: string)
    ensures r == s + AddressText(a)
  {
    r := s + a.latitude;
    r := r + a.longitude;
    r := r + a.bldgNumber;
    r := r + a.street;
    r := r + a.locality;
    r := r + a.town;
    r := r + a.country;
  }

  /** The foreach over the preference codes. */
  method AppendPreferences(s: string, prefs: seq<string>) returns (r: string)
    ensures r == s + Concat(prefs)
  {
    r := s;
    var i := 0;
    while i < |prefs|
      invariant 0 <= i <= |prefs|
      invariant r == s + Concat(prefs[..i])
    {
      r := r + prefs[i];
      assert prefs[..i + 1][..i] == prefs[..i];
      i := i + 1;
    }
    assert prefs[..i] == prefs;
  }

  /** The length of a concatenation is the sum of its pieces' lengths. */
  function TotalLength(xs: seq<string>): nat
    decreases |xs|
  {
    if xs == [] then 0 else TotalLength(xs[..|xs| - 1]) + |xs[|xs| - 1]|
  }

  lemma {:induction false} ConcatLength(xs: seq<string>)
    ensures |Concat(xs)| == TotalLength(xs)
    decreases |xs|
  {
    if xs != [] {
      ConcatLength(xs[..|xs| - 1]);
    }
  }

  /** The preferences are signed in list order: swapping two different codes changes the input. */
  lemma {:induction false} PreferenceOrderMatters(a: string, b: string)
    requires |a| == |b| && a != b
    ensures Concat([a, b]) != Concat([b, a])
  {
    assert [a, b][..1] == [a] && [b, a][..1] == [b];
    assert [a][..0] == [] && [b][..0] == [];
    assert Concat([a]) == "" + a == a;
    assert Concat([b]) == "" + b == b;
    assert Concat([a, b]) == a + b;
    assert Concat([b, a]) == b + a;
    assert (a + b)[..|a|] == a;
    assert (b + a)[..|b|] == b;
  }

  // ---------------------------------------------------------------------------
  // What the create signature depends on
  // ---------------------------------------------------------------------------

  /** The payload fields outside the signature. */
  lemma UnsignedFieldsIgnored(cfg: AurigaConfig, p: Payload, customerEmail: Option<string>,
                              customerPaymentMethodId: Option<string>, bookingId: Option<string>,
                              providerName: Option<string>, providerTelephone: Option<string>, serviceId: Option<string>)
    ensures CreateSignatureInput(cfg, p) ==
            CreateSignatureInput(cfg, p.(customerEmail := customerEmail, customerPaymentMethodId := customerPaymentMethodId,
                                         bookingId := bookingId, providerName := providerName,
                                         providerTelephone := providerTelephone, serviceId := serviceId))
  {
  }

  /** The nullable single-string fields the signature appends when present. */
  datatype OptionalField = Special | ProviderId | UrlHook | Account | AccountPassword | AccountReference | LockedPrice

  function SetField(p: Payload, f: OptionalField, o: Option<string>): Payload {
    match f
    case Special => p.(special := o)
    case ProviderId => p.(providerId := o)
    case UrlHook => p.(urlHook := o)
    case Account => p.(account := o)
    case AccountPassword => p.(accountPassword := o)
    case AccountReference => p.(accountReference := o)
    case LockedPrice => p.(lockedPrice := o)
  }

  /**
   * Presence decides participation: giving a null field the value `v` lengthens the
   * signature input by exactly |v|, and a null field signs like an empty one.
   */
  lemma PresenceChangesInput(cfg: AurigaConfig, p: Payload, f: OptionalField, v: string)
    ensures |CreateSignatureInput(cfg, SetField(p, f, Some(v)))| == |CreateSignatureInput(cfg, SetField(p, f, None))| + |v|
    ensures CreateSignatureInput(cfg, SetField(p, f, Some(""))) == CreateSignatureInput(cfg, SetField(p, f, None))
  {
    PresenceLengthens(cfg, p, f, v);
    EmptySignsLikeNull(cfg, p, f);
  }

  /** The input's length is the sum of its pieces' lengths, the seven optional strings apart. */
  lemma InputLength(cfg: AurigaConfig, p: Payload)
    ensures |CreateSignatureInput(cfg, p)| ==
            |cfg.clientKey + cfg.clientId + p.bookingDate + Text(p.clientName) + Text(p.phoneNumber)
             + AddressText(p.pickupAddress) + DestinationText(p)| + |PreferencesText(p)| + |FlightText(p)|
            + |Text(p.special)| + |Text(p.providerId)| + |Text(p.urlHook)| + |Text(p.account)|
            + |Text(p.accountPassword)| + |Text(p.accountReference)| + |Text(p.lockedPrice)|
  {
  }

  lemma PresenceLengthens(cfg: AurigaConfig, p: Payload, f: OptionalField, v: string)
    ensures |CreateSignatureInput(cfg, SetField(p, f, Some(v)))| == |CreateSignatureInput(cfg, SetField(p, f, None))| + |v|
  {
    InputLength(cfg, SetField(p, f, Some(v)));
    InputLength(cfg, SetField(p, f, None));
    assert Text(Some(v)) == v && Text(None) == "";
    match f
    case Special =>
    case ProviderId =>
    case UrlHook =>
    case Account =>
    case AccountPassword =>
    case AccountReference =>
    case LockedPrice =>
  }

  lemma EmptySignsLikeNull(cfg: AurigaConfig, p: Payload, f: OptionalField)
    ensures CreateSignatureInput(cfg, SetField(p, f, Some(""))) == CreateSignatureInput(cfg, SetField(p, f, None))
  {
    assert Text(Some("")) == Text(None);
    match f
    case Special =>
    case ProviderId =>
    case UrlHook =>
    case Account =>
    case AccountPassword =>
    case AccountReference =>
    case LockedPrice =>
  }

  /** A destination address lengthens the input by exactly its seven fields. */
  lemma DestinationChangesInput(cfg: AurigaConfig, p: Payload, a: Address)
    ensures |CreateSignatureInput(cfg, p.(destinationAddress := Some(a)))| ==
            |CreateSignatureInput(cfg, p.(destinationAddress := None))| + |AddressText(a)|
  {
  }

  /** The preferences lengthen the input by exactly the lengths of their codes. */
  lemma PreferencesChangeInput(cfg: AurigaConfig, p: Payload, prefs: seq<string>)
    ensures |CreateSignatureInput(cfg, p.(preferences := Some(prefs)))| ==
            |CreateSignatureInput(cfg, p.(preferences := None))| + TotalLength(prefs)
  {
    ConcatLength(prefs);
  }

  /**
   * The pieces are joined without separators, so moving a byte from the end of the
   * client name to the front of the phone number signs the same string.
   */
  lemma NameAndPhoneCanTradeBytes(cfg: AurigaConfig, p: Payload, name: string, c: char, phone: string)
    ensures CreateSignatureInput(cfg, p.(clientName := Some(name + [c]), phoneNumber := Some(phone))) ==
            CreateSignatureInput(cfg, p.(clientName := Some(name), phoneNumber := Some([c] + phone)))
  {
    var p1 := p.(clientName := Some(name + [c]), phoneNumber := Some(phone));
    var p2 := p.(clientName := Some(name), phoneNumber := Some([c] + phone));
    var x := cfg.clientKey + cfg.clientId + p.bookingDate;
    assert x + Text(p1.clientName) + Text(p1.phoneNumber) == x + Text(p2.clientName) + Text(p2.phoneNumber) by {
      assert x + (name + [c]) + phone == x + name + ([c] + phone);
    }
    assert DestinationText(p1) == DestinationText(p2);
    assert PreferencesText(p1) == PreferencesText(p2);
    assert FlightText(p1) == FlightText(p2);
  }

  // ---------------------------------------------------------------------------
  // Cancel signature and the authorization header
  // ---------------------------------------------------------------------------

  /** cancelarEnAuriga: key, client id and booking id, with nothing in between. */
  function CancelSignatureInput(cfg: AurigaConfig, bookingId: string): (s: string)
    ensures |s| == |cfg.clientKey| + |cfg.clientId| + |bookingId|
    ensures s[..|cfg.clientKey|] == cfg.clientKey
    ensures s[|s| - |bookingId|..] == bookingId
    ensures s[|cfg.clientKey|..|cfg.clientKey| + |cfg.clientId|] == cfg.clientId
  {
    cfg.clientKey + cfg.clientId + bookingId
  }

  /**
   * With the other two parts fixed, the cancel input determines the booking id, the
   * client id and (when the client ids have equal length) the key.
   */
  lemma CancelSignatureInjective(k1: string, c1: string, b1: string, k2: string, c2: string, b2: string)
    requires CancelSignatureInput(AurigaConfig(k1, c1, ""), b1) == CancelSignatureInput(AurigaConfig(k2, c2, ""), b2)
    ensures k1 == k2 && c1 == c2 ==> b1 == b2
    ensures k1 == k2 && b1 == b2 ==> c1 == c2
    ensures c1 == c2 && b1 == b2 ==> k1 == k2
  {
    var s := k1 + c1 + b1;
    if k1 == k2 && c1 == c2 {
      assert b1 == s[|k1| + |c1|..];
    }
    if k1 == k2 && b1 == b2 {
      assert c1 == s[|k1|..|k1| + |c1|];
    }
    if c1 == c2 && b1 == b2 {
      assert k1 == s[..|k1|];
    }
  }

  /** `clientId . ':' . signature`. */
  function AuthHeader(clientId: string, digest: string): (h: string)
    ensures |h| == |clientId| + 1 + |digest|
  {
    clientId + ":" + digest
  }

  /** A header splits back into its client id and digest when neither holds a ':'. */
  lemma AuthHeaderSplits(clientId: string, digest: string)
    requires ':' !in clientId && ':' !in digest
    ensures Split(AuthHeader(clientId, digest), ':') == [clientId, digest]
  {
    assert Join([clientId, digest], ':') == AuthHeader(clientId, digest) by {
      assert [clientId, digest][1..] == [digest];
    }
    SplitJoin([clientId, digest], ':');
  }
}
