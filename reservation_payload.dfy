/**
 * The booking data `create` assembles for the provider, and the JSON body
 * enviarReservaAuriga sends: every key present, in the provider's fixed order,
 * with unused fields sent as null.
 */
module ReservationPayload {
  import opened Wrappers
  import opened PhpString
  import opened Json
  import opened ReservationFormat
  import opened ReservationAddress

  /** The decoded request body of `create`; properties the client left out are None or JNull. */
  datatype BookingRequest = BookingRequest(
    bookingDate: Option<string>,
    pickupAddress: Option<Place>,
    numberOfPassengers: Json,
    childSeat: Json,
    vehicle56Seats: Json,
    vehicle7Seats: Json,
    destinationAddress: Option<Place>,
    specialInstructions: Option<string>)

  /** The user's stored row; a user that is not found reads as all fields null. */
  datatype UserRow = UserRow(name: Option<string>, phone: Option<string>, account: Option<string>, email: Option<string>)

  datatype Address = Address(
    latitude: string, longitude: string,
    bldgNumber: string, street: string, locality: string, town: string, country: string)

  datatype Flight = Flight(flightNo: string, arrivalTime: string, origin: string)

  datatype Payload = Payload(
    phoneNumber: Option<string>,
    clientName: Option<string>,
    pickupAddress: Address,
    bookingDate: string,
    destinationAddress: Option<Address>,
    special: Option<string>,
    preferences: Option<seq<string>>,
    providerId: Option<string>,
    urlHook: Option<string>,
    flight: Option<Flight>,
    account: Option<string>,
    accountPassword: Option<string>,
    accountReference: Option<string>,
    lockedPrice: Option<string>,
    customerEmail: Option<string>,
    customerPaymentMethodId: Option<string>,
    bookingId: Option<string>,
    providerName: Option<string>,
    providerTelephone: Option<string>,
    serviceId: Option<string>)

  /** The three inputs `create` insists on, each tested with empty(). */
  predicate IsCompleteRequest(r: BookingRequest) {
    !IsEmptyOpt(r.bookingDate) && r.pickupAddress.Some? && !IsEmptyProperty(r.numberOfPassengers)
  }

  /**
   * Each required input must be present and not PHP-empty: a date that is neither
   * "" nor "0", a pickup, and a passenger count that is not null, false, 0, "", "0" or [].
   */
  lemma IsCompleteRequestMeaning(r: BookingRequest)
    ensures IsCompleteRequest(r) <==>
              && r.bookingDate.Some? && r.bookingDate.value != "" && r.bookingDate.value != "0"
              && r.pickupAddress.Some?
              && r.numberOfPassengers !in {JNull, JBool(false), JInt(0), JStr(""), JStr("0"), JArr([])}
  {
    IsEmptyPropertyMeaning(r.numberOfPassengers);
  }

  /** A flag counts only when it is the boolean true itself. */
  predicate IsTrue(j: Json) {
    j == JBool(true)
  }

  /** The codes of a request's flags. */
  function RequestPreferences(r: BookingRequest): (codes: seq<string>)
    requires r.pickupAddress.Some?
    ensures ChildSeatCode in codes <==> r.childSeat == JBool(true)
    ensures Vehicle56SeatsCode in codes <==> r.vehicle56Seats == JBool(true)
    ensures Vehicle7SeatsCode in codes <==> r.vehicle7Seats == JBool(true)
    ensures AirportPickupCode in codes <==> r.pickupAddress.value.kind == Some("airport")
    ensures |codes| <= 4
  {
    PreferenceCodesOrdered(IsTrue(r.childSeat), IsTrue(r.vehicle56Seats), IsTrue(r.vehicle7Seats), r.pickupAddress.value.kind);
    PreferenceCodes(IsTrue(r.childSeat), IsTrue(r.vehicle56Seats), IsTrue(r.vehicle7Seats), r.pickupAddress.value.kind)
  }

  /** A place's coordinates, formatted, with its extracted components. */
  function AddressOf(p: Place, c: Components): (a: Address)
    ensures a.latitude == CoordinateText(p.latitude) && a.longitude == CoordinateText(p.longitude)
    ensures Components(a.bldgNumber, a.street, a.locality, a.town, a.country) == c
  {
    Address(CoordinateText(p.latitude), CoordinateText(p.longitude), c.bldgNumber, c.street, c.locality, c.town, c.country)
  }

  /**
   * The flight block: only for an 'airport' pickup with a flight number and an origin,
   * both non-empty; the number is cut to 10 bytes and the origin to 30.
   */
  function FlightOf(pickup: Place, hourMinute: string): (r: Option<Flight>)
    ensures r.Some? <==> pickup.kind == Some("airport") && !IsEmptyOpt(pickup.flightNumber) && !IsEmptyOpt(pickup.flightOrigin)
    ensures r.Some? ==>
              && r.value.flightNo <= pickup.flightNumber.value && |r.value.flightNo| <= 10
              && (|pickup.flightNumber.value| <= 10 ==> r.value.flightNo == pickup.flightNumber.value)
              && r.value.origin <= pickup.flightOrigin.value && |r.value.origin| <= 30
              && (|pickup.flightOrigin.value| <= 30 ==> r.value.origin == pickup.flightOrigin.value)
              && r.value.arrivalTime == hourMinute
    ensures r.Some? ==>
              && (|pickup.flightNumber.value| > 10 ==> r.value.flightNo == pickup.flightNumber.value[..10])
              && (|pickup.flightOrigin.value| > 30 ==> r.value.origin == pickup.flightOrigin.value[..30])
  {
    if pickup.kind == Some("airport") && !IsEmptyOpt(pickup.flightNumber) && !IsEmptyOpt(pickup.flightOrigin) then
      Some(Flight(Truncate(pickup.flightNumber.value, 10), hourMinute, Truncate(pickup.flightOrigin.value, 30)))
    else None
  }

  /** `special`: the instructions when set and not empty, null otherwise. */
  function SpecialField(s: Option<string>): (r: Option<string>)
    ensures r.Some? <==> !IsEmptyOpt(s)
    ensures r.Some? ==> r == s
  {
    if IsEmptyOpt(s) then None else s
  }

  /**
   * The booking data of `create` for a complete request. `bookingDate` is the
   * normalised booking date and `hourMinute` stands for date('Hi').
   */
  function BookingPayload(r: BookingRequest, user: UserRow, bookingDate: string, hourMinute: string): (p: Payload)
    requires r.pickupAddress.Some?
    ensures p.phoneNumber == user.phone && p.account == user.account
    ensures p.clientName == ClientNameField(user.name)
    ensures p.clientName.Some? ==> |p.clientName.value| < 30
    ensures p.bookingDate == bookingDate
    ensures p.pickupAddress == AddressOf(r.pickupAddress.value, Extract(r.pickupAddress.value))
    ensures p.destinationAddress.Some? <==> r.destinationAddress.Some?
    ensures r.destinationAddress.Some? ==>
              p.destinationAddress.value == AddressOf(r.destinationAddress.value, Extract(r.destinationAddress.value))
    ensures p.special == SpecialField(r.specialInstructions)
    ensures p.preferences == PreferencesField(RequestPreferences(r))
    ensures p.flight == FlightOf(r.pickupAddress.value, hourMinute)
    ensures p.providerId.None? && p.urlHook.None? && p.accountPassword.None? && p.accountReference.None?
    ensures p.lockedPrice.None? && p.customerEmail.None? && p.customerPaymentMethodId.None?
    ensures p.bookingId.None? && p.providerName.None? && p.providerTelephone.None? && p.serviceId.None?
  {
    var pickup := r.pickupAddress.value;
    Payload(
      user.phone, ClientNameField(user.name), AddressOf(pickup, Extract(pickup)), bookingDate,
      if r.destinationAddress.Some? then Some(AddressOf(r.destinationAddress.value, Extract(r.destinationAddress.value))) else None,
      SpecialField(r.specialInstructions), PreferencesField(RequestPreferences(r)),
      None, None, FlightOf(pickup, hourMinute), user.account,
      None, None, None, None, None, None, None, None, None)
  }

  // ---------------------------------------------------------------------------
  // The JSON body
  // ---------------------------------------------------------------------------

  /** The provider's key order for the create body. */
  const BodyKeys: seq<string> := [
    "phoneNumber", "clientName", "bookingDate", "special", "preferences", "providerId",
    "urlHook", "flight", "account", "accountPassword", "accountReference", "lockedPrice",
    "customerEmail", "customerPaymentMethodId", "bookingId", "providerName",
    "providerTelephone", "serviceId", "pickupAddress", "destinationAddress"]

  const AddressKeys: seq<string> := ["latitude", "longitude", "bldgNumber", "street", "locality", "town", "country"]

  /** A nullable string as JSON. */
  function OptJson(o: Option<string>): (j: Json)
    ensures j == JNull <==> o.None?
  {
    if o.None? then JNull else JStr(o.value)
  }

  function AddressJson(a: Address): (j: Json)
    ensures j.JObj? && Keys(j.members) == AddressKeys
  {
    JObj([("latitude", JStr(a.latitude)), ("longitude", JStr(a.longitude)),
          ("bldgNumber", JStr(a.bldgNumber)), ("street", JStr(a.street)),
          ("locality", JStr(a.locality)), ("town", JStr(a.town)), ("country", JStr(a.country))])
  }

  function FlightJson(f: Option<Flight>): Json {
    if f.None? then JNull
    else JObj([("flightNo", JStr(f.value.flightNo)), ("arrivalTime", JStr(f.value.arrivalTime)),
               ("origin", JStr(f.value.origin))])
  }

  function PreferencesJson(prefs: Option<seq<string>>): Json {
    if prefs.None? then JNull
    else JArr(seq(|prefs.value|, i requires 0 <= i < |prefs.value| => JStr(prefs.value[i])))
  }

  /** Keys and values paired up in order. */
  function Pair(ks: seq<string>, vs: seq<Json>): (m: seq<(string, Json)>)
    requires |ks| == |vs|
    ensures Keys(m) == ks
    ensures |m| == |vs| && forall i :: 0 <= i < |m| ==> m[i].1 == vs[i]
  {
    seq(|ks|, i requires 0 <= i < |ks| => (ks[i], vs[i]))
  }

  /** The value the create body sends under BodyKeys[i]. */
  function BodyValue(p: Payload, i: nat): Json
    requires i < |BodyKeys|
  {
    match i
    case 0 => OptJson(p.phoneNumber)
    case 1 => OptJson(p.clientName)
    case 2 => JStr(p.bookingDate)
    case 3 => OptJson(p.special)
    case 4 => PreferencesJson(p.preferences)
    case 5 => OptJson(p.providerId)
    case 6 => OptJson(p.urlHook)
    case 7 => FlightJson(p.flight)
    case 8 => OptJson(p.account)
    case 9 => OptJson(p.accountPassword)
    case 10 => OptJson(p.accountReference)
    case 11 => OptJson(p.lockedPrice)
    case 12 => OptJson(p.customerEmail)
    case 13 => OptJson(p.customerPaymentMethodId)
    case 14 => OptJson(p.bookingId)
    case 15 => OptJson(p.providerName)
    case 16 => OptJson(p.providerTelephone)
    case 17 => OptJson(p.serviceId)
    case 18 => AddressJson(p.pickupAddress)
    case _ => if p.destinationAddress.None? then JNull else AddressJson(p.destinationAddress.value)
  }

  /**
   * $bookingDataClean: all twenty keys in the provider's order, each present whether
   * or not it holds a value, each holding the value BodyValue sends for it.
   */
  function PayloadBody(p: Payload): (body: seq<(string, Json)>)
    ensures Keys(body) == BodyKeys
    ensures forall i :: 0 <= i < |body| ==> body[i].1 == BodyValue(p, i)
  {
    Pair(BodyKeys, seq(|BodyKeys|, i requires 0 <= i < |BodyKeys| => BodyValue(p, i)))
  }

  /** An optional field of the body is null exactly when the payload lacks it. */
  lemma BodyNullWhenAbsent(p: Payload)
    ensures PayloadBody(p)[3].1 == JNull <==> p.special.None?
    ensures PayloadBody(p)[4].1 == JNull <==> p.preferences.None?
    ensures PayloadBody(p)[7].1 == JNull <==> p.flight.None?
    ensures PayloadBody(p)[14].1 == JNull <==> p.bookingId.None?
    ensures PayloadBody(p)[19].1 == JNull <==> p.destinationAddress.None?
    ensures PayloadBody(p)[18].1 == AddressJson(p.pickupAddress)
  {
    var body := PayloadBody(p);
    assert body[3].1 == BodyValue(p, 3);
    assert body[4].1 == BodyValue(p, 4);
    assert body[7].1 == BodyValue(p, 7);
    assert body[14].1 == BodyValue(p, 14);
    assert body[18].1 == BodyValue(p, 18);
    assert body[19].1 == BodyValue(p, 19);
  }

  /** The body of a payload without the fields create never fills sends them as explicit nulls. */
  lemma UnfilledFieldsNull(p: Payload)
    requires p.providerId.None? && p.urlHook.None? && p.accountPassword.None? && p.accountReference.None?
    requires p.lockedPrice.None? && p.customerEmail.None? && p.customerPaymentMethodId.None?
    requires p.bookingId.None? && p.providerName.None? && p.providerTelephone.None? && p.serviceId.None?
    ensures var body := PayloadBody(p);
            forall i :: i in {5, 6, 9, 10, 11, 12, 13, 14, 15, 16, 17} ==> body[i].1 == JNull
  {
    var body := PayloadBody(p);
    assert body[5].1 == BodyValue(p, 5) == JNull;
    assert body[6].1 == BodyValue(p, 6) == JNull;
    assert body[9].1 == BodyValue(p, 9) == JNull;
    assert body[10].1 == BodyValue(p, 10) == JNull;
    assert body[11].1 == BodyValue(p, 11) == JNull;
    assert body[12].1 == BodyValue(p, 12) == JNull;
    assert body[13].1 == BodyValue(p, 13) == JNull;
    assert body[14].1 == BodyValue(p, 14) == JNull;
    assert body[15].1 == BodyValue(p, 15) == JNull;
    assert body[16].1 == BodyValue(p, 16) == JNull;
    assert body[17].1 == BodyValue(p, 17) == JNull;
  }

  /** The body of a freshly built payload sends every unused field as an explicit null. */
  lemma BookingBodyKeepsNulls(r: BookingRequest, user: UserRow, bookingDate: string, hourMinute: string)
    requires r.pickupAddress.Some?
    ensures var body := PayloadBody(BookingPayload(r, user, bookingDate, hourMinute));
            forall i :: i in {5, 6, 9, 10, 11, 12, 13, 14, 15, 16, 17} ==> body[i].1 == JNull
  {
    UnfilledFieldsNull(BookingPayload(r, user, bookingDate, hourMinute));
  }
}
