/**
 * The reservation controller's two state-changing operations: `create`, which
 * validates, builds and signs the booking, sends it and records it only when the
 * provider accepted it; and `cancelReservation`, which refuses unknown, cancelled and
 * past bookings before calling the provider, and marks the record cancelled only
 * once the provider confirmed.
 */
module ReservationController {
  import opened Wrappers
  import opened PhpString
  import opened Json
  import opened ReservationFormat
  import opened ReservationAddress
  import opened ReservationPayload
  import opened ReservationSignature
  import opened AurigaClient

  /** A row of reservation_logs. `status` is None until a cancel writes it. */
  datatype Reservation = Reservation(
    id: nat,
    userId: int,
    bookingId: string,
    bookingDate: string,
    clientName: Option<string>,
    clientPhone: Option<string>,
    special: Option<string>,
    providerName: Json,
    serviceId: Json,
    request: Payload,
    response: Json,
    status: Option<string>,
    cancelledAt: Option<string>,
    cancellationReason: Option<string>,
    cancelTrace: Option<(Request, Answer)>)

  const CancelledStatus := "cancelled"
  const CancelReason := "Cancelado por el usuario"

  /** The WHERE clause of the cancel lookup. */
  predicate Matches(r: Reservation, bookingId: string, userId: int) {
    r.bookingId == bookingId && r.userId == userId
  }

  /** The row the lookup fetches: the first matching one. */
  function FirstMatch(rows: seq<Reservation>, bookingId: string, userId: int): (r: Option<nat>)
    ensures r.None? <==> forall k :: 0 <= k < |rows| ==> !Matches(rows[k], bookingId, userId)
    ensures r.Some? ==> r.value < |rows| && Matches(rows[r.value], bookingId, userId)
    ensures r.Some? ==> forall k :: 0 <= k < r.value ==> !Matches(rows[k], bookingId, userId)
    decreases |rows|
  {
    if rows == [] then None
    else if Matches(rows[0], bookingId, userId) then Some(0)
    else
      var r := FirstMatch(rows[1..], bookingId, userId);
      if r.None? then None else Some(r.value + 1)
  }

  /** A row after the cancel's UPDATE. */
  function CancelledRow(r: Reservation, at: string, trace: (Request, Answer)): Reservation {
    r.(status := Some(CancelledStatus), cancelledAt := Some(at), cancellationReason := Some(CancelReason),
       cancelTrace := Some(trace))
  }

  /** `UPDATE reservation_logs SET ... WHERE id = ?`: every row with that id. */
  function CancelRows(rows: seq<Reservation>, id: nat, at: string, trace: (Request, Answer)): (r: seq<Reservation>)
    ensures |r| == |rows| && forall k :: 0 <= k < |rows| ==> r[k].id == rows[k].id
  {
    seq(|rows|, k requires 0 <= k < |rows| => if rows[k].id == id then CancelledRow(rows[k], at, trace) else rows[k])
  }

  /** Row ids are distinct and below the next id to hand out. */
  predicate UniqueIds(rows: seq<Reservation>, nextId: nat) {
    && (forall k :: 0 <= k < |rows| ==> rows[k].id < nextId)
    && (forall k, l :: 0 <= k < l < |rows| ==> rows[k].id != rows[l].id)
  }

  /** With distinct ids the UPDATE touches exactly one row, and the cancel lookup finds it again. */
  lemma CancelRowsTouchesOne(rows: seq<Reservation>, nextId: nat, i: nat, at: string, trace: (Request, Answer))
    requires UniqueIds(rows, nextId) && i < |rows|
    ensures CancelRows(rows, rows[i].id, at, trace) == rows[i := CancelledRow(rows[i], at, trace)]
    ensures UniqueIds(CancelRows(rows, rows[i].id, at, trace), nextId)
  {
  }

  /** A cancelled booking is found again by the same lookup, now marked cancelled. */
  lemma CancelledIsFoundCancelled(rows: seq<Reservation>, nextId: nat, bookingId: string, userId: int,
                                  at: string, trace: (Request, Answer))
    requires UniqueIds(rows, nextId) && FirstMatch(rows, bookingId, userId).Some?
    ensures var i := FirstMatch(rows, bookingId, userId).value;
            var after := CancelRows(rows, rows[i].id, at, trace);
            FirstMatch(after, bookingId, userId) == Some(i) && after[i].status == Some(CancelledStatus)
  {
    var i := FirstMatch(rows, bookingId, userId).value;
    CancelRowsTouchesOne(rows, nextId, i, at, trace);
    var after := CancelRows(rows, rows[i].id, at, trace);
    assert forall k :: 0 <= k < |after| ==> Matches(after[k], bookingId, userId) == Matches(rows[k], bookingId, userId);
    FirstMatchSame(rows, after, bookingId, userId);
  }

  lemma {:induction false} FirstMatchSame(a: seq<Reservation>, b: seq<Reservation>, bookingId: string, userId: int)
    requires |a| == |b|
    requires forall k :: 0 <= k < |a| ==> Matches(a[k], bookingId, userId) == Matches(b[k], bookingId, userId)
    ensures FirstMatch(a, bookingId, userId) == FirstMatch(b, bookingId, userId)
    decreases |a|
  {
    if a != [] {
      FirstMatchSame(a[1..], b[1..], bookingId, userId);
    }
  }

  /** The reservation_logs table. */
  class ReservationLog {
    var rows: seq<Reservation>
    var nextId: nat

    ghost predicate Valid()
      reads this
    {
      UniqueIds(rows, nextId)
    }

    constructor ()
      ensures Valid() && rows == [] && nextId == 1
    {
      rows := [];
      nextId := 1;
    }

    /** INSERT: the row gets the next id, which lastInsertId() reports. */
    method Insert(r: Reservation) returns (id: nat)
      requires Valid()
      modifies this
      ensures Valid()
      ensures id == old(nextId) && nextId == old(nextId) + 1
      ensures rows == old(rows) + [r.(id := id)]
    {
      id := nextId;
      rows := rows + [r.(id := id)];
      nextId := nextId + 1;
    }

    /** SELECT ... WHERE booking_id_auriga = ? AND user_id = ?, first row. */
    method Find(bookingId: string, userId: int) returns (i: Option<nat>)
      ensures i == FirstMatch(rows, bookingId, userId)
    {
      var k := 0;
      while k < |rows|
        invariant 0 <= k <= |rows|
        invariant forall j :: 0 <= j < k ==> !Matches(rows[j], bookingId, userId)
      {
        if Matches(rows[k], bookingId, userId) {
          FirstMatchIs(rows, bookingId, userId, k);
          return Some(k);
        }
        k := k + 1;
      }
      return None;
    }

    /** UPDATE ... SET status = 'cancelled', ... WHERE id = ? */
    method MarkCancelled(id: nat, at: string, trace: (Request, Answer))
      requires Valid()
      modifies this
      ensures Valid()
      ensures rows == CancelRows(old(rows), id, at, trace) && nextId == old(nextId)
    {
      var k := 0;
      ghost var before := rows;
      while k < |rows|
        invariant 0 <= k <= |rows| == |before| && nextId == old(nextId)
        invariant forall j :: 0 <= j < k ==> rows[j] == CancelRows(before, id, at, trace)[j]
        invariant forall j :: k <= j < |rows| ==> rows[j] == before[j]
      {
        if rows[k].id == id {
          rows := rows[k := CancelledRow(rows[k], at, trace)];
        }
        k := k + 1;
      }
      assert rows == CancelRows(before, id, at, trace);
    }
  }

  lemma {:induction false} FirstMatchIs(rows: seq<Reservation>, bookingId: string, userId: int, k: nat)
    requires k < |rows| && Matches(rows[k], bookingId, userId)
    requires forall j :: 0 <= j < k ==> !Matches(rows[j], bookingId, userId)
    ensures FirstMatch(rows, bookingId, userId) == Some(k)
    decreases k
  {
    if k > 0 {
      FirstMatchIs(rows[1..], bookingId, userId, k - 1);
    }
  }

  // ---------------------------------------------------------------------------
  // create
  // ---------------------------------------------------------------------------

  /** What an operation did outside the controller, in order. */
  datatype Effect = LookupUser(userId: int) | Sign(input: string) | Send(request: Request)

  datatype CreateOutcome =
    | Incomplete
    | Booked(reservationId: nat, bookingId: Json, serviceId: Json, providerName: Json)
    | NotBooked(error: string, response: Json, rawResponse: Option<string>, httpCode: int)

  /** The HTTP status `create` answers with: 201 only for a booking, 400 for both refusals. */
  function CreateStatus(o: CreateOutcome): (code: int)
    ensures code == 201 <==> o.Booked?
    ensures o.Incomplete? || o.NotBooked? ==> code == 400
  {
    if o.Booked? then 201 else 400
  }

  /** The booking data of a complete request; `toLocal` stands for date(..., strtotime(...)). */
  function ExpectedPayload(r: BookingRequest, user: UserRow, toLocal: string -> string, hourMinute: string): Payload
    requires IsCompleteRequest(r)
  {
    var d := r.bookingDate.value;
    BookingPayload(r, user, NormalizeBookingDate(d, toLocal(d)), hourMinute)
  }

  /** The row guardarReservaEnBD inserts for an accepted booking. */
  function NewReservation(userId: int, p: Payload, data: Json): Reservation {
    Reservation(0, userId, ScalarText(Get(data, "bookingId")), p.bookingDate, p.clientName, p.phoneNumber,
                p.special, Get(data, "providerName"), Get(data, "serviceId"), p, data, None, None, None, None)
  }

  /** The failure reply for a provider verdict other than Created. */
  function NotBookedOf(v: CreateResult): CreateOutcome
    requires !v.Created?
  {
    if v.Rejected? then NotBooked(v.error, v.response, Some(v.rawResponse), v.httpCode)
    else NotBooked(v.error, JNull, None, v.httpCode)
  }

  /** The request `create` sends for booking data `p`, signed with `sha1`. */
  function SignedCreateRequest(cfg: AurigaConfig, p: Payload, sha1: string -> string): Request {
    CreateRequest(cfg, AuthHeader(cfg.clientId, sha1(CreateSignatureInput(cfg, p))), p)
  }

  /** The outcome and the table after the provider answered `answer` to booking `p`. */
  predicate CreateRecorded(log: ReservationLog, rows0: seq<Reservation>, next0: nat, userId: int, p: Payload,
                           answer: Answer, out: CreateOutcome)
    reads log
  {
    var verdict := ClassifyCreate(answer);
    && (verdict.Created? ==>
          && out == Booked(next0, Get(verdict.data, "bookingId"), Get(verdict.data, "serviceId"),
                           Get(verdict.data, "providerName"))
          && log.rows == rows0 + [NewReservation(userId, p, verdict.data).(id := next0)])
    && (!verdict.Created? ==> out == NotBookedOf(verdict) && log.rows == rows0)
    && log.nextId == next0 + (if verdict.Created? then 1 else 0)
  }

  /**
   * `create`. `users` is the user table, `sha1` the digest, `respond` the provider,
   * `toLocal` the server-time rendering of a date and `hourMinute` date('Hi').
   */
  method Create(log: ReservationLog, cfg: AurigaConfig, userId: int, r: BookingRequest, users: int -> UserRow,
                sha1: string -> string, toLocal: string -> string, hourMinute: string, respond: Request -> Answer)
    returns (out: CreateOutcome, effects: seq<Effect>)
    requires log.Valid()
    modifies log
    ensures log.Valid()
    ensures CreateStatus(out) != 201 ==> log.rows == old(log.rows) && log.nextId == old(log.nextId)
    ensures CreateStatus(out) == 201 ==> |log.rows| == |old(log.rows)| + 1
    ensures !IsCompleteRequest(r) ==>
              out == Incomplete && effects == [] && log.rows == old(log.rows) && log.nextId == old(log.nextId)
    ensures IsCompleteRequest(r) ==>
              var p := ExpectedPayload(r, users(userId), toLocal, hourMinute);
              var request := SignedCreateRequest(cfg, p, sha1);
              && effects == [LookupUser(userId), Sign(CreateSignatureInput(cfg, p)), Send(request)]
              && CreateRecorded(log, old(log.rows), old(log.nextId), userId, p, respond(request), out)
  {
    if IsEmptyOpt(r.bookingDate) || r.pickupAddress.None? || IsEmptyProperty(r.numberOfPassengers) {
      return Incomplete, [];
    }
    var user := users(userId);
    var p := BuildPayload(r, user, toLocal, hourMinute);
    var sent;
    out, sent := SendBooking(log, cfg, userId, p, sha1, respond);
    effects := [LookupUser(userId)] + sent;
    PrependOne(LookupUser(userId), sent[0], sent[1]);
  }

  /** One element before a two-element list makes a three-element list. */
  lemma PrependOne<T>(a: T, b: T, c: T)
    ensures [a] + [b, c] == [a, b, c]
  {
  }

  /**
   * The second half of `create`: sign the booking data, send it to the provider, and
   * record the booking only when the provider accepted it.
   */
  method SendBooking(log: ReservationLog, cfg: AurigaConfig, userId: int, p: Payload,
                     sha1: string -> string, respond: Request -> Answer)
    returns (out: CreateOutcome, effects: seq<Effect>)
    requires log.Valid()
    modifies log
    ensures log.Valid()
    ensures effects == [Sign(CreateSignatureInput(cfg, p)), Send(SignedCreateRequest(cfg, p, sha1))]
    ensures CreateRecorded(log, old(log.rows), old(log.nextId), userId, p, respond(SignedCreateRequest(cfg, p, sha1)), out)
  {
    var input := BuildCreateSignatureString(cfg, p);
    var header := AuthHeader(cfg.clientId, sha1(input));
    var request := CreateRequest(cfg, header, p);
    effects := [Sign(input), Send(request)];
    var verdict := ClassifyCreate(respond(request));
    if verdict.Created? {
      var id := log.Insert(NewReservation(userId, p, verdict.data));
      out := Booked(id, Get(verdict.data, "bookingId"), Get(verdict.data, "serviceId"), Get(verdict.data, "providerName"));
    } else {
      out := NotBookedOf(verdict);
    }
  }

  /**
   * The first half of `create`: the preferences, the addresses, the date and the flight
   * of the booking data, assigned one by one; ExpectedPayload is the resulting value.
   */
  method BuildPayload(r: BookingRequest, user: UserRow, toLocal: string -> string, hourMinute: string) returns (p: Payload)
    requires IsCompleteRequest(r)
    ensures p == ExpectedPayload(r, user, toLocal, hourMinute)
  {
    var pickup := r.pickupAddress.value;
    var prefs := BuildPreferences(IsTrue(r.childSeat), IsTrue(r.vehicle56Seats), IsTrue(r.vehicle7Seats), pickup.kind);
    var pickupComponents := ExtractAddressComponents(pickup);
    var original := r.bookingDate.value;
    var bookingDate := NormalizeBookingDate(original, toLocal(original));
    var destination: Option<Address> := None;
    if r.destinationAddress.Some? {
      var c := ExtractAddressComponents(r.destinationAddress.value);
      destination := Some(AddressOf(r.destinationAddress.value, c));
    }
    var flight: Option<Flight> := None;
    if pickup.kind == Some("airport") && !IsEmptyOpt(pickup.flightNumber) && !IsEmptyOpt(pickup.flightOrigin) {
      flight := Some(Flight(Truncate(pickup.flightNumber.value, 10), hourMinute, Truncate(pickup.flightOrigin.value, 30)));
    }
    assert flight == FlightOf(pickup, hourMinute);
    assert prefs == RequestPreferences(r) && pickupComponents == Extract(pickup);
    assert destination == if r.destinationAddress.Some? then
        Some(AddressOf(r.destinationAddress.value, Extract(r.destinationAddress.value))) else None;
    p := Payload(
      user.phone, ClientNameField(user.name), AddressOf(pickup, pickupComponents), bookingDate, destination,
      SpecialField(r.specialInstructions), PreferencesField(prefs), None, None, flight, user.account,
      None, None, None, None, None, None, None, None, None);
  }

  /** A request missing its booking date is refused before anything leaves the controller. */
  lemma MissingDateIsIncomplete(r: BookingRequest)
    requires r.bookingDate.None? || r.bookingDate == Some("") || r.bookingDate == Some("0")
    ensures !IsCompleteRequest(r)
  {
  }

  /**
   * The body is decoded as objects, so a passenger count sent as an object, even `{}`,
   * passes the empty() test, while null, false, 0, "", "0" and [] do not.
   */
  lemma PassengerCountTest(r: BookingRequest)
    requires !IsEmptyOpt(r.bookingDate) && r.pickupAddress.Some?
    ensures r.numberOfPassengers.JObj? ==> IsCompleteRequest(r)
    ensures r.numberOfPassengers in {JNull, JBool(false), JInt(0), JStr(""), JStr("0"), JArr([])} ==> !IsCompleteRequest(r)
  {
  }

  /** A booked reservation can be looked up by the provider's booking id and its owner. */
  lemma BookedIsFound(rows: seq<Reservation>, nextId: nat, userId: int, p: Payload, data: Json)
    ensures var row := NewReservation(userId, p, data).(id := nextId);
            FirstMatch(rows + [row], ScalarText(Get(data, "bookingId")), userId).Some?
  {
    var row := NewReservation(userId, p, data).(id := nextId);
    assert (rows + [row])[|rows|] == row;
  }

  // ---------------------------------------------------------------------------
  // cancelReservation
  // ---------------------------------------------------------------------------

  datatype CancelOutcome =
    | NotFound
    | AlreadyCancelled
    | PastBooking
    | CancelDone
    | CancelRefused(error: string, trace: (Request, Answer))

  /**
   * The HTTP status `cancelReservation` answers with: 404 for an unknown booking, the
   * default 200 for a cancelled one, 400 for every other refusal.
   */
  function CancelStatus(o: CancelOutcome): (code: int)
    ensures code == 404 <==> o.NotFound?
    ensures code == 200 <==> o.CancelDone?
    ensures o.AlreadyCancelled? || o.PastBooking? || o.CancelRefused? ==> code == 400
  {
    match o
    case NotFound => 404
    case CancelDone => 200
    case _ => 400
  }

  /**
   * `cancelReservation`. `instantOf` reads a stored booking date as an instant, `now`
   * is the current instant and `cancelledAt` the text NOW() writes.
   */
  method CancelReservation(log: ReservationLog, cfg: AurigaConfig, userId: int, bookingId: string,
                           now: int, instantOf: string -> int, cancelledAt: string,
                           sha1: string -> string, respond: Request -> Answer)
    returns (out: CancelOutcome, effects: seq<Effect>)
    requires log.Valid()
    modifies log
    ensures log.Valid() && log.nextId == old(log.nextId)
    ensures CancelStatus(out) != 200 ==> log.rows == old(log.rows)
    ensures FirstMatch(old(log.rows), bookingId, userId).None? ==>
              out == NotFound && effects == [] && log.rows == old(log.rows)
    ensures FirstMatch(old(log.rows), bookingId, userId).Some? ==>
              var row := old(log.rows)[FirstMatch(old(log.rows), bookingId, userId).value];
              var input := CancelSignatureInput(cfg, bookingId);
              var request := CancelRequest(cfg, bookingId, sha1(input));
              var answer := respond(request);
              && (row.status == Some(CancelledStatus) ==>
                    out == AlreadyCancelled && effects == [] && log.rows == old(log.rows))
              && (row.status != Some(CancelledStatus) && instantOf(row.bookingDate) <= now ==>
                    out == PastBooking && effects == [] && log.rows == old(log.rows))
              && (row.status != Some(CancelledStatus) && instantOf(row.bookingDate) > now ==>
                    && effects == [Sign(input), Send(request)]
                    && (ClassifyCancel(answer).Cancelled? ==>
                          out == CancelDone && log.rows == CancelRows(old(log.rows), row.id, cancelledAt, (request, answer)))
                    && (ClassifyCancel(answer).CancelFailed? ==>
                          out == CancelRefused(ClassifyCancel(answer).error, (request, answer)) && log.rows == old(log.rows)))
  {
    var found := log.Find(bookingId, userId);
    if found.None? {
      return NotFound, [];
    }
    var row := log.rows[found.value];
    if row.status.Some? && row.status.value == CancelledStatus {
      return AlreadyCancelled, [];
    }
    if instantOf(row.bookingDate) <= now {
      return PastBooking, [];
    }
    var input := CancelSignatureInput(cfg, bookingId);
    var digest := sha1(input);
    var request := CancelRequest(cfg, bookingId, digest);
    var answer := respond(request);
    effects := [Sign(input), Send(request)];
    var verdict := ClassifyCancel(answer);
    if verdict.Cancelled? {
      log.MarkCancelled(row.id, cancelledAt, (request, answer));
      out := CancelDone;
    } else {
      out := CancelRefused(verdict.error, (request, answer));
    }
  }

  /**
   * After a successful cancel, cancelling the same booking again is refused as already
   * cancelled, without a provider call.
   */
  lemma SecondCancelRefused(rows: seq<Reservation>, nextId: nat, bookingId: string, userId: int,
                            at: string, trace: (Request, Answer))
    requires UniqueIds(rows, nextId) && FirstMatch(rows, bookingId, userId).Some?
    ensures var after := CancelRows(rows, rows[FirstMatch(rows, bookingId, userId).value].id, at, trace);
            && FirstMatch(after, bookingId, userId).Some?
            && after[FirstMatch(after, bookingId, userId).value].status == Some(CancelledStatus)
  {
    CancelledIsFoundCancelled(rows, nextId, bookingId, userId, at, trace);
  }
}
