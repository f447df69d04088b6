/**
 * extractAddressComponents: the five address fields the booking provider expects
 * (bldgNumber, street, locality, town, country), taken from a predefined place, from
 * the Google Places components of a mapped place, or from the comma-separated
 * address text.
 */
module ReservationAddress {
  import opened Wrappers
  import opened PhpString

  /**
   * One Google Places address component. A null long_name is read as "": the source
   * stores null, but every later test on it is empty() and the final pass turns null
   * into "", so the outcome is the same.
   */
  datatype AddressComponent = AddressComponent(longName: string, types: seq<string>)

  datatype GooglePlace = GooglePlace(addressComponents: Option<seq<AddressComponent>>, name: Option<string>)

  /** A pickup or destination descriptor as the client sends it; absent properties are None. */
  datatype Place = Place(
    kind: Option<string>,
    address: Option<string>,
    latitude: Option<string>,
    longitude: Option<string>,
    googlePlace: Option<GooglePlace>,
    flightNumber: Option<string>,
    flightOrigin: Option<string>)

  datatype Components = Components(bldgNumber: string, street: string, locality: string, town: string, country: string)

  const NoComponents := Components("", "", "", "", "")

  // ---------------------------------------------------------------------------
  // The component table, branch by branch of the elseif chain
  // ---------------------------------------------------------------------------

  predicate IsBldgComp(x: AddressComponent) {
    "street_number" in x.types
  }

  predicate IsStreetComp(x: AddressComponent) {
    !IsBldgComp(x) && "route" in x.types
  }

  predicate IsLocalityComp(x: AddressComponent) {
    !IsBldgComp(x) && "route" !in x.types
    && ("sublocality" in x.types || "sublocality_level_1" in x.types)
  }

  /** A component that one of the first three branches takes. */
  predicate TakenBefore(x: AddressComponent) {
    "street_number" in x.types || "route" in x.types
    || "sublocality" in x.types || "sublocality_level_1" in x.types
  }

  predicate IsTownComp(x: AddressComponent) {
    !TakenBefore(x) && "locality" in x.types
  }

  predicate IsAdminComp(x: AddressComponent) {
    !TakenBefore(x) && "locality" !in x.types && "administrative_area_level_2" in x.types
  }

  /** A country component that no administrative-area entry stands in front of. */
  predicate IsCountryComp(x: AddressComponent) {
    !TakenBefore(x) && "locality" !in x.types && "administrative_area_level_2" !in x.types
    && "country" in x.types
  }

  /**
   * One pass of the foreach body. An administrative_area_level_2 entry arriving when
   * the town is already set fails its branch and falls through to the country test.
   */
  function ApplyComponent(c: Components, x: AddressComponent): (r: Components)
    ensures r == c || r == c.(bldgNumber := x.longName) || r == c.(street := x.longName)
            || r == c.(locality := x.longName) || r == c.(town := x.longName)
            || r == c.(country := x.longName)
  {
    if "street_number" in x.types then c.(bldgNumber := x.longName)
    else if "route" in x.types then c.(street := x.longName)
    else if "sublocality" in x.types || "sublocality_level_1" in x.types then c.(locality := x.longName)
    else if "locality" in x.types then c.(town := x.longName)
    else if "administrative_area_level_2" in x.types && IsEmpty(c.town) then c.(town := x.longName)
    else if "country" in x.types then c.(country := x.longName)
    else c
  }

  /** The components after the foreach has seen every entry of `xs`, in order. */
  function FoldComponents(c: Components, xs: seq<AddressComponent>): Components
    decreases |xs|
  {
    if xs == [] then c else ApplyComponent(FoldComponents(c, xs[..|xs| - 1]), xs[|xs| - 1])
  }

  /** The long_name of the last entry of `xs` that satisfies `p`. */
  function LastMatch(xs: seq<AddressComponent>, p: AddressComponent -> bool): (r: Option<string>)
    ensures r.None? <==> forall i :: 0 <= i < |xs| ==> !p(xs[i])
    ensures r.Some? ==> exists i :: 0 <= i < |xs| && p(xs[i]) && xs[i].longName == r.value
    decreases |xs|
  {
    if xs == [] then None
    else if p(xs[|xs| - 1]) then Some(xs[|xs| - 1].longName)
    else
      var r := LastMatch(xs[..|xs| - 1], p);
      assert forall i :: 0 <= i < |xs| - 1 ==> xs[..|xs| - 1][i] == xs[i];
      r
  }

  // ---------------------------------------------------------------------------
  // What the loop leaves in each field
  // ---------------------------------------------------------------------------

  /** The building number comes from the last street_number entry. */
  lemma {:induction false} FoldBldgNumber(c: Components, xs: seq<AddressComponent>)
    ensures FoldComponents(c, xs).bldgNumber == LastMatch(xs, IsBldgComp).GetOr(c.bldgNumber)
    decreases |xs|
  {
    if xs != [] {
      FoldBldgNumber(c, xs[..|xs| - 1]);
    }
  }

  /** The street comes from the last route entry that is not also a street number. */
  lemma {:induction false} FoldStreet(c: Components, xs: seq<AddressComponent>)
    ensures FoldComponents(c, xs).street == LastMatch(xs, IsStreetComp).GetOr(c.street)
    decreases |xs|
  {
    if xs != [] {
      FoldStreet(c, xs[..|xs| - 1]);
    }
  }

  /** The locality comes from the last sublocality entry left to that branch. */
  lemma {:induction false} FoldLocality(c: Components, xs: seq<AddressComponent>)
    ensures FoldComponents(c, xs).locality == LastMatch(xs, IsLocalityComp).GetOr(c.locality)
    decreases |xs|
  {
    if xs != [] {
      FoldLocality(c, xs[..|xs| - 1]);
    }
  }

  /**
   * A locality entry with a non-empty name fixes the town: no administrative area
   * listed after it can overwrite it.
   */
  lemma {:induction false} FoldTownFromLocality(c: Components, xs: seq<AddressComponent>, n: string)
    requires LastMatch(xs, IsTownComp) == Some(n) && !IsEmpty(n)
    ensures FoldComponents(c, xs).town == n
    decreases |xs|
  {
    var last := xs[|xs| - 1];
    if !IsTownComp(last) {
      FoldTownFromLocality(c, xs[..|xs| - 1], n);
    }
  }

  /** Without a locality entry, a town that is already set survives every administrative area. */
  lemma {:induction false} FoldTownKept(c: Components, xs: seq<AddressComponent>)
    requires LastMatch(xs, IsTownComp).None? && !IsEmpty(c.town)
    ensures FoldComponents(c, xs).town == c.town
    decreases |xs|
  {
    if xs != [] {
      FoldTownKept(c, xs[..|xs| - 1]);
    }
  }

  /**
   * Without a locality entry and with an empty town, the town comes from the first
   * administrative area whose name is not empty; later ones no longer pass the test.
   */
  lemma {:induction false} FoldTownFromAdmin(c: Components, xs: seq<AddressComponent>, k: nat)
    requires LastMatch(xs, IsTownComp).None? && IsEmpty(c.town)
    requires k < |xs| && IsAdminComp(xs[k]) && !IsEmpty(xs[k].longName)
    requires forall i :: 0 <= i < k ==> IsAdminComp(xs[i]) ==> IsEmpty(xs[i].longName)
    ensures FoldComponents(c, xs).town == xs[k].longName
    decreases |xs|
  {
    var n := |xs| - 1;
    assert forall i :: 0 <= i < n ==> xs[..n][i] == xs[i];
    if k == n {
      FoldTownStaysEmpty(c, xs[..n]);
    } else {
      FoldTownFromAdmin(c, xs[..n], k);
    }
  }

  lemma {:induction false} FoldTownStaysEmpty(c: Components, xs: seq<AddressComponent>)
    requires LastMatch(xs, IsTownComp).None? && IsEmpty(c.town)
    requires forall i :: 0 <= i < |xs| ==> IsAdminComp(xs[i]) ==> IsEmpty(xs[i].longName)
    ensures IsEmpty(FoldComponents(c, xs).town)
    decreases |xs|
  {
    if xs != [] {
      var n := |xs| - 1;
      assert forall i :: 0 <= i < n ==> xs[..n][i] == xs[i];
      FoldTownStaysEmpty(c, xs[..n]);
    }
  }

  /**
   * When no entry is both an administrative area and a country, the country comes
   * from the last country entry left to that branch.
   */
  lemma {:induction false} FoldCountry(c: Components, xs: seq<AddressComponent>)
    requires forall i :: 0 <= i < |xs| ==>
               !("administrative_area_level_2" in xs[i].types && "country" in xs[i].types)
    ensures FoldComponents(c, xs).country == LastMatch(xs, IsCountryComp).GetOr(c.country)
    decreases |xs|
  {
    if xs != [] {
      var n := |xs| - 1;
      assert forall i :: 0 <= i < n ==> xs[..n][i] == xs[i];
      FoldCountry(c, xs[..n]);
      ApplyCountry(FoldComponents(c, xs[..n]), xs[n]);
    }
  }

  lemma ApplyCountry(d: Components, x: AddressComponent)
    requires !("administrative_area_level_2" in x.types && "country" in x.types)
    ensures ApplyComponent(d, x).country == if IsCountryComp(x) then x.longName else d.country
  {
  }

  // ---------------------------------------------------------------------------
  // The whole extraction
  // ---------------------------------------------------------------------------

  predicate IsPredefined(p: Place) {
    p.kind == Some("predefined")
  }

  /** The predefined branch: the whole address is the street, and Barcelona is recognised. */
  function PredefinedComponents(address: string): (c: Components)
  {
    var c := if ContainsIgnoreCase(address, "Barcelona") then NoComponents.(town := "Barcelona", country := "Spain")
             else NoComponents;
    c.(street := address)
  }

  /** The predefined branch keeps the address whole and knows only Barcelona. */
  lemma PredefinedMeaning(address: string)
    ensures var c := PredefinedComponents(address);
            && c.street == address && c.bldgNumber == "" && c.locality == ""
            && (ContainsIgnoreCase(address, "Barcelona") ==> c.town == "Barcelona" && c.country == "Spain")
            && (!ContainsIgnoreCase(address, "Barcelona") ==> c.town == "" && c.country == "")
  { }

  /** The Google Places branch, including the fallback to the place's name. */
  function PlaceComponents(c: Components, g: GooglePlace): (r: Components)
    ensures g.addressComponents.None? ==> r == c
    ensures g.addressComponents.Some? ==>
              var d := FoldComponents(c, g.addressComponents.value);
              && r.(street := d.street) == d
              && (IsEmpty(d.street) && g.name.Some? ==> r.street == g.name.value)
              && (!IsEmpty(d.street) || g.name.None? ==> r == d)
  {
    if g.addressComponents.None? then c
    else
      var d := FoldComponents(c, g.addressComponents.value);
      if IsEmpty(d.street) && g.name.Some? then d.(street := g.name.value) else d
  }

  /** The comma-split fallback over the address text. */
  function CommaComponents(c: Components, address: string): (r: Components)
    ensures r.bldgNumber == c.bldgNumber && r.locality == c.locality
    ensures r.street == Trim(Split(address, ',')[0])
    ensures ',' !in address ==> r.town == c.town && r.country == c.country
  {
    var parts := Split(address, ',');
    assert ',' !in address ==> |parts| == 1 by {
      if ',' !in address { SplitNoDelimiter(address, ','); }
    }
    var d := c.(street := Trim(parts[0]));
    if |parts| > 1 then d.(town := Trim(parts[|parts| - 2]), country := Trim(parts[|parts| - 1])) else d
  }

  /** With a comma, the last two pieces are the town and the country. */
  lemma CommaTownCountry(c: Components, address: string, parts: seq<string>)
    requires parts == Split(address, ',') && |parts| > 1
    ensures CommaComponents(c, address).town == Trim(parts[|parts| - 2])
    ensures CommaComponents(c, address).country == Trim(parts[|parts| - 1])
  { }

  /** The components extractAddressComponents returns for `p`. */
  function Extract(p: Place): (r: Components)
    ensures IsPredefined(p) ==> r.street == p.address.GetOr("")
    ensures !IsPredefined(p) && p.googlePlace.None? && p.address.None? ==> r == NoComponents
    ensures !IsPredefined(p) && !IsEmpty(r.street) && p.googlePlace.None? ==>
              p.address.Some? && r.street == Trim(Split(p.address.value, ',')[0])
  {
    if IsPredefined(p) then PredefinedComponents(p.address.GetOr(""))
    else
      var c := if p.googlePlace.Some? then PlaceComponents(NoComponents, p.googlePlace.value) else NoComponents;
      if IsEmpty(c.street) && p.address.Some? then CommaComponents(c, p.address.value) else c
  }

  /** One turn of the foreach over the Google Places components, as its if/elseif chain: the first type that matches decides (ApplyComponent states it as a value). */
  method ApplyEntry(c: Components, x: AddressComponent) returns (d: Components)
    ensures d == ApplyComponent(c, x)
  {
    d := c;
    if "street_number" in x.types {
      d := d.(bldgNumber := x.longName);
    } else if "route" in x.types {
      d := d.(street := x.longName);
    } else if "sublocality" in x.types || "sublocality_level_1" in x.types {
      d := d.(locality := x.longName);
    } else if "locality" in x.types {
      d := d.(town := x.longName);
    } else if "administrative_area_level_2" in x.types && IsEmpty(d.town) {
      d := d.(town := x.longName);
    } else if "country" in x.types {
      d := d.(country := x.longName);
    }
  }

  /** The foreach over the Google Places components, starting from empty components. */
  method FoldEntries(xs: seq<AddressComponent>) returns (c: Components)
    ensures c == FoldComponents(NoComponents, xs)
  {
    c := NoComponents;
    var i := 0;
    while i < |xs|
      invariant 0 <= i <= |xs|
      invariant c == FoldComponents(NoComponents, xs[..i])
    {
      c := ApplyEntry(c, xs[i]);
      assert xs[..i + 1][..i] == xs[..i];
      i := i + 1;
    }
    assert xs[..i] == xs;
  }

  /** extractAddressComponents, with its foreach over the Google Places components; Extract is the same computation as a function, which the lemmas reason about. */
  method ExtractAddressComponents(p: Place) returns (c: Components)
    ensures c == Extract(p)
  {
    c := NoComponents;
    if IsPredefined(p) {
      var address := p.address.GetOr("");
      if ContainsIgnoreCase(address, "Barcelona") {
        c := c.(town := "Barcelona", country := "Spain");
      }
      c := c.(street := address);
      return;
    }
    if p.googlePlace.Some? && p.googlePlace.value.addressComponents.Some? {
      c := FoldEntries(p.googlePlace.value.addressComponents.value);
      if IsEmpty(c.street) && p.googlePlace.value.name.Some? {
        c := c.(street := p.googlePlace.value.name.value);
      }
    }
    if IsEmpty(c.street) && p.address.Some? {
      c := SplitAddress(c, p.address.value);
    }
  }

  /** The comma-split fallback of extractAddressComponents. */
  method SplitAddress(c: Components, address: string) returns (d: Components)
    ensures d == CommaComponents(c, address)
  {
    var parts := Split(address, ',');
    d := c.(street := Trim(parts[0]));
    if |parts| > 1 {
      d := d.(town := Trim(parts[|parts| - 2]), country := Trim(parts[|parts| - 1]));
    }
  }

  // ---------------------------------------------------------------------------
  // Properties of the extraction
  // ---------------------------------------------------------------------------

  /**
   * A predefined place keeps its whole address text as the street, knows Barcelona
   * (matched without regard to case) and nothing else, and never looks at its Google
   * Places data.
   */
  lemma PredefinedPlace(p: Place, g: Option<GooglePlace>)
    requires IsPredefined(p)
    ensures Extract(p).street == p.address.GetOr("")
    ensures Extract(p).bldgNumber == "" && Extract(p).locality == ""
    ensures ContainsIgnoreCase(p.address.GetOr(""), "Barcelona") ==>
              Extract(p).town == "Barcelona" && Extract(p).country == "Spain"
    ensures !ContainsIgnoreCase(p.address.GetOr(""), "Barcelona") ==>
              Extract(p).town == "" && Extract(p).country == ""
    ensures Extract(p.(googlePlace := g)) == Extract(p)
  {
  }

  /** "Aeropuerto de BARCELONA-El Prat" is recognised as Barcelona, Spain. */
  lemma PredefinedAirportExample()
    ensures Extract(Place(Some("predefined"), Some("Aeropuerto de BARCELONA-El Prat"), None, None, None, None, None))
            == Components("", "Aeropuerto de BARCELONA-El Prat", "", "Barcelona", "Spain")
  {
    var a := "Aeropuerto de BARCELONA-El Prat";
    assert Lower("Barcelona") == "barcelona";
    assert Lower(a)[14..23] == "barcelona";
    assert OccursAt(Lower(a), Lower("Barcelona"), 14);
  }

  /** A mapped place whose components name no street takes the place's name as its street. */
  lemma NameFallback(p: Place, n: string)
    requires !IsPredefined(p) && p.googlePlace.Some?
    requires p.googlePlace.value.addressComponents.Some?
    requires LastMatch(p.googlePlace.value.addressComponents.value, IsStreetComp).None?
    requires p.googlePlace.value.name == Some(n) && !IsEmpty(n)
    ensures Extract(p).street == n
  {
    FoldStreet(NoComponents, p.googlePlace.value.addressComponents.value);
  }

  /**
   * Without Google Places data the address text is split on commas: the first piece
   * is the street and, when there are two pieces or more, the last two are the town
   * and the country, all trimmed.
   */
  lemma CommaFallback(p: Place, parts: seq<string>)
    requires !IsPredefined(p) && p.googlePlace.None?
    requires |parts| >= 1 && forall k :: 0 <= k < |parts| ==> ',' !in parts[k]
    requires p.address == Some(Join(parts, ','))
    ensures Extract(p).street == Trim(parts[0])
    ensures |parts| >= 2 ==> Extract(p).town == Trim(parts[|parts| - 2]) && Extract(p).country == Trim(parts[|parts| - 1])
    ensures |parts| == 1 ==> Extract(p).town == "" && Extract(p).country == ""
    ensures Extract(p).bldgNumber == "" && Extract(p).locality == ""
  {
    assert Extract(p) == CommaComponents(NoComponents, Join(parts, ','));
    CommaOfJoin(NoComponents, parts);
  }

  lemma CommaOfJoin(c: Components, parts: seq<string>)
    requires |parts| >= 1 && forall k :: 0 <= k < |parts| ==> ',' !in parts[k]
    ensures CommaComponents(c, Join(parts, ',')) ==
              var d := c.(street := Trim(parts[0]));
              if |parts| > 1 then d.(town := Trim(parts[|parts| - 2]), country := Trim(parts[|parts| - 1])) else d
  {
    SplitJoin(parts, ',');
  }

  /** A street found in the Google Places data is kept, whatever the address text says. */
  lemma StreetFromPlaceWins(p: Place)
    requires !IsPredefined(p) && p.googlePlace.Some?
    requires !IsEmpty(PlaceComponents(NoComponents, p.googlePlace.value).street)
    ensures Extract(p) == PlaceComponents(NoComponents, p.googlePlace.value)
  {
  }

  /** A mapped place with a number, a route, a locality and a country. */
  lemma MappedPlaceExample()
    ensures Extract(Place(Some("address"), None, None, None,
                          Some(GooglePlace(Some([AddressComponent("12", ["street_number"]),
                                                 AddressComponent("Main St", ["route"]),
                                                 AddressComponent("Springfield", ["locality"]),
                                                 AddressComponent("USA", ["country"])]), None)),
                          None, None))
            == Components("12", "Main St", "", "Springfield", "USA")
  {
    var xs := [AddressComponent("12", ["street_number"]),
               AddressComponent("Main St", ["route"]),
               AddressComponent("Springfield", ["locality"]),
               AddressComponent("USA", ["country"])];
    assert xs[..0] == [];
    assert FoldComponents(NoComponents, xs[..1]) == Components("12", "", "", "", "") by {
      assert xs[..1][..0] == [];
    }
    assert FoldComponents(NoComponents, xs[..2]) == Components("12", "Main St", "", "", "") by {
      assert xs[..2][..1] == xs[..1];
    }
    assert FoldComponents(NoComponents, xs[..3]) == Components("12", "Main St", "", "Springfield", "") by {
      assert xs[..3][..2] == xs[..2];
    }
    assert FoldComponents(NoComponents, xs) == Components("12", "Main St", "", "Springfield", "USA") by {
      assert xs[..3] == xs[..|xs| - 1];
    }
    assert !IsEmpty("Main St");
  }
}
