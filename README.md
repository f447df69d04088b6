# TaxiClass reservations backend: a Dafny model

This project models the core of the TaxiClass reservations backend, a PHP API. Its main job is to take a customer's taxi booking and pass it to the Auriga dispatch provider:

- **Create:** validate the inbound request, then derive the vehicle preference codes, normalise the booking date's time-zone offset, format the coordinates, cap the client name and extract the address components. With the booking data built, concatenate the signature string in the provider's fixed field order and sign it into the `X-Authorization` header. Send the booking, classify the provider's answer, and record the booking in `reservation_logs` only when the provider accepted it.
- **Cancel:** look the booking up by the provider's id and its owner. Refuse a missing, already cancelled or past booking without contacting the provider. Otherwise sign and send the DELETE, and mark the row cancelled only when the provider confirmed.

Beside the reservation protocol the model covers smaller pieces of the API:

- **Profile:** the field validation of the profile update.
- **Password:** the new-password rules, whose strength pattern is modelled with PCRE's `$` semantics.
- **Two-step verification:** the e-mail mask, and the guards that enable and disable it.
- **Responses:** the JSON envelope.
- **Activity log:** the user-agent, icon and colour presentation, and the clamping of the page size and offset.
- **Locations:** the grouping of predefined locations by category, and the minimum length of a search term.
- **Environment:** the `.env` line parser and loader.
- **Tokens:** the development JWT encoder and decoder.

PHP strings are byte strings. They are modelled as `string` with one character per byte, so `strlen` is `|s|` and `substr` is a slice. PHP's `empty()` on a string is true for `""` and `"0"` (`PhpString.IsEmpty`).

Foreign computations are function-typed parameters whose behaviour the model does not assume: sha1, HMAC-SHA256, base64, JSON encoding and decoding, `filter_var(FILTER_VALIDATE_EMAIL)`, `password_verify`, the provider's HTTP answer, the user table and the clock. The database table the controller writes is the class `ReservationController.ReservationLog`.

Modules follow the program's structure:

| module | models |
|---|---|
| `PhpString` | the byte-string built-ins: trim, strpos, explode, str_replace, rtrim, preg_replace of a character class, `(int)` |
| `Json` | decoded JSON values and PHP associative arrays: key lookup, last duplicate key wins, array_merge |
| `HttpResponse` | the `response()` helper shared by the auth, activity and location controllers |
| `ReservationFormat` | coordinates, the client-name cap, truncations, the booking-date offset, the preference codes |
| `ReservationAddress` | `extractAddressComponents` |
| `ReservationPayload` | the booking data (`$bookingData`) and the body sent to the provider |
| `ReservationSignature` | `generarSignature`, the cancel signature, the authorization header |
| `AurigaClient` | the create and cancel requests, and the classification of the provider's answers |
| `ReservationController` | `create`, `cancelReservation` and the `reservation_logs` table |
| `Auth` | `updateProfile`, `changePassword`, the e-mail mask, the two-step-verification guards |
| `Activity` | `parseUserAgent`, `getActivityIcon`, `getActivityColor`, paging |
| `Location` | `getLocations` grouping, `searchLocations` guard |
| `Environment` | `Environment::load` |
| `SimpleJWT` | `SimpleJWT::encode` and `SimpleJWT::decode` |

Two places where the code does something other than what its names or comments suggest; the model follows the code:

- The function's name, `limitarNombreA30Bytes`, promises 30 bytes; the code keeps 29 of a 30-byte name, and the model follows the code (`LimitClientName`).
- The date offset pattern `[+-]\d{4}$` also matches before a final line break, because PCRE's `$` does (`ReservationFormat.NormalizeBookingDate`).

## Model

| member | source | states |
|---|---|---|
| PhpString.IsEmptyMeaning | api/controllers/AuthController.php:639 | empty() holds only for "" and the one-byte "0": a longer text such as " 0" or "00" is never empty, and a one-byte text is empty exactly when it is "0" |
| PhpString.TrimStart | api/config/Environment.php:27-28 | the result is a suffix of the input, everything dropped is trim whitespace, and the result does not start with trim whitespace |
| PhpString.TrimEnd | api/config/Environment.php:27-28 | the result is a prefix of the input, everything dropped is trim whitespace, and the result does not end with trim whitespace |
| PhpString.Trim | api/config/Environment.php:27-28 | the result occurs inside the input with only trim whitespace before and after it, and neither starts nor ends with trim whitespace |
| PhpString.TrimParts | api/config/Environment.php:27-28 | rtrim after ltrim leaves a piece of the input surrounded only by trim whitespace |
| PhpString.WithinTrimmed | api/config/Environment.php:27-28 | a prefix of a suffix, each cut only of trim whitespace, sits trimmed inside the input |
| PhpString.TrimIdempotent | api/controllers/AuthController.php:638 | trimming a trimmed text changes nothing |
| PhpString.TrimOfUntrimmable | api/controllers/AuthController.php:638 | a text with no whitespace at either end is its own trim |
| PhpString.TrimPadded | api/controllers/AuthController.php:682 | one space on each side of a text with no whitespace at its ends is exactly what trim removes |
| PhpString.IndexFrom | api/controllers/ActivityController.php:75 | strpos from an offset: the first occurrence at or after the offset, or none at all |
| PhpString.IndexOf | api/controllers/AuthController.php:81 | strpos: the first occurrence of the needle, and None exactly when there is no occurrence |
| PhpString.ContainsMeaning | api/controllers/ActivityController.php:87 | `strpos(..) !== false` holds exactly when the needle occurs at some position; a needle longer than the text never occurs, and the empty needle always does |
| PhpString.StartsWithMeaning | api/config/Environment.php:19 | `strpos(..) === 0` holds exactly when the needle occurs at position 0, and then strpos also finds it |
| PhpString.CharIndex | api/config/Environment.php:24 | the first position of a byte, and None exactly when the byte is absent |
| PhpString.CharIndexAfter | api/config/Environment.php:25 | after a prefix without the byte, the first occurrence is right after that prefix |
| PhpString.AbsentCharNotContained | api/helpers/simple/SimpleJWT.php:14 | a text without a byte does not contain the one-byte needle |
| PhpString.Lower | api/controllers/ReservationController.php:1358 | stripos' case folding: ASCII lower-casing, byte by byte |
| PhpString.Split | api/config/Environment.php:25 | explode: at least one piece, no piece holds the delimiter, and joining the pieces gives back the input |
| PhpString.SplitNoDelimiter | api/helpers/simple/SimpleJWT.php:24 | a text without the delimiter explodes into itself alone |
| PhpString.SplitAfterPiece | api/helpers/simple/SimpleJWT.php:24 | exploding a piece, the delimiter and a rest gives that piece followed by the rest's pieces |
| PhpString.SplitJoin | api/helpers/simple/SimpleJWT.php:20-24 | exploding the join of delimiter-free pieces gives back exactly those pieces |
| PhpString.ReplaceAbsent | api/controllers/ReservationController.php:121 | str_replace changes nothing when the search text does not occur |
| PhpString.Replace | api/controllers/ReservationController.php:121 | str_replace of one search text: an empty search text changes nothing, an equal-length replacement keeps the length, a shorter one never lengthens the subject |
| PhpString.ReplaceRemovesChar | api/helpers/simple/SimpleJWT.php:14 | replacing a byte by a text without it leaves no occurrence of that byte |
| PhpString.ReplaceKeepsAbsent | api/helpers/simple/SimpleJWT.php:14 | str_replace introduces no byte that neither the subject nor the replacement holds |
| PhpString.NoMatchBeforeJoin | api/controllers/ReservationController.php:121 | no match starts inside a match-free text when no later byte of the pattern equals the first byte appended |
| PhpString.ReplaceAfterClear | api/controllers/ReservationController.php:121 | a prefix in which no match starts passes through str_replace unchanged |
| PhpString.ReplaceAfterPrefix | api/controllers/ReservationController.php:121 | a prefix that cannot start a match passes through str_replace unchanged |
| PhpString.ReplaceShort | api/controllers/ReservationController.php:121 | a subject shorter than the search text is left unchanged |
| PhpString.TrimEndChar | api/controllers/ReservationController.php:642 | rtrim of one byte: a prefix, everything dropped is that byte, and the result does not end with it |
| PhpString.Filter | api/controllers/AuthController.php:669 | preg_replace of a negated class: only kept bytes remain, every kept byte of the input is still there, and the result is no longer |
| PhpString.FilterAppend | api/controllers/AuthController.php:669 | filtering a concatenation filters each part and joins the results |
| PhpString.FilterOne | api/controllers/AuthController.php:669 | one byte survives exactly when the class keeps it |
| PhpString.FilterKeepsAll | api/controllers/AuthController.php:669 | a text made of kept bytes only is unchanged |
| PhpString.DigitChar | api/controllers/ReservationController.php:1300 | the decimal digit of a value below 10 |
| PhpString.NatToString | api/controllers/ReservationController.php:1300 | the decimal text of a natural number is a non-empty run of digits |
| PhpString.DecimalValueOfNatToString | api/controllers/ReservationController.php:1300 | reading back the decimal text of n gives n |
| PhpString.LeadingDigits | api/controllers/ActivityController.php:33 | the integer part of a numeric string read by `(int)`: a prefix of digits, stopped by the first non-digit |
| PhpString.IntCast | api/controllers/ActivityController.php:33-34 | PHP's `(int)` of a string: after white space and an optional sign, a digit run with an optional fraction and an optional exponent, truncated toward zero; a negative result needs a leading minus; text that does not start with a digit or '.' (after space and sign) reads as 0 |
| PhpString.ExponentOf | api/controllers/ActivityController.php:33 | an exponent is read only when 'e' or 'E' is followed by digits (an optional sign between) |
| PhpString.IntCastUnsigned | api/controllers/ActivityController.php:33 | without leading space or sign the cast is the unsigned magnitude |
| PhpString.IntCastDigits | api/controllers/ActivityController.php:33 | `(int)` of a digit run is its decimal value |
| PhpString.IntCastNegativeDigits | api/controllers/ActivityController.php:33 | `(int)` of '-' and a digit run is the negated decimal value |
| PhpString.IntCastMinus | api/controllers/ActivityController.php:33 | a leading minus negates the magnitude that follows |
| PhpString.NoNumberReadsZero | api/controllers/ActivityController.php:33 | text whose first byte after the sign is neither a digit nor '.' reads as 0 |
| PhpString.IntCastExponent | api/controllers/ActivityController.php:33 | `(int)` of `<d>e<x>` is d·10^x |
| PhpString.IntCastFraction | api/controllers/ActivityController.php:33 | `(int)` of `<d>.<f>` drops the fraction |
| PhpString.IntCastHundred | api/controllers/ActivityController.php:33 | `(int)"1e2"` is 100 |
| PhpString.IntCastExample | api/controllers/ActivityController.php:33 | `(int)"1.5e1"` is 15: the exponent applies to the fraction before truncation |
| PhpString.MagnitudeOfDigits | api/controllers/ActivityController.php:33 | digits followed by anything that cannot continue a number read as those digits |
| PhpString.MagnitudeOfDigitsAlone | api/controllers/ActivityController.php:33 | a digit run alone reads as its decimal value |
| PhpString.FractionTruncated | api/controllers/ActivityController.php:33 | digits, a fraction and a non-numeric tail read as the integer digits alone |
| PhpString.ExponentApplied | api/controllers/ActivityController.php:33 | digits and an exponent read as digits times that power of ten |
| PhpString.MagnitudeSplit | api/controllers/ActivityController.php:33 | after a digit run the cast reads on from where the digits stop |
| PhpString.FractionThen | api/controllers/ActivityController.php:33 | a '.' and a fraction without exponent scale the digits with the fraction down by the fraction's length |
| PhpString.FractionRead | api/controllers/ActivityController.php:33 | digits, a fraction and a tail that is not an exponent read as the whole digits scaled down by the fraction's length |
| PhpString.ExponentThen | api/controllers/ActivityController.php:33 | an 'e' followed by digits multiplies the digits before it by that power of ten |
| PhpString.ExponentExample | api/controllers/ActivityController.php:33 | after '1', the text 'e2' reads as 100 |
| PhpString.FractionExponentExample | api/controllers/ActivityController.php:33 | after '1', the text '.5e1' reads as 15 |
| PhpString.LeadingDigitsOfDigitsThen | api/controllers/ActivityController.php:33 | the digit run of digits followed by a non-digit is those digits |
| PhpString.DropDigits | api/controllers/ActivityController.php:33 | scaling down by the fraction's length removes the fraction digits |
| PhpString.ScaleUp | api/controllers/ActivityController.php:33 | scaling up by k multiplies by 10^k |
| PhpString.SkipNumericSpace | api/controllers/ActivityController.php:33 | `(int)`'s leading whitespace is skipped, and the rest does not start with it |
| PhpString.IntCastOfIntToString | api/controllers/LocationController.php:32 | `(int)` of the decimal text of an integer is that integer |
| PhpString.LeadingDigitsOfDigits | api/controllers/ActivityController.php:33 | a text made of digits is its own digit run |
| Json.EmptyPropertyOnlyDiffersOnEmptyObject | api/controllers/ReservationController.php:41-48 | empty() on an object-decoded property differs from the array reading only on {}, and never holds for an object |
| Json.Keys | api/controllers/ReservationController.php:134-163 | the keys of an associative array, one per member, in insertion order |
| Json.Lookup | api/controllers/ReservationController.php:517 | `$array[key]`: a value is found exactly when the key is among the array's keys |
| Json.GetMeaning | api/controllers/ReservationController.php:225 | `$a[k] ?? null`: an object holding the key gives the value it holds, anything else gives null, so a key stored with null reads like a missing key |
| Json.IsEmptyValueMeaning | api/controllers/ReservationController.php:517 | empty() on a decoded value holds exactly for null, false, 0, "", "0", [] and the empty array |
| Json.IsEmptyPropertyMeaning | api/controllers/ReservationController.php:48 | empty() on a property of a decoded object holds exactly for null, false, 0, "", "0" and [], but not for the empty object |
| Json.ScalarText | api/controllers/ReservationController.php:608 | a string keeps its text, an integer's text reads back as that integer, and null becomes "" |
| Json.Put | api/controllers/ReservationController.php:167 | `$array[key] = v`: the key then holds v, every other key is unchanged, and no key is lost |
| Json.PutInPlace | api/controllers/ReservationController.php:183 | overwriting an existing key where it stands gives the same lookups as Put |
| Json.PutOthers | api/controllers/ReservationController.php:183 | overwriting one key in place leaves every other key's lookup unchanged |
| Json.MergeLookup | api/controllers/AuthController.php:846-848 | array_merge: a key of the second array takes its value there, any other key keeps the first array's |
| Json.LookupCons | api/controllers/AuthController.php:846-848 | a lookup is decided by the later members when they hold the key, else by the first |
| Json.LookupPair | api/controllers/AuthController.php:441-444 | an array of two distinct keys lists them in order and holds each key's own value |
| Json.MergeKeepsKeys | api/controllers/AuthController.php:846-848 | array_merge keeps every key of the first array |
| Json.Merge | api/controllers/AuthController.php:846-848 | array_merge never loses a member of the first array, adds at most the members of the second, and merging nothing changes nothing |
| HttpResponse.Respond | api/controllers/AuthController.php:838-853 | the status code is kept; the body starts with 'status' and 'message'; the status is 'success' exactly below 400 unless the data overrides it; the data's keys are merged in with their values; no other key appears |
| HttpResponse.MergedBody | api/controllers/AuthController.php:846-848 | the merged body keeps the two base keys first; a key holds the data's value when the data has it and the base value otherwise; its keys are those of the base and of the data |
| ReservationFormat.FormatCoordinate | api/controllers/ReservationController.php:631-650 | a zero value gives "0.0"; text without '.' is unchanged; with a '.', trailing zeros are removed and a bare trailing '.' gets one '0' back, so the result never ends in '.' |
| ReservationFormat.DotSurvivesTrim | api/controllers/ReservationController.php:640-643 | stripping trailing zeros never removes the decimal point |
| ReservationFormat.CoordinateText | api/controllers/ReservationController.php:138-139 | a missing coordinate formats as "0.0", a present one through the zero-stripping rule |
| ReservationFormat.FormatCoordinateIdempotent | api/controllers/ReservationController.php:631-650 | formatting an already formatted coordinate changes nothing |
| ReservationFormat.FormatCoordinateExample | api/controllers/ReservationController.php:631-650 | 41.3801872805610 becomes 41.380187280561 |
| ReservationFormat.ZeroCoordinateExample | api/controllers/ReservationController.php:632-634 | 0.0 stays 0.0 |
| ReservationFormat.DropTrailingZero | api/controllers/ReservationController.php:641-646 | a non-zero decimal with one zero after its last significant digit loses exactly that zero |
| ReservationFormat.LimitClientName | api/controllers/ReservationController.php:652-658 | the name is a prefix of the input and under 30 bytes: unchanged below 30 bytes, cut to exactly 29 otherwise |
| ReservationFormat.ClientNameField | api/controllers/ReservationController.php:136 | a missing name stays missing, a present one is capped |
| ReservationFormat.Truncate | api/controllers/ReservationController.php:184-186 | substr($s, 0, n): a prefix of length min(|s|, n) |
| ReservationFormat.NormalizeBookingDate | api/controllers/ReservationController.php:117-131 | a date ending in a ±dddd offset passes unchanged; one with neither a ±dddd nor a ±dd:dd offset is re-rendered in server time with +0200 appended, which then ends in a ±dddd offset (the ±dd:dd branch is stated by the three lemmas below) |
| ReservationFormat.NormalizePlusTwo | api/controllers/ReservationController.php:120-121 | a date ending in +02:00, with no other +02:00 or -02:00, loses the colon of its offset |
| ReservationFormat.NormalizeMinusTwo | api/controllers/ReservationController.php:120-121 | a date ending in -02:00, with no other +02:00 or -02:00, loses the colon of its offset |
| ReservationFormat.PlusTwoAbsentAfterMinus | api/controllers/ReservationController.php:121 | appending -02:00 to a date with no +02:00 creates no +02:00, so the first replacement has nothing to do |
| ReservationFormat.MinusTwoAbsentAfterPlus | api/controllers/ReservationController.php:121 | appending +0200 to a date with no -02:00 creates no -02:00, so the second replacement has nothing to do |
| ReservationFormat.NormalizeOtherColonOffset | api/controllers/ReservationController.php:120-121 | a date with a colon offset and neither +02:00 nor -02:00 anywhere is left unchanged, colon included |
| ReservationFormat.PushKeepsRanked | api/controllers/ReservationController.php:71-84 | a conditional push keeps the codes in declaration order, and the code is present exactly when its flag holds |
| ReservationFormat.PushKeepsOthers | api/controllers/ReservationController.php:71-84 | a later push does not add or remove any earlier code |
| ReservationFormat.PreferenceCodesOrdered | api/controllers/ReservationController.php:68-84 | child seat gives 1662, 5-6 seats 1663, 7 seats 1665 and an airport pickup 1666, each present exactly when its condition holds, in that order and without repeats |
| ReservationFormat.PreferenceCodes | api/controllers/ReservationController.php:68-84 | one code per flag that holds, so as many codes as flags set, and every entry is one of 1662, 1663, 1665 and 1666 |
| ReservationFormat.BuildPreferences | api/controllers/ReservationController.php:68-84 | the array_push sequence yields exactly the preference codes of the flags, in order |
| ReservationFormat.PreferencesField | api/controllers/ReservationController.php:149 | an empty preference list becomes null, any other is sent as built |
| ReservationAddress.ApplyComponent | api/controllers/ReservationController.php:1371-1386 | one Google Places component sets at most one address field, by the first type test it passes |
| ReservationAddress.LastMatch | api/controllers/ReservationController.php:1371-1386 | the name of the last component passing a test, or None exactly when no component passes it |
| ReservationAddress.FoldBldgNumber | api/controllers/ReservationController.php:1374-1375 | bldgNumber is the last street_number component, else unchanged |
| ReservationAddress.FoldStreet | api/controllers/ReservationController.php:1376-1377 | street is the last route component that is not a street number, else unchanged |
| ReservationAddress.FoldLocality | api/controllers/ReservationController.php:1378-1379 | locality is the last sublocality component, else unchanged |
| ReservationAddress.FoldTownFromLocality | api/controllers/ReservationController.php:1380-1381 | a non-empty town from the last locality component is the final town |
| ReservationAddress.FoldTownKept | api/controllers/ReservationController.php:1382-1383 | without a locality component, a non-empty town is never replaced by administrative_area_level_2 |
| ReservationAddress.FoldTownFromAdmin | api/controllers/ReservationController.php:1382-1383 | without a locality component and a town still empty, the town is the first non-empty administrative_area_level_2 |
| ReservationAddress.FoldTownStaysEmpty | api/controllers/ReservationController.php:1380-1383 | with no locality and only empty administrative areas, the town stays empty |
| ReservationAddress.FoldCountry | api/controllers/ReservationController.php:1384-1385 | without a component that is both an administrative area and a country, country is the last country component |
| ReservationAddress.ApplyCountry | api/controllers/ReservationController.php:1384-1385 | one component sets the country exactly when its first matching type test is the country test |
| ReservationAddress.ExtractAddressComponents | api/controllers/ReservationController.php:1343-1418 | the loop over the components and the fallbacks compute exactly the extraction function |
| ReservationAddress.Extract | api/controllers/ReservationController.php:1343-1418 | a predefined place keeps its whole address as street; without Google data and without an address nothing is extracted; without Google data a non-empty street is the trimmed first comma piece of the address |
| ReservationAddress.SplitAddress | api/controllers/ReservationController.php:1395-1406 | the explode and the trims of the fallback compute exactly the comma split of the address |
| ReservationAddress.ApplyEntry | api/controllers/ReservationController.php:1372-1386 | one component sets the field of the first type it matches, in the source's order, and nothing else |
| ReservationAddress.FoldEntries | api/controllers/ReservationController.php:1371-1387 | the foreach applies every component in order, starting from empty components |
| ReservationAddress.PredefinedPlace | api/controllers/ReservationController.php:1353-1367 | a predefined place uses its whole address as street, sets Barcelona/Spain exactly when the address mentions Barcelona in any case, leaves the other fields empty and ignores any Google data |
| ReservationAddress.PredefinedAirportExample | api/controllers/ReservationController.php:1353-1367 | the Barcelona airport in capitals still gets town Barcelona and country Spain |
| ReservationAddress.PredefinedMeaning | api/controllers/ReservationController.php:1353-1366 | a predefined place takes its whole address as the street with no building number or locality; the town and country are Barcelona and Spain exactly when the address mentions Barcelona in any case, and empty otherwise |
| ReservationAddress.PlaceComponents | api/controllers/ReservationController.php:1370-1393 | without address_components the fields are unchanged; with them the loop decides every field, except that an empty street is replaced by the place's name when it has one |
| ReservationAddress.CommaComponents | api/controllers/ReservationController.php:1396-1405 | the building number and locality are kept, the street is the trimmed first comma piece, and an address without a comma leaves the town and country as they were |
| ReservationAddress.CommaTownCountry | api/controllers/ReservationController.php:1402-1405 | with at least one comma, the town and the country are the trimmed last-but-one and last comma pieces |
| ReservationAddress.NameFallback | api/controllers/ReservationController.php:1389-1392 | without a route component the place's non-empty name becomes the street |
| ReservationAddress.CommaFallback | api/controllers/ReservationController.php:1395-1406 | without Google data the address is split at commas: the first piece is the street, the second-to-last the town and the last the country, all trimmed; with one piece town and country stay empty |
| ReservationAddress.CommaOfJoin | api/controllers/ReservationController.php:1398-1405 | the comma fallback applied to comma-joined pieces, piece by piece |
| ReservationAddress.StreetFromPlaceWins | api/controllers/ReservationController.php:1395-1406 | once the Google data gave a street, the comma fallback does nothing |
| ReservationAddress.MappedPlaceExample | api/controllers/ReservationController.php:1370-1393 | a concrete Google place maps its number, route, locality and country to the five fields |
| ReservationPayload.AddressOf | api/controllers/ReservationController.php:137-145 | an address carries the formatted coordinates and exactly the extracted components |
| ReservationPayload.IsCompleteRequestMeaning | api/controllers/ReservationController.php:48 | create goes on exactly when the booking date is present and neither "" nor "0", a pickup is present, and the passenger count is none of null, false, 0, "", "0" and [] |
| ReservationPayload.RequestPreferences | api/controllers/ReservationController.php:71-84 | each flag's code is present exactly when the flag is the boolean true itself, the airport code exactly when the pickup's type is "airport", and there are at most four codes |
| ReservationPayload.FlightOf | api/controllers/ReservationController.php:179-188 | a flight is attached exactly for an airport pickup with a non-empty flight number and origin, a flight number longer than 10 bytes is cut to its first 10 and an origin longer than 30 bytes to its first 30 |
| ReservationPayload.SpecialField | api/controllers/ReservationController.php:148 | special instructions are sent exactly when they are not empty() |
| ReservationPayload.BookingPayload | api/controllers/ReservationController.php:134-188 | the booking data: the user's phone and account, the capped name, the normalised date, the pickup address, a destination exactly when one was given, the special, preference and flight fields, and every other field null |
| ReservationPayload.OptJson | api/controllers/ReservationController.php:150-162 | an absent field is sent as null, and only an absent one |
| ReservationPayload.AddressJson | api/controllers/ReservationController.php:137-145 | an address is sent as an object with its seven keys in order |
| ReservationPayload.PayloadBody | api/controllers/ReservationController.php:420-441 | the provider body has the documented twenty keys in order, each holding its field's JSON value |
| ReservationPayload.BodyNullWhenAbsent | api/controllers/ReservationController.php:420-441 | an optional field (special, preferences, flight, bookingId, destination) is null exactly when absent; the pickup is always an address object |
| ReservationPayload.BookingBodyKeepsNulls | api/controllers/ReservationController.php:420-441 | the fields create never fills are sent as explicit nulls |
| ReservationPayload.UnfilledFieldsNull | api/controllers/ReservationController.php:420-441 | any payload lacking the eleven fields create never fills sends each of them as null |
| ReservationSignature.BuildCreateSignatureString | api/controllers/ReservationController.php:310-395 | the successive appends compute the signature input: key, client id, date, name, phone, the pickup's seven fields, then the destination's fields when present, special, preferences in order, providerId, urlHook, flight, account and the remaining optional fields; null contributes nothing and bookingId never appears |
| ReservationSignature.CreateSignatureInput | api/controllers/ReservationController.php:310-395 | the signature input starts with key, client id and booking date and ends with account, account password, account reference and locked price |
| ReservationSignature.AppendText | api/controllers/ReservationController.php:317-324 | appending an optional field adds its text, or nothing when it is null |
| ReservationSignature.AppendAddress | api/controllers/ReservationController.php:326-333 | appending an address adds its seven fields in order |
| ReservationSignature.AppendPreferences | api/controllers/ReservationController.php:350-356 | the foreach over preferences appends each code in list order |
| ReservationSignature.ConcatLength | api/controllers/ReservationController.php:310-395 | the signature input is as long as its pieces together |
| ReservationSignature.PreferenceOrderMatters | api/controllers/ReservationController.php:350-356 | two different codes of equal length give different inputs in the two orders |
| ReservationSignature.UnsignedFieldsIgnored | api/controllers/ReservationController.php:310-395 | customerEmail, customerPaymentMethodId, bookingId, providerName, providerTelephone and serviceId do not enter the signature |
| ReservationSignature.PresenceChangesInput | api/controllers/ReservationController.php:358-394 | a present optional field adds exactly its length to the input; an empty one adds nothing, like null |
| ReservationSignature.InputLength | api/controllers/ReservationController.php:358-394 | the input's length is the sum of the lengths of its pieces, with no separators |
| ReservationSignature.PresenceLengthens | api/controllers/ReservationController.php:358-394 | a present optional field adds exactly its own length to the input |
| ReservationSignature.EmptySignsLikeNull | api/controllers/ReservationController.php:358-394 | an empty optional field signs exactly like a null one |
| ReservationSignature.DestinationChangesInput | api/controllers/ReservationController.php:336-344 | a destination adds exactly the length of its seven fields |
| ReservationSignature.PreferencesChangeInput | api/controllers/ReservationController.php:350-356 | a preference list adds exactly the length of its codes |
| ReservationSignature.NameAndPhoneCanTradeBytes | api/controllers/ReservationController.php:318-320 | moving a byte from the end of the name to the start of the phone gives the same input, since fields are joined without separators |
| ReservationSignature.CancelSignatureInput | api/controllers/ReservationController.php:1220 | the cancel input starts with the client key, continues with the client id, ends with the booking id, and is as long as key, id and booking id together |
| ReservationSignature.CancelSignatureInjective | api/controllers/ReservationController.php:1220 | with any two of key, client id and booking id equal, equal inputs force the third to be equal |
| ReservationSignature.AuthHeader | api/controllers/ReservationController.php:1224 | client id ':' digest, one byte longer than the two |
| ReservationSignature.AuthHeaderSplits | api/controllers/ReservationController.php:191 | a header built from colon-free parts splits back into client id and digest |
| AurigaClient.CreateRequest | api/controllers/ReservationController.php:415-452 | a POST to the bookings URL carrying the X-Authorization header and exactly the provider body of the booking data |
| AurigaClient.CancelRequest | api/controllers/ReservationController.php:1213-1239 | a DELETE to bookings/{id} whose lower-case x-authorization header signs the cancel input, with body {bookingId} |
| AurigaClient.CancelCredentialsReadBack | api/controllers/ReservationController.php:1221-1232 | the cancel request carries an "x-authorization: " header whose value splits at ':' back into the client id and the digest, when neither holds a ':' |
| AurigaClient.ClassifyCreate | api/controllers/ReservationController.php:489-535 | created exactly on an answer with HTTP 201 and a non-empty bookingId; no answer is a connection error carrying the last error; anything else is rejected with code, decoded and raw response |
| AurigaClient.CreatedExample | api/controllers/ReservationController.php:517-523 | a 201 with booking id B1 is created, carrying the decoded data |
| AurigaClient.RejectedCases | api/controllers/ReservationController.php:517-534 | a code other than 201, or an empty bookingId, is rejected; a 400 carries its raw response and code |
| AurigaClient.ZeroBookingIdRejected | api/controllers/ReservationController.php:517 | a bookingId of "0" is empty() and the booking is rejected even with 201 |
| AurigaClient.ClassifyCancel | api/controllers/ReservationController.php:1291-1306 | cancelled exactly on HTTP 200; a failure's message ends in the code, and it carries the raw answer |
| AurigaClient.CancelErrorCarriesCode | api/controllers/ReservationController.php:1300 | the failure message gives back the HTTP code |
| ReservationController.FirstMatch | api/controllers/ReservationController.php:843-850 | the lookup's row matches booking id and owner and no earlier row does; None exactly when no row matches |
| ReservationController.CancelRows | api/controllers/ReservationController.php:879-890 | the UPDATE keeps the number of rows and every row's id |
| ReservationController.CancelRowsTouchesOne | api/controllers/ReservationController.php:879-890 | with distinct ids the UPDATE rewrites exactly one row and keeps the ids distinct |
| ReservationController.CancelledIsFoundCancelled | api/controllers/ReservationController.php:843-890 | after the UPDATE the lookup finds the same row, now cancelled |
| ReservationController.FirstMatchSame | api/controllers/ReservationController.php:843-850 | two tables whose rows match alike give the same lookup result |
| ReservationController.ReservationLog.constructor | api/controllers/ReservationController.php:540-625 | an empty table whose first id is 1 |
| ReservationController.ReservationLog.Insert | api/controllers/ReservationController.php:607-624 | the row is appended with the next id, which is returned as lastInsertId, and ids stay distinct |
| ReservationController.ReservationLog.Find | api/controllers/ReservationController.php:843-850 | the scan returns the first row matching booking id and owner |
| ReservationController.ReservationLog.MarkCancelled | api/controllers/ReservationController.php:879-890 | the rows after the UPDATE are exactly CancelRows of the rows before, and the next id is unchanged |
| ReservationController.FirstMatchIs | api/controllers/ReservationController.php:843-850 | a matching row with no match before it is the lookup's result |
| ReservationController.Create | api/controllers/ReservationController.php:26-307 | an incomplete request ends with nothing done; otherwise exactly the user lookup, the signing and one provider call happen, and the table gains the booking, and the id counter advances by one, only when the provider created it; every answer other than 201 leaves the table and the counter unchanged, and a 201 adds exactly one row |
| ReservationController.CreateStatus | api/controllers/ReservationController.php:49-284 | 201 exactly for a booking; 400 for an incomplete request and for a provider refusal |
| ReservationController.SendBooking | api/controllers/ReservationController.php:189-295 | the booking is signed and sent once; a created verdict inserts the row and reports its id and the provider's ids, any other verdict leaves the table and its id counter alone and reports the provider's error; the counter advances by one exactly on a created verdict |
| ReservationController.BuildPayload | api/controllers/ReservationController.php:62-188 | the assignments and array mutations of create build exactly the booking data of the request |
| ReservationController.PassengerCountTest | api/controllers/ReservationController.php:41-48 | with the body decoded as objects, a passenger count sent as an object (even {}) passes empty(), while null, false, 0, "", "0" and [] are refused |
| ReservationController.MissingDateIsIncomplete | api/controllers/ReservationController.php:48 | a missing or empty() booking date makes the request incomplete |
| ReservationController.BookedIsFound | api/controllers/ReservationController.php:607-609 | a recorded booking is found by the cancel lookup under its provider id and owner |
| ReservationController.CancelReservation | api/controllers/ReservationController.php:828-924 | an unknown booking, one already cancelled and one dated at or before now are refused without a provider call or a change; otherwise the cancel is signed and sent, and the row becomes cancelled exactly when the provider answered 200; every answer other than 200 leaves the table unchanged |
| ReservationController.CancelStatus | api/controllers/ReservationController.php:852-904 | 404 exactly for an unknown booking, 200 exactly for a cancelled one, 400 for one already cancelled, one in the past and a provider refusal |
| ReservationController.SecondCancelRefused | api/controllers/ReservationController.php:851-862 | after a successful cancel the same booking is found again as cancelled, so a second cancel is refused |
| Auth.NameCheck | api/controllers/AuthController.php:637-646 | an absent name is skipped; a name trimming to empty() or to under 3 bytes is refused with its message; otherwise the trimmed name is the update |
| Auth.EmailCheck | api/controllers/AuthController.php:649-661 | an absent e-mail is skipped; one that fails validation, or belongs to another user, is refused with its message; otherwise the validated address is the update |
| Auth.PhoneCheck | api/controllers/AuthController.php:665-678 | an absent phone is skipped; an empty() one clears the column; otherwise only digits and '+' are kept, and fewer than 9 bytes is refused |
| Auth.AccountCheck | api/controllers/AuthController.php:681-688 | an absent account is skipped, an empty() one clears the column, any other is trimmed; it is never refused |
| Auth.UpdatesOf | api/controllers/AuthController.php:633-688 | there are no more updates than fields, and each update is some accepted field's column with the value that field produced |
| Auth.ErrorsOf | api/controllers/AuthController.php:633-688 | there are no more errors than fields, and each error is the message of some refused field |
| Auth.ErrorsOfEmpty | api/controllers/AuthController.php:691 | the error list is empty exactly when no field was refused |
| Auth.UpdatesOfEmpty | api/controllers/AuthController.php:698 | the update list is empty exactly when no field was accepted |
| Auth.AppendCheck | api/controllers/AuthController.php:633-688 | one more field extends updates and errors by that field's contribution alone |
| Auth.Extend | api/controllers/AuthController.php:633-688 | one field's verdict only appends: an update adds exactly one entry to `$updates` (its column and value), a refusal exactly one message to `$errors`, and a skipped field changes neither |
| Auth.ProfileChecks | api/controllers/AuthController.php:637-688 | the four checks run on name, email, phone and account in that order; each is skipped exactly when its field is absent, and the account is never refused |
| Auth.ValidateName | api/controllers/AuthController.php:637-646 | the name block extends updates or errors by the name's check |
| Auth.ValidateEmail | api/controllers/AuthController.php:649-661 | the e-mail block extends updates or errors by the e-mail's check |
| Auth.ValidatePhone | api/controllers/AuthController.php:665-678 | the phone block extends updates or errors by the phone's check |
| Auth.ValidateAccount | api/controllers/AuthController.php:681-688 | the account block extends updates by the account's check |
| Auth.ValidateProfile | api/controllers/AuthController.php:633-688 | the four blocks in order accumulate exactly the updates and errors of the four checks |
| Auth.FourChecks | api/controllers/AuthController.php:633-688 | four checks run one after the other on empty updates and errors accumulate exactly the list-wide updates and errors |
| Auth.UpdateProfile | api/controllers/AuthController.php:633-700 | any refused field stops with the error list; no accepted field stops with nothing to update; only otherwise are the updates applied |
| Auth.ProfileReply | api/controllers/AuthController.php:691-700 | both stops answer 400 with status error, the first with the error list, the second with its message |
| Auth.NameCheckStable | api/controllers/AuthController.php:637-646 | an accepted name is accepted unchanged when submitted again |
| Auth.PhoneCheckStable | api/controllers/AuthController.php:665-678 | an accepted phone is accepted unchanged when submitted again |
| Auth.ZeroClears | api/controllers/AuthController.php:665-688 | "0" is empty(), so a phone or account of "0" clears the column |
| Auth.PaddedZeroTrims | api/controllers/AuthController.php:682 | trim turns " 0 " into "0", which empty() then treats as empty |
| Auth.Line | api/controllers/AuthController.php:789 | the subject without one final line break, which `$` lets the pattern skip |
| Auth.StrengthPatternMeaning | api/controllers/AuthController.php:789 | the strength pattern accepts exactly a single line, optionally followed by one line break, with a lower-case letter, an upper-case letter and a digit |
| Auth.StrengthPattern | api/controllers/AuthController.php:789 | a password the pattern accepts has a non-empty single line without a line break before the optional final one |
| Auth.DotPlusDollarMeaning | api/controllers/AuthController.php:789 | `.+$` from a position holds exactly when the rest of the line is non-empty and has no break |
| Auth.LookAheadInLine | api/controllers/AuthController.php:789 | inside a break-free line, `(?=.*X)` holds exactly when an X follows |
| Auth.NewPasswordError | api/controllers/AuthController.php:784-791 | under 8 bytes is refused as too short; otherwise failing the strength pattern is refused as weak; otherwise accepted |
| Auth.ChangePasswordGuard | api/controllers/AuthController.php:775-812 | the change goes ahead exactly when both fields are present, the new password passes, the user exists, the current password verifies and the new one does not; missing fields and rule failures answer 400 |
| Auth.PasswordExamples | api/controllers/AuthController.php:784-791 | a password without a digit is weak; one with a trailing line break passes; a break in the middle is weak |
| Auth.MaskEmail | api/controllers/AuthController.php:81 | at most three leading bytes, then four stars, then the address from its first '@', or the whole address when there is none |
| Auth.TwoFactorDestination | api/controllers/AuthController.php:66 | the dedicated 2FA address when one is stored, the account's address otherwise |
| Auth.LoginTwoFactorReply | api/controllers/AuthController.php:66-84 | a failed mail answers 500 with its message; a sent one answers 200 with requiresTwoFactor, the temporary token, emailSent and the masked destination |
| Auth.LoginShowsDedicatedAddress | api/controllers/AuthController.php:66-81 | with a dedicated 2FA address stored, login shows that address masked and not the account's |
| Auth.MaskHidesLocalPart | api/controllers/AuthController.php:442 | for a long enough local part the mask is three bytes, four stars and '@' plus the domain, whatever the local part's length |
| Auth.EnableTwoFactorGuard | api/controllers/AuthController.php:390-407 | a given address must validate, the user must exist and must not have two-step verification on, refused with 400 when it is on; the code goes to the given address, else to the account's |
| Auth.EnableTwoFactorReply | api/controllers/AuthController.php:441-444 | 200 with the masked address, and the data's own message replacing the outer one |
| Auth.DisableTwoFactorGuard | api/controllers/AuthController.php:566-582 | disabling goes ahead exactly with a password that verifies for an existing user with two-step verification on; missing password 400, unknown user 404, not on 400 |
| Auth.TwoFactorGuardsExclusive | api/controllers/AuthController.php:374-582 | enabling and disabling are never both allowed for the same stored user |
| Activity.Browser | api/controllers/ActivityController.php:74-83 | Firefox first; Chrome only without "Edg"; Safari only without "Chrome"; Edge; otherwise unknown; each outcome holds exactly under its condition |
| Activity.System | api/controllers/ActivityController.php:86-97 | the first match of Windows, Mac, Linux, Android, iPhone or iPad, each outcome exactly under its condition; Desconocido exactly when none of the six occurs |
| Activity.ParseUserAgent | api/controllers/ActivityController.php:70-100 | a missing or empty() agent is unknown; otherwise browser " en " system |
| Activity.ContainsAt | api/controllers/ActivityController.php:75 | a needle at a known place is found by strpos |
| Activity.NotContains | api/controllers/ActivityController.php:75 | a needle whose first byte does not occur is not found |
| Activity.EdgeAgent | api/controllers/ActivityController.php:77-82 | an Edge agent naming Chrome and Safari is reported as Edge |
| Activity.AndroidAgentReportedAsLinux | api/controllers/ActivityController.php:91-94 | an Android agent naming Linux is reported as Linux |
| Activity.IPhoneAgentReportedAsMac | api/controllers/ActivityController.php:89-96 | an iPhone agent naming Mac is reported as macOS |
| Activity.ActivityIcon | api/controllers/ActivityController.php:105-118 | the table's icon for a known type, 'Info' for any other |
| Activity.ActivityColor | api/controllers/ActivityController.php:123-136 | the table's colour for a known type, 'default' for any other |
| Activity.IconTableCoversKnownTypes | api/controllers/ActivityController.php:105-136 | both tables cover exactly the eight known types, and distinct known types get distinct icons |
| Activity.ErrorColourMeansFailure | api/controllers/ActivityController.php:123-136 | the colour is 'error' exactly for the two failure types |
| Activity.PageLimit | api/controllers/ActivityController.php:33 | 15 without a limit; otherwise the cast limit, capped at 50 and with no lower bound |
| Activity.PageOffset | api/controllers/ActivityController.php:34 | 0 without an offset; otherwise the cast offset, never below 0 |
| Activity.NegativePaging | api/controllers/ActivityController.php:33-34 | any negative decimal limit passes through while the same offset becomes 0 |
| Activity.TextLimitIsZero | api/controllers/ActivityController.php:33-34 | a limit or offset that does not start with a number reads as 0 |
| Activity.DecimalLimit | api/controllers/ActivityController.php:33 | a decimal limit is honoured up to 50 and capped above it |
| Activity.ExponentLimit | api/controllers/ActivityController.php:33 | a limit `<d>e<x>` asks for d·10^x rows, capped at 50 |
| Activity.ExponentOffset | api/controllers/ActivityController.php:34 | an offset `<d>e<x>` skips d·10^x rows |
| Activity.FractionalLimit | api/controllers/ActivityController.php:33 | a fractional limit is truncated to its integer part, capped at 50 |
| Location.CategoryOf | api/controllers/LocationController.php:27 | an empty() category becomes 'otros', any other is kept; never empty |
| Location.EntryOf | api/controllers/LocationController.php:31-40 | the entry's id is the row's id cast to int, its coordinates are latitude and longitude, and the other fields are copied |
| Location.GroupLocations | api/controllers/LocationController.php:25-41 | the foreach computes exactly the grouping of the rows |
| Location.AddLocation | api/controllers/LocationController.php:27-40 | one turn of the foreach: the grouping after it is the grouping before it with the row's entry filed under the row's category |
| Location.GroupStep | api/controllers/LocationController.php:28-31 | creating the group when it is missing and then appending together file the entry under its category, a new category going last |
| Location.AddEntryMeaning | api/controllers/LocationController.php:28-31 | filing an entry appends it to its category's group, creating the group at the end of the key order if it was missing, and leaves every other group as it was |
| Location.AddRowFiles | api/controllers/LocationController.php:26-40 | one row makes its category's group one longer with the row's entry last, and no other group changes |
| Location.HasCategoryLast | api/controllers/LocationController.php:26-41 | a category occurs in the rows exactly when it occurs before the last row or in it |
| Location.GroupingContents | api/controllers/LocationController.php:26-41 | a group exists exactly for each category some row has, is listed among the keys, and holds that category's entries in input order |
| Location.GroupingOrderDistinct | api/controllers/LocationController.php:28-30 | the key list never repeats a category, and every key has a group |
| Location.OrderOnlyGrows | api/controllers/LocationController.php:28-30 | a group is created at its first occurrence and keeps its place |
| Location.GroupingCountsEveryRow | api/controllers/LocationController.php:26-41 | every row lands in exactly one group: the group sizes add up to the number of rows |
| Location.GroupingBounds | api/controllers/LocationController.php:26-41 | there are never more categories than rows |
| Location.MembersBounds | api/controllers/LocationController.php:26-41 | a category holds at most as many entries as there are rows, and none when no row has it |
| Location.SizesAfterAdd | api/controllers/LocationController.php:31 | appending to an existing group adds one to the total |
| Location.SizesIgnores | api/controllers/LocationController.php:31 | a group that is not listed does not count |
| Location.SizesAppend | api/controllers/LocationController.php:28-31 | creating a group with one entry adds one to the total |
| Location.MissingCategoryIsOther | api/controllers/LocationController.php:27 | a missing, empty or "0" category goes to 'otros' |
| Location.SearchGuard | api/controllers/LocationController.php:58-62 | a term under 2 bytes, or none, answers 400 with its message before any query; any longer term proceeds |
| Environment.StripCarriageReturn | api/config/Environment.php:15 | one '\r' at the end is removed with the line ending, otherwise the line is unchanged |
| Environment.NonEmptyLines | api/config/Environment.php:15 | the lines left after skipping empty ones are all non-empty |
| Environment.Lines | api/config/Environment.php:15 | file() with the ignore-new-lines and skip-empty-lines flags gives only non-empty lines |
| Environment.Unquote | api/config/Environment.php:31-34 | a value starting and ending with the same quote loses one byte on each side; any other value is kept |
| Environment.ParseLine | api/config/Environment.php:19-34 | a comment line, or a line without '=', sets nothing |
| Environment.Effects | api/config/Environment.php:17-41 | one effect per line, each being that line's parse |
| Environment.LoadLine | api/config/Environment.php:36-39 | the write at the end of one turn of the foreach applies the line's effect to the environment |
| Environment.ApplyStep | api/config/Environment.php:17-41 | applying one more effect after a prefix is one step of the application |
| Environment.ApplyKeys | api/config/Environment.php:37-39 | the variables set afterwards are those set before plus the key of every line that sets one |
| Environment.ApplyLines | api/config/Environment.php:17-41 | the foreach applies the lines' effects in order and stops at the first line putenv() refuses, with the environment as the lines before it left it |
| Environment.FirstRejected | api/config/Environment.php:37 | the first line whose key trims to "", and None exactly when there is none |
| Environment.RejectedAt | api/config/Environment.php:37 | a refused line after a run of accepted ones is the first refused line |
| Environment.NoneRejected | api/config/Environment.php:37 | with no refused line there is no first one |
| Environment.EmptyKeyRejected | api/config/Environment.php:25-37 | a line "=value" that is not a comment has an empty key, which putenv() refuses |
| Environment.Load | api/config/Environment.php:6-42 | a missing file fails with the path in the message; a line whose key trims to "" aborts with putenv()'s ValueError, after the lines before it took effect; otherwise the environment after every line's effect in order |
| Environment.LastWriteWins | api/config/Environment.php:37-39 | a key holds the value of the last line that assigns it |
| Environment.UnassignedKept | api/config/Environment.php:37-39 | a key no line assigns keeps its value, or stays absent |
| Environment.CommentIgnored | api/config/Environment.php:19-21 | a line whose trimmed form starts with '#' sets nothing, even with an '=' |
| Environment.SplitAtFirstEquals | api/config/Environment.php:24-28 | the line splits at its first '=', so the value keeps later '=', and both sides are trimmed |
| Environment.QuotesStripped | api/config/Environment.php:31-34 | exactly one outer quote is removed on each side, so inner quotes stay |
| Environment.MismatchedQuotesKept | api/config/Environment.php:31-32 | a value with different opening and closing quotes is kept |
| Environment.LinesOfText | api/config/Environment.php:15 | lines end at '\n', a '\r' before it goes too, and blank lines are skipped |
| SimpleJWT.UrlSafeOutput | api/helpers/simple/SimpleJWT.php:14-18 | base64url output holds no '+', '/' or '=' and adds no '.'; without '+' and '/' only the padding is removed |
| SimpleJWT.UrlSafe | api/helpers/simple/SimpleJWT.php:14 | the base64url text holds no '+', '/' or '=' and is never longer than the base64 text |
| SimpleJWT.HeaderPart | api/helpers/simple/SimpleJWT.php:11-14 | the header part holds no '+', '/' or '=', is no longer than the base64 text, holds no '.' when that text holds none, and is that text without its '=' padding when it holds no '+' or '/' |
| SimpleJWT.PayloadPart | api/helpers/simple/SimpleJWT.php:12-15 | the payload part has the same four properties over the base64 of the encoded payload |
| SimpleJWT.Signature | api/helpers/simple/SimpleJWT.php:17-18 | the signature part has the same four properties over the base64 of the raw HMAC of header.payload |
| SimpleJWT.Encode | api/helpers/simple/SimpleJWT.php:10-21 | the token holds no '+', '/' or '=' |
| SimpleJWT.EncodeHasThreeParts | api/helpers/simple/SimpleJWT.php:20 | the token splits at '.' into exactly header, payload and the signature of the first two |
| SimpleJWT.TokenParts | api/helpers/simple/SimpleJWT.php:20-24 | three dot-free parts joined by '.' split back into those three |
| SimpleJWT.Decode | api/helpers/simple/SimpleJWT.php:23-47 | invalid exactly when there are not 3 parts; bad signature exactly when the recomputed one differs; expired exactly when exp is below now; and conversely, three parts with a matching signature and an unexpired payload give that decoded payload |
| SimpleJWT.RoundTrip | api/helpers/simple/SimpleJWT.php:10-47 | decoding an encoded payload gives it back, when the base64 and JSON round trips hold and it is not expired |
| SimpleJWT.AlteredSignatureRefused | api/helpers/simple/SimpleJWT.php:32-37 | a token whose third part is not the header and payload's signature is refused as a bad signature |
| SimpleJWT.ExpiryIsStrict | api/helpers/simple/SimpleJWT.php:42 | exp equal to now has not expired; exp one second earlier has |
| SimpleJWT.Expired | api/helpers/simple/SimpleJWT.php:42 | an integer exp has expired exactly when it is below now; an exp that is neither an integer nor a boolean never expires |
| SimpleJWT.NoExpiryNeverExpires | api/helpers/simple/SimpleJWT.php:42 | a payload without exp, or with a null exp, never expires |

## Left out

- **Authentication in the controllers** (`JWTHelper::getBearerToken` / `validateToken` and the 401 answers): the user id is a parameter. JWTHelper.php is not part of this model.
- **I/O and transport:** the HTTP transport, `$http_response_header` parsing and `Content-Length` are left out as network I/O. The provider's answer is a parameter: code, raw body, decoded body and last error.
- **Foreign functions:** sha1, HMAC-SHA256, base64, `json_encode`/`json_decode`, `filter_var` and `password_verify` are parameters. JSON text is not modelled, so decoded values stand in for it.
- **E-mails:** confirmation, admin and two-step-code e-mails (EmailService.php) are delivery side effects, and EmailService.php is not part of this model.
- **Side effects:** activity logging, `error_log` and the debug arrays are side effects with no bearing on the result.
- **Floating point:** the `(string)`/`(float)` conversions of coordinates are left out. Coordinates are their decimal text.
- **Clock:** `strtotime`/`date` rendering, `date('Hi')`, `new DateTime()` and `NOW()` are parameters. The past-date debug check in `create` only writes a log line.
- **Audit columns:** the JSON-serialised columns `guardarReservaEnBD` writes (pickup/destination JSON, passengers details) are left out as persistence formatting. The row keeps the booking data and the provider data instead.
- **Exceptions:** the 500 answers of the `catch` blocks, and a failing database statement.
- **Other endpoints:** `getReservationDetail`, `getUserReservations`, `downloadReceipt` and the receipt and e-mail formatting, which are presentation. So are logout, refresh, `verifyTwoFactor` and `confirmEnableTwoFactor` beyond the e-mail mask, and login beyond the answer it gives when two-step verification is on (the code generation, the mail and the token are parameters or left out), and the database writes of the profile, password and two-step endpoints after their checks.
- **Grouped locations:** their JSON rendering, and `searchLocations`' query.
- **Request bodies:** type checks on body fields. `trim` on a non-string is not modelled, and fields are strings or absent.
- Activity.PageLimit / Activity.PageOffset: the integer cast is unbounded. PHP's `(int)` saturates at the platform's integer width.
- PhpString.IntCast: a numeric string with a fraction or an exponent is read exactly and truncated. PHP goes through a double, so a value beyond 2^53 or with a long fraction may round differently; hexadecimal, octal and binary prefixes are not numeric strings in PHP and read as their leading digit run here as well.
- Environment.Load: the path is a parameter. Every caller calls `load()` without an argument and so relies on the default `__DIR__ . '/../../.env'` (the repository root's `.env`); that default and the file system behind it are not modelled. `putenv`, `$_ENV` and `$_SERVER` receive the same writes and are one map. The abort on an empty key is PHP 8's putenv(); under PHP 7 putenv() only warns and the loop goes on, which is not modelled.
- Environment.ApplyLines: every line is parsed before the writes start. The parse is pure, so only the order of evaluation differs from the foreach, not the result.
- Environment.ParseLine: its contract states the two ignore cases only. The value of an assigning line is stated by `SplitAtFirstEquals` and `LastWriteWins`.
- SimpleJWT.Expired: only an integer or boolean `exp` is compared. PHP's loose comparison of a string or float `exp` with `time()` is not modelled, so such a payload counts as unexpired.
- SimpleJWT.Decode: `base64_decode` receives the URL-safe text as the token carries it, as in the source. Nothing maps '-' and '_' back, so `RoundTrip` requires the payload's base64 to hold no '+' or '/'.
