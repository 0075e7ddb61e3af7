# NYT best-sellers proxy: request validation and query shaping

This project models the decision-making core of a thin Laravel proxy in
front of the New York Times best-sellers history API. The proxy:

1. validates an inbound `GET /api/1/nyt/best-sellers` request against the
   `BestSellersRequest` rule table, using the `IsbnLengthRule` shape check
   on each ISBN;
2. turns the validated filters into the outbound query: it joins the ISBN
   list with `;` and merges the filters with the configured `api-key`.

The model is functional, as the source is. The source has no loops and no
mutable objects. Its only in-place update is overwriting one entry of a
local array, and that becomes a map built from the filters.

- `wrappers.dfy` (`Wrappers`) holds `Option` and `Result`.
- `php.dfy` (`Php`) models the PHP built-ins the pipeline relies on:
  - request values (string, array or null);
  - `is_numeric`, as the PHP 8 numeric-string grammar recognised by a finite automaton;
  - `implode`, with `explode` as its inverse;
  - `filter_var(..., FILTER_VALIDATE_INT)` over the 64-bit range;
  - the decimal form of an integer.
- `isbn_length_rule.dfy` (`IsbnLengthRule`) models the validation rule.
  A value passes when it is numeric and its byte length is 10 or 13.
  Otherwise `$fail` is called once, with a message naming the attribute.
- `best_sellers_request.dfy` (`BestSellersRequest`) models the rule table
  as `Validate(input): Result<Filters, seq<Violation>>`:
  - every field is optional;
  - violations accumulate: `author`, `isbn`, `title`, `offset`, with the
    elements of `isbn` reported where `isbn` stands;
  - each ISBN element is reported under its own name (`isbn.0`, `isbn.1`, ...);
  - on success the filters hold exactly the fields of the table that were sent.
- `api_controller.dfy` (`ApiController`) models `bestSellers` up to the outbound call:
  - `BuildQuery` is `['api-key' => $key, ...$filters]`, with the ISBN list joined.
  - `BestSellers` composes validation and query building. The configured key is a parameter.

Three behaviours of the code are easy to misread; the model follows the
code:

- The ISBN rule uses `is_numeric`, not "digits only". A signed or decimal
  string of length 10 or 13 passes (`IsbnLengthRule.NonDigitStringsPass`).
- `isset` holds for an empty array. So an empty `isbn[]` list sends
  `isbn` with the empty string; the key is not dropped
  (`ApiController.EmptyIsbnListScenario`).
- The response relay always answers 200 with the upstream body, whatever
  the upstream status. The relay is not modelled (see below).

## Model

| member | source | states |
|---|---|---|
| Php.AllDigitsIsNumeric | app/Rules/IsbnLengthRule.php:19 | every non-empty string of decimal digits is accepted by `is_numeric` |
| Php.SignedIsNumeric | app/Rules/IsbnLengthRule.php:19 | `is_numeric` accepts a leading sign: "-123456789" is numeric but not all digits |
| Php.DecimalIsNumeric | app/Rules/IsbnLengthRule.php:19 | `is_numeric` accepts a decimal point: "1.23456789" is numeric but not all digits |
| Php.ExponentIsNumeric | app/Rules/IsbnLengthRule.php:19 | `is_numeric` accepts leading whitespace and an exponent: " 1e1234567" is numeric |
| Php.IsNumeric | app/Rules/IsbnLengthRule.php:19 | `is_numeric` on a string, as the PHP 8 numeric-string grammar; a numeric string holds at least one digit |
| Php.LettersAreNotNumeric | app/Rules/IsbnLengthRule.php:19 | any string with a letter other than 'e' or 'E', anywhere, is not numeric |
| Php.NumericChars | app/Rules/IsbnLengthRule.php:19 | a numeric string holds only digits, signs, '.', 'e', 'E' and whitespace |
| Php.NumericHasNoSemicolon | app/Rules/IsbnLengthRule.php:19 | a numeric string never contains the ';' used to join ISBNs |
| Php.Implode | app/Http/Controllers/ApiController.php:21 | the joined string is as long as the pieces plus one separator between each neighbouring pair, and starts with the first piece |
| Php.ExplodeImplode | app/Http/Controllers/ApiController.php:21 | splitting a joined non-empty list on the separator gives back the list, when no piece holds the separator |
| Php.ImplodeInjective | app/Http/Controllers/ApiController.php:21 | joining non-empty separator-free lists is injective |
| Php.NatToString | app/Http/Requests/BestSellersRequest.php:20 | the decimal form used in element names (`isbn.<i>`) has no redundant leading zero and denotes the number |
| Php.ParseInt | app/Http/Requests/BestSellersRequest.php:22 | the `integer` rule's parse: an accepted string is a spelling of the value it yields (its decimal form, that form after '+', or "-0" for zero), and the value is in the 64-bit range |
| Php.CanonicalRoundTrip | app/Http/Requests/BestSellersRequest.php:22 | digits without a redundant leading zero are the decimal form of the number they denote |
| Php.ParseIntToString | app/Http/Requests/BestSellersRequest.php:22 | the `integer` rule reads back the decimal form of every 64-bit integer as that integer |
| IsbnLengthRule.FailureMessage | app/Rules/IsbnLengthRule.php:20 | the failure message names the attribute under validation |
| IsbnLengthRule.Validate | app/Rules/IsbnLengthRule.php:16-22 | `$fail` is not called iff the value is a numeric string of byte length 10 or 13; otherwise it is called once, with the attribute's message |
| IsbnLengthRule.DigitStringsPass | app/Rules/IsbnLengthRule.php:19 | every all-digit string of length 10 or 13 passes |
| IsbnLengthRule.NonDigitStringsPass | app/Rules/IsbnLengthRule.php:19 | the converse fails: signed and decimal numeric strings of length 10 pass as well |
| IsbnLengthRule.NonNumericFails | app/Rules/IsbnLengthRule.php:19-21 | every non-numeric string fails, whatever its length, with the attribute's message |
| IsbnLengthRule.LettersFail | app/Rules/IsbnLengthRule.php:19-21 | every string with a letter other than 'e' or 'E' fails, even at length 10 or 13, with the attribute's message |
| IsbnLengthRule.WrongLengthFails | app/Rules/IsbnLengthRule.php:19-21 | any string whose length is not 10 or 13 fails, whatever its content |
| IsbnLengthRule.UnitTestAcceptsTen | tests/Unit/IsbnLengthRuleTest.php:14 | the ten-digit row of the rule's test table passes |
| IsbnLengthRule.UnitTestAcceptsThirteen | tests/Unit/IsbnLengthRuleTest.php:15 | the thirteen-digit row of the rule's test table passes |
| IsbnLengthRule.UnitTestRejected | tests/Unit/IsbnLengthRuleTest.php:16-19 | the rows of lengths 9, 14, 11 and 15 fail |
| BestSellersRequest.PresentFields | app/Http/Requests/BestSellersRequest.php:17-23 | the fields of validated filters are among `author`, `isbn`, `title` and `offset` |
| BestSellersRequest.IsOffset | app/Http/Requests/BestSellersRequest.php:22 | a value passing `integer`, `gte:0` and `multiple_of:20` is a spelling of a non-negative multiple of 20 |
| BestSellersRequest.StringViolations | app/Http/Requests/BestSellersRequest.php:18 | the `string` rule reports nothing iff the field is absent or a string |
| BestSellersRequest.ItemViolations | app/Http/Requests/BestSellersRequest.php:20 | the element rules report nothing iff the element is a string passing the ISBN rule; every report names that element |
| BestSellersRequest.ItemsViolations | app/Http/Requests/BestSellersRequest.php:20 | the element rules over a list report nothing iff every element passes |
| BestSellersRequest.ItemsViolationsNameOffenders | app/Http/Requests/BestSellersRequest.php:20 | every element report names, by index, an element that fails |
| BestSellersRequest.ItemsViolationsReportOffenders | app/Http/Requests/BestSellersRequest.php:20 | every failing element is reported under its own index |
| BestSellersRequest.IsbnViolations | app/Http/Requests/BestSellersRequest.php:19-20 | the `array` rule and the element rules report nothing iff `isbn` is absent or a list of well-shaped ISBNs; a scalar `isbn` gets exactly the `array` violation |
| BestSellersRequest.OffsetViolations | app/Http/Requests/BestSellersRequest.php:22 | the offset rules report nothing iff `offset` is absent or passes all three; every report is the offset violation |
| BestSellersRequest.Violations | app/Http/Requests/BestSellersRequest.php:17-23 | no rule of the table is broken iff the request is acceptable field by field |
| BestSellersRequest.Validated | app/Http/Requests/BestSellersRequest.php:17-23 | validated filters hold exactly the table's fields that were sent, values unchanged, ISBNs in order; every ISBN is well-shaped and the offset is a page boundary |
| BestSellersRequest.Validate | app/Http/Requests/BestSellersRequest.php:17-23 | a request is accepted iff every rule holds; a rejection carries at least one violation; an acceptance yields the validated filters |
| BestSellersRequest.ViolationsNameFailingFields | app/Http/Requests/BestSellersRequest.php:17-23 | every reported violation names a field, or an element of `isbn`, that breaks its rules |
| BestSellersRequest.BadIsbnElementRejects | app/Http/Requests/BestSellersRequest.php:20 | in any request, whatever its other parameters, one failing `isbn` element rejects the request, and the rejection names that element |
| BestSellersRequest.EmptyInputValidates | app/Http/Requests/BestSellersRequest.php:17-23 | a request without parameters validates to empty filters |
| BestSellersRequest.UnknownKeysIgnored | app/Http/Requests/BestSellersRequest.php:17-23 | a parameter outside the table changes neither acceptance nor the filters |
| BestSellersRequest.ScalarIsbnRejected | app/Http/Requests/BestSellersRequest.php:19 | a scalar `isbn` is rejected by the `array` rule alone, whatever its content |
| BestSellersRequest.OffsetAcceptedIff | app/Http/Requests/BestSellersRequest.php:22 | for every 64-bit integer, its decimal form is accepted as `offset` iff it is non-negative and a multiple of 20 |
| BestSellersRequest.OffsetTestAccepted | tests/Feature/ApiTest.php:105-107 | offsets 0 and 40 pass |
| BestSellersRequest.OffsetTestRejected | tests/Feature/ApiTest.php:118-130 | offset 41 (not a multiple of 20) and -20 (negative) are rejected |
| BestSellersRequest.IsbnListAccepted | app/Http/Requests/BestSellersRequest.php:19-20 | a list of well-shaped ISBNs validates to exactly that list, in order |
| ApiController.FormatFilters | app/Http/Controllers/ApiController.php:20-22 | the filters keep their keys; author, title and offset are unchanged and the ISBN list is joined with ';' |
| ApiController.BuildQuery | app/Http/Controllers/ApiController.php:25-28 | the query's keys are exactly `api-key` and the filters' keys; `api-key` carries the configured key, which the spread cannot override; the other values are the filters', with the ISBN list joined |
| ApiController.IsbnJoinRoundTrip | app/Http/Controllers/ApiController.php:20-22 | the sent `isbn` value splits on ';' back into the validated list, in order |
| ApiController.IsbnQueryInjective | app/Http/Controllers/ApiController.php:20-22 | distinct validated ISBN lists, the empty one included, give distinct `isbn` values |
| ApiController.BestSellers | app/Http/Controllers/ApiController.php:17-28 | a query is built iff the request is acceptable; its keys are `api-key` and the table's fields that were sent; author, title and offset pass through unchanged; `isbn` is the sent elements joined with ';', in order |
| ApiController.NoParametersScenario | tests/Feature/ApiTest.php:45-51 | no parameters send only `api-key` |
| ApiController.WithAuthorScenario | tests/Feature/ApiTest.php:61-68 | `author=Martin` is sent unchanged beside the key |
| ApiController.WithAuthorAndTitleScenario | tests/Feature/ApiTest.php:132-139 | `author` and `title` are both sent unchanged |
| ApiController.OffsetScenarios | tests/Feature/ApiTest.php:103-130 | offset 40 is sent unchanged; 41 and -20 build no query |
| ApiController.WithTitleAndOffsetScenario | tests/Feature/ApiTest.php:146-153 | `title=King&offset=40` is sent unchanged beside the key |
| ApiController.IsbnOnlyQuery | app/Http/Controllers/ApiController.php:20-28 | filters holding only ISBNs give the key and the joined list, nothing else |
| ApiController.IsbnListQuery | app/Http/Controllers/ApiController.php:17-28 | a request of well-shaped ISBNs sends them joined with ';', in order, beside the key |
| ApiController.SingleIsbnSentUnchanged | app/Http/Controllers/ApiController.php:21 | a one-element ISBN list is sent as that element, unchanged |
| ApiController.WithSingleIsbnScenario | tests/Feature/ApiTest.php:75-82 | `isbn[0]=0744080045` sends `isbn=0744080045` |
| ApiController.InboundKeysNotForwarded | app/Http/Controllers/ApiController.php:17-28 | a parameter outside the table, an inbound `api-key` among them, changes nothing in the outcome |
| ApiController.TwoIsbnsSent | app/Http/Controllers/ApiController.php:20-22 | any two well-shaped ISBNs (numeric, 10 or 13 bytes; signed and decimal ones included) are sent joined with ';', in order |
| ApiController.SignedAndDecimalIsbnsSent | app/Http/Controllers/ApiController.php:20-22 | the signed "-123456789" and the decimal "1.23456789" pass and are sent as `-123456789;1.23456789` |
| ApiController.TwoIsbnsJoined | app/Http/Controllers/ApiController.php:17-28 | two all-digit ISBNs of length 10 or 13 are joined in order, and a caller's `api-key` is replaced by the configured one |
| ApiController.WithMultipleIsbnScenario | tests/Feature/ApiTest.php:94-101 | `isbn[]=9780446579933&isbn[]=0061374229&api-key=...` sends `isbn=9780446579933;0061374229` and the configured key |
| ApiController.WithInvalidIsbnLengthScenario | tests/Feature/ApiTest.php:87-91 | the scalar eight-digit `isbn=97800611` is rejected and no query is built |
| ApiController.EmptyIsbnListScenario | app/Http/Controllers/ApiController.php:20-21 | an empty ISBN list still sends `isbn`, as the empty string |

## Left out

- The outbound HTTP call (`Http::acceptJson()->get(...)`) and its `ConnectionException`: these are network I/O through a client library that is not shown.
- The response relay. It answers with the upstream JSON body and always with status 200.
- `config(...)` lookups: the API URL is not modelled, and the API key is a parameter of `BuildQuery` and `BestSellers`.
- The order of query parameters and their percent-encoding (`;` as `%3B`, space as `%20`). The HTTP client library decides both. The query is a map, so it says nothing about order. The feature tests expect `api-key` last.
- The FormRequest machinery that turns a rejection into a 422 response with framework-worded messages. The model keeps the decision and, for each violation, the attribute and the rule that failed. Only the ISBN rule's own message text is modelled.
- The framework's input middleware. Trimming of strings is not modelled. Empty parameters arrive as `Null`, and `Null` fails the `string`, `array` and element rules.
- The validator's skipping of rules for empty strings. The middleware has already turned every empty string into null, so it never applies here.
- JSON request bodies with typed values (integers, booleans, nested objects). Values are query-string scalars and arrays only, and an `isbn` array is modelled as a list: an associative array with non-numeric keys is not distinguished.
- The names and order of element violations. The model names an element by its position in the list, so `isbn[5]=...` sent alone is reported as `isbn.0`; the framework names it by its key, `isbn.5`. The framework also checks the expanded `isbn.N` rules after `offset`, while the model reports them where `isbn` stands.
- BestSellersRequest.OffsetViolations: reports `integer`, `gte:0` and `multiple_of:20` as one violation. The per-rule messages, and how `gte` and `multiple_of` compare a value that is not an integer, are not modelled.
- Php.ParseInt: does not strip the leading and trailing whitespace that `FILTER_VALIDATE_INT` tolerates, so " 40" is rejected here.
- Php.IsNumeric: strings count bytes as characters. Multi-byte characters and NUL bytes are not distinguished.
- Hexadecimal, octal, binary and `_`-separated numerals are not numeric strings in PHP 8, and the model agrees. Values whose `is_numeric` answer differs between PHP versions are not modelled.
