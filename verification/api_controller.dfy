/**
 * `ApiController::bestSellers` up to the outbound request: the validated
 * filters have their ISBN list joined with ';' and are merged with the
 * configured API key into the query sent upstream. The HTTP call itself and
 * the relay of its response are not part of this model; the configured key
 * is a parameter.
 */
module ApiController {
  import opened Wrappers
  import opened Php
  import opened BestSellersRequest

  /** The query parameter that carries the configured key. */
  const ApiKeyParameter: string := "api-key"

  /** The separator placed between joined ISBNs. */
  const IsbnSeparator: char := ';'

  /** `$filters` once the ISBN list, when set, has been replaced by its joined form. */
  function FormatFilters(f: Filters): (m: map<string, string>)
    ensures m.Keys == PresentFields(f)
    ensures f.author.Some? ==> m["author"] == f.author.value
    ensures f.title.Some? ==> m["title"] == f.title.value
    ensures f.offset.Some? ==> m["offset"] == f.offset.value
    ensures f.isbn.Some? ==> m["isbn"] == Implode([IsbnSeparator], f.isbn.value)
  {
    (if f.author.Some? then map["author" := f.author.value] else map[])
    + (if f.isbn.Some? then map["isbn" := Implode([IsbnSeparator], f.isbn.value)] else map[])
    + (if f.title.Some? then map["title" := f.title.value] else map[])
    + (if f.offset.Some? then map["offset" := f.offset.value] else map[])
  }

  /**
   * The query `['api-key' => $apiKey, ...$filters]`. The filter names never
   * include `api-key`, so the spread cannot override the configured key.
   */
  function BuildQuery(f: Filters, apiKey: string): (q: map<string, string>)
    ensures q.Keys == {ApiKeyParameter} + PresentFields(f)
    ensures q[ApiKeyParameter] == apiKey
    ensures f.author.Some? ==> q["author"] == f.author.value
    ensures f.title.Some? ==> q["title"] == f.title.value
    ensures f.offset.Some? ==> q["offset"] == f.offset.value
    ensures f.isbn.Some? ==> q["isbn"] == Implode([IsbnSeparator], f.isbn.value)
  {
    assert ApiKeyParameter !in FieldNames;
    map[ApiKeyParameter := apiKey] + FormatFilters(f)
  }

  /** A joined ISBN list splits back into the list, in order. */
  lemma IsbnJoinRoundTrip(f: Filters, apiKey: string)
    requires ValidFilters(f) && f.isbn.Some? && |f.isbn.value| >= 1
    ensures Explode(IsbnSeparator, BuildQuery(f, apiKey)["isbn"]) == f.isbn.value
  {
    forall i | 0 <= i < |f.isbn.value| ensures IsbnSeparator !in f.isbn.value[i] {
      assert IsIsbnItem(Str(f.isbn.value[i]));
      NumericHasNoSemicolon(f.isbn.value[i]);
    }
    ExplodeImplode(IsbnSeparator, f.isbn.value);
  }

  /** Distinct validated ISBN lists, the empty list included, give distinct `isbn` values. */
  lemma IsbnQueryInjective(f: Filters, g: Filters, apiKey: string)
    requires ValidFilters(f) && f.isbn.Some? && ValidFilters(g) && g.isbn.Some?
    requires BuildQuery(f, apiKey)["isbn"] == BuildQuery(g, apiKey)["isbn"]
    ensures f.isbn == g.isbn
  {
    var xs, ys := f.isbn.value, g.isbn.value;
    if |xs| >= 1 && |ys| >= 1 {
      IsbnJoinRoundTrip(f, apiKey);
      IsbnJoinRoundTrip(g, apiKey);
    }
  }

  /**
   * `bestSellers` up to the outbound call: a rejected request yields its
   * violations (and no upstream query); an accepted one yields the query.
   */
  function BestSellers(input: Input, apiKey: string): (r: Result<map<string, string>, seq<Violation>>)
    ensures r.Ok? <==> Acceptable(input)
    ensures r.Err? ==> |r.error| > 0
    ensures r.Ok? ==> r.value.Keys == {ApiKeyParameter} + (input.Keys * FieldNames)
    ensures r.Ok? ==> r.value[ApiKeyParameter] == apiKey
    ensures r.Ok? ==> forall k :: k in {"author", "title", "offset"} && k in input ==> r.value[k] == input[k].s
    ensures r.Ok? && "isbn" in input ==>
      r.value["isbn"] == Implode([IsbnSeparator], seq(|input["isbn"].items|, i requires 0 <= i < |input["isbn"].items| => input["isbn"].items[i].s))
  {
    match Validate(input) {
      case Ok(f) => Ok(BuildQuery(f, apiKey))
      case Err(vs) => Err(vs)
    }
  }

  /** A request with no parameters sends only the key. */
  lemma NoParametersScenario(apiKey: string)
    ensures BestSellers(map[], apiKey) == Ok(map[ApiKeyParameter := apiKey])
  {
    EmptyInputValidates();
    var q := BuildQuery(Filters(None, None, None, None), apiKey);
    assert q == map[ApiKeyParameter := apiKey];
  }

  /** `author=Martin` is forwarded unchanged beside the key. */
  lemma WithAuthorScenario(apiKey: string)
    ensures BestSellers(map["author" := Str("Martin")], apiKey)
         == Ok(map[ApiKeyParameter := apiKey, "author" := "Martin"])
  {
    var f := Filters(Some("Martin"), None, None, None);
    assert Validate(map["author" := Str("Martin")]) == Ok(f);
    assert BuildQuery(f, apiKey) == map[ApiKeyParameter := apiKey, "author" := "Martin"];
  }

  /** `author` and `title` together are both forwarded unchanged. */
  lemma WithAuthorAndTitleScenario(apiKey: string)
    ensures BestSellers(map["author" := Str("George RR Martin"), "title" := Str("A CLASH OF KINGS")], apiKey)
         == Ok(map[ApiKeyParameter := apiKey, "author" := "George RR Martin", "title" := "A CLASH OF KINGS"])
  {
    var f := Filters(Some("George RR Martin"), None, Some("A CLASH OF KINGS"), None);
    assert Validate(map["author" := Str("George RR Martin"), "title" := Str("A CLASH OF KINGS")]) == Ok(f);
    assert BuildQuery(f, apiKey)
        == map[ApiKeyParameter := apiKey, "author" := "George RR Martin", "title" := "A CLASH OF KINGS"];
  }

  /** `offset=40` passes and is forwarded as sent; 41 and -20 are rejected before any query is built. */
  lemma OffsetScenarios(apiKey: string)
    ensures BestSellers(map["offset" := Str("40")], apiKey) == Ok(map[ApiKeyParameter := apiKey, "offset" := "40"])
    ensures BestSellers(map["offset" := Str("41")], apiKey).Err?
    ensures BestSellers(map["offset" := Str("-20")], apiKey).Err?
  {
    OffsetTestAccepted();
    OffsetTestRejected();
    var f := Filters(None, None, None, Some("40"));
    assert Validate(map["offset" := Str("40")]) == Ok(f);
    assert BuildQuery(f, apiKey) == map[ApiKeyParameter := apiKey, "offset" := "40"];
  }

  /** `title=King&offset=40` forwards both. */
  lemma WithTitleAndOffsetScenario(apiKey: string)
    ensures BestSellers(map["title" := Str("King"), "offset" := Str("40")], apiKey)
         == Ok(map[ApiKeyParameter := apiKey, "title" := "King", "offset" := "40"])
  {
    OffsetTestAccepted();
    var input := map["title" := Str("King"), "offset" := Str("40")];
    assert IsOffset(input["offset"]);
    var f := Filters(None, None, Some("King"), Some("40"));
    assert Validate(input) == Ok(f);
    assert BuildQuery(f, apiKey) == map[ApiKeyParameter := apiKey, "title" := "King", "offset" := "40"];
  }

  /** Filters holding only an ISBN list give a query of the key and the joined list. */
  lemma IsbnOnlyQuery(isbns: seq<string>, apiKey: string)
    ensures BuildQuery(Filters(None, Some(isbns), None, None), apiKey)
         == map[ApiKeyParameter := apiKey, "isbn" := Implode([IsbnSeparator], isbns)]
  {
    var q := BuildQuery(Filters(None, Some(isbns), None, None), apiKey);
    assert q.Keys == {ApiKeyParameter, "isbn"};
  }

  /** A request carrying only well-formed ISBNs sends them joined with ';', in order, beside the key. */
  lemma IsbnListQuery(items: seq<Value>, isbns: seq<string>, apiKey: string)
    requires |items| == |isbns| && forall i :: 0 <= i < |items| ==> items[i] == Str(isbns[i])
    requires forall i :: 0 <= i < |items| ==> IsIsbnItem(items[i])
    ensures BestSellers(map["isbn" := List(items)], apiKey)
         == Ok(map[ApiKeyParameter := apiKey, "isbn" := Implode([IsbnSeparator], isbns)])
  {
    IsbnListAccepted(items, isbns);
    IsbnOnlyQuery(isbns, apiKey);
  }

  /** A one-element ISBN list is sent as that element, unchanged. */
  lemma SingleIsbnSentUnchanged(isbn: string, apiKey: string)
    requires IsIsbnItem(Str(isbn))
    ensures BestSellers(map["isbn" := List([Str(isbn)])], apiKey) == Ok(map[ApiKeyParameter := apiKey, "isbn" := isbn])
  {
    IsbnListQuery([Str(isbn)], [isbn], apiKey);
  }

  /** The single-ISBN feature test: `isbn[0]=0744080045` sends `isbn=0744080045`. */
  lemma WithSingleIsbnScenario(apiKey: string)
    ensures BestSellers(map["isbn" := List([Str("0744080045")])], apiKey)
         == Ok(map[ApiKeyParameter := apiKey, "isbn" := "0744080045"])
  {
    IsbnLengthRule.DigitStringsPass("isbn.0", "0744080045");
    SingleIsbnSentUnchanged("0744080045", apiKey);
  }

  /** Parameters outside the rule table, an inbound `api-key` among them, never reach the query. */
  lemma InboundKeysNotForwarded(input: Input, key: string, value: Value, apiKey: string)
    requires key !in FieldNames
    ensures BestSellers(input[key := value], apiKey) == BestSellers(input, apiKey)
  {
    UnknownKeysIgnored(input, key, value);
  }

  /** Two well-shaped ISBNs, signed or decimal ones included, are sent joined with ';', in the order given. */
  lemma TwoIsbnsSent(first: string, second: string, apiKey: string)
    requires IsIsbnItem(Str(first)) && IsIsbnItem(Str(second))
    ensures BestSellers(map["isbn" := List([Str(first), Str(second)])], apiKey)
         == Ok(map[ApiKeyParameter := apiKey, "isbn" := first + ";" + second])
  {
    var items := [Str(first), Str(second)];
    forall i | 0 <= i < |items| ensures IsIsbnItem(items[i]) {
      if i == 0 { assert items[i] == Str(first); } else { assert items[i] == Str(second); }
    }
    IsbnListQuery(items, [first, second], apiKey);
  }

  /**
   * Two ISBNs are joined with ';' in the order sent, and an `api-key` the
   * caller added is not forwarded: the configured key is sent instead.
   */
  lemma TwoIsbnsJoined(first: string, second: string, apiKey: string, callerKey: string)
    requires AllDigits(first) && IsbnLengthRule.IsIsbnLength(|first|)
    requires AllDigits(second) && IsbnLengthRule.IsIsbnLength(|second|)
    ensures BestSellers(map["isbn" := List([Str(first), Str(second)]), "api-key" := Str(callerKey)], apiKey)
         == Ok(map[ApiKeyParameter := apiKey, "isbn" := first + ";" + second])
  {
    var sent := map["isbn" := List([Str(first), Str(second)])];
    InboundKeysNotForwarded(sent, "api-key", Str(callerKey), apiKey);
    AllDigitsIsNumeric(first);
    AllDigitsIsNumeric(second);
    TwoIsbnsSent(first, second, apiKey);
  }

  /**
   * The multiple-ISBN feature test: `isbn[]=9780446579933&isbn[]=0061374229&api-key=...`
   * sends the two ISBNs joined, and the caller's `api-key` is replaced by the configured one.
   */
  lemma WithMultipleIsbnScenario(apiKey: string, callerKey: string)
    ensures BestSellers(map["isbn" := List([Str("9780446579933"), Str("0061374229")]), "api-key" := Str(callerKey)], apiKey)
         == Ok(map[ApiKeyParameter := apiKey, "isbn" := "9780446579933;0061374229"])
  {
    var joined := "9780446579933" + ";" + "0061374229";
    assert joined == "9780446579933;0061374229";
    TwoIsbnsJoined("9780446579933", "0061374229", apiKey, callerKey);
  }

  /** A signed and a decimal ISBN, both ten bytes, pass the rule and are sent joined as they are. */
  lemma SignedAndDecimalIsbnsSent(apiKey: string)
    ensures BestSellers(map["isbn" := List([Str("-123456789"), Str("1.23456789")])], apiKey)
         == Ok(map[ApiKeyParameter := apiKey, "isbn" := "-123456789;1.23456789"])
  {
    var joined := "-123456789" + ";" + "1.23456789";
    assert joined == "-123456789;1.23456789";
    assert IsIsbnItem(Str("-123456789")) by { SignedIsNumeric(); }
    assert IsIsbnItem(Str("1.23456789")) by { DecimalIsNumeric(); }
    TwoIsbnsSent("-123456789", "1.23456789", apiKey);
  }

  /** A scalar `isbn`, here eight digits, is rejected before any query is built. */
  lemma WithInvalidIsbnLengthScenario(apiKey: string)
    ensures BestSellers(map["isbn" := Str("97800611")], apiKey) == Err([Violation("isbn", NotAnArray)])
  {
    ScalarIsbnRejected("97800611");
  }

  /** `isset` holds for an empty array, so an empty ISBN list still sends `isbn` with the empty string. */
  lemma EmptyIsbnListScenario(apiKey: string)
    ensures BestSellers(map["isbn" := List([])], apiKey) == Ok(map[ApiKeyParameter := apiKey, "isbn" := ""])
  {
    IsbnListQuery([], [], apiKey);
  }
}
