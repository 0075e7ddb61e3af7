/**
 * The `BestSellersRequest` rule table, as an explicit validation function:
 *
 *   author   string
 *   isbn     array, and every element a string passing IsbnLengthRule
 *   title    string
 *   offset   integer, >= 0, a multiple of 20
 *
 * Every field is optional. All rules are checked and the violations
 * accumulate; any violation rejects the whole request. On success the
 * validated filters hold exactly the fields of the table that were sent.
 */
module BestSellersRequest {
  import opened Wrappers
  import opened Php
  import IsbnLengthRule

  /** The request parameters, by name. */
  type Input = map<string, Value>

  /** The fields the rule table names; nothing else is ever validated or forwarded. */
  const FieldNames: set<string> := {"author", "isbn", "title", "offset"}

  /** The validated request: the fields of the rule table that were present. */
  datatype Filters = Filters(
    author: Option<string>,
    isbn: Option<seq<string>>,
    title: Option<string>,
    offset: Option<string>)

  /** Which rule a value broke. `NotAnOffset` covers `integer`, `gte:0` and `multiple_of:20` together. */
  datatype Reason = NotAString | NotAnArray | IsbnShape(message: string) | NotAnOffset

  /** One failed attribute, named as the framework names it (`isbn.2` for the third ISBN). */
  datatype Violation = Violation(attribute: string, reason: Reason)

  /** An element of `isbn` that passes both `string` and `IsbnLengthRule`. */
  predicate IsIsbnItem(v: Value) {
    v.Str? && IsNumeric(v.s) && IsbnLengthRule.IsIsbnLength(|v.s|)
  }

  /**
   * A value that passes `integer`, `gte:0` and `multiple_of:20`: a spelling
   * of a non-negative multiple of 20.
   */
  predicate IsOffset(v: Value)
    ensures IsOffset(v) ==> v.Str? && exists n: nat :: n % 20 == 0 && IsIntForm(v.s, n)
  {
    v.Str? && match ParseInt(v.s) {
      case Some(n) => n >= 0 && n % 20 == 0
      case None => false
    }
  }

  /** The name the framework gives the element of `isbn` at `index`. */
  function ItemAttribute(index: nat): (attribute: string) {
    "isbn." + NatToString(index)
  }

  /** Acceptance, stated field by field. */
  predicate Acceptable(input: Input) {
    && ("author" in input ==> input["author"].Str?)
    && ("title" in input ==> input["title"].Str?)
    && ("isbn" in input ==>
          input["isbn"].List? && forall i :: 0 <= i < |input["isbn"].items| ==> IsIsbnItem(input["isbn"].items[i]))
    && ("offset" in input ==> IsOffset(input["offset"]))
  }

  /** `attribute` names a field, or an element of `isbn`, that breaks its rules. */
  predicate NamesFailingField(input: Input, attribute: string) {
    || (attribute in {"author", "title"} && attribute in input && !input[attribute].Str?)
    || (attribute == "isbn" && "isbn" in input && !input["isbn"].List?)
    || (attribute == "offset" && "offset" in input && !IsOffset(input["offset"]))
    || ("isbn" in input && input["isbn"].List? &&
        exists j :: 0 <= j < |input["isbn"].items| && attribute == ItemAttribute(j) && !IsIsbnItem(input["isbn"].items[j]))
  }

  /** The invariant of validated filters: every ISBN has the right shape and the offset is a page boundary. */
  predicate ValidFilters(f: Filters) {
    && (f.isbn.Some? ==> forall i :: 0 <= i < |f.isbn.value| ==> IsIsbnItem(Str(f.isbn.value[i])))
    && (f.offset.Some? ==> IsOffset(Str(f.offset.value)))
  }

  /** The names of the fields present in `f`. */
  function PresentFields(f: Filters): (names: set<string>)
    ensures names <= FieldNames
  {
    (if f.author.Some? then {"author"} else {})
    + (if f.isbn.Some? then {"isbn"} else {})
    + (if f.title.Some? then {"title"} else {})
    + (if f.offset.Some? then {"offset"} else {})
  }

  /** The present fields are exactly the table's fields among `keys` when each is present iff it is in `keys`. */
  lemma PresentFieldsAre(f: Filters, keys: set<string>)
    requires f.author.Some? <==> "author" in keys
    requires f.isbn.Some? <==> "isbn" in keys
    requires f.title.Some? <==> "title" in keys
    requires f.offset.Some? <==> "offset" in keys
    ensures PresentFields(f) == keys * FieldNames
  {
    forall k ensures k in PresentFields(f) <==> k in keys * FieldNames {
      if k in FieldNames {
        assert k == "author" || k == "isbn" || k == "title" || k == "offset";
      }
    }
  }

  // ---------------------------------------------------------------------
  // The rules

  /** The `string` rule on an optional field. */
  function StringViolations(input: Input, attribute: string): (vs: seq<Violation>)
    ensures vs == [] <==> (attribute in input ==> input[attribute].Str?)
  {
    if attribute in input && !input[attribute].Str? then [Violation(attribute, NotAString)] else []
  }

  /** The rules `'isbn.*' => ['string', new IsbnLengthRule]` on one element; both run. */
  function ItemViolations(attribute: string, item: Value): (vs: seq<Violation>)
    ensures vs == [] <==> IsIsbnItem(item)
    ensures forall v :: v in vs ==> v.attribute == attribute
  {
    (if item.Str? then [] else [Violation(attribute, NotAString)])
    + match IsbnLengthRule.Validate(attribute, item) {
        case Some(message) => [Violation(attribute, IsbnShape(message))]
        case None => []
      }
  }

  /** The element rules on `items`, whose first element has index `from` in `isbn`. */
  function ItemsViolations(items: seq<Value>, from: nat): (vs: seq<Violation>)
    ensures vs == [] <==> forall i :: 0 <= i < |items| ==> IsIsbnItem(items[i])
    decreases |items|
  {
    if |items| == 0 then []
    else ItemViolations(ItemAttribute(from), items[0]) + ItemsViolations(items[1..], from + 1)
  }

  /** Every element violation names an element, by its index, that breaks the element rules. */
  lemma {:induction false} ItemsViolationsNameOffenders(items: seq<Value>, from: nat, v: Violation)
    requires v in ItemsViolations(items, from)
    ensures exists j :: 0 <= j < |items| && v.attribute == ItemAttribute(from + j) && !IsIsbnItem(items[j])
    decreases |items|
  {
    var head := ItemViolations(ItemAttribute(from), items[0]);
    if v in head {
      assert v.attribute == ItemAttribute(from + 0) && !IsIsbnItem(items[0]);
    } else {
      ItemsViolationsNameOffenders(items[1..], from + 1, v);
      var k :| 0 <= k < |items[1..]| && v.attribute == ItemAttribute(from + 1 + k) && !IsIsbnItem(items[1..][k]);
      assert v.attribute == ItemAttribute(from + (k + 1)) && !IsIsbnItem(items[k + 1]);
    }
  }

  /** The `array` rule on `isbn`, then the element rules; a scalar has no elements to check. */
  function IsbnViolations(input: Input): (vs: seq<Violation>)
    ensures vs == [] <==>
      ("isbn" in input ==> input["isbn"].List? && forall i :: 0 <= i < |input["isbn"].items| ==> IsIsbnItem(input["isbn"].items[i]))
    ensures "isbn" in input && !input["isbn"].List? ==> vs == [Violation("isbn", NotAnArray)]
  {
    if "isbn" !in input then []
    else match input["isbn"] {
      case List(items) => ItemsViolations(items, 0)
      case _ => [Violation("isbn", NotAnArray)]
    }
  }

  /** The rules `integer`, `gte:0` and `multiple_of:20` on `offset`. */
  function OffsetViolations(input: Input): (vs: seq<Violation>)
    ensures vs == [] <==> ("offset" in input ==> IsOffset(input["offset"]))
    ensures forall v :: v in vs ==> v == Violation("offset", NotAnOffset)
  {
    if "offset" in input && !IsOffset(input["offset"]) then [Violation("offset", NotAnOffset)] else []
  }

  /** Every violation, in the order of the rule table. */
  function Violations(input: Input): (vs: seq<Violation>)
    ensures vs == [] <==> Acceptable(input)
  {
    StringViolations(input, "author") + IsbnViolations(input)
    + StringViolations(input, "title") + OffsetViolations(input)
  }

  /**
   * `$request->validated()`: the fields of the rule table that were sent, and
   * nothing else, with their values unchanged.
   */
  function Validated(input: Input): (f: Filters)
    requires Acceptable(input)
    ensures ValidFilters(f) && PresentFields(f) == input.Keys * FieldNames
    ensures "author" in input ==> f.author == Some(input["author"].s)
    ensures "title" in input ==> f.title == Some(input["title"].s)
    ensures "offset" in input ==> f.offset == Some(input["offset"].s)
    ensures "isbn" in input ==>
      (f.isbn.Some? && |f.isbn.value| == |input["isbn"].items| &&
       forall i :: 0 <= i < |f.isbn.value| ==> Str(f.isbn.value[i]) == input["isbn"].items[i])
  {
    var f := Filters(
      if "author" in input then Some(input["author"].s) else None,
      if "isbn" in input then Some(seq(|input["isbn"].items|, i requires 0 <= i < |input["isbn"].items| => input["isbn"].items[i].s)) else None,
      if "title" in input then Some(input["title"].s) else None,
      if "offset" in input then Some(input["offset"].s) else None);
    PresentFieldsAre(f, input.Keys);
    assert "offset" in input ==> Str(f.offset.value) == input["offset"];
    f
  }

  /**
   * Validation of a request: the validated filters when every rule holds, or
   * the (non-empty) list of violations.
   */
  function Validate(input: Input): (r: Result<Filters, seq<Violation>>)
    ensures r.Ok? <==> Acceptable(input)
    ensures r.Err? ==> |r.error| > 0
    ensures r.Ok? ==> r.value == Validated(input)
  {
    var vs := Violations(input);
    if vs == [] then Ok(Validated(input)) else Err(vs)
  }

  /** Every violation reported names a field, or an element of `isbn`, that breaks its rules. */
  lemma ViolationsNameFailingFields(input: Input)
    ensures Validate(input).Err? ==> forall v :: v in Validate(input).error ==> NamesFailingField(input, v.attribute)
  {
    forall v | v in Violations(input) ensures NamesFailingField(input, v.attribute) {
      if v in StringViolations(input, "author") {
        assert v == Violation("author", NotAString);
      } else if v in IsbnViolations(input) {
        if input["isbn"].List? {
          ItemsViolationsNameOffenders(input["isbn"].items, 0, v);
        }
      } else if v in StringViolations(input, "title") {
        assert v == Violation("title", NotAString);
      } else {
        assert v in OffsetViolations(input);
      }
    }
  }

  /** Every offending element of `isbn` is reported under its own attribute name. */
  lemma {:induction false} ItemsViolationsReportOffenders(items: seq<Value>, from: nat, i: nat)
    requires i < |items| && !IsIsbnItem(items[i])
    ensures exists v :: v in ItemsViolations(items, from) && v.attribute == ItemAttribute(from + i)
    decreases |items|
  {
    var head := ItemViolations(ItemAttribute(from), items[0]);
    var tail := ItemsViolations(items[1..], from + 1);
    assert ItemsViolations(items, from) == head + tail;
    if i == 0 {
      assert head != [];
      var v := head[0];
      assert v in head && v.attribute == ItemAttribute(from + i);
    } else {
      assert items[1..][i - 1] == items[i];
      ItemsViolationsReportOffenders(items[1..], from + 1, i - 1);
      assert from + 1 + (i - 1) == from + i;
      var v :| v in tail && v.attribute == ItemAttribute(from + i);
      assert v in head + tail;
    }
  }

  /** One bad element rejects the whole request, and the rejection names that element. */
  lemma BadIsbnElementRejects(input: Input, items: seq<Value>, i: nat)
    requires "isbn" in input && input["isbn"] == List(items)
    requires i < |items| && !IsIsbnItem(items[i])
    ensures Validate(input).Err?
    ensures exists v :: v in Validate(input).error && v.attribute == ItemAttribute(i)
  {
    ItemsViolationsReportOffenders(items, 0, i);
    var v :| v in ItemsViolations(items, 0) && v.attribute == ItemAttribute(0 + i);
    assert IsbnViolations(input) == ItemsViolations(items, 0);
    assert v in Violations(input);
  }

  /** Every field is optional: a request with no parameters validates, to empty filters. */
  lemma EmptyInputValidates()
    ensures Validate(map[]) == Ok(Filters(None, None, None, None))
  {
  }

  /** Parameters outside the rule table, such as an inbound `api-key`, change nothing. */
  lemma UnknownKeysIgnored(input: Input, key: string, value: Value)
    requires key !in FieldNames
    ensures Validate(input[key := value]) == Validate(input)
  {
    var input' := input[key := value];
    assert forall f :: f in FieldNames ==> (f in input' <==> f in input) && (f in input ==> input'[f] == input[f]);
    assert Violations(input') == Violations(input);
    if Acceptable(input) {
      assert Validated(input') == Validated(input);
    }
  }

  /** A scalar `isbn` fails the `array` rule, whatever its content, and nothing else is reported. */
  lemma ScalarIsbnRejected(s: string)
    ensures Validate(map["isbn" := Str(s)]) == Err([Violation("isbn", NotAnArray)])
  {
    var input := map["isbn" := Str(s)];
    assert StringViolations(input, "author") == [] && StringViolations(input, "title") == [];
    assert OffsetViolations(input) == [];
    assert IsbnViolations(input) == [Violation("isbn", NotAnArray)];
    assert Violations(input) == [] + [Violation("isbn", NotAnArray)] + [] + [];
    assert Violations(input) == [Violation("isbn", NotAnArray)];
    assert Validate(input) == Err(Violations(input));
  }

  /** For every 64-bit integer, an offset is accepted exactly when it is non-negative and a multiple of 20. */
  lemma OffsetAcceptedIff(n: int)
    requires Int64Min <= n <= Int64Max
    ensures Validate(map["offset" := Str(IntToString(n))]).Ok? <==> n >= 0 && n % 20 == 0
  {
    ParseIntToString(n);
  }

  /** Offsets 0 and 40 pass. */
  lemma OffsetTestAccepted()
    ensures Validate(map["offset" := Str("0")]).Ok?
    ensures Validate(map["offset" := Str("40")]).Ok?
  {
    assert IntToString(0) == "0";
    OffsetAcceptedIff(0);
    assert IntToString(40) == "40";
    OffsetAcceptedIff(40);
  }

  /** Offset 41 is not a multiple of 20; -20 is a multiple of 20 but negative. Both are rejected. */
  lemma OffsetTestRejected()
    ensures Validate(map["offset" := Str("41")]).Err?
    ensures Validate(map["offset" := Str("-20")]).Err?
  {
    assert IntToString(41) == "41";
    OffsetAcceptedIff(41);
    assert IntToString(-20) == "-20";
    OffsetAcceptedIff(-20);
  }

  /** A request carrying only a list of well-formed ISBNs validates to exactly that list, in order. */
  lemma IsbnListAccepted(items: seq<Value>, isbns: seq<string>)
    requires |items| == |isbns| && forall i :: 0 <= i < |items| ==> items[i] == Str(isbns[i])
    requires forall i :: 0 <= i < |items| ==> IsIsbnItem(items[i])
    ensures Validate(map["isbn" := List(items)]) == Ok(Filters(None, Some(isbns), None, None))
  {
    var input := map["isbn" := List(items)];
    assert Validated(input).isbn.value == isbns;
  }
}
