/** What one submit of the contact form reports: the errors, in the fixed field order,
    for the fields that are present on the page and fail their rule. */
module Validation {
  import opened JsText
  import opened Options
  import opened FieldRules

  /** One error message shown under a field. */
  datatype FieldError = FieldError(field: Field, message: string)

  /** The outcome of the rule of `f`, or `None` when the page has no such field: a field
      missing from the page never fails. */
  function Check(f: Field, values: map<Field, string>): (r: Option<string>)
    ensures r.Some? ==> f in values
  {
    if f in values then Rule(f, values[f]) else None
  }

  /** The error, if any, that checking `f` adds. */
  function Found(f: Field, check: Field -> Option<string>): seq<FieldError> {
    match check(f)
    case None => []
    case Some(msg) => [FieldError(f, msg)]
  }

  /** The errors found checking the fields of `fs` in turn, none skipped. */
  function ErrorsIn(fs: seq<Field>, check: Field -> Option<string>): seq<FieldError> {
    if fs == [] then [] else Found(fs[0], check) + ErrorsIn(fs[1..], check)
  }

  /** The check of every field of `values`. */
  function CheckOf(values: map<Field, string>): Field -> Option<string> {
    f => Check(f, values)
  }

  /** The errors one submit reports. */
  function Validate(values: map<Field, string>): seq<FieldError> {
    ErrorsIn(FieldOrder, CheckOf(values))
  }

  /** The position of a field in the order the submit handler checks them. */
  function Rank(f: Field): (r: nat)
    ensures r < 5
  {
    match f
    case FirstName => 0
    case LastName => 1
    case Email => 2
    case Phone => 3
    case Message => 4
  }

  /** Errors listed in field order, at most one per field. */
  predicate InFieldOrder(errs: seq<FieldError>) {
    forall i, j :: 0 <= i < j < |errs| ==> Rank(errs[i].field) < Rank(errs[j].field)
  }

  predicate Increasing(fs: seq<Field>) {
    forall i, j :: 0 <= i < j < |fs| ==> Rank(fs[i]) < Rank(fs[j])
  }

  /** Checking a list of fields reports, for each field of the list, an error exactly when
      its check fails, with the check's message. */
  lemma {:induction false} ErrorsInMembers(fs: seq<Field>, check: Field -> Option<string>)
    ensures forall e :: e in ErrorsIn(fs, check) ==> e.field in fs && check(e.field) == Some(e.message)
    ensures forall f :: f in fs && check(f).Some? ==> FieldError(f, check(f).value) in ErrorsIn(fs, check)
  {
    if fs != [] {
      ErrorsInMembers(fs[1..], check);
      assert ErrorsIn(fs, check) == Found(fs[0], check) + ErrorsIn(fs[1..], check);
      forall f | f in fs && check(f).Some?
        ensures FieldError(f, check(f).value) in ErrorsIn(fs, check)
      {
        if f != fs[0] {
          assert f in fs[1..];
        }
      }
    }
  }

  /** Checking an increasing list of fields reports its errors in the list's order. */
  lemma {:induction false} ErrorsInSpec(fs: seq<Field>, check: Field -> Option<string>)
    requires Increasing(fs)
    ensures InFieldOrder(ErrorsIn(fs, check))
  {
    if fs != [] {
      var rest := fs[1..];
      assert Increasing(rest) by {
        forall i, j | 0 <= i < j < |rest| ensures Rank(rest[i]) < Rank(rest[j]) {
          assert rest[i] == fs[i + 1] && rest[j] == fs[j + 1];
        }
      }
      ErrorsInSpec(rest, check);
      ErrorsInMembers(rest, check);
      var tail := ErrorsIn(rest, check);
      forall e | e in tail ensures Rank(fs[0]) < Rank(e.field) {
        var k :| 0 <= k < |rest| && rest[k] == e.field;
        assert fs[k + 1] == e.field;
      }
      if check(fs[0]).Some? {
        PrependInOrder(FieldError(fs[0], check(fs[0]).value), tail);
      }
    }
  }

  /** An error ranked below every error of an ordered list can go in front of it. */
  lemma PrependInOrder(x: FieldError, tail: seq<FieldError>)
    requires InFieldOrder(tail)
    requires forall e :: e in tail ==> Rank(x.field) < Rank(e.field)
    ensures InFieldOrder([x] + tail)
  {
    var r := [x] + tail;
    forall i, j | 0 <= i < j < |r| ensures Rank(r[i].field) < Rank(r[j].field) {
      assert r[j] == tail[j - 1];
      if i == 0 {
        assert r[j] in tail;
      } else {
        assert r[i] == tail[i - 1];
      }
    }
  }

  /** Checking the five fields in order, whatever each check says. */
  lemma FieldOrderSpec(check: Field -> Option<string>)
    ensures InFieldOrder(ErrorsIn(FieldOrder, check))
    ensures forall e :: e in ErrorsIn(FieldOrder, check) ==> check(e.field) == Some(e.message)
    ensures forall f :: check(f).Some? <==> exists e :: e in ErrorsIn(FieldOrder, check) && e.field == f
    ensures |ErrorsIn(FieldOrder, check)| <= 5
  {
    var fs := FieldOrder;
    assert Increasing(fs);
    ErrorsInSpec(fs, check);
    ErrorsInMembers(fs, check);
    var errs := ErrorsIn(fs, check);
    forall f | check(f).Some? ensures exists e :: e in errs && e.field == f {
      assert f == fs[Rank(f)];
      assert FieldError(f, check(f).value) in errs;
    }
    OrderedIsShort(errs);
  }

  /** Errors in field order number at most five: the rank of the last is at least its index. */
  lemma {:induction false} OrderedIsShort(errs: seq<FieldError>)
    requires InFieldOrder(errs)
    ensures |errs| <= 5
    ensures |errs| == 0 || |errs| - 1 <= Rank(errs[|errs| - 1].field)
  {
    if |errs| > 1 {
      var init := errs[..|errs| - 1];
      assert InFieldOrder(init);
      OrderedIsShort(init);
      assert init[|init| - 1] == errs[|errs| - 2];
      assert Rank(errs[|errs| - 2].field) < Rank(errs[|errs| - 1].field);
    }
  }

  /** Every field is checked, a missing field contributes nothing, the errors come in field
      order with at most one per field, and each carries its field's message. */
  lemma ValidateSpec(values: map<Field, string>)
    ensures InFieldOrder(Validate(values))
    ensures forall e :: e in Validate(values) ==> e.field in values && Check(e.field, values) == Some(e.message)
    ensures forall f :: Check(f, values).Some? <==> exists e :: e in Validate(values) && e.field == f
    ensures |Validate(values)| <= 5
  {
    var check := CheckOf(values);
    FieldOrderSpec(check);
    assert forall f :: check(f) == Check(f, values);
  }

  /** The reported errors are in field order and belong to fields on the page. */
  lemma ValidateWellFormed(values: map<Field, string>)
    ensures InFieldOrder(Validate(values))
    ensures forall e :: e in Validate(values) ==> e.field in values
  {
    ValidateSpec(values);
  }

  /** The submit succeeds exactly when every present field passes its rule. */
  lemma ValidateEmptyIffAllPass(values: map<Field, string>)
    ensures Validate(values) == [] <==> forall f :: f in values ==> Rule(f, values[f]) == None
  {
    ValidateSpec(values);
    if Validate(values) != [] {
      var e := Validate(values)[0];
      assert e in Validate(values);
      assert Check(e.field, values).Some?;
    } else {
      forall f | f in values ensures Rule(f, values[f]) == None {
        assert Check(f, values) == Rule(f, values[f]);
      }
    }
  }

  /** The check of a required field, spelled out as the submit handler tests it. */
  lemma RequiredCheckUnfolded(f: Field, values: map<Field, string>)
    requires f == FirstName || f == LastName || f == Message
    ensures CheckOf(values)(f) == if f in values && Trim(values[f]) == [] then Some(RequiredMessage(f)) else None
  {
  }

  /** The email check, spelled out as the submit handler tests it. */
  lemma EmailCheckUnfolded(values: map<Field, string>)
    ensures CheckOf(values)(Email) ==
      if Email !in values then None
      else if Trim(values[Email]) == [] then Some(EmailRequired)
      else if !EmailPattern(values[Email]) then Some(EmailInvalid)
      else None
  {
  }

  /** The phone check, spelled out as the submit handler tests it. */
  lemma PhoneCheckUnfolded(values: map<Field, string>)
    ensures CheckOf(values)(Phone) ==
      if Phone in values && Trim(values[Phone]) != [] && !PhonePattern(values[Phone]) then Some(PhoneInvalid) else None
  {
  }

  /** Checking the five fields in order, unrolled. */
  lemma FieldOrderUnrolled(check: Field -> Option<string>)
    ensures ErrorsIn(FieldOrder, check) == Found(FirstName, check) + Found(LastName, check)
      + Found(Email, check) + Found(Phone, check) + Found(Message, check)
  {
    var fs := FieldOrder;
    assert fs[1..] == [LastName, Email, Phone, Message];
    assert fs[1..][1..] == [Email, Phone, Message];
    assert fs[1..][1..][1..] == [Phone, Message];
    assert fs[1..][1..][1..][1..] == [Message];
    assert fs[1..][1..][1..][1..][1..] == [];
    assert ErrorsIn([Message], check) == Found(Message, check);
  }

  /** The checks unrolled in the order the submit handler runs them. */
  lemma ValidateUnrolled(values: map<Field, string>)
    ensures var check := CheckOf(values);
      Validate(values) == Found(FirstName, check) + Found(LastName, check) + Found(Email, check)
        + Found(Phone, check) + Found(Message, check)
  {
    FieldOrderUnrolled(CheckOf(values));
  }

  /** All five fields present and blank: exactly four errors, the phone being optional. */
  lemma AllBlankGivesFourErrors(values: map<Field, string>)
    requires forall f: Field :: f in values && AllSpace(values[f])
    ensures Validate(values) == [
      FieldError(FirstName, FirstNameRequired), FieldError(LastName, LastNameRequired),
      FieldError(Email, EmailRequired), FieldError(Message, MessageRequired)]
  {
    ValidateUnrolled(values);
    assert Check(Phone, values) == None;
  }

  /** A submission succeeds when the names and the message are filled in, the email is a
      plain address and the phone is blank or well-formed (e.g. "Jane", "Doe",
      "jane@example.com", "" and "Hi"; see GoodEmailAccepted). */
  lemma GoodValuesSucceed(values: map<Field, string>)
    requires forall f :: f in values && (f == FirstName || f == LastName || f == Message) ==> !AllSpace(values[f])
    requires Email in values ==> IsPlainAddress(values[Email])
    requires Phone in values ==> AllSpace(values[Phone]) || PhonePattern(values[Phone])
    ensures Validate(values) == []
  {
    forall f | f in values ensures Rule(f, values[f]) == None {
    }
    ValidateEmptyIffAllPass(values);
  }
}
