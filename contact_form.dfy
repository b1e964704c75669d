/** The footer contact form of js/main.js: the submit handler, `showError` and the
    single-use listener that clears an error on the next input. */
module ContactForm {
  import opened JsText
  import opened Options
  import opened FieldRules
  import opened Validation

  // ------------------------------------------------ the error list under the parents

  /** The errors shown under parent element `p`, in the order they were appended. */
  function Under(errs: seq<FieldError>, parentOf: Field -> nat, p: nat): seq<FieldError> {
    if errs == [] then []
    else (if parentOf(errs[0].field) == p then [errs[0]] else []) + Under(errs[1..], parentOf, p)
  }

  /** `parent.querySelector('.error-message')` followed by `remove()`: the first error shown
      under parent `p` is taken away, whichever field it belongs to. */
  function RemoveFirstUnder(errs: seq<FieldError>, parentOf: Field -> nat, p: nat): (r: seq<FieldError>)
    ensures |r| <= |errs|
  {
    if errs == [] then []
    else if parentOf(errs[0].field) == p then errs[1..]
    else [errs[0]] + RemoveFirstUnder(errs[1..], parentOf, p)
  }

  /** `n` listeners in turn, each removing the first error under `p`. */
  function RemoveFirstUnderTimes(errs: seq<FieldError>, parentOf: Field -> nat, p: nat, n: nat): seq<FieldError> {
    if n == 0 then errs else RemoveFirstUnder(RemoveFirstUnderTimes(errs, parentOf, p, n - 1), parentOf, p)
  }

  /** The position of the first error under parent `p`, if any. */
  function FirstUnder(errs: seq<FieldError>, parentOf: Field -> nat, p: nat): (r: Option<nat>)
    ensures r == None <==> forall k :: 0 <= k < |errs| ==> parentOf(errs[k].field) != p
    ensures r.Some? ==>
      (r.value < |errs| && parentOf(errs[r.value].field) == p
       && forall k :: 0 <= k < r.value ==> parentOf(errs[k].field) != p)
  {
    if errs == [] then None
    else if parentOf(errs[0].field) == p then Some(0)
    else match FirstUnder(errs[1..], parentOf, p)
      case None => None
      case Some(j) => Some(j + 1)
  }

  /** With no error under `p`, nothing is removed. */
  lemma {:induction false} RemoveFirstUnderNone(errs: seq<FieldError>, parentOf: Field -> nat, p: nat)
    requires forall k :: 0 <= k < |errs| ==> parentOf(errs[k].field) != p
    ensures RemoveFirstUnder(errs, parentOf, p) == errs
  {
    if errs != [] {
      var tail := errs[1..];
      assert forall k :: 0 <= k < |tail| ==> tail[k] == errs[k + 1];
      RemoveFirstUnderNone(tail, parentOf, p);
    }
  }

  /** When `j` is the first position under `p`, exactly the error at `j` is removed. */
  lemma {:induction false} RemoveFirstUnderAt(errs: seq<FieldError>, parentOf: Field -> nat, p: nat, j: nat)
    requires j < |errs| && parentOf(errs[j].field) == p
    requires forall k :: 0 <= k < j ==> parentOf(errs[k].field) != p
    ensures RemoveFirstUnder(errs, parentOf, p) == errs[..j] + errs[j + 1..]
  {
    if j > 0 {
      var tail := errs[1..];
      assert forall k :: 0 <= k < |tail| ==> tail[k] == errs[k + 1];
      RemoveFirstUnderAt(tail, parentOf, p, j - 1);
      assert [errs[0]] + tail[..j - 1] == errs[..j];
      assert tail[j..] == errs[j + 1..];
    }
  }

  /** The error removed is the one at the first position under `p`; with none under `p`,
      the list is unchanged. */
  lemma RemoveFirstUnderSpec(errs: seq<FieldError>, parentOf: Field -> nat, p: nat)
    ensures FirstUnder(errs, parentOf, p) == None ==> RemoveFirstUnder(errs, parentOf, p) == errs
    ensures forall j :: FirstUnder(errs, parentOf, p) == Some(j) ==>
      RemoveFirstUnder(errs, parentOf, p) == errs[..j] + errs[j + 1..]
  {
    match FirstUnder(errs, parentOf, p)
    case None => RemoveFirstUnderNone(errs, parentOf, p);
    case Some(j) => RemoveFirstUnderAt(errs, parentOf, p, j);
  }

  /** Deleting the error at `j` shifts the later ones down by one. */
  lemma DeleteAt(errs: seq<FieldError>, j: nat, r: seq<FieldError>)
    requires j < |errs| && r == errs[..j] + errs[j + 1..]
    ensures |r| == |errs| - 1
    ensures forall a :: 0 <= a < |r| ==> r[a] == errs[if a < j then a else a + 1]
  {
  }

  /** Removing one error keeps the list in field order and adds nothing. */
  lemma RemoveFirstUnderKeepsOrder(errs: seq<FieldError>, parentOf: Field -> nat, p: nat)
    ensures InFieldOrder(errs) ==> InFieldOrder(RemoveFirstUnder(errs, parentOf, p))
    ensures forall e :: e in RemoveFirstUnder(errs, parentOf, p) ==> e in errs
  {
    RemoveFirstUnderSpec(errs, parentOf, p);
    var first := FirstUnder(errs, parentOf, p);
    if first.Some? {
      var j := first.value;
      var r := RemoveFirstUnder(errs, parentOf, p);
      DeleteAt(errs, j, r);
      if InFieldOrder(errs) {
        forall a, b | 0 <= a < b < |r| ensures Rank(r[a].field) < Rank(r[b].field) {
          assert r[a] == errs[if a < j then a else a + 1];
          assert r[b] == errs[if b < j then b else b + 1];
        }
      }
      forall e | e in r ensures e in errs {
        var a :| 0 <= a < |r| && r[a] == e;
        assert r[a] == errs[if a < j then a else a + 1];
      }
    }
  }

  /** Errors under other parents stay, in their order. */
  lemma {:induction false} RemoveFirstUnderKeepsOtherParents(errs: seq<FieldError>, parentOf: Field -> nat, p: nat, q: nat)
    requires q != p
    ensures Under(RemoveFirstUnder(errs, parentOf, p), parentOf, q) == Under(errs, parentOf, q)
  {
    if errs != [] && parentOf(errs[0].field) != p {
      RemoveFirstUnderKeepsOtherParents(errs[1..], parentOf, p, q);
      var r := [errs[0]] + RemoveFirstUnder(errs[1..], parentOf, p);
      assert r[0] == errs[0] && r[1..] == RemoveFirstUnder(errs[1..], parentOf, p);
    } else if errs != [] {
      assert Under(errs, parentOf, q) == Under(errs[1..], parentOf, q);
    }
  }

  /** Under `p` itself, the oldest error goes and the rest stay. */
  lemma {:induction false} RemoveFirstUnderDropsOldest(errs: seq<FieldError>, parentOf: Field -> nat, p: nat)
    ensures var before := Under(errs, parentOf, p);
      Under(RemoveFirstUnder(errs, parentOf, p), parentOf, p) == if before == [] then [] else before[1..]
  {
    if errs != [] && parentOf(errs[0].field) != p {
      RemoveFirstUnderDropsOldest(errs[1..], parentOf, p);
      var r := [errs[0]] + RemoveFirstUnder(errs[1..], parentOf, p);
      assert r[0] == errs[0] && r[1..] == RemoveFirstUnder(errs[1..], parentOf, p);
    }
  }

  /** The field typed into loses its own error only when no error of another field
      was appended under the same parent before it; otherwise that sibling's error goes
      and its own stays. */
  lemma OwnErrorSurvivesIff(errs: seq<FieldError>, parentOf: Field -> nat, i: nat)
    requires InFieldOrder(errs) && i < |errs|
    ensures var p := parentOf(errs[i].field);
      errs[i] in RemoveFirstUnder(errs, parentOf, p) <==> exists k :: 0 <= k < i && parentOf(errs[k].field) == p
  {
    var p := parentOf(errs[i].field);
    OwnErrorSurvivesInput(errs, parentOf, i, 1);
    assert RemoveFirstUnderTimes(errs, parentOf, p, 1) == RemoveFirstUnder(errs, parentOf, p);
    var before := Under(errs[..i], parentOf, p);
    if exists k :: 0 <= k < i && parentOf(errs[k].field) == p {
      var k :| 0 <= k < i && parentOf(errs[k].field) == p;
      InUnder(errs[..i], parentOf, p, errs[k]);
    }
    if before != [] {
      InUnder(errs[..i], parentOf, p, before[0]);
      var k :| 0 <= k < i && errs[..i][k] == before[0];
      assert parentOf(errs[k].field) == p;
    }
  }

  /** However many listeners fire, errors under other parents stay, the field order is
      kept and nothing is added. */
  lemma {:induction false} RemoveFirstUnderTimesSpec(errs: seq<FieldError>, parentOf: Field -> nat, p: nat, n: nat)
    ensures forall q :: q != p ==> Under(RemoveFirstUnderTimes(errs, parentOf, p, n), parentOf, q) == Under(errs, parentOf, q)
    ensures InFieldOrder(errs) ==> InFieldOrder(RemoveFirstUnderTimes(errs, parentOf, p, n))
    ensures forall e :: e in RemoveFirstUnderTimes(errs, parentOf, p, n) ==> e in errs
  {
    if n > 0 {
      RemoveFirstUnderTimesSpec(errs, parentOf, p, n - 1);
      var before := RemoveFirstUnderTimes(errs, parentOf, p, n - 1);
      RemoveFirstUnderKeepsOrder(before, parentOf, p);
      forall q | q != p
        ensures Under(RemoveFirstUnderTimes(errs, parentOf, p, n), parentOf, q) == Under(errs, parentOf, q)
      {
        RemoveFirstUnderKeepsOtherParents(before, parentOf, p, q);
      }
    }
  }

  /** Listing the errors of two lists under `p` lists those of each in turn. */
  lemma {:induction false} UnderAppend(a: seq<FieldError>, b: seq<FieldError>, parentOf: Field -> nat, p: nat)
    ensures Under(a + b, parentOf, p) == Under(a, parentOf, p) + Under(b, parentOf, p)
  {
    if a != [] {
      assert (a + b)[0] == a[0] && (a + b)[1..] == a[1..] + b;
      UnderAppend(a[1..], b, parentOf, p);
    } else {
      assert a + b == b;
    }
  }

  /** The errors under `p` are exactly the errors whose field sits under `p`. */
  lemma {:induction false} InUnder(errs: seq<FieldError>, parentOf: Field -> nat, p: nat, e: FieldError)
    ensures e in Under(errs, parentOf, p) <==> e in errs && parentOf(e.field) == p
  {
    if errs != [] {
      InUnder(errs[1..], parentOf, p, e);
      assert errs == [errs[0]] + errs[1..];
    }
  }

  /** The errors under one parent keep the field order of the whole list. */
  lemma {:induction false} UnderInOrder(errs: seq<FieldError>, parentOf: Field -> nat, p: nat)
    requires InFieldOrder(errs)
    ensures InFieldOrder(Under(errs, parentOf, p))
  {
    if errs != [] {
      var tail := errs[1..];
      assert InFieldOrder(tail) by {
        forall a, b | 0 <= a < b < |tail| ensures Rank(tail[a].field) < Rank(tail[b].field) {
          assert tail[a] == errs[a + 1] && tail[b] == errs[b + 1];
        }
      }
      UnderInOrder(tail, parentOf, p);
      if parentOf(errs[0].field) == p {
        forall e | e in Under(tail, parentOf, p) ensures Rank(errs[0].field) < Rank(e.field) {
          InUnder(tail, parentOf, p, e);
          var k :| 0 <= k < |tail| && tail[k] == e;
          assert tail[k] == errs[k + 1];
        }
        PrependInOrder(errs[0], Under(tail, parentOf, p));
      } else {
        assert Under(errs, parentOf, p) == Under(tail, parentOf, p);
      }
    }
  }

  /** `n` listeners on fields under `p` remove the `n` oldest errors under `p` (all of them
      when there are fewer). */
  lemma {:induction false} RemoveFirstUnderTimesDropsOldest(errs: seq<FieldError>, parentOf: Field -> nat, p: nat, n: nat)
    ensures var before := Under(errs, parentOf, p);
      Under(RemoveFirstUnderTimes(errs, parentOf, p, n), parentOf, p) == before[if n < |before| then n else |before|..]
  {
    if n > 0 {
      RemoveFirstUnderTimesDropsOldest(errs, parentOf, p, n - 1);
      RemoveFirstUnderDropsOldest(RemoveFirstUnderTimes(errs, parentOf, p, n - 1), parentOf, p);
    }
  }

  /** Typing into a field whose error is at position `i`, with `n` listeners waiting on it:
      its own error survives exactly when at least `n` errors were appended under the same
      parent before it, since each listener takes the oldest one there. */
  lemma OwnErrorSurvivesInput(errs: seq<FieldError>, parentOf: Field -> nat, i: nat, n: nat)
    requires InFieldOrder(errs) && i < |errs|
    ensures var p := parentOf(errs[i].field);
      errs[i] in RemoveFirstUnderTimes(errs, parentOf, p, n) <==> n <= |Under(errs[..i], parentOf, p)|
  {
    var x := errs[i];
    var p := parentOf(x.field);
    var u := Under(errs, parentOf, p);
    var k := |Under(errs[..i], parentOf, p)|;
    assert errs == errs[..i] + [x] + errs[i + 1..];
    UnderAppend(errs[..i] + [x], errs[i + 1..], parentOf, p);
    UnderAppend(errs[..i], [x], parentOf, p);
    assert Under([x], parentOf, p) == [x] by {
      assert [x][1..] == [];
    }
    assert u[k] == x;
    UnderInOrder(errs, parentOf, p);
    var r := RemoveFirstUnderTimes(errs, parentOf, p, n);
    InUnder(r, parentOf, p, x);
    RemoveFirstUnderTimesDropsOldest(errs, parentOf, p, n);
    var m := if n < |u| then n else |u|;
    assert Under(r, parentOf, p) == u[m..];
    if m <= k {
      assert u[m..][k - m] == x;
    }
  }

  /** First and last name sharing a parent, both in error. With one listener waiting on
      the last name (one failed submit), typing into it removes the first name's error and
      leaves its own; with two (a second failed submit left the first listener behind),
      both errors go. */
  lemma SiblingErrorGoesFirst(parentOf: Field -> nat)
    requires parentOf(FirstName) == parentOf(LastName)
    ensures var first, last := FieldError(FirstName, FirstNameRequired), FieldError(LastName, LastNameRequired);
      && RemoveFirstUnderTimes([first, last], parentOf, parentOf(LastName), 1) == [last]
      && RemoveFirstUnderTimes([first, last], parentOf, parentOf(LastName), 2) == []
  {
  }

  /** Errors, borders and listeners after showing exactly `shown`, starting from no errors,
      the borders `border0` and the listeners `pending0`. */
  ghost predicate Tracks(errors: seq<FieldError>, border: set<Field>, pending: multiset<Field>,
                         shown: seq<FieldError>, border0: set<Field>, pending0: multiset<Field>)
  {
    errors == shown && border == border0 + Failed(shown) && pending == pending0 + Listeners(shown)
  }

  /** Showing `more` after `shown` keeps the tracking. */
  lemma TracksStep(errors: seq<FieldError>, border: set<Field>, pending: multiset<Field>,
                   shown: seq<FieldError>, border0: set<Field>, pending0: multiset<Field>, more: seq<FieldError>)
    requires Tracks(errors, border, pending, shown, border0, pending0)
    ensures Tracks(errors + more, border + Failed(more), pending + Listeners(more),
                   shown + more, border0, pending0)
  {
    Appended(shown, more);
  }

  /** The fields of the page, each set to the empty string: `form.reset()`. */
  function Reset(values: map<Field, string>): (r: map<Field, string>)
    ensures r.Keys == values.Keys
    ensures forall f :: f in r ==> r[f] == ""
  {
    map f | f in values :: ""
  }

  /** The fields that have an error in `errs`: the borders their `showError` calls mark. */
  function Failed(errs: seq<FieldError>): set<Field> {
    if errs == [] then {} else {errs[0].field} + Failed(errs[1..])
  }

  /** One listener per error in `errs`, on that error's field. */
  function Listeners(errs: seq<FieldError>): multiset<Field> {
    if errs == [] then multiset{} else multiset{errs[0].field} + Listeners(errs[1..])
  }

  /** One error marks its field and adds one listener to it. */
  lemma ShownOne(e: FieldError)
    ensures Failed([e]) == {e.field} && Listeners([e]) == multiset{e.field}
  {
    assert [e][1..] == [];
  }

  /** Showing `a` and then `b` marks and listens to what each does. */
  lemma {:induction false} Appended(a: seq<FieldError>, b: seq<FieldError>)
    ensures Failed(a + b) == Failed(a) + Failed(b)
    ensures Listeners(a + b) == Listeners(a) + Listeners(b)
  {
    if a == [] {
      assert a + b == b;
    } else {
      assert (a + b)[1..] == a[1..] + b;
      Appended(a[1..], b);
    }
  }

  /** A field is marked exactly when it has a listener, and exactly when one of `errs`
      is its. */
  lemma {:induction false} FailedAreListened(errs: seq<FieldError>)
    ensures forall f :: f in Failed(errs) <==> f in Listeners(errs)
    ensures forall e :: e in errs ==> e.field in Failed(errs)
    ensures forall f :: f in Failed(errs) ==> exists e :: e in errs && e.field == f
  {
    if errs != [] {
      FailedAreListened(errs[1..]);
      assert Failed(errs) == {errs[0].field} + Failed(errs[1..]);
      forall e | e in errs ensures e.field in Failed(errs) {
        if e != errs[0] {
          assert e in errs[1..];
        }
      }
      forall f | f in Failed(errs) ensures exists e :: e in errs && e.field == f {
        if f == errs[0].field {
          assert errs[0] in errs;
        } else {
          var e :| e in errs[1..] && e.field == f;
          assert e in errs;
        }
      }
    }
  }

  /** Five checks report nothing exactly when none of them reports anything. */
  lemma NothingFound(check: Field -> Option<string>)
    ensures
      (Found(FirstName, check) + Found(LastName, check) + Found(Email, check)
        + Found(Phone, check) + Found(Message, check) == [])
      <==>
      (Found(FirstName, check) == [] && Found(LastName, check) == [] && Found(Email, check) == []
        && Found(Phone, check) == [] && Found(Message, check) == [])
  {
  }

  /** The contact form as the script sees it. `values` holds the fields present on the page,
      `errors` the error messages in the order they were appended, `redBorder` the fields
      whose border is marked invalid, `pending` the single-use input listeners not yet fired
      (one per `showError` call on the field), and `notices` the success messages appended. */
  class Form {
    const parentOf: Field -> nat
    var values: map<Field, string>
    var errors: seq<FieldError>
    var redBorder: set<Field>
    var pending: multiset<Field>
    var notices: nat

    /** A field's border is marked exactly while it has a listener waiting; listeners and
        errors belong to fields on the page; errors stay in field order, one per field. */
    ghost predicate Valid()
      reads this
    {
      && (forall f: Field :: f in redBorder <==> f in pending)
      && (forall f: Field :: f in pending ==> f in values)
      && (forall e :: e in errors ==> e.field in values)
      && InFieldOrder(errors)
    }

    constructor (parentOf: Field -> nat, values: map<Field, string>)
      ensures Valid()
      ensures this.parentOf == parentOf && this.values == values
      ensures errors == [] && redBorder == {} && pending == multiset{} && notices == 0
    {
      this.parentOf := parentOf;
      this.values := values;
      errors := [];
      redBorder := {};
      pending := multiset{};
      notices := 0;
    }

    /** `showError`: append the message under the field's parent, mark the border and
        register a single-use input listener on the field. */
    method ShowError(f: Field, message: string)
      modifies this
      ensures errors == old(errors) + [FieldError(f, message)]
      ensures redBorder == old(redBorder) + {f}
      ensures pending == old(pending) + multiset{f}
      ensures values == old(values) && notices == old(notices)
    {
      errors := errors + [FieldError(f, message)];
      redBorder := redBorder + {f};
      pending := pending + multiset{f};
    }

    /** The test of a required field (first name, last name, message): the error is shown
        when the field is present and its trimmed value is empty. */
    method CheckRequired(f: Field, message: string) returns (failed: bool)
      requires f == FirstName || f == LastName || f == Message
      requires message == RequiredMessage(f)
      modifies this
      ensures failed <==> Found(f, CheckOf(values)) != []
      ensures errors == old(errors) + Found(f, CheckOf(values))
      ensures redBorder == old(redBorder) + Failed(Found(f, CheckOf(values)))
      ensures pending == old(pending) + Listeners(Found(f, CheckOf(values)))
      ensures values == old(values) && notices == old(notices)
    {
      RequiredCheckUnfolded(f, values);
      failed := f in values && Trim(values[f]) == [];
      if failed {
        ShowError(f, message);
      }
    }

    /** The email test: "Email is required" for a blank value, else "Enter a valid email"
        when the untrimmed value does not match the pattern. */
    method CheckEmail() returns (failed: bool)
      modifies this
      ensures failed <==> Found(Email, CheckOf(values)) != []
      ensures errors == old(errors) + Found(Email, CheckOf(values))
      ensures redBorder == old(redBorder) + Failed(Found(Email, CheckOf(values)))
      ensures pending == old(pending) + Listeners(Found(Email, CheckOf(values)))
      ensures values == old(values) && notices == old(notices)
    {
      EmailCheckUnfolded(values);
      ghost var found := Found(Email, CheckOf(values));
      failed := false;
      if Email in values {
        if Trim(values[Email]) == [] {
          ShowError(Email, EmailRequired);
          failed := true;
          ShownOne(FieldError(Email, EmailRequired));
          assert found == [FieldError(Email, EmailRequired)];
        } else if !EmailPattern(values[Email]) {
          ShowError(Email, EmailInvalid);
          failed := true;
          ShownOne(FieldError(Email, EmailInvalid));
          assert found == [FieldError(Email, EmailInvalid)];
        } else {
          assert found == [];
        }
      } else {
        assert found == [];
      }
    }

    /** The phone test, skipped for a blank value. */
    method CheckPhone() returns (failed: bool)
      modifies this
      ensures failed <==> Found(Phone, CheckOf(values)) != []
      ensures errors == old(errors) + Found(Phone, CheckOf(values))
      ensures redBorder == old(redBorder) + Failed(Found(Phone, CheckOf(values)))
      ensures pending == old(pending) + Listeners(Found(Phone, CheckOf(values)))
      ensures values == old(values) && notices == old(notices)
    {
      PhoneCheckUnfolded(values);
      failed := false;
      if Phone in values && Trim(values[Phone]) != [] {
        if !PhonePattern(values[Phone]) {
          ShowError(Phone, PhoneInvalid);
          failed := true;
        }
      }
    }

    /** The five tests of the submit handler, in order, on a form cleared of errors: the
        errors shown are exactly Validate's, each marking its field's border and adding a
        listener to it, and the flag stays set exactly when none is shown. */
    method CheckAll() returns (isValid: bool)
      requires errors == []
      modifies this
      ensures errors == Validate(values)
      ensures redBorder == old(redBorder) + Failed(errors)
      ensures pending == old(pending) + Listeners(errors)
      ensures isValid <==> errors == []
      ensures values == old(values) && notices == old(notices)
    {
      isValid := true;
      ghost var check := CheckOf(values);
      ghost var border0, pending0 := redBorder, pending;

      var failed := CheckRequired(FirstName, FirstNameRequired);
      isValid := isValid && !failed;
      ghost var shown := Found(FirstName, check);
      assert errors == shown;
      assert Tracks(errors, redBorder, pending, shown, border0, pending0);
      ghost var e, b, p;

      e, b, p := errors, redBorder, pending;
      failed := CheckRequired(LastName, LastNameRequired);
      isValid := isValid && !failed;
      TracksStep(e, b, p, shown, border0, pending0, Found(LastName, check));
      shown := shown + Found(LastName, check);

      e, b, p := errors, redBorder, pending;
      failed := CheckEmail();
      isValid := isValid && !failed;
      TracksStep(e, b, p, shown, border0, pending0, Found(Email, check));
      shown := shown + Found(Email, check);

      e, b, p := errors, redBorder, pending;
      failed := CheckPhone();
      isValid := isValid && !failed;
      TracksStep(e, b, p, shown, border0, pending0, Found(Phone, check));
      shown := shown + Found(Phone, check);

      e, b, p := errors, redBorder, pending;
      failed := CheckRequired(Message, MessageRequired);
      isValid := isValid && !failed;
      TracksStep(e, b, p, shown, border0, pending0, Found(Message, check));
      shown := shown + Found(Message, check);

      NothingFound(check);
      ValidateUnrolled(values);
    }

    /** The submit handler. The default submission is always prevented; the old errors are
        all removed; every field present is checked, none skipped after a failure; the new
        errors are exactly Validate's; the form is reset and a success message appended
        exactly when there are none. Borders marked by earlier submits stay marked. */
    method Submit() returns (defaultPrevented: bool)
      requires Valid()
      modifies this
      ensures Valid() && defaultPrevented
      ensures errors == Validate(old(values))
      ensures redBorder == old(redBorder) + Failed(errors)
      ensures pending == old(pending) + Listeners(errors)
      ensures errors == [] ==> values == Reset(old(values)) && notices == old(notices) + 1
      ensures errors != [] ==> values == old(values) && notices == old(notices)
    {
      defaultPrevented := true;
      errors := [];
      var isValid := CheckAll();
      ValidateWellFormed(values);
      FailedAreListened(errors);
      if isValid {
        notices := notices + 1;
        values := Reset(values);
      }
    }

    /** The user types `value` into field `f`: every listener waiting on `f` fires once and
        is gone, each clearing the border and removing the first error under the field's
        parent, which may be another field's error. */
    method Input(f: Field, value: string)
      requires Valid() && f in values
      modifies this
      ensures Valid()
      ensures values == old(values)[f := value]
      ensures errors == RemoveFirstUnderTimes(old(errors), parentOf, parentOf(f), old(pending)[f])
      ensures pending == old(pending)[f := 0]
      ensures redBorder == old(redBorder) - {f}
      ensures notices == old(notices)
    {
      values := values[f := value];
      var count := pending[f];
      pending := pending[f := 0];
      var i := 0;
      while i < count
        invariant 0 <= i <= count
        invariant errors == RemoveFirstUnderTimes(old(errors), parentOf, parentOf(f), i)
        invariant redBorder == if i == 0 then old(redBorder) else old(redBorder) - {f}
        invariant values == old(values)[f := value] && pending == old(pending)[f := 0]
        invariant notices == old(notices)
      {
        redBorder := redBorder - {f};
        errors := RemoveFirstUnder(errors, parentOf, parentOf(f));
        i := i + 1;
      }
      RemoveFirstUnderTimesSpec(old(errors), parentOf, parentOf(f), count);
    }
  }
}
