# Mobile menu and contact form of js/main.js, modelled in Dafny

The script `js/main.js` runs once the page's markup is ready. It wires three things:

- a mobile navigation menu;
- smooth scrolling for in-page links;
- client-side validation of the footer contact form.

This project models the parts of it that carry logic:

- **`JsText`** (`js_text.dfy`): the whitespace test shared by `String.prototype.trim` and the regular-expression class `\s`. `Trim` is modelled, with `value.trim() === ''` proved equivalent to "every character is whitespace", and `TrimRemovesOnlyEnds` proves that it cuts whitespace off the two ends and nothing else.
- **`FieldRules`** (`field_rules.dfy`): the five fields (first name, last name, email, phone, message), their messages and one rule per field.
  - `/^[^\s@]+@[^\s@]+\.[^\s@]+$/` becomes the predicate `EmailPattern`. It is proved equal to a plain reading, `IsPlainAddress`: no whitespace, exactly one `@` with something before it, and a `.` in the domain that is neither its first nor its last character.
  - `/^[\d\s\-\+\(\)]{8,}$/` becomes `PhonePattern`.
- **`Validation`** (`validation.dfy`): `Validate`, the specification of one submit. It checks the fields in the handler's order and gives the list of `(field, message)` errors it reports. A field missing from the page (`querySelector` giving `null`) is a key missing from the map of values.
- **`ContactForm`** (`contact_form.dfy`): the form as a class `Form`. It holds:
  - the field values;
  - the error messages in the order they were appended;
  - the fields whose border is marked;
  - the single-use `input` listeners still waiting (a multiset of fields);
  - the number of success messages shown.

  Its methods are the submit handler (`Submit`, which runs the checks in `CheckAll`), `showError` (`ShowError`) and the user typing into a field (`Input`). `Input` fires every listener still waiting on that field. Each listener clears the border and removes the first error message under the field's parent element. Each field's parent element is a number given by `parentOf`.
- **`MobileMenu`** (`mobile_menu.dfy`): the four markers the menu handlers write:
  - the nav's `open` class;
  - the button's `open` class;
  - the button's `aria-expanded` attribute;
  - the overlay's `active` class.

  The handlers are pure transitions (`Toggle`, `Close`, `Step`, `Run`) and also methods of the class `MenuController`, which updates the four fields in place.
- **`PageSetup`** (`page_setup.dfy`): which handlers get installed (the early return at line 6 and the `if (form)` at line 71), and the guard of the in-page link handler.

In several places the code does less or more than its comments and names suggest ("Remove error on typing" at js/main.js:143, for one). The model follows the code:

- **The button's `open` class is never cleared by the three close paths** (link click, Escape, overlay click). Only the toggle writes it. So after "open, then Escape" the nav is closed but the button is still marked open (`EscapeLeavesButtonOpen`). The invariant the handlers keep is `Consistent`: the attribute and the overlay match the nav, and an open nav has an open button. It is not the equality of all four markers.
- **All five fields blank gives four errors, not five**, because the phone is optional (`AllBlankGivesFourErrors`).
- **The early return at line 6 disables everything else.** When the menu button or the nav is missing, the form validation and the in-page link handling are not installed either, not just the menu (`Initialize`, `FormNeedsMenu`).
- **Typing into a field may remove another field's error.** The `input` listener removes the first error message under the field's *parent* element. That is another field's error whenever a field sharing the parent failed earlier (`OwnErrorSurvivesIff` for one listener, `OwnErrorSurvivesInput` for any number of them, `SiblingErrorGoesFirst`).
- **A listener can outlive its error.** Error messages are appended to the parent element, not placed right after the field. A second failed submit removes the old messages but not the old listeners or borders, so one `input` can then remove several messages: with `n` listeners waiting, the `n` oldest messages under the parent go (`RemoveFirstUnderTimesDropsOldest`), and the field's own message stays exactly when at least `n` messages were appended under that parent before it (`OwnErrorSurvivesInput`). After two failed submits with both names blank under one parent, typing into the last name removes both name errors (`SiblingErrorGoesFirst`).
- **The email domain may contain several dots.** It needs at least one `.` that is neither its first nor its last character.

## Model

| member | source | states |
|---|---|---|
| JsText.IsSpace | js/main.js:83 | the characters `trim()` removes and `\s` matches: the ECMAScript whitespace and line-terminator code points |
| JsText.Trim | js/main.js:83 | the result is no longer than the value, neither starts nor ends with whitespace, and is empty exactly when every character of the value is whitespace |
| JsText.TrimRemovesOnlyEnds | js/main.js:83 | `trim()` removes leading and trailing whitespace and nothing else: the result is an unchanged run of the value's characters with only whitespace before and after it |
| JsText.TrimStart | js/main.js:83 | what is dropped from the front is all whitespace, and what is kept is a suffix that does not start with whitespace |
| JsText.TrimEnd | js/main.js:83 | what is dropped from the end is all whitespace, and what is kept is a prefix that does not end with whitespace |
| FieldRules.EmailPattern | js/main.js:98 | the test of `/^[^\s@]+@[^\s@]+\.[^\s@]+$/`: three non-empty runs without whitespace or `@`, joined by an `@` and a `.`; its meaning is proved in `EmailPatternMeaning` |
| FieldRules.EmailPatternMeaning | js/main.js:98 | the email regular expression accepts exactly the plain addresses: no whitespace, a single `@` that is not first, and a `.` in the domain that is neither its first nor its last character |
| FieldRules.PatternIsPlain | js/main.js:98 | a value the regular expression matches, with its `@` and `.` where the match puts them, has no whitespace, a single `@` and a dot inside the domain |
| FieldRules.PlainIsPattern | js/main.js:98 | a plain address splits into the three non-empty, `@`-free and whitespace-free parts the regular expression matches |
| FieldRules.PhonePattern | js/main.js:111 | the test of `/^[\d\s\-\+\(\)]{8,}$/`: at least 8 characters, each a digit, whitespace, `-`, `+`, `(` or `)`; used by `PhoneRule` |
| FieldRules.RequiredMessage | js/main.js:84-121 | the message a blank field gets: "First name is required", "Last name is required", "Email is required", "Message is required"; the optional phone has none |
| FieldRules.RequiredRule | js/main.js:83-86 | a required field (first name, last name, message) fails with its message exactly when its value is empty or all whitespace |
| FieldRules.EmailRule | js/main.js:96-106 | at most one error: "Email is required" exactly when the value is all whitespace; otherwise "Enter a valid email" exactly when the untrimmed value is not a plain address |
| FieldRules.PhoneRule | js/main.js:109-116 | the only error is "Enter a valid phone number"; it is given exactly when the value is not all whitespace and is either shorter than 8 characters or has a character other than a digit, whitespace, `-`, `+`, `(` or `)` |
| FieldRules.Rule | js/main.js:81-123 | every field but the phone fails with its required message exactly when its value is blank, and a blank phone passes |
| FieldRules.PaddedEmailRejected | js/main.js:99-103 | a value with any whitespace that is not all whitespace gets the format error, because the regular expression is applied to the untrimmed value |
| FieldRules.PhoneExamples | js/main.js:111-112 | "--------" passes, "123" fails, "555-123-4567" passes |
| FieldRules.GoodEmailAccepted | js/main.js:98-102 | "jane@example.com" passes the email check |
| FieldRules.NoAtEmailRejected | js/main.js:102-103 | every value without `@` that is not all whitespace gets "Enter a valid email", not "Email is required" |
| Validation.Check | js/main.js:81-123 | a field missing from the page (`querySelector` giving `null`) is never reported; a present one gets its rule |
| Validation.Validate | js/main.js:79-123 | the errors of one submit, the five checks run in order without stopping; what they are is proved in `ValidateSpec` |
| Validation.ErrorsInMembers | js/main.js:81-123 | checking a list of fields reports an error for a field exactly when the field is in the list and its check fails, with the check's message |
| Validation.ErrorsInSpec | js/main.js:81-123 | the errors come out in the order the fields are checked |
| Validation.OrderedIsShort | js/main.js:81-123 | errors in field order number at most five |
| Validation.FieldOrderSpec | js/main.js:79-123 | for any outcome of the five checks, the errors are in field order, each with its field's message, one exactly for each failing field, and there are at most five |
| Validation.ValidateSpec | js/main.js:79-123 | one submit reports errors only for fields on the page, with each failing field's message, in field order, at most one per field, and exactly for the fields whose rule fails |
| Validation.ValidateWellFormed | js/main.js:79-123 | the reported errors are in field order and belong to fields on the page |
| Validation.ValidateEmptyIffAllPass | js/main.js:79-125 | the submit succeeds exactly when every field on the page passes its rule |
| Validation.AllBlankGivesFourErrors | js/main.js:79-123 | all five fields blank gives exactly four errors, first name, last name, email and message, in that order |
| Validation.GoodValuesSucceed | js/main.js:79-125 | non-blank required fields, a plain-address email and a blank or well-formed phone give no errors |
| ContactForm.Under | js/main.js:140-146 | the errors appended under one parent element, in the order they were appended; which ones is proved in `InUnder` |
| ContactForm.InUnder | js/main.js:140-146 | an error is under a parent exactly when it is shown and its field's parent is that one |
| ContactForm.UnderAppend | js/main.js:140 | appending errors appends them under their parents |
| ContactForm.UnderInOrder | js/main.js:140-146 | the errors under one parent keep the field order of the whole list |
| ContactForm.RemoveFirstUnder | js/main.js:146-147 | removing the first error under a parent never lengthens the list |
| ContactForm.FirstUnder | js/main.js:146 | `querySelector` under the parent finds nothing exactly when no error is under it; otherwise it finds the first one |
| ContactForm.RemoveFirstUnderNone | js/main.js:147 | with no error under the parent, nothing is removed |
| ContactForm.RemoveFirstUnderAt | js/main.js:146-147 | when position `j` is the first under the parent, exactly the error at `j` is removed |
| ContactForm.RemoveFirstUnderSpec | js/main.js:146-147 | the error removed is the one `querySelector` finds; with none found, the list is unchanged |
| ContactForm.RemoveFirstUnderKeepsOrder | js/main.js:146-147 | removing an error keeps the rest in field order and adds nothing |
| ContactForm.RemoveFirstUnderKeepsOtherParents | js/main.js:146-147 | errors under other parents stay, in their order |
| ContactForm.RemoveFirstUnderDropsOldest | js/main.js:146-147 | under the parent itself, the oldest error goes and the rest stay in order |
| ContactForm.OwnErrorSurvivesIff | js/main.js:144-147 | with one listener firing, a field with an error keeps that error exactly when an earlier error shares the field's parent |
| ContactForm.RemoveFirstUnderTimes | js/main.js:144-148 | `n` waiting listeners firing in turn, each removing the first error under the parent; its properties are proved in `RemoveFirstUnderTimesSpec`, `RemoveFirstUnderTimesDropsOldest` and `OwnErrorSurvivesInput` |
| ContactForm.RemoveFirstUnderTimesDropsOldest | js/main.js:144-148 | `n` listeners remove the `n` oldest errors under the parent, all of them when there are fewer, and keep the rest there in order |
| ContactForm.OwnErrorSurvivesInput | js/main.js:144-148 | with `n` listeners waiting on the field (`Input` fires them all), its own error survives exactly when at least `n` errors were appended under the same parent before it |
| ContactForm.SiblingErrorGoesFirst | js/main.js:140-147 | first and last name sharing a parent, both in error: with one listener waiting on the last name (one failed submit), typing into it removes the first name's error and leaves its own; with two (after a second failed submit), both errors go |
| ContactForm.RemoveFirstUnderTimesSpec | js/main.js:144-148 | any number of listeners firing only remove errors under the field's parent; other parents' errors and the field order are kept |
| ContactForm.FailedAreListened | js/main.js:140-148 | for the errors one submit shows: each marks its field's border and leaves a listener on that field, and those are the only fields marked and listened to for them |
| ContactForm.Reset | js/main.js:128 | `form.reset()` keeps the same fields and empties each value |
| ContactForm.Form.constructor | js/main.js:70-71 | a fresh form has its values, no errors, no marked borders, no listeners and no success message |
| ContactForm.Form.ShowError | js/main.js:133-149 | the message is appended, the field's border marked and one more listener registered on the field; nothing else changes |
| ContactForm.Form.CheckRequired | js/main.js:83-86 | a required field's check appends its error exactly when `Validate`'s check of that field fails, marks the border and adds a listener for it |
| ContactForm.Form.CheckEmail | js/main.js:96-106 | the email check appends exactly the error `Validate` gives for the email, with its border and listener |
| ContactForm.Form.CheckPhone | js/main.js:109-116 | the phone check appends exactly the error `Validate` gives for the phone, with its border and listener |
| ContactForm.Form.CheckAll | js/main.js:79-123 | the five checks, run in order without stopping at a failure, leave exactly `Validate`'s errors, mark their fields and add their listeners; the validity flag is true exactly when there are none |
| ContactForm.Form.Submit | js/main.js:72-130 | the default is always prevented; the old errors are removed and the new ones are exactly `Validate`'s; each new error's field is marked and given a listener; the form is reset and a success message added exactly when there are no errors, and otherwise values are left alone; the form stays coherent |
| ContactForm.Form.Input | js/main.js:144-148 | typing into a field fires all its waiting listeners once and drops them: the border is cleared and, per listener, the first error under the parent is removed; the form stays coherent |
| MobileMenu.Toggle | js/main.js:13-22 | the toggle flips the nav and leaves all four markers agreeing with it |
| MobileMenu.Close | js/main.js:27-30 | with the nav open, the close path closes it, sets `aria-expanded` to "false" and hides the overlay; with the nav closed nothing changes; the button's class is never touched |
| MobileMenu.Step | js/main.js:13-50 | only the toggle writes the button's class; every other event is a no-op on a closed nav; every handler keeps the menu consistent |
| MobileMenu.Run | js/main.js:13-50 | the handlers run one after the other over a sequence of events; its properties are proved in `RunKeepsConsistent`, `SyncedAfterToggle` and `ButtonOnlyByToggle` |
| MobileMenu.ToggleTwice | js/main.js:13-22 | two toggle clicks restore the state exactly when all four markers agreed beforehand |
| MobileMenu.CloseEvents | js/main.js:25-50 | a non-toggle event changes something exactly when it is a link click, Escape or overlay click and the nav is open; such an event leaves a consistent menu closed |
| MobileMenu.EscapeOnly | js/main.js:35-41 | a key other than "Escape" changes nothing; Escape closes an open menu |
| MobileMenu.RunKeepsConsistent | js/main.js:13-50 | any sequence of events keeps the menu consistent |
| MobileMenu.SyncedAfterToggle | js/main.js:13-50 | after any sequence with a toggle click in it, `aria-expanded` and the overlay match the nav, whatever the page started with |
| MobileMenu.ButtonOnlyByToggle | js/main.js:16 | a sequence of events without a toggle click leaves the button's class as it was |
| MobileMenu.EscapeLeavesButtonOpen | js/main.js:13-41 | opening then pressing Escape leaves the nav closed but the button marked open: consistent, yet not all four markers agree |
| MobileMenu.MenuController.constructor | js/main.js:9-10 | the overlay starts inactive; markup with a closed nav and `aria-expanded="false"` starts consistent |
| MobileMenu.MenuController.ClickToggle | js/main.js:13-22 | the toggle handler performs `Toggle` on the fields and leaves the menu consistent |
| MobileMenu.MenuController.CloseIfOpen | js/main.js:45-49 | the shared close path performs `Close` on the fields |
| MobileMenu.MenuController.ClickInNav | js/main.js:25-32 | the nav's click handler performs the `NavClick` step and keeps the menu consistent |
| MobileMenu.MenuController.PressKey | js/main.js:35-41 | the keydown handler performs the `KeyDown` step and keeps the menu consistent |
| MobileMenu.MenuController.ClickOverlay | js/main.js:44-50 | the overlay's click handler performs the `OverlayClick` step and keeps the menu consistent |
| PageSetup.Initialize | js/main.js:3-71 | nothing is installed unless both the menu button and the nav exist; then the menu and link handlers are installed, and the form handler exactly when the form exists too |
| PageSetup.FormNeedsMenu | js/main.js:6-71 | form validation is never installed without the menu; a missing button means no validation |
| PageSetup.AnchorClick | js/main.js:53-66 | for an `href` starting with `#`, the default is prevented exactly when the `href` is longer than `#`; the page scrolls exactly when, in addition, a matching element exists |

## Left out

- The DOM itself is not modelled: element lookup, element creation, `appendChild` and the inline style values (colours, font sizes, margins, lines 134-141 and 152-160). Fields on the page are the keys of a map. A marked border is membership in a set. Each parent element is a number.
- Parent elements nested inside one another are not modelled. Each field's error messages are assumed to be found only under its own parent.
- `showSuccess` and its timers (lines 151-168) are reduced to a counter of success messages shown. The 4000 ms display and the 300 ms fade are deferred browser callbacks, and their removal is not modelled.
- Event dispatch, `DOMContentLoaded` and listener registration are not modelled. Each handler is a method or function called directly. Whether a click in the nav lands inside a link (`closest('a')`) is an input of the nav click handler. A click on a nav link also reaching the in-page link handler is not modelled as one event.
- The structure of the markup is not modelled, for example a toggle button placed inside the nav.
- Smooth scrolling itself is not modelled. `document.querySelector(href)` and `scrollIntoView` are browser calls. Whether a matching element exists is an input. A fragment that is not a valid CSS selector, which makes `querySelector` throw, is not modelled.
- `Reset`: models `form.reset()` as every field on the page becoming empty. Default values written in the markup are not modelled.
- `IsSpace` is the set of ECMAScript whitespace and line-terminator code points, shared by `trim()` and `\s`. `\d` is the ASCII digits. Strings are sequences of characters, so UTF-16 surrogate pairs are not modelled. No whitespace character is outside the Basic Multilingual Plane, so this cannot change a result.
- The submit handler is one function in the source. In the model it is `Submit` plus the per-field methods it calls through `CheckAll`, so that each check can be proved on its own.
