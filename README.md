# Shop-owner page: validation rules and view-state machine

This project models the one component of the shop-owner web page,
`AppComponent`. The page lists shop-owner records and edits them in a form
with three controls: `name`, `shopName` and `contactInfo`. It sends list,
register, update and delete calls to a remote owner gateway. The model has
two parts.

- **Validation rules** are pure predicates on strings.
  - Module `ContactPattern` (`contact_pattern.dfy`) holds the contact-info
    regular expression `/^[0-9]{10}$|^[^\s@]+@[^\s@]+\.[^\s@]+$/`. It is first
    written as what the expression literally matches: a choice of two
    alternatives, the second one a split of the string at an `@` and a later
    `.` into three runs of `[^\s@]`. It is then proved equal to a reference
    description (`EmailShape`): no whitespace, exactly one `@`, a non-empty
    local part, and a domain with a dot that has text on both sides.
  - Module `FormModel` (`form_model.dfy`) holds Angular's `required`,
    `minLength`, `maxLength` and `pattern` validators as data, with their
    exact treatment of `null` and `''`. It also holds the validator list of
    each control and the validity of a control and of the whole form.
- **The view-state machine** is the class `App.AppComponent`
  (`app_component.dfy`). Its fields are the component's `owners`, the form
  values and touched flags, `isEditMode`, `selectedId` and `loading`. Its
  methods are the component's methods. Each asynchronous `subscribe`
  callback is a method of its own (`OnLoadSuccess`, `OnSaveError`, ...),
  run by the environment when the gateway answers. A gateway call is
  recorded by appending a `Request` (`List`, `Create`, `Update`, `Delete`)
  to the field `issued`. The severity of the last toast is a ghost field.
  The invariant `Valid()` says the page is in edit mode exactly when a
  record is selected. The constructor establishes it and every method keeps it.
- Module `Scenarios` (`scenarios.dfy`) drives the component through
  concrete runs (create, edit, failed update, delete). It states what the
  page shows and what was issued at the end of each run. Two further runs,
  a failed submission and a failed confirmed delete, start from any state
  (for the submission, one with a valid form) of a component the caller passes in.

The model follows the code: after a successful save, `ownerForm.reset()`
sets every control to `null`, not back to the initial `''`. Both values
fail `required`.

## Model

| member | source | states |
|---|---|---|
| ContactPattern.IsSpace | shopownerservices/src/app/app.component.ts:39 | JavaScript's `\s` class: the WhiteSpace and LineTerminator code points (tab to carriage return, space, no-break space, U+1680, U+2000 to U+200A, U+2028, U+2029, U+202F, U+205F, U+3000, U+FEFF) |
| ContactPattern.PhoneAlternative | shopownerservices/src/app/app.component.ts:39 | The first alternative `^[0-9]{10}$`: exactly ten characters, each an ASCII digit |
| ContactPattern.EmailAlternative | shopownerservices/src/app/app.component.ts:39 | The second alternative `^[^\s@]+@[^\s@]+\.[^\s@]+$`: the string splits at an `@` and a later `.` into three non-empty runs free of whitespace and `@` |
| ContactPattern.Matches | shopownerservices/src/app/app.component.ts:39 | `regex.test` of the flagless pattern on a value: one alternative or the other matches the whole string |
| FormModel.Passes | shopownerservices/src/app/app.component.ts:37-39 | One validator on one value: `required` fails on `null` and `''`; `minLength` and `pattern` let both through; `maxLength` lets `null` through and checks `''` (which passes) |
| FormModel.ValidatorsOf | shopownerservices/src/app/app.component.ts:37-39 | The declared lists: `name` and `shopName` have `required`, `minLength(2)`, `maxLength(50)`; `contactInfo` has `required` and the pattern |
| FormModel.ControlValid | shopownerservices/src/app/app.component.ts:37-39 | A control is valid when every validator in its list passes |
| FormModel.FormValid | shopownerservices/src/app/app.component.ts:60 | `ownerForm.valid`: all three controls are valid (the group has no group-level validators) |
| App.AppComponent.Valid | shopownerservices/src/app/app.component.ts:18-19 | The page is in edit mode exactly when a record is selected; established by the field initialisers and kept by `editOwner` (97-101) and `resetForm` (120-124) |
| ContactPattern.EmailAlternativeIsEmailShape | shopownerservices/src/app/app.component.ts:39 | The second alternative of the pattern matches a string iff it has no whitespace, exactly one `@`, a non-empty part before it and a domain with an inner dot (both directions) |
| ContactPattern.EmailAlternativeHasShape | shopownerservices/src/app/app.component.ts:39 | Every string the e-mail alternative matches has the reference e-mail shape |
| ContactPattern.EmailShapeIsAlternative | shopownerservices/src/app/app.component.ts:39 | Every string of the reference e-mail shape is matched by the e-mail alternative |
| ContactPattern.MatchesIff | shopownerservices/src/app/app.component.ts:39 | The whole pattern accepts a value iff it is exactly ten ASCII digits or has the e-mail shape |
| ContactPattern.AcceptedExamples | shopownerservices/src/app/app.component.ts:39 | `1234567890` and `a@b.com` are accepted |
| ContactPattern.PrefixedNumberRejected | shopownerservices/src/app/app.component.ts:39 | `+911234567890` is rejected: a country prefix is not supported |
| ContactPattern.TwoAtsRejected | shopownerservices/src/app/app.component.ts:39 | An address with two `@` is rejected |
| ContactPattern.BlankRejected | shopownerservices/src/app/app.component.ts:39 | An address containing a blank is rejected |
| ContactPattern.EmptyDomainLabelRejected | shopownerservices/src/app/app.component.ts:39 | `a@.com`, whose only dot comes right after the `@`, is rejected |
| ContactPattern.DotAfterAtAccepted | shopownerservices/src/app/app.component.ts:39 | `a@.b.c` is accepted: a dot right after the `@` is allowed when a later dot has text on both sides |
| ContactPattern.TrailingDotRejected | shopownerservices/src/app/app.component.ts:39 | `a@com.`, whose only dot is its last character, is rejected |
| FormModel.NameControlValid | shopownerservices/src/app/app.component.ts:37-38 | `name` and `shopName` are valid iff the value is not `null` and is 2 to 50 characters long; `null` and `''` fail `required`; `minLength` lets both through and `maxLength` passes them |
| FormModel.ContactControlValid | shopownerservices/src/app/app.component.ts:39 | `contactInfo` is valid iff the value is not `null` and is ten digits or has the e-mail shape; `''` fails `required` |
| FormModel.FormValidIff | shopownerservices/src/app/app.component.ts:36-40 | The form group is valid iff all three controls obey their rules |
| FormModel.EmptyFormsInvalid | shopownerservices/src/app/app.component.ts:36-40 | Neither the form as built (`InitialForm`, all `''`, line 37-39) nor the form after `reset()` (`ClearedForm`, all `null`, line 121) is valid |
| FormModel.LongNameInvalid | shopownerservices/src/app/app.component.ts:37 | A name over 50 characters makes the form invalid whatever the other controls hold |
| FormModel.InAllControls | shopownerservices/src/app/app.component.ts:36-40 | The three declared controls are all the controls of the group |
| App.AppComponent.constructor | shopownerservices/src/app/app.component.ts:16-41 | Empty list, all controls `''` (`FormModel.InitialForm`) and untouched, create mode, nothing selected, not loading, nothing issued |
| App.AppComponent.OnInit | shopownerservices/src/app/app.component.ts:31-33 | Starts the first list load |
| App.AppComponent.Input | shopownerservices/src/app/app.component.ts:36-40 | The user typing into one control changes that control's value and nothing else |
| App.AppComponent.LoadOwners | shopownerservices/src/app/app.component.ts:43-45 | Sets `loading` and issues one `List` request; nothing else changes |
| App.AppComponent.OnLoadSuccess | shopownerservices/src/app/app.component.ts:46-50 | The fetched list replaces `owners` and `loading` is cleared; nothing else changes |
| App.AppComponent.OnLoadError | shopownerservices/src/app/app.component.ts:51-55 | Only `loading` is cleared; the old list is kept; an error notice is shown |
| App.AppComponent.SaveOwner | shopownerservices/src/app/app.component.ts:59-95 | Invalid form: no request, only the touched flags change (all set), warning notice. Valid form: `loading` set, exactly one request, `Update(selectedId, form)` iff `isEditMode && selectedId != null`, else `Create(form)`; nothing else changes |
| App.AppComponent.OnSaveSuccess | shopownerservices/src/app/app.component.ts:70-87 | The `next` callbacks of the update (70-74) and of the create (83-87): after either succeeds, form cleared to `null` and untouched, create mode, no selection, one `List` request with `loading` set, success notice; the list is unchanged until it reloads |
| App.AppComponent.OnSaveError | shopownerservices/src/app/app.component.ts:75-92 | The `error` callbacks of the update (75-79) and of the create (88-92): after either fails, only `loading` is cleared; form values, touched flags, mode, selection and list are as before; error notice |
| App.AppComponent.EditOwner | shopownerservices/src/app/app.component.ts:97-101 | The form takes the record's three values, `selectedId` its id, edit mode on; `owners`, `loading` and touched flags unchanged; nothing issued |
| App.AppComponent.DeleteOwner | shopownerservices/src/app/app.component.ts:103-106 | Without confirmation nothing changes and nothing is issued; with it `loading` is set and exactly one `Delete(id)` is issued |
| App.AppComponent.OnDeleteSuccess | shopownerservices/src/app/app.component.ts:107-110 | After a delete succeeds the list is reloaded (one `List`, `loading` set), the form is kept; success notice |
| App.AppComponent.OnDeleteError | shopownerservices/src/app/app.component.ts:111-115 | After a delete fails only `loading` is cleared; the list and form are kept; error notice |
| App.AppComponent.ResetForm | shopownerservices/src/app/app.component.ts:120-124 | `reset()` at line 121 sets all controls to `null` (`FormModel.ClearedForm`) and untouched; no selection, create mode; list and `loading` unchanged |
| App.AppComponent.MarkFormGroupTouched | shopownerservices/src/app/app.component.ts:126-131 | Visiting the controls one by one leaves every control touched |
| Scenarios.JoFormValid | shopownerservices/src/app/app.component.ts:36-40 | The record `Jo` / `Jo Shop` / `1234567890` passes validation |
| Scenarios.CreateRun | shopownerservices/src/app/app.component.ts:59-87 | Entering that record in create mode and submitting issues exactly `Create` of the entered values (after the first load); success clears the form, ends in create mode with no selection, and reloads |
| Scenarios.EditRun | shopownerservices/src/app/app.component.ts:97-101 | Editing record 7 (`A`, `B`, `a@b.com`) fills the form with those values, selects 7, enters edit mode; submitting it issues nothing (the name is too short) and marks all controls touched |
| Scenarios.FailedUpdateRun | shopownerservices/src/app/app.component.ts:66-79 | Submitting an edited record issues `Update(7, values)`; after it fails, form, selection, mode and list equal their values before submission and `loading` is off |
| Scenarios.SaveThenFail | shopownerservices/src/app/app.component.ts:59-95 | From any state with a valid form, submitting and then failing issues one `Update(selectedId, form)` in edit mode, else one `Create(form)`, and leaves form, touched flags, mode, selection and list as before, with `loading` off |
| Scenarios.DeleteThenFail | shopownerservices/src/app/app.component.ts:103-118 | From any state, a confirmed delete that fails issues exactly one `Delete(id)` and leaves form, touched flags, mode, selection and list as before, with `loading` off |
| Scenarios.DeleteRun | shopownerservices/src/app/app.component.ts:103-115 | A declined delete issues nothing, a confirmed one exactly one `Delete(7)`; after it fails the list is kept |

## Left out

- The owner gateway (`OwnerService`, not part of this model) and the
  Observable/`subscribe` machinery. A call is the request appended to
  `issued`. Its answer is whichever callback method the environment runs.
- Overlapping requests in flight. The component does not coordinate them.
  The model runs one action and one callback at a time, and a callback does
  not check that a matching request is outstanding.
- Toasts, `console.error` and `cdr.detectChanges()`. Only the severity of
  the last toast is kept, as a ghost field. Texts and durations are not.
- The browser's `confirm()` dialog. It is the boolean `confirmed` argument
  of `DeleteOwner`.
- The template (`app.component.html` is not part of this model). `Input`
  stands for the template's binding of an input element to a control.
  Touching a control on blur, the dirty and pristine flags, and the
  `name`/`shopName`/`contactInfo` getters are not modelled.
- `app.module.ts` and `main.ts`. They hold bootstrapping, dependency
  injection and toast configuration only.
- Loose typing of the server's records (`any`). An `Owner` always has an
  integer id and three strings, so `patchValue` always sets all three
  controls.
- String lengths. JavaScript counts UTF-16 code units, the model counts
  Unicode scalar values. The two agree for text in the Basic Multilingual
  Plane.
- Whether the list after a successful create holds the new record exactly
  once. That depends on the server's answer to the reload, which is an
  input here.
