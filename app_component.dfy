/** The view state of the shop-owner page and its transitions.

    Each gateway call is asynchronous in the component: the call is made,
    and later exactly one of its two callbacks runs. Here the call is the
    method that issues it (it appends the request to `issued`), and each
    callback is a method of its own, run by the environment when the
    gateway answers. */
module App {
  import opened FormModel

  /** A shop-owner record as the list holds it. */
  datatype Owner = Owner(id: int, name: string, shopName: string, contactInfo: string)

  /** A call on the owner gateway (list, register, update, delete). */
  datatype Request = List | Create(value: FormValue) | Update(id: int, value: FormValue) | Delete(id: int)

  /** Severity of a toast notification. */
  datatype Severity = Success | Warning | Error

  /** Everything the page shows, as one value. */
  datatype ViewState = ViewState(
    owners: seq<Owner>,
    form: FormValue,
    touched: set<ControlKey>,
    isEditMode: bool,
    selectedId: Option<int>,
    loading: bool)

  class AppComponent {
    var owners: seq<Owner>
    var form: FormValue
    var touched: set<ControlKey>
    var isEditMode: bool
    var selectedId: Option<int>
    var loading: bool

    /** The calls made on the owner gateway, oldest first. */
    var issued: seq<Request>

    /** The severity of the last toast shown, if any. */
    ghost var lastNotice: Option<Severity>

    /** The page is in edit mode exactly when a record is selected. */
    ghost predicate Valid()
      reads this
    {
      isEditMode <==> selectedId.Some?
    }

    ghost function State(): ViewState
      reads this
    {
      ViewState(owners, form, touched, isEditMode, selectedId, loading)
    }

    /** The component as constructed: an empty list and the form as
        `initializeForm` builds it. */
    constructor ()
      ensures Valid()
      ensures State() == ViewState([], InitialForm, {}, false, None, false)
      ensures issued == [] && lastNotice == None
    {
      owners := [];
      form := InitialForm;
      touched := {};
      isEditMode := false;
      selectedId := None;
      loading := false;
      issued := [];
      lastNotice := None;
    }

    /** `ngOnInit`: the first list load. */
    method OnInit()
      requires Valid()
      modifies this
      ensures Valid()
      ensures State() == old(State()).(loading := true)
      ensures issued == old(issued) + [List] && lastNotice == old(lastNotice)
    {
      LoadOwners();
    }

    /** The user types `text` into one control of the form. */
    method Input(key: ControlKey, text: string)
      requires Valid()
      modifies this
      ensures Valid()
      ensures State() == old(State()).(form := old(form).Set(key, Some(text)))
      ensures issued == old(issued) && lastNotice == old(lastNotice)
    {
      form := form.Set(key, Some(text));
    }

    /** `loadOwners`: sets the loading flag and asks for the whole list. */
    method LoadOwners()
      requires Valid()
      modifies this
      ensures Valid()
      ensures State() == old(State()).(loading := true)
      ensures issued == old(issued) + [List] && lastNotice == old(lastNotice)
    {
      loading := true;
      issued := issued + [List];
    }

    /** The list request succeeded with `data`: it replaces the list. */
    method OnLoadSuccess(data: seq<Owner>)
      requires Valid()
      modifies this
      ensures Valid()
      ensures State() == old(State()).(owners := data, loading := false)
      ensures issued == old(issued) && lastNotice == old(lastNotice)
    {
      owners := data;
      loading := false;
    }

    /** The list request failed: the old list stays. */
    method OnLoadError()
      requires Valid()
      modifies this
      ensures Valid()
      ensures State() == old(State()).(loading := false)
      ensures issued == old(issued) && lastNotice == Some(Error)
    {
      lastNotice := Some(Error);
      loading := false;
    }

    /** `saveOwner`. An invalid form issues nothing and only marks every
        control touched. A valid one sets the loading flag and issues one
        request: an update of the selected record in edit mode, a
        registration otherwise. */
    method SaveOwner()
      requires Valid()
      modifies this
      ensures Valid()
      ensures !FormValid(old(form)) ==>
        State() == old(State()).(touched := AllControls)
        && issued == old(issued) && lastNotice == Some(Warning)
      ensures FormValid(old(form)) ==>
        State() == old(State()).(loading := true) && lastNotice == old(lastNotice)
      ensures FormValid(old(form)) && old(isEditMode) && old(selectedId).Some? ==>
        issued == old(issued) + [Update(old(selectedId).value, old(form))]
      ensures FormValid(old(form)) && !(old(isEditMode) && old(selectedId).Some?) ==>
        issued == old(issued) + [Create(old(form))]
    {
      if !FormValid(form) {
        lastNotice := Some(Warning);
        MarkFormGroupTouched();
        return;
      }
      loading := true;
      if isEditMode && selectedId.Some? {
        issued := issued + [Update(selectedId.value, form)];
      } else {
        issued := issued + [Create(form)];
      }
    }

    /** The create or update request succeeded: the form is cleared, edit
        mode ends and the list is loaded again. */
    method OnSaveSuccess()
      requires Valid()
      modifies this
      ensures Valid()
      ensures State() == old(State()).(form := ClearedForm, touched := {}, isEditMode := false,
                                       selectedId := None, loading := true)
      ensures issued == old(issued) + [List] && lastNotice == Some(Success)
    {
      lastNotice := Some(Success);
      ResetForm();
      LoadOwners();
    }

    /** The create or update request failed: only the loading flag changes,
        so the user can correct the form and submit again. */
    method OnSaveError()
      requires Valid()
      modifies this
      ensures Valid()
      ensures State() == old(State()).(loading := false)
      ensures issued == old(issued) && lastNotice == Some(Error)
    {
      lastNotice := Some(Error);
      loading := false;
    }

    /** `editOwner`: copies the record into the form and selects it. */
    method EditOwner(owner: Owner)
      requires Valid()
      modifies this
      ensures Valid()
      ensures State() == old(State()).(
        form := FormValue(Some(owner.name), Some(owner.shopName), Some(owner.contactInfo)),
        selectedId := Some(owner.id), isEditMode := true)
      ensures issued == old(issued) && lastNotice == old(lastNotice)
    {
      form := FormValue(Some(owner.name), Some(owner.shopName), Some(owner.contactInfo));
      selectedId := Some(owner.id);
      isEditMode := true;
    }

    /** `deleteOwner`: without the user's confirmation nothing happens; with
        it, the loading flag is set and one delete request is issued. */
    method DeleteOwner(id: int, confirmed: bool)
      requires Valid()
      modifies this
      ensures Valid()
      ensures !confirmed ==> State() == old(State()) && issued == old(issued)
      ensures confirmed ==> State() == old(State()).(loading := true) && issued == old(issued) + [Delete(id)]
      ensures lastNotice == old(lastNotice)
    {
      if confirmed {
        loading := true;
        issued := issued + [Delete(id)];
      }
    }

    /** The delete request succeeded: the list is loaded again. */
    method OnDeleteSuccess()
      requires Valid()
      modifies this
      ensures Valid()
      ensures State() == old(State()).(loading := true)
      ensures issued == old(issued) + [List] && lastNotice == Some(Success)
    {
      lastNotice := Some(Success);
      LoadOwners();
    }

    /** The delete request failed: the list and the form stay as they were. */
    method OnDeleteError()
      requires Valid()
      modifies this
      ensures Valid()
      ensures State() == old(State()).(loading := false)
      ensures issued == old(issued) && lastNotice == Some(Error)
    {
      lastNotice := Some(Error);
      loading := false;
    }

    /** `resetForm`: every control to `null` and untouched, edit mode off. */
    method ResetForm()
      requires Valid()
      modifies this
      ensures Valid()
      ensures State() == old(State()).(form := ClearedForm, touched := {}, isEditMode := false,
                                       selectedId := None)
      ensures issued == old(issued) && lastNotice == old(lastNotice)
    {
      form := ClearedForm;
      touched := {};
      selectedId := None;
      isEditMode := false;
    }

    /** `markFormGroupTouched`: marks each control of the form touched, one
        after another. */
    method MarkFormGroupTouched()
      requires Valid()
      modifies this`touched
      ensures Valid()
      ensures touched == old(touched) + AllControls
      ensures touched == AllControls
    {
      for i := 0 to |Controls|
        invariant touched == old(touched) + set j | 0 <= j < i :: Controls[j]
      {
        touched := touched + {Controls[i]};
      }
      forall key: ControlKey ensures key in AllControls {
        InAllControls(key);
      }
    }
  }
}
