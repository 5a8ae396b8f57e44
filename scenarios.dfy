/** Client runs of the component: sequences of user actions and gateway
    answers, and what the page shows after them. The four fixed runs each
    build their own component, so they change no state a caller can see;
    `SaveThenFail` and `DeleteThenFail` run on the caller's component. */
module Scenarios {
  import opened ContactPattern
  import opened FormModel
  import opened App

  /** The record entered in the create scenario. */
  const JoForm := FormValue(Some("Jo"), Some("Jo Shop"), Some("1234567890"))

  lemma JoFormValid()
    ensures FormValid(JoForm)
  {
    NameControlValid(Name, JoForm.name);
    NameControlValid(ShopName, JoForm.shopName);
    var phone := "1234567890";
    assert PhoneAlternative(phone) by {
      forall k | 0 <= k < |phone| ensures IsDigit(phone[k]) {
      }
    }
    ContactControlValid(JoForm.contactInfo);
  }

  /** Creating a record: the page loads, the user fills in the form and
      submits it, and the gateway accepts it. One registration of exactly
      the entered values is issued, then a reload; the form ends cleared
      and in create mode. */
  method CreateRun() returns (issued: seq<Request>, form: FormValue, isEditMode: bool, selectedId: Option<int>)
    ensures issued == [List, Create(JoForm), List]
    ensures form == ClearedForm && !isEditMode && selectedId == None
  {
    var page := new AppComponent();
    page.OnInit();
    page.OnLoadSuccess([]);
    page.Input(Name, "Jo");
    page.Input(ShopName, "Jo Shop");
    page.Input(ContactInfo, "1234567890");
    assert page.form == JoForm;
    JoFormValid();
    page.SaveOwner();
    page.OnSaveSuccess();
    issued, form, isEditMode, selectedId := page.issued, page.form, page.isEditMode, page.selectedId;
  }

  /** Editing a record puts its values in the form, selects it and enters
      edit mode. Its one-letter name makes the form invalid, so submitting
      issues nothing and marks every control touched. */
  method EditRun() returns (issued: seq<Request>, form: FormValue, touched: set<ControlKey>,
                            isEditMode: bool, selectedId: Option<int>)
    ensures issued == [List]
    ensures form == FormValue(Some("A"), Some("B"), Some("a@b.com"))
    ensures touched == AllControls && isEditMode && selectedId == Some(7)
  {
    var page := new AppComponent();
    page.OnInit();
    page.OnLoadSuccess([Owner(7, "A", "B", "a@b.com")]);
    page.EditOwner(Owner(7, "A", "B", "a@b.com"));
    FormValidIff(page.form);
    page.SaveOwner();
    issued, form, touched, isEditMode, selectedId :=
      page.issued, page.form, page.touched, page.isEditMode, page.selectedId;
  }

  /** A failed update: the update names the selected record, and after the
      failure the form, the selection and the list are as before. */
  method FailedUpdateRun() returns (issued: seq<Request>, form: FormValue, owners: seq<Owner>,
                                    isEditMode: bool, selectedId: Option<int>, loading: bool)
    ensures issued == [List, Update(7, JoForm)]
    ensures form == JoForm && owners == [Owner(7, "Jo", "Jo Shop", "1234567890")]
    ensures isEditMode && selectedId == Some(7) && !loading
  {
    var page := new AppComponent();
    page.OnInit();
    page.OnLoadSuccess([Owner(7, "Jo", "Jo Shop", "1234567890")]);
    page.EditOwner(Owner(7, "Jo", "Jo Shop", "1234567890"));
    assert page.form == JoForm;
    JoFormValid();
    page.SaveOwner();
    page.OnSaveError();
    issued, form, owners, isEditMode, selectedId, loading :=
      page.issued, page.form, page.owners, page.isEditMode, page.selectedId, page.loading;
  }

  /** Deleting: a declined confirmation issues nothing; a confirmed one
      issues exactly one delete, and its failure keeps the list. */
  method DeleteRun() returns (issued: seq<Request>, owners: seq<Owner>, loading: bool)
    ensures issued == [List, Delete(7)]
    ensures owners == [Owner(7, "Jo", "Jo Shop", "1234567890")] && !loading
  {
    var page := new AppComponent();
    page.OnInit();
    page.OnLoadSuccess([Owner(7, "Jo", "Jo Shop", "1234567890")]);
    page.DeleteOwner(7, false);
    page.DeleteOwner(7, true);
    page.OnDeleteError();
    issued, owners, loading := page.issued, page.owners, page.loading;
  }

  /** A submission that fails, from any state with a valid form: one request
      is issued, and afterwards only the loading flag differs from before. */
  method SaveThenFail(page: AppComponent)
    requires page.Valid() && FormValid(page.form)
    modifies page
    ensures page.Valid()
    ensures page.State() == old(page.State()).(loading := false)
    ensures old(page.isEditMode) ==>
      page.issued == old(page.issued) + [Update(old(page.selectedId).value, old(page.form))]
    ensures !old(page.isEditMode) ==> page.issued == old(page.issued) + [Create(old(page.form))]
  {
    page.SaveOwner();
    page.OnSaveError();
  }

  /** A confirmed delete that fails, from any state: one `Delete(id)` is
      issued, and afterwards only the loading flag differs from before. */
  method DeleteThenFail(page: AppComponent, id: int)
    requires page.Valid()
    modifies page
    ensures page.Valid()
    ensures page.State() == old(page.State()).(loading := false)
    ensures page.issued == old(page.issued) + [Delete(id)]
  {
    page.DeleteOwner(id, true);
    page.OnDeleteError();
  }
}
