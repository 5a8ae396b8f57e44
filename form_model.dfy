/** The owner form of the component: three controls, their Angular
    validators, and when a control and the whole form are valid.

    A control's value is nullable: it starts as `''` and `reset()` sets it to
    `null`, written here as `None`. */
module FormModel {
  import opened ContactPattern

  datatype Option<T> = None | Some(value: T)

  /** The controls of the form group, in declaration order. */
  datatype ControlKey = Name | ShopName | ContactInfo

  const Controls: seq<ControlKey> := [Name, ShopName, ContactInfo]

  const AllControls: set<ControlKey> := set key | key in Controls

  /** Every control of the form is listed in `Controls`. */
  lemma InAllControls(key: ControlKey)
    ensures key in AllControls
  {
    assert key in Controls by {
      match key
      case Name => assert Controls[0] == key;
      case ShopName => assert Controls[1] == key;
      case ContactInfo => assert Controls[2] == key;
    }
  }

  /** The value of the form group: one nullable string per control. */
  datatype FormValue = FormValue(name: Option<string>, shopName: Option<string>, contactInfo: Option<string>)
  {
    function Get(key: ControlKey): Option<string> {
      match key
      case Name => name
      case ShopName => shopName
      case ContactInfo => contactInfo
    }

    /** The form value after one control alone is given `v`. */
    function Set(key: ControlKey, v: Option<string>): (f: FormValue)
      ensures f.Get(key) == v
      ensures forall other :: other != key ==> f.Get(other) == Get(other)
    {
      match key
      case Name => this.(name := v)
      case ShopName => this.(shopName := v)
      case ContactInfo => this.(contactInfo := v)
    }
  }

  /** The form as the component builds it: every control holds `''`. */
  const InitialForm := FormValue(Some(""), Some(""), Some(""))

  /** The form after `reset()`: every control holds `null`. */
  const ClearedForm := FormValue(None, None, None)

  const MinNameLength := 2
  const MaxNameLength := 50

  /** The validators the form uses. */
  datatype Validator = Required | MinLength(min: nat) | MaxLength(max: nat) | ContactPatternCheck

  /** Angular's notion of an empty input: `null` or a zero-length string. */
  predicate IsEmptyInput(v: Option<string>) {
    v.None? || |v.value| == 0
  }

  /** Whether one validator reports no error on `v`. `minLength` and the
      pattern let an empty input through (only `required` rejects it);
      `maxLength` lets `null` through. */
  predicate Passes(validator: Validator, v: Option<string>) {
    match validator
    case Required => !IsEmptyInput(v)
    case MinLength(n) => IsEmptyInput(v) || |v.value| >= n
    case MaxLength(n) => v.None? || |v.value| <= n
    case ContactPatternCheck => IsEmptyInput(v) || Matches(v.value)
  }

  /** The validator list each control is declared with. */
  function ValidatorsOf(key: ControlKey): seq<Validator> {
    match key
    case Name => [Required, MinLength(MinNameLength), MaxLength(MaxNameLength)]
    case ShopName => [Required, MinLength(MinNameLength), MaxLength(MaxNameLength)]
    case ContactInfo => [Required, ContactPatternCheck]
  }

  /** A control is valid when none of its validators reports an error. */
  predicate ControlValid(key: ControlKey, v: Option<string>) {
    forall k :: 0 <= k < |ValidatorsOf(key)| ==> Passes(ValidatorsOf(key)[k], v)
  }

  /** The form group is valid when each of its controls is. */
  predicate FormValid(f: FormValue) {
    ControlValid(Name, f.name) && ControlValid(ShopName, f.shopName)
    && ControlValid(ContactInfo, f.contactInfo)
  }

  // ---------------------------------------------------------------------
  // What the validator lists mean

  /** A name-like value: present and 2 to 50 characters long. */
  predicate NameRule(v: Option<string>) {
    v.Some? && MinNameLength <= |v.value| <= MaxNameLength
  }

  /** A contact value: present and either ten digits or an e-mail shape. */
  predicate ContactRule(v: Option<string>) {
    v.Some? && (PhoneAlternative(v.value) || EmailShape(v.value))
  }

  /** `name` and `shopName` are valid iff their value is non-empty and 2 to 50
      characters long; `null` and `''` both fail. */
  lemma NameControlValid(key: ControlKey, v: Option<string>)
    requires key == Name || key == ShopName
    ensures ControlValid(key, v) <==> NameRule(v)
  {
    var vs := ValidatorsOf(key);
    if NameRule(v) {
      forall k | 0 <= k < |vs| ensures Passes(vs[k], v) {
      }
    } else {
      if v.None? || |v.value| == 0 {
        assert !Passes(vs[0], v);
      } else if |v.value| < MinNameLength {
        assert !Passes(vs[1], v);
      } else {
        assert !Passes(vs[2], v);
      }
    }
  }

  /** `contactInfo` is valid iff its value is ten ASCII digits or has the e-mail
      shape; `null` and `''` both fail. */
  lemma ContactControlValid(v: Option<string>)
    ensures ControlValid(ContactInfo, v) <==> ContactRule(v)
  {
    var vs := ValidatorsOf(ContactInfo);
    if v.Some? {
      MatchesIff(v.value);
    }
    if ContactRule(v) {
      forall k | 0 <= k < |vs| ensures Passes(vs[k], v) {
      }
    } else if IsEmptyInput(v) {
      assert !Passes(vs[0], v);
    } else {
      assert !Passes(vs[1], v);
    }
  }

  /** The form is valid iff each control obeys its rule. */
  lemma FormValidIff(f: FormValue)
    ensures FormValid(f) <==> NameRule(f.name) && NameRule(f.shopName) && ContactRule(f.contactInfo)
  {
    NameControlValid(Name, f.name);
    NameControlValid(ShopName, f.shopName);
    ContactControlValid(f.contactInfo);
  }

  /** Neither the form as built nor the form after `reset()` can be submitted. */
  lemma EmptyFormsInvalid()
    ensures !FormValid(InitialForm)
    ensures !FormValid(ClearedForm)
  {
    FormValidIff(InitialForm);
    FormValidIff(ClearedForm);
  }

  /** A name over 50 characters makes the form invalid, whatever the other controls hold. */
  lemma LongNameInvalid(f: FormValue)
    requires f.name.Some? && |f.name.value| > MaxNameLength
    ensures !FormValid(f)
  {
    FormValidIff(f);
  }
}
