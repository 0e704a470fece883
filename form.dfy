/** The enrolment form (components/DevoteeForm.tsx): the eight text fields, the children
    list, the phone sanitiser, and the submit rules (required fields, duplicate detection,
    and which parts of an edited record survive). The record id (`generateId()`) and the
    clock reading (`new Date().toISOString()`) are parameters. */
module DevoteeForm {
  import opened Wrappers
  import opened Seqs
  import opened Strings
  import opened Records

  /** The form's text fields (DevoteeForm.tsx:86-95). */
  datatype Field = FullName | DateOfBirth | MarriageDate | WifeName | WifeDOB | Gothram | PhoneNumber | Address

  datatype FormData = FormData(
    fullName: string,
    dateOfBirth: string,
    marriageDate: string,
    wifeName: string,
    wifeDOB: string,
    gothram: string,
    phoneNumber: string,
    address: string)

  const EmptyForm := FormData("", "", "", "", "", "", "", "")

  function FieldValue(f: FormData, field: Field): string {
    match field
    case FullName => f.fullName
    case DateOfBirth => f.dateOfBirth
    case MarriageDate => f.marriageDate
    case WifeName => f.wifeName
    case WifeDOB => f.wifeDOB
    case Gothram => f.gothram
    case PhoneNumber => f.phoneNumber
    case Address => f.address
  }

  /** `{ ...prev, [field]: val }` (DevoteeForm.tsx:117): the named field takes the new value
      and every other field keeps its own. */
  function WithField(f: FormData, field: Field, val: string): (r: FormData)
    ensures forall g :: FieldValue(r, g) == if g == field then val else FieldValue(f, g)
  {
    match field
    case FullName => f.(fullName := val)
    case DateOfBirth => f.(dateOfBirth := val)
    case MarriageDate => f.(marriageDate := val)
    case WifeName => f.(wifeName := val)
    case WifeDOB => f.(wifeDOB := val)
    case Gothram => f.(gothram := val)
    case PhoneNumber => f.(phoneNumber := val)
    case Address => f.(address := val)
  }

  /** Two forms with the same fields are the same form. */
  lemma FormExtensional(f: FormData, g: FormData)
    requires forall field :: FieldValue(f, field) == FieldValue(g, field)
    ensures f == g
  {
    assert FieldValue(f, FullName) == FieldValue(g, FullName);
    assert FieldValue(f, DateOfBirth) == FieldValue(g, DateOfBirth);
    assert FieldValue(f, MarriageDate) == FieldValue(g, MarriageDate);
    assert FieldValue(f, WifeName) == FieldValue(g, WifeName);
    assert FieldValue(f, WifeDOB) == FieldValue(g, WifeDOB);
    assert FieldValue(f, Gothram) == FieldValue(g, Gothram);
    assert FieldValue(f, PhoneNumber) == FieldValue(g, PhoneNumber);
    assert FieldValue(f, Address) == FieldValue(g, Address);
  }

  /** Writing back a field's own value changes nothing; writing a field twice keeps the last. */
  lemma WithFieldLaws(f: FormData, field: Field, v: string, w: string)
    ensures WithField(f, field, FieldValue(f, field)) == f
    ensures WithField(WithField(f, field, v), field, w) == WithField(f, field, w)
  {
    FormExtensional(WithField(f, field, FieldValue(f, field)), f);
    FormExtensional(WithField(WithField(f, field, v), field, w), WithField(f, field, w));
  }

  /** The phone input's filter (DevoteeForm.tsx:216): its digits, at most ten. */
  function SanitizePhone(typed: string): (r: string)
    ensures AllDigits(r) && |r| <= 10
  {
    Take(KeepDigits(typed), 10)
  }

  /** A sanitised number passes the filter unchanged. */
  lemma SanitizePhoneIdempotent(typed: string)
    ensures SanitizePhone(SanitizePhone(typed)) == SanitizePhone(typed)
  {
    KeepDigitsOfDigits(SanitizePhone(typed));
  }

  // ---------------------------------------------------------------- children

  datatype ChildField = Name | Dob

  /** `updated[index] = { ...updated[index], [field]: value }` (DevoteeForm.tsx:125-131). */
  function UpdateChildAt(children: seq<Child>, index: nat, field: ChildField, value: string): (r: seq<Child>)
    requires index < |children|
    ensures |r| == |children|
    ensures forall j :: 0 <= j < |children| && j != index ==> r[j] == children[j]
    ensures field == Name ==> r[index].name == value && r[index].dob == children[index].dob
    ensures field == Dob ==> r[index].dob == value && r[index].name == children[index].name
  {
    var c := children[index];
    children[index := if field == Name then c.(name := value) else c.(dob := value)]
  }

  // ---------------------------------------------------------------- submitting

  datatype FormError = MissingRequired | DuplicateRecord

  /** The form's language rule, `!isTe ? en : te` (DevoteeForm.tsx:84): the bilingual setting
      shows English here. */
  function FormLabel(en: string, te: string, lang: Language): string {
    if lang != Te then en else te
  }

  /** The error banner texts (DevoteeForm.tsx:140, 150). */
  function FormMessage(e: FormError, lang: Language): string {
    match e
    case MissingRequired => FormLabel("Required fields (*) are missing.", "తప్పనిసరి వివరాలు (*) నింపబడలేదు.", lang)
    case DuplicateRecord => FormLabel("Record already exists.", "ఈ వివరాలతో భక్తుడు ఇప్పటికే నమోదు చేయబడ్డారు.", lang)
  }

  /** The banner text of the form's error state (DevoteeForm.tsx:192-195): the `{error && ...}`
      test shows a banner exactly when there is an error, since no message is empty, and the
      bilingual setting shows the English message. */
  function ErrorText(error: Option<FormError>, lang: Language): (t: string)
    ensures t == "" <==> error.None?
    ensures error.Some? && lang != Te ==> t == FormMessage(error.value, En)
    ensures error.Some? && lang == Te ==> t == FormMessage(error.value, Te)
  {
    match error
    case None => ""
    case Some(e) => FormMessage(e, lang)
  }

  /** In every language the two refusals show different messages. */
  lemma MessagesTellErrorsApart(lang: Language)
    ensures FormMessage(MissingRequired, lang) != FormMessage(DuplicateRecord, lang)
  {
    var a, b := FormMessage(MissingRequired, lang), FormMessage(DuplicateRecord, lang);
    assert |a| != |b|;
  }

  /** The required-field test (DevoteeForm.tsx:139). */
  predicate Incomplete(f: FormData) {
    f.fullName == "" || f.dateOfBirth == "" || f.phoneNumber == "" || f.gothram == ""
  }

  /** `name.toLowerCase().trim()`. */
  function NormalName(name: string): string {
    Trim(ToLower(name))
  }

  /** `devotees.some(...)` (DevoteeForm.tsx:144-147): another record, not the one being
      edited, with the same phone number and the same name up to case and surrounding spaces. */
  predicate IsDuplicate(devotees: seq<Devotee>, f: FormData, editing: Option<Devotee>) {
    exists i :: 0 <= i < |devotees| && Clashes(devotees[i], f, editing)
  }

  predicate Clashes(d: Devotee, f: FormData, editing: Option<Devotee>) {
    !(editing.Some? && d.id == editing.value.id)
    && d.phoneNumber == f.phoneNumber && NormalName(d.fullName) == NormalName(f.fullName)
  }

  /** The fields of a record the form edits (DevoteeForm.tsx:102-111). */
  function FormOf(d: Devotee): FormData {
    FormData(d.fullName, d.dateOfBirth, d.marriageDate, d.wifeName, d.wifeDOB, d.gothram, d.phoneNumber, d.address)
  }

  /** The record handed to `onSave` (DevoteeForm.tsx:154-160): an edited record keeps its id,
      creation time and call log; a new one gets the fresh id, the clock reading and an empty
      log. The form has no notes field, so the record carries none. */
  function BuildRecord(f: FormData, children: seq<Child>, editing: Option<Devotee>, newId: string, now: string): (r: Devotee)
    ensures FormOf(r) == f && r.children == children && r.notes == ""
    ensures editing.Some? ==> r.id == editing.value.id && r.createdAt == editing.value.createdAt
                              && r.callHistory == editing.value.callHistory
    ensures editing.None? ==> r.id == newId && r.createdAt == now && r.callHistory == []
  {
    Devotee(
      if editing.Some? then editing.value.id else newId,
      f.fullName, f.phoneNumber, f.gothram, f.address, f.dateOfBirth, f.marriageDate, f.wifeName, f.wifeDOB,
      "",
      if editing.Some? then editing.value.createdAt else now,
      if editing.Some? then editing.value.callHistory else [],
      children)
  }

  /** What submitting does. `devotees` is the list prop; `None` when the form is mounted
      without it, in which case the duplicate test throws a `TypeError` out of the handler. */
  datatype SubmitOutcome = Saved(record: Devotee) | Refused(error: FormError) | Threw

  function Submit(f: FormData, children: seq<Child>, editing: Option<Devotee>, devotees: Option<seq<Devotee>>,
                  newId: string, now: string): SubmitOutcome
  {
    if Incomplete(f) then Refused(MissingRequired)
    else match devotees
      case None => Threw
      case Some(ds) => if IsDuplicate(ds, f, editing) then Refused(DuplicateRecord)
                       else Saved(BuildRecord(f, children, editing, newId, now))
  }

  /** A saved record has every required field, carries exactly the form's fields and children,
      and clashes with no other listed record. */
  lemma SavedRecordIsNew(f: FormData, children: seq<Child>, editing: Option<Devotee>, devotees: seq<Devotee>,
                         newId: string, now: string)
    requires Submit(f, children, editing, Some(devotees), newId, now).Saved?
    ensures var r := Submit(f, children, editing, Some(devotees), newId, now).record;
            && r.fullName != "" && r.dateOfBirth != "" && r.phoneNumber != "" && r.gothram != ""
            && FormOf(r) == f && r.children == children
            && forall j :: 0 <= j < |devotees| && !(editing.Some? && devotees[j].id == editing.value.id) ==>
                 !(devotees[j].phoneNumber == r.phoneNumber && NormalName(devotees[j].fullName) == NormalName(r.fullName))
  {
    var r := BuildRecord(f, children, editing, newId, now);
    assert !IsDuplicate(devotees, f, editing);
    assert r.phoneNumber == f.phoneNumber && r.fullName == f.fullName;
    forall j | 0 <= j < |devotees| && !(editing.Some? && devotees[j].id == editing.value.id)
      ensures !(devotees[j].phoneNumber == r.phoneNumber && NormalName(devotees[j].fullName) == NormalName(r.fullName))
    {
      assert !Clashes(devotees[j], f, editing);
    }
  }

  /** A complete form is refused as a duplicate exactly when some other listed record has its
      phone number and, up to case and surrounding spaces, its name. */
  lemma DuplicateRule(f: FormData, children: seq<Child>, editing: Option<Devotee>, devotees: seq<Devotee>,
                      newId: string, now: string, j: nat)
    requires !Incomplete(f) && j < |devotees|
    requires !(editing.Some? && devotees[j].id == editing.value.id)
    requires devotees[j].phoneNumber == f.phoneNumber && NormalName(devotees[j].fullName) == NormalName(f.fullName)
    ensures Submit(f, children, editing, Some(devotees), newId, now) == Refused(DuplicateRecord)
  {
    assert Clashes(devotees[j], f, editing);
  }

  /** Opening a record and saving it unchanged gives the record back, without its notes. */
  lemma EditUnchanged(e: Devotee, devotees: seq<Devotee>, newId: string, now: string)
    requires e.fullName != "" && e.dateOfBirth != "" && e.phoneNumber != "" && e.gothram != ""
    requires forall j :: 0 <= j < |devotees| ==> !Clashes(devotees[j], FormOf(e), Some(e))
    ensures Submit(FormOf(e), e.children, Some(e), Some(devotees), newId, now) == Saved(e.(notes := ""))
  {
  }

  /** The form as App.tsx:117-122 mounts it, without the list: every complete submission
      throws instead of saving. */
  lemma SubmitWithoutListThrows(f: FormData, children: seq<Child>, editing: Option<Devotee>, newId: string, now: string)
    requires !Incomplete(f)
    ensures Submit(f, children, editing, None, newId, now) == Threw
  {
  }

  /** The form's state. */
  class FormState {
    var formData: FormData
    var children: seq<Child>
    var error: Option<FormError>

    constructor()
      ensures formData == EmptyForm && children == [] && error == None
    {
      formData := EmptyForm;
      children := [];
      error := None;
    }

    /** The effect on the record to edit (DevoteeForm.tsx:100-114). */
    method Load(editing: Option<Devotee>)
      modifies this
      ensures editing.Some? ==> formData == FormOf(editing.value) && children == editing.value.children
      ensures editing.None? ==> formData == old(formData) && children == old(children)
      ensures error == old(error)
    {
      if editing.Some? {
        formData := FormOf(editing.value);
        children := editing.value.children;
      }
    }

    /** `updateField` (DevoteeForm.tsx:116-119): sets one field and clears the error. */
    method UpdateField(field: Field, val: string)
      modifies this
      ensures formData == WithField(old(formData), field, val)
      ensures children == old(children) && error == None
    {
      formData := WithField(formData, field, val);
      if error.Some? {
        error := None;
      }
    }

    /** The phone input (DevoteeForm.tsx:216). */
    method TypePhone(typed: string)
      modifies this
      ensures formData == old(formData).(phoneNumber := SanitizePhone(typed))
      ensures children == old(children) && error == None
    {
      UpdateField(PhoneNumber, SanitizePhone(typed));
    }

    /** `addChild` (DevoteeForm.tsx:121-123). */
    method AddChild()
      modifies this
      ensures children == old(children) + [Child("", "")]
      ensures formData == old(formData) && error == old(error)
    {
      children := children + [Child("", "")];
    }

    /** `updateChild` (DevoteeForm.tsx:125-131); the rows the form renders are the only
        indices it is called with. */
    method UpdateChild(index: nat, field: ChildField, value: string)
      requires index < |children|
      modifies this
      ensures children == UpdateChildAt(old(children), index, field, value)
      ensures formData == old(formData) && error == old(error)
    {
      children := UpdateChildAt(children, index, field, value);
    }

    /** `removeChild` (DevoteeForm.tsx:133-135). */
    method RemoveChild(index: nat)
      modifies this
      ensures children == RemoveAt(old(children), index)
      ensures formData == old(formData) && error == old(error)
    {
      children := RemoveAt(children, index);
    }

    /** `handleSubmit` (DevoteeForm.tsx:137-161), given the list of records. */
    method HandleSubmit(editing: Option<Devotee>, devotees: seq<Devotee>, newId: string, now: string)
        returns (saved: Option<Devotee>)
      modifies this
      ensures match Submit(old(formData), old(children), editing, Some(devotees), newId, now)
              case Saved(r) => saved == Some(r) && error == old(error)
              case Refused(e) => saved == None && error == Some(e)
              case Threw => false
      ensures formData == old(formData) && children == old(children)
    {
      saved := None;
      if formData.fullName == "" || formData.dateOfBirth == "" || formData.phoneNumber == "" || formData.gothram == "" {
        error := Some(MissingRequired);
        return;
      }
      if IsDuplicate(devotees, formData, editing) {
        error := Some(DuplicateRecord);
        return;
      }
      saved := Some(BuildRecord(formData, children, editing, newId, now));
    }
  }
}
