/** The form that shows one device as a list of on/off fields, with an error
    flag and message for the device as a whole. */
module BooleanForms {
  import opened Js
  import Decimal

  /** One entry given to the constructor: a field name and its current state. */
  datatype FieldDefinition = FieldDefinition(name: string, state: JsValue)

  datatype Field = Field(title: string, state: JsValue, uid: string, kind: string)

  datatype BooleanForm = BooleanForm(
    uid: string,
    title: string,
    fields: seq<Field>,
    fieldIndices: map<string, nat>,    // field UID -> position in `fields`
    hasErrorFlag: bool,                // the `has_error` property
    errorMessage: JsValue)

  const BooleanType := "boolean"

  /** The UID of field `i` of the form with UID `formUid`: `<formUid>-field-<i>`. */
  function FieldUid(formUid: string, i: nat): string {
    formUid + "-field-" + Decimal.FromNat(i)
  }

  lemma {:induction false} FieldUidInjective(formUid: string, i: nat, j: nat)
    ensures FieldUid(formUid, i) == FieldUid(formUid, j) ==> i == j
  {
    var prefix := formUid + "-field-";
    assert FieldUid(formUid, i)[|prefix|..] == Decimal.FromNat(i);
    assert FieldUid(formUid, j)[|prefix|..] == Decimal.FromNat(j);
    Decimal.FromNatInjective(i, j);
  }

  /** The UID index and the field list agree: every indexed UID points at the
      field carrying it, and every field is indexed at its own position. */
  predicate Valid(f: BooleanForm) {
    Indexes(f.fields, f.fieldIndices)
  }

  predicate Indexes(fields: seq<Field>, indices: map<string, nat>) {
    && (forall u :: u in indices ==> indices[u] < |fields| && fields[indices[u]].uid == u)
    && (forall i :: 0 <= i < |fields| ==> fields[i].uid in indices && indices[fields[i].uid] == i)
  }

  /** Appending a field whose UID is new, indexed at its position, keeps the index exact. */
  lemma {:induction false} IndexesAppend(fields: seq<Field>, indices: map<string, nat>, field: Field)
    requires Indexes(fields, indices)
    requires forall i :: 0 <= i < |fields| ==> fields[i].uid != field.uid
    ensures Indexes(fields + [field], indices[field.uid := |fields|])
  {
    var fields', indices' := fields + [field], indices[field.uid := |fields|];
    assert forall i :: 0 <= i < |fields| ==> fields'[i] == fields[i];
    assert field.uid !in indices;
  }

  /** The constructor's loop over the definitions: append field `i` and index its UID. */
  function Populate(formUid: string, defs: seq<FieldDefinition>): (r: (seq<Field>, map<string, nat>))
    ensures |r.0| == |defs|
    ensures forall i :: 0 <= i < |defs| ==>
      r.0[i] == Field(defs[i].name, defs[i].state, FieldUid(formUid, i), BooleanType)
    ensures Indexes(r.0, r.1)
  {
    if |defs| == 0 then ([], map[])
    else
      var n := |defs| - 1;
      var prior := Populate(formUid, defs[..n]);
      var field := Field(defs[n].name, defs[n].state, FieldUid(formUid, n), BooleanType);
      assert forall i :: 0 <= i < n ==> prior.0[i].uid != field.uid by {
        forall i | 0 <= i < n {
          FieldUidInjective(formUid, i, n);
        }
      }
      IndexesAppend(prior.0, prior.1, field);
      (prior.0 + [field], prior.1[field.uid := n])
  }

  /** `new BooleanForm(title, uid, fields)`. */
  function New(title: string, uid: string, defs: seq<FieldDefinition>): (f: BooleanForm)
    ensures f.uid == uid && f.title == title
    ensures |f.fields| == |defs|
    ensures forall i :: 0 <= i < |defs| ==>
      f.fields[i] == Field(defs[i].name, defs[i].state, FieldUid(uid, i), BooleanType)
    ensures Valid(f)
    ensures !f.hasErrorFlag && GetErrorMessage(f) == Str("") && !HasError(f)
  {
    var (fields, indices) := Populate(uid, defs);
    BooleanForm(uid, title, fields, indices, false, Str(""))
  }

  function NoFieldMessage(formUid: string, uid: string): string {
    "Form \"" + formUid + "\" has no field \"" + uid + "\""
  }

  /** `getFieldByUid(uid)`: the field the UID index points at, or a thrown
      message when the UID is not indexed (or points outside the fields). */
  function GetFieldByUid(f: BooleanForm, uid: string): (r: Result<Field>)
    ensures r.Success? ==> r.value in f.fields
    ensures r.Success? && Valid(f) ==> r.value.uid == uid
    ensures r.Failure? ==> r.error == Str(NoFieldMessage(f.uid, uid))
  {
    if uid in f.fieldIndices && f.fieldIndices[uid] < |f.fields| then
      Success(f.fields[f.fieldIndices[uid]])
    else
      Failure(Str(NoFieldMessage(f.uid, uid)))
  }

  /** Looking a field up by its own UID finds that field. */
  lemma {:induction false} GetFieldByUidRoundTrip(f: BooleanForm, i: nat)
    requires Valid(f) && i < |f.fields|
    ensures GetFieldByUid(f, f.fields[i].uid) == Success(f.fields[i])
  {
  }

  /** The lookup fails exactly for UIDs that no field carries. */
  lemma {:induction false} GetFieldByUidFailsOnlyForStrangers(f: BooleanForm, uid: string)
    requires Valid(f)
    ensures GetFieldByUid(f, uid).Failure? <==> forall i :: 0 <= i < |f.fields| ==> f.fields[i].uid != uid
  {
  }

  /** `hasError()`: whether the message differs from the empty string. */
  function HasError(f: BooleanForm): bool {
    f.errorMessage != Str("")
  }

  function GetErrorMessage(f: BooleanForm): JsValue {
    f.errorMessage
  }

  /** The parts of a form that only its constructor sets. */
  predicate SameLayout(f: BooleanForm, g: BooleanForm) {
    && f.uid == g.uid && f.title == g.title
    && |f.fields| == |g.fields| && f.fieldIndices == g.fieldIndices
    && forall i :: 0 <= i < |f.fields| ==>
         f.fields[i].uid == g.fields[i].uid && f.fields[i].title == g.fields[i].title
         && f.fields[i].kind == g.fields[i].kind
  }

  lemma {:induction false} SameLayoutKeepsValid(f: BooleanForm, g: BooleanForm)
    requires Valid(f) && SameLayout(f, g)
    ensures Valid(g)
  {
  }

  /** `setErrorMessage(message)`: raises the flag and stores the message;
      the flag is raised even for an empty message, which `hasError()` ignores. */
  function SetErrorMessage(f: BooleanForm, message: JsValue): (r: BooleanForm)
    ensures r.hasErrorFlag && GetErrorMessage(r) == message
    ensures HasError(r) <==> message != Str("")
    ensures SameLayout(f, r) && r.fields == f.fields
  {
    f.(hasErrorFlag := true, errorMessage := message)
  }

  /** `form.fields[i].state = state`, the one field update the director makes. */
  function SetFieldState(f: BooleanForm, i: nat, state: JsValue): (r: BooleanForm)
    requires i < |f.fields|
    ensures SameLayout(f, r)
    ensures r.fields[i].state == state
    ensures forall j :: 0 <= j < |f.fields| && j != i ==> r.fields[j] == f.fields[j]
    ensures r.hasErrorFlag == f.hasErrorFlag && r.errorMessage == f.errorMessage
  {
    f.(fields := f.fields[i := f.fields[i].(state := state)])
  }

  /** The message reads back as the last one set, and `hasError()` follows it
      whatever earlier messages were set. */
  lemma {:induction false} ErrorMessageReadsBack(f: BooleanForm, first: JsValue, last: JsValue)
    ensures
      var g := SetErrorMessage(SetErrorMessage(f, first), last);
      && GetErrorMessage(g) == last
      && (HasError(g) <==> last != Str(""))
      && g == SetErrorMessage(f, last)
  {
  }

  /** Setting the empty message raises the flag while `hasError()` stays false:
      the flag and the check disagree. */
  lemma {:induction false} HasErrorIgnoresFlag(f: BooleanForm)
    ensures
      var g := SetErrorMessage(f, Str(""));
      g.hasErrorFlag && !HasError(g) && GetErrorMessage(g) == Str("")
  {
  }
}
