/** `form_factory`: builds the form for a device from its maker, model, title,
    UID and field names. */
module FormFactory {
  import opened Js
  import opened BooleanForms
  import Registry

  datatype FormClass = BooleanFormClass

  /** The makers and models that have a form; only Tuya outlets do. */
  const Makers: map<string, map<string, FormClass>> := map["tuya" := map["outlet" := BooleanFormClass]]

  /** One definition per field name, in order, each with an undefined state
      (states are unknown until the device has connected). */
  function Definitions(names: seq<string>): (defs: seq<FieldDefinition>)
    ensures |defs| == |names|
    ensures forall i :: 0 <= i < |names| ==> defs[i] == FieldDefinition(names[i], Undefined)
  {
    if |names| == 0 then []
    else Definitions(names[..|names| - 1]) + [FieldDefinition(names[|names| - 1], Undefined)]
  }

  function Make(make: string, model: string, title: string, uid: string, names: seq<string>): (r: Result<BooleanForm>)
    ensures make != "tuya" ==> r == Failure(Registry.UnknownMaker(make))
    ensures make == "tuya" && model != "outlet" ==> r == Failure(Registry.UnknownModel(model, make))
    ensures r.Success? <==> make == "tuya" && model == "outlet"
    ensures r.Success? ==>
      && r.value == BooleanForms.New(title, uid, Definitions(names))
      && r.value.uid == uid && r.value.title == title
      && |r.value.fields| == |names|
      && (forall i :: 0 <= i < |names| ==>
            r.value.fields[i] == Field(names[i], Undefined, FieldUid(uid, i), BooleanType))
  {
    var cls :- Registry.Resolve(Makers, make, model);
    match cls
    case BooleanFormClass => Success(BooleanForms.New(title, uid, Definitions(names)))
  }
}
