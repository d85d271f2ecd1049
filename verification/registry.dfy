/** The two-level maker -> model -> class lookup both factories perform, with
    the messages they throw when it misses. */
module Registry {
  import opened Js

  function UnknownMaker(make: string): JsValue {
    Str("Unknown device maker \"" + make + "\"")
  }

  function UnknownModel(model: string, make: string): JsValue {
    Str("Unknown model \"" + model + "\" for device maker \"" + make + "\"")
  }

  /** `makers.get(make)`, then `.get(model)`; the maker is checked first. */
  function Resolve<C>(makers: map<string, map<string, C>>, make: string, model: string): (r: Result<C>)
    ensures make !in makers ==> r == Failure(UnknownMaker(make))
    ensures make in makers && model !in makers[make] ==> r == Failure(UnknownModel(model, make))
    ensures make in makers && model in makers[make] ==> r == Success(makers[make][model])
  {
    if make !in makers then Failure(UnknownMaker(make))
    else if model !in makers[make] then Failure(UnknownModel(model, make))
    else Success(makers[make][model])
  }

  /** The two messages can never be mistaken for one another. */
  lemma {:induction false} MessagesDiffer(make: string, model: string, make': string)
    ensures UnknownMaker(make) != UnknownModel(model, make')
  {
    var a := UnknownMaker(make).s;
    var b := UnknownModel(model, make').s;
    assert a[8] == 'd' && b[8] == 'm';
  }
}
