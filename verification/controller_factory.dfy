/** `controller_factory`: builds the driver and the controller for a device
    from its maker, model and driver configuration. */
module ControllerFactory {
  import opened Js
  import opened TuyaDriver
  import TuyaOutlets
  import Registry

  datatype ControllerClass = TuyaDeviceClass | TuyaOutletClass

  /** Per maker, its models; the `device` entry names the driver class the
      controller wraps. */
  const Makers: map<string, map<string, ControllerClass>> :=
    map["tuya" := map["device" := TuyaDeviceClass, "outlet" := TuyaOutletClass]]

  /** What the factory hands back: an outlet controller, or (for the `device`
      model) a bare driver wrapped around the driver built from the config. */
  datatype Controller = Outlet(outlet: TuyaOutlets.TuyaOutlet) | Device(driver: Driver)

  /** `new Controller(device)` for a class of the registry. */
  function Instantiate(cls: ControllerClass, device: Driver): Controller {
    match cls
    case TuyaOutletClass => Outlet(TuyaOutlets.New(device))
    case TuyaDeviceClass => Device(TuyaDevice(FromDevice(device)))
  }

  function Make(make: string, model: string, config: JsValue): (r: Result<Controller>)
    ensures make != "tuya" ==> r == Failure(Registry.UnknownMaker(make))
    ensures make == "tuya" && model != "device" && model != "outlet" ==>
      r == Failure(Registry.UnknownModel(model, make))
    ensures r.Success? <==> make == "tuya" && (model == "device" || model == "outlet")
    ensures make == "tuya" && model == "outlet" ==>
      r == Success(Outlet(TuyaOutlets.New(TuyaDevice(FromConfig(config)))))
    ensures make == "tuya" && model == "device" ==>
      r == Success(Device(TuyaDevice(FromDevice(TuyaDevice(FromConfig(config))))))
    ensures r.Success? && r.value.Outlet? ==>
      && model == "outlet"
      && r.value.outlet.device == TuyaDevice(FromConfig(config))
      && TuyaOutlets.GetStates(r.value.outlet).None?
  {
    var cls :- Registry.Resolve(Makers, make, model);
    // Every maker in the registry lists its driver class under `device`.
    var device := TuyaDevice(FromConfig(config));
    Success(Instantiate(cls, device))
  }
}
