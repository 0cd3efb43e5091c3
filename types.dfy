/** The records the control panel exchanges with the device (src/types/index.ts),
    the promise outcomes of its asynchronous calls, and the fixed offline snapshot
    (src/data/stubData.ts). JavaScript numbers are modelled as integers. */
module Types {

  /** A colour as three channel values; the device and the sliders keep them in 0..255. */
  datatype Rgb = Rgb(r: int, g: int, b: int)

  predicate ChannelsInRange(c: Rgb) {
    0 <= c.r <= 255 && 0 <= c.g <= 255 && 0 <= c.b <= 255
  }

  /** One complete snapshot of the device, replaced wholesale on every fetch. */
  datatype DeviceState = DeviceState(
    power: bool,
    rgb: Rgb,
    brightness: int,
    effect: int,
    effectName: string,
    wifiConnected: bool,
    deviceName: string,
    uptime: int,
    freeMemory: int)

  /** Body of `GET /state`. */
  datatype StateResponse = StateResponse(success: bool, state: DeviceState)

  /** Body of `POST /command`. */
  datatype CommandResponse = CommandResponse(success: bool, message: string)

  /** A value a rejected promise carries: an Error object with its message, or anything else. */
  datatype Thrown = ErrorObject(message: string) | NonError

  /** How a promise settles. */
  datatype Outcome<T> = Fulfilled(value: T) | Failed(reason: Thrown)

  /** The snapshot shown while the device cannot be reached. */
  const StubDeviceState := DeviceState(
    power := true,
    rgb := Rgb(128, 64, 255),
    brightness := 200,
    effect := 1,
    effectName := "Rainbow",
    wifiConnected := true,
    deviceName := "ESP8266-RGB",
    uptime := 3600000,
    freeMemory := 24576)
}
