/** Names shared by the whole model. */
module Common {

  datatype Option<+T> = None | Some(value: T)

  type Imei = string

  type DeviceId = nat
}
