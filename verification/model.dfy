/** The one record of model.go that the core fills in. */
module Model {

  /** An ONVIF camera as discovery reports it (model.go:4-10). */
  datatype Device = Device(
    id: string,
    name: string,
    xaddr: string,
    user: string,
    password: string)

  /** Go's zero value `Device{}`. */
  const EmptyDevice: Device := Device("", "", "", "", "")
}
