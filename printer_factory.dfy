/** Printer definitions and the constructors that validate them. */
module PrinterFactory {
  import opened Wrappers
  import opened JsValues

  const DEFAULT_TYPE := Str("escpos")
  const DEFAULT_PORT := 9100
  const ID_LABEL := "Printer id"
  const NAME_LABEL := "Printer name"
  const CONNECTION_LABEL := "Printer connection"

  /** A printer definition `{ id, name, type, connection }`; `connection` is a descriptor object. */
  datatype Printer = Printer(id: Id, name: Value, printerType: Value, connection: Value)

  /** `assertRequired`: only undefined, null and the empty string are rejected. */
  function AssertRequired(value: Value, what: string): (r: Result<(), string>)
    ensures r.Failure? <==> value == Undefined || value == Null || value == Str("")
    ensures r.Failure? ==> r.error == what + " is required"
  {
    if value == Undefined || value == Null || value == Str("") then Failure(what + " is required") else Success(())
  }

  /** `createPrinter`: the fields are checked in the order id, name, connection; `type` defaults to "escpos". */
  function CreatePrinter(id: Id, name: Value, printerType: Value, connection: Value): (r: Result<Printer, string>)
    ensures !IdTruthy(id) ==> r == Failure(ID_LABEL + " is required")
    ensures IdTruthy(id) && AssertRequired(name, "").Failure? ==> r == Failure(NAME_LABEL + " is required")
    ensures IdTruthy(id) && AssertRequired(name, "").Success? && AssertRequired(connection, "").Failure?
      ==> r == Failure(CONNECTION_LABEL + " is required")
    ensures r.Success? <==> IdTruthy(id) && AssertRequired(name, "").Success? && AssertRequired(connection, "").Success?
    ensures r.Success? ==> r.value == Printer(id, name, Default(printerType, DEFAULT_TYPE), connection)
  {
    match AssertRequired(IdValue(id), ID_LABEL)
    case Failure(e) => Failure(e)
    case Success(_) =>
      match AssertRequired(name, NAME_LABEL)
      case Failure(e) => Failure(e)
      case Success(_) =>
        match AssertRequired(connection, CONNECTION_LABEL)
        case Failure(e) => Failure(e)
        case Success(_) => Success(Printer(id, name, Default(printerType, DEFAULT_TYPE), connection))
  }

  function UsbConnection(vendorId: Value, productId: Value): Value {
    Obj(map["kind" := Str("usb"), "vendorId" := vendorId, "productId" := productId])
  }

  function NetworkConnection(host: Value, port: Value): Value {
    Obj(map["kind" := Str("network"), "host" := host, "port" := port])
  }

  function SerialConnection(path: Value, options: Value): Value {
    Obj(map["kind" := Str("serial"), "path" := path, "options" := options])
  }

  /**
   * `createUsbPrinter`: type "escpos" and a `{ kind: 'usb', vendorId, productId }` connection.
   * The connection object is always present, so missing vendor or product ids are never rejected here.
   */
  function CreateUsbPrinter(id: Id, name: Value, vendorId: Value, productId: Value): (r: Result<Printer, string>)
    ensures r.Success? <==> IdTruthy(id) && AssertRequired(name, "").Success?
    ensures r.Success? ==> r.value == Printer(id, name, DEFAULT_TYPE, UsbConnection(vendorId, productId))
  {
    CreatePrinter(id, name, DEFAULT_TYPE, UsbConnection(vendorId, productId))
  }

  /** `createNetworkPrinter`: the port defaults to 9100 when it is undefined. */
  function CreateNetworkPrinter(id: Id, name: Value, host: Value, port: Value): (r: Result<Printer, string>)
    ensures r.Success? <==> IdTruthy(id) && AssertRequired(name, "").Success?
    ensures r.Success? ==> r.value == Printer(id, name, DEFAULT_TYPE, NetworkConnection(host, Default(port, Num(DEFAULT_PORT))))
  {
    CreatePrinter(id, name, DEFAULT_TYPE, NetworkConnection(host, Default(port, Num(DEFAULT_PORT))))
  }

  /** `createSerialPrinter`: the options default to `{}` when they are undefined. */
  function CreateSerialPrinter(id: Id, name: Value, path: Value, options: Value): (r: Result<Printer, string>)
    ensures r.Success? <==> IdTruthy(id) && AssertRequired(name, "").Success?
    ensures r.Success? ==> r.value == Printer(id, name, DEFAULT_TYPE, SerialConnection(path, Default(options, Obj(map[]))))
  {
    CreatePrinter(id, name, DEFAULT_TYPE, SerialConnection(path, Default(options, Obj(map[]))))
  }

  /** Values such as 0 and false pass `assertRequired`: only the three listed values are rejected. */
  lemma FalsyButPresentAccepted()
    ensures AssertRequired(Num(0), "x").Success? && AssertRequired(Bool(false), "x").Success?
    ensures AssertRequired(NaN, "x").Success?
    ensures CreatePrinter(Some("p"), Num(0), Undefined, Bool(false)) == Success(Printer(Some("p"), Num(0), DEFAULT_TYPE, Bool(false)))
  {
  }
}
