/**
 * Connector selection for a printer definition, and the commands the ESC/POS driver sends for a
 * print job or a connectivity probe. The device itself is an oracle: opening a connector succeeds
 * or fails with a message, and loading an image buffer succeeds or fails likewise.
 */
module EscposPrinter {
  import opened Wrappers
  import opened JsValues
  import opened PrinterFactory

  datatype Connector =
    | UsbDevice(vendorId: Value, productId: Value)
    | AutoUsb                                   // `new escpos.USB()`: the first detected USB printer
    | NetworkDevice(host: Value, port: Value)
    | SerialDevice(path: Value, options: Value)

  /** The device driver: `open` gives the open error, if any; `loadImage` the image-load error, if any. */
  datatype Driver = Driver(
    open: Connector -> Option<string>,
    loadImage: seq<Byte> -> Option<string>,
    hasClose: Connector -> bool)

  /** A print job: text lines, or a decoded image buffer. */
  datatype Job = TextJob(lines: seq<string>) | ImageJob(buffer: seq<Byte>)

  /** The commands sent to an opened device, in order. */
  datatype Command = Text(line: string) | Align(position: string) | Raster(buffer: seq<Byte>) | Cut | Close

  const USB_NEEDS_IDS := "USB printers need vendorId and productId"
  const NETWORK_NEEDS_HOST := "Network printers need host/IP"
  const SERIAL_NEEDS_PATH := "Serial printers need device path"

  /** The descriptor after `const { connection = {} } = printerConfig`. */
  function ConnectionOf(config: Printer): Value {
    Default(config.connection, Obj(map[]))
  }

  function Kind(config: Printer): Value {
    Field(ConnectionOf(config), "kind")
  }

  /**
   * `connectPrinter`. A usb descriptor needs truthy vendor and product ids (so 0 is rejected), a
   * network one a truthy host (port defaults to 9100), a serial one a truthy path (options default
   * to `{}`). Any other kind, a missing connection included, falls back to USB autodetection.
   * Only a null connection fails there: reading its `kind` throws.
   */
  function ConnectPrinter(config: Printer): (r: Result<Connector, string>)
    ensures ConnectionOf(config) == Null ==> r.Failure?
    ensures Kind(config) == Str("usb") ==>
      var vendorId, productId := Field(config.connection, "vendorId"), Field(config.connection, "productId");
      r == if Truthy(vendorId) && Truthy(productId) then Success(UsbDevice(vendorId, productId)) else Failure(USB_NEEDS_IDS)
    ensures Kind(config) == Str("network") ==>
      var host := Field(config.connection, "host");
      r == if Truthy(host) then Success(NetworkDevice(host, Default(Field(config.connection, "port"), Num(DEFAULT_PORT))))
           else Failure(NETWORK_NEEDS_HOST)
    ensures Kind(config) == Str("serial") ==>
      var path := Field(config.connection, "path");
      r == if Truthy(path) then Success(SerialDevice(path, Default(Field(config.connection, "options"), Obj(map[]))))
           else Failure(SERIAL_NEEDS_PATH)
    ensures ConnectionOf(config) != Null && Kind(config) !in {Str("usb"), Str("network"), Str("serial")} ==> r == Success(AutoUsb)
  {
    var connection := ConnectionOf(config);
    match Prop(connection, "kind")
    case Failure(e) => Failure(e)
    case Success(kind) =>
      if kind == Str("usb") then
        var vendorId, productId := Field(connection, "vendorId"), Field(connection, "productId");
        if !Truthy(vendorId) || !Truthy(productId) then Failure(USB_NEEDS_IDS)
        else Success(UsbDevice(vendorId, productId))
      else if kind == Str("network") then
        var host, port := Field(connection, "host"), Default(Field(connection, "port"), Num(DEFAULT_PORT));
        if !Truthy(host) then Failure(NETWORK_NEEDS_HOST)
        else Success(NetworkDevice(host, port))
      else if kind == Str("serial") then
        var path, options := Field(connection, "path"), Default(Field(connection, "options"), Obj(map[]));
        if !Truthy(path) then Failure(SERIAL_NEEDS_PATH)
        else Success(SerialDevice(path, options))
      else
        Success(AutoUsb)
  }

  /** Whether `printEscpos` resolves, and with which error it rejects otherwise. */
  function PrintOutcome(job: Job, config: Printer, driver: Driver): Result<(), string> {
    match ConnectPrinter(config)
    case Failure(e) => Failure(e)
    case Success(device) =>
      match driver.open(device)
      case Some(openError) => Failure(openError)
      case None =>
        match job
        case TextJob(_) => Success(())
        case ImageJob(buffer) =>
          match driver.loadImage(buffer)
          case Some(imageError) => Failure(imageError)
          case None => Success(())
  }

  /**
   * `printEscpos`. `written` is the command trace sent to the device. Nothing is written unless
   * the connector is built and opened; a text job writes each line in order, then cuts and closes;
   * an image job centres, rasters the buffer, cuts and closes.
   */
  method PrintEscpos(job: Job, config: Printer, driver: Driver) returns (r: Result<(), string>, written: seq<Command>)
    ensures r == PrintOutcome(job, config, driver)
    ensures r.Failure? ==> written == []
    ensures r.Success? && job.TextJob? ==>
      && |written| == |job.lines| + 2
      && (forall i :: 0 <= i < |job.lines| ==> written[i] == Text(job.lines[i]))
      && written[|job.lines|] == Cut && written[|job.lines| + 1] == Close
    ensures r.Success? && job.ImageJob? ==> written == [Align("ct"), Raster(job.buffer), Cut, Close]
  {
    written := [];
    var device := ConnectPrinter(config);
    if device.Failure? {
      return Failure(device.error), [];
    }
    var openError := driver.open(device.value);
    if openError.Some? {
      return Failure(openError.value), [];
    }
    match job
    case ImageJob(buffer) =>
      var imageError := driver.loadImage(buffer);
      if imageError.Some? {
        return Failure(imageError.value), [];
      }
      written := [Align("ct"), Raster(buffer), Cut, Close];
      r := Success(());
    case TextJob(lines) =>
      var i := 0;
      while i < |lines|
        invariant 0 <= i <= |lines|
        invariant |written| == i
        invariant forall j :: 0 <= j < i ==> written[j] == Text(lines[j])
      {
        written := written + [Text(lines[i])];
        i := i + 1;
      }
      written := written + [Cut, Close];
      r := Success(());
  }

  /** Whether `probePrinter` resolves (to true) or rejects. */
  function ProbeOutcome(config: Printer, driver: Driver): Result<bool, string> {
    match ConnectPrinter(config)
    case Failure(e) => Failure(e)
    case Success(device) =>
      match driver.open(device)
      case Some(openError) => Failure(openError)
      case None => Success(true)
  }

  /**
   * `probePrinter`: open the device and close it again when it has a close function. No payload
   * is ever written: the trace is empty or a single close.
   */
  method ProbePrinter(config: Printer, driver: Driver) returns (r: Result<bool, string>, written: seq<Command>)
    ensures r == ProbeOutcome(config, driver)
    ensures r.Failure? <==> ConnectPrinter(config).Failure? || driver.open(ConnectPrinter(config).value).Some?
    ensures r.Success? ==> r.value && written == if driver.hasClose(ConnectPrinter(config).value) then [Close] else []
    ensures r.Failure? ==> written == []
  {
    var device := ConnectPrinter(config);
    if device.Failure? {
      return Failure(device.error), [];
    }
    var openError := driver.open(device.value);
    if openError.Some? {
      return Failure(openError.value), [];
    }
    written := [];
    if driver.hasClose(device.value) {
      written := [Close];
    }
    r := Success(true);
  }

  /** A network printer built by the factory with a truthy host connects to that host, on port 9100 by default. */
  lemma NetworkFactoryConnects(id: Id, name: Value, host: Value, port: Value)
    requires CreateNetworkPrinter(id, name, host, port).Success? && Truthy(host)
    ensures ConnectPrinter(CreateNetworkPrinter(id, name, host, port).value)
      == Success(NetworkDevice(host, Default(port, Num(DEFAULT_PORT))))
  {
    var p := CreateNetworkPrinter(id, name, host, port).value;
    assert Kind(p) == Str("network");
  }

  /** A serial printer built by the factory with a truthy path connects to that path, with `{}` as default options. */
  lemma SerialFactoryConnects(id: Id, name: Value, path: Value, options: Value)
    requires CreateSerialPrinter(id, name, path, options).Success? && Truthy(path)
    ensures ConnectPrinter(CreateSerialPrinter(id, name, path, options).value)
      == Success(SerialDevice(path, Default(options, Obj(map[]))))
  {
    var p := CreateSerialPrinter(id, name, path, options).value;
    assert Kind(p) == Str("serial");
  }

  /**
   * The factory accepts a USB printer whose vendor id is 0, but connecting to it fails: the factory
   * only checks that the connection object exists, the connector checks the ids for truthiness.
   */
  lemma UsbZeroVendorAcceptedThenRejected(id: Id, name: Value, productId: Value)
    requires IdTruthy(id) && AssertRequired(name, "").Success?
    ensures CreateUsbPrinter(id, name, Num(0), productId).Success?
    ensures ConnectPrinter(CreateUsbPrinter(id, name, Num(0), productId).value) == Failure(USB_NEEDS_IDS)
  {
    var p := CreateUsbPrinter(id, name, Num(0), productId).value;
    assert Kind(p) == Str("usb");
  }

  /** A definition without a connection never fails to connect: it autodetects a USB printer. */
  lemma MissingConnectionAutodetects(config: Printer)
    requires config.connection == Undefined
    ensures ConnectPrinter(config) == Success(AutoUsb)
  {
  }
}
