# printer-agent core, modelled in Dafny

printer-agent is a desktop agent, written in Electron/Node. It accepts print jobs and sends them to receipt printers that speak ESC/POS.
This project models its core:

- **Printer configurations.** Building them from user input with required-field checks and defaults (`PrinterFactory`).
- **Device connectors.** Choosing the connector for a configuration, plus the command traces of a print and of a connectivity probe (`EscposPrinter`).
- **Image decoding.** Decoding of image input: a data URI, plain base64, or a ready buffer (`ImagePrinter`, with canonical base64 in `Base64`).
- **Failover.** The executor that tries candidate printer ids in order until one succeeds (`Failover`).
- **The printer registry (`PrinterManager.Manager`).** It holds:
  - an ordered catalog;
  - a default printer id;
  - a persisted preferences document;
  - and the operations on them: set default, delete, initialise from a remote list, print a receipt, print an image, check a printer's status, and split a bill by category over routed printers.
- **Update check.** Comparing dotted version strings, and selecting fields from the update manifest (`UpdateManager`).
- **The shell's static file server (`StaticServer`).** Its parts:
  - the containment check on resolved paths;
  - the order in which candidate files are probed;
  - the choice of the first file;
  - the Content-Type table;
  - the cached server URL;
  - the choice of the UI address.

Shared JavaScript semantics live in `JsValues`: a JS value, truthiness, `||`, default destructuring, `String.split`, and number formatting. The `Option` and `Result` datatypes live in `Wrappers`.

Several things outside the core become inputs:

- **The device** is a `Driver` value. It holds oracle functions for opening a connector, loading an image, and whether the device has `close`.
- **The remote catalog fetch** is a `FetchResult`.
- **The preferences file** is a field. It holds `None` when the file is missing or unreadable.
- **The update manifest fetch** is a `Result`.
- **The static server's percent-decoding** is a function that may fail.
- **`stat`/`isFile` and `readFile`** are predicates.
- **The listening port** is a parameter.

A thrown error is a `Failure` that carries the error's message. `await` sequencing is modelled as plain sequencing.

Notes on the code:

- **The constructor's default.** At module load the default printer id is the stored `defaultPrinterId` when it is truthy. It is taken without checking that it names a registered printer (printerManager.js:49). `Manager.constructor` states exactly that. The catalog-membership facts proved for `SetDefaultPrinter`, `DeletePrinter` and `InitializePrinterManager` are therefore conditional: they say that membership, when it holds, is kept or established.
- **Containment in the handler.** The handler's containment check is a plain string prefix test, `startsWith(rootDir)`, which admits sibling directories. See "## Findings". `StaticServer.HandleRequest` models the handler as written, with that test. `StaticServer.HandleRequestIntended` is the same handler with the intended test, and `StaticServer.AnswersDifferOnlyOutsideRoot` proves the two answer alike except on such sibling paths.
- **Paths are POSIX paths.** `path.resolve`, `path.join` and `path.extname` are modelled with "/" as the only separator, as on Linux and macOS.

## Model

| member | source | states |
|---|---|---|
| `Failover.Failover` | electron/printer/failover.js:1-11 | The loop's outcome succeeds exactly when some candidate's attempt succeeds, and then carries one such attempt's value. An empty list fails with "No printers available". Its finer properties are the lemmas below. |
| `Failover.Attempted` | electron/printer/failover.js:3-9 | The ids tried are a prefix of the candidates. Every one before the last failed. The loop stops early only at a success. |
| `Failover.WithFailover` | electron/printer/failover.js:1-11 | The loop returns the first successful attempt, having tried exactly the prefix up to it. When every attempt fails it has tried all ids and rethrows the last error, or "No printers available" when there were none. |
| `Failover.FailoverFacts` | electron/printer/failover.js:1-11 | The failover outcome and the tried prefix, as functions, satisfy the loop's promises: first success wins, all ids tried on failure, the last error is rethrown. |
| `Failover.RunFirstSuccess` | electron/printer/failover.js:3-9 | With a carried last error: if attempt k is the first success, the result is attempt k and ids 0..k were tried. |
| `Failover.FirstSuccessWins` | electron/printer/failover.js:3-9 | If attempt k is the first success, failover returns it and tries exactly ids 0..k. |
| `Failover.RunAllFail` | electron/printer/failover.js:3-10 | When every attempt fails, all ids are tried and the last error (or the carried error, or the default message) is thrown. |
| `Failover.AllFail` | electron/printer/failover.js:10 | All attempts failing: with no ids the error is "No printers available", otherwise it is the last attempt's error. |
| `Failover.FailedHeadSkipped` | electron/printer/failover.js:4-8 | A failed first attempt is swallowed: the outcome is failover over the remaining ids. |
| `PrinterFactory.AssertRequired` | electron/printer/printerFactory.js:1-5 | Fails exactly on undefined, null and the empty string (so 0, false and NaN pass), with "<label> is required". |
| `PrinterFactory.CreatePrinter` | electron/printer/printerFactory.js:7-13 | id, then name, then connection are checked in that order, each failure with its own message. Success holds if and only if all three are present. The type defaults to "escpos" only when undefined. |
| `PrinterFactory.CreateUsbPrinter` | electron/printer/printerFactory.js:15-21 | Succeeds if and only if id and name are present, giving an escpos printer with a usb connection holding vendorId and productId unchecked. |
| `PrinterFactory.CreateNetworkPrinter` | electron/printer/printerFactory.js:23-29 | Succeeds if and only if id and name are present; the network connection's port defaults to 9100 when undefined. |
| `PrinterFactory.CreateSerialPrinter` | electron/printer/printerFactory.js:31-37 | Succeeds if and only if id and name are present; the serial connection's options default to an empty object. |
| `PrinterFactory.FalsyButPresentAccepted` | electron/printer/printerFactory.js:2 | The presence check is not truthiness: 0, false and NaN are accepted as a name or connection. |
| `EscposPrinter.ConnectPrinter` | electron/printer/escposPrinter.js:4-27 | A usb connection needs truthy vendorId and productId, a network one a truthy host (port defaults to 9100), a serial one a truthy path (options default to {}). An unknown or missing kind autodetects USB. A null connection throws. |
| `EscposPrinter.PrintEscpos` | electron/printer/escposPrinter.js:29-50 | The outcome is the connect, open and image-load result. On success text lines are written in order, then cut and close. An image buffer gives align centre, raster, cut, close. On failure nothing is written. |
| `EscposPrinter.ProbePrinter` | electron/printer/escposPrinter.js:53-65 | Fails if and only if connecting or opening fails. Success is true, and close is written exactly when the device has a close function. |
| `EscposPrinter.NetworkFactoryConnects` | electron/printer/escposPrinter.js:13-17 | A network printer from the factory with a truthy host connects to that host, on port 9100 by default. |
| `EscposPrinter.SerialFactoryConnects` | electron/printer/escposPrinter.js:18-22 | A serial printer from the factory with a truthy path connects on that path with the factory's options. |
| `EscposPrinter.UsbZeroVendorAcceptedThenRejected` | electron/printer/escposPrinter.js:10 | A vendorId of 0 passes the factory's presence check but is rejected when connecting. |
| `EscposPrinter.MissingConnectionAutodetects` | electron/printer/escposPrinter.js:5 | A configuration without a connection defaults to {}, whose kind is undefined, so the first detected USB printer is used. |
| `Base64.Encode` | electron/printer/imagePrinter.js:11 | Canonical base64 of the bytes; never shorter than the input, at least one quad when non-empty. |
| `Base64.DecodeEncode` | electron/printer/imagePrinter.js:11 | Decoding the encoding of any byte string gives it back. |
| `Base64.EncodeDecode` | electron/printer/imagePrinter.js:11 | Re-encoding what a canonical string decodes to gives the string back. |
| `Base64.DecodeIffEncode` | electron/printer/imagePrinter.js:11 | A string decodes to bs if and only if it is the encoding of bs. |
| `Base64.GroupRoundTrip` | electron/printer/imagePrinter.js:11 | A full 3-byte group decodes back to its bytes, whether or not it is the last quad. |
| `Base64.SingleRoundTrip` | electron/printer/imagePrinter.js:11 | A one-byte tail padded with "==" decodes back to its byte. |
| `Base64.PairRoundTrip` | electron/printer/imagePrinter.js:11 | A two-byte tail padded with "=" decodes back to its bytes. |
| `Base64.FullQuad` | electron/printer/imagePrinter.js:11 | An unpadded quad that decodes is the encoding of its three bytes. |
| `Base64.PairQuad` | electron/printer/imagePrinter.js:11 | A quad with one "=" that decodes is the last quad and the encoding of its two bytes. |
| `Base64.SingleQuad` | electron/printer/imagePrinter.js:11 | A quad with "==" that decodes is the last quad and the encoding of its one byte. |
| `ImagePrinter.DataUriPayload` | electron/printer/imagePrinter.js:6 | `split(',')[1]` is undefined exactly when the string has no comma. |
| `ImagePrinter.RenderImageToBuffer` | electron/printer/imagePrinter.js:1-12 | A falsy input fails with "No image provided". A buffer is returned as is. A data URI without a comma has no source. A string source succeeds if and only if it is canonical base64, and then the buffer is the bytes that the source encodes. |
| `ImagePrinter.PlainBase64Renders` | electron/printer/imagePrinter.js:4-11 | A non-empty plain base64 string, which never starts with "data:", renders to exactly the bytes it encodes. |
| `ImagePrinter.DataUriRenders` | electron/printer/imagePrinter.js:4-11 | A data URI renders to the bytes of the base64 text after its first comma, whatever its header. |
| `ImagePrinter.DataUriWithoutComma` | electron/printer/imagePrinter.js:5-6 | A data URI without a comma has an undefined source and fails. |
| `ImagePrinter.WidthIgnored` | electron/printer/imagePrinter.js:1 | The width argument does not affect the result. |
| `ImagePrinter.NoColonInEncoding` | electron/printer/imagePrinter.js:5 | A base64 encoding contains no colon and no comma, so it is never mistaken for a data URI. |
| `PrinterManager.BuiltIn` | electron/printer/printerManager.js:33-46 | The configured catalog is the USB front-counter printer followed by the kitchen network printer. |
| `PrinterManager.FindIndex` | electron/printer/printerManager.js:104 | Gives -1 exactly when no entry has the id; otherwise it is the index of the first entry with that id. |
| `PrinterManager.FindPrinter` | electron/printer/printerManager.js:56 | Gives none exactly when no entry has the id; otherwise it gives the first entry with that id. |
| `PrinterManager.Others` | electron/printer/printerManager.js:62 | The registered ids other than the primary, and only those. |
| `PrinterManager.OthersRemoveOnce` | electron/printer/printerManager.js:62 | For a primary registered once, the other ids are the registry with that entry removed, in registry order. |
| `PrinterManager.OthersOfUnregistered` | electron/printer/printerManager.js:62 | An unregistered primary filters nothing out. |
| `PrinterManager.OthersUnique` | electron/printer/printerManager.js:62 | With unique registered ids the filtered list has no duplicates. |
| `PrinterManager.PrinterOrder` | electron/printer/printerManager.js:58-64 | The preferred id if truthy, else the default, comes first, registered or not. Every other registered id follows in registry order. The order has no duplicates when the registered ids are unique. |
| `PrinterManager.JobAttempt` | electron/printer/printerManager.js:116-121 | An id with no printer fails with "Printer <id> not found". Otherwise the attempt is the printer's ESC/POS outcome, and it reports that id on success. |
| `PrinterManager.PrintedIdRegistered` | electron/printer/printerManager.js:117-120 | A successful attempt reports the id it was given, and that id is registered. |
| `PrinterManager.UnknownPreferredFallsThrough` | electron/printer/printerManager.js:58-64 | A truthy but unregistered preferred id fails only its own attempt; the outcome is failover over the registry in order. |
| `PrinterManager.EmptyRegistryNotFound` | electron/printer/printerManager.js:115-118 | With an empty registry the single candidate fails with "not found" (for no default, "Printer undefined not found"), never "No printers available". |
| `PrinterManager.SavedDocument` | electron/printer/printerManager.js:25 | Payload keys override stored keys. An undefined payload value removes its key, as JSON.stringify drops it. Every other stored key keeps its value. |
| `PrinterManager.Categories` | electron/printer/printerManager.js:149-157 | The groups' keys: no key twice, and exactly the keys of the items (the category, or "default" when falsy). They come in order of first appearance: a key listed earlier first occurs earlier among the items. |
| `PrinterManager.ItemsIn` | electron/printer/printerManager.js:149-154 | A group holds only items of its key, and it is empty exactly when no item has the key. |
| `PrinterManager.FirstIndexOf` | electron/printer/printerManager.js:149-154 | The index of the first item under a key, or the number of items when no item has it. |
| `PrinterManager.ItemsInAppend` | electron/printer/printerManager.js:149-154 | Grouping distributes over concatenation, so each group keeps the items in input order. |
| `PrinterManager.ItemsInSingle` | electron/printer/printerManager.js:150-152 | One item is pushed onto its own key's group and no other. |
| `PrinterManager.ItemsInCounts` | electron/printer/printerManager.js:149-154 | A group holds every item of its key, as often as the item occurs, and no other item. |
| `PrinterManager.ItemsInPartition` | electron/printer/printerManager.js:149-154 | Every item lands in exactly one group: the group sizes add up to the number of items. |
| `PrinterManager.SumSizesStep` | electron/printer/printerManager.js:150-152 | Adding an item grows only the group of its key, by one. |
| `PrinterManager.CategoryKey` | electron/printer/printerManager.js:150 | An item with a falsy category is grouped under "default", and a truthy string category is its own key. |
| `PrinterManager.Route` | electron/printer/printerManager.js:51-54 | Only the "kitchen" and "bar" categories have a route: "kitchen" goes to "kitchen-lan" and "bar" to "front-usb". Every other category has none. |
| `PrinterManager.BillRun` | electron/printer/printerManager.js:156-168 | The bill succeeds exactly when every group prints, and then has one result per category. A failed bill carries the error of one of its groups; which group is stated by the lemmas below. |
| `PrinterManager.BillLines` | electron/printer/printerManager.js:159-164 | The category header, the rule, one "qty x name" line per item in order, then a blank line. |
| `PrinterManager.BillAllPrinted` | electron/printer/printerManager.js:156-168 | When every group prints, there is one result per category, in category order, naming the printer each group's failover used. |
| `PrinterManager.BillStopsAtFirstFailure` | electron/printer/printerManager.js:165 | The first failing group rejects the whole bill with that group's error, whatever the later groups would do. |
| `PrinterManager.BillTried` | electron/printer/printerManager.js:157-167 | The failover traces of the groups printed in order: at least one and at most one per group, and entry j is group j's own trace. The two lemmas below state how many. |
| `PrinterManager.BillTriedUpToFailure` | electron/printer/printerManager.js:165 | When group k is the first to fail, exactly groups 0..k ran their failover, each with its own trace, and no printer is tried for a later group. |
| `PrinterManager.BillTriedAll` | electron/printer/printerManager.js:157-167 | When every group prints, every group ran its failover, in category order. |
| `PrinterManager.GroupByCategory` | electron/printer/printerManager.js:149-154 | In the reduce loop, keys come in order of first appearance, and each key holds its items in input order. |
| `PrinterManager.Manager.constructor` | electron/printer/printerManager.js:33-49 | Module load: the built-in catalog. The preferences are loaded once. The default is the stored default if truthy (unchecked), else the first built-in id. |
| `PrinterManager.Manager.LoadPreferences` | electron/printer/printerManager.js:12-19 | The stored document, or an empty one when there is no path or the file is missing or unparsable. |
| `PrinterManager.Manager.SavePreferences` | electron/printer/printerManager.js:21-29 | Without a path nothing changes. A successful write stores the merge of the current document and the payload. A failed write is swallowed. |
| `PrinterManager.Manager.SetDefaultPrinter` | electron/printer/printerManager.js:94-101 | An unregistered id fails with "Printer <id> does not exist" and changes nothing. A registered one becomes the default and is persisted. |
| `PrinterManager.Manager.DeletePrinter` | electron/printer/printerManager.js:103-112 | An unregistered id fails and changes nothing. Otherwise exactly the first entry with the id is removed, keeping order. Only when it was the default does the default move to the new first id (or undefined), and it is then persisted. A registered default stays registered. |
| `PrinterManager.Manager.InitializePrinterManager` | electron/printer/printerManager.js:66-87 | A non-empty fetched list replaces the catalog and its first id becomes the default. An empty list, a non-array or a failed fetch changes neither. The stored (or else current) default is adopted only if it is registered. |
| `PrinterManager.Manager.PrintReceipt` | electron/printer/printerManager.js:114-122 | The text job is run with failover over the printer order. The tried ids are its prefix up to the first success, and the printed id is registered. |
| `PrinterManager.Manager.PrintImageFromBuffer` | electron/printer/printerManager.js:124-133 | A rendering error fails before any printer is tried. Otherwise the buffer is printed with failover over the printer order. |
| `PrinterManager.Manager.CheckPrinterStatus` | electron/printer/printerManager.js:135-144 | An unregistered id fails with "not found". A probe error is reported as ok false with its message, not as a failure. |
| `PrinterManager.Manager.PrintGroup` | electron/printer/printerManager.js:158-165 | One group's lines are printed with failover, preferring the category's route or else the default. The result and the tried ids are that group's outcome and trace. |
| `PrinterManager.Manager.PrintBillByCategory` | electron/printer/printerManager.js:148-169 | Each category group, in first-appearance order, is printed on its routed printer (or the default) with failover. The result is the bill's run over the groups. The tried ids, group by group, are the bill's traces, which stop at the first failing group. |
| `UpdateManager.TrimStart` | electron/update/updateManager.js:37 | Exactly the leading white space is dropped, as parseInt does: the result is a suffix of the input, everything before it is white space, and it does not start with white space. |
| `UpdateManager.ParseInt` | electron/update/updateManager.js:37 | `parseInt(n, 10)`, with NaN as none. A number needs at least one digit in the input, and a string of digits parses to its decimal value. |
| `UpdateManager.DigitPrefix` | electron/update/updateManager.js:37 | The longest prefix of decimal digits. |
| `UpdateManager.ParseIntReadsPrefix` | electron/update/updateManager.js:37 | parseInt of a number followed by a non-digit reads the number. |
| `UpdateManager.ParseIntOfNat` | electron/update/updateManager.js:37 | parseInt of a formatted natural number gives that number back. |
| `UpdateManager.DigitsOfNatToString` | electron/update/updateManager.js:37 | The digits of a formatted number have its value. |
| `UpdateManager.Components` | electron/update/updateManager.js:37-38 | One parsed component per dot-separated part, in order. |
| `UpdateManager.ComponentsAppend` | electron/update/updateManager.js:37-38 | Appending "." and a dot-free part appends that part's parse. |
| `UpdateManager.CompareFrom` | electron/update/updateManager.js:39-46 | The comparison is always -1, 0 or 1. |
| `UpdateManager.CompareVersions` | electron/update/updateManager.js:36-46 | The loop computes the components' comparison: -1, 0 or 1. Missing or NaN components count as 0. |
| `UpdateManager.Reflexive` | electron/update/updateManager.js:36-46 | Every version compares equal to itself. |
| `UpdateManager.Antisymmetric` | electron/update/updateManager.js:36-46 | Swapping the arguments negates the result. |
| `UpdateManager.Transitive` | electron/update/updateManager.js:36-46 | "Not newer" is transitive. |
| `UpdateManager.EqualIffSameComponents` | electron/update/updateManager.js:36-46 | Two versions compare equal if and only if every component agrees, with missing and NaN as 0. |
| `UpdateManager.FirstDifferenceDecides` | electron/update/updateManager.js:39-44 | The first differing component decides the result. |
| `UpdateManager.TrailingZeroIgnored` | electron/update/updateManager.js:40-41 | A version equals itself with ".0" appended. |
| `UpdateManager.NumericNotLexical` | electron/update/updateManager.js:37-44 | Components compare as numbers: after a common prefix the larger number is newer. |
| `UpdateManager.UnparsableCountsAsZero` | electron/update/updateManager.js:37-41 | An unparsable component is NaN, which counts as 0. |
| `UpdateManager.TenAfterNine` | electron/update/updateManager.js:36-46 | "1.10" is newer than "1.9". |
| `UpdateManager.UnparsableExample` | electron/update/updateManager.js:36-46 | "1.x" equals "1.0". |
| `UpdateManager.LatestVersionOf` | electron/update/updateManager.js:50 | The latest version is the manifest's version, its latest, or the empty string. A truthy version wins, the result is truthy exactly when version or latest is, and it is "" when both are falsy. |
| `UpdateManager.DownloadUrlOf` | electron/update/updateManager.js:51 | The download URL is the manifest's url or its downloadUrl. A truthy url wins, a falsy url gives downloadUrl as it is, and the result is truthy exactly when either one is. |
| `UpdateManager.CheckForUpdate` | electron/update/updateManager.js:48-67 | A failed fetch or a null manifest fails. A missing version (version, else latest) or URL (url, else downloadUrl) fails with "Update manifest missing version or url". Otherwise the fields are reported, and an update is available exactly when the manifest's version is newer. |
| `JsValues.Prop` | electron/update/updateManager.js:50 | Reading a property fails exactly on undefined and null. |
| `JsValues.Split` | electron/update/updateManager.js:37 | String.split gives at least one part, none holding the separator. |
| `JsValues.JoinSplit` | electron/update/updateManager.js:37 | Joining the parts of a split with the separator gives the string back. |
| `JsValues.SplitConcat` | electron/update/updateManager.js:37 | Splitting at a separator splits each side. |
| `JsValues.NatToString` | electron/main.js:95 | The decimal form is non-empty, has only digits, and has no leading zero. |
| `JsValues.ToString` | electron/printer/printerManager.js:160-162 | A template literal renders a string as itself, and only the empty string renders as empty. A number renders with a leading "-" exactly when negative, and otherwise as digits. |
| `StaticServer.Normalize` | electron/main.js:46 | Resolving path pieces gives a normalised path: no empty, "." or ".." segments. |
| `StaticServer.StripLeadingSlashes` | electron/main.js:45 | Exactly the leading slashes are dropped: the result is a suffix of the pathname, everything before it is "/", and it does not start with "/". |
| `StaticServer.Resolve` | electron/main.js:46 | `path.resolve(rootDir, p)` gives a normalised path. "." resolves to the root, and a single plain segment is appended to it. |
| `StaticServer.JoinPath` | electron/main.js:57 | `path.join(rootDir, safePath)` gives a normalised path. For a relative or empty decoded path it names the same path as `path.resolve` at line 46 (with "." for an empty path). |
| `StaticServer.StartsWithRoot` | electron/main.js:48 | The containment test as written admits exactly the strings that consist of the root string followed by anything. |
| `StaticServer.WithinRootIffInside` | electron/main.js:48 | The intended check (equal to the root or under root + "/") holds if and only if the resolved segments extend the root's segments. |
| `StaticServer.RenderWithin` | electron/main.js:48 | For normalised paths, string containment under a separator is segment-prefix containment. |
| `StaticServer.WithinRootImpliesStartsWithRoot` | electron/main.js:48 | The intended check is stricter than the as-written prefix test. |
| `StaticServer.SiblingPrefixAdmitted` | electron/main.js:46-48 | "../<root name><suffix>/<file>" resolves to a sibling directory whose path starts with the root string, yet lies outside the root. |
| `StaticServer.Extname` | electron/main.js:81 | The extension is empty or a dot followed by a dot-free, slash-free suffix of the path. |
| `StaticServer.ExtnameOfSegment` | electron/main.js:81 | The extension comes from the last segment only. |
| `StaticServer.ExtensionOf` | electron/main.js:81 | The extension of "<stem>.<ext>" is ".<ext>". |
| `StaticServer.NoExtension` | electron/main.js:81 | A name without a dot, or a dot file, has no extension. |
| `StaticServer.ContentType` | electron/main.js:19-32 | A table extension maps to its type; anything else to application/octet-stream. |
| `StaticServer.Lower` | electron/main.js:81 | `toLowerCase` on ASCII: same length, and each character lower-cased. |
| `StaticServer.ContentTypeOf` | electron/main.js:81-82 | The Content-Type of a served file is a type from the table, or the default exactly when the lower-cased extension is not in the table. |
| `StaticServer.IndexIsHtml` | electron/main.js:57-59 | A directory index is served as text/html. |
| `StaticServer.UpperCaseExtension` | electron/main.js:81-82 | Extensions are lower-cased before lookup: ".PNG" is image/png. |
| `StaticServer.DotFileIsOctetStream` | electron/main.js:81-82 | A file with no extension, or a dot file like ".env", is application/octet-stream. |
| `StaticServer.Candidates` | electron/main.js:54-60 | There are three candidates. The resolved path and that path plus ".html" come first for a file request, and last (after the directory index) for a directory request. The order is also stated by the two lemmas below. |
| `StaticServer.FirstFile` | electron/main.js:62-73 | None exactly when no candidate is a file; otherwise the first candidate that is a file. |
| `StaticServer.Outcome` | electron/main.js:75-90 | 404 exactly when no candidate is a file. 500 when the first file cannot be read. Otherwise that file, with the type of its lower-cased extension. |
| `StaticServer.TryPaths` | electron/main.js:54-60 | The candidates are built by push and unshift: the index first for a root or directory request, last otherwise. |
| `StaticServer.ProbeCandidates` | electron/main.js:62-73 | The probe loop examines a prefix of the candidates, stops at the first file and finds it, or examines all of them. |
| `StaticServer.DirectoryIndexFirst` | electron/main.js:54-57 | For the root or a directory request: the index, the path, then the path with ".html". |
| `StaticServer.ExactPathFirst` | electron/main.js:54-59 | For any other request: the path, the path with ".html", then its index. |
| `StaticServer.ServeCandidates` | electron/main.js:54-85 | After the containment test: the candidates are built and probed in order, and the answer is their outcome. |
| `StaticServer.HandleRequest` | electron/main.js:42-90 | A decode error answers 500. A resolved path that does not start with the root string answers 403 without probing. Otherwise the candidates are probed in order and the answer is their outcome. |
| `StaticServer.HandleRequestIntended` | electron/main.js:42-90 | The handler with the intended containment test: 403 exactly when the resolved path lies outside the root, and otherwise as `HandleRequest`. |
| `StaticServer.AnswersDifferOnlyOutsideRoot` | electron/main.js:48 | The written and the intended handler answer differently exactly when the decoded path resolves outside the root yet starts with the root string. Then the intended one answers 403 and the written one does not. |
| `StaticServer.Server.constructor` | electron/main.js:34-35 | No URL is cached and no server has been created. |
| `StaticServer.Server.StartStaticFileServer` | electron/main.js:37-97 | A cached URL is returned without creating a server. Otherwise one server is created and "http://127.0.0.1:<port>" is cached and returned. |
| `StaticServer.Server.ResolveUiUrl` | electron/main.js:99-109 | A non-empty UI_URL wins, then the development URL. Then the static server's URL when the built index exists (starting it at most once), else null. |

## Left out

- `ImagePrinter.RenderImageToBuffer`: weaker than the source. Node's `Buffer.from(s, 'base64')` is lenient: it skips invalid characters, accepts missing padding and URL-safe letters, and never throws. The model decodes canonical base64 only, and a non-canonical source is a failure (`NOT_CANONICAL`).
- `EscposPrinter.PrintEscpos`: the job's `encoding` option only configures the driver's text encoding, so it is not modelled. `PrintReceipt`'s `encoding` parameter is dropped for the same reason.
- `PrinterManager.Manager.PrintReceipt`: the command trace of the device that printed is not returned through the manager; it is described by `EscposPrinter.PrintEscpos`.
- Printer ids are strings or undefined (`Id`). Non-string ids from the remote catalog, and the `===` comparisons on them, are not modelled.
- Preference values are strings as read back by `JSON.parse`. A preferences file holding a non-object, or non-string values, is not modelled.
- `PrinterManager.Manager.InitializePrinterManager`: a fetched list whose first entry is null or undefined is not modelled. In the source the catalog is replaced at printerManager.js:70, reading the id at line 71 throws and is caught at line 73, and the call then rejects at line 79, when `findPrinter` (line 56) reads `id` of the null entry. The model takes every entry to be a printer.
- `getPrinters` (printerManager.js:89-92) only reads the two fields; it is not modelled separately.
- `PrinterManager.Categories`: the `reduce` accumulator is a plain object. Keys such as "__proto__" or "constructor" are not modelled, and neither is the ordering of integer-like keys by `Object.entries`. Keys are taken in order of first appearance.
- `JsValues.ToString` covers numbers only as natural and integer values. Floating-point formatting is left out, and so are Unicode case mapping in `toLowerCase` and parseInt's non-decimal prefixes.
- Concurrency: two overlapping `startStaticFileServer` calls before the URL is cached would each create a server. The model runs calls one after another.
- URL parsing, `decodeURIComponent`, `fs.promises.stat`, `fs.promises.readFile` and `fs.existsSync` are inputs (functions and flags). Their behaviour is not modelled.
- `StaticServer.JoinPath`: `path.join(rootDir, safePath, 'index.html')` is modelled by segment normalisation. A decoded path that starts with "/" is joined under the root, as Node does. Only an encoded leading slash ("%2F") produces one, since line 45 strips every literal leading slash.
- The port chosen by `listen(0)` is a parameter. The HTTP server, its sockets and the headers written (the Content-Type header is set before a read that may fail) are not modelled.
- `UpdateManager.ParseInt` and `UpdateManager.CompareVersions`: components are unbounded integers. In the source `parseInt` returns an IEEE double, so components beyond 2^53 lose precision (`compareVersions("9007199254740993", "9007199254740992")` is 0 there and 1 here) and very long digit strings become Infinity.
- `ImagePrinter.RenderImageToBuffer`: a truthy input that is neither a string nor a Buffer (a typed array or an object passed over IPC) is not modelled. `ImageInput` has only the no-image, buffer and string cases.
- Windows paths (backslash separators, drive letters) are not modelled; paths are POSIX.
- `downloadUpdate`, the installer launch, the IPC layer, the API client and the Electron windows are not part of this model.

## Findings

| source | as written | input that shows it | evidently intended | confidence | as-written member | corrected member |
|---|---|---|---|---|---|---|
| electron/main.js:48 | `resolvedPath.startsWith(rootDir)` admits any path whose string begins with the root, including a sibling directory such as "/app/next/out-private" for root "/app/next/out". `StaticServer.HandleRequest` models the handler with this test, and `StaticServer.AnswersDifferOnlyOutsideRoot` shows these paths are exactly where it departs from the intended handler | request path "/..%2fout-private%2fsecret.txt" (URL parsing keeps the encoded slashes, and decoding gives "../out-private/secret.txt"), which resolves to "/app/next/out-private/secret.txt" | serve only the root itself or paths under root + "/" | high (not executed) | `StaticServer.SiblingPrefixAdmitted` | `StaticServer.HandleRequestIntended` |
