/**
 * The printer registry and the print orchestration around it: the ordered catalog of printers,
 * the default printer id, the persisted preferences document, and the print, status and
 * bill-splitting operations that run the failover executor over candidate ids.
 *
 * The remote catalog fetch and the device driver are inputs: the fetch as a `FetchResult`, the
 * device as the `Driver` oracle of `EscposPrinter`. The preferences file is the field
 * `prefsFile`: `None` when it is missing, unreadable or not valid JSON.
 */
module PrinterManager {
  import opened Wrappers
  import opened JsValues
  import opened PrinterFactory
  import opened EscposPrinter
  import opened Failover
  import opened ImagePrinter

  /** A preferences document as `JSON.parse` reads it back: every stored value is a string. */
  type Document = map<string, string>

  /** A payload passed to `savePreferences`; an undefined value is `None`. */
  type Payload = map<string, Id>

  const DEFAULT_KEY := "defaultPrinterId"
  const RULE := "--------------------"
  const DEFAULT_CATEGORY := "default"

  // ---- the built-in catalog and the category routes ----

  const FRONT_USB: Printer :=
    Printer(Some("front-usb"), Str("Front Counter (USB)"), DEFAULT_TYPE, UsbConnection(Num(0x0416), Num(0x5011)))
  const KITCHEN_LAN: Printer :=
    Printer(Some("kitchen-lan"), Str("Kitchen (Network)"), DEFAULT_TYPE, NetworkConnection(Str("192.168.1.50"), Num(9100)))

  /** The catalog configured in the source, built with the factory constructors. */
  function BuiltIn(): (ps: seq<Printer>)
    ensures ps == [FRONT_USB, KITCHEN_LAN]
  {
    var usb := CreateUsbPrinter(Some("front-usb"), Str("Front Counter (USB)"), Num(0x0416), Num(0x5011));
    var lan := CreateNetworkPrinter(Some("kitchen-lan"), Str("Kitchen (Network)"), Str("192.168.1.50"), Num(9100));
    [usb.value, lan.value]
  }

  /** `categoryRoutes[category]`: only the kitchen and the bar are routed, the kitchen to the LAN printer and the bar to the front-counter printer. */
  function Route(category: string): (r: Id)
    ensures r.Some? <==> category == "kitchen" || category == "bar"
    ensures r.Some? ==> r.value in {"kitchen-lan", "front-usb"}
    ensures category == "kitchen" ==> r == Some("kitchen-lan")
    ensures category == "bar" ==> r == Some("front-usb")
  {
    if category == "kitchen" then Some("kitchen-lan")
    else if category == "bar" then Some("front-usb")
    else None
  }

  // ---- catalog queries ----

  /** `printers.map((printer) => printer.id)`. */
  function Ids(ps: seq<Printer>): (ids: seq<Id>)
    ensures |ids| == |ps| && forall i :: 0 <= i < |ps| ==> ids[i] == ps[i].id
    decreases |ps|
  {
    if ps == [] then [] else [ps[0].id] + Ids(ps[1..])
  }

  /** `printers.findIndex((printer) => printer.id === id)`. */
  function FindIndex(ps: seq<Printer>, id: Id): (i: int)
    ensures -1 <= i < |ps|
    ensures i == -1 <==> id !in Ids(ps)
    ensures i >= 0 ==> ps[i].id == id && forall j :: 0 <= j < i ==> ps[j].id != id
    decreases |ps|
  {
    if ps == [] then -1
    else if ps[0].id == id then 0
    else
      var k := FindIndex(ps[1..], id);
      if k == -1 then -1 else k + 1
  }

  /** `printers.find((printer) => printer.id === id)`: the first printer with that id. */
  function FindPrinter(ps: seq<Printer>, id: Id): (r: Option<Printer>)
    ensures r.None? <==> id !in Ids(ps)
    ensures r.Some? ==>
      r.value.id == id && exists k :: 0 <= k < |ps| && ps[k] == r.value && (forall j :: 0 <= j < k ==> ps[j].id != id)
  {
    var k := FindIndex(ps, id);
    if k == -1 then None else Some(ps[k])
  }

  predicate Unique<T(==)>(s: seq<T>) {
    forall i, j :: 0 <= i < j < |s| ==> s[i] != s[j]
  }

  /** The registered ids other than `primary`, in registry order. */
  function Others(ps: seq<Printer>, primary: Id): (r: seq<Id>)
    ensures forall x :: x in r <==> x in Ids(ps) && x != primary
    decreases |ps|
  {
    if ps == [] then []
    else if ps[0].id != primary then [ps[0].id] + Others(ps[1..], primary)
    else Others(ps[1..], primary)
  }

  lemma UniqueCons<T>(x: T, s: seq<T>)
    requires x !in s && Unique(s)
    ensures Unique([x] + s)
  {
    var t := [x] + s;
    forall i, j | 0 <= i < j < |t|
      ensures t[i] != t[j]
    {
      assert t[j] == s[j - 1];
      if i > 0 {
        assert t[i] == s[i - 1];
      }
    }
  }

  /** With unique registered ids, every other id is listed once. */
  lemma {:induction false} OthersUnique(ps: seq<Printer>, primary: Id)
    requires Unique(Ids(ps))
    ensures Unique(Others(ps, primary))
    decreases |ps|
  {
    if ps != [] {
      assert Ids(ps[1..]) == Ids(ps)[1..];
      OthersUnique(ps[1..], primary);
      if ps[0].id != primary {
        assert ps[0].id !in Ids(ps[1..]) by {
          forall j | 0 <= j < |ps[1..]|
            ensures Ids(ps[1..])[j] != ps[0].id
          {
            assert Ids(ps)[j + 1] == Ids(ps[1..])[j];
          }
        }
        UniqueCons(ps[0].id, Others(ps[1..], primary));
      }
    }
  }

  /** A primary that is not registered leaves every registered id in place. */
  lemma {:induction false} OthersOfUnregistered(ps: seq<Printer>, primary: Id)
    requires primary !in Ids(ps)
    ensures Others(ps, primary) == Ids(ps)
    decreases |ps|
  {
    if ps != [] {
      assert Ids(ps[1..]) == Ids(ps)[1..];
      OthersOfUnregistered(ps[1..], primary);
    }
  }

  lemma IdsCons(p: Printer, ps: seq<Printer>)
    ensures Ids([p] + ps) == [p.id] + Ids(ps)
  {
    assert ([p] + ps)[1..] == ps;
  }

  /**
   * A primary registered exactly once, at index k: the other ids are the registry with that
   * entry removed, in registry order.
   */
  lemma {:induction false} OthersRemoveOnce(ps: seq<Printer>, primary: Id, k: nat)
    requires k < |ps| && ps[k].id == primary
    requires forall j :: 0 <= j < |ps| && j != k ==> ps[j].id != primary
    ensures Others(ps, primary) == Ids(ps[..k] + ps[k + 1..])
    decreases k
  {
    if k == 0 {
      assert ps[..0] + ps[1..] == ps[1..];
      assert Ids(ps[1..]) == Ids(ps)[1..];
      OthersOfUnregistered(ps[1..], primary);
    } else {
      var tail := ps[1..];
      OthersRemoveOnce(tail, primary, k - 1);
      assert ps[..k] + ps[k + 1..] == [ps[0]] + (tail[..k - 1] + tail[k..]);
      IdsCons(ps[0], tail[..k - 1] + tail[k..]);
    }
  }

  /**
   * `printerOrder(preferred)`: the preferred id if truthy, else the default, whether or not it is
   * registered; then every other registered id in registry order. With unique registered ids the
   * order has no duplicates.
   */
  function PrinterOrder(ps: seq<Printer>, defaultId: Id, preferred: Id): (order: seq<Id>)
    ensures order != [] && order[0] == (if IdTruthy(preferred) then preferred else defaultId)
    ensures order[1..] == Others(ps, order[0])
    ensures forall x :: x in order <==> x == order[0] || x in Ids(ps)
    ensures Unique(Ids(ps)) ==> Unique(order)
  {
    var primary := OrId(preferred, defaultId);
    if Unique(Ids(ps)) then
      OthersUnique(ps, primary);
      UniqueCons(primary, Others(ps, primary));
      [primary] + Others(ps, primary)
    else
      [primary] + Others(ps, primary)
  }

  // ---- attempt functions for the failover executor ----

  function NotFound(id: Id): string {
    "Printer " + ShowId(id) + " not found"
  }

  function DoesNotExist(id: Id): string {
    "Printer " + ShowId(id) + " does not exist"
  }

  /** A successful attempt reports the id it was given, and that id is registered. */
  lemma PrintedIdRegistered(ps: seq<Printer>, job: Job, driver: Driver, id: Id)
    ensures JobAttempt(ps, job, driver, id).Success? ==> JobAttempt(ps, job, driver, id).value == id && id in Ids(ps)
  {
  }

  /** One attempt of `printReceipt` or `printImageFromBuffer` on a candidate id. */
  function JobAttempt(ps: seq<Printer>, job: Job, driver: Driver, id: Id): (r: Result<Id, string>)
    ensures FindPrinter(ps, id).None? ==> r == Failure(NotFound(id))
    ensures FindPrinter(ps, id).Some? ==>
      r == match PrintOutcome(job, FindPrinter(ps, id).value, driver)
           case Success(_) => Success(id)
           case Failure(e) => Failure(e)
  {
    match FindPrinter(ps, id)
    case None => Failure(NotFound(id))
    case Some(printer) =>
      match PrintOutcome(job, printer, driver)
      case Success(_) => Success(id)
      case Failure(e) => Failure(e)
  }

  /** The attempt function `printReceipt` or `printImageFromBuffer` hands to `withFailover`. */
  function JobAttempts(ps: seq<Printer>, job: Job, driver: Driver): Id -> Result<Id, string> {
    id => JobAttempt(ps, job, driver, id)
  }

  /** The outcome of printing `job` with failover, preferring `preferred`. */
  function PrintOutcomeWithFailover(ps: seq<Printer>, defaultId: Id, preferred: Id, job: Job, driver: Driver): Result<Id, string> {
    Failover.Failover(PrinterOrder(ps, defaultId, preferred), JobAttempts(ps, job, driver))
  }

  /**
   * An unregistered truthy preferred id fails only its own attempt: the outcome is failover over
   * the registry in registry order.
   */
  lemma UnknownPreferredFallsThrough(ps: seq<Printer>, defaultId: Id, preferred: Id, job: Job, driver: Driver)
    requires IdTruthy(preferred) && preferred !in Ids(ps) && ps != []
    ensures PrintOutcomeWithFailover(ps, defaultId, preferred, job, driver) == Failover.Failover(Ids(ps), JobAttempts(ps, job, driver))
    ensures Attempted(PrinterOrder(ps, defaultId, preferred), JobAttempts(ps, job, driver)) ==
      [preferred] + Attempted(Ids(ps), JobAttempts(ps, job, driver))
  {
    var order := PrinterOrder(ps, defaultId, preferred);
    OthersOfUnregistered(ps, preferred);
    assert order[1..] == Ids(ps);
    assert JobAttempts(ps, job, driver)(order[0]) == Failure(NotFound(preferred));
    FailedHeadSkipped(order, JobAttempts(ps, job, driver));
  }

  /**
   * With an empty registry the order is the single candidate preferred-or-default, and the
   * outcome is "Printer <candidate> not found", never "No printers available".
   */
  lemma EmptyRegistryNotFound(defaultId: Id, preferred: Id, job: Job, driver: Driver)
    ensures PrintOutcomeWithFailover([], defaultId, preferred, job, driver) ==
      Failure(NotFound(if IdTruthy(preferred) then preferred else defaultId))
    ensures PrintOutcomeWithFailover([], None, None, job, driver) == Failure(NotFound(None)) && ShowId(None) == "undefined"
  {
    var order := PrinterOrder([], defaultId, preferred);
    assert order == [order[0]];
    AllFail(order, JobAttempts([], job, driver));
    var none := PrinterOrder([], None, None);
    assert none == [None];
    AllFail(none, JobAttempts([], job, driver));
  }

  // ---- preferences ----

  /** `{ ...existing, ...payload }`: payload keys override, other keys survive. */
  function Merged(existing: Document, payload: Payload): map<string, Id> {
    (map k | k in existing :: Some(existing[k])) + payload
  }

  /**
   * The document `savePreferences` writes: `JSON.stringify` of the merge, which drops keys whose
   * value is undefined. A payload key overrides (or, when undefined, removes) the stored key;
   * every other stored key keeps its value.
   */
  function SavedDocument(existing: Document, payload: Payload): (doc: Document)
    ensures forall k :: k in payload && payload[k].Some? ==> k in doc && doc[k] == payload[k].value
    ensures forall k :: k in payload && payload[k].None? ==> k !in doc
    ensures forall k :: k !in payload ==> (k in doc <==> k in existing)
    ensures forall k :: k !in payload && k in existing ==> doc[k] == existing[k]
  {
    var merged := Merged(existing, payload);
    map k | k in merged && merged[k].Some? :: merged[k].value
  }

  /** `initialPrefs.defaultPrinterId`. */
  function StoredDefault(prefs: Document): Id {
    if DEFAULT_KEY in prefs then Some(prefs[DEFAULT_KEY]) else None
  }

  // ---- bills ----

  datatype Item = Item(name: Value, qty: Value, price: Value, category: Value)

  datatype BillResult = BillResult(category: string, printerId: Id)

  datatype Status = Status(printerId: Id, ok: bool, error: Option<string>)

  /** `item.category || 'default'`, as the property key it becomes. */
  function CategoryKey(item: Item): (k: string)
    ensures !Truthy(item.category) ==> k == DEFAULT_CATEGORY
    ensures item.category.Str? && Truthy(item.category) ==> k == item.category.s
  {
    if Truthy(item.category) then ToString(item.category) else DEFAULT_CATEGORY
  }

  /** The index of the first item under key `c`, or `|items|` when there is none. */
  function FirstIndexOf(items: seq<Item>, c: string): (k: nat)
    ensures k <= |items|
    ensures forall i :: 0 <= i < k ==> CategoryKey(items[i]) != c
    ensures k < |items| ==> CategoryKey(items[k]) == c
    decreases |items|
  {
    if items == [] then 0
    else if CategoryKey(items[0]) == c then 0
    else
      assert forall i :: 0 < i < |items| ==> items[i] == items[1..][i - 1];
      1 + FirstIndexOf(items[1..], c)
  }

  /** Appending an item does not move the first index of a key that already occurs. */
  lemma FirstIndexOfExtend(init: seq<Item>, last: Item, c: string)
    ensures FirstIndexOf(init + [last], c) == if FirstIndexOf(init, c) < |init| then FirstIndexOf(init, c)
      else if CategoryKey(last) == c then |init| else |init| + 1
  {
    var items := init + [last];
    var a, b := FirstIndexOf(items, c), FirstIndexOf(init, c);
    assert forall i :: 0 <= i < |init| ==> items[i] == init[i];
    if b < |init| {
      assert items[b] == init[b];
    } else if CategoryKey(last) == c {
      assert items[|init|] == last;
    }
  }

  /**
   * The category keys of `items` in order of first appearance: each key once, exactly the keys
   * of the items, and a key listed earlier first occurs earlier in `items`.
   */
  function Categories(items: seq<Item>): (cats: seq<string>)
    ensures Unique(cats)
    ensures forall c :: c in cats <==> exists i :: 0 <= i < |items| && CategoryKey(items[i]) == c
    ensures forall i, j :: 0 <= i < j < |cats| ==> FirstIndexOf(items, cats[i]) < FirstIndexOf(items, cats[j])
    decreases |items|
  {
    if items == [] then []
    else
      var init := items[..|items| - 1];
      var earlier := Categories(init);
      var key := CategoryKey(items[|items| - 1]);
      assert forall i :: 0 <= i < |items| - 1 ==> init[i] == items[i];
      assert items == init + [items[|items| - 1]];
      assert forall c :: c in earlier ==> FirstIndexOf(items, c) == FirstIndexOf(init, c) < |init| by {
        forall c | c in earlier ensures FirstIndexOf(items, c) == FirstIndexOf(init, c) < |init| {
          var i :| 0 <= i < |init| && CategoryKey(init[i]) == c;
          FirstIndexOfExtend(init, items[|items| - 1], c);
        }
      }
      if key in earlier then earlier
      else
        assert FirstIndexOf(items, key) == |init| by {
          FirstIndexOfExtend(init, items[|items| - 1], key);
        }
        assert forall i :: 0 <= i < |earlier| ==> (earlier + [key])[i] == earlier[i];
        assert Unique(earlier + [key]) by {
          forall i, j | 0 <= i < j < |earlier| + 1
            ensures (earlier + [key])[i] != (earlier + [key])[j]
          {
            if j == |earlier| {
              assert (earlier + [key])[i] == earlier[i];
            }
          }
        }
        earlier + [key]
  }

  /** The items under category key `c`, in input order. */
  function ItemsIn(items: seq<Item>, c: string): (group: seq<Item>)
    ensures |group| <= |items|
    ensures forall i :: 0 <= i < |group| ==> CategoryKey(group[i]) == c
    ensures group == [] <==> forall i :: 0 <= i < |items| ==> CategoryKey(items[i]) != c
    decreases |items|
  {
    if items == [] then []
    else
      var init, last := items[..|items| - 1], items[|items| - 1];
      assert forall i :: 0 <= i < |init| ==> init[i] == items[i];
      var rest := ItemsIn(init, c);
      if CategoryKey(last) == c then rest + [last] else rest
  }

  /** Grouping distributes over concatenation, so each group keeps the items' input order. */
  lemma {:induction false} ItemsInAppend(a: seq<Item>, b: seq<Item>, c: string)
    ensures ItemsIn(a + b, c) == ItemsIn(a, c) + ItemsIn(b, c)
    decreases |b|
  {
    if b == [] {
      assert a + b == a;
    } else {
      var init, last := b[..|b| - 1], b[|b| - 1];
      var tail := if CategoryKey(last) == c then [last] else [];
      assert (a + b)[..|a + b| - 1] == a + init && (a + b)[|a + b| - 1] == last;
      assert ItemsIn(a + b, c) == ItemsIn(a + init, c) + tail;
      assert ItemsIn(b, c) == ItemsIn(init, c) + tail;
      ItemsInAppend(a, init, c);
      assert ItemsIn(a, c) + ItemsIn(init, c) + tail == ItemsIn(a, c) + (ItemsIn(init, c) + tail);
    }
  }

  /** A group holds every item of its key, as often as it occurs, and no other item. */
  lemma {:induction false} ItemsInCounts(items: seq<Item>, c: string)
    ensures forall x :: multiset(ItemsIn(items, c))[x] == if CategoryKey(x) == c then multiset(items)[x] else 0
    decreases |items|
  {
    if items != [] {
      var init, last := items[..|items| - 1], items[|items| - 1];
      assert items == init + [last];
      ItemsInCounts(init, c);
    }
  }

  /** A single item forms its own group and no other. */
  lemma ItemsInSingle(x: Item, c: string)
    ensures ItemsIn([x], c) == if CategoryKey(x) == c then [x] else []
  {
  }

  /** Every item lands in exactly one group: the group sizes add up to the number of items. */
  lemma {:induction false} ItemsInPartition(items: seq<Item>)
    ensures SumSizes(items, Categories(items)) == |items|
    decreases |items|
  {
    if items != [] {
      var init := items[..|items| - 1];
      var last := items[|items| - 1];
      assert items == init + [last];
      ItemsInPartition(init);
      var cats := Categories(init);
      var key := CategoryKey(last);
      SumSizesStep(init, last, cats);
      if key !in cats {
        assert Categories(items) == cats + [key];
        SumSizesAppend(items, cats, key);
        assert ItemsIn(init, key) == [];
        assert ItemsIn(items, key) == ItemsIn(init, key) + [last];
      } else {
        assert Categories(items) == cats;
      }
    }
  }

  /** The total size of the groups of `cats`. */
  function SumSizes(items: seq<Item>, cats: seq<string>): nat
    decreases |cats|
  {
    if cats == [] then 0 else |ItemsIn(items, cats[0])| + SumSizes(items, cats[1..])
  }

  /** Adding one item grows exactly the group of its key, by one. */
  lemma {:induction false} SumSizesStep(init: seq<Item>, last: Item, cats: seq<string>)
    requires Unique(cats)
    ensures SumSizes(init + [last], cats) == SumSizes(init, cats) + (if CategoryKey(last) in cats then 1 else 0)
    decreases |cats|
  {
    var items := init + [last];
    assert items[..|items| - 1] == init;
    if cats != [] {
      assert Unique(cats[1..]) by {
        forall i, j | 0 <= i < j < |cats[1..]|
          ensures cats[1..][i] != cats[1..][j]
        {
          assert cats[1..][i] == cats[i + 1] && cats[1..][j] == cats[j + 1];
        }
      }
      SumSizesStep(init, last, cats[1..]);
      if CategoryKey(last) == cats[0] {
        assert cats[0] !in cats[1..] by {
          forall j | 0 <= j < |cats[1..]|
            ensures cats[1..][j] != cats[0]
          {
            assert cats[1..][j] == cats[j + 1];
          }
        }
      }
    }
  }

  lemma {:induction false} SumSizesAppend(items: seq<Item>, cats: seq<string>, c: string)
    ensures SumSizes(items, cats + [c]) == SumSizes(items, cats) + |ItemsIn(items, c)|
    decreases |cats|
  {
    if cats == [] {
      assert ([] + [c])[1..] == [];
    } else {
      assert (cats + [c])[1..] == cats[1..] + [c];
      SumSizesAppend(items, cats[1..], c);
    }
  }

  /** `${i.qty} x ${i.name}`. */
  function ItemLine(item: Item): string {
    ToString(item.qty) + " x " + ToString(item.name)
  }

  /** The receipt lines of one category's group. */
  function BillLines(c: string, group: seq<Item>): (lines: seq<string>)
    ensures |lines| == |group| + 3
    ensures lines[0] == "Category: " + c && lines[1] == RULE && lines[|group| + 2] == " "
    ensures forall i :: 0 <= i < |group| ==> lines[i + 2] == ItemLine(group[i])
  {
    ["Category: " + c, RULE] + seq(|group|, i requires 0 <= i < |group| => ItemLine(group[i])) + [" "]
  }

  /** The outcome of printing the group of category `c`: the id of the printer used. */
  function GroupOutcome(ps: seq<Printer>, defaultId: Id, driver: Driver, items: seq<Item>, c: string): Result<Id, string> {
    PrintOutcomeWithFailover(ps, defaultId, OrId(Route(c), defaultId), TextJob(BillLines(c, ItemsIn(items, c))), driver)
  }

  /** The ids tried by the failover that prints the group of category `c`. */
  function GroupTried(ps: seq<Printer>, defaultId: Id, driver: Driver, items: seq<Item>, c: string): seq<Id> {
    Attempted(PrinterOrder(ps, defaultId, OrId(Route(c), defaultId)), JobAttempts(ps, TextJob(BillLines(c, ItemsIn(items, c))), driver))
  }

  /** The ids each category's group tries, as a function of the category. */
  function GroupTrieds(ps: seq<Printer>, defaultId: Id, driver: Driver, items: seq<Item>): string -> seq<Id> {
    c => GroupTried(ps, defaultId, driver, items, c)
  }

  /** The outcome of each category's group, as a function of the category. */
  function GroupOutcomes(ps: seq<Printer>, defaultId: Id, driver: Driver, items: seq<Item>): string -> Result<Id, string> {
    c => GroupOutcome(ps, defaultId, driver, items, c)
  }

  /** The groups of `cats` printed in order; the first group that fails ends the run. */
  function BillRun(outcome: string -> Result<Id, string>, cats: seq<string>): (r: Result<seq<BillResult>, string>)
    ensures r.Success? <==> forall j :: 0 <= j < |cats| ==> outcome(cats[j]).Success?
    ensures r.Success? ==> |r.value| == |cats|
    ensures r.Failure? ==> exists j :: 0 <= j < |cats| && outcome(cats[j]) == Failure(r.error)
    decreases |cats|
  {
    if cats == [] then Success([])
    else
      match outcome(cats[0])
      case Failure(e) => Failure(e)
      case Success(used) =>
        match BillRun(outcome, cats[1..])
        case Failure(e) => Failure(e)
        case Success(rest) => Success([BillResult(cats[0], used)] + rest)
  }

  /** `done` followed by the outcome `r` of the remaining groups. */
  function Then(done: seq<BillResult>, r: Result<seq<BillResult>, string>): Result<seq<BillResult>, string> {
    match r
    case Failure(e) => Failure(e)
    case Success(rest) => Success(done + rest)
  }

  /**
   * When every group prints, there is one result per category, in category order, naming the
   * printer that group's failover actually used.
   */
  lemma {:induction false} BillAllPrinted(outcome: string -> Result<Id, string>, cats: seq<string>)
    requires forall j :: 0 <= j < |cats| ==> outcome(cats[j]).Success?
    ensures BillRun(outcome, cats).Success?
    ensures var rs := BillRun(outcome, cats).value;
      |rs| == |cats| && forall j :: 0 <= j < |cats| ==> rs[j] == BillResult(cats[j], outcome(cats[j]).value)
    decreases |cats|
  {
    if cats != [] {
      BillAllPrinted(outcome, cats[1..]);
      var rest := BillRun(outcome, cats[1..]).value;
      var rs := BillRun(outcome, cats).value;
      assert rs == [BillResult(cats[0], outcome(cats[0]).value)] + rest;
      forall j | 1 <= j < |cats|
        ensures rs[j] == BillResult(cats[j], outcome(cats[j]).value)
      {
        assert rs[j] == rest[j - 1] && cats[1..][j - 1] == cats[j];
      }
    }
  }

  /**
   * A group that fails rejects the whole bill with that group's error, whatever the later
   * groups would do; `BillTriedUpToFailure` shows they are never attempted.
   */
  lemma {:induction false} BillStopsAtFirstFailure(outcome: string -> Result<Id, string>, cats: seq<string>, k: nat)
    requires k < |cats|
    requires forall j :: 0 <= j < k ==> outcome(cats[j]).Success?
    requires outcome(cats[k]).Failure?
    ensures BillRun(outcome, cats) == Failure(outcome(cats[k]).error)
    decreases k
  {
    if k > 0 {
      BillStopsAtFirstFailure(outcome, cats[1..], k - 1);
    }
  }

  lemma ThenNothing(r: Result<seq<BillResult>, string>)
    ensures Then([], r) == r
  {
    if r.Success? {
      assert [] + r.value == r.value;
    }
  }

  lemma BillStep(outcome: string -> Result<Id, string>, cats: seq<string>, i: nat, done: seq<BillResult>, used: Id)
    requires i < |cats| && outcome(cats[i]) == Success(used)
    ensures Then(done, BillRun(outcome, cats[i..])) == Then(done + [BillResult(cats[i], used)], BillRun(outcome, cats[i + 1..]))
  {
    assert cats[i..][1..] == cats[i + 1..];
    match BillRun(outcome, cats[i + 1..])
    case Failure(e) =>
    case Success(rest) =>
      assert done + ([BillResult(cats[i], used)] + rest) == done + [BillResult(cats[i], used)] + rest;
  }

  /**
   * The failover traces of the groups of `cats` printed in order: one per group up to and
   * including the first group that fails.
   */
  function BillTried(outcome: string -> Result<Id, string>, triedOf: string -> seq<Id>, cats: seq<string>): (tried: seq<seq<Id>>)
    ensures |tried| <= |cats| && (cats != [] ==> tried != [])
    ensures forall j :: 0 <= j < |tried| ==> tried[j] == triedOf(cats[j])
    decreases |cats|
  {
    if cats == [] then []
    else if outcome(cats[0]).Failure? then [triedOf(cats[0])]
    else [triedOf(cats[0])] + BillTried(outcome, triedOf, cats[1..])
  }

  /**
   * A group that fails is the last one tried: the groups before it and that group itself each
   * ran their failover, and no printer is tried for a later group.
   */
  lemma {:induction false} BillTriedUpToFailure(outcome: string -> Result<Id, string>, triedOf: string -> seq<Id>, cats: seq<string>, k: nat)
    requires k < |cats|
    requires forall j :: 0 <= j < k ==> outcome(cats[j]).Success?
    requires outcome(cats[k]).Failure?
    ensures var tried := BillTried(outcome, triedOf, cats);
      |tried| == k + 1 && forall j :: 0 <= j <= k ==> tried[j] == triedOf(cats[j])
    decreases k
  {
    if k > 0 {
      BillTriedUpToFailure(outcome, triedOf, cats[1..], k - 1);
      var rest := BillTried(outcome, triedOf, cats[1..]);
      forall j | 1 <= j <= k
        ensures BillTried(outcome, triedOf, cats)[j] == triedOf(cats[j])
      {
        assert BillTried(outcome, triedOf, cats)[j] == rest[j - 1] && cats[1..][j - 1] == cats[j];
      }
    }
  }

  /** When every group prints, every group ran its failover, in category order. */
  lemma {:induction false} BillTriedAll(outcome: string -> Result<Id, string>, triedOf: string -> seq<Id>, cats: seq<string>)
    requires forall j :: 0 <= j < |cats| ==> outcome(cats[j]).Success?
    ensures var tried := BillTried(outcome, triedOf, cats);
      |tried| == |cats| && forall j :: 0 <= j < |cats| ==> tried[j] == triedOf(cats[j])
    decreases |cats|
  {
    if cats != [] {
      BillTriedAll(outcome, triedOf, cats[1..]);
      var rest := BillTried(outcome, triedOf, cats[1..]);
      forall j | 1 <= j < |cats|
        ensures BillTried(outcome, triedOf, cats)[j] == triedOf(cats[j])
      {
        assert BillTried(outcome, triedOf, cats)[j] == rest[j - 1] && cats[1..][j - 1] == cats[j];
      }
    }
  }

  lemma BillTriedStep(outcome: string -> Result<Id, string>, triedOf: string -> seq<Id>, cats: seq<string>, i: nat, tried: seq<seq<Id>>)
    requires i < |cats| && outcome(cats[i]).Success?
    ensures tried + BillTried(outcome, triedOf, cats[i..]) == (tried + [triedOf(cats[i])]) + BillTried(outcome, triedOf, cats[i + 1..])
  {
    assert cats[i..][1..] == cats[i + 1..];
  }

  // ---- the registry as mutable state ----

  class Manager {
    /** The catalog, in registry order. */
    var printers: seq<Printer>
    var defaultPrinterId: Id
    /** The preferences file; `None` when it is missing or cannot be parsed. */
    var prefsFile: Option<Document>
    /** Whether a user-data directory, hence a preferences path, exists. */
    const hasPrefsPath: bool
    /** The preferences loaded once at start-up. */
    const initialPrefs: Document

    /**
     * Module load: the built-in catalog, and the stored default if truthy, else the first
     * built-in id. The stored default is taken whether or not it names a registered printer.
     */
    constructor (hasPrefsPath: bool, file: Option<Document>)
      ensures this.hasPrefsPath == hasPrefsPath && prefsFile == file
      ensures initialPrefs == (if hasPrefsPath && file.Some? then file.value else map[])
      ensures printers == BuiltIn()
      ensures defaultPrinterId == OrId(StoredDefault(initialPrefs), FRONT_USB.id)
    {
      this.hasPrefsPath := hasPrefsPath;
      prefsFile := file;
      initialPrefs := if hasPrefsPath && file.Some? then file.value else map[];
      printers := BuiltIn();
      new;
      defaultPrinterId := OrId(StoredDefault(initialPrefs), printers[0].id);
    }

    /** `loadPreferences`: the stored document, or `{}` without a path or a readable document. */
    function LoadPreferences(): (prefs: Document)
      reads this
      ensures !hasPrefsPath || prefsFile.None? ==> prefs == map[]
      ensures hasPrefsPath && prefsFile.Some? ==> prefs == prefsFile.value
    {
      if hasPrefsPath && prefsFile.Some? then prefsFile.value else map[]
    }

    /**
     * `savePreferences`: merge the payload into the stored document. Without a path nothing
     * happens; a failed write (`writeOk` false) is swallowed and leaves the file as it was.
     */
    method SavePreferences(payload: Payload, writeOk: bool)
      modifies this
      ensures printers == old(printers) && defaultPrinterId == old(defaultPrinterId)
      ensures prefsFile == if hasPrefsPath && writeOk then Some(SavedDocument(old(LoadPreferences()), payload)) else old(prefsFile)
    {
      if !hasPrefsPath {
        return;
      }
      var existing := LoadPreferences();
      if writeOk {
        prefsFile := Some(SavedDocument(existing, payload));
      }
    }

    /**
     * `setDefaultPrinter`: an unregistered id fails and changes nothing; a registered one
     * becomes the default and is persisted.
     */
    method SetDefaultPrinter(id: Id, writeOk: bool) returns (r: Result<Id, string>)
      modifies this
      ensures printers == old(printers)
      ensures id !in Ids(printers) ==>
        r == Failure(DoesNotExist(id)) && defaultPrinterId == old(defaultPrinterId) && prefsFile == old(prefsFile)
      ensures id in Ids(printers) ==>
        && r == Success(id) && defaultPrinterId == id
        && prefsFile == if hasPrefsPath && writeOk then Some(SavedDocument(old(LoadPreferences()), map[DEFAULT_KEY := id])) else old(prefsFile)
      ensures r.Success? ==> FindPrinter(printers, defaultPrinterId).Some?
    {
      if FindPrinter(printers, id).None? {
        return Failure(DoesNotExist(id));
      }
      defaultPrinterId := id;
      SavePreferences(map[DEFAULT_KEY := defaultPrinterId], writeOk);
      r := Success(defaultPrinterId);
    }

    /**
     * `deletePrinter`: an unregistered id fails and changes nothing. Otherwise exactly the first
     * entry with that id is removed, the others keep their order, and only when it was the
     * default does the default move to the new first id (undefined when none is left) and get
     * persisted. The result is the new catalog and default.
     */
    method DeletePrinter(id: Id, writeOk: bool) returns (r: Result<(seq<Printer>, Id), string>)
      modifies this
      ensures id !in Ids(old(printers)) ==>
        r == Failure(DoesNotExist(id)) && printers == old(printers) &&
        defaultPrinterId == old(defaultPrinterId) && prefsFile == old(prefsFile)
      ensures id in Ids(old(printers)) ==>
        var k := FindIndex(old(printers), id);
        && printers == old(printers)[..k] + old(printers)[k + 1..]
        && |printers| == |old(printers)| - 1
        && r == Success((printers, defaultPrinterId))
      ensures id in Ids(old(printers)) && old(defaultPrinterId) == id ==>
        && defaultPrinterId == (if printers == [] then None else printers[0].id)
        && prefsFile == if hasPrefsPath && writeOk then Some(SavedDocument(old(LoadPreferences()), map[DEFAULT_KEY := defaultPrinterId])) else old(prefsFile)
      ensures id in Ids(old(printers)) && old(defaultPrinterId) != id ==>
        defaultPrinterId == old(defaultPrinterId) && prefsFile == old(prefsFile)
      ensures FindPrinter(old(printers), old(defaultPrinterId)).Some? ==>
        printers == [] || FindPrinter(printers, defaultPrinterId).Some?
    {
      var k := FindIndex(printers, id);
      if k == -1 {
        return Failure(DoesNotExist(id));
      }
      ghost var before := printers;
      printers := printers[..k] + printers[k + 1..];
      if defaultPrinterId == id {
        defaultPrinterId := if printers == [] then None else printers[0].id;
        SavePreferences(map[DEFAULT_KEY := defaultPrinterId], writeOk);
      } else if FindPrinter(before, defaultPrinterId).Some? {
        KeptAfterRemoval(before, k, defaultPrinterId);
      }
      r := Success((printers, defaultPrinterId));
    }

    /**
     * `initializePrinterManager`: a non-empty fetched list replaces the catalog and its first id
     * becomes the default; an empty list, a non-array or a failed fetch leaves both alone. Then
     * the stored default (or, when it is falsy, the current one) is adopted only if it names a
     * registered printer.
     */
    method InitializePrinterManager(fetch: FetchResult) returns (catalog: seq<Printer>, defaultPrinter: Id)
      modifies this
      ensures prefsFile == old(prefsFile)
      ensures printers == if fetch.Listed? && fetch.items != [] then fetch.items else old(printers)
      ensures var fetched := if fetch.Listed? && fetch.items != [] then fetch.items[0].id else old(defaultPrinterId);
        var candidate := OrId(StoredDefault(initialPrefs), fetched);
        defaultPrinterId == if FindPrinter(printers, candidate).Some? then candidate else fetched
      ensures catalog == printers && defaultPrinter == defaultPrinterId
      ensures fetch.Listed? && fetch.items != [] ==> FindPrinter(printers, defaultPrinterId).Some?
      ensures FindPrinter(old(printers), old(defaultPrinterId)).Some? ==> FindPrinter(printers, defaultPrinterId).Some?
    {
      if fetch.Listed? && |fetch.items| > 0 {
        printers := fetch.items;
        defaultPrinterId := fetch.items[0].id;
        assert Ids(printers)[0] == defaultPrinterId;
      }
      var candidate := OrId(StoredDefault(initialPrefs), defaultPrinterId);
      if FindPrinter(printers, candidate).Some? {
        defaultPrinterId := candidate;
      }
      return printers, defaultPrinterId;
    }

    /** `printReceipt`: the lines printed with failover over `printerOrder(preferred)`. */
    method PrintReceipt(lines: seq<string>, preferred: Id, driver: Driver) returns (r: Result<Id, string>, tried: seq<Id>)
      ensures r == PrintOutcomeWithFailover(printers, defaultPrinterId, preferred, TextJob(lines), driver)
      ensures tried == Attempted(PrinterOrder(printers, defaultPrinterId, preferred), JobAttempts(printers, TextJob(lines), driver))
      ensures r.Success? ==> r.value == tried[|tried| - 1] && r.value in Ids(printers)
    {
      var order := PrinterOrder(printers, defaultPrinterId, preferred);
      r, tried := WithFailover(order, JobAttempts(printers, TextJob(lines), driver));
      if r.Success? {
        PrintedIdRegistered(printers, TextJob(lines), driver, tried[|tried| - 1]);
      }
    }

    /**
     * `printImageFromBuffer`: the image is rendered first, so a rendering error fails before any
     * candidate is tried; the buffer is then printed with failover.
     */
    method PrintImageFromBuffer(image: ImageInput, width: Value, preferred: Id, driver: Driver) returns (r: Result<Id, string>, tried: seq<Id>)
      ensures RenderImageToBuffer(image, width).Failure? ==>
        r == Failure(RenderImageToBuffer(image, width).error) && tried == []
      ensures RenderImageToBuffer(image, width).Success? ==>
        var job := ImageJob(RenderImageToBuffer(image, width).value);
        && r == PrintOutcomeWithFailover(printers, defaultPrinterId, preferred, job, driver)
        && tried == Attempted(PrinterOrder(printers, defaultPrinterId, preferred), JobAttempts(printers, job, driver))
      ensures r.Success? ==> r.value in Ids(printers)
    {
      var order := PrinterOrder(printers, defaultPrinterId, preferred);
      var buffer := RenderImageToBuffer(image, width);
      if buffer.Failure? {
        return Failure(buffer.error), [];
      }
      r, tried := WithFailover(order, JobAttempts(printers, ImageJob(buffer.value), driver));
      if r.Success? {
        PrintedIdRegistered(printers, ImageJob(buffer.value), driver, tried[|tried| - 1]);
      }
    }

    /**
     * `checkPrinterStatus`: an unregistered id fails; otherwise a probe error is reported as a
     * status with `ok` false rather than as a failure.
     */
    method CheckPrinterStatus(id: Id, driver: Driver) returns (r: Result<Status, string>)
      ensures FindPrinter(printers, id).None? ==> r == Failure(NotFound(id))
      ensures FindPrinter(printers, id).Some? ==>
        var probe := ProbeOutcome(FindPrinter(printers, id).value, driver);
        r == Success(if probe.Success? then Status(id, true, None) else Status(id, false, Some(probe.error)))
    {
      var printer := FindPrinter(printers, id);
      if printer.None? {
        return Failure(NotFound(id));
      }
      var probe, _ := ProbePrinter(printer.value, driver);
      if probe.Success? {
        r := Success(Status(id, true, None));
      } else {
        r := Success(Status(id, false, Some(probe.error)));
      }
    }

    /** One group of the bill: its lines printed with failover, preferring the routed printer. */
    method PrintGroup(items: seq<Item>, category: string, group: seq<Item>, driver: Driver) returns (printed: Result<Id, string>, ids: seq<Id>)
      requires group == ItemsIn(items, category)
      ensures printed == GroupOutcome(printers, defaultPrinterId, driver, items, category)
      ensures ids == GroupTried(printers, defaultPrinterId, driver, items, category)
    {
      var printerId := OrId(Route(category), defaultPrinterId);
      var lines := BillLines(category, group);
      printed, ids := PrintReceipt(lines, printerId, driver);
    }

    /**
     * `printBillByCategory`: the items grouped by category key, each group printed in
     * first-appearance order on `categoryRoutes[category] || defaultPrinterId` with failover.
     * `tried` lists, group by group, the ids each group's failover tried: it stops with the first
     * group that fails, so no printer is tried for a later group.
     */
    method PrintBillByCategory(items: seq<Item>, driver: Driver) returns (r: Result<seq<BillResult>, string>, tried: seq<seq<Id>>)
      ensures r == BillRun(GroupOutcomes(printers, defaultPrinterId, driver, items), Categories(items))
      ensures tried == BillTried(GroupOutcomes(printers, defaultPrinterId, driver, items),
                                 GroupTrieds(printers, defaultPrinterId, driver, items), Categories(items))
    {
      var cats, groups := GroupByCategory(items);
      ghost var outcome := GroupOutcomes(printers, defaultPrinterId, driver, items);
      ghost var triedOf := GroupTrieds(printers, defaultPrinterId, driver, items);
      var results: seq<BillResult> := [];
      tried := [];
      var i := 0;
      assert cats[i..] == cats;
      ThenNothing(BillRun(outcome, cats));
      assert [] + BillTried(outcome, triedOf, cats) == BillTried(outcome, triedOf, cats);
      while i < |cats|
        invariant 0 <= i <= |cats|
        invariant BillRun(outcome, cats) == Then(results, BillRun(outcome, cats[i..]))
        invariant BillTried(outcome, triedOf, cats) == tried + BillTried(outcome, triedOf, cats[i..])
      {
        var category := cats[i];
        assert category in groups;
        var printed, ids := PrintGroup(items, category, groups[category], driver);
        assert printed == outcome(category) && ids == triedOf(category);
        if printed.Failure? {
          assert cats[i..][0] == category;
          return Failure(printed.error), tried + [ids];
        }
        BillStep(outcome, cats, i, results, printed.value);
        BillTriedStep(outcome, triedOf, cats, i, tried);
        tried := tried + [ids];
        results := results + [BillResult(category, printed.value)];
        i := i + 1;
      }
      assert cats[i..] == [] && results + [] == results && tried + [] == tried;
      r := Success(results);
    }
  }

  /** The fetched catalog: a failed fetch, a value that is not an array, or an array of printers. */
  datatype FetchResult = FetchFailed(message: string) | NonArray | Listed(items: seq<Printer>)

  /** Removing an entry whose id differs from `id` keeps `id` registered. */
  lemma {:induction false} KeptAfterRemoval(ps: seq<Printer>, k: nat, id: Id)
    requires k < |ps| && ps[k].id != id && id in Ids(ps)
    ensures id in Ids(ps[..k] + ps[k + 1..])
  {
    var j :| 0 <= j < |ps| && Ids(ps)[j] == id;
    var rest := ps[..k] + ps[k + 1..];
    if j < k {
      assert rest[j] == ps[j];
      assert Ids(rest)[j] == id;
    } else {
      assert rest[j - 1] == ps[j];
      assert Ids(rest)[j - 1] == id;
    }
  }

  /**
   * `items.reduce(...)`: the category keys in first-appearance order and, for each, its items
   * in input order.
   */
  method GroupByCategory(items: seq<Item>) returns (cats: seq<string>, groups: map<string, seq<Item>>)
    ensures cats == Categories(items)
    ensures forall c :: c in groups <==> c in cats
    ensures forall c :: c in groups ==> groups[c] == ItemsIn(items, c)
  {
    cats := [];
    groups := map[];
    var i := 0;
    while i < |items|
      invariant 0 <= i <= |items|
      invariant cats == Categories(items[..i])
      invariant forall c :: c in groups <==> c in cats
      invariant forall c :: c in groups ==> groups[c] == ItemsIn(items[..i], c)
    {
      var key := CategoryKey(items[i]);
      assert items[..i + 1][..i] == items[..i] && items[..i + 1][i] == items[i];
      if key !in groups {
        groups := groups[key := []];
        cats := cats + [key];
      }
      groups := groups[key := groups[key] + [items[i]]];
      i := i + 1;
    }
    assert items[..i] == items;
  }
}
