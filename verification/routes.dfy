/** The two request handlers of `routes.py` over the request's JSON body: `/pack` checks the
    items and hands them to the packer, `/validate_json` normalises an uploaded file and
    expands its item types by quantity. A `None` from a helper is an exception the handler's
    `except` turns into a 500 reply. */
module Routes {
  import opened Wrappers
  import opened Json
  import LocalSearch
  import Service

  // ---------------------------------------------------------------------------------------
  // Python built-ins on JSON values
  // ---------------------------------------------------------------------------------------

  /** The values `in` works on: dictionaries, lists and strings. */
  predicate Container(v: Value)
  {
    v.JObj? || v.JArr? || v.JStr?
  }

  /** `in` raises exactly on values that are not containers. */
  lemma PyInDefinedOnContainers(key: string, v: Value)
    ensures PyIn(key, v).Some? <==> Container(v)
  {
  }

  /** `len(v)`; `None` is the `TypeError` of a number, boolean or `None`. */
  function PyLen(v: Value): Option<int>
  {
    match v
    case JArr(e) => Some(|e|)
    case JStr(s) => Some(|s|)
    case JObj(f) => Some(|f|)
    case _ => None
  }

  /** What `for x in v` visits: list elements, one-character strings, dictionary keys. */
  function PyIter(v: Value): (r: Option<seq<Value>>)
    ensures r.Some? <==> Container(v)
    ensures r.Some? ==> Some(|r.value|) == PyLen(v)
    ensures v.JArr? ==> r == Some(v.elems)
  {
    match v
    case JArr(e) => Some(e)
    case JStr(s) => Some(seq(|s|, k requires 0 <= k < |s| => JStr([s[k]])))
    case JObj(f) => Some(seq(|f|, k requires 0 <= k < |f| => JStr(f[k].0)))
    case _ => None
  }

  /** `v[0]`: the first element of a list or character of a string; a dictionary has no key
      `0` (JSON keys are strings), and an empty list or string has no first element. */
  function PyFirst(v: Value): (r: Option<Value>)
    ensures v.JArr? && |v.elems| > 0 ==> r == Some(v.elems[0])
    ensures v.JObj? ==> r.None?
  {
    match v
    case JArr(e) => if |e| > 0 then Some(e[0]) else None
    case JStr(s) => if |s| > 0 then Some(JStr([s[0]])) else None
    case _ => None
  }

  /** `a in v and b in v and c in v`, evaluated left to right and stopping at the first false. */
  function HasAll(v: Value, a: string, b: string, c: string): (r: Option<bool>)
    ensures r.Some? <==> Container(v)
    ensures v.JObj? ==> r == Some(a in Keys(v.fields) && b in Keys(v.fields) && c in Keys(v.fields))
  {
    match PyIn(a, v)
    case None => None
    case Some(false) => Some(false)
    case Some(true) =>
      match PyIn(b, v)
      case None => None
      case Some(false) => Some(false)
      case Some(true) => PyIn(c, v)
  }

  // ---------------------------------------------------------------------------------------
  // `/pack`
  // ---------------------------------------------------------------------------------------

  datatype FieldProblem = Missing(field: string) | NotNumber(field: string)

  /** The fields an item of the L/W/H format must carry. */
  function NewFields(): seq<string>
  {
    ["L", "W", "H", "id"]
  }

  /** The fields an item of the length/width/height format must carry. */
  function OldFields(): seq<string>
  {
    ["length", "width", "height", "id"]
  }

  /** The first of `fields`, from index `j` on, that the item lacks or whose value `int()`
      refuses; indexing a list or string by a field name is a `TypeError` the handler
      reports as not a number. */
  function FirstFieldProblem(item: Value, fields: seq<string>, j: nat): (p: Option<FieldProblem>)
    requires Container(item) && j <= |fields|
    ensures p.None? <==> forall k :: j <= k < |fields| ==>
                           PySubscript(item, fields[k]).Some? && PyInt(PySubscript(item, fields[k]).value).Some?
    decreases |fields| - j
  {
    if j == |fields| then None
    else
      var f := fields[j];
      if !PyIn(f, item).value then Some(Missing(f))
      else
        match PySubscript(item, f)
        case None => Some(NotNumber(f))
        case Some(v) => if PyInt(v).None? then Some(NotNumber(f)) else FirstFieldProblem(item, fields, j + 1)
  }

  /** The check of one item: `None` is the `TypeError` of `in` on a non-container; otherwise
      the first problem with the fields of the item's format, if any. */
  function CheckItem(item: Value): (r: Option<Option<FieldProblem>>)
    ensures r.Some? <==> Container(item)
  {
    match HasAll(item, "L", "W", "H")
    case None => None
    case Some(isNew) => Some(FirstFieldProblem(item, if isNew then NewFields() else OldFields(), 0))
  }

  /** The fields a dictionary must carry: L/W/H when it has all three, else length/width/height. */
  function FormatFields(item: Value): seq<string>
    requires item.JObj?
  {
    if "L" in Keys(item.fields) && "W" in Keys(item.fields) && "H" in Keys(item.fields) then NewFields() else OldFields()
  }

  /** An item `/pack` accepts: a dictionary whose format's fields are all present and convert
      with `int()`. */
  predicate ItemAccepted(item: Value)
  {
    && item.JObj?
    && forall f :: f in FormatFields(item) ==> Lookup(item.fields, f).Some? && PyInt(Lookup(item.fields, f).value).Some?
  }

  /** The check passes an item exactly when it is accepted; lists and strings never pass. */
  lemma CheckItemPassesIffAccepted(item: Value)
    ensures CheckItem(item) == Some(None) <==> ItemAccepted(item)
  {
    if Container(item) {
      var fields := if HasAll(item, "L", "W", "H").value then NewFields() else OldFields();
      assert CheckItem(item) == Some(FirstFieldProblem(item, fields, 0));
      if !item.JObj? {
        assert PySubscript(item, fields[0]).None?;
      } else {
        assert fields == FormatFields(item);
        if FirstFieldProblem(item, fields, 0).None? {
          forall f | f in fields
            ensures Lookup(item.fields, f).Some? && PyInt(Lookup(item.fields, f).value).Some?
          {
            var k :| 0 <= k < |fields| && fields[k] == f;
          }
        } else {
          var k :| 0 <= k < |fields| && !(PySubscript(item, fields[k]).Some? && PyInt(PySubscript(item, fields[k]).value).Some?);
          assert fields[k] in FormatFields(item);
        }
      }
    }
  }

  /** A check that neither raised nor found a problem. */
  predicate Passes<P>(check: Option<Option<P>>)
  {
    check.Some? && check.value.None?
  }

  /** The first of `results`, from index `i` on, that reports a problem, with its index;
      `Some(None)` when none does, `None` when an exception comes first. */
  function FirstProblem<P>(results: seq<Option<Option<P>>>, i: nat): (r: Option<Option<(nat, P)>>)
    requires i <= |results|
    ensures r.Some? && r.value.None? <==> forall k :: i <= k < |results| ==> Passes(results[k])
    ensures r.Some? && r.value.Some? ==>
              && i <= r.value.value.0 < |results|
              && results[r.value.value.0] == Some(Some(r.value.value.1))
              && forall k :: i <= k < r.value.value.0 ==> Passes(results[k])
    ensures r.None? ==> exists k :: i <= k < |results| && results[k].None? && forall j :: i <= j < k ==> Passes(results[j])
    decreases |results| - i
  {
    if i == |results| then Some(None)
    else
      match results[i]
      case None => None
      case Some(Some(p)) => Some(Some((i, p)))
      case Some(None) => FirstProblem(results, i + 1)
  }

  /** The loop over the items: the index and problem of the first item that fails, with every
      earlier item passing, or `None` when `in` raises on an earlier non-container. */
  function CheckItems(items: seq<Value>): (r: Option<Option<(nat, FieldProblem)>>)
    ensures r.Some? && r.value.None? <==> forall k :: 0 <= k < |items| ==> Passes(CheckItem(items[k]))
    ensures r.Some? && r.value.Some? ==>
              && r.value.value.0 < |items|
              && CheckItem(items[r.value.value.0]) == Some(Some(r.value.value.1))
              && forall k :: 0 <= k < r.value.value.0 ==> Passes(CheckItem(items[k]))
    ensures r.None? ==> exists k :: 0 <= k < |items| && !Container(items[k]) && forall j :: 0 <= j < k ==> Passes(CheckItem(items[j]))
  {
    var results := seq(|items|, k requires 0 <= k < |items| => CheckItem(items[k]));
    assert forall k :: 0 <= k < |items| ==> results[k] == CheckItem(items[k]);
    FirstProblem(results, 0)
  }

  datatype PackError =
    | NoData
    | NoItems
    | MissingField(index: nat, field: string)
    | NotANumber(index: nat, field: string)
    | ServerError

  datatype PackReply = Packed(result: Service.PackResult) | PackFailed(status: int, error: PackError)

  /** `int(bin_size.get(key, 10))`. */
  function BinDimension(binSize: Value, key: string): Option<int>
  {
    match PyGet(binSize, key, JInt(10))
    case None => None
    case Some(v) => PyInt(v)
  }

  /** A side of the bin given by `bin_size`: Python `int()` of the value under `key`, or 10
      when the key is absent. */
  predicate SideIs(binSize: Value, key: string, n: int)
    requires binSize.JObj?
  {
    match Lookup(binSize.fields, key)
    case None => n == 10
    case Some(v) => PyInt(v) == Some(n)
  }

  /** `int()` refuses the value given for a side. */
  predicate SideRefused(binSize: Value, key: string)
    requires binSize.JObj?
  {
    Lookup(binSize.fields, key).Some? && PyInt(Lookup(binSize.fields, key).value).None?
  }

  /** The bin of `data.get('bin_size', {})`, each side 10 when absent. There is none (the
      request fails) when `data` or `bin_size` is not a dict, or when `int()` refuses a side. */
  function BinOf(data: Value): (r: Option<LocalSearch.Bin>)
    ensures data.JObj? && Lookup(data.fields, "bin_size").None? ==> r == Some(LocalSearch.Bin(10, 10, 10))
    ensures r.None? <==>
              || !data.JObj?
              || (var binSize := Lookup(data.fields, "bin_size").GetOr(JObj([]));
                  || !binSize.JObj?
                  || SideRefused(binSize, "length") || SideRefused(binSize, "width") || SideRefused(binSize, "height"))
    ensures r.Some? ==>
              var binSize := Lookup(data.fields, "bin_size").GetOr(JObj([]));
              && binSize.JObj?
              && SideIs(binSize, "length", r.value.l)
              && SideIs(binSize, "width", r.value.w)
              && SideIs(binSize, "height", r.value.h)
  {
    match PyGet(data, "bin_size", JObj([]))
    case None => None
    case Some(binSize) =>
      match (BinDimension(binSize, "length"), BinDimension(binSize, "width"), BinDimension(binSize, "height"))
      case (Some(l), Some(w), Some(h)) => Some(LocalSearch.Bin(l, w, h))
      case _ => None
  }

  /** The part of `pack_items` before the packer runs: the reply it gives on the way, or the
      bin, the items, whether steps were asked for and whether the first item is L/W/H. */
  datatype Request = Request(bin: LocalSearch.Bin, items: seq<Value>, saveSteps: bool, newFormat: bool)

  /** The checks on `data.get('items', [])`: `len()` must work, the value must not be empty,
      and every item must pass. */
  function CheckedItems(items: Value): (r: Result<seq<Value>, PackReply>)
    ensures r.Err? ==> r.error.PackFailed? && (r.error.status == 400 <==> r.error.error != ServerError)
    ensures r.Err? && r.error.error == NoItems ==> !PyTruthy(items)
    ensures r.Ok? ==> PyIter(items) == Some(r.value) && forall k :: 0 <= k < |r.value| ==> CheckItem(r.value[k]) == Some(None)
  {
    if PyLen(items).None? then Err(PackFailed(500, ServerError))
    else if !PyTruthy(items) then Err(PackFailed(400, NoItems))
    else
      var elems := PyIter(items).value;
      match CheckItems(elems)
      case None => Err(PackFailed(500, ServerError))
      case Some(Some((i, Missing(f)))) => Err(PackFailed(400, MissingField(i, f)))
      case Some(Some((i, NotNumber(f)))) => Err(PackFailed(400, NotANumber(i, f)))
      case Some(None) => Ok(elems)
  }

  function ReadPackRequest(data: Value): (r: Result<Request, PackReply>)
    ensures r.Err? ==> r.error.PackFailed? && (r.error.status == 400 <==> r.error.error != ServerError)
    ensures r.Err? && r.error.error == NoData <==> !PyTruthy(data)
    ensures r.Ok? ==> PyTruthy(data) && data.JObj? && forall k :: 0 <= k < |r.value.items| ==> CheckItem(r.value.items[k]) == Some(None)
  {
    if !PyTruthy(data) then Err(PackFailed(400, NoData))
    else
      match BinOf(data)
      case None => Err(PackFailed(500, ServerError))
      case Some(bin) =>
        var items := PyGet(data, "items", JArr([])).value;
        match CheckedItems(items)
        case Err(reply) => Err(reply)
        case Ok(elems) =>
          var saveSteps := PyTruthy(PyGet(data, "algorithm_steps", JBool(false)).value);
          match PyFirst(items)
          case None => Err(PackFailed(500, ServerError))
          case Some(first) =>
            match PyIn("L", first)
            case None => Err(PackFailed(500, ServerError))
            case Some(isNew) => Ok(Request(bin, elems, saveSteps, isNew))
  }

  /** The items of a request that gets through the checks are all accepted. */
  lemma RequestItemsAccepted(data: Value)
    requires ReadPackRequest(data).Ok?
    ensures forall k :: 0 <= k < |ReadPackRequest(data).value.items| ==> ItemAccepted(ReadPackRequest(data).value.items[k])
  {
    var items := ReadPackRequest(data).value.items;
    forall k | 0 <= k < |items|
      ensures ItemAccepted(items[k])
    {
      CheckItemPassesIffAccepted(items[k]);
    }
  }

  /** `pack_items()` with the final snapshot of the L/W/H format in the given form. The reply
      cannot be serialised when its steps hold the packer's arrays, which the handler reports
      as a server error. */
  function PackRouteWith(data: Value, snapshot: Service.Snapshot): (reply: PackReply)
  {
    match ReadPackRequest(data)
    case Err(reply) => reply
    case Ok(req) =>
      var result := if req.newFormat then Service.PackJsonFormatWith(req.bin, req.items, req.saveSteps, snapshot)
                    else Service.Pack(req.bin, req.items, req.saveSteps);
      match result
      case None => PackFailed(500, ServerError)
      case Some(r) => if Service.Serialisable(r.packingSteps) then Packed(r) else PackFailed(500, ServerError)
  }

  /** The handler as written. */
  function PackRouteAsWritten(data: Value): PackReply
  {
    PackRouteWith(data, Service.AsArrays)
  }

  /** A request of the L/W/H format that asks for steps and has at least one item to pack gets
      a server error from the code as written, whatever the packer did. */
  lemma AsWrittenFailsNewFormatWithSteps(data: Value)
    requires ReadPackRequest(data).Ok?
    requires var req := ReadPackRequest(data).value;
             req.newFormat && req.saveSteps && Service.CreateItemsFromJsonNewFormat(req.items).Some?
             && Service.TotalCopies(req.items) > 0
    ensures PackRouteAsWritten(data) == PackFailed(500, ServerError)
  {
    var req := ReadPackRequest(data).value;
    var r := Service.PackJsonFormatWith(req.bin, req.items, req.saveSteps, Service.AsArrays).value;
    var n := |r.packingSteps|;
    assert r.packingSteps[n - 1].SnapshotArrays?;
  }

  /** `pack_items()` with the snapshot serialisable. */
  function PackRoute(data: Value): (reply: PackReply)
    ensures reply.Packed? <==> ReadPackRequest(data).Ok? && PackerResult(ReadPackRequest(data).value).Some?
    ensures reply.Packed? ==> reply.result == PackerResult(ReadPackRequest(data).value).value
    ensures reply.PackFailed? && reply.error == ServerError ==> reply.status == 500
  {
    PackRouteWith(data, Service.AsLists)
  }

  /** What the packer returns for a request that got through the checks. */
  function PackerResult(req: Request): Option<Service.PackResult>
  {
    if req.newFormat then Service.PackJsonFormat(req.bin, req.items, req.saveSteps)
    else Service.Pack(req.bin, req.items, req.saveSteps)
  }

  /** A request of the length/width/height format whose items all carry those fields and a
      convertible request id gets a packing reply that accounts for every item. */
  lemma OldFormatRequestIsPacked(data: Value)
    requires ReadPackRequest(data).Ok?
    requires var req := ReadPackRequest(data).value;
             && !req.newFormat
             && forall k :: 0 <= k < |req.items| ==>
                  FormatFields(req.items[k]) == OldFields() && Service.RequestIdField(req.items[k]).Some?
    ensures PackRoute(data).Packed?
    ensures |PackRoute(data).result.packedItems| + |PackRoute(data).result.leftoverItems| == |ReadPackRequest(data).value.items|
  {
    var req := ReadPackRequest(data).value;
    RequestItemsAccepted(data);
    forall k | 0 <= k < |req.items|
      ensures Service.FormRow(req.items[k]).Some?
    {
      AcceptedItemReads(req.items[k], "length", "width", "height");
    }
  }

  /** A request of the L/W/H format whose items all carry those fields, a convertible request
      id and a quantity `range()` takes gets a packing reply with one row per copy. */
  lemma NewFormatRequestIsPacked(data: Value)
    requires ReadPackRequest(data).Ok?
    requires var req := ReadPackRequest(data).value;
             && req.newFormat
             && forall k :: 0 <= k < |req.items| ==>
                  && FormatFields(req.items[k]) == NewFields()
                  && Service.RequestIdField(req.items[k]).Some?
                  && Service.Quantity(req.items[k]).Some?
    ensures PackRoute(data).Packed?
    ensures |PackRoute(data).result.packedItems| + |PackRoute(data).result.leftoverItems|
            == Service.TotalCopies(ReadPackRequest(data).value.items)
  {
    var req := ReadPackRequest(data).value;
    RequestItemsAccepted(data);
    forall k | 0 <= k < |req.items|
      ensures Service.ExpandType(req.items[k]).Some?
    {
      AcceptedItemReads(req.items[k], "L", "W", "H");
    }
  }

  /** An accepted item whose format's extent fields are `kl`, `kw`, `kh` reads as a row once its
      request id converts. */
  lemma AcceptedItemReads(item: Value, kl: string, kw: string, kh: string)
    requires ItemAccepted(item) && Service.RequestIdField(item).Some?
    requires FormatFields(item) == [kl, kw, kh, "id"]
    ensures Service.RowOf(item, kl, kw, kh).Some?
  {
    var fields := FormatFields(item);
    assert fields[0] in fields && fields[1] in fields && fields[2] in fields && fields[3] in fields;
  }

  // ---------------------------------------------------------------------------------------
  // `/validate_json`
  // ---------------------------------------------------------------------------------------

  /** The id of a processed item: the item's own id, or for one of several copies the id
      followed by `_` and the copy number (its string form is not modelled). */
  datatype ProcessedId = SameId(id: Value) | Suffixed(id: Value, copy: nat)

  /** One entry of `processed_items`, in the length/width/height format, values as given. */
  datatype ProcessedItem = ProcessedItem(id: ProcessedId, requestId: Value, length: Value, width: Value, height: Value)

  /** The normalised bin size: the L/W/H values renamed, or the value as given. */
  datatype BinSizeOut = Normalised(length: Value, width: Value, height: Value) | AsGiven(binSize: Value)

  datatype ValidateError =
    | NoJson
    | MissingBinSize
    | MissingItems
    | BadBinSize
    | ItemsNotArray
    | MissingId(index: nat)
    | BadItemFormat(index: nat)
    | ValidationServerError

  datatype ValidateReply =
    | Valid(itemCount: nat, originalItemCount: nat, binSize: BinSizeOut, processed: seq<ProcessedItem>)
    | Invalid(status: int, error: ValidateError)

  /** The `quantity` copies of an L/W/H item type; several copies get numbered ids. */
  function CopiesOf(id: Value, requestId: Value, l: Value, w: Value, h: Value, q: int): (es: seq<ProcessedItem>)
    ensures |es| == Service.Copies(q)
    ensures forall k :: 0 <= k < |es| ==> es[k].requestId == requestId && (es[k].length, es[k].width, es[k].height) == (l, w, h)
    ensures q > 1 ==> forall k :: 0 <= k < |es| ==> es[k].id == Suffixed(id, k)
    ensures q == 1 ==> es == [ProcessedItem(SameId(id), requestId, l, w, h)]
  {
    seq(Service.Copies(q), k requires 0 <= k < Service.Copies(q) =>
      ProcessedItem(if q > 1 then Suffixed(id, k) else SameId(id), requestId, l, w, h))
  }

  /** The entries one item (at index `i`) contributes, the reply it fails with, or `None` for
      an exception. */
  function Expansion(item: Value, i: nat): (r: Option<Result<seq<ProcessedItem>, ValidateError>>)
    ensures r.Some? && r.value.Err? ==> r.value.error == MissingId(i) || r.value.error == BadItemFormat(i)
    ensures r.Some? && r.value.Ok? ==> item.JObj?
  {
    match PyIn("id", item)
    case None => None
    case Some(false) => Some(Err(MissingId(i)))
    case Some(true) =>
      match HasAll(item, "L", "W", "H")
      case None => None
      case Some(true) =>
        (match Service.Quantity(item)
         case None => None
         case Some(q) =>
           var id := PySubscript(item, "id").value;
           Some(Ok(CopiesOf(id, PyGet(item, "request_id", id).value, PySubscript(item, "L").value,
                            PySubscript(item, "W").value, PySubscript(item, "H").value, q))))
      case Some(false) =>
        match HasAll(item, "length", "width", "height")
        case None => None
        case Some(false) => Some(Err(BadItemFormat(i)))
        case Some(true) =>
          if !item.JObj? then None
          else
            var id := PySubscript(item, "id").value;
            Some(Ok([ProcessedItem(SameId(id), PyGet(item, "request_id", id).value, PySubscript(item, "length").value,
                                   PySubscript(item, "width").value, PySubscript(item, "height").value)]))
  }

  /** How many entries a dictionary item expands to: its copies in the L/W/H format, else one. */
  function EntriesOf(item: Value): nat
  {
    if item.JObj? && "L" in Keys(item.fields) && "W" in Keys(item.fields) && "H" in Keys(item.fields) then
      match Service.Quantity(item) case Some(q) => Service.Copies(q) case None => 0
    else 1
  }

  /** The entries a list of items expands to. */
  function EntryCount(items: seq<Value>): nat
  {
    if |items| == 0 then 0 else EntryCount(items[..|items| - 1]) + EntriesOf(items[|items| - 1])
  }

  /** Every item that expands contributes exactly its entries. */
  lemma ExpansionSize(item: Value, i: nat)
    requires Expansion(item, i).Some? && Expansion(item, i).value.Ok?
    ensures |Expansion(item, i).value.value| == EntriesOf(item)
  {
  }

  /** The entries the results from index `i` on hold, counting only those that hold some. */
  function OkLength<T, E>(results: seq<Option<Result<seq<T>, E>>>, i: nat): nat
    requires i <= |results|
    decreases |results| - i
  {
    if i == |results| then 0
    else (if results[i].Some? && results[i].value.Ok? then |results[i].value.value| else 0) + OkLength(results, i + 1)
  }

  /** The entries of all `results` from index `i` on, in order; the first failure, with every
      earlier result holding entries; or `None` when an exception comes first. */
  function Gather<T, E>(results: seq<Option<Result<seq<T>, E>>>, i: nat): (r: Option<Result<seq<T>, E>>)
    requires i <= |results|
    ensures r.Some? && r.value.Ok? <==> forall k :: i <= k < |results| ==> results[k].Some? && results[k].value.Ok?
    ensures r.Some? && r.value.Ok? ==> |r.value.value| == OkLength(results, i)
    ensures r.Some? && r.value.Err? ==>
              exists k :: i <= k < |results| && results[k] == Some(Err(r.value.error))
                          && forall j :: i <= j < k ==> results[j].Some? && results[j].value.Ok?
    decreases |results| - i
  {
    if i == |results| then Some(Ok([]))
    else
      match results[i]
      case None => None
      case Some(Err(e)) => Some(Err(e))
      case Some(Ok(es)) =>
        match Gather(results, i + 1)
        case None => None
        case Some(Err(e)) => Some(Err(e))
        case Some(Ok(rest)) => Some(Ok(es + rest))
  }

  /** The loop over the items: the entries of them all in order, the first item's failure, or
      `None` for an exception. */
  function ProcessItems(items: seq<Value>): (r: Option<Result<seq<ProcessedItem>, ValidateError>>)
    ensures r.Some? && r.value.Ok? <==> forall k :: 0 <= k < |items| ==> Expansion(items[k], k).Some? && Expansion(items[k], k).value.Ok?
    ensures r.Some? && r.value.Err? ==>
              var e := r.value.error;
              && (e.MissingId? || e.BadItemFormat?)
              && e.index < |items|
              && Expansion(items[e.index], e.index) == Some(Err(e))
              && forall k :: 0 <= k < e.index ==> Expansion(items[k], k).Some? && Expansion(items[k], k).value.Ok?
  {
    var results := seq(|items|, k requires 0 <= k < |items| => Expansion(items[k], k));
    assert forall k :: 0 <= k < |items| ==> results[k] == Expansion(items[k], k);
    var r := Gather(results, 0);
    if r.Some? && r.value.Err? then
      var k :| 0 <= k < |results| && results[k] == Some(Err(r.value.error))
                && forall j :: 0 <= j < k ==> results[j].Some? && results[j].value.Ok?;
      assert r.value.error.index == k;
      r
    else r
  }

  /** A run that gets through every item holds exactly the items' entries. */
  lemma {:induction false} ProcessItemsCountsEntries(items: seq<Value>)
    requires ProcessItems(items).Some? && ProcessItems(items).value.Ok?
    ensures |ProcessItems(items).value.value| == EntryCount(items)
  {
    var results := seq(|items|, k requires 0 <= k < |items| => Expansion(items[k], k));
    OkLengthCountsEntries(items, results, |items|);
    assert items[..|items|] == items;
  }

  /** Over the first `n` items, the entries the expansions hold are the items' entry count. */
  lemma {:induction false} OkLengthCountsEntries(items: seq<Value>, results: seq<Option<Result<seq<ProcessedItem>, ValidateError>>>, n: nat)
    requires |results| == |items| && n <= |items|
    requires forall k :: 0 <= k < |items| ==> results[k] == Expansion(items[k], k) && results[k].Some? && results[k].value.Ok?
    ensures OkLength(results, 0) == OkLength(results, n) + EntryCount(items[..n])
  {
    if n > 0 {
      OkLengthCountsEntries(items, results, n - 1);
      OkLengthSplit(results, n - 1);
      ExpansionSize(items[n - 1], n - 1);
      assert items[..n][..n - 1] == items[..n - 1];
    }
  }

  /** Peeling the result at index `i` off the count. */
  lemma OkLengthSplit<T, E>(results: seq<Option<Result<seq<T>, E>>>, i: nat)
    requires i < |results|
    ensures OkLength(results, i) == (if results[i].Some? && results[i].value.Ok? then |results[i].value.value| else 0) + OkLength(results, i + 1)
  {
  }

  /** `bin_size_normalized`: L/W/H take precedence over length/width/height. */
  function NormaliseBin(binSize: Value): (r: Option<Result<BinSizeOut, ValidateError>>)
    ensures binSize.JObj? && "L" in Keys(binSize.fields) && "W" in Keys(binSize.fields) && "H" in Keys(binSize.fields) ==>
              r == Some(Ok(Normalised(Lookup(binSize.fields, "L").value, Lookup(binSize.fields, "W").value, Lookup(binSize.fields, "H").value)))
    ensures r.Some? && r.value.Ok? && r.value.value.AsGiven? ==>
              r.value.value.binSize == binSize && HasAll(binSize, "length", "width", "height") == Some(true)
    ensures r.Some? <==> binSize.JObj? || HasAll(binSize, "L", "W", "H") == Some(false)
  {
    match HasAll(binSize, "L", "W", "H")
    case None => None
    case Some(true) =>
      (match (PySubscript(binSize, "L"), PySubscript(binSize, "W"), PySubscript(binSize, "H"))
       case (Some(l), Some(w), Some(h)) => Some(Ok(Normalised(l, w, h)))
       case _ => None)
    case Some(false) =>
      match HasAll(binSize, "length", "width", "height")
      case None => None
      case Some(true) => Some(Ok(AsGiven(binSize)))
      case Some(false) => Some(Err(BadBinSize))
  }

  /** The checks `validate_json()` makes before the item loop: the body must not be empty and
      must hold `bin_size` and `items`, the bin size must name its sides, and the items must be
      a list. */
  function CheckedShape(data: Value): (r: Result<(BinSizeOut, seq<Value>), ValidateReply>)
    ensures r.Err? ==> r.error.Invalid? && r.error.status == (if r.error.error == ValidationServerError then 500 else 400)
    ensures r.Err? && r.error.error == NoJson <==> !PyTruthy(data)
    ensures r.Ok? ==>
              && data.JObj? && Lookup(data.fields, "bin_size").Some?
              && NormaliseBin(Lookup(data.fields, "bin_size").value) == Some(Ok(r.value.0))
              && Lookup(data.fields, "items") == Some(JArr(r.value.1))
  {
    if !PyTruthy(data) then Err(Invalid(400, NoJson))
    else
      match PyIn("bin_size", data)
      case None => Err(Invalid(500, ValidationServerError))
      case Some(false) => Err(Invalid(400, MissingBinSize))
      case Some(true) =>
        if !PyIn("items", data).value then Err(Invalid(400, MissingItems))
        else
          match PySubscript(data, "bin_size")
          case None => Err(Invalid(500, ValidationServerError))
          case Some(binSize) =>
            match NormaliseBin(binSize)
            case None => Err(Invalid(500, ValidationServerError))
            case Some(Err(e)) => Err(Invalid(400, e))
            case Some(Ok(bin)) =>
              var items := PySubscript(data, "items").value;
              if !items.JArr? then Err(Invalid(400, ItemsNotArray)) else Ok((bin, items.elems))
  }

  /** `validate_json()`. */
  function ValidateJson(data: Value): (reply: ValidateReply)
    ensures reply.Invalid? ==> reply.status == (if reply.error == ValidationServerError then 500 else 400)
    ensures reply.Valid? ==>
              && data.JObj? && Lookup(data.fields, "bin_size").Some? && Lookup(data.fields, "items").Some?
              && Lookup(data.fields, "items").value.JArr?
              && reply.originalItemCount == |Lookup(data.fields, "items").value.elems|
              && reply.itemCount == |reply.processed|
  {
    match CheckedShape(data)
    case Err(reply) => reply
    case Ok((bin, items)) =>
      match ProcessItems(items)
      case None => Invalid(500, ValidationServerError)
      case Some(Err(e)) => Invalid(400, e)
      case Some(Ok(processed)) => Valid(|processed|, |items|, bin, processed)
  }

  /** The reply's `item_count` is the number of entries the items expand to: each L/W/H type
      its quantity, each other item one. */
  lemma ValidItemCount(data: Value)
    requires ValidateJson(data).Valid?
    ensures ValidateJson(data).itemCount == EntryCount(Lookup(data.fields, "items").value.elems)
  {
    var items := Lookup(data.fields, "items").value.elems;
    ProcessItemsCountsEntries(items);
  }

  /** When every item is of the L/W/H format, the count the validation reports is the number of
      rows the packer expands the same items to. */
  lemma {:induction false} EntryCountIsTotalCopies(items: seq<Value>)
    requires forall k :: 0 <= k < |items| ==> items[k].JObj? && FormatFields(items[k]) == NewFields()
    ensures EntryCount(items) == Service.TotalCopies(items)
  {
    if |items| > 0 {
      var n := |items| - 1;
      assert forall k :: 0 <= k < n ==> items[..n][k] == items[k];
      EntryCountIsTotalCopies(items[..n]);
      NewItemEntries(items[n]);
    }
  }

  /** An L/W/H item contributes the copies its quantity asks for. */
  lemma NewItemEntries(item: Value)
    requires item.JObj? && FormatFields(item) == NewFields()
    ensures EntriesOf(item) == match Service.Quantity(item) case Some(q) => Service.Copies(q) case None => 0
  {
    assert NewFields() != OldFields();
  }

  /** The copies one L/W/H item type expands to carry pairwise distinct ids. */
  lemma CopiesHaveDistinctIds(id: Value, requestId: Value, l: Value, w: Value, h: Value, q: int)
    ensures var es := CopiesOf(id, requestId, l, w, h, q);
            forall a, b :: 0 <= a < b < |es| ==> es[a].id != es[b].id
  {
  }
}
