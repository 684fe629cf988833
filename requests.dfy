/** The dispatch-request routes: creating a request from a posted form, the filtered and
    paginated list, the caller's most recent requests, one request by id, and overwriting a
    request's status. The database becomes the `RequestStore` class; the list queries read
    one snapshot of its rows. Times are milliseconds since the Unix epoch, dates are whole
    days since the epoch. */
module Requests {
  import opened Wrappers
  import opened Text
  import opened Query
  import opened Middleware

  /** How cargo is loaded or unloaded at a stop. */
  datatype LoadingMethod = FORKLIFT | MANUAL | SUDOU_SUHAEJUNG | HOIST | CRANE | CONVEYOR

  function MethodName(m: LoadingMethod): string {
    match m
    case FORKLIFT => "FORKLIFT"
    case MANUAL => "MANUAL"
    case SUDOU_SUHAEJUNG => "SUDOU_SUHAEJUNG"
    case HOIST => "HOIST"
    case CRANE => "CRANE"
    case CONVEYOR => "CONVEYOR"
  }

  /** The loading method spelled exactly `s`, if any (`methodValues.includes`). */
  function MethodNamed(s: string): (r: Option<LoadingMethod>)
    ensures r.Some? ==> MethodName(r.value) == s
  {
    if s == "FORKLIFT" then Some(FORKLIFT)
    else if s == "MANUAL" then Some(MANUAL)
    else if s == "SUDOU_SUHAEJUNG" then Some(SUDOU_SUHAEJUNG)
    else if s == "HOIST" then Some(HOIST)
    else if s == "CRANE" then Some(CRANE)
    else if s == "CONVEYOR" then Some(CONVEYOR)
    else None
  }

  /** A method as the form sends it: accepted when its upper-cased form names a method. */
  function ParseMethod(s: string): (r: Option<LoadingMethod>)
    ensures r.Some? ==> MethodName(r.value) == ToUpper(s)
  {
    MethodNamed(ToUpper(s))
  }

  /** A method is accepted exactly when its upper-cased spelling is one of the six names, and
      the letter case of the input does not matter. */
  lemma ParseMethodIgnoresCase(s: string, m: LoadingMethod)
    ensures ParseMethod(s) == Some(m) <==> ToUpper(s) == MethodName(m)
    ensures ParseMethod(ToLower(s)) == ParseMethod(s)
    ensures ParseMethod(MethodName(m)) == Some(m)
  {
    ToUpperIgnoresCase(s);
    assert ToUpper(MethodName(m)) == MethodName(m);
  }

  /** The life cycle of a request. */
  datatype RequestStatus = PENDING | DISPATCHING | ASSIGNED | IN_TRANSIT | COMPLETED | CANCELLED

  function StatusName(s: RequestStatus): string {
    match s
    case PENDING => "PENDING"
    case DISPATCHING => "DISPATCHING"
    case ASSIGNED => "ASSIGNED"
    case IN_TRANSIT => "IN_TRANSIT"
    case COMPLETED => "COMPLETED"
    case CANCELLED => "CANCELLED"
  }

  /** The status spelled exactly `s` (`allowed.includes(status)`): case-sensitive. */
  function ParseStatus(s: string): (r: Option<RequestStatus>)
    ensures r.Some? ==> StatusName(r.value) == s
  {
    if s == "PENDING" then Some(PENDING)
    else if s == "DISPATCHING" then Some(DISPATCHING)
    else if s == "ASSIGNED" then Some(ASSIGNED)
    else if s == "IN_TRANSIT" then Some(IN_TRANSIT)
    else if s == "COMPLETED" then Some(COMPLETED)
    else if s == "CANCELLED" then Some(CANCELLED)
    else None
  }

  /** Status names and statuses correspond one to one; a spelling in another letter case is
      not a status. */
  lemma StatusNamesRoundTrip(s: RequestStatus, name: string)
    ensures ParseStatus(StatusName(s)) == Some(s)
    ensures ParseStatus(name) == Some(s) <==> name == StatusName(s)
    ensures ParseStatus("pending") == None && ParseStatus("ALL") == None
  {
  }

  /** The status a new request starts in. */
  const InitialStatus := PENDING

  /** A JSON value in a position where the handler only asks whether it is truthy. */
  datatype JsValue = Undefined | Null | Bool(b: bool) | Number(n: int) | Str(s: string)

  /** `Boolean(v)`: false exactly for the falsy values undefined, null, false, 0 and "". */
  function Truthy(v: JsValue): (r: bool)
    ensures !r <==> v == Undefined || v == Null || v == Bool(false) || v == Number(0) || v == Str("")
  {
    match v
    case Undefined => false
    case Null => false
    case Bool(b) => b
    case Number(n) => n != 0
    case Str(s) => s != []
  }

  /** Only `true`, non-zero numbers and non-empty strings count as set; the string "false"
      does too. */
  lemma TruthyCases()
    ensures !Truthy(Undefined) && !Truthy(Null) && !Truthy(Bool(false)) && !Truthy(Number(0)) && !Truthy(Str(""))
    ensures Truthy(Bool(true)) && Truthy(Number(-1)) && Truthy(Str("false"))
  {
  }

  /** One stop of the posted form; absent and null fields are None. A date-time arrives
      already parsed, None when it is absent or empty. */
  datatype StopInput = StopInput(
    placeName: Option<string>, address: Option<string>, addressDetail: Option<string>,
    contactName: Option<string>, contactPhone: Option<string>, loadingMethod: Option<string>,
    isImmediate: JsValue, datetime: Option<int>)

  datatype VehicleInput = VehicleInput(group: Option<string>, tonnage: Option<int>, bodyType: Option<string>)
  datatype CargoInput = CargoInput(description: Option<string>)
  datatype OptionsInput = OptionsInput(requestType: Option<string>, driverNote: Option<string>)
  datatype PaymentInput = PaymentInput(paymentMethod: Option<string>, distanceKm: Option<int>, quotedPrice: Option<int>)

  /** The body of POST /requests. */
  datatype CreateBody = CreateBody(
    pickup: Option<StopInput>, dropoff: Option<StopInput>, vehicle: Option<VehicleInput>,
    cargo: Option<CargoInput>, options: Option<OptionsInput>, payment: Option<PaymentInput>)

  /** A stop as stored. */
  datatype Stop = Stop(
    placeName: string, address: string, addressDetail: Option<string>,
    contactName: Option<string>, contactPhone: Option<string>, loadingMethod: LoadingMethod,
    isImmediate: bool, datetime: Option<int>)

  /** The fields of a request the handler computes from the body and the caller. */
  datatype Draft = Draft(
    pickup: Stop, dropoff: Stop,
    vehicleGroup: Option<string>, vehicleTonnage: Option<int>, vehicleBodyType: Option<string>,
    cargoDescription: Option<string>, requestType: string, driverNote: Option<string>,
    paymentMethod: Option<string>, distanceKm: Option<int>, quotedPrice: Option<int>,
    createdById: int)

  /** A stored request: the store adds the id, the status and the creation time. */
  datatype DispatchRequest = DispatchRequest(id: int, status: RequestStatus, createdAt: int, data: Draft)

  function RequestId(r: DispatchRequest): int { r.id }
  function CreatedAt(r: DispatchRequest): int { r.createdAt }

  /** Why POST /requests refuses a body. */
  datatype CreateError = NoUser | MissingStopFields | BadPickupMethod | BadDropoffMethod

  function CreateStatus(e: CreateError): int {
    if e == NoUser then 401 else 400
  }

  /** A stop with its place name, address and method all given. */
  predicate StopComplete(s: Option<StopInput>) {
    s.Some? && Given(s.value.placeName) && Given(s.value.address) && Given(s.value.loadingMethod)
  }

  /** `String(x).toUpperCase()` when `x` is truthy, else null. */
  function UpperOrNull(x: Option<string>): (r: Option<string>)
    ensures r.Some? <==> Given(x)
    ensures r.Some? ==> r.value == ToUpper(x.value)
  {
    if Given(x) then Some(ToUpper(x.value)) else None
  }

  function StoreStop(s: StopInput, m: LoadingMethod): Stop
    requires Given(s.placeName) && Given(s.address)
  {
    Stop(s.placeName.value, s.address.value, s.addressDetail, s.contactName, s.contactPhone,
         m, Truthy(s.isImmediate), s.datetime)
  }

  /** The record `prisma.dispatchRequest.create` receives for a complete body whose loading
      methods parsed as `pm` and `qm`, created by the account `userId`. */
  function DraftOf(userId: int, body: CreateBody, pm: LoadingMethod, qm: LoadingMethod): (d: Draft)
    requires StopComplete(body.pickup) && StopComplete(body.dropoff)
    ensures d.createdById == userId
    ensures d.pickup == StoreStop(body.pickup.value, pm) && d.dropoff == StoreStop(body.dropoff.value, qm)
    ensures body.vehicle.Some? ==>
              && d.vehicleGroup == UpperOrNull(body.vehicle.value.group)
              && d.vehicleTonnage == body.vehicle.value.tonnage
              && d.vehicleBodyType == body.vehicle.value.bodyType
    ensures body.vehicle.None? ==> d.vehicleGroup == None && d.vehicleTonnage == None && d.vehicleBodyType == None
    ensures d.cargoDescription == (if body.cargo.Some? then body.cargo.value.description else None)
    ensures d.driverNote == (if body.options.Some? then body.options.value.driverNote else None)
    ensures if body.options.Some? && Given(body.options.value.requestType)
            then d.requestType == ToUpper(body.options.value.requestType.value)
            else d.requestType == "NORMAL"
    ensures body.payment.Some? ==>
              && d.paymentMethod == UpperOrNull(body.payment.value.paymentMethod)
              && d.distanceKm == body.payment.value.distanceKm
              && d.quotedPrice == body.payment.value.quotedPrice
    ensures body.payment.None? ==> d.paymentMethod == None && d.distanceKm == None && d.quotedPrice == None
  {
    var vehicle := body.vehicle;
    var options := body.options;
    var payment := body.payment;
    Draft(
      StoreStop(body.pickup.value, pm), StoreStop(body.dropoff.value, qm),
      if vehicle.Some? then UpperOrNull(vehicle.value.group) else None,
      if vehicle.Some? then vehicle.value.tonnage else None,
      if vehicle.Some? then vehicle.value.bodyType else None,
      if body.cargo.Some? then body.cargo.value.description else None,
      if options.Some? && Given(options.value.requestType) then ToUpper(options.value.requestType.value) else "NORMAL",
      if options.Some? then options.value.driverNote else None,
      if payment.Some? then UpperOrNull(payment.value.paymentMethod) else None,
      if payment.Some? then payment.value.distanceKm else None,
      if payment.Some? then payment.value.quotedPrice else None,
      userId)
  }

  /** POST /requests up to the insert: who may create, which bodies are refused, and the
      record the handler would store. */
  function ValidateCreate(user: Option<AuthUser>, body: CreateBody): (r: Result<Draft, CreateError>)
    ensures user.None? ==> r == Failure(NoUser)
    ensures user.Some? && !(StopComplete(body.pickup) && StopComplete(body.dropoff)) ==> r == Failure(MissingStopFields)
    ensures r.Success? <==>
              && user.Some? && StopComplete(body.pickup) && StopComplete(body.dropoff)
              && ParseMethod(body.pickup.value.loadingMethod.value).Some?
              && ParseMethod(body.dropoff.value.loadingMethod.value).Some?
    ensures r == Failure(BadPickupMethod) <==>
              && user.Some? && StopComplete(body.pickup) && StopComplete(body.dropoff)
              && ParseMethod(body.pickup.value.loadingMethod.value).None?
    ensures r == Failure(BadDropoffMethod) <==>
              && user.Some? && StopComplete(body.pickup) && StopComplete(body.dropoff)
              && ParseMethod(body.pickup.value.loadingMethod.value).Some?
              && ParseMethod(body.dropoff.value.loadingMethod.value).None?
    ensures r.Success? ==>
              var d := r.value;
              var p := body.pickup.value;
              var q := body.dropoff.value;
              && d.createdById == user.value.userId
              && MethodName(d.pickup.loadingMethod) == ToUpper(p.loadingMethod.value)
              && MethodName(d.dropoff.loadingMethod) == ToUpper(q.loadingMethod.value)
              && d.pickup.placeName == p.placeName.value && d.dropoff.placeName == q.placeName.value
              && d.pickup.address == p.address.value && d.dropoff.address == q.address.value
              && d.pickup.isImmediate == Truthy(p.isImmediate) && d.dropoff.isImmediate == Truthy(q.isImmediate)
              && (if body.options.Some? && Given(body.options.value.requestType)
                  then d.requestType == ToUpper(body.options.value.requestType.value)
                  else d.requestType == "NORMAL")
              && (d.vehicleGroup.Some? <==> body.vehicle.Some? && Given(body.vehicle.value.group))
              && (d.paymentMethod.Some? <==> body.payment.Some? && Given(body.payment.value.paymentMethod))
    ensures r.Success? ==>
              var d := r.value;
              var p := body.pickup.value;
              var q := body.dropoff.value;
              && d.pickup.addressDetail == p.addressDetail && d.dropoff.addressDetail == q.addressDetail
              && d.pickup.contactName == p.contactName && d.dropoff.contactName == q.contactName
              && d.pickup.contactPhone == p.contactPhone && d.dropoff.contactPhone == q.contactPhone
              && d.pickup.datetime == p.datetime && d.dropoff.datetime == q.datetime
    ensures r.Success? ==>
              var d := r.value;
              && (body.vehicle.Some? ==>
                    && d.vehicleGroup == UpperOrNull(body.vehicle.value.group)
                    && d.vehicleTonnage == body.vehicle.value.tonnage
                    && d.vehicleBodyType == body.vehicle.value.bodyType)
              && (body.vehicle.None? ==> d.vehicleGroup == None && d.vehicleTonnage == None && d.vehicleBodyType == None)
              && d.cargoDescription == (if body.cargo.Some? then body.cargo.value.description else None)
              && d.driverNote == (if body.options.Some? then body.options.value.driverNote else None)
              && (body.payment.Some? ==>
                    && d.paymentMethod == UpperOrNull(body.payment.value.paymentMethod)
                    && d.distanceKm == body.payment.value.distanceKm
                    && d.quotedPrice == body.payment.value.quotedPrice)
              && (body.payment.None? ==> d.paymentMethod == None && d.distanceKm == None && d.quotedPrice == None)
  {
    if user.None? then Failure(NoUser)
    else if !(StopComplete(body.pickup) && StopComplete(body.dropoff)) then Failure(MissingStopFields)
    else
      var p := body.pickup.value;
      var q := body.dropoff.value;
      var pm := ParseMethod(p.loadingMethod.value);
      var qm := ParseMethod(q.loadingMethod.value);
      if pm.None? then Failure(BadPickupMethod)
      else if qm.None? then Failure(BadDropoffMethod)
      else
        Success(DraftOf(user.value.userId, body, pm.value, qm.value))
  }

  /** Two bodies whose loading methods differ only in letter case are stored identically. */
  lemma CreateIgnoresMethodCase(user: Option<AuthUser>, body: CreateBody, p: StopInput, q: StopInput)
    requires body.pickup == Some(p) && body.dropoff == Some(q)
    requires p.loadingMethod.Some? && q.loadingMethod.Some?
    ensures ValidateCreate(user, body)
         == ValidateCreate(user, body.(pickup := Some(p.(loadingMethod := Some(ToLower(p.loadingMethod.value)))),
                                       dropoff := Some(q.(loadingMethod := Some(ToLower(q.loadingMethod.value))))))
  {
    var lp := ToLower(p.loadingMethod.value);
    var lq := ToLower(q.loadingMethod.value);
    assert |lp| == |p.loadingMethod.value| && |lq| == |q.loadingMethod.value|;
    ToUpperIgnoresCase(p.loadingMethod.value);
    ToUpperIgnoresCase(q.loadingMethod.value);
  }

  /** The fields the list and the recent list show of a request. */
  datatype Summary = Summary(
    id: int, pickupPlaceName: string, dropoffPlaceName: string,
    distanceKm: Option<int>, quotedPrice: Option<int>, status: RequestStatus, createdAt: int)

  function Summarize(r: DispatchRequest): Summary {
    Summary(r.id, r.data.pickup.placeName, r.data.dropoff.placeName, r.data.distanceKm,
            r.data.quotedPrice, r.status, r.createdAt)
  }

  function Summaries(rows: seq<DispatchRequest>): (r: seq<Summary>)
    ensures |r| == |rows|
    ensures forall i :: 0 <= i < |rows| ==> r[i] == Summarize(rows[i])
  {
    seq(|rows|, i requires 0 <= i < |rows| => Summarize(rows[i]))
  }

  /** The `where` object of the request queries, with each part optional. */
  datatype RequestWhere = RequestWhere(
    createdById: Option<int>, status: Option<string>, gte: Option<int>, lte: Option<int>)

  const NoFilter := RequestWhere(None, None, None, None)

  predicate Matches(w: RequestWhere, r: DispatchRequest) {
    && (w.createdById.Some? ==> r.data.createdById == w.createdById.value)
    && (w.status.Some? ==> StatusName(r.status) == w.status.value)
    && (w.gte.Some? ==> r.createdAt >= w.gte.value)
    && (w.lte.Some? ==> r.createdAt <= w.lte.value)
  }

  function Keep(w: RequestWhere): DispatchRequest -> bool {
    r => Matches(w, r)
  }

  const DayMs := 86400000

  /** `new Date(day + "T00:00:00.000Z")` and `new Date(day + "T23:59:59.999Z")`. */
  function DayStart(day: int): int { day * DayMs }
  function DayEnd(day: int): int { day * DayMs + DayMs - 1 }

  /** The list filter as the query parameters describe it: the status unless it is absent,
      empty or "ALL", and whole days from `from` to `to`, both included. */
  predicate InListFilter(status: Option<string>, from: Option<int>, to: Option<int>, r: DispatchRequest) {
    && (Given(status) && status.value != "ALL" ==> StatusName(r.status) == status.value)
    && (from.Some? ==> r.createdAt / DayMs >= from.value)
    && (to.Some? ==> r.createdAt / DayMs <= to.value)
  }

  function ListKeep(status: Option<string>, from: Option<int>, to: Option<int>): DispatchRequest -> bool {
    r => InListFilter(status, from, to, r)
  }

  /** Builds the `where` of GET /requests part by part. */
  method BuildListWhere(status: Option<string>, from: Option<int>, to: Option<int>) returns (w: RequestWhere)
    ensures w.createdById == None
    ensures w.status == if Given(status) && status.value != "ALL" then status else None
    ensures forall r :: Matches(w, r) <==> InListFilter(status, from, to, r)
  {
    w := NoFilter;
    if Given(status) && status.value != "ALL" {
      w := w.(status := status);
    }
    if from.Some? || to.Some? {
      if from.Some? {
        w := w.(gte := Some(DayStart(from.value)));
      }
      if to.Some? {
        w := w.(lte := Some(DayEnd(to.value)));
      }
    }
    forall r
      ensures Matches(w, r) <==> InListFilter(status, from, to, r)
    {
      DayBounds(r.createdAt, from, to);
    }
  }

  /** A time lies at or after the start of day `d` exactly when its day is `d` or later, and
      at or before the end of day `d` exactly when its day is `d` or earlier. */
  lemma DayBounds(t: int, from: Option<int>, to: Option<int>)
    ensures from.Some? ==> (t >= DayStart(from.value) <==> t / DayMs >= from.value)
    ensures to.Some? ==> (t <= DayEnd(to.value) <==> t / DayMs <= to.value)
  {
    var d := t / DayMs;
    assert d * DayMs <= t < d * DayMs + DayMs;
    if from.Some? {
      var f := from.value;
      if d >= f {
        assert d * DayMs >= f * DayMs;
      } else {
        assert d + 1 <= f;
        assert (d + 1) * DayMs <= f * DayMs;
      }
    }
    if to.Some? {
      var e := to.value;
      if d <= e {
        assert d * DayMs <= e * DayMs;
      } else {
        assert d >= e + 1;
        assert d * DayMs >= (e + 1) * DayMs;
      }
    }
  }

  /** `Math.max(parseInt(raw || fallback, 10) || fallback, 1)`, with `raw` already parsed:
      None when it is absent, empty or not a number. */
  function ClampPage(raw: Option<int>, fallback: int): (r: int)
    requires fallback >= 1
    ensures r >= 1
    ensures raw.Some? && raw.value >= 1 ==> r == raw.value
    ensures raw.None? || raw.value == 0 ==> r == fallback
    ensures raw.Some? && raw.value < 0 ==> r == 1
  {
    var n := if raw.None? || raw.value == 0 then fallback else raw.value;
    if n < 1 then 1 else n
  }

  /** A page size of "0" falls back to 20 while a negative one becomes 1. */
  lemma PageSizeQuirk()
    ensures ClampPage(Some(0), 20) == 20 && ClampPage(Some(-5), 20) == 1
    ensures ClampPage(None, 1) == 1 && ClampPage(Some(3), 1) == 3
  {
  }

  /** The reply of GET /requests. */
  datatype ListReply = ListReply(items: seq<Summary>, total: nat, page: int, pageSize: int)

  /** GET /requests fails only when the status filter names no status (the database rejects
      the query: 500). */
  datatype ListError = UnknownStatusFilter

  /** GET /requests on the store rows `rows`. The items are the requested page of the
      matching requests, newest first, and `total` counts the matching requests under the
      same filter. */
  method ListRequests(rows: seq<DispatchRequest>, status: Option<string>, from: Option<int>, to: Option<int>,
                      page: Option<int>, pageSize: Option<int>)
    returns (r: Result<ListReply, ListError>)
    ensures r.Failure? <==> Given(status) && status.value != "ALL" && ParseStatus(status.value).None?
    ensures r.Success? ==>
              var matched := NewestFirst(rows, ListKeep(status, from, to));
              var reply := r.value;
              && reply.page == ClampPage(page, 1) && reply.pageSize == ClampPage(pageSize, 20)
              && reply.page >= 1 && reply.pageSize >= 1
              && reply.total == |matched|
              && reply.items == Summaries(Window(matched, (reply.page - 1) * reply.pageSize, reply.pageSize))
              && |reply.items| <= reply.pageSize && |reply.items| <= reply.total
    ensures r.Success? ==>
              forall x :: multiset(NewestFirst(rows, ListKeep(status, from, to)))[x]
                          == if InListFilter(status, from, to, x) then multiset(rows)[x] else 0
  {
    var w := BuildListWhere(status, from, to);
    if w.status.Some? && ParseStatus(w.status.value).None? {
      return Failure(UnknownStatusFilter);
    }
    var pageNum := ClampPage(page, 1);
    var pageSizeNum := ClampPage(pageSize, 20);
    var items, total := FindPage(rows, w, pageNum, pageSizeNum);
    NewestFirstAgree(rows, Keep(w), ListKeep(status, from, to));
    r := Success(ListReply(items, total, pageNum, pageSizeNum));
    ListMatchesCounted(rows, status, from, to);
  }

  /** The requests the list pages through are the stored requests that pass the filter,
      each exactly once, so `total` is their number. */
  lemma ListMatchesCounted(rows: seq<DispatchRequest>, status: Option<string>, from: Option<int>, to: Option<int>)
    ensures forall x :: multiset(NewestFirst(rows, ListKeep(status, from, to)))[x]
                        == if InListFilter(status, from, to, x) then multiset(rows)[x] else 0
  {
    NewestFirstCount(rows, ListKeep(status, from, to));
  }

  /** The two queries of GET /requests over one `where`: page `pageNum` of the matching
      requests, newest first, `pageSizeNum` to a page, and the count of all of them. */
  method FindPage(rows: seq<DispatchRequest>, w: RequestWhere, pageNum: int, pageSizeNum: int)
    returns (items: seq<Summary>, total: nat)
    requires pageNum >= 1 && pageSizeNum >= 1
    ensures var matched := NewestFirst(rows, Keep(w));
            && total == |matched|
            && items == Summaries(Window(matched, (pageNum - 1) * pageSizeNum, pageSizeNum))
            && |items| <= pageSizeNum && |items| <= total
  {
    var before: nat := pageNum - 1;
    var skip: nat := before * pageSizeNum;
    var matched := NewestFirst(rows, Keep(w));
    var window := Window(matched, skip, pageSizeNum);
    items := Summaries(window);
    total := |matched|;
  }

  /** Consecutive pages of the list, read from page 1 on, give the matching requests newest
      first without gaps or repeats, and enough of them give all of them. */
  lemma ListPagesCoverMatches(rows: seq<DispatchRequest>, status: Option<string>, from: Option<int>, to: Option<int>,
                              size: nat, count: nat)
    requires size >= 1
    ensures var matched := NewestFirst(rows, ListKeep(status, from, to));
            && Pages(matched, size, count) == matched[..Min(|matched|, count * size)]
            && (count * size >= |matched| ==> Pages(matched, size, count) == matched)
  {
    var matched := NewestFirst(rows, ListKeep(status, from, to));
    PagesArePrefix(matched, size, count);
  }

  /** When the store keeps creation times ascending, a list reply is ordered newest first. */
  lemma ListNewestFirst(rows: seq<DispatchRequest>, keep: DispatchRequest -> bool, skip: nat, take: nat)
    requires Ascending(rows, CreatedAt)
    ensures var items := Summaries(Window(NewestFirst(rows, keep), skip, take));
            forall i, j :: 0 <= i < j < |items| ==> items[i].createdAt >= items[j].createdAt
  {
    var matched := NewestFirst(rows, keep);
    NewestFirstDescending(rows, keep, CreatedAt);
    var window := Window(matched, skip, take);
    forall i, j | 0 <= i < j < |window|
      ensures window[i].createdAt >= window[j].createdAt
    {
      assert window[i] == matched[skip + i] && window[j] == matched[skip + j];
      assert CreatedAt(matched[skip + i]) >= CreatedAt(matched[skip + j]);
    }
  }

  function OwnedBy(userId: int): RequestWhere {
    NoFilter.(createdById := Some(userId))
  }

  /** GET /requests/recent fails only without a caller, or for the user id 0 (`!userId`). */
  datatype RecentError = NoCallerId

  /** GET /requests/recent for the caller `user`, with `limitRaw` the parsed `limit`
      parameter (None when it is missing, not a single string or not a number). The reply
      is the caller's newest requests, at most `limit` of them, where `limit` is the parsed
      value when it lies in 1..50 and 5 otherwise. */
  method Recent(rows: seq<DispatchRequest>, user: Option<AuthUser>, limitRaw: Option<int>)
    returns (r: Result<seq<Summary>, RecentError>, ghost picked: seq<DispatchRequest>)
    ensures r.Failure? <==> user.None? || user.value.userId == 0
    ensures r.Success? ==>
              var mine := NewestFirst(rows, Keep(OwnedBy(user.value.userId)));
              var limit := if limitRaw.Some? && 0 < limitRaw.value <= 50 then limitRaw.value else 5;
              && r.value == Summaries(picked)
              && picked == mine[..Min(limit, |mine|)]
              && 1 <= limit <= 50 && |r.value| <= limit
              && (forall x :: x in picked ==> x in rows && x.data.createdById == user.value.userId)
  {
    picked := [];
    if user.None? || user.value.userId == 0 {
      return Failure(NoCallerId), picked;
    }
    var userId := user.value.userId;
    var limit := 5;
    if limitRaw.Some? {
      var parsed := limitRaw.value;
      if 0 < parsed <= 50 {
        limit := parsed;
      }
    }
    var mine := NewestFirst(rows, Keep(OwnedBy(userId)));
    var taken := Window(mine, 0, limit);
    assert taken == mine[..Min(limit, |mine|)];
    forall x | x in taken
      ensures x in rows && x.data.createdById == userId
    {
      assert x in mine;
    }
    picked := taken;
    r := Success(Summaries(taken));
  }

  /** Why GET /requests/:id and PATCH /requests/:id/status refuse. */
  datatype RequestError = BadId | MissingStatus | UnknownStatus(name: string) | NoSuchRequest

  function RequestErrorStatus(e: RequestError): int {
    if e == NoSuchRequest then 404 else 400
  }

  /** GET /requests/:id, with `id` the parsed path parameter (None when it is not a number). */
  function GetDetail(rows: seq<DispatchRequest>, id: Option<int>): (r: Result<DispatchRequest, RequestError>)
    ensures id.None? <==> r == Failure(BadId)
    ensures r == Failure(NoSuchRequest) <==> id.Some? && forall x :: x in rows ==> x.id != id.value
    ensures r.Success? <==> id.Some? && exists x :: x in rows && x.id == id.value
    ensures r.Success? ==> r.value in rows && r.value.id == id.value
  {
    if id.None? then Failure(BadId)
    else
      match IndexOf(rows, RequestId, id.value)
      case None => Failure(NoSuchRequest)
      case Some(k) => Success(rows[k])
  }

  /** The request table. */
  class RequestStore {
    var rows: seq<DispatchRequest>
    var nextId: int

    ghost predicate Valid()
      reads this
    {
      Stored(rows, RequestId, CreatedAt, nextId)
    }

    constructor ()
      ensures Valid() && rows == [] && nextId == 1
    {
      rows := [];
      nextId := 1;
    }

    /** POST /requests at time `now`, which the clock supplies no earlier than the last
        insert. A refused body changes nothing; an accepted one is stored with the next id,
        status PENDING and creation time `now`. */
    method Create(user: Option<AuthUser>, body: CreateBody, now: int) returns (r: Result<DispatchRequest, CreateError>)
      requires Valid()
      requires rows == [] || rows[|rows| - 1].createdAt <= now
      modifies this
      ensures Valid()
      ensures ValidateCreate(user, body).Failure? ==>
                r == Failure(ValidateCreate(user, body).error) && unchanged(this)
      ensures ValidateCreate(user, body).Success? ==>
                var row := DispatchRequest(old(nextId), InitialStatus, now, ValidateCreate(user, body).value);
                && rows == old(rows) + [row] && nextId == old(nextId) + 1 && r == Success(row)
    {
      var draft := ValidateCreate(user, body);
      if draft.Failure? {
        return Failure(draft.error);
      }
      var row := DispatchRequest(nextId, InitialStatus, now, draft.value);
      StoredAppend(rows, RequestId, CreatedAt, nextId, row);
      rows := rows + [row];
      nextId := nextId + 1;
      r := Success(row);
    }

    /** PATCH /requests/:id/status. The checks run in order: the id must be a number, a
        status must be given, it must be one of the six names, and the request must exist.
        Only then is the status overwritten, whatever it was, and nothing else changes. */
    method UpdateStatus(id: Option<int>, status: Option<string>) returns (r: Result<DispatchRequest, RequestError>)
      requires Valid()
      modifies this
      ensures Valid() && nextId == old(nextId)
      ensures id.None? ==> r == Failure(BadId)
      ensures id.Some? && !Given(status) ==> r == Failure(MissingStatus)
      ensures id.Some? && Given(status) && ParseStatus(status.value).None? ==> r == Failure(UnknownStatus(status.value))
      ensures (id.Some? && Given(status) && ParseStatus(status.value).Some? && forall x :: x in old(rows) ==> x.id != id.value)
              ==> r == Failure(NoSuchRequest)
      ensures r.Failure? ==> rows == old(rows)
      ensures r.Success? <==>
                id.Some? && Given(status) && ParseStatus(status.value).Some? && IndexOf(old(rows), RequestId, id.value).Some?
      ensures r.Success? ==>
                && id.Some? && Given(status) && ParseStatus(status.value).Some?
                && var k := IndexOf(old(rows), RequestId, id.value).value;
                && rows == old(rows)[k := old(rows)[k].(status := ParseStatus(status.value).value)]
                && r.value == rows[k] && r.value.id == id.value
    {
      if id.None? {
        return Failure(BadId);
      }
      if !Given(status) {
        return Failure(MissingStatus);
      }
      var s := ParseStatus(status.value);
      if s.None? {
        return Failure(UnknownStatus(status.value));
      }
      var found := IndexOf(rows, RequestId, id.value);
      if found.None? {
        return Failure(NoSuchRequest);
      }
      var k := found.value;
      var row := rows[k].(status := s.value);
      StoredReplace(rows, RequestId, CreatedAt, nextId, k, row);
      rows := rows[k := row];
      r := Success(row);
    }
  }

  /** A status update touches only the request with that id, and only its status. */
  lemma UpdateStatusOnlyThatRow(rows: seq<DispatchRequest>, nextId: int, id: int, s: RequestStatus)
    requires Stored(rows, RequestId, CreatedAt, nextId)
    requires IndexOf(rows, RequestId, id).Some?
    ensures var k := IndexOf(rows, RequestId, id).value;
            var after := rows[k := rows[k].(status := s)];
            forall i :: 0 <= i < |rows| ==>
              if rows[i].id == id then after[i] == rows[i].(status := s) else after[i] == rows[i]
  {
    IndexOfUnique(rows, RequestId, CreatedAt, nextId, id);
  }
}
