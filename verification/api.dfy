/**
 * The HTTP client's reply handling and the calls that only reshape data:
 * the response interceptor's unwrap, `login` and the order-history mapping.
 */
module Api {

  datatype Option<+T> = None | Some(value: T)

  /** How a call can fail, as the caller of an API function sees it. */
  datatype Failure =
    | Thrown(message: string)        // an `Error` built with `new Error(message)`
    | Http(status: Option<int>)      // the transport error, passed on unchanged
    | TypeError                      // a property read through `undefined`

  datatype Result<+T> = Ok(value: T) | Err(error: Failure)

  /** The body every endpoint answers with: `{code, msg, data}`. */
  datatype Envelope<+T> = Envelope(code: int, msg: Option<string>, data: T)

  /** What the transport delivers: a 2xx body, or an error with an optional status. */
  datatype Reply<+T> = Answered(body: Envelope<T>) | Failed(status: Option<int>)

  const Success := 200
  const Unauthorized := 401
  const DefaultFailureMessage := "请求失败"

  /** JavaScript truthiness of an optional string: present and non-empty. */
  predicate Truthy(s: Option<string>) {
    s.Some? && s.value != ""
  }

  predicate IsUnauthorized<T>(reply: Reply<T>) {
    reply.Failed? && reply.status == Some(Unauthorized)
  }

  /**
   * The response interceptor: a body with code 200 yields exactly its data;
   * any other code is rejected with the server's message, or the default one
   * when the message is missing or empty; a transport error reaches the
   * caller unchanged.
   */
  function Unwrap<T>(reply: Reply<T>): (r: Result<T>)
    ensures r.Ok? <==> reply.Answered? && reply.body.code == Success
    ensures r.Ok? ==> r.value == reply.body.data
    ensures reply.Answered? && reply.body.code != Success ==>
      r.Err? && r.error.Thrown? && r.error.message != "" &&
      (Truthy(reply.body.msg) ==> r.error.message == reply.body.msg.value) &&
      (!Truthy(reply.body.msg) ==> r.error.message == DefaultFailureMessage)
    ensures reply.Failed? ==> r == Err(Http(reply.status))
  {
    match reply
    case Answered(body) =>
      if body.code == Success then Ok(body.data)
      else Err(Thrown(if Truthy(body.msg) then body.msg.value else DefaultFailureMessage))
    case Failed(status) => Err(Http(status))
  }

  /**
   * Only a transport error with status 401 is an authorization failure: it is
   * passed on as that same error, while a body carrying code 401 is rejected
   * with a message and never counts.
   */
  lemma OnlyTransport401IsUnauthorized<T>(reply: Reply<T>)
    ensures IsUnauthorized(reply) <==> Unwrap(reply) == Err(Http(Some(Unauthorized)))
    ensures reply.Answered? ==> !IsUnauthorized(reply) && (Unwrap(reply).Ok? || Unwrap(reply).error.Thrown?)
  {
  }

  datatype Credentials = Credentials(username: string, password: string)
  datatype LoginResult = LoginResult(token: string)

  /** `login`: the token is the user name itself; no credential is checked. */
  function Login(credentials: Credentials): (r: LoginResult)
    ensures r.token == credentials.username
  {
    LoginResult(credentials.username)
  }

  /** Two credentials with the same user name log in to the same session, whatever the password. */
  lemma LoginIgnoresPassword(a: Credentials, b: Credentials)
    requires a.username == b.username
    ensures Login(a) == Login(b)
  {
  }

  /** One row of `/meicanTask/pageTask`. */
  datatype TaskRecord = TaskRecord(
    uid: string, orderDish: string, accountName: string, orderDate: string,
    orderStatus: string, createDate: string, errorMsg: Option<string>)

  datatype TaskPage = TaskPage(records: seq<TaskRecord>)

  datatype OrderItem = OrderItem(name: string, uid: string)

  /** The shape the order-history view works with. */
  datatype Order = Order(
    orderId: string, item: OrderItem, dates: seq<string>, status: string,
    createTime: string, errorMsg: Option<string>)

  /** The `map` callback: one order per row, with the row's date as its only date. */
  function ToOrder(t: TaskRecord): (o: Order)
    ensures |o.dates| == 1 && FromOrder(o) == t
  {
    Order(t.uid, OrderItem(t.orderDish, t.accountName), [t.orderDate],
          t.orderStatus, t.createDate, t.errorMsg)
  }

  /** The reverse of ToOrder, recovering the row an order was made from. */
  function FromOrder(o: Order): TaskRecord
    requires |o.dates| == 1
  {
    TaskRecord(o.orderId, o.item.name, o.item.uid, o.dates[0], o.status,
               o.createTime, o.errorMsg)
  }

  /**
   * `getOrderHistory`: every row becomes one order, in the same order and with
   * exactly one date; a failed fetch is rethrown.
   */
  function GetOrderHistory(page: Result<TaskPage>): (r: Result<seq<Order>>)
    ensures r.Err? <==> page.Err?
    ensures page.Err? ==> r.error == page.error
    ensures r.Ok? ==> |r.value| == |page.value.records|
    ensures r.Ok? ==> forall i :: 0 <= i < |r.value| ==>
      |r.value[i].dates| == 1 && FromOrder(r.value[i]) == page.value.records[i]
  {
    match page
    case Err(e) => Err(e)
    case Ok(p) => Ok(seq(|p.records|, i requires 0 <= i < |p.records| => ToOrder(p.records[i])))
  }

  /** The mapping loses nothing: distinct rows give distinct orders. */
  lemma OrderHistoryInjective(p: TaskPage, q: TaskPage)
    requires GetOrderHistory(Ok(p)) == GetOrderHistory(Ok(q))
    ensures p == q
  {
    var rp := GetOrderHistory(Ok(p)).value;
    forall i | 0 <= i < |p.records| ensures p.records[i] == q.records[i] {
      assert FromOrder(rp[i]) == p.records[i];
    }
    assert p.records == q.records;
  }
}
