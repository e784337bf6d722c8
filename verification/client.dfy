/**
 * The client as its callers use it: a session store standing in for the
 * browser's `localStorage`, the response interceptor's 401 branch that
 * clears it, and the exclusion-list operations, each of which reads the
 * stored token, sends its requests through the interceptor and builds its
 * body with the functions of `Blacklist`.
 *
 * Every remote reply is a parameter. A method receives the reply of each
 * request it would send, in order; a reply it never gets to send is ignored.
 */
module Client {
  import opened Api
  import opened Blacklist
  import Router

  const TokenKey := "token"
  const LoggedInKey := "isLoggedIn"

  /**
   * The unwrapped body of the upsert call, whose `data` field `updateExpireDate`
   * returns; `data` is None when the field is missing. A null body is a None
   * around it: reading its `data` throws.
   */
  datatype PostBody<+T> = PostBody(data: Option<T>)

  /**
   * The stored entries after a reply went through the interceptor: an
   * authorization failure removes the token and the login flag together and
   * nothing else; any other reply leaves the store as it was.
   */
  function AfterReply<T>(storage: map<string, string>, reply: Reply<T>): (m: map<string, string>)
    ensures IsUnauthorized(reply) ==> m.Keys == storage.Keys - {TokenKey, LoggedInKey}
    ensures IsUnauthorized(reply) ==> forall k :: k in m ==> m[k] == storage[k]
    ensures !IsUnauthorized(reply) ==> m == storage
  {
    if IsUnauthorized(reply) then storage - {TokenKey, LoggedInKey} else storage
  }

  /**
   * After a 401 the session is gone: no token is left for the next call, and
   * the guard, reading `isLoggedIn` from the cleared store, sends every
   * protected destination to the login page.
   */
  lemma UnauthorizedLogsOut<T>(storage: map<string, string>, reply: Reply<T>, to: Router.Location)
    requires IsUnauthorized(reply) && to.requiresAuth
    ensures TokenKey !in AfterReply(storage, reply)
    ensures LoggedInKey !in AfterReply(storage, reply)
    ensures var m := AfterReply(storage, reply);
      Router.Guard(to, if LoggedInKey in m then Some(m[LoggedInKey]) else None) == Router.RedirectTo(Router.LoginPage)
  {
  }

  class Session {
    /** The persisted entries, keyed as in `localStorage`. */
    var storage: map<string, string>

    constructor (initial: map<string, string>)
      ensures storage == initial
    {
      storage := initial;
    }

    /** `localStorage.getItem(key)`: None stands for null. */
    function GetItem(key: string): (r: Option<string>)
      reads this
      ensures r.Some? <==> key in storage
      ensures r.Some? ==> r.value == storage[key]
    {
      if key in storage then Some(storage[key]) else None
    }

    /** `localStorage.removeItem(key)`. */
    method RemoveItem(key: string)
      modifies this
      ensures storage == old(storage) - {key}
    {
      storage := storage - {key};
    }

    /** The response interceptor, both handlers. */
    method Intercept<T>(reply: Reply<T>) returns (r: Result<T>)
      modifies this
      ensures r == Unwrap(reply)
      ensures storage == AfterReply(old(storage), reply)
    {
      match reply
      case Answered(body) =>
        if body.code == Success {
          r := Ok(body.data);
        } else {
          r := Err(Thrown(if Truthy(body.msg) then body.msg.value else DefaultFailureMessage));
        }
      case Failed(status) =>
        if status == Some(Unauthorized) {
          RemoveItem(TokenKey);
          RemoveItem(LoggedInKey);
        }
        r := Err(Http(status));
    }

    /** `getOrderHistory`. */
    method GetOrderHistory(page: Reply<TaskPage>) returns (r: Result<seq<Order>>)
      modifies this
      ensures r == Api.GetOrderHistory(Unwrap(page))
      ensures storage == AfterReply(old(storage), page)
    {
      var response := Intercept(page);
      r := Api.GetOrderHistory(response);
    }

    /** `getBlacklist`. */
    method GetBlacklist(listing: Reply<seq<CheckRecord>>, now: int) returns (r: Result<seq<string>>)
      modifies this
      ensures r == Blacklist.GetBlacklist(Unwrap(listing), old(GetItem(TokenKey)), now)
      ensures storage == AfterReply(old(storage), listing)
    {
      var token := GetItem(TokenKey);
      var response := Intercept(listing);
      r := Blacklist.GetBlacklist(response, token, now);
    }

    /** `getBlacklistDetail`. */
    method GetBlacklistDetail(listing: Reply<seq<CheckRecord>>, now: int) returns (r: Result<Detail>)
      modifies this
      ensures r == Blacklist.GetBlacklistDetail(Unwrap(listing), old(GetItem(TokenKey)), now)
      ensures storage == AfterReply(old(storage), listing)
    {
      var token := GetItem(TokenKey);
      var response := Intercept(listing);
      r := Blacklist.GetBlacklistDetail(response, token, now);
    }

    /** `getAutoOrderInfo`. */
    method GetAutoOrderInfo(listing: Reply<seq<CheckRecord>>) returns (r: Result<Detail>)
      modifies this
      ensures r == Blacklist.GetAutoOrderInfo(Unwrap(listing), old(GetItem(TokenKey)))
      ensures storage == AfterReply(old(storage), listing)
    {
      var token := GetItem(TokenKey);
      var response := Intercept(listing);
      r := Blacklist.GetAutoOrderInfo(response, token);
    }

    /**
     * `addToBlacklist`: the strict read, then one post of the appended list;
     * nothing is posted when the read fails, and otherwise the caller gets
     * what the interceptor makes of the post's reply.
     */
    method AddToBlacklist<T>(blacklist: seq<string>, newItem: string, listing: Reply<seq<CheckRecord>>,
                             now: int, post: Reply<T>) returns (posted: Option<CheckPayload>, r: Result<T>)
      modifies this
      ensures var body := Blacklist.AddToBlacklist(old(GetItem(TokenKey)), blacklist, newItem, Unwrap(listing), now);
        if body.Err? then
          posted == None && r == Err(body.error) && storage == AfterReply(old(storage), listing)
        else
          posted == Some(body.value) && r == Unwrap(post) &&
          storage == AfterReply(AfterReply(old(storage), listing), post)
    {
      var token := GetItem(TokenKey);
      var response := Intercept(listing);
      var body := Blacklist.AddToBlacklist(token, blacklist, newItem, response, now);
      if body.Err? {
        posted, r := None, Err(body.error);
        return;
      }
      posted := Some(body.value);
      r := Intercept(post);
    }

    /**
     * `removeFromBlacklist`: the strict read, then one post of the filtered
     * list; nothing is posted when the read fails.
     */
    method RemoveFromBlacklist<T>(blacklist: seq<string>, itemToRemove: string, listing: Reply<seq<CheckRecord>>,
                                  now: int, post: Reply<T>) returns (posted: Option<CheckPayload>, r: Result<T>)
      modifies this
      ensures var body := Blacklist.RemoveFromBlacklist(old(GetItem(TokenKey)), blacklist, itemToRemove, Unwrap(listing), now);
        if body.Err? then
          posted == None && r == Err(body.error) && storage == AfterReply(old(storage), listing)
        else
          posted == Some(body.value) && r == Unwrap(post) &&
          storage == AfterReply(AfterReply(old(storage), listing), post)
    {
      var token := GetItem(TokenKey);
      var response := Intercept(listing);
      var body := Blacklist.RemoveFromBlacklist(token, blacklist, itemToRemove, response, now);
      if body.Err? {
        posted, r := None, Err(body.error);
        return;
      }
      posted := Some(body.value);
      r := Intercept(post);
    }

    /**
     * `updateExpireDate`: the unchecked read, then one post of the current
     * list under the new date. Any failure, the post's included, reaches the
     * caller as the single "update failed" message; on success the caller
     * gets the `data` field of the post's unwrapped body.
     */
    method UpdateExpireDate<T>(listing: Reply<seq<CheckRecord>>, newExpireDate: Option<int>,
                               post: Reply<Option<PostBody<T>>>) returns (posted: Option<CheckPayload>, r: Result<Option<T>>)
      modifies this
      ensures var body := Blacklist.UpdateExpireDate(old(GetItem(TokenKey)), Unwrap(listing), newExpireDate);
        (body.Err? ==> posted == None && storage == AfterReply(old(storage), listing)) &&
        (body.Ok? ==> posted == Some(body.value) && storage == AfterReply(AfterReply(old(storage), listing), post)) &&
        (r.Ok? <==> body.Ok? && Unwrap(post).Ok? && Unwrap(post).value.Some?) &&
        (r.Ok? ==> r.value == Unwrap(post).value.value.data)
      ensures r.Err? ==> r.error == Thrown(UpdateFailedMessage)
    {
      var token := GetItem(TokenKey);
      var records := Intercept(listing);
      var body := Blacklist.UpdateExpireDate(token, records, newExpireDate);
      if body.Err? {
        posted, r := None, Err(Thrown(UpdateFailedMessage));
        return;
      }
      posted := Some(body.value);
      var response := Intercept(post);
      if response.Err? || response.value.None? {
        r := Err(Thrown(UpdateFailedMessage));
      } else {
        r := Ok(response.value.value.data);
      }
    }
  }
}
