/**
 * The dish exclusion list ("拉黑"): finding the caller's record in the
 * listing of `/meicanAccount/listAllCheck`, judging its expiry, and building
 * the body each change posts to `/meicanAccount/addAccountDishCheck`.
 *
 * Remote answers are inputs: `listing` is what the interceptor made of the
 * listing request, `token` is the stored `token` entry (None when absent), and
 * `now` is the current instant. Dates are instants as integers; a record's
 * `expireDate` is None when it is missing or does not parse, in which case
 * every comparison with it is false, as with an invalid JavaScript `Date`.
 */
module Blacklist {
  import opened Api
  import opened DishCodec

  const NotConfiguredMessage := "未找到用户的自动点餐记录，请在点餐检查维护自动点餐设置"
  const ExpiredMessage := "自动点餐记录已过期，请在点餐检查维护自动点餐设置"
  const UpdateFailedMessage := "更新有效期失败，请稍后重试"

  /** A `null` date: JavaScript's `new Date(null)` is the instant 0. */
  const NullDate: Option<int> := Some(0)

  /** One row of the listing: owner, comma-joined dishes, expiry date. */
  datatype CheckRecord = CheckRecord(accountName: string, noOrderDishes: Option<string>, expireDate: Option<int>)

  /** The body posted to the upsert endpoint. */
  datatype CheckPayload = CheckPayload(accountName: Option<string>, expireDate: Option<int>, noOrderDishes: string)

  /** The decoded list with the record's expiry, as the detail lookups return it. */
  datatype Detail = Detail(noOrderDishes: seq<string>, expireDate: Option<int>)

  /** `item.accountName === token`; a missing token matches no record. */
  predicate Matches(rec: CheckRecord, token: Option<string>) {
    token == Some(rec.accountName)
  }

  /** The position `find` stops at: the first matching record. */
  function FindFirst(records: seq<CheckRecord>, token: Option<string>): (r: Option<nat>)
    ensures r.Some? ==> r.value < |records| && Matches(records[r.value], token)
    ensures r.Some? ==> forall j :: 0 <= j < r.value ==> !Matches(records[j], token)
    ensures r.None? ==> forall j :: 0 <= j < |records| ==> !Matches(records[j], token)
  {
    if |records| == 0 then None
    else if Matches(records[0], token) then Some(0)
    else match FindFirst(records[1..], token)
      case None => None
      case Some(i) => Some(i + 1)
  }

  /** `records.find(item => item.accountName === token)`. */
  function Lookup(records: seq<CheckRecord>, token: Option<string>): (r: Option<CheckRecord>)
    ensures r.None? <==> forall j :: 0 <= j < |records| ==> !Matches(records[j], token)
    ensures r.Some? ==> exists i :: (0 <= i < |records| && records[i] == r.value &&
      Matches(records[i], token) && forall j :: 0 <= j < i ==> !Matches(records[j], token))
  {
    match FindFirst(records, token)
    case None => None
    case Some(i) => Some(records[i])
  }

  /** `new Date(expireDate) > new Date()`: false for a missing or invalid date. */
  predicate StillValid(expireDate: Option<int>, now: int) {
    expireDate.Some? && expireDate.value > now
  }

  /** `new Date(expireDate) < new Date()`: false for a missing or invalid date. */
  predicate AlreadyExpired(expireDate: Option<int>, now: int) {
    expireDate.Some? && expireDate.value < now
  }

  /**
   * The two expiry tests split the time line: a valid date is either after now,
   * before now, or exactly now, and a missing or invalid date passes neither.
   */
  lemma ExpiryVerdicts(expireDate: Option<int>, now: int)
    ensures !(StillValid(expireDate, now) && AlreadyExpired(expireDate, now))
    ensures expireDate.None? ==> !StillValid(expireDate, now) && !AlreadyExpired(expireDate, now)
    ensures expireDate.Some? ==>
      (StillValid(expireDate, now) || AlreadyExpired(expireDate, now) || expireDate.value == now)
  {
  }

  /** The caller's record exists, holds a non-empty dish string and is still valid. */
  predicate IsActive(records: seq<CheckRecord>, token: Option<string>, now: int) {
    var rec := Lookup(records, token);
    rec.Some? && Truthy(rec.value.noOrderDishes) && StillValid(rec.value.expireDate, now)
  }

  /**
   * `getBlacklist`, the lenient read: the decoded list of an active record,
   * and the empty list in every other case; only a failed fetch fails.
   */
  function GetBlacklist(listing: Result<seq<CheckRecord>>, token: Option<string>, now: int): (r: Result<seq<string>>)
    ensures r.Err? <==> listing.Err?
    ensures listing.Err? ==> r.error == listing.error
    ensures listing.Ok? ==> (r.value != [] <==> IsActive(listing.value, token, now))
    ensures listing.Ok? && IsActive(listing.value, token, now) ==>
      r.value == Decode(Lookup(listing.value, token).value.noOrderDishes.value)
    ensures r.Ok? ==> forall i :: 0 <= i < |r.value| ==> IsTrimmed(r.value[i])
  {
    match listing
    case Err(e) => Err(e)
    case Ok(records) =>
      if IsActive(records, token, now)
      then Ok(Decode(Lookup(records, token).value.noOrderDishes.value))
      else Ok([])
  }

  /** A record whose date is not after now yields the empty list, whatever it stores. */
  lemma ExpiredRecordReadsEmpty(records: seq<CheckRecord>, token: Option<string>, now: int)
    requires Lookup(records, token).Some?
    requires var d := Lookup(records, token).value.expireDate; d.Some? && d.value <= now
    ensures GetBlacklist(Ok(records), token, now) == Ok([])
  {
  }

  /** With no record for the caller, the lenient read is empty. */
  lemma MissingRecordReadsEmpty(records: seq<CheckRecord>, token: Option<string>, now: int)
    requires forall j :: 0 <= j < |records| ==> !Matches(records[j], token)
    ensures GetBlacklist(Ok(records), token, now) == Ok([])
  {
  }

  /**
   * `getBlacklistDetail`, the strict read used before a change: fails with the
   * "not found" message when the caller has no record, fails with the
   * "expired" message exactly when the record's date is before now, and
   * otherwise returns the decoded list with the record's own date.
   */
  function GetBlacklistDetail(listing: Result<seq<CheckRecord>>, token: Option<string>, now: int): (r: Result<Detail>)
    ensures listing.Err? ==> r == Err(listing.error)
    ensures listing.Ok? && Lookup(listing.value, token).None? ==> r == Err(Thrown(NotConfiguredMessage))
    ensures listing.Ok? ==> (r == Err(Thrown(ExpiredMessage)) <==>
      Lookup(listing.value, token).Some? &&
      AlreadyExpired(Lookup(listing.value, token).value.expireDate, now))
    ensures r.Ok? ==> listing.Ok? && Lookup(listing.value, token).Some?
    ensures r.Ok? ==> var rec := Lookup(listing.value, token).value;
      !AlreadyExpired(rec.expireDate, now) && rec.noOrderDishes.Some? &&
      r.value == Detail(Decode(rec.noOrderDishes.value), rec.expireDate)
    ensures listing.Ok? && Lookup(listing.value, token).Some? ==>
      var rec := Lookup(listing.value, token).value;
      (!AlreadyExpired(rec.expireDate, now) && rec.noOrderDishes.Some? ==> r.Ok?) &&
      (!AlreadyExpired(rec.expireDate, now) && rec.noOrderDishes.None? ==> r == Err(TypeError))
  {
    match listing
    case Err(e) => Err(e)
    case Ok(records) =>
      match Lookup(records, token)
      case None => Err(Thrown(NotConfiguredMessage))
      case Some(rec) =>
        if AlreadyExpired(rec.expireDate, now) then Err(Thrown(ExpiredMessage))
        else if rec.noOrderDishes.None? then Err(TypeError)
        else Ok(Detail(Decode(rec.noOrderDishes.value), rec.expireDate))
  }

  /** The lenient read never shows dishes that the strict read would refuse to change. */
  lemma ActiveListPassesStrictRead(listing: Result<seq<CheckRecord>>, token: Option<string>, now: int)
    requires GetBlacklist(listing, token, now).Ok? && GetBlacklist(listing, token, now).value != []
    ensures GetBlacklistDetail(listing, token, now).Ok?
    ensures GetBlacklistDetail(listing, token, now).value.noOrderDishes == GetBlacklist(listing, token, now).value
  {
  }

  /** On its expiry instant a record reads as empty, yet still passes the strict read. */
  lemma ExpiryInstantDisagreement(records: seq<CheckRecord>, token: Option<string>, now: int)
    requires Lookup(records, token).Some?
    requires Lookup(records, token).value.expireDate == Some(now)
    requires Lookup(records, token).value.noOrderDishes.Some?
    ensures GetBlacklist(Ok(records), token, now) == Ok([])
    ensures GetBlacklistDetail(Ok(records), token, now).Ok?
  {
  }

  /**
   * `addToBlacklist`: the caller's list with the new item appended, no
   * deduplication, under the record's own date; nothing is built when the
   * strict read fails.
   */
  function AddToBlacklist(token: Option<string>, blacklist: seq<string>, newItem: string,
                          listing: Result<seq<CheckRecord>>, now: int): (r: Result<CheckPayload>)
    ensures GetBlacklistDetail(listing, token, now).Err? ==> r == Err(GetBlacklistDetail(listing, token, now).error)
    ensures r.Ok? <==> GetBlacklistDetail(listing, token, now).Ok?
    ensures r.Ok? ==> r.value.accountName == token
    ensures r.Ok? ==> r.value.expireDate == Lookup(listing.value, token).value.expireDate
    ensures r.Ok? ==> r.value.noOrderDishes == Join(blacklist + [newItem])
    ensures r.Ok? && Clean(blacklist + [newItem]) ==>
      Decode(r.value.noOrderDishes) == blacklist + [newItem]
  {
    match GetBlacklistDetail(listing, token, now)
    case Err(e) => Err(e)
    case Ok(detail) =>
      var updated := blacklist + [newItem];
      assert Clean(updated) ==> Decode(Join(updated)) == updated by {
        if Clean(updated) { DecodeJoin(updated); }
      }
      Ok(CheckPayload(token, detail.expireDate, Join(updated)))
  }

  /**
   * Adding an item already listed sends it twice: for clean dishes the list
   * sent grows by one either way.
   */
  lemma AddKeepsDuplicates(token: Option<string>, blacklist: seq<string>, newItem: string,
                           listing: Result<seq<CheckRecord>>, now: int)
    requires GetBlacklistDetail(listing, token, now).Ok?
    requires Clean(blacklist + [newItem])
    ensures var sent := Decode(AddToBlacklist(token, blacklist, newItem, listing, now).value.noOrderDishes);
      |sent| == |blacklist| + 1 &&
      multiset(sent)[newItem] == multiset(blacklist)[newItem] + 1
  {
  }

  /** `list.filter(item => item !== x)`. */
  function Without(list: seq<string>, x: string): (r: seq<string>)
    ensures |r| <= |list|
    ensures forall i :: 0 <= i < |r| ==> r[i] != x
  {
    if |list| == 0 then []
    else
      var rest := Without(list[1..], x);
      if list[0] == x then rest else [list[0]] + rest
  }

  /** Every occurrence of the item goes, and every other element keeps its number of occurrences. */
  lemma {:induction false} WithoutCounts(list: seq<string>, x: string)
    ensures multiset(Without(list, x)) == multiset(list)[x := 0]
    ensures x !in Without(list, x)
  {
    if |list| > 0 {
      WithoutCounts(list[1..], x);
      assert list == [list[0]] + list[1..];
      assert multiset(list) == multiset{list[0]} + multiset(list[1..]);
    }
    assert multiset(Without(list, x))[x] == 0;
  }

  /** Filtering distributes over concatenation, so the kept elements stay in order. */
  lemma {:induction false} WithoutConcat(a: seq<string>, b: seq<string>, x: string)
    ensures Without(a + b, x) == Without(a, x) + Without(b, x)
  {
    if |a| == 0 {
      assert a + b == b;
    } else {
      var h, t := a[0], a[1..];
      assert a == [h] + t;
      assert a + b == [h] + (t + b);
      WithoutConcat(t, b, x);
      WithoutCons(h, t, x);
      WithoutCons(h, t + b, x);
      if h != x {
        calc {
          Without(a + b, x);
          [h] + Without(t + b, x);
          [h] + (Without(t, x) + Without(b, x));
          ([h] + Without(t, x)) + Without(b, x);
          Without(a, x) + Without(b, x);
        }
      }
    }
  }

  lemma WithoutCons(h: string, t: seq<string>, x: string)
    ensures Without([h] + t, x) == if h == x then Without(t, x) else [h] + Without(t, x)
  {
    assert ([h] + t)[0] == h && ([h] + t)[1..] == t;
  }

  /** Filtering out an absent item changes nothing. */
  lemma {:induction false} WithoutAbsent(list: seq<string>, x: string)
    requires x !in list
    ensures Without(list, x) == list
  {
    if |list| > 0 {
      WithoutAbsent(list[1..], x);
      assert list == [list[0]] + list[1..];
    }
  }

  /**
   * `removeFromBlacklist`: every occurrence of the item is dropped, the rest
   * keep their order, under the record's own date; nothing is built when the
   * strict read fails.
   */
  function RemoveFromBlacklist(token: Option<string>, blacklist: seq<string>, itemToRemove: string,
                               listing: Result<seq<CheckRecord>>, now: int): (r: Result<CheckPayload>)
    ensures GetBlacklistDetail(listing, token, now).Err? ==> r == Err(GetBlacklistDetail(listing, token, now).error)
    ensures r.Ok? <==> GetBlacklistDetail(listing, token, now).Ok?
    ensures r.Ok? ==> r.value.accountName == token
    ensures r.Ok? ==> r.value.expireDate == Lookup(listing.value, token).value.expireDate
    ensures r.Ok? ==> r.value.noOrderDishes == Join(Without(blacklist, itemToRemove))
    ensures r.Ok? && itemToRemove !in blacklist ==> r.value.noOrderDishes == Join(blacklist)
    ensures r.Ok? && (forall i :: 0 <= i < |blacklist| ==> blacklist[i] == itemToRemove) ==>
      r.value.noOrderDishes == ""
    ensures r.Ok? && Clean(blacklist) && Without(blacklist, itemToRemove) != [] ==>
      Decode(r.value.noOrderDishes) == Without(blacklist, itemToRemove) &&
      multiset(Decode(r.value.noOrderDishes)) == multiset(blacklist)[itemToRemove := 0]
  {
    match GetBlacklistDetail(listing, token, now)
    case Err(e) => Err(e)
    case Ok(detail) =>
      var updated := Without(blacklist, itemToRemove);
      assert itemToRemove !in blacklist ==> updated == blacklist by {
        if itemToRemove !in blacklist { WithoutAbsent(blacklist, itemToRemove); }
      }
      assert (forall i :: 0 <= i < |blacklist| ==> blacklist[i] == itemToRemove) ==> updated == [] by {
        if forall i :: 0 <= i < |blacklist| ==> blacklist[i] == itemToRemove { WithoutOnly(blacklist, itemToRemove); }
      }
      assert Clean(blacklist) && updated != [] ==>
        Decode(Join(updated)) == updated && multiset(updated) == multiset(blacklist)[itemToRemove := 0] by {
        if Clean(blacklist) && updated != [] {
          WithoutClean(blacklist, itemToRemove);
          DecodeJoin(updated);
          WithoutCounts(blacklist, itemToRemove);
        }
      }
      Ok(CheckPayload(token, detail.expireDate, Join(updated)))
  }

  /** A list holding nothing but the item filters down to the empty list. */
  lemma {:induction false} WithoutOnly(list: seq<string>, x: string)
    requires forall i :: 0 <= i < |list| ==> list[i] == x
    ensures Without(list, x) == []
  {
    if |list| > 0 {
      WithoutOnly(list[1..], x);
    }
  }

  lemma WithoutClean(list: seq<string>, x: string)
    requires Clean(list)
    ensures Clean(Without(list, x))
  {
    var r := Without(list, x);
    WithoutCounts(list, x);
    forall i | 0 <= i < |r| ensures Separator !in r[i] && IsTrimmed(r[i]) {
      assert r[i] in multiset(r);
      assert r[i] in list;
    }
  }

  /**
   * For clean dishes, adding an item that is not listed and then removing it
   * from what was sent sends the original list again, under the same date.
   */
  lemma AddThenRemove(token: Option<string>, blacklist: seq<string>, item: string,
                      listing: Result<seq<CheckRecord>>, now: int)
    requires GetBlacklistDetail(listing, token, now).Ok?
    requires Clean(blacklist + [item]) && item !in blacklist
    ensures var added := AddToBlacklist(token, blacklist, item, listing, now).value;
      RemoveFromBlacklist(token, Decode(added.noOrderDishes), item, listing, now) ==
        Ok(CheckPayload(token, added.expireDate, Join(blacklist)))
  {
    var added := AddToBlacklist(token, blacklist, item, listing, now).value;
    assert Decode(added.noOrderDishes) == blacklist + [item];
    WithoutConcat(blacklist, [item], item);
    WithoutAbsent(blacklist, item);
    assert Without([item], item) == [];
    assert Without(blacklist + [item], item) == blacklist;
  }

  /**
   * An item holding a comma is not one dish once sent: `["a"]` plus `"x,y"`
   * reads back as three dishes, and filtering out `"x,y"` then removes
   * nothing, so the original list is not sent again.
   */
  lemma CommaItemIsNotRemovedAgain()
    ensures Decode(Join(["a"] + ["x,y"])) == ["a", "x", "y"]
    ensures Without(Decode(Join(["a"] + ["x,y"])), "x,y") == ["a", "x", "y"]
  {
    var dishes := ["a", "x", "y"];
    assert Join(["a"] + ["x,y"]) == Join(dishes) == "a,x,y";
    DecodeJoin(dishes);
    WithoutAbsent(dishes, "x,y");
  }

  /**
   * `getAutoOrderInfo`, the lookup without checks: no record gives an empty
   * list and a null date; a record gives its decoded list (empty when the dish
   * string is missing) and its date, whether or not that date has passed.
   */
  function GetAutoOrderInfo(listing: Result<seq<CheckRecord>>, token: Option<string>): (r: Result<Detail>)
    ensures r.Err? <==> listing.Err?
    ensures listing.Err? ==> r.error == listing.error
    ensures listing.Ok? && Lookup(listing.value, token).None? ==> r.value == Detail([], NullDate)
    ensures listing.Ok? && Lookup(listing.value, token).Some? ==>
      var rec := Lookup(listing.value, token).value;
      r.value.expireDate == rec.expireDate &&
      r.value.noOrderDishes == (if rec.noOrderDishes.Some? then Decode(rec.noOrderDishes.value) else [])
    ensures r.Ok? ==> forall i :: 0 <= i < |r.value.noOrderDishes| ==> IsTrimmed(r.value.noOrderDishes[i])
  {
    match listing
    case Err(e) => Err(e)
    case Ok(records) =>
      match Lookup(records, token)
      case None => Ok(Detail([], NullDate))
      case Some(rec) =>
        Ok(Detail(if rec.noOrderDishes.Some? then Decode(rec.noOrderDishes.value) else [], rec.expireDate))
  }

  /** Wherever the strict read succeeds, the unchecked lookup returns the same detail. */
  lemma StrictReadAgreesWithInfo(listing: Result<seq<CheckRecord>>, token: Option<string>, now: int)
    requires GetBlacklistDetail(listing, token, now).Ok?
    ensures GetAutoOrderInfo(listing, token) == GetBlacklistDetail(listing, token, now)
  {
  }

  /**
   * `updateExpireDate`'s body: the current list re-encoded under the new
   * date. `newExpireDate` is the new date already cut to a calendar day, or
   * None when it is not a valid date. Every failure becomes the one "update
   * failed" message.
   */
  function UpdateExpireDate(token: Option<string>, listing: Result<seq<CheckRecord>>,
                            newExpireDate: Option<int>): (r: Result<CheckPayload>)
    ensures r.Ok? <==> listing.Ok? && newExpireDate.Some?
    ensures r.Err? ==> r.error == Thrown(UpdateFailedMessage)
    ensures r.Ok? ==> r.value.accountName == token && r.value.expireDate == newExpireDate
    ensures r.Ok? && Lookup(listing.value, token).None? ==> r.value.noOrderDishes == ""
    ensures r.Ok? && Lookup(listing.value, token).Some? ==>
      var stored := Lookup(listing.value, token).value.noOrderDishes;
      (stored.None? ==> r.value.noOrderDishes == "") &&
      (stored.Some? ==> r.value.noOrderDishes == Join(Decode(stored.value))) &&
      (stored.Some? ==> Decode(r.value.noOrderDishes) == Decode(stored.value))
  {
    match GetAutoOrderInfo(listing, token)
    case Err(_) => Err(Thrown(UpdateFailedMessage))
    case Ok(info) =>
      if newExpireDate.None? then Err(Thrown(UpdateFailedMessage))
      else
        var stored := Lookup(listing.value, token);
        assert stored.Some? && stored.value.noOrderDishes.Some? ==>
          Decode(Join(info.noOrderDishes)) == Decode(stored.value.noOrderDishes.value) by {
          if stored.Some? && stored.value.noOrderDishes.Some? {
            DecodeJoinDecode(stored.value.noOrderDishes.value);
          }
        }
        Ok(CheckPayload(token, newExpireDate, Join(info.noOrderDishes)))
  }

  /**
   * Changing the date keeps the stored dish string: it is sent back unchanged
   * when none of its elements carries surrounding whitespace, and a record
   * without one sends the empty string.
   */
  lemma UpdateKeepsDishes(token: Option<string>, records: seq<CheckRecord>, newExpireDate: int)
    requires Lookup(records, token).Some?
    requires var s := Lookup(records, token).value.noOrderDishes;
      s.Some? ==> forall i :: 0 <= i < |Split(s.value)| ==> IsTrimmed(Split(s.value)[i])
    ensures var rec := Lookup(records, token).value;
      UpdateExpireDate(token, Ok(records), Some(newExpireDate)) ==
        Ok(CheckPayload(token, Some(newExpireDate),
                        if rec.noOrderDishes.Some? then rec.noOrderDishes.value else ""))
  {
    var rec := Lookup(records, token).value;
    if rec.noOrderDishes.Some? {
      JoinDecode(rec.noOrderDishes.value);
    }
  }
}
