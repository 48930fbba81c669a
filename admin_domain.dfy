/** The admin blueprint: the role gate and the paginated listing of active
    users. The page size (`USERS_PAGE_SIZE`, read from the environment) is a
    parameter. */
module AdminDomain {
  import opened Common
  import opened UserModel
  import opened Users
  import opened MongoQuery

  /** werkzeug's `abort(401)`; its HTML page is represented by its title. */
  const UNAUTHORIZED: string := "Unauthorized"

  /** `admin_required`: the wrapped handler runs only for the `admin` role. */
  function AdminRequired(current: User, handler: Result<Response, Exception>): (r: Result<Response, Exception>)
    ensures current.role == "admin" ==> r == handler
    ensures current.role != "admin" ==> r == Ok(Response(401, JStr(UNAUTHORIZED)))
  {
    if current.role != "admin" then Ok(Response(401, JStr(UNAUTHORIZED))) else handler
  }

  /** `get_users_page`: active users in natural order, skipping `page * size`
      and keeping at most `size` (Mongo's `limit(0)` keeps all); a negative skip
      is refused by the driver when the cursor is read. */
  function GetUsersPage(users: seq<User>, page: int, size: int): (r: Result<seq<User>, Exception>)
    ensures r.Err? <==> page * size < 0
    ensures r.Err? ==> r.error == ValueError("skip must be >= 0")
    ensures r.Ok? ==> r.value <= Skip(Filter(users, Active), page * size)
    ensures r.Ok? ==> forall v :: v in r.value ==> v in users && v.status == ACTIVE
  {
    if page * size < 0 then Err(ValueError("skip must be >= 0"))
    else
      var rows := Limit(Skip(Filter(users, Active), page * size), size);
      FilterMembers(users, Active);
      assert forall v :: v in rows ==> v in Filter(users, Active);
      Ok(rows)
  }

  /** `get_users_page_count`: `(count - 1) // size + 1` with Python's floor
      division, paired with the count itself; size 0 divides by zero. */
  function GetUsersPageCount(users: seq<User>, size: int): (r: Result<(int, nat), Exception>)
    ensures r.Err? <==> size == 0
    ensures r.Err? ==> r.error == ZeroDivisionError
    ensures r.Ok? ==> r.value.1 == Count(users, Active)
  {
    if size == 0 then Err(ZeroDivisionError)
    else Ok((FloorDiv(Count(users, Active) - 1, size) + 1, Count(users, Active)))
  }

  /** For a positive size the formula is the ceiling of `count / size`:
      no pages for no users, otherwise the fewest pages that hold them all. */
  lemma PageCountIsCeiling(users: seq<User>, size: int)
    requires size > 0
    ensures GetUsersPageCount(users, size).Ok?
    ensures var (pages, count) := GetUsersPageCount(users, size).value;
      && (count == 0 ==> pages == 0)
      && (count > 0 ==> pages >= 1 && (pages - 1) * size < count <= pages * size)
  {
    var count := Count(users, Active);
    if count > 0 {
      var q := FloorDiv(count - 1, size);
      assert q * size <= count - 1 < q * size + size;
      assert (q + 1 - 1) * size < count;
      assert count <= (q + 1) * size;
    } else {
      assert FloorDiv(-1, size) == -1;
    }
  }

  /** A window of a cursor: skipping `start` and keeping `size > 0` documents
      is the slice between the two bounds, each capped at the length. */
  lemma WindowIsSlice<T>(s: seq<T>, start: nat, size: int)
    requires size > 0
    ensures Limit(Skip(s, start), size)
      == s[(if start < |s| then start else |s|)..(if start + size < |s| then start + size else |s|)]
  {
    if start <= |s| {
      assert Skip(s, start) == s[start..];
    }
  }

  /** With a positive size, page `p` is the `p`-th slice of `size` active users,
      and it is non-empty exactly for the pages the page count announces. */
  lemma PagesSliceActiveUsers(users: seq<User>, page: nat, size: int)
    requires size > 0
    ensures GetUsersPage(users, page, size).Ok?
    ensures var active := Filter(users, Active);
      var lo := if page * size < |active| then page * size else |active|;
      var hi := if (page + 1) * size < |active| then (page + 1) * size else |active|;
      GetUsersPage(users, page, size).value == active[lo..hi]
    ensures GetUsersPage(users, page, size).value != [] <==> page < GetUsersPageCount(users, size).value.0
  {
    var active := Filter(users, Active);
    var start := page * size;
    assert (page + 1) * size == start + size;
    WindowIsSlice(active, start, size);
    PageCountIsCeiling(users, size);
    var pages := GetUsersPageCount(users, size).value.0;
    PageInRange(page, pages, size, |active|);
  }

  /** The arithmetic behind the page count: page `p` starts inside the list
      exactly when `p` is below the count. */
  lemma PageInRange(page: nat, pages: int, size: int, count: nat)
    requires size > 0
    requires count == 0 ==> pages == 0
    requires count > 0 ==> pages >= 1 && (pages - 1) * size < count <= pages * size
    ensures page * size < count <==> page < pages
  {
    if page < pages {
      assert page * size <= (pages - 1) * size;
    } else if count > 0 {
      assert pages * size <= page * size;
    }
  }

  /** The first page holds as many users as the page size allows. */
  lemma FirstPageSize(users: seq<User>, size: int)
    requires size > 0
    ensures GetUsersPage(users, 0, size).Ok?
    ensures |GetUsersPage(users, 0, size).value| == if size < Count(users, Active) then size else Count(users, Active)
  {
    assert Skip(Filter(users, Active), 0) == Filter(users, Active);
  }

  /** One listed user: exactly the six public fields. */
  function UserRow(u: User): (j: Json)
    ensures j.JObj? && j.fields.Keys == {"_id", "full_name", "phone_number", "balance", "role", "status"}
    ensures "password" !in j.fields && "access_token" !in j.fields
  {
    JObj(map[
      "_id" := JStr(u.id),
      "full_name" := JStr(FullName(u.details)),
      "phone_number" := JStr(u.phoneNumber),
      "balance" := JInt(u.balance.amount),
      "role" := JStr(u.role),
      "status" := JStr(u.status)])
  }

  /** The rows of a page, in page order. */
  function Rows(users: seq<User>): (rows: seq<Json>)
    ensures |rows| == |users|
  {
    seq(|users|, i requires 0 <= i < |users| => UserRow(users[i]))
  }

  /** The loop of `admin_users` that appends one row per user of the page. */
  method AppendRows(users: seq<User>) returns (rows: seq<Json>)
    ensures rows == Rows(users)
  {
    rows := [];
    var i := 0;
    while i < |users|
      invariant 0 <= i <= |users|
      invariant rows == Rows(users[..i])
    {
      assert users[..i + 1] == users[..i] + [users[i]];
      rows := rows + [UserRow(users[i])];
      i := i + 1;
    }
    assert users[..i] == users;
  }

  /** The body of a listing: the rows, and the page count and total when they
      were computed. */
  function ListingBody(rows: seq<Json>, counts: Option<(int, nat)>): Json {
    if counts.None? then JObj(map["users" := JArr(rows)])
    else JObj(map["users" := JArr(rows),
                  "page_count" := JInt(counts.value.0),
                  "total_active_users" := JInt(counts.value.1)])
  }

  /** `admin_users` behind `admin_required`. Without a `page` argument page 0
      is listed together with the page count and the total; with one, only
      that page. The rows are appended one user at a time. */
  method AdminUsers(store: UserStore, current: User, pageArg: QueryInt, pageSize: int)
    returns (r: Result<Response, Exception>)
    ensures current.role != "admin" ==> r == Ok(Response(401, JStr(UNAUTHORIZED)))
    ensures current.role == "admin" && pageArg.Malformed? ==> r.Err? && r.error.ValueError?
    ensures current.role == "admin" && pageArg.Absent? && pageSize == 0 ==> r == Err(ZeroDivisionError)
    ensures current.role == "admin" && !pageArg.Malformed? && !(pageArg.Absent? && pageSize == 0) ==>
      var page := if pageArg.Integer? then pageArg.n else 0;
      var counts := if pageArg.Absent? then Some(GetUsersPageCount(store.users, pageSize).value) else None;
      var listed := GetUsersPage(store.users, page, pageSize);
      && (listed.Err? ==> r == Err(listed.error))
      && (listed.Ok? ==> r == Ok(Response(200, ListingBody(Rows(listed.value), counts))))
  {
    if current.role != "admin" {
      return Ok(Response(401, JStr(UNAUTHORIZED)));
    }
    var page: int;
    var counts: Option<(int, nat)> := None;
    match pageArg {
      case Absent =>
        page := 0;
        var c := GetUsersPageCount(store.users, pageSize);
        if c.Err? {
          return Err(c.error);
        }
        counts := Some(c.value);
      case Integer(n) =>
        page := n;
      case Malformed(text) =>
        return Err(ValueError("invalid literal for int() with base 10: '" + text + "'"));
    }
    var listed := GetUsersPage(store.users, page, pageSize);
    if listed.Err? {
      return Err(listed.error);
    }
    var rows := AppendRows(listed.value);
    r := Ok(Response(200, ListingBody(rows, counts)));
  }

  /** The listing that admins see without a `page` argument: as many rows as
      the first page holds, with the announced total and page count. */
  lemma DefaultListing(users: seq<User>, size: int)
    requires size > 0
    ensures GetUsersPage(users, 0, size).Ok? && GetUsersPageCount(users, size).Ok?
    ensures var listed := GetUsersPage(users, 0, size).value;
      var (pages, count) := GetUsersPageCount(users, size).value;
      && |listed| == (if size < count then size else count)
      && (count > 0 <==> pages >= 1)
  {
    FirstPageSize(users, size);
    PageCountIsCeiling(users, size);
  }
}
