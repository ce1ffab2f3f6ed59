/**
 User management of `server/routes/users.js`: the paged user list
 (`GET /`), a single profile (`GET /:id`) and the activation flag
 (`PUT /:id/status`).
 */
module Users {
  import opened Results
  import opened Identity
  import Seqs
  import Paging

  /** The `role` query filter: absent or empty selects every user, otherwise the exact role name. */
  function RoleFilter(role: Option<string>): User -> bool
  {
    (u: User) => role.None? || role.value == "" || u.role.Name() == role.value
  }

  /**
   The whole list filter: the role filter, and the search clause when a
   search is given. `searchHit` stands for the case-insensitive match of
   the search text against name, email or business name; `None` is an
   absent or empty search.
   */
  function UserFilter(role: Option<string>, searchHit: Option<User -> bool>): User -> bool
  {
    (u: User) => RoleFilter(role)(u) && (searchHit.None? || searchHit.value(u))
  }

  /** `GET /api/users`: newest first, one page, counted under the same filter. */
  function ListUsers(
    users: seq<User>, role: Option<string>, searchHit: Option<User -> bool>, page: int, limit: int): (r: Paging.Listing<User>)
    requires page >= 1 && limit >= 1
    ensures |r.items| <= limit
    ensures forall i :: 0 <= i < |r.items| ==> r.items[i] in users && UserFilter(role, searchHit)(r.items[i])
    ensures role.Some? && role.value != "" ==> forall i :: 0 <= i < |r.items| ==> r.items[i].role.Name() == role.value
    ensures Seqs.SortedDesc(r.items, UserCreatedAt)
    ensures r.total == Seqs.Count(users, UserFilter(role, searchHit))
    ensures r.total <= Seqs.Count(users, RoleFilter(role))
    ensures role.None? && searchHit.None? ==> r.total == |users|
    ensures r.items == Paging.Page(Seqs.SortDesc(Seqs.Filter(users, UserFilter(role, searchHit)), UserCreatedAt), page, limit)
    ensures r.totalPages == Paging.TotalPages(r.total, limit)
    ensures r.currentPage == page
  {
    CountAll(users, role, searchHit);
    Seqs.CountMonotone(users, UserFilter(role, searchHit), RoleFilter(role));
    var r := Paging.NewestFirstPage(users, UserFilter(role, searchHit), UserCreatedAt, page, limit);
    ListedHaveRole(r.items, role, searchHit);
    r
  }

  /** Users the list filter selects have the requested role, when one is requested. */
  lemma ListedHaveRole(items: seq<User>, role: Option<string>, searchHit: Option<User -> bool>)
    requires forall i :: 0 <= i < |items| ==> UserFilter(role, searchHit)(items[i])
    ensures role.Some? && role.value != "" ==> forall i :: 0 <= i < |items| ==> items[i].role.Name() == role.value
  {
    forall i | 0 <= i < |items|
      ensures RoleFilter(role)(items[i])
    {
      assert UserFilter(role, searchHit)(items[i]);
    }
  }

  /** With no role and no search given, every user is counted. */
  lemma CountAll(users: seq<User>, role: Option<string>, searchHit: Option<User -> bool>)
    ensures role.None? && searchHit.None? ==> Seqs.Count(users, UserFilter(role, searchHit)) == |users|
  {
    if role.None? && searchHit.None? {
      forall i | 0 <= i < |users|
        ensures UserFilter(role, searchHit)(users[i])
      {
        assert RoleFilter(role)(users[i]);
      }
      Seqs.CountSame(users, UserFilter(role, searchHit), _ => true);
      KeepAll(users);
    }
  }

  lemma {:induction false} KeepAll(users: seq<User>)
    ensures Seqs.Filter(users, _ => true) == users
  {
    if |users| > 0 {
      KeepAll(users[1..]);
    }
  }

  /**
   `GET /api/users/:id`. The lookup comes first, so a missing id is
   "not found" whoever asks; an existing profile is shown to the user
   themself or to an admin, and refused to anyone else.
   */
  function GetUser(users: seq<User>, id: UserId, caller: Caller): (r: Result<User, Denial>)
    ensures Seqs.IndexOf(users, UserKey, id).None? ==> r == Failure(NotFound)
    ensures Seqs.IndexOf(users, UserKey, id).Some? ==>
              var k := Seqs.IndexOf(users, UserKey, id).value;
              && (r.Success? <==> OwnerOrAdmin(caller, id))
              && (r.Success? ==> r.value == users[k] && r.value.id == id)
              && (r.Failure? ==> r.error == Forbidden)
  {
    match Seqs.IndexOf(users, UserKey, id)
    case None => Failure(NotFound)
    case Some(k) =>
      if caller.id != id && caller.role != Admin then Failure(Forbidden)
      else Success(users[k])
  }

  /** `PUT /api/users/:id/status`: only the activation flag changes; a missing user is "not found". */
  function SetActive(users: seq<User>, id: UserId, isActive: bool): (r: Result<seq<User>, Denial>)
    ensures r.Failure? <==> Seqs.IndexOf(users, UserKey, id).None?
    ensures r.Failure? ==> r.error == NotFound
    ensures r.Success? ==>
              var k := Seqs.IndexOf(users, UserKey, id).value;
              && |r.value| == |users|
              && r.value[k].isActive == isActive
              && r.value[k].(isActive := users[k].isActive) == users[k]
              && forall j :: 0 <= j < |users| && j != k ==> r.value[j] == users[j]
  {
    match Seqs.IndexOf(users, UserKey, id)
    case None => Failure(NotFound)
    case Some(k) => Success(users[k := users[k].(isActive := isActive)])
  }
}
