/** The server side of the todo page: the owner-scoped query (`getTodos`)
    and the three server actions (`createTodo`, `updateTodo`, `deleteTodo`)
    over a record store keyed by integer id.

    The identity provider (`auth()`) is an `Option<UserId>` argument; a
    store call that throws for a reason other than "no such record" (a lost
    connection, say) is the `storeFails` argument; the page's refresh
    (`revalidatePath('/')`) is the `refreshed` result. */
module Page {
  import opened Wrappers
  import opened JsStrings

  type UserId = string

  /** One row of the todo table. */
  datatype Todo = Todo(id: int, title: string, ownerId: UserId)

  /** The fields of a submitted form, by name. */
  type FormData = map<string, string>

  /** The store's contents: the records by id, and the next id the
      autoincrement sequence hands out. */
  datatype Db = Db(records: map<int, Todo>, nextId: int) {
    /** Every record sits under its own id, below the next id to be
        assigned, with a non-empty title and a non-empty owner. */
    ghost predicate Valid() {
      && nextId >= 1
      && forall k :: k in records ==>
           && records[k].id == k
           && 1 <= k < nextId
           && records[k].title != ""
           && records[k].ownerId != ""
    }
  }

  /** What a server action leaves behind: the new store, and whether it
      asked for the list page to be refreshed. */
  datatype Effect = Effect(db: Db, refreshed: bool)

  /** `session?.user?.id` used as a condition: a missing session, a missing
      id and an empty id all count as "not signed in". */
  function CallerId(session: Option<UserId>): (caller: Option<UserId>)
    ensures caller.Some? <==> session.Some? && session.value != ""
    ensures caller.Some? ==> caller == session
  {
    match session
    case Some(id) => if id == "" then None else session
    case None => None
  }

  /** `formData.get(name)`: the submitted value, `None` for an absent field. */
  function Field(form: FormData, name: string): (v: Option<string>)
    ensures v.Some? <==> name in form
    ensures v.Some? ==> v.value == form[name]
  {
    if name in form then Some(form[name]) else None
  }

  /** `formData.get(name)` is truthy: present and not the empty string. */
  predicate HasText(form: FormData, name: string): (truthy: bool)
    ensures truthy <==> name in form && form[name] != ""
  {
    match Field(form, name)
    case Some(value) => value != ""
    case None => false
  }

  /** `parseInt(formData.get('id'), 10)`. An absent field is `null`, which
      `parseInt` reads as the string "null", which is `NaN`; the lemma
      `ParseIdFieldReadsNull` connects the two. */
  function ParseIdField(form: FormData): (id: Option<int>)
    ensures "id" !in form ==> id.None?
  {
    if "id" in form then ParseInt(form["id"]) else None
  }

  /** `parseInt(null)` converts `null` to the string "null" first, and that
      string does not start with a number: `NaN`. So `ParseIdField` is
      `parseInt` applied to what `formData.get('id')` returns, read as a
      string. */
  lemma ParseIdFieldReadsNull(form: FormData)
    ensures ParseIdField(form) == ParseInt(if "id" in form then form["id"] else "null")
  {
    ParseIntOfNonNumeric("null");
  }

  predicate Owns(db: Db, owner: UserId, id: int) {
    id in db.records && db.records[id].ownerId == owner
  }

  /** Everything one user can see of the store: that user's own records. */
  function View(db: Db, owner: UserId): map<int, Todo> {
    map k | k in db.records && db.records[k].ownerId == owner :: db.records[k]
  }

  // ---------------------------------------------------------------------
  // The store's operations, as the actions call them (Prisma's `create`,
  // and `update` / `delete` with a `where` on both id and owner).
  // ---------------------------------------------------------------------

  /** `prisma.todo.create`: one new record under a fresh id. */
  function Insert(db: Db, title: string, owner: UserId): (r: Db)
    requires db.Valid() && title != "" && owner != ""
    ensures r.Valid()
    ensures db.nextId !in db.records && r.records.Keys == db.records.Keys + {db.nextId}
    ensures r.records[db.nextId] == Todo(db.nextId, title, owner)
    ensures forall k :: k in db.records ==> k < db.nextId && r.records[k] == db.records[k]
    ensures r.nextId > db.nextId
  {
    Db(db.records[db.nextId := Todo(db.nextId, title, owner)], db.nextId + 1)
  }

  /** `prisma.todo.update({ where: { id, userId }, data: { title } })`:
      `None` when it throws because no record has that id and owner.
      Otherwise only the title of that one record changes. */
  function UpdateIfOwned(db: Db, id: int, owner: UserId, title: string): (r: Option<Db>)
    requires db.Valid() && title != ""
    ensures r.Some? <==> Owns(db, owner, id)
    ensures r.Some? ==>
      && r.value.Valid()
      && r.value.nextId == db.nextId
      && r.value.records.Keys == db.records.Keys
      && r.value.records[id].id == id
      && r.value.records[id].ownerId == owner
      && r.value.records[id].title == title
      && forall k :: k in db.records && k != id ==> r.value.records[k] == db.records[k]
  {
    if Owns(db, owner, id) then
      Some(Db(db.records[id := db.records[id].(title := title)], db.nextId))
    else None
  }

  /** `prisma.todo.delete({ where: { id, userId } })`: `None` when it
      throws because no record has that id and owner. Otherwise exactly
      that record is gone. */
  function DeleteIfOwned(db: Db, id: int, owner: UserId): (r: Option<Db>)
    requires db.Valid()
    ensures r.Some? <==> Owns(db, owner, id)
    ensures r.Some? ==>
      && r.value.Valid()
      && r.value.nextId == db.nextId
      && r.value.records.Keys == db.records.Keys - {id}
      && forall k :: k in r.value.records ==> r.value.records[k] == db.records[k]
  {
    if Owns(db, owner, id) then Some(Db(db.records - {id}, db.nextId)) else None
  }

  // ---------------------------------------------------------------------
  // The server actions, as functions of the store before the call.
  // ---------------------------------------------------------------------

  /** `createTodo`: nothing happens without a signed-in caller or without a
      non-empty `title`, or when the store throws; otherwise one record is
      inserted for the caller and the page is refreshed. */
  function Create(db: Db, session: Option<UserId>, form: FormData, storeFails: bool): (e: Effect)
    requires db.Valid()
    ensures e.db.Valid()
    ensures e.refreshed <==> CallerId(session).Some? && HasText(form, "title") && !storeFails
    ensures !e.refreshed ==> e.db == db
    ensures e.refreshed ==> e.db == Insert(db, form["title"], session.value)
  {
    match CallerId(session)
    case None => Effect(db, false)
    case Some(caller) =>
      match Field(form, "title")
      case None => Effect(db, false)
      case Some(title) =>
        if title == "" || storeFails then Effect(db, false)
        else Effect(Insert(db, title, caller), true)
  }

  /** `updateTodo`: nothing happens without a signed-in caller, with an `id`
      that does not parse, with an absent or empty `newTitle`, when the
      caller owns no record with that id, or when the store throws;
      otherwise that record's title is replaced and the page is refreshed. */
  function Update(db: Db, session: Option<UserId>, form: FormData, storeFails: bool): (e: Effect)
    requires db.Valid()
    ensures e.db.Valid()
    ensures e.refreshed <==>
      && CallerId(session).Some?
      && ParseIdField(form).Some?
      && HasText(form, "newTitle")
      && Owns(db, session.value, ParseIdField(form).value)
      && !storeFails
    ensures !e.refreshed ==> e.db == db
    ensures e.refreshed ==>
      Some(e.db) == UpdateIfOwned(db, ParseIdField(form).value, session.value, form["newTitle"])
  {
    match CallerId(session)
    case None => Effect(db, false)
    case Some(caller) =>
      var todoId := ParseIdField(form);
      var newTitle := Field(form, "newTitle");
      if todoId.None? || newTitle.None? || newTitle.value == "" then Effect(db, false)
      else if storeFails then Effect(db, false)
      else
        match UpdateIfOwned(db, todoId.value, caller, newTitle.value)
        case None => Effect(db, false)
        case Some(updated) => Effect(updated, true)
  }

  /** `deleteTodo`: nothing happens without a signed-in caller, with an `id`
      that does not parse, when the caller owns no record with that id, or
      when the store throws; otherwise that record is removed and the page
      is refreshed. */
  function Delete(db: Db, session: Option<UserId>, form: FormData, storeFails: bool): (e: Effect)
    requires db.Valid()
    ensures e.db.Valid()
    ensures e.refreshed <==>
      && CallerId(session).Some?
      && ParseIdField(form).Some?
      && Owns(db, session.value, ParseIdField(form).value)
      && !storeFails
    ensures !e.refreshed ==> e.db == db
    ensures e.refreshed ==>
      Some(e.db) == DeleteIfOwned(db, ParseIdField(form).value, session.value)
  {
    match CallerId(session)
    case None => Effect(db, false)
    case Some(caller) =>
      var todoId := ParseIdField(form);
      if todoId.None? || storeFails then Effect(db, false)
      else
        match DeleteIfOwned(db, todoId.value, caller)
        case None => Effect(db, false)
        case Some(remaining) => Effect(remaining, true)
  }

  // ---------------------------------------------------------------------
  // The query: `findMany({ where: { userId }, orderBy: { id: 'desc' } })`.
  // ---------------------------------------------------------------------

  predicate StrictlyDescending(s: seq<Todo>) {
    forall i, j :: 0 <= i < j < |s| ==> s[i].id > s[j].id
  }

  /** The records of `owner` with ids from `k` down to 1, highest first. */
  function Collect(db: Db, owner: UserId, k: int): (r: seq<Todo>)
    requires db.Valid()
    ensures forall t :: t in r ==> t.id in db.records && db.records[t.id] == t && t.ownerId == owner && t.id <= k
    ensures forall id :: id in db.records && db.records[id].ownerId == owner && id <= k ==> db.records[id] in r
    ensures StrictlyDescending(r)
    decreases k
  {
    if k < 1 then []
    else
      var rest := Collect(db, owner, k - 1);
      if Owns(db, owner, k) then [db.records[k]] + rest else rest
  }

  /** `getTodos(userId)`: without a signed-in user, or when the store
      throws, the empty list; otherwise exactly that user's records, by id
      descending. */
  function GetTodos(db: Db, userId: Option<UserId>, storeFails: bool): (r: seq<Todo>)
    requires db.Valid()
    ensures CallerId(userId).None? || storeFails ==> r == []
    ensures forall t :: t in r ==> userId == Some(t.ownerId) && t.id in db.records && db.records[t.id] == t
    ensures CallerId(userId).Some? && !storeFails ==>
      forall id :: Owns(db, userId.value, id) ==> db.records[id] in r
    ensures StrictlyDescending(r)
  {
    match CallerId(userId)
    case None => []
    case Some(caller) => if storeFails then [] else Collect(db, caller, db.nextId - 1)
  }

  lemma HeadIsMember(s: seq<Todo>)
    ensures s == [] || s[0] in s
  {
  }

  /** In a list sorted by strictly descending id the first entry has the
      highest id of all its members. */
  lemma HeadHasHighestId(s: seq<Todo>, t: Todo)
    requires StrictlyDescending(s) && t in s
    ensures s[0].id >= t.id && (t != s[0] ==> t in s[1..] && s[0].id > t.id)
  {
    var k :| 0 <= k < |s| && s[k] == t;
    if k > 0 { assert s[1..][k - 1] == t; }
  }

  /** Two lists sorted by strictly descending id that hold the same todos
      are the same list. */
  lemma {:induction false} DescendingUnique(s1: seq<Todo>, s2: seq<Todo>)
    requires StrictlyDescending(s1) && StrictlyDescending(s2)
    requires forall t :: t in s1 <==> t in s2
    ensures s1 == s2
  {
    HeadIsMember(s1);
    HeadIsMember(s2);
    if s1 != [] {
      HeadHasHighestId(s1, s2[0]);
      HeadHasHighestId(s2, s1[0]);
      assert s1[0] == s2[0];
      forall t | t in s1[1..] ensures t in s2[1..] {
        HeadHasHighestId(s1, t);
        HeadHasHighestId(s2, t);
      }
      forall t | t in s2[1..] ensures t in s1[1..] {
        HeadHasHighestId(s2, t);
        HeadHasHighestId(s1, t);
      }
      DescendingUnique(s1[1..], s2[1..]);
      assert s1 == [s1[0]] + s1[1..];
      assert s2 == [s2[0]] + s2[1..];
    }
  }

  /** The listing is determined by what it must be: any list that holds
      exactly the caller's records, by strictly descending id, is it. */
  lemma ListingIsUnique(db: Db, caller: UserId, s: seq<Todo>)
    requires db.Valid() && caller != ""
    requires StrictlyDescending(s)
    requires forall t :: t in s <==> t.id in db.records && db.records[t.id] == t && t.ownerId == caller
    ensures s == GetTodos(db, Some(caller), false)
  {
    var l := GetTodos(db, Some(caller), false);
    forall t | t in l ensures t in s { }
    forall t | t in s ensures t in l {
      assert Owns(db, caller, t.id);
    }
    DescendingUnique(s, l);
  }

  /** A user's listing depends on nothing but that user's own records. */
  lemma ListingDependsOnlyOnView(db1: Db, db2: Db, user: UserId)
    requires db1.Valid() && db2.Valid()
    requires View(db1, user) == View(db2, user)
    ensures GetTodos(db1, Some(user), false) == GetTodos(db2, Some(user), false)
  {
    if user != "" {
      var l1 := GetTodos(db1, Some(user), false);
      var l2 := GetTodos(db2, Some(user), false);
      forall t | t in l1 ensures t in l2 {
        assert t.id in View(db1, user);
        assert Owns(db2, user, t.id);
      }
      forall t | t in l2 ensures t in l1 {
        assert t.id in View(db2, user);
        assert Owns(db1, user, t.id);
      }
      DescendingUnique(l1, l2);
    }
  }

  // ---------------------------------------------------------------------
  // Properties that relate several calls.
  // ---------------------------------------------------------------------

  /** A created todo is the caller's new first entry; the rest of the
      caller's listing is as before. */
  lemma CreateThenList(db: Db, session: Option<UserId>, form: FormData)
    requires db.Valid()
    requires CallerId(session).Some? && HasText(form, "title")
    ensures var e := Create(db, session, form, false);
      GetTodos(e.db, session, false)
      == [Todo(db.nextId, form["title"], session.value)] + GetTodos(db, session, false)
  {
    var e := Create(db, session, form, false);
    var caller := session.value;
    var created := Todo(db.nextId, form["title"], caller);
    var before := GetTodos(db, session, false);
    var s := [created] + before;
    forall i, j | 0 <= i < j < |s| ensures s[i].id > s[j].id {
      if i == 0 { assert s[j] in before; }
    }
    forall t | t in s ensures t.id in e.db.records && e.db.records[t.id] == t && t.ownerId == caller {
      if t != created { assert t in before; }
    }
    forall t: Todo | t.id in e.db.records && e.db.records[t.id] == t && t.ownerId == caller ensures t in s {
      if t.id != db.nextId { assert Owns(db, caller, t.id); }
    }
    ListingIsUnique(e.db, caller, s);
  }

  /** `l` with the title of every entry whose id is `id` replaced. */
  function Retitled(l: seq<Todo>, id: int, title: string): (r: seq<Todo>)
    ensures |r| == |l|
  {
    if l == [] then []
    else [if l[0].id == id then l[0].(title := title) else l[0]] + Retitled(l[1..], id, title)
  }

  /** `Retitled` changes the entries with that id and leaves the others. */
  lemma {:induction false} RetitledPointwise(l: seq<Todo>, id: int, title: string)
    ensures forall i :: 0 <= i < |l| ==>
      Retitled(l, id, title)[i] == if l[i].id == id then l[i].(title := title) else l[i]
  {
    if l != [] {
      RetitledPointwise(l[1..], id, title);
      var r := Retitled(l, id, title);
      forall i | 1 <= i < |l|
        ensures r[i] == if l[i].id == id then l[i].(title := title) else l[i]
      {
        assert r[i] == Retitled(l[1..], id, title)[i - 1] && l[i] == l[1..][i - 1];
      }
    }
  }

  /** `updated` is `db` with the title of record `id` replaced. */
  ghost predicate RetitledDb(db: Db, updated: Db, id: int, title: string) {
    && id in db.records
    && updated.records.Keys == db.records.Keys
    && updated.records[id] == db.records[id].(title := title)
    && forall k :: k in db.records && k != id ==> updated.records[k] == db.records[k]
  }

  lemma RetitledCons(x: Todo, rest: seq<Todo>, id: int, title: string)
    ensures Retitled([x] + rest, id, title)
         == [if x.id == id then x.(title := title) else x] + Retitled(rest, id, title)
  {
    assert ([x] + rest)[1..] == rest;
  }

  /** Retitling one record retitles it in every partial listing. */
  lemma {:induction false} CollectRetitled(db: Db, updated: Db, owner: UserId, id: int, title: string, k: int)
    requires db.Valid() && updated.Valid()
    requires RetitledDb(db, updated, id, title)
    ensures Collect(updated, owner, k) == Retitled(Collect(db, owner, k), id, title)
    decreases k
  {
    if k >= 1 {
      CollectRetitled(db, updated, owner, id, title, k - 1);
      var rest := Collect(db, owner, k - 1);
      assert Owns(updated, owner, k) == Owns(db, owner, k);
      if Owns(db, owner, k) {
        RetitledCons(db.records[k], rest, id, title);
        assert updated.records[k] == if k == id then db.records[k].(title := title) else db.records[k];
      }
    }
  }

  /** After a successful update the caller's listing keeps its order and its
      ids; only the entry with the updated id carries the new title. */
  lemma UpdateThenList(db: Db, session: Option<UserId>, form: FormData)
    requires db.Valid()
    requires Update(db, session, form, false).refreshed
    ensures var after := GetTodos(Update(db, session, form, false).db, session, false);
      var before := GetTodos(db, session, false);
      && |after| == |before|
      && forall i :: 0 <= i < |before| ==>
           after[i] == if before[i].id == ParseIdField(form).value
                       then before[i].(title := form["newTitle"]) else before[i]
  {
    UpdateRetitles(db, session, form);
    ListingRetitled(db, Update(db, session, form, false).db, session.value, ParseIdField(form).value, form["newTitle"]);
    RetitledPointwise(GetTodos(db, session, false), ParseIdField(form).value, form["newTitle"]);
  }

  /** Retitling one record retitles it in the owner's listing. */
  lemma ListingRetitled(db: Db, updated: Db, caller: UserId, id: int, title: string)
    requires db.Valid() && updated.Valid() && caller != ""
    requires RetitledDb(db, updated, id, title) && updated.nextId == db.nextId
    ensures GetTodos(updated, Some(caller), false) == Retitled(GetTodos(db, Some(caller), false), id, title)
  {
    ListingIsCollect(db, caller);
    ListingIsCollect(updated, caller);
    CollectRetitled(db, updated, caller, id, title, db.nextId - 1);
  }

  /** A signed-in user's listing, when the store does not fail, is the
      collection of that user's records below the next id. */
  lemma ListingIsCollect(db: Db, caller: UserId)
    requires db.Valid() && caller != ""
    ensures GetTodos(db, Some(caller), false) == Collect(db, caller, db.nextId - 1)
  {
  }

  /** A successful update replaces the title of the submitted record and
      nothing else. */
  lemma UpdateRetitles(db: Db, session: Option<UserId>, form: FormData)
    requires db.Valid()
    requires Update(db, session, form, false).refreshed
    ensures RetitledDb(db, Update(db, session, form, false).db, ParseIdField(form).value, form["newTitle"])
    ensures Update(db, session, form, false).db.nextId == db.nextId
  {
    var e := Update(db, session, form, false);
    assert Some(e.db) == UpdateIfOwned(db, ParseIdField(form).value, session.value, form["newTitle"]);
  }

  /** After a successful delete the caller's listing is the old one without
      the deleted id. */
  lemma DeleteThenList(db: Db, session: Option<UserId>, form: FormData)
    requires db.Valid()
    requires Delete(db, session, form, false).refreshed
    ensures var after := GetTodos(Delete(db, session, form, false).db, session, false);
      var before := GetTodos(db, session, false);
      forall t :: t in after <==> t in before && t.id != ParseIdField(form).value
  {
    var e := Delete(db, session, form, false);
    var caller := session.value;
    forall t | t in GetTodos(db, session, false) && t.id != ParseIdField(form).value
      ensures t in GetTodos(e.db, session, false)
    {
      assert Owns(e.db, caller, t.id);
    }
  }

  /** Deleting twice is deleting once: after a delete that reached the
      store, repeating it (whatever the store does then) changes nothing and
      refreshes nothing. */
  lemma DeleteIsIdempotent(db: Db, session: Option<UserId>, form: FormData, storeFails: bool)
    requires db.Valid()
    ensures var once := Delete(db, session, form, false);
      var twice := Delete(once.db, session, form, storeFails);
      twice.db == once.db && !twice.refreshed
  {
  }

  /** Each store primitive, run for one owner, leaves every other owner's
      records as they were. */
  lemma InsertKeepsOtherViews(db: Db, title: string, owner: UserId, other: UserId)
    requires db.Valid() && title != "" && owner != "" && owner != other
    ensures View(Insert(db, title, owner), other) == View(db, other)
  {
    var r := Insert(db, title, owner);
    assert forall k :: k in View(r, other) ==> k in View(db, other);
  }

  lemma UpdateIfOwnedKeepsOtherViews(db: Db, id: int, owner: UserId, title: string, other: UserId)
    requires db.Valid() && title != "" && owner != other
    requires UpdateIfOwned(db, id, owner, title).Some?
    ensures View(UpdateIfOwned(db, id, owner, title).value, other) == View(db, other)
  {
    var r := UpdateIfOwned(db, id, owner, title).value;
    assert forall k :: k in View(r, other) ==> k != id && k in View(db, other);
    assert forall k :: k in View(db, other) ==> k != id && k in View(r, other);
  }

  lemma DeleteIfOwnedKeepsOtherViews(db: Db, id: int, owner: UserId, other: UserId)
    requires db.Valid() && owner != other
    requires DeleteIfOwned(db, id, owner).Some?
    ensures View(DeleteIfOwned(db, id, owner).value, other) == View(db, other)
  {
    var r := DeleteIfOwned(db, id, owner).value;
    assert forall k :: k in View(db, other) ==> k != id && k in View(r, other);
  }

  /** No action changes what any other user can see. */
  lemma CreatePreservesOtherViews(db: Db, session: Option<UserId>, form: FormData, storeFails: bool, other: UserId)
    requires db.Valid()
    requires session != Some(other)
    ensures View(Create(db, session, form, storeFails).db, other) == View(db, other)
  {
    var e := Create(db, session, form, storeFails);
    if e.refreshed {
      InsertKeepsOtherViews(db, form["title"], session.value, other);
    }
  }

  lemma UpdatePreservesOtherViews(db: Db, session: Option<UserId>, form: FormData, storeFails: bool, other: UserId)
    requires db.Valid()
    requires session != Some(other)
    ensures View(Update(db, session, form, storeFails).db, other) == View(db, other)
  {
    var e := Update(db, session, form, storeFails);
    if e.refreshed {
      UpdateIfOwnedKeepsOtherViews(db, ParseIdField(form).value, session.value, form["newTitle"], other);
    }
  }

  lemma DeletePreservesOtherViews(db: Db, session: Option<UserId>, form: FormData, storeFails: bool, other: UserId)
    requires db.Valid()
    requires session != Some(other)
    ensures View(Delete(db, session, form, storeFails).db, other) == View(db, other)
  {
    var e := Delete(db, session, form, storeFails);
    if e.refreshed {
      DeleteIfOwnedKeepsOtherViews(db, ParseIdField(form).value, session.value, other);
    }
  }

  /** Hence no action changes any other user's listing. */
  lemma ActionsPreserveOtherListings(db: Db, session: Option<UserId>, form: FormData, storeFails: bool, other: UserId)
    requires db.Valid()
    requires session != Some(other)
    ensures GetTodos(Create(db, session, form, storeFails).db, Some(other), false) == GetTodos(db, Some(other), false)
    ensures GetTodos(Update(db, session, form, storeFails).db, Some(other), false) == GetTodos(db, Some(other), false)
    ensures GetTodos(Delete(db, session, form, storeFails).db, Some(other), false) == GetTodos(db, Some(other), false)
  {
    CreatePreservesOtherViews(db, session, form, storeFails, other);
    UpdatePreservesOtherViews(db, session, form, storeFails, other);
    DeletePreservesOtherViews(db, session, form, storeFails, other);
    ListingDependsOnlyOnView(Create(db, session, form, storeFails).db, db, other);
    ListingDependsOnlyOnView(Update(db, session, form, storeFails).db, db, other);
    ListingDependsOnlyOnView(Delete(db, session, form, storeFails).db, db, other);
  }

  // ---------------------------------------------------------------------
  // The store as the server holds it, changed in place by the actions.
  // ---------------------------------------------------------------------

  class TodoStore {
    var records: map<int, Todo>
    var nextId: int

    function Snapshot(): Db
      reads this
    {
      Db(records, nextId)
    }

    ghost predicate Valid()
      reads this
    {
      Snapshot().Valid()
    }

    /** An empty table whose id sequence starts at 1. */
    constructor ()
      ensures Valid() && records == map[] && nextId == 1
    {
      records := map[];
      nextId := 1;
    }

    method CreateTodo(session: Option<UserId>, form: FormData, storeFails: bool) returns (refreshed: bool)
      requires Valid()
      modifies this
      ensures Valid()
      ensures Effect(Snapshot(), refreshed) == Create(old(Snapshot()), session, form, storeFails)
    {
      refreshed := false;
      var caller := CallerId(session);
      if caller.None? {
        return;
      }
      var title := Field(form, "title");
      if title.None? || title.value == "" {
        return;
      }
      if storeFails {
        return;
      }
      records := records[nextId := Todo(nextId, title.value, caller.value)];
      nextId := nextId + 1;
      refreshed := true;
    }

    method DeleteTodo(session: Option<UserId>, form: FormData, storeFails: bool) returns (refreshed: bool)
      requires Valid()
      modifies this
      ensures Valid()
      ensures Effect(Snapshot(), refreshed) == Delete(old(Snapshot()), session, form, storeFails)
    {
      ghost var before := Snapshot();
      refreshed := false;
      var caller := CallerId(session);
      if caller.None? {
        return;
      }
      var todoId := ParseIdField(form);
      if todoId.None? {
        return;
      }
      if storeFails || !(todoId.value in records && records[todoId.value].ownerId == caller.value) {
        assert !Owns(before, caller.value, todoId.value) || storeFails;
        return;
      }
      records := records - {todoId.value};
      refreshed := true;
      assert DeleteIfOwned(before, todoId.value, caller.value) == Some(Snapshot());
    }

    method UpdateTodo(session: Option<UserId>, form: FormData, storeFails: bool) returns (refreshed: bool)
      requires Valid()
      modifies this
      ensures Valid()
      ensures Effect(Snapshot(), refreshed) == Update(old(Snapshot()), session, form, storeFails)
    {
      ghost var before := Snapshot();
      refreshed := false;
      var caller := CallerId(session);
      if caller.None? {
        return;
      }
      var todoId := ParseIdField(form);
      var newTitle := Field(form, "newTitle");
      if todoId.None? || newTitle.None? || newTitle.value == "" {
        return;
      }
      if storeFails || !(todoId.value in records && records[todoId.value].ownerId == caller.value) {
        assert !Owns(before, caller.value, todoId.value) || storeFails;
        return;
      }
      records := records[todoId.value := records[todoId.value].(title := newTitle.value)];
      refreshed := true;
      assert UpdateIfOwned(before, todoId.value, caller.value, newTitle.value) == Some(Snapshot());
    }
  }
}
