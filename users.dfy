/**
 * `UserModel` (app/models/user_model.py): the `users` table as a map from id
 * to record, the statements the model sends read as operations on that map,
 * and the class that holds the table with the uniqueness of user name and
 * e-mail as its invariant.
 */
module Users {
  import opened Wrappers
  import opened Json
  import opened Text
  import Db

  /** A row of `users` (app/models/user.py, app/models/base.py); timestamps are instants. */
  datatype User = User(id: int, username: string, email: string, hashedPassword: string,
                       fullName: Option<string>, notes: Option<string>,
                       isActive: bool, isSuperuser: bool, createdAt: int, updatedAt: int)

  /** Why the database refuses a statement. */
  datatype Failure =
    | MissingParameter(name: string)   // a bind parameter without a value
    | UnknownColumn(name: string)      // a SET target the table does not have
    | NullValue(column: string)        // NULL into a NOT NULL column
    | BadValue(column: string)         // a value of the wrong kind for the column
    | DuplicateEntry(column: string)   // a unique index would hold a value twice
    | EmptySetClause                   // `UPDATE users SET  WHERE id = :id`

  /** The columns of `users`. */
  datatype Col = IdCol | UsernameCol | EmailCol | HashedPasswordCol | FullNameCol | NotesCol
               | IsActiveCol | IsSuperuserCol | CreatedAtCol | UpdatedAtCol

  /** The name SQL knows a column by. */
  function Name(c: Col): string {
    match c
    case IdCol => "id"
    case UsernameCol => "username"
    case EmailCol => "email"
    case HashedPasswordCol => "hashed_password"
    case FullNameCol => "full_name"
    case NotesCol => "notes"
    case IsActiveCol => "is_active"
    case IsSuperuserCol => "is_superuser"
    case CreatedAtCol => "created_at"
    case UpdatedAtCol => "updated_at"
  }

  /** The column a name denotes, if the table has one by that name. */
  function ColumnNamed(name: string): (r: Option<Col>)
    ensures r.Some? ==> Name(r.value) == name
    ensures forall c :: Name(c) == name ==> r == Some(c)
  {
    if name == "id" then Some(IdCol)
    else if name == "username" then Some(UsernameCol)
    else if name == "email" then Some(EmailCol)
    else if name == "hashed_password" then Some(HashedPasswordCol)
    else if name == "full_name" then Some(FullNameCol)
    else if name == "notes" then Some(NotesCol)
    else if name == "is_active" then Some(IsActiveCol)
    else if name == "is_superuser" then Some(IsSuperuserCol)
    else if name == "created_at" then Some(CreatedAtCol)
    else if name == "updated_at" then Some(UpdatedAtCol)
    else None
  }

  function OptionalText(o: Option<string>): Json {
    if o.Some? then Str(o.value) else Null
  }

  /** What a row holds in a column, as `SELECT *` returns it. */
  function Value(u: User, c: Col): Json {
    match c
    case IdCol => Int(u.id)
    case UsernameCol => Str(u.username)
    case EmailCol => Str(u.email)
    case HashedPasswordCol => Str(u.hashedPassword)
    case FullNameCol => OptionalText(u.fullName)
    case NotesCol => OptionalText(u.notes)
    case IsActiveCol => Bool(u.isActive)
    case IsSuperuserCol => Bool(u.isSuperuser)
    case CreatedAtCol => Int(u.createdAt)
    case UpdatedAtCol => Int(u.updatedAt)
  }

  /** What a row holds under a column name; Null for a name the table lacks. */
  function Column(u: User, name: string): Json {
    match ColumnNamed(name)
    case Some(c) => Value(u, c)
    case None => Null
  }

  // ------------------------------------------------------------ the table

  predicate KeyedById(t: map<int, User>) {
    forall id :: id in t ==> t[id].id == id
  }

  predicate UniqueUsernames(t: map<int, User>) {
    forall a, b :: a in t && b in t && t[a].username == t[b].username ==> a == b
  }

  predicate UniqueEmails(t: map<int, User>) {
    forall a, b :: a in t && b in t && t[a].email == t[b].email ==> a == b
  }

  /**
   * The table's constraints: the primary key is the map key, user name and
   * e-mail are unique, and every id lies below the next auto-increment value.
   */
  predicate ValidTable(t: map<int, User>, nextId: int) {
    KeyedById(t) && UniqueUsernames(t) && UniqueEmails(t) && 0 < nextId
    && forall id :: id in t ==> 0 < id < nextId
  }

  /** The ids of the rows a `WHERE column = value` clause selects. */
  function Where(t: map<int, User>, column: string, value: Json): set<int> {
    set id | id in t && Column(t[id], column) == value
  }

  predicate UniqueColumn(column: string) {
    column == "id" || column == "username" || column == "email"
  }

  /** A key column selects at most one row. */
  lemma WhereUnique(t: map<int, User>, column: string, value: Json)
    requires KeyedById(t) && UniqueUsernames(t) && UniqueEmails(t) && UniqueColumn(column)
    ensures forall a, b :: (a in t && b in t && Column(t[a], column) == value
                            && Column(t[b], column) == value) ==> a == b
  {
    forall a, b | a in t && b in t && Column(t[a], column) == value && Column(t[b], column) == value
      ensures a == b
    {
      if column == "username" {
        assert t[a].username == t[b].username;
      } else if column == "email" {
        assert t[a].email == t[b].email;
      }
    }
  }

  /**
   * `find_by_id`, `find_by_username`, `find_by_email`: the one row whose key
   * column holds the value, or None; never an error.
   */
  function Lookup(t: map<int, User>, column: string, value: Json): (r: Option<User>)
    requires KeyedById(t) && UniqueUsernames(t) && UniqueEmails(t) && UniqueColumn(column)
    ensures r.None? <==> Where(t, column, value) == {}
    ensures r.Some? ==> r.value.id in t && t[r.value.id] == r.value
                        && Where(t, column, value) == {r.value.id}
  {
    if exists id :: id in t && Column(t[id], column) == value then
      WhereUnique(t, column, value);
      var id :| id in t && Column(t[id], column) == value;
      assert id in Where(t, column, value);
      assert forall x :: x in Where(t, column, value) ==> x == id;
      assert Where(t, column, value) == {id};
      Some(t[id])
    else
      assert forall x :: x !in Where(t, column, value);
      None
  }

  /** Looking up by id finds exactly the row stored under that id. */
  lemma LookupId(t: map<int, User>, id: int)
    requires KeyedById(t) && UniqueUsernames(t) && UniqueEmails(t)
    ensures Lookup(t, "id", Int(id)) == if id in t then Some(t[id]) else None
  {
    if id in t {
      assert id in Where(t, "id", Int(id));
    } else {
      assert forall x :: x in t ==> Column(t[x], "id") != Int(id);
      assert Where(t, "id", Int(id)) == {};
    }
  }

  // -------------------------------------------------------------- listing

  /** The `is_active = :is_active` filter, absent when no flag is given. */
  predicate Matches(u: User, isActive: Option<bool>) {
    isActive.None? || u.isActive == isActive.value
  }

  function Selected(t: map<int, User>, isActive: Option<bool>): set<int> {
    set id | id in t && Matches(t[id], isActive)
  }

  /** `ORDER BY created_at DESC`, ties broken by the larger id. */
  predicate Precedes(a: User, b: User) {
    a.createdAt > b.createdAt || (a.createdAt == b.createdAt && a.id >= b.id)
  }

  lemma {:induction false} NewestExists(t: map<int, User>, ids: set<int>)
    requires ids != {} && ids <= t.Keys
    ensures exists m :: m in ids && forall o :: o in ids ==> Precedes(t[m], t[o])
    decreases ids
  {
    var x := AnyOf(ids);
    var rest := ids - {x};
    if rest == {} {
      forall o | o in ids ensures o == x {
        assert o !in rest;
      }
      assert Precedes(t[x], t[x]);
    } else {
      NewestExists(t, rest);
      var m :| m in rest && forall o :: o in rest ==> Precedes(t[m], t[o]);
      if Precedes(t[m], t[x]) {
        assert forall o :: o in ids ==> o in rest || o == x;
      } else {
        assert forall o :: o in ids ==> Precedes(t[x], t[o]) by {
          forall o | o in ids ensures Precedes(t[x], t[o]) {
            if o != x {
              assert o in rest && Precedes(t[m], t[o]);
            }
          }
        }
      }
    }
  }

  /** An element of a non-empty set. */
  ghost function AnyOf(ids: set<int>): (x: int)
    requires ids != {}
    ensures x in ids
  {
    assert (forall y :: y !in ids) ==> ids == {};
    var x :| x in ids; x
  }

  /** `r` lists the rows under `ids`, each once, in the listing order. */
  predicate IsListing(t: map<int, User>, ids: set<int>, r: seq<User>) {
    ids <= t.Keys && |r| == |ids|
    && (forall i :: 0 <= i < |r| ==> r[i].id in ids && t[r[i].id] == r[i])
    && (forall id :: id in ids ==> t[id] in r)
    && (forall i, j :: 0 <= i < j < |r| ==> Precedes(r[i], r[j]))
  }

  /** The first row in front of a listing of the others is a listing of all. */
  lemma ListingCons(t: map<int, User>, ids: set<int>, m: int, rest: seq<User>)
    requires KeyedById(t) && m in ids && ids <= t.Keys && forall o :: o in ids ==> Precedes(t[m], t[o])
    requires IsListing(t, ids - {m}, rest)
    ensures IsListing(t, ids, [t[m]] + rest)
  {
    var r := [t[m]] + rest;
    assert forall i :: 1 <= i < |r| ==> r[i] == rest[i - 1];
    assert forall id :: id in ids ==> id == m || id in ids - {m};
    forall j | 1 <= j < |r| ensures Precedes(r[0], r[j]) {
      var o := rest[j - 1].id;
      assert o in ids && t[o] == r[j];
    }
  }

  /** The rows under `ids`, newest first. */
  function NewestFirst(t: map<int, User>, ids: set<int>): (r: seq<User>)
    requires ids <= t.Keys && KeyedById(t)
    ensures IsListing(t, ids, r)
    decreases ids
  {
    if ids == {} then []
    else
      var m := Newest(t, ids);
      var rest := NewestFirst(t, ids - {m});
      ListingCons(t, ids, m, rest);
      [t[m]] + rest
  }

  /** The row under `ids` that comes first in the listing order. */
  function Newest(t: map<int, User>, ids: set<int>): (m: int)
    requires ids != {} && ids <= t.Keys && KeyedById(t)
    ensures m in ids && forall o :: o in ids ==> Precedes(t[m], t[o])
  {
    NewestExists(t, ids);
    NewestUnique(t, ids);
    var m :| m in ids && forall o :: o in ids ==> Precedes(t[m], t[o]);
    m
  }

  /** The listing order is total: only one row can come first. */
  lemma NewestUnique(t: map<int, User>, ids: set<int>)
    requires ids <= t.Keys && KeyedById(t)
    ensures forall a, b :: a in ids && b in ids && Precedes(t[a], t[b]) && Precedes(t[b], t[a]) ==> a == b
  {
  }

  /**
   * `find_all(is_active)`: every row when no flag is given, otherwise exactly
   * the rows whose `is_active` equals it, each once, newest first.
   */
  function Listing(t: map<int, User>, isActive: Option<bool>): (r: seq<User>)
    requires KeyedById(t)
    ensures forall i :: 0 <= i < |r| ==> r[i].id in t && t[r[i].id] == r[i] && Matches(r[i], isActive)
    ensures forall id :: id in t && Matches(t[id], isActive) ==> t[id] in r
    ensures forall i, j :: 0 <= i < j < |r| ==> r[i].createdAt >= r[j].createdAt && r[i].id != r[j].id
  {
    var r := NewestFirst(t, Selected(t, isActive));
    ListingIdsDistinct(t, Selected(t, isActive), r);
    r
  }

  /** A listing names each id once. */
  lemma ListingIdsDistinct(t: map<int, User>, ids: set<int>, r: seq<User>)
    requires KeyedById(t) && IsListing(t, ids, r)
    ensures forall i, j :: 0 <= i < j < |r| ==> r[i].id != r[j].id
  {
    forall i, j | 0 <= i < j < |r| ensures r[i].id != r[j].id {
      forall id | id in ids ensures exists k :: 0 <= k < |r| && r[k].id == id {
        var k :| 0 <= k < |r| && r[k] == t[id];
        assert r[k].id == id;
      }
      DistinctCount(t, ids, r, i, j);
    }
  }

  /** A listing of `|ids|` rows that covers `ids` names no id twice. */
  lemma DistinctCount(t: map<int, User>, ids: set<int>, r: seq<User>, i: int, j: int)
    requires |r| == |ids| && 0 <= i < j < |r|
    requires forall k :: 0 <= k < |r| ==> r[k].id in ids
    requires forall id :: id in ids ==> exists k :: 0 <= k < |r| && r[k].id == id
    ensures r[i].id != r[j].id
  {
    if r[i].id == r[j].id {
      var others := r[..j] + r[j + 1..];
      assert forall id :: id in ids ==> exists k :: 0 <= k < |others| && others[k].id == id by {
        forall id | id in ids ensures exists k :: 0 <= k < |others| && others[k].id == id {
          var k :| 0 <= k < |r| && r[k].id == id;
          if k < j {
            assert others[k] == r[k];
          } else if k == j {
            assert others[i] == r[i];
          } else {
            assert others[k - 1] == r[k];
          }
        }
      }
      ImageBound(others, ids);
    }
  }

  /** A sequence whose ids cover a set is at least as long as the set. */
  lemma {:induction false} ImageBound(s: seq<User>, ids: set<int>)
    requires forall id :: id in ids ==> exists k :: 0 <= k < |s| && s[k].id == id
    ensures |ids| <= |s|
  {
    if s != [] {
      var rest := ids - {s[0].id};
      assert forall id :: id in rest ==> exists k :: 0 <= k < |s[1..]| && s[1..][k].id == id by {
        forall id | id in rest ensures exists k :: 0 <= k < |s[1..]| && s[1..][k].id == id {
          var k :| 0 <= k < |s| && s[k].id == id;
          assert k != 0;
          assert s[1..][k - 1] == s[k];
        }
      }
      ImageBound(s[1..], rest);
    } else {
      assert forall id :: id !in ids;
      assert ids == {};
    }
  }

  /** `count(is_active)`: the same filter as `find_all`, counted. */
  function Total(t: map<int, User>, isActive: Option<bool>): (n: nat)
    requires KeyedById(t)
    ensures n == |Listing(t, isActive)|
  {
    |Selected(t, isActive)|
  }

  // -------------------------------------------------------------- insert

  /** The columns `create` names, in the order of its INSERT statement. */
  const InsertColumns: seq<string> := ["username", "email", "hashed_password", "full_name", "notes",
                                       "is_active", "is_superuser"]

  /** `data.get(k)`. */
  function Param(data: Dict, k: string): Json {
    match Get(data, k)
    case Some(v) => v
    case None => Null
  }

  /** The first of `names` that `data` has no key for. */
  function FirstMissing(data: Dict, names: seq<string>): (r: Option<string>)
    ensures r.None? <==> forall i :: 0 <= i < |names| ==> HasKey(data, names[i])
    ensures r.Some? ==> r.value in names && !HasKey(data, r.value)
  {
    if names == [] then None
    else if !HasKey(data, names[0]) then Some(names[0])
    else FirstMissing(data, names[1..])
  }

  function TextValue(column: string, v: Json): (r: Result<string, Failure>)
    ensures r.Ok? ==> v == Str(r.value)
    ensures r.Err? ==> r.error == if v == Null then NullValue(column) else BadValue(column)
  {
    match v
    case Str(s) => Ok(s)
    case Null => Err(NullValue(column))
    case _ => Err(BadValue(column))
  }

  function NullableText(column: string, v: Json): (r: Result<Option<string>, Failure>)
    ensures r.Ok? <==> v.Str? || v.Null?
    ensures r.Ok? ==> v == OptionalText(r.value)
  {
    match v
    case Str(s) => Ok(Some(s))
    case Null => Ok(None)
    case _ => Err(BadValue(column))
  }

  function Flag(column: string, v: Json): (r: Result<bool, Failure>)
    ensures r.Ok? ==> v == Bool(r.value)
    ensures r.Err? ==> r.error == if v == Null then NullValue(column) else BadValue(column)
  {
    match v
    case Bool(b) => Ok(b)
    case Null => Err(NullValue(column))
    case _ => Err(BadValue(column))
  }

  function Number(column: string, v: Json): (r: Result<int, Failure>)
    ensures r.Ok? ==> v == Int(r.value)
    ensures r.Err? ==> r.error == if v == Null then NullValue(column) else BadValue(column)
  {
    match v
    case Int(i) => Ok(i)
    case Null => Err(NullValue(column))
    case _ => Err(BadValue(column))
  }

  /** `COALESCE(:v, default)`. */
  function Coalesce(column: string, v: Json, default: bool): (r: Result<bool, Failure>)
    ensures r.Ok? <==> v.Bool? || v.Null?
    ensures r.Ok? ==> r.value == if v.Null? then default else v.b
  {
    if v == Null then Ok(default) else Flag(column, v)
  }

  /** The values of a complete parameter dict fit the columns they go into. */
  predicate Acceptable(data: Dict) {
    Param(data, "username").Str? && Param(data, "email").Str? && Param(data, "hashed_password").Str?
    && (Param(data, "full_name").Str? || Param(data, "full_name").Null?)
    && (Param(data, "notes").Str? || Param(data, "notes").Null?)
    && (Param(data, "is_active").Bool? || Param(data, "is_active").Null?)
    && (Param(data, "is_superuser").Bool? || Param(data, "is_superuser").Null?)
  }

  /**
   * The row `create`'s INSERT builds under the auto-increment id at time
   * `now`: every named parameter must be bound, the given values are stored
   * as they are, and a None flag takes its default (active, not superuser).
   */
  function NewUser(id: int, data: Dict, now: int): (r: Result<User, Failure>)
    ensures FirstMissing(data, InsertColumns).Some?
            ==> r == Err(MissingParameter(FirstMissing(data, InsertColumns).value))
    ensures r.Ok? <==> FirstMissing(data, InsertColumns).None? && Acceptable(data)
    ensures r.Ok? ==> r.value.id == id && r.value.createdAt == now && r.value.updatedAt == now
    ensures r.Ok? ==> Str(r.value.username) == Param(data, "username")
                      && Str(r.value.email) == Param(data, "email")
                      && Str(r.value.hashedPassword) == Param(data, "hashed_password")
                      && OptionalText(r.value.fullName) == Param(data, "full_name")
                      && OptionalText(r.value.notes) == Param(data, "notes")
    ensures r.Ok? ==> r.value.isActive == (Param(data, "is_active") != Bool(false))
    ensures r.Ok? ==> r.value.isSuperuser == (Param(data, "is_superuser") == Bool(true))
  {
    match FirstMissing(data, InsertColumns)
    case Some(name) => Err(MissingParameter(name))
    case None =>
      var username :- TextValue("username", Param(data, "username"));
      var email :- TextValue("email", Param(data, "email"));
      var hashed :- TextValue("hashed_password", Param(data, "hashed_password"));
      var fullName :- NullableText("full_name", Param(data, "full_name"));
      var notes :- NullableText("notes", Param(data, "notes"));
      var isActive :- Coalesce("is_active", Param(data, "is_active"), true);
      var isSuperuser :- Coalesce("is_superuser", Param(data, "is_superuser"), false);
      Ok(User(id, username, email, hashed, fullName, notes, isActive, isSuperuser, now, now))
  }

  /** `create`'s INSERT against the table: the new row, unless a unique index refuses it. */
  function CreateRow(t: map<int, User>, id: int, data: Dict, now: int): (r: Result<User, Failure>)
    ensures NewUser(id, data, now).Err? ==> r == NewUser(id, data, now)
    ensures r.Ok? ==> r == NewUser(id, data, now)
                      && forall o :: o in t ==> t[o].username != r.value.username && t[o].email != r.value.email
    ensures NewUser(id, data, now).Ok? && r.Err? ==>
              r.error == DuplicateEntry("username") || r.error == DuplicateEntry("email")
  {
    var u :- NewUser(id, data, now);
    if exists o :: o in t && t[o].username == u.username then Err(DuplicateEntry("username"))
    else if exists o :: o in t && t[o].email == u.email then Err(DuplicateEntry("email"))
    else Ok(u)
  }

  /** A row `create` accepts keeps the table's constraints, with the counter moved past it. */
  lemma CreateKeepsValid(t: map<int, User>, nextId: int, data: Dict, now: int)
    requires ValidTable(t, nextId) && CreateRow(t, nextId, data, now).Ok?
    ensures ValidTable(t[nextId := CreateRow(t, nextId, data, now).value], nextId + 1)
  {
    var u := CreateRow(t, nextId, data, now).value;
    var t' := t[nextId := u];
    assert nextId !in t;
    forall a, b | a in t' && b in t' && t'[a].username == t'[b].username ensures a == b {
      if a != nextId && b != nextId {
        assert t'[a] == t[a] && t'[b] == t[b];
      }
    }
    forall a, b | a in t' && b in t' && t'[a].email == t'[b].email ensures a == b {
      if a != nextId && b != nextId {
        assert t'[a] == t[a] && t'[b] == t[b];
      }
    }
  }

  /**
   * A table without the user name and without the e-mail of the new row never
   * refuses it for a duplicate.
   */
  lemma CreateAfterChecks(t: map<int, User>, id: int, data: Dict, now: int)
    requires Where(t, "username", Param(data, "username")) == {}
    requires Where(t, "email", Param(data, "email")) == {}
    ensures CreateRow(t, id, data, now) == NewUser(id, data, now)
  {
    var n := NewUser(id, data, now);
    if n.Ok? {
      forall o | o in t ensures t[o].username != n.value.username && t[o].email != n.value.email {
        assert o !in Where(t, "username", Param(data, "username"));
        assert o !in Where(t, "email", Param(data, "email"));
      }
    }
  }

  // -------------------------------------------------------------- update

  /** One `column = value` assignment of an UPDATE. */
  function Assign(u: User, c: Col, v: Json): (r: Result<User, Failure>)
    ensures r.Err? ==> r.error.NullValue? || r.error.BadValue?
  {
    match c
    case IdCol => var i :- Number(Name(c), v); Ok(u.(id := i))
    case UsernameCol => var s :- TextValue(Name(c), v); Ok(u.(username := s))
    case EmailCol => var s :- TextValue(Name(c), v); Ok(u.(email := s))
    case HashedPasswordCol => var s :- TextValue(Name(c), v); Ok(u.(hashedPassword := s))
    case FullNameCol => var o :- NullableText(Name(c), v); Ok(u.(fullName := o))
    case NotesCol => var o :- NullableText(Name(c), v); Ok(u.(notes := o))
    case IsActiveCol => var b :- Flag(Name(c), v); Ok(u.(isActive := b))
    case IsSuperuserCol => var b :- Flag(Name(c), v); Ok(u.(isSuperuser := b))
    case CreatedAtCol => var i :- Number(Name(c), v); Ok(u.(createdAt := i))
    case UpdatedAtCol => var i :- Number(Name(c), v); Ok(u.(updatedAt := i))
  }

  /** An accepted assignment changes its own column to the value and no other column. */
  lemma AssignColumn(u: User, c: Col, v: Json, d: Col)
    requires Assign(u, c, v).Ok?
    ensures Value(Assign(u, c, v).value, d) == if d == c then v else Value(u, d)
  {
  }

  /** The assignments of a SET clause, left to right, each bound from `params`. */
  function AssignAll(u: User, columns: seq<string>, params: Dict): (r: Result<User, Failure>)
    ensures r.Err? ==> r.error.UnknownColumn? || r.error.NullValue? || r.error.BadValue?
    decreases columns
  {
    if columns == [] then Ok(u)
    else
      match ColumnNamed(columns[0])
      case None => Err(UnknownColumn(columns[0]))
      case Some(c) =>
        var u' :- Assign(u, c, Param(params, columns[0]));
        AssignAll(u', columns[1..], params)
  }

  /** After the SET clause every named column holds its parameter and every other column is as it was. */
  lemma {:induction false} AssignAllColumns(u: User, columns: seq<string>, params: Dict, c: string)
    requires AssignAll(u, columns, params).Ok?
    ensures Column(AssignAll(u, columns, params).value, c)
            == if c in columns then Param(params, c) else Column(u, c)
    decreases columns
  {
    if columns != [] {
      var col := ColumnNamed(columns[0]).value;
      var u' := Assign(u, col, Param(params, columns[0])).value;
      if ColumnNamed(c).Some? {
        AssignColumn(u, col, Param(params, columns[0]), ColumnNamed(c).value);
      }
      AssignAllColumns(u', columns[1..], params, c);
      assert c in columns <==> c == columns[0] || c in columns[1..];
    }
  }

  /** The first SET target the table has no column for. */
  function FirstUnknown(columns: seq<string>): (r: Option<string>)
    ensures r.None? <==> forall i :: 0 <= i < |columns| ==> ColumnNamed(columns[i]).Some?
    ensures r.Some? ==> r.value in columns && ColumnNamed(r.value).None?
  {
    if columns == [] then None
    else if ColumnNamed(columns[0]).None? then Some(columns[0])
    else FirstUnknown(columns[1..])
  }

  /** `f"{key} = :{key}"`. */
  function Assignment(key: string): string {
    key + " = :" + key
  }

  /** `", ".join(f"{key} = :{key}" for key in keys)`. */
  function SetClause(keys: seq<string>): string {
    Join(seq(|keys|, i requires 0 <= i < |keys| => Assignment(keys[i])), ", ")
  }

  /** The statement `update` sends. */
  function UpdateStatement(keys: seq<string>): string {
    "UPDATE users SET " + SetClause(keys) + " WHERE id = :id"
  }

  /**
   * `update`'s statement against the table, with the parameters
   * `{**data, "id": id}`: the SET targets are the keys of `data`; nothing
   * happens when no row has the id; otherwise the row takes the assignments,
   * unless a unique index refuses the result.  The count is the rows matched.
   */
  function UpdateRow(t: map<int, User>, id: int, data: Dict): (r: Result<(map<int, User>, int), Failure>)
    ensures Keys(data) == [] ==> r == Err(EmptySetClause)
    ensures r.Ok? ==> r.value.0.Keys == t.Keys && r.value.1 == (if id in t then 1 else 0)
    ensures r.Ok? ==> forall o :: o in t && o != id ==> r.value.0[o] == t[o]
    ensures Keys(data) != [] && FirstUnknown(Keys(data)).None? && id !in t ==> r == Ok((t, 0))
  {
    UpdateWith(t, id, Keys(data), Insert(data, "id", Int(id)))
  }

  function UpdateWith(t: map<int, User>, id: int, columns: seq<string>, params: Dict)
    : (r: Result<(map<int, User>, int), Failure>)
    ensures columns == [] ==> r == Err(EmptySetClause)
    ensures r.Ok? ==> r.value.0.Keys == t.Keys && r.value.1 == (if id in t then 1 else 0)
    ensures r.Ok? ==> forall o :: o in t && o != id ==> r.value.0[o] == t[o]
    ensures columns != [] && FirstUnknown(columns).None? && id !in t ==> r == Ok((t, 0))
  {
    if columns == [] then Err(EmptySetClause)
    else if FirstUnknown(columns).Some? then Err(UnknownColumn(FirstUnknown(columns).value))
    else if id !in t then Ok((t, 0))
    else
      var u :- AssignAll(t[id], columns, params);
      if exists o :: o in t && o != id && t[o].username == u.username then Err(DuplicateEntry("username"))
      else if exists o :: o in t && o != id && t[o].email == u.email then Err(DuplicateEntry("email"))
      else Ok((t[id := u], 1))
  }

  /**
   * An accepted update leaves the row under its id, sets each column named in
   * `data` (other than `id`) to the given value, and leaves the others alone.
   */
  lemma UpdateSetsColumns(t: map<int, User>, id: int, data: Dict, c: string)
    requires KeyedById(t) && id in t && UpdateRow(t, id, data).Ok?
    requires c != "id"
    ensures UpdateRow(t, id, data).value.0[id].id == id
    ensures Column(UpdateRow(t, id, data).value.0[id], c)
            == if c in Keys(data) then Param(data, c) else Column(t[id], c)
  {
    var params := Insert(data, "id", Int(id));
    var u := AssignAll(t[id], Keys(data), params).value;
    assert UpdateRow(t, id, data).value.0[id] == u;
    AssignAllColumns(t[id], Keys(data), params, c);
    AssignAllColumns(t[id], Keys(data), params, "id");
    assert Column(u, "id") == Int(u.id);
  }

  /** Whatever `data` holds under "id", the statement binds `:id` to the id being updated. */
  lemma UpdateIgnoresIdKey(t: map<int, User>, id: int, data: Dict, v: Json)
    ensures UpdateRow(t, id, Insert(data, "id", v)) == UpdateRow(t, id, Insert(data, "id", Int(id)))
  {
    InsertKeys(data, "id", v);
    InsertKeys(data, "id", Int(id));
    InsertTwice(data, "id", v, Int(id));
    InsertTwice(data, "id", Int(id), Int(id));
  }

  /** An accepted update keeps the table's constraints. */
  lemma UpdateKeepsValid(t: map<int, User>, nextId: int, id: int, data: Dict)
    requires ValidTable(t, nextId) && UpdateRow(t, id, data).Ok?
    ensures ValidTable(UpdateRow(t, id, data).value.0, nextId)
  {
    var t' := UpdateRow(t, id, data).value.0;
    if id in t {
      UpdateSetsColumns(t, id, data, "username");
      var u := t'[id];
      forall a, b | a in t' && b in t' && t'[a].username == t'[b].username ensures a == b {
        if a != id && b != id {
          assert t'[a] == t[a] && t'[b] == t[b];
        }
      }
      forall a, b | a in t' && b in t' && t'[a].email == t'[b].email ensures a == b {
        if a != id && b != id {
          assert t'[a] == t[a] && t'[b] == t[b];
        }
      }
    }
  }

  /** Setting only `is_active` to False deactivates the row and changes nothing else in it. */
  lemma Deactivate(t: map<int, User>, id: int)
    requires KeyedById(t) && UniqueUsernames(t) && UniqueEmails(t) && id in t
    ensures UpdateRow(t, id, [("is_active", Bool(false))]) == Ok((t[id := t[id].(isActive := false)], 1))
  {
    var data := [("is_active", Bool(false))];
    assert Keys(data) == ["is_active"];
    var params := Insert(data, "id", Int(id));
    assert Param(params, "is_active") == Bool(false);
    var u := t[id].(isActive := false);
    assert AssignAll(t[id], ["is_active"], params) == Ok(u) by {
      assert ["is_active"][1..] == [];
    }
    assert forall o :: o in t && o != id ==> t[o].username != u.username && t[o].email != u.email;
  }

  // --------------------------------------------------- the SET clause read back

  predicate IsIdentifierChar(c: char) {
    'a' <= c <= 'z' || 'A' <= c <= 'Z' || '0' <= c <= '9' || c == '_'
  }

  /** A column name as the database's parser takes it. */
  predicate IsIdentifier(k: string) {
    k != [] && forall i :: 0 <= i < |k| ==> IsIdentifierChar(k[i])
  }

  /** The assignment targets as the database reads a SET clause: the text before each `=`, stripped. */
  function ClauseTargets(clause: string): seq<string> {
    var pieces := Split(clause, ',');
    seq(|pieces|, i requires 0 <= i < |pieces| => Target(pieces[i]))
  }

  /** The target of one assignment: the text before its `=`, stripped. */
  function Target(piece: string): string {
    Strip(Split(piece, '=')[0])
  }

  /** Items joined by ", " are the first item and the others behind a space, joined by ",". */
  lemma {:induction false} JoinCommaSpace(parts: seq<string>)
    requires |parts| >= 1
    ensures Join(parts, ", ") == Join([parts[0]] + seq(|parts| - 1, i requires 0 <= i < |parts| - 1 => " " + parts[i + 1]), ",")
  {
    var spaced := seq(|parts| - 1, i requires 0 <= i < |parts| - 1 => " " + parts[i + 1]);
    if |parts| > 1 {
      var tail := parts[1..];
      JoinCommaSpace(tail);
      var tailSpaced := seq(|tail| - 1, i requires 0 <= i < |tail| - 1 => " " + tail[i + 1]);
      assert spaced == [" " + tail[0]] + tailSpaced;
      var whole := [parts[0]] + spaced;
      assert whole[1..] == [" " + tail[0]] + tailSpaced;
      assert Join(whole, ",") == parts[0] + "," + Join([" " + tail[0]] + tailSpaced, ",");
      JoinFirst(" ", tail[0], tailSpaced, ",");
    } else {
      assert [parts[0]] + spaced == [parts[0]];
    }
  }

  /** Text in front of the first item of a join stays in front of the whole join. */
  lemma JoinFirst(a: string, p: string, rest: seq<string>, sep: string)
    ensures Join([a + p] + rest, sep) == a + Join([p] + rest, sep)
  {
    assert ([a + p] + rest)[1..] == rest;
    assert ([p] + rest)[1..] == rest;
  }

  /** One assignment, alone or behind a space: no comma, and its target read back is the key. */
  lemma AssignmentTarget(lead: string, k: string)
    requires lead == "" || lead == " "
    requires IsIdentifier(k)
    ensures ',' !in lead + Assignment(k)
    ensures Target(lead + Assignment(k)) == k
  {
    assert IsIdentifierChar(k[0]) && IsIdentifierChar(k[|k| - 1]);
    var front := lead + k + " ";
    var back := " :" + k;
    var s := lead + Assignment(k);
    assert s == front + ['='] + back;
    forall j | 0 <= j < |front| ensures front[j] != '=' && front[j] != ',' {
      if |lead| <= j < |lead| + |k| {
        assert front[j] == k[j - |lead|] && IsIdentifierChar(k[j - |lead|]);
      }
    }
    forall j | 0 <= j < |back| ensures back[j] != ',' {
      if j >= 2 {
        assert back[j] == k[j - 2] && IsIdentifierChar(k[j - 2]);
      }
    }
    forall j | 0 <= j < |s| ensures s[j] != ',' {
      if j < |front| {
        assert s[j] == front[j];
      } else if j > |front| {
        assert s[j] == back[j - |front| - 1];
      }
    }
    SplitAtSeparator(front, '=', back);
    StripSurrounded(lead, k, " ");
    assert lead + k + " " == front;
  }

  /** The pieces of the SET clause between its commas: the first assignment, then the others behind a space. */
  function ClausePieces(keys: seq<string>): (pieces: seq<string>)
    requires |keys| >= 1
    ensures |pieces| == |keys|
  {
    [Assignment(keys[0])] + seq(|keys| - 1, i requires 0 <= i < |keys| - 1 => " " + Assignment(keys[i + 1]))
  }

  lemma ClausePiecesJoin(keys: seq<string>)
    requires |keys| >= 1
    ensures SetClause(keys) == Join(ClausePieces(keys), ",")
  {
    var assignments := seq(|keys|, i requires 0 <= i < |keys| => Assignment(keys[i]));
    JoinCommaSpace(assignments);
    assert [assignments[0]]
           + seq(|assignments| - 1, i requires 0 <= i < |assignments| - 1 => " " + assignments[i + 1])
           == ClausePieces(keys);
  }

  lemma ClausePiecesTargets(keys: seq<string>)
    requires |keys| >= 1
    requires forall i :: 0 <= i < |keys| ==> IsIdentifier(keys[i])
    ensures forall i :: 0 <= i < |keys| ==> ',' !in ClausePieces(keys)[i] && Target(ClausePieces(keys)[i]) == keys[i]
  {
    forall i | 0 <= i < |keys| ensures ',' !in ClausePieces(keys)[i] && Target(ClausePieces(keys)[i]) == keys[i] {
      PieceTarget(keys, i);
    }
  }

  lemma PieceTarget(keys: seq<string>, i: int)
    requires 0 <= i < |keys| && IsIdentifier(keys[i])
    ensures ',' !in ClausePieces(keys)[i] && Target(ClausePieces(keys)[i]) == keys[i]
  {
    var lead := if i == 0 then "" else " ";
    assert ClausePieces(keys)[i] == lead + Assignment(keys[i]);
    AssignmentTarget(lead, keys[i]);
  }

  /** The database reads back exactly the keys `update` wrote into its SET clause, in order. */
  lemma SetClauseTargets(keys: seq<string>)
    requires |keys| >= 1
    requires forall i :: 0 <= i < |keys| ==> IsIdentifier(keys[i])
    ensures ClauseTargets(SetClause(keys)) == keys
  {
    var pieces := ClausePieces(keys);
    ClausePiecesJoin(keys);
    ClausePiecesTargets(keys);
    forall i | 0 <= i < |pieces| ensures ',' !in pieces[i] {
    }
    SplitJoin(pieces, ',');
    assert Split(SetClause(keys), ',') == pieces;
  }

  /** The clause is empty exactly when `data` has no keys. */
  lemma SetClauseEmpty(keys: seq<string>)
    ensures SetClause(keys) == "" <==> keys == []
  {
    if keys != [] {
      var assignments := seq(|keys|, i requires 0 <= i < |keys| => Assignment(keys[i]));
      assert |assignments[0]| >= 4;
      if |keys| > 1 {
        assert |SetClause(keys)| >= |assignments[0]|;
      }
    }
  }

  // --------------------------------------------------------------- delete

  /** `delete`'s statement keeps the table's constraints. */
  lemma DeleteKeepsValid(t: map<int, User>, nextId: int, id: int)
    requires ValidTable(t, nextId)
    ensures ValidTable(t - {id}, nextId)
  {
  }

  // ---------------------------------------------------------- the model

  /** `UserModel`: the users table behind one database connection. */
  class UserModel {
    var table: map<int, User>
    var nextId: int

    ghost predicate Valid()
      reads this
    {
      ValidTable(table, nextId)
    }

    /** The model over the table as it stands when it connects. */
    constructor(rows: map<int, User>, next: int)
      requires ValidTable(rows, next)
      ensures Valid() && table == rows && nextId == next
    {
      table := rows;
      nextId := next;
    }

    function FindById(id: int): Option<User>
      reads this
      requires Valid()
    {
      Lookup(table, "id", Int(id))
    }

    function FindByUsername(username: Json): Option<User>
      reads this
      requires Valid()
    {
      Lookup(table, "username", username)
    }

    function FindByEmail(email: Json): Option<User>
      reads this
      requires Valid()
    {
      Lookup(table, "email", email)
    }

    function FindAll(isActive: Option<bool>): seq<User>
      reads this
      requires Valid()
    {
      Listing(table, isActive)
    }

    function Count(isActive: Option<bool>): nat
      reads this
      requires Valid()
    {
      Total(table, isActive)
    }

    /** `create`: inserts the row under the next id and returns that id. */
    method Create(data: Dict, now: int) returns (r: Result<int, Failure>)
      requires Valid()
      modifies this
      ensures Valid()
      ensures var c := CreateRow(old(table), old(nextId), data, now);
              if c.Ok? then r == Ok(old(nextId)) && table == old(table)[old(nextId) := c.value]
                            && nextId == old(nextId) + 1
              else r == Err(c.error) && table == old(table) && nextId == old(nextId)
    {
      var c := CreateRow(table, nextId, data, now);
      if c.Err? {
        return Err(c.error);
      }
      CreateKeepsValid(table, nextId, data, now);
      var id := nextId;
      table := table[id := c.value];
      nextId := nextId + 1;
      r := Ok(Db.WriteResult(id, 1));
    }

    /** `update`: applies the SET clause built from `data` to the row `id`; returns the rows matched. */
    method Update(id: int, data: Dict) returns (r: Result<int, Failure>)
      requires Valid()
      modifies this
      ensures Valid() && nextId == old(nextId)
      ensures var u := UpdateRow(old(table), id, data);
              if u.Ok? then r == Ok(u.value.1) && table == u.value.0
              else r == Err(u.error) && table == old(table)
    {
      var u := UpdateRow(table, id, data);
      if u.Err? {
        return Err(u.error);
      }
      UpdateKeepsValid(table, nextId, id, data);
      table := u.value.0;
      r := Ok(Db.WriteResult(0, u.value.1));
    }

    /** `delete`: removes the row `id`; returns the rows removed. */
    method Delete(id: int) returns (n: int)
      requires Valid()
      modifies this
      ensures Valid() && nextId == old(nextId)
      ensures table == old(table) - {id}
      ensures n == if id in old(table) then 1 else 0
    {
      n := if id in table then 1 else 0;
      table := table - {id};
      n := Db.WriteResult(0, n);
    }
  }
}
