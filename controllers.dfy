/**
 * `UserController` (app/controllers/user_controller.py): the business rules in
 * front of `UserModel` — 404 for a missing user, 409 for a user name or
 * e-mail already in use, soft and hard delete.
 */
module Controllers {
  import opened Wrappers
  import opened Json
  import opened Exceptions
  import opened Users

  /**
   * What a controller operation raises: an `AppHttpException`, the error the
   * database reports for a refused statement, or the `KeyError` of
   * `user_data["username"]`.
   */
  datatype Error = Raise(raised: Raised) | StoreFailed(failure: Failure) | KeyError(key: string)

  const NotFoundMessage: string := "Usuario no encontrado"
  const UsernameTakenMessage: string := "El username ya está en uso"
  const EmailTakenMessage: string := "El email ya está en uso"

  /** The 404 for a user that does not exist, with the looked-up key as context. */
  function NotFound(key: string, value: Json): Raised {
    Raised(NotFoundMessage, 404, [(key, value)])
  }

  /** The 409 for a value already in use, with that value as context. */
  function Conflict(message: string, key: string, value: Json): Raised {
    Raised(message, 409, [(key, value)])
  }

  /** `update_user`'s refusal: the new e-mail belongs to a row with another id. */
  predicate EmailHeldByOther(t: map<int, User>, id: int, data: Dict) {
    HasKey(data, "email")
    && exists o :: o in t && o != id && Column(t[o], "email") == Param(data, "email")
  }

  /** A user may keep, or resend, their own e-mail. */
  lemma OwnEmailAllowed(t: map<int, User>, id: int, data: Dict)
    requires UniqueEmails(t) && id in t
    requires Param(data, "email") == Str(t[id].email)
    ensures !EmailHeldByOther(t, id, data)
  {
    forall o | o in t && o != id ensures Column(t[o], "email") != Param(data, "email") {
      assert t[o].email != t[id].email;
    }
  }

  /**
   * Once the e-mail check has passed, the update is never refused for a
   * duplicate e-mail: the check and the unique index agree.
   */
  lemma UpdateAfterEmailCheck(t: map<int, User>, id: int, data: Dict)
    requires KeyedById(t) && UniqueEmails(t) && id in t
    requires !EmailHeldByOther(t, id, data)
    ensures UpdateRow(t, id, data) != Err(DuplicateEntry("email"))
  {
    var params := Insert(data, "id", Int(id));
    var keys := Keys(data);
    assert UpdateRow(t, id, data) == UpdateWith(t, id, keys, params);
    if keys != [] && FirstUnknown(keys).None? && AssignAll(t[id], keys, params).Ok? {
      var u := AssignAll(t[id], keys, params).value;
      AssignAllColumns(t[id], keys, params, "email");
      assert Param(params, "email") == Param(data, "email");
      forall o | o in t && o != id ensures t[o].email != u.email {
        if "email" in keys {
          assert HasKey(data, "email");
          assert Column(t[o], "email") != Param(data, "email");
          assert Column(u, "email") == Param(data, "email");
        } else {
          assert Column(u, "email") == Column(t[id], "email");
        }
      }
      assert !exists o :: o in t && o != id && t[o].email == u.email;
    }
  }

  /** `UserController`: the rules in front of one `UserModel`. */
  class UserController {
    const model: UserModel

    constructor(rows: map<int, User>, nextId: int)
      requires ValidTable(rows, nextId)
      ensures fresh(model) && model.Valid() && model.table == rows && model.nextId == nextId
    {
      model := new UserModel(rows, nextId);
    }

    /** `get_user`: the stored row, or a 404 naming the id. */
    function GetUser(id: int): (r: Result<User, Error>)
      reads model
      requires model.Valid()
      ensures r.Ok? <==> id in model.table
      ensures r.Ok? ==> r.value == model.table[id]
      ensures r.Err? ==> r.error == Raise(NotFound("user_id", Int(id)))
    {
      LookupId(model.table, id);
      match model.FindById(id)
      case None => Err(Raise(NotFound("user_id", Int(id))))
      case Some(u) => Ok(u)
    }

    /** `get_user_by_username`: the row holding the name, or a 404 naming it. */
    function GetUserByUsername(username: string): (r: Result<User, Error>)
      reads model
      requires model.Valid()
      ensures r.Ok? <==> exists id :: id in model.table && model.table[id].username == username
      ensures r.Ok? ==> r.value.id in model.table && model.table[r.value.id] == r.value
                        && r.value.username == username
      ensures r.Err? ==> r.error == Raise(NotFound("username", Str(username)))
    {
      var t := model.table;
      assert forall id :: id in t ==> (id in Where(t, "username", Str(username)) <==> t[id].username == username);
      match model.FindByUsername(Str(username))
      case None => Err(Raise(NotFound("username", Str(username))))
      case Some(u) =>
        assert u.id in Where(t, "username", Str(username));
        Ok(u)
    }

    /** `list_users`: the users the flag selects, newest first. */
    function ListUsers(isActive: Option<bool>): (r: seq<User>)
      reads model
      requires model.Valid()
      ensures forall i :: 0 <= i < |r| ==>
                r[i].id in model.table && model.table[r[i].id] == r[i] && Matches(r[i], isActive)
      ensures forall id :: id in model.table && Matches(model.table[id], isActive) ==> model.table[id] in r
      ensures forall i, j :: 0 <= i < j < |r| ==> r[i].createdAt >= r[j].createdAt && r[i].id != r[j].id
    {
      model.FindAll(isActive)
    }

    /**
     * `create_user`: a taken user name is refused before the e-mail is looked
     * at, then a taken e-mail; otherwise the row is inserted and returned as
     * stored.  The table changes only on success.
     */
    method CreateUser(data: Dict, now: int) returns (r: Result<User, Error>)
      requires model.Valid()
      modifies model
      ensures model.Valid()
      ensures !HasKey(data, "username") ==> r == Err(KeyError("username")) && model.table == old(model.table)
      ensures HasKey(data, "username") && Where(old(model.table), "username", Param(data, "username")) != {}
              ==> r == Err(Raise(Conflict(UsernameTakenMessage, "username", Param(data, "username"))))
                  && model.table == old(model.table)
      ensures HasKey(data, "username") && Where(old(model.table), "username", Param(data, "username")) == {}
              && Where(old(model.table), "email", Param(data, "email")) != {}
              ==> r == Err(Raise(Conflict(EmailTakenMessage, "email", Param(data, "email"))))
                  && model.table == old(model.table)
      ensures HasKey(data, "username") && Where(old(model.table), "username", Param(data, "username")) == {}
              && Where(old(model.table), "email", Param(data, "email")) == {}
              ==> var n := NewUser(old(model.nextId), data, now);
                  if n.Ok? then r == Ok(n.value) && model.table == old(model.table)[old(model.nextId) := n.value]
                  else r == Err(StoreFailed(n.error)) && model.table == old(model.table)
    {
      if !HasKey(data, "username") {
        return Err(KeyError("username"));
      }
      var username := Param(data, "username");
      var existing := model.FindByUsername(username);
      if existing.Some? {
        return Err(Raise(Conflict(UsernameTakenMessage, "username", username)));
      }
      var email := Param(data, "email");
      var existingEmail := model.FindByEmail(email);
      if existingEmail.Some? {
        return Err(Raise(Conflict(EmailTakenMessage, "email", email)));
      }
      CreateAfterChecks(model.table, model.nextId, data, now);
      var created := model.Create(data, now);
      if created.Err? {
        return Err(StoreFailed(created.error));
      }
      LookupId(model.table, created.value);
      var user := model.FindById(created.value);
      return Ok(user.value);
    }

    /**
     * `update_user`: 404 for a missing id; 409 when `data` carries an e-mail
     * that another user holds; otherwise the update, and the row as stored.
     */
    method UpdateUser(id: int, data: Dict) returns (r: Result<User, Error>)
      requires model.Valid()
      modifies model
      ensures model.Valid()
      ensures id !in old(model.table) ==> r == Err(Raise(NotFound("user_id", Int(id))))
                                          && model.table == old(model.table)
      ensures id in old(model.table) && EmailHeldByOther(old(model.table), id, data)
              ==> r == Err(Raise(Conflict(EmailTakenMessage, "email", Param(data, "email"))))
                  && model.table == old(model.table)
      ensures id in old(model.table) && !EmailHeldByOther(old(model.table), id, data)
              ==> var u := UpdateRow(old(model.table), id, data);
                  if u.Ok? then r == Ok(u.value.0[id]) && model.table == u.value.0
                  else r == Err(StoreFailed(u.error)) && model.table == old(model.table)
    {
      var found := GetUser(id);
      if found.Err? {
        return Err(found.error);
      }
      if HasKey(data, "email") {
        var email := Param(data, "email");
        var existing := model.FindByEmail(email);
        if existing.Some? && existing.value.id != id {
          return Err(Raise(Conflict(EmailTakenMessage, "email", email)));
        }
        assert !EmailHeldByOther(model.table, id, data) by {
          forall o | o in model.table && o != id ensures Column(model.table[o], "email") != email {
            assert o in Where(model.table, "email", email) <==> Column(model.table[o], "email") == email;
          }
        }
      }
      var updated := model.Update(id, data);
      if updated.Err? {
        return Err(StoreFailed(updated.error));
      }
      LookupId(model.table, id);
      var user := model.FindById(id);
      return Ok(user.value);
    }

    /** `delete_user`: a soft delete — the row stays, with `is_active` False. */
    method DeleteUser(id: int) returns (r: Result<(), Error>)
      requires model.Valid()
      modifies model
      ensures model.Valid()
      ensures id !in old(model.table) ==> r == Err(Raise(NotFound("user_id", Int(id))))
                                          && model.table == old(model.table)
      ensures id in old(model.table) ==>
                r == Ok(()) && model.table == old(model.table)[id := old(model.table)[id].(isActive := false)]
    {
      var found := GetUser(id);
      if found.Err? {
        return Err(found.error);
      }
      Deactivate(model.table, id);
      var _ := model.Update(id, [("is_active", Bool(false))]);
      return Ok(());
    }

    /** `hard_delete_user`: the row is removed, so looking it up afterwards is a 404. */
    method HardDeleteUser(id: int) returns (r: Result<(), Error>)
      requires model.Valid()
      modifies model
      ensures model.Valid()
      ensures id !in old(model.table) ==> r == Err(Raise(NotFound("user_id", Int(id))))
                                          && model.table == old(model.table)
      ensures id in old(model.table) ==> r == Ok(()) && model.table == old(model.table) - {id}
      ensures GetUser(id) == Err(Raise(NotFound("user_id", Int(id))))
    {
      var found := GetUser(id);
      if found.Err? {
        return Err(found.error);
      }
      var _ := model.Delete(id);
      return Ok(());
    }
  }
}
