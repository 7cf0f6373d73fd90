/**
 * The template store behind the create, update, get-by-id and render routes
 * (routes/templates.js, routes/templateById.js): the template collection,
 * the user collection with each user's `all`/`fav`/`recents` id lists, and
 * the request handlers as methods that update them.
 */
module Store {
  import opened Wrappers
  import opened Schema
  import opened Users
  import opened IdLists
  import opened Render

  // ---------------------------------------------------------------------
  // The consistency the handlers maintain between the two collections.
  // ---------------------------------------------------------------------

  /** User `u`'s lists: no duplicates, at most five recents, favourites and recents among `all`, `all` its own templates. */
  ghost predicate ListsOk(u: Id, l: TemplateLists, templates: map<Id, Template>)
  {
    NoDup(l.all) && NoDup(l.fav) && NoDup(l.recents) && |l.recents| <= RecentsCap &&
    (forall x :: x in l.fav ==> x in l.all) &&
    (forall x :: x in l.recents ==> x in l.all) &&
    (forall x :: x in l.all ==> x in templates && templates[x].owner == u)
  }

  /** Template `id` is valid, its owner exists and lists it, and its flag agrees with the owner's `fav`. */
  ghost predicate TemplateOk(id: Id, t: Template, users: map<Id, User>)
  {
    WellFormed(t) && t.owner in users &&
    id in users[t.owner].templates.all &&
    (t.isFavorite <==> id in users[t.owner].templates.fav)
  }

  /** Every template has an id below `nextId` and is consistent with its owner. */
  ghost predicate TemplatesOk(users: map<Id, User>, templates: map<Id, Template>, nextId: nat)
  {
    forall id :: id in templates ==> id < nextId && TemplateOk(id, templates[id], users)
  }

  /** Every user has an id below `nextId` and consistent lists. */
  ghost predicate AllListsOk(users: map<Id, User>, templates: map<Id, Template>, nextId: nat)
  {
    forall u :: u in users ==> u < nextId && ListsOk(u, users[u].templates, templates)
  }

  /** No two users share an email: the unique index. */
  ghost predicate EmailsUnique(users: map<Id, User>)
  {
    forall u, v :: u in users && v in users && u != v ==> users[u].email != users[v].email
  }

  /** The consistency of the store. */
  ghost predicate Consistent(users: map<Id, User>, templates: map<Id, Template>, nextId: nat)
  {
    TemplatesOk(users, templates, nextId) && AllListsOk(users, templates, nextId) && EmailsUnique(users)
  }

  /** The users after user `u`'s template lists become `l`. */
  function WithLists(users: map<Id, User>, u: Id, l: TemplateLists): (r: map<Id, User>)
    requires u in users
    ensures r.Keys == users.Keys
    ensures forall v :: v in users && v != u ==> r[v] == users[v]
    ensures r[u] == users[u].(templates := l)
  {
    users[u := users[u].(templates := l)]
  }

  /** Changing a user's lists keeps the emails as they were. */
  lemma WithListsKeepsEmails(users: map<Id, User>, u: Id, l: TemplateLists)
    requires u in users && EmailsUnique(users)
    ensures EmailsUnique(WithLists(users, u, l))
  {
  }

  /** An email some stored user already has. */
  predicate EmailTaken(users: map<Id, User>, email: string)
  {
    exists u | u in users :: users[u].email == email
  }

  // ---------------------------------------------------------------------
  // The list and field updates.
  // ---------------------------------------------------------------------

  /**
   * The `$push` of a successful create: the id is appended to `all`,
   * appended to `fav` when the template is a favourite, and pushed to the
   * front of `recents`, which keeps its first five entries.
   */
  function CreateLists(l: TemplateLists, id: Id, isFavorite: bool): TemplateLists
  {
    TemplateLists(l.all + [id], if isFavorite then l.fav + [id] else l.fav, PushFront(l.recents, id))
  }

  /**
   * The favourite list after an update: untouched unless `isFavorite` is
   * given and differs from the stored flag; then `$addToSet` for true and
   * `$pull` for false. When the stored flag agreed with the list before, the
   * new flag agrees with it after; no other id changes membership.
   */
  function UpdateFav(fav: seq<Id>, id: Id, stored: bool, isFavorite: Option<bool>): (r: seq<Id>)
    ensures (stored <==> id in fav) ==> (id in r <==> isFavorite.GetOr(stored))
    ensures forall y :: y != id ==> (y in r <==> y in fav)
    ensures NoDup(fav) ==> NoDup(r)
    ensures isFavorite.None? || isFavorite.value == stored ==> r == fav
  {
    if isFavorite.Some? && isFavorite.value != stored then
      if isFavorite.value then AddToSet(fav, id) else Pull(fav, id)
    else fav
  }

  /** The lists after an update: `all` is kept, `fav` as `UpdateFav`, the id moved to the front of `recents`. */
  function UpdateLists(l: TemplateLists, id: Id, stored: bool, isFavorite: Option<bool>): TemplateLists
  {
    TemplateLists(l.all, UpdateFav(l.fav, id, stored, isFavorite), Touch(l.recents, id))
  }

  /**
   * The template after an update: a non-empty `name`, a supplied (already
   * cast) `content` and a defined `isFavorite` replace the stored values;
   * everything else is kept.
   */
  function PatchTemplate(t: Template, name: string, content: Option<seq<Block>>, isFavorite: Option<bool>): (r: Template)
    ensures r.owner == t.owner
    ensures r.name == if name == "" then t.name else name
    ensures r.content == if content.None? then t.content else content.value
    ensures r.isFavorite == isFavorite.GetOr(t.isFavorite)
    ensures WellFormed(t) && (content.Some? ==> Typed(content.value))
            ==> WellFormed(r)
  {
    Template(if name == "" then t.name else name, t.owner,
             if content.Some? then content.value else t.content,
             isFavorite.GetOr(t.isFavorite))
  }

  // ---------------------------------------------------------------------
  // Outcomes.
  // ---------------------------------------------------------------------

  /** The sizes of the requester's lists that create and update report. */
  datatype Counts = Counts(templatesCount: nat, favoritesCount: nat, recentsCount: nat)

  function CountsOf(l: TemplateLists): (r: Counts)
    ensures r.templatesCount == |l.all| && r.favoritesCount == |l.fav| && r.recentsCount == |l.recents|
  {
    Counts(|l.all|, |l.fav|, |l.recents|)
  }

  datatype AddUserResult =
    | UserAdded(id: Id)      // the user document was saved
    | UserInvalid(errors: set<UserField>)
    | DuplicateEmail         // the unique index on `email` refused it

  datatype CreateResult =
    | Created(id: Id, template: Template, counts: Counts)  // 201
    | CreateUserNotFound                                  // 404
    | CreateInvalid                                       // 400, a validation error
    | CreateFailed                                        // 500, the user update failed and was rolled back

  datatype UpdateResult =
    | Updated(template: Template, counts: Counts)  // 200
    | NothingToUpdate                             // 400
    | UpdateNotFound                              // 404
    | UpdateFailed                                // 500

  datatype GetResult =
    | Found(name: string, content: seq<Block>, isFavorite: bool, owner: Id)  // 200
    | NotFound(templateExists: bool, userMatch: bool)                       // 404 with its debug flags

  // ---------------------------------------------------------------------
  // Each successful step keeps the collections consistent.
  // ---------------------------------------------------------------------

  /** A new user with empty lists under a fresh id leaves the templates and the other lists consistent. */
  lemma AddUserListsOk(users: map<Id, User>, templates: map<Id, Template>, nextId: nat, user: User)
    requires TemplatesOk(users, templates, nextId) && AllListsOk(users, templates, nextId)
    requires user.templates == TemplateLists([], [], [])
    ensures TemplatesOk(users[nextId := user], templates, nextId + 1)
    ensures AllListsOk(users[nextId := user], templates, nextId + 1)
  {
    var users' := users[nextId := user];
    forall id | id in templates
      ensures id < nextId + 1 && TemplateOk(id, templates[id], users')
    {
      assert TemplateOk(id, templates[id], users);
      assert templates[id].owner < nextId;
    }
    forall u | u in users'
      ensures u < nextId + 1 && ListsOk(u, users'[u].templates, templates)
    {
      if u != nextId {
        assert ListsOk(u, users[u].templates, templates);
      }
    }
  }

  /** A user with an unused email keeps the emails unique. */
  lemma AddUserEmailsOk(users: map<Id, User>, nextId: nat, user: User)
    requires EmailsUnique(users) && nextId !in users
    requires !EmailTaken(users, user.email)
    ensures EmailsUnique(users[nextId := user])
  {
    var users' := users[nextId := user];
    forall u, v | u in users' && v in users' && u != v
      ensures users'[u].email != users'[v].email
    {
      if u == nextId {
        assert users[v].email != user.email;
      } else if v == nextId {
        assert users[u].email != user.email;
      } else {
        assert users'[u] == users[u] && users'[v] == users[v];
      }
    }
  }

  /** Adding a user with empty lists under a fresh id and an unused email keeps the store consistent. */
  lemma AddUserPreserves(users: map<Id, User>, templates: map<Id, Template>, nextId: nat, user: User)
    requires Consistent(users, templates, nextId)
    requires user.templates == TemplateLists([], [], [])
    requires !EmailTaken(users, user.email)
    ensures Consistent(users[nextId := user], templates, nextId + 1)
  {
    AddUserListsOk(users, templates, nextId, user);
    assert nextId !in users;
    AddUserEmailsOk(users, nextId, user);
  }

  /** After a create, the new template is consistent with its owner and the others are unaffected. */
  lemma CreateTemplatesOk(users: map<Id, User>, templates: map<Id, Template>, nextId: nat, t: Template)
    requires TemplatesOk(users, templates, nextId) && AllListsOk(users, templates, nextId)
    requires t.owner in users && WellFormed(t)
    ensures TemplatesOk(WithLists(users, t.owner, CreateLists(users[t.owner].templates, nextId, t.isFavorite)),
                        templates[nextId := t], nextId + 1)
  {
    var u, id := t.owner, nextId;
    var l := users[u].templates;
    var users' := WithLists(users, u, CreateLists(l, id, t.isFavorite));
    var templates' := templates[id := t];
    assert ListsOk(u, l, templates);
    assert id !in l.fav;
    forall x | x in templates'
      ensures x < nextId + 1 && TemplateOk(x, templates'[x], users')
    {
      if x != id {
        assert TemplateOk(x, templates[x], users);
      }
    }
  }

  /** After a create, the owner's lists stay consistent and the other users' lists are unaffected. */
  lemma CreateListsOk(users: map<Id, User>, templates: map<Id, Template>, nextId: nat, t: Template)
    requires TemplatesOk(users, templates, nextId) && AllListsOk(users, templates, nextId)
    requires t.owner in users
    ensures AllListsOk(WithLists(users, t.owner, CreateLists(users[t.owner].templates, nextId, t.isFavorite)),
                       templates[nextId := t], nextId + 1)
  {
    var u, id := t.owner, nextId;
    var l := users[u].templates;
    var l' := CreateLists(l, id, t.isFavorite);
    var users' := WithLists(users, u, l');
    var templates' := templates[id := t];
    assert ListsOk(u, l, templates);
    assert id !in l.all && id !in l.fav && id !in l.recents;
    assert NoDup(l'.all) && NoDup(l'.fav) && NoDup(l'.recents);
    assert ListsOk(u, l', templates') by {
      forall x | x in l'.all
        ensures x in templates' && templates'[x].owner == u
      {
        if x != id {
          assert x in l.all;
        }
      }
    }
    forall v | v in users'
      ensures v < nextId + 1 && ListsOk(v, users'[v].templates, templates')
    {
      if v != u {
        var lv := users[v].templates;
        assert ListsOk(v, lv, templates);
        forall x | x in lv.all
          ensures x in templates' && templates'[x].owner == v
        {
          assert x in templates && x != id;
        }
      }
    }
  }

  /** Creating a valid template owned by an existing user, under a fresh id, keeps the store consistent. */
  lemma CreatePreserves(users: map<Id, User>, templates: map<Id, Template>, nextId: nat, t: Template)
    requires Consistent(users, templates, nextId)
    requires t.owner in users && WellFormed(t)
    ensures Consistent(WithLists(users, t.owner, CreateLists(users[t.owner].templates, nextId, t.isFavorite)),
                       templates[nextId := t], nextId + 1)
  {
    CreateTemplatesOk(users, templates, nextId, t);
    CreateListsOk(users, templates, nextId, t);
    WithListsKeepsEmails(users, t.owner, CreateLists(users[t.owner].templates, nextId, t.isFavorite));
  }

  /** After an update, the patched template agrees with the new `fav`, and the others are unaffected. */
  lemma UpdateTemplatesOk(users: map<Id, User>, templates: map<Id, Template>, nextId: nat,
                          id: Id, name: string, content: Option<seq<Block>>, isFavorite: Option<bool>)
    requires TemplatesOk(users, templates, nextId) && id in templates
    requires content.Some? ==> Typed(content.value)
    ensures var t := templates[id];
            TemplatesOk(WithLists(users, t.owner, UpdateLists(users[t.owner].templates, id, t.isFavorite, isFavorite)),
                        templates[id := PatchTemplate(t, name, content, isFavorite)], nextId)
  {
    var t := templates[id];
    var u := t.owner;
    assert TemplateOk(id, t, users);
    var l := users[u].templates;
    var l' := UpdateLists(l, id, t.isFavorite, isFavorite);
    var users' := WithLists(users, u, l');
    var templates' := templates[id := PatchTemplate(t, name, content, isFavorite)];
    forall x | x in templates'
      ensures x < nextId && TemplateOk(x, templates'[x], users')
    {
      if x != id {
        assert TemplateOk(x, templates[x], users);
        if templates[x].owner == u {
          assert x in l'.fav <==> x in l.fav;
        }
      }
    }
  }

  /** After an update, the owner's lists stay consistent and the other users' lists are unaffected. */
  lemma UpdateListsOk(users: map<Id, User>, templates: map<Id, Template>, nextId: nat,
                      id: Id, name: string, content: Option<seq<Block>>, isFavorite: Option<bool>)
    requires TemplatesOk(users, templates, nextId) && AllListsOk(users, templates, nextId) && id in templates
    ensures var t := templates[id];
            AllListsOk(WithLists(users, t.owner, UpdateLists(users[t.owner].templates, id, t.isFavorite, isFavorite)),
                       templates[id := PatchTemplate(t, name, content, isFavorite)], nextId)
  {
    var t := templates[id];
    var u := t.owner;
    assert TemplateOk(id, t, users);
    var l := users[u].templates;
    var l' := UpdateLists(l, id, t.isFavorite, isFavorite);
    var users' := WithLists(users, u, l');
    var templates' := templates[id := PatchTemplate(t, name, content, isFavorite)];
    assert ListsOk(u, l, templates);
    assert ListsOk(u, l', templates') by {
      forall x | x in l'.fav
        ensures x in l'.all
      {
        if x != id {
          assert x in l.fav;
        }
      }
      forall x | x in l'.recents
        ensures x in l'.all
      {
        if x != id {
          assert x in l.recents;
        }
      }
    }
    forall v | v in users'
      ensures v < nextId && ListsOk(v, users'[v].templates, templates')
    {
      if v != u {
        var lv := users[v].templates;
        assert ListsOk(v, lv, templates);
        forall x | x in lv.all
          ensures x in templates' && templates'[x].owner == v
        {
          assert x in templates;
        }
      }
    }
  }

  /** Every template's owner is a stored user. */
  lemma OwnerExists(users: map<Id, User>, templates: map<Id, Template>, nextId: nat, id: Id)
    requires TemplatesOk(users, templates, nextId) && id in templates
    ensures templates[id].owner in users
  {
    assert TemplateOk(id, templates[id], users);
  }

  /** Updating a template, with content that validated, keeps the store consistent. */
  lemma UpdatePreserves(users: map<Id, User>, templates: map<Id, Template>, nextId: nat,
                        id: Id, name: string, content: Option<seq<Block>>, isFavorite: Option<bool>)
    requires Consistent(users, templates, nextId)
    requires id in templates
    requires content.Some? ==> Typed(content.value)
    ensures var t := templates[id];
            Consistent(WithLists(users, t.owner, UpdateLists(users[t.owner].templates, id, t.isFavorite, isFavorite)),
                       templates[id := PatchTemplate(t, name, content, isFavorite)], nextId)
  {
    var t := templates[id];
    assert TemplateOk(id, t, users);
    UpdateTemplatesOk(users, templates, nextId, id, name, content, isFavorite);
    UpdateListsOk(users, templates, nextId, id, name, content, isFavorite);
    WithListsKeepsEmails(users, t.owner, UpdateLists(users[t.owner].templates, id, t.isFavorite, isFavorite));
  }

  // ---------------------------------------------------------------------
  // The update in the order routes/templateById.js performs it.
  // ---------------------------------------------------------------------

  /**
   * The update handler step by step as written: after the 400 and 404
   * checks, the requester's `fav` is written, and only then is the template
   * updated with validation on, which can throw; the thrown error is answered
   * with 500 and nothing written before it is undone. On success the id then
   * moves to the front of `recents`. A requester without a user document
   * (which a consistent store does not have for an owned template) gets the
   * template patched and then 500 when the missing user's counts are read.
   */
  function UpdateAsWritten(users: map<Id, User>, templates: map<Id, Template>, id: Id, requester: Id,
                           name: string, content: Option<seq<BlockInput>>, isFavorite: Option<bool>)
    : (r: (map<Id, User>, map<Id, Template>, UpdateResult))
    ensures r.2 == UpdateFailed && requester in users ==>
              id in templates && r.1 == templates && content.Some? && CastBlocks(content.value).None? &&
              r.0 == WithLists(users, requester,
                               users[requester].templates.(fav := UpdateFav(users[requester].templates.fav, id,
                                                                            templates[id].isFavorite, isFavorite)))
    ensures r.2.Updated? ==>
              id in templates && requester in users &&
              r.0 == WithLists(users, requester, UpdateLists(users[requester].templates, id, templates[id].isFavorite, isFavorite))
  {
    if name == "" && content.None? && isFavorite.None? then (users, templates, NothingToUpdate)
    else if !(id in templates && templates[id].owner == requester) then (users, templates, UpdateNotFound)
    else
      var t := templates[id];
      var afterFav :=
        if requester in users then
          WithLists(users, requester, users[requester].templates.(fav := UpdateFav(users[requester].templates.fav, id, t.isFavorite, isFavorite)))
        else users;
      var cast := if content.Some? then CastBlocks(content.value) else None;
      if content.Some? && cast.None? then (afterFav, templates, UpdateFailed)
      else
        var t' := PatchTemplate(t, name, cast, isFavorite);
        if requester !in users then (users, templates[id := t'], UpdateFailed)
        else
          var l := UpdateLists(users[requester].templates, id, t.isFavorite, isFavorite);
          (WithLists(users, requester, l), templates[id := t'], Updated(t', CountsOf(l)))
  }

  /**
   * In any consistent store, favouriting a non-favourite template together
   * with content that fails validation answers the failure, keeps the
   * template unflagged, and yet leaves its id in the owner's `fav`: the store
   * is no longer consistent.
   */
  lemma FavouriteFailureBreaksConsistency(users: map<Id, User>, templates: map<Id, Template>, nextId: nat, id: Id, requester: Id,
                                          name: string, content: seq<BlockInput>)
    requires Consistent(users, templates, nextId)
    requires id in templates && templates[id].owner == requester && !templates[id].isFavorite
    requires CastBlocks(content).None?
    ensures var r := UpdateAsWritten(users, templates, id, requester, name, Some(content), Some(true));
            r.2 == UpdateFailed && r.1 == templates && requester in r.0 && id in r.0[requester].templates.fav &&
            !Consistent(r.0, r.1, nextId)
  {
    OwnerExists(users, templates, nextId, id);
    var t := templates[id];
    assert TemplateOk(id, t, users);
    var r := UpdateAsWritten(users, templates, id, requester, name, Some(content), Some(true));
    var fav := UpdateFav(users[requester].templates.fav, id, t.isFavorite, Some(true));
    assert id in fav;
    assert r.0 == WithLists(users, requester, users[requester].templates.(fav := fav));
    assert !TemplateOk(id, r.1[id], r.0);
  }

  /**
   * Marking a template as a favourite while sending a block of a type outside
   * the enum: the template update fails, so the template keeps
   * `isFavorite == false`, but its id is already in `fav`. The store was
   * consistent before and is not after.
   */
  lemma FavouriteWrittenBeforeFailure()
    ensures var users := map[0 := User("Ann", "ann@example.com", "secret", TemplateLists([1], [], [1]))];
            var templates := map[1 := Template("Welcome", 0, [], false)];
            var r := UpdateAsWritten(users, templates, 1, 0, "", Some([BlockInput("video", Some(Text("x")), None)]), Some(true));
            Consistent(users, templates, 2) &&
            r.2 == UpdateFailed && !r.1[1].isFavorite && 1 in r.0[0].templates.fav &&
            !Consistent(r.0, r.1, 2)
  {
    var users := map[0 := User("Ann", "ann@example.com", "secret", TemplateLists([1], [], [1]))];
    var templates := map[1 := Template("Welcome", 0, [], false)];
    var blocks := [BlockInput("video", Some(Text("x")), None)];
    assert !ValidBlock(blocks[0]);
    assert ListsOk(0, users[0].templates, templates);
    assert TemplateOk(1, templates[1], users);
    assert Consistent(users, templates, 2);
    FavouriteFailureBreaksConsistency(users, templates, 2, 1, 0, "", blocks);
  }

  /** The written order is harmless whenever the supplied content validates: the store stays consistent. */
  lemma AsWrittenConsistentWhenValid(users: map<Id, User>, templates: map<Id, Template>, nextId: nat, id: Id, requester: Id,
                                     name: string, content: Option<seq<BlockInput>>, isFavorite: Option<bool>)
    requires Consistent(users, templates, nextId)
    requires content.Some? ==> CastBlocks(content.value).Some?
    ensures var r := UpdateAsWritten(users, templates, id, requester, name, content, isFavorite);
            Consistent(r.0, r.1, nextId)
  {
    var r := UpdateAsWritten(users, templates, id, requester, name, content, isFavorite);
    if name == "" && content.None? && isFavorite.None? {
      assert r.0 == users && r.1 == templates;
    } else if !(id in templates && templates[id].owner == requester) {
      assert r.0 == users && r.1 == templates;
    } else {
      OwnerExists(users, templates, nextId, id);
      var t := templates[id];
      var cast := if content.Some? then CastBlocks(content.value) else None;
      UpdatePreserves(users, templates, nextId, id, name, cast, isFavorite);
      assert r.0 == WithLists(users, requester, UpdateLists(users[requester].templates, id, t.isFavorite, isFavorite));
      assert r.1 == templates[id := PatchTemplate(t, name, cast, isFavorite)];
    }
  }

  // ---------------------------------------------------------------------
  // The store.
  // ---------------------------------------------------------------------

  class TemplateStore {
    var users: map<Id, User>
    var templates: map<Id, Template>
    /** The next identifier to hand out; identifiers are never reused. */
    var nextId: nat

    ghost predicate Valid()
      reads this
    {
      Consistent(users, templates, nextId)
    }

    constructor ()
      ensures Valid()
      ensures users == map[] && templates == map[]
    {
      users := map[];
      templates := map[];
      nextId := 0;
    }

    /**
     * Saves a new user document: the fields are normalised and validated,
     * and an email some user already has is refused by the unique index.
     */
    method AddUser(name: string, email: string, password: string) returns (r: AddUserResult)
      requires Valid()
      modifies this
      ensures Valid()
      ensures templates == old(templates)
      ensures r.UserInvalid? <==> NewUser(name, email, password).Rejected?
      ensures r.UserInvalid? ==> r.errors == NewUser(name, email, password).errors
      ensures r.DuplicateEmail? <==>
                NewUser(name, email, password).Accepted? && EmailTaken(old(users), NormaliseEmail(email))
      ensures r.UserAdded? <==>
                NewUser(name, email, password).Accepted? && !EmailTaken(old(users), NormaliseEmail(email))
      ensures !r.UserAdded? ==> unchanged(this)
      ensures r.UserAdded? ==>
                r.id !in old(users) && users == old(users)[r.id := NewUser(name, email, password).user] &&
                StoredUser(users[r.id]) && nextId == old(nextId) + 1
    {
      var v := NewUser(name, email, password);
      if v.Rejected? {
        return UserInvalid(v.errors);
      }
      if EmailTaken(users, v.user.email) {
        return DuplicateEmail;
      }
      AddUserPreserves(users, templates, nextId, v.user);
      NewUserIsStored(name, email, password);
      r := UserAdded(nextId);
      users := users[nextId := v.user];
      nextId := nextId + 1;
    }

    /**
     * POST /templates. A requester with no user document gets 404; a
     * template that fails validation gets 400; otherwise the template is
     * saved and the requester's lists are updated, unless that update fails,
     * in which case the saved template is deleted again and the result is 500.
     */
    method Create(requester: Id, name: string, blocks: seq<BlockInput>, isFavorite: Option<bool>, userUpdateOk: bool)
      returns (r: CreateResult)
      requires Valid()
      modifies this
      ensures Valid()
      ensures r.CreateUserNotFound? <==> requester !in old(users)
      ensures r.CreateInvalid? <==> requester in old(users) && NewTemplate(name, requester, blocks, isFavorite).None?
      ensures r.CreateFailed? <==>
                requester in old(users) && NewTemplate(name, requester, blocks, isFavorite).Some? && !userUpdateOk
      ensures r.Created? <==> requester in old(users) && NewTemplate(name, requester, blocks, isFavorite).Some? && userUpdateOk
      ensures r.CreateUserNotFound? || r.CreateInvalid? ==> unchanged(this)
      ensures !r.Created? ==> users == old(users) && templates == old(templates)
      ensures r.Created? || r.CreateFailed? ==> nextId == old(nextId) + 1
      ensures r.Created? ==>
                var l := old(users)[requester].templates;
                r.id !in old(templates) &&
                r.template == NewTemplate(name, requester, blocks, isFavorite).value &&
                templates == old(templates)[r.id := r.template] &&
                users == WithLists(old(users), requester, CreateLists(l, r.id, r.template.isFavorite)) &&
                users[requester].templates.all == l.all + [r.id] &&
                users[requester].templates.fav == (if isFavorite == Some(true) then l.fav + [r.id] else l.fav) &&
                users[requester].templates.recents == PushFront(l.recents, r.id) &&
                r.counts == CountsOf(users[requester].templates)
    {
      if requester !in users {
        return CreateUserNotFound;
      }
      var t := NewTemplate(name, requester, blocks, isFavorite);
      if t.None? {
        return CreateInvalid;
      }
      var id := nextId;
      nextId := nextId + 1;
      if !userUpdateOk {
        // The template was saved under `id` and is deleted again; `id` stays used.
        assert Consistent(users, templates, nextId);
        return CreateFailed;
      }
      CreatePreserves(users, templates, id, t.value);
      templates := templates[id := t.value];
      var l := CreateLists(users[requester].templates, id, t.value.isFavorite);
      users := WithLists(users, requester, l);
      r := Created(id, t.value, CountsOf(l));
    }

    /**
     * PUT /templates/:id. Nothing to update gives 400 and a template the
     * requester does not own gives 404, both with no change. Content that
     * fails validation gives 500 with no change. Otherwise the supplied
     * fields are patched, `fav` follows a changed favourite flag, the id
     * moves to the front of `recents`, and the post-state counts are reported.
     */
    method Update(id: Id, requester: Id, name: string, content: Option<seq<BlockInput>>, isFavorite: Option<bool>)
      returns (r: UpdateResult)
      requires Valid()
      modifies this
      ensures Valid()
      ensures nextId == old(nextId)
      ensures r.NothingToUpdate? <==> name == "" && content.None? && isFavorite.None?
      ensures r.UpdateNotFound? <==>
                !(name == "" && content.None? && isFavorite.None?) &&
                !(id in old(templates) && old(templates)[id].owner == requester)
      ensures r.UpdateFailed? <==>
                !(name == "" && content.None? && isFavorite.None?) &&
                id in old(templates) && old(templates)[id].owner == requester &&
                content.Some? && CastBlocks(content.value).None?
      ensures !r.Updated? ==> unchanged(this)
      ensures r.Updated? <==>
                !(name == "" && content.None? && isFavorite.None?) &&
                id in old(templates) && old(templates)[id].owner == requester &&
                (content.Some? ==> CastBlocks(content.value).Some?)
      ensures r.Updated? ==>
                var t := old(templates)[id];
                var l := old(users)[requester].templates;
                var cast := if content.Some? then CastBlocks(content.value) else None;
                r.template == PatchTemplate(t, name, cast, isFavorite) &&
                templates == old(templates)[id := r.template] &&
                users == WithLists(old(users), requester, UpdateLists(l, id, t.isFavorite, isFavorite)) &&
                users[requester].templates.all == l.all &&
                users[requester].templates.fav == UpdateFav(l.fav, id, t.isFavorite, isFavorite) &&
                users[requester].templates.recents == Touch(l.recents, id) &&
                r.counts == CountsOf(users[requester].templates)
    {
      if name == "" && content.None? && isFavorite.None? {
        return NothingToUpdate;
      }
      if !(id in templates && templates[id].owner == requester) {
        return UpdateNotFound;
      }
      var cast: Option<seq<Block>> := None;
      if content.Some? {
        cast := CastBlocks(content.value);
        if cast.None? {
          return UpdateFailed;
        }
      }
      r := Apply(id, requester, name, cast, isFavorite);
    }

    /** The writes of a validated update: the patched template, and the owner's lists as `UpdateLists` leaves them. */
    method Apply(id: Id, requester: Id, name: string, cast: Option<seq<Block>>, isFavorite: Option<bool>)
      returns (r: UpdateResult)
      requires Valid() && id in templates && templates[id].owner == requester
      requires cast.Some? ==> Typed(cast.value)
      modifies this
      ensures Valid()
      ensures nextId == old(nextId)
      ensures requester in old(users)
      ensures var t := old(templates)[id];
              var l := UpdateLists(old(users)[requester].templates, id, t.isFavorite, isFavorite);
              templates == old(templates)[id := PatchTemplate(t, name, cast, isFavorite)] &&
              users == WithLists(old(users), requester, l) &&
              r == Updated(PatchTemplate(t, name, cast, isFavorite), CountsOf(l))
    {
      var t := templates[id];
      OwnerExists(users, templates, nextId, id);
      var l := UpdateLists(users[requester].templates, id, t.isFavorite, isFavorite);
      var t' := PatchTemplate(t, name, cast, isFavorite);
      var users', templates' := WithLists(users, requester, l), templates[id := t'];
      UpdatePreserves(users, templates, nextId, id, name, cast, isFavorite);
      Commit(users', templates');
      r := Updated(t', CountsOf(l));
    }

    /** Writes both collections at once; the counter is kept. */
    method Commit(users': map<Id, User>, templates': map<Id, Template>)
      requires Consistent(users', templates', nextId)
      modifies this
      ensures Valid()
      ensures users == users' && templates == templates' && nextId == old(nextId)
    {
      users, templates := users', templates';
    }

    /**
     * GET /templateById/:id. The stored name, content and flag of a template
     * the requester owns; otherwise 404 with whether the id exists at all and
     * a user-match flag that is necessarily false.
     */
    method Get(id: Id, requester: Id) returns (r: GetResult)
      ensures r.Found? <==> id in templates && templates[id].owner == requester
      ensures r.Found? ==>
                r.name == templates[id].name && r.content == templates[id].content &&
                r.isFavorite == templates[id].isFavorite && r.owner == requester
      ensures r.NotFound? ==> r.templateExists == (id in templates) && !r.userMatch
    {
      if id in templates && templates[id].owner == requester {
        var t := templates[id];
        r := Found(t.name, t.content, t.isFavorite, t.owner);
      } else {
        r := NotFound(id in templates, false);
      }
    }

    /**
     * POST /render-template/:id. The HTML document of a template the
     * requester owns, with `values` substituted in its blocks; nothing for
     * any other id.
     */
    method RenderTemplate(id: Id, requester: Id, values: Values) returns (r: Option<string>)
      ensures r.Some? <==> id in templates && templates[id].owner == requester
      ensures r.Some? ==> r.value == Document(templates[id], values)
    {
      if id in templates && templates[id].owner == requester {
        r := Some(Document(templates[id], values));
      } else {
        r := None;
      }
    }
  }
}
