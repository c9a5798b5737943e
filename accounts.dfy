/** User accounts: the registration form with its authorization code, the
    e-mail validators of the registration, profile and password-reset forms,
    and the administrators' group that registration with the admin code
    joins. */
module Accounts {
  import opened Wrappers
  import opened Text

  /** The two authorization codes and the name of the administrators' group
      (the project's settings). */
  const AuthCodeUser := "auth-code-user"
  const AuthCodeAdmin := "auth-code-admin"
  const AdminGroupName := "Admin Group"

  /** The application whose permissions administrators receive. */
  const PhotosApp := "photos"

  datatype User = User(id: int, username: string, firstName: string, lastName: string,
                       email: string, groups: set<int>)

  /** A permission, with the application label of its content type. */
  datatype Permission = Permission(id: int, appLabel: string)

  datatype Group = Group(id: int, name: string, permissions: set<int>)

  datatype FormError = InvalidAuthCode | DuplicateEmail | InvalidEmail | MultipleObjectsReturned

  /** user.get_full_name(): first and last name around a space, stripped. */
  function FullName(u: User): string
  {
    Strip(u.firstName + " " + u.lastName)
  }

  /** How the activity stream names a user: the full name, or the username
      when the full name is empty. */
  function ActorName(u: User): (r: string)
    ensures r == [] ==> u.username == []
  {
    var full := FullName(u);
    if full != [] then full else u.username
  }

  /** A user who gave no first and no last name is named by the username. */
  lemma ActorNameWithoutNames(u: User)
    requires u.firstName == [] && u.lastName == []
    ensures ActorName(u) == u.username
  {
    var s := u.firstName + " " + u.lastName;
    assert s == " " && IsSpace(s[0]);
    assert LeadingSpaces(s) == 1;
  }

  /** A user with a first name that does not start with whitespace is
      named by the full name, whatever the username. */
  lemma ActorNameWithFirstName(u: User)
    requires u.firstName != [] && !IsSpace(u.firstName[0])
    ensures FullName(u) != [] && ActorName(u) == FullName(u) && ActorName(u)[0] == u.firstName[0]
  {
    var s := u.firstName + " " + u.lastName;
    assert s[0] == u.firstName[0];
    StripKeepsFirst(s);
  }

  /** Some user has this e-mail address. */
  predicate EmailTaken(users: seq<User>, email: string)
  {
    exists k :: 0 <= k < |users| && users[k].email == email
  }

  /** No two users share an e-mail address. */
  predicate EmailsUnique(users: seq<User>)
  {
    forall i, j :: 0 <= i < j < |users| ==> users[i].email != users[j].email
  }

  /** User.objects.filter(email=email), in table order. */
  function WithEmail(users: seq<User>, email: string): (r: seq<User>)
    ensures |r| <= |users|
  {
    if |users| == 0 then []
    else (if users[0].email == email then [users[0]] else []) + WithEmail(users[1..], email)
  }

  /** User.objects.exclude(email=email), in table order. */
  function WithoutEmail(users: seq<User>, email: string): (r: seq<User>)
    ensures |r| <= |users|
  {
    if |users| == 0 then []
    else (if users[0].email != email then [users[0]] else []) + WithoutEmail(users[1..], email)
  }

  /** The filter finds something exactly when some user has the address. */
  lemma {:induction false} WithEmailFound(users: seq<User>, email: string)
    ensures |WithEmail(users, email)| > 0 <==> EmailTaken(users, email)
    decreases |users|
  {
    if |users| > 0 {
      WithEmailFound(users[1..], email);
      if EmailTaken(users[1..], email) {
        var k :| 0 <= k < |users[1..]| && users[1..][k].email == email;
        assert users[k + 1].email == email;
      }
      if EmailTaken(users, email) && users[0].email != email {
        var k :| 0 <= k < |users| && users[k].email == email;
        assert users[1..][k - 1].email == email;
      }
    }
  }

  /** With unique addresses the filter finds at most one user. */
  lemma {:induction false} WithEmailUnique(users: seq<User>, email: string)
    requires EmailsUnique(users)
    ensures |WithEmail(users, email)| <= 1
    decreases |users|
  {
    if |users| > 0 {
      assert EmailsUnique(users[1..]) by {
        forall i, j | 0 <= i < j < |users[1..]|
          ensures users[1..][i].email != users[1..][j].email
        {
          assert users[1..][i] == users[i + 1] && users[1..][j] == users[j + 1];
        }
      }
      WithEmailUnique(users[1..], email);
      if users[0].email == email {
        assert !EmailTaken(users[1..], email) by {
          forall k | 0 <= k < |users[1..]|
            ensures users[1..][k].email != email
          {
            assert users[1..][k] == users[k + 1];
          }
        }
        WithEmailFound(users[1..], email);
      }
    }
  }

  /** Excluding one address and then filtering for another. */
  lemma {:induction false} WithoutThenWith(users: seq<User>, current: string, email: string)
    ensures WithEmail(WithoutEmail(users, current), email)
      == if email == current then [] else WithEmail(users, email)
    decreases |users|
  {
    if |users| > 0 {
      WithoutThenWith(users[1..], current, email);
      var rest := WithoutEmail(users[1..], current);
      if users[0].email != current {
        var both := [users[0]] + rest;
        assert both[0] == users[0] && both[1..] == rest;
      } else {
        assert [] + rest == rest;
      }
    }
  }

  /** RegisterForm.clean_email: an address already in use is refused. */
  function RegisterCleanEmail(users: seq<User>, email: string): (r: Result<string, FormError>)
  {
    if |WithEmail(users, email)| > 0 then Err(DuplicateEmail) else Ok(email)
  }

  /** The registration form accepts exactly the addresses nobody uses, and
      returns them unchanged. */
  lemma RegisterCleanEmailAccepts(users: seq<User>, email: string)
    ensures RegisterCleanEmail(users, email).Ok? <==> !EmailTaken(users, email)
    ensures RegisterCleanEmail(users, email).Ok? ==> RegisterCleanEmail(users, email).value == email
    ensures RegisterCleanEmail(users, email).Err? ==> RegisterCleanEmail(users, email).error == DuplicateEmail
  {
    WithEmailFound(users, email);
  }

  /** ProfileForm.clean_email for a user whose address is `current`: the
      users holding `current` are set aside, and an address any other user
      holds is refused. */
  function ProfileCleanEmail(users: seq<User>, current: string, email: string): (r: Result<string, FormError>)
  {
    if |WithEmail(WithoutEmail(users, current), email)| > 0 then Err(DuplicateEmail) else Ok(email)
  }

  /** Keeping one's own address is always accepted; any other address is
      accepted exactly when nobody uses it. */
  lemma ProfileCleanEmailAccepts(users: seq<User>, current: string, email: string)
    ensures ProfileCleanEmail(users, current, email).Ok?
      <==> email == current || !EmailTaken(users, email)
    ensures ProfileCleanEmail(users, current, email).Err? ==>
      ProfileCleanEmail(users, current, email).error == DuplicateEmail
  {
    WithoutThenWith(users, current, email);
    WithEmailFound(users, email);
  }

  /** PasswordResetForm.clean_email: User.objects.get(email=email) must find
      the user. No user is the form's error; more than one makes get() raise
      MultipleObjectsReturned, which the form does not catch. */
  function PasswordResetCleanEmail(users: seq<User>, email: string): (r: Result<string, FormError>)
  {
    var found := WithEmail(users, email);
    if |found| == 0 then Err(InvalidEmail)
    else if |found| > 1 then Err(MultipleObjectsReturned)
    else Ok(email)
  }

  /** With unique addresses (which registration keeps), the reset form
      accepts exactly the addresses some user has. */
  lemma PasswordResetCleanEmailAccepts(users: seq<User>, email: string)
    requires EmailsUnique(users)
    ensures PasswordResetCleanEmail(users, email).Ok? <==> EmailTaken(users, email)
    ensures PasswordResetCleanEmail(users, email) == Err(InvalidEmail) <==> !EmailTaken(users, email)
  {
    WithEmailFound(users, email);
    WithEmailUnique(users, email);
  }

  /** Index of the group with this name, if any. */
  function FindGroup(groups: seq<Group>, name: string): (r: Option<nat>)
    ensures r.Some? ==> r.value < |groups| && groups[r.value].name == name
    ensures r.None? ==> forall k :: 0 <= k < |groups| ==> groups[k].name != name
  {
    if |groups| == 0 then None
    else if groups[0].name == name then Some(0)
    else match FindGroup(groups[1..], name)
      case None => None
      case Some(k) => Some(k + 1)
  }

  /** The permissions of the photos application. */
  function PhotosPermissions(permissions: seq<Permission>): set<int>
  {
    set k | 0 <= k < |permissions| && permissions[k].appLabel == PhotosApp :: permissions[k].id
  }

  /** The user, group and permission tables. */
  class AuthStore {
    var users: seq<User>
    var groups: seq<Group>
    const permissions: seq<Permission>
    var nextUserId: int
    var nextGroupId: int

    /** Group names are unique, and so are the ids of users and groups,
        which are below the next ids handed out. */
    predicate Valid()
      reads this
    {
      (forall i, j :: 0 <= i < j < |groups| ==> groups[i].name != groups[j].name)
      && (forall k :: 0 <= k < |groups| ==> groups[k].id < nextGroupId)
      && (forall k :: 0 <= k < |users| ==> users[k].id < nextUserId)
    }

    constructor (permissions: seq<Permission>)
      ensures Valid()
      ensures users == [] && groups == [] && this.permissions == permissions
    {
      users := [];
      groups := [];
      this.permissions := permissions;
      nextUserId := 1;
      nextGroupId := 1;
    }

    /** get_admin_group(): get-or-create the group named AdminGroupName. A
        new group gets the permissions of the photos application; an
        existing group is returned as it is. */
    method GetAdminGroup() returns (g: Group)
      requires Valid()
      modifies this
      ensures Valid()
      ensures g.name == AdminGroupName && g in groups
      ensures users == old(users) && nextUserId == old(nextUserId)
      ensures nextGroupId == old(nextGroupId) + |groups| - |old(groups)|
      ensures old(FindGroup(groups, AdminGroupName)).Some? ==>
        groups == old(groups) && g == old(groups[FindGroup(groups, AdminGroupName).value])
      ensures old(FindGroup(groups, AdminGroupName)).None? ==>
        groups == old(groups) + [g] && g.permissions == PhotosPermissions(permissions)
        && g.id == old(nextGroupId)
    {
      match FindGroup(groups, AdminGroupName)
      case Some(k) =>
        g := groups[k];
      case None =>
        g := Group(nextGroupId, AdminGroupName, PhotosPermissions(permissions));
        groups := groups + [g];
        nextGroupId := nextGroupId + 1;
    }

    /** ProfileForm.save: only the first name, last name and e-mail
        address of the user change; the username stays. */
    method SaveProfile(k: nat, firstName: string, lastName: string, email: string)
      requires Valid() && k < |users|
      modifies this
      ensures Valid()
      ensures users == old(users)[k := old(users[k]).(firstName := firstName, lastName := lastName, email := email)]
      ensures users[k].username == old(users[k].username)
      ensures groups == old(groups)
      ensures nextUserId == old(nextUserId) && nextGroupId == old(nextGroupId)
    {
      users := users[k := users[k].(firstName := firstName, lastName := lastName, email := email)];
    }
  }

  /** The registration form, which remembers whether the authorization code
      was the administrators' one. */
  class RegisterForm {
    var isAdminUser: Option<bool>

    constructor ()
      ensures isAdminUser.None?
    {
      isAdminUser := None;
    }

    /** clean_auth_code (the second definition, which replaces the first in
        the class): the admin code marks an administrator, the user code a
        regular user, and any other code is refused. */
    method CleanAuthCode(code: string) returns (r: Result<string, FormError>)
      modifies this
      ensures code == AuthCodeAdmin ==> r == Ok(code) && isAdminUser == Some(true)
      ensures code == AuthCodeUser ==> r == Ok(code) && isAdminUser == Some(false)
      ensures code != AuthCodeAdmin && code != AuthCodeUser ==>
        r == Err(InvalidAuthCode) && isAdminUser == old(isAdminUser)
    {
      if code == AuthCodeAdmin {
        isAdminUser := Some(true);
        return Ok(code);
      }
      if code == AuthCodeUser {
        isAdminUser := Some(false);
        return Ok(code);
      }
      return Err(InvalidAuthCode);
    }

    /** save(): stores the new user and, for an administrator, adds the
        administrators' group to the user's groups. */
    method Save(store: AuthStore, username: string, email: string, firstName: string, lastName: string)
      returns (user: User)
      requires store.Valid() && isAdminUser.Some?
      modifies store
      ensures store.Valid()
      ensures user.id == old(store.nextUserId) && store.nextUserId == old(store.nextUserId) + 1
      ensures store.nextGroupId == old(store.nextGroupId) + |store.groups| - |old(store.groups)|
      ensures user.username == username && user.email == email
      ensures user.firstName == firstName && user.lastName == lastName
      ensures store.users == old(store.users) + [user]
      ensures isAdminUser.value ==> exists g :: g in store.groups && g.name == AdminGroupName && user.groups == {g.id}
      ensures isAdminUser.value && old(FindGroup(store.groups, AdminGroupName)).Some? ==>
        store.groups == old(store.groups)
        && user.groups == {old(store.groups[FindGroup(store.groups, AdminGroupName).value]).id}
      ensures isAdminUser.value && old(FindGroup(store.groups, AdminGroupName)).None? ==>
        store.groups == old(store.groups) + [Group(old(store.nextGroupId), AdminGroupName, PhotosPermissions(store.permissions))]
        && user.groups == {old(store.nextGroupId)}
      ensures !isAdminUser.value ==> user.groups == {} && store.groups == old(store.groups)
    {
      user := User(store.nextUserId, username, firstName, lastName, email, {});
      store.users := store.users + [user];
      store.nextUserId := store.nextUserId + 1;
      if isAdminUser.value {
        var g := store.GetAdminGroup();
        user := user.(groups := user.groups + {g.id});
        store.users := store.users[|store.users| - 1 := user];
      }
    }
  }
}
