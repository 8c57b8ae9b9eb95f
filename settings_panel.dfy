/** The user-administration panel (src/components/SettingsPanel.tsx): which
    roles a caller may hand out, the role labels, the split of the user list
    into active and pending tabs, and the handlers that call the users API
    and update the panel's state. A handler's API calls are recorded in
    order; whether each call succeeds, and what the reload returns, are
    inputs. */
module SettingsPanel {
  import opened Wrappers

  /** A row of the user list as the panel holds it. */
  datatype ManagedUser = ManagedUser(id: int, publicId: string, fullName: string, email: string,
                                     role: string, isActive: bool)

  // ---------------------------------------------------------------------
  // Roles
  // ---------------------------------------------------------------------

  /** The order of authority: user < moderator < admin < manager; an unknown
      role counts as a plain user. */
  function Rank(role: string): (r: nat)
    ensures r <= 3
    ensures r == 0 <==> role !in {"moderator", "admin", "manager"}
  {
    if role == "manager" then 3
    else if role == "admin" then 2
    else if role == "moderator" then 1
    else 0
  }

  const Assignable := ["user", "moderator", "admin"]

  /** `getAvailableRoles()`: a manager may hand out up to admin, an admin up
      to moderator, anyone else only 'user'. The list is always a prefix of
      user, moderator, admin, and every role on it other than 'user' is
      strictly below the caller's own. */
  function AvailableRoles(callerRole: string): (r: seq<string>)
    ensures 1 <= |r| <= 3 && r == Assignable[..|r|]
    ensures callerRole == "manager" ==> |r| == 3
    ensures callerRole == "admin" ==> |r| == 2
    ensures callerRole != "manager" && callerRole != "admin" ==> |r| == 1
    ensures forall i :: 1 <= i < |r| ==> Rank(r[i]) < Rank(callerRole)
  {
    if callerRole == "manager" then ["user", "moderator", "admin"]
    else if callerRole == "admin" then ["user", "moderator"]
    else ["user"]
  }

  /** No caller is ever offered 'manager', and no offered role outranks
      the caller. */
  lemma NoEscalation(callerRole: string, role: string)
    requires role in AvailableRoles(callerRole)
    ensures role != "manager"
    ensures Rank(role) <= Rank(callerRole)
  {
    var r := AvailableRoles(callerRole);
    var i :| 0 <= i < |r| && r[i] == role;
    if i > 0 {
      assert Rank(r[i]) < Rank(callerRole);
    }
  }

  /** `getRoleName(role)`: the label shown for a role; anything that is not
      admin, manager or moderator reads as a plain user. The role badge of
      the active list uses the same labels. */
  function RoleName(role: string): (r: string)
    ensures role !in {"admin", "manager", "moderator"} ==> r == "Пользователь"
    ensures role == "admin" ==> r == "Администратор"
    ensures role == "manager" ==> r == "Менеджер"
    ensures role == "moderator" ==> r == "Модератор"
  {
    match role
    case "admin" => "Администратор"
    case "manager" => "Менеджер"
    case "moderator" => "Модератор"
    case _ => "Пользователь"
  }

  /** The four roles have four different labels. */
  lemma RoleNamesDistinct(a: string, b: string)
    requires a in {"user", "moderator", "admin", "manager"} && b in {"user", "moderator", "admin", "manager"}
    requires a != b
    ensures RoleName(a) != RoleName(b)
  {
  }

  /** The role choices of the edit dialog: 'user', then moderator and admin
      when available to the caller, then 'manager' for a manager. */
  function EditDialogRoles(callerRole: string): (r: seq<string>)
    ensures "manager" in r <==> callerRole == "manager"
    ensures forall x :: x in AvailableRoles(callerRole) ==> x in r
    ensures forall x :: x in r ==> x in AvailableRoles(callerRole) || (x == "manager" && callerRole == "manager")
  {
    var avail := AvailableRoles(callerRole);
    ["user"]
      + (if "moderator" in avail then ["moderator"] else [])
      + (if "admin" in avail then ["admin"] else [])
      + (if callerRole == "manager" then ["manager"] else [])
  }

  /** The role choices of the activation dialog: 'user', then moderator and
      admin when available. It never offers 'manager'. */
  function ActivationDialogRoles(callerRole: string): (r: seq<string>)
    ensures "manager" !in r
    ensures forall x :: x in r <==> x in AvailableRoles(callerRole)
  {
    var avail := AvailableRoles(callerRole);
    ["user"]
      + (if "moderator" in avail then ["moderator"] else [])
      + (if "admin" in avail then ["admin"] else [])
  }

  /** A manager can make someone a manager through the edit dialog, but not
      while activating them; for every other caller the two dialogs offer
      the same roles. */
  lemma DialogsDifferOnlyForManager(callerRole: string, x: string)
    ensures callerRole == "manager" ==> x == "manager" ==> x in EditDialogRoles(callerRole) && x !in ActivationDialogRoles(callerRole)
    ensures callerRole != "manager" ==> (x in EditDialogRoles(callerRole) <==> x in ActivationDialogRoles(callerRole))
  {
  }

  // ---------------------------------------------------------------------
  // The two tabs
  // ---------------------------------------------------------------------

  /** `users.filter(u => u.is_active)` */
  function ActiveUsers(users: seq<ManagedUser>): (r: seq<ManagedUser>)
    ensures forall i :: 0 <= i < |r| ==> r[i].isActive
  {
    if users == [] then []
    else (if users[0].isActive then [users[0]] else []) + ActiveUsers(users[1..])
  }

  /** `users.filter(u => !u.is_active)` */
  function PendingUsers(users: seq<ManagedUser>): (r: seq<ManagedUser>)
    ensures forall i :: 0 <= i < |r| ==> !r[i].isActive
  {
    if users == [] then []
    else (if users[0].isActive then [] else [users[0]]) + PendingUsers(users[1..])
  }

  /** The tabs split the list: together they hold every row exactly as
      often as the list does, so the two counts add up to the total. */
  lemma {:induction false} TabsPartition(users: seq<ManagedUser>)
    ensures multiset(ActiveUsers(users)) + multiset(PendingUsers(users)) == multiset(users)
    ensures |ActiveUsers(users)| + |PendingUsers(users)| == |users|
  {
    if users != [] {
      var u, rest := users[0], users[1..];
      TabsPartition(rest);
      assert users == [u] + rest;
      var a, p := ActiveUsers(rest), PendingUsers(rest);
      if u.isActive {
        assert ActiveUsers(users) == [u] + a && PendingUsers(users) == p;
      } else {
        assert ActiveUsers(users) == a && PendingUsers(users) == [u] + p;
      }
    }
  }

  /** A row is on the active tab exactly when it is in the list and active,
      on the pending tab exactly when it is in the list and not active, and
      never on both. */
  lemma TabMembership(users: seq<ManagedUser>, u: ManagedUser)
    ensures u in ActiveUsers(users) <==> u in users && u.isActive
    ensures u in PendingUsers(users) <==> u in users && !u.isActive
    ensures !(u in ActiveUsers(users) && u in PendingUsers(users))
  {
    TabsPartition(users);
    assert u in users <==> u in multiset(users);
    assert u in ActiveUsers(users) <==> u in multiset(ActiveUsers(users));
    assert u in PendingUsers(users) <==> u in multiset(PendingUsers(users));
  }

  /** Each tab keeps the list's order: filtering a concatenation filters
      each part and concatenates the results. */
  lemma {:induction false} TabsKeepOrder(a: seq<ManagedUser>, b: seq<ManagedUser>)
    ensures ActiveUsers(a + b) == ActiveUsers(a) + ActiveUsers(b)
    ensures PendingUsers(a + b) == PendingUsers(a) + PendingUsers(b)
  {
    if a == [] {
      assert a + b == b;
    } else {
      assert (a + b)[0] == a[0];
      assert (a + b)[1..] == a[1..] + b;
      TabsKeepOrder(a[1..], b);
      var head := if a[0].isActive then [a[0]] else [];
      assert ActiveUsers(a + b) == head + ActiveUsers(a[1..] + b);
      assert ActiveUsers(a) == head + ActiveUsers(a[1..]);
      assert head + (ActiveUsers(a[1..]) + ActiveUsers(b)) == (head + ActiveUsers(a[1..])) + ActiveUsers(b);
      var phead := if a[0].isActive then [] else [a[0]];
      assert PendingUsers(a + b) == phead + PendingUsers(a[1..] + b);
      assert PendingUsers(a) == phead + PendingUsers(a[1..]);
      assert phead + (PendingUsers(a[1..]) + PendingUsers(b)) == (phead + PendingUsers(a[1..])) + PendingUsers(b);
    }
  }

  /** The block button is drawn on every active row except the caller's
      own, so nobody can block themselves from the panel. */
  function ShowsBlockButton(currentUserId: Option<int>, user: ManagedUser): (r: bool)
    ensures currentUserId == Some(user.id) ==> !r
    ensures currentUserId.None? ==> r
  {
    currentUserId != Some(user.id)
  }

  // ---------------------------------------------------------------------
  // Handlers
  // ---------------------------------------------------------------------

  /** The users-API calls the panel makes. The token argument is passed as
      the panel passes it. */
  datatype PanelCall =
    | GetUsers(token: string, status: string)
    | Activate(token: string, userId: int)
    | Deactivate(token: string, userId: int)
    | Delete(token: string, userId: int)
    | Update(token: string, userId: int, fullName: Option<string>, role: string)

  /** The user the browser session holds, as far as the panel reads it. */
  datatype StoredUser = StoredUser(role: Option<string>, id: Option<int>)

  /** JavaScript truthiness of the token: present and not empty. */
  predicate HasToken(token: Option<string>) {
    token.Some? && token.value != ""
  }

  /** The calls `handleActivate` makes for a given user, role and token:
      the activation, then the role update only when the chosen role is not
      'user' and the activation went through. */
  function ActivationCalls(token: string, userId: int, role: string, activateOk: bool): (r: seq<PanelCall>)
    ensures |r| >= 1 && r[0] == Activate(token, userId)
    ensures |r| == 2 <==> activateOk && role != "user"
    ensures |r| == 2 ==> r[1] == Update(token, userId, None, role)
    ensures |r| <= 2
  {
    [Activate(token, userId)] + (if activateOk && role != "user" then [Update(token, userId, None, role)] else [])
  }

  /** Whether the activation as a whole went through: the activation call,
      and the role update when one was made. */
  predicate ActivationSucceeds(role: string, activateOk: bool, updateOk: bool) {
    activateOk && (role == "user" || updateOk)
  }

  /** The list `loadUsers()` leaves: the reply when a token was present
      and the request went through, otherwise the list as it was. */
  function Reloaded(users: seq<ManagedUser>, token: Option<string>, reply: Option<seq<ManagedUser>>): seq<ManagedUser> {
    if HasToken(token) && reply.Some? then reply.value else users
  }

  class Panel {
    var users: seq<ManagedUser>
    var loading: bool
    var currentUserRole: string
    var currentUserId: Option<int>
    var editingUser: Option<ManagedUser>
    var editFullName: string
    var editRole: string
    var activatingUser: Option<ManagedUser>
    var activationRole: string
    /** Every API call made so far, oldest first. */
    var calls: seq<PanelCall>

    /** The initial state of the component, before its effect runs. */
    constructor()
      ensures users == [] && loading && currentUserRole == "user" && currentUserId.None?
      ensures editingUser.None? && editFullName == "" && editRole == "user"
      ensures activatingUser.None? && activationRole == "user" && calls == []
    {
      users := [];
      loading := true;
      currentUserRole := "user";
      currentUserId := None;
      editingUser := None;
      editFullName := "";
      editRole := "user";
      activatingUser := None;
      activationRole := "user";
      calls := [];
    }

    /** `loadUsers()`: without a token, no request and the list stays; with
        one, one request for all users, and the list becomes the reply when
        the request succeeds (`reply` is `None` when it throws). Loading
        ends either way. */
    method LoadUsers(token: Option<string>, reply: Option<seq<ManagedUser>>)
      modifies this
      ensures !HasToken(token) ==> calls == old(calls) && users == old(users)
      ensures HasToken(token) ==> calls == old(calls) + [GetUsers(token.value, "all")]
      ensures HasToken(token) && reply.Some? ==> users == reply.value
      ensures HasToken(token) && reply.None? ==> users == old(users)
      ensures !loading
      ensures currentUserRole == old(currentUserRole) && currentUserId == old(currentUserId)
      ensures editingUser == old(editingUser) && editFullName == old(editFullName) && editRole == old(editRole)
      ensures activatingUser == old(activatingUser) && activationRole == old(activationRole)
    {
      loading := true;
      if token.None? || token.value == "" {
        loading := false;
        return;
      }
      calls := calls + [GetUsers(token.value, "all")];
      if reply.Some? {
        users := reply.value;
      }
      loading := false;
    }

    /** The mount effect: load the users, then take the caller's role and
        id from the stored user when they are truthy. */
    method Mount(token: Option<string>, reply: Option<seq<ManagedUser>>, stored: Option<StoredUser>)
      modifies this
      ensures stored.Some? && stored.value.role.Some? && stored.value.role.value != "" ==>
        currentUserRole == stored.value.role.value
      ensures !(stored.Some? && stored.value.role.Some? && stored.value.role.value != "") ==>
        currentUserRole == old(currentUserRole)
      ensures stored.Some? && stored.value.id.Some? && stored.value.id.value != 0 ==>
        currentUserId == stored.value.id
      ensures !(stored.Some? && stored.value.id.Some? && stored.value.id.value != 0) ==>
        currentUserId == old(currentUserId)
      ensures !HasToken(token) ==> calls == old(calls)
      ensures HasToken(token) ==> calls == old(calls) + [GetUsers(token.value, "all")]
      ensures users == Reloaded(old(users), token, reply) && !loading
      ensures editingUser == old(editingUser) && editFullName == old(editFullName) && editRole == old(editRole)
      ensures activatingUser == old(activatingUser) && activationRole == old(activationRole)
    {
      LoadUsers(token, reply);
      if stored.Some? && stored.value.role.Some? && stored.value.role.value != "" {
        currentUserRole := stored.value.role.value;
      }
      if stored.Some? && stored.value.id.Some? && stored.value.id.value != 0 {
        currentUserId := stored.value.id;
      }
    }

    /** The activate button of a pending row: open the dialog for that user
        with 'user' preselected. */
    method OpenActivation(user: ManagedUser)
      modifies this
      ensures activatingUser == Some(user) && activationRole == "user"
      ensures users == old(users) && calls == old(calls) && editingUser == old(editingUser)
      ensures loading == old(loading) && currentUserRole == old(currentUserRole) && currentUserId == old(currentUserId)
      ensures editFullName == old(editFullName) && editRole == old(editRole)
    {
      activatingUser := Some(user);
      activationRole := "user";
    }

    /** `handleActivate()`. With no user chosen or no token nothing happens.
        Otherwise the activation is sent, then the role update when the
        chosen role is not 'user'; once both went through the dialog closes,
        the role resets to 'user' and the list reloads. A failed call stops
        the sequence and leaves the dialog as it was. */
    method HandleActivate(token: Option<string>, activateOk: bool, updateOk: bool, reload: Option<seq<ManagedUser>>)
      modifies this
      ensures old(activatingUser).None? || !HasToken(token) ==>
        calls == old(calls) && activatingUser == old(activatingUser) && activationRole == old(activationRole)
      ensures old(activatingUser).Some? && HasToken(token) ==>
        var sent := old(calls) + ActivationCalls(token.value, old(activatingUser).value.id, old(activationRole), activateOk);
        if ActivationSucceeds(old(activationRole), activateOk, updateOk) then
          calls == sent + [GetUsers(token.value, "all")] && activatingUser.None? && activationRole == "user"
        else
          calls == sent && activatingUser == old(activatingUser) && activationRole == old(activationRole)
      ensures editingUser == old(editingUser) && currentUserRole == old(currentUserRole)
      ensures old(activatingUser).Some? && HasToken(token) && ActivationSucceeds(old(activationRole), activateOk, updateOk) ==>
        users == Reloaded(old(users), token, reload) && !loading
      ensures !(old(activatingUser).Some? && HasToken(token) && ActivationSucceeds(old(activationRole), activateOk, updateOk)) ==>
        users == old(users) && loading == old(loading)
      ensures currentUserId == old(currentUserId) && editFullName == old(editFullName) && editRole == old(editRole)
    {
      if activatingUser.None? {
        return;
      }
      if token.None? || token.value == "" {
        return;
      }
      var id := activatingUser.value.id;
      calls := calls + [Activate(token.value, id)];
      if !activateOk {
        return;
      }
      if activationRole != "user" {
        calls := calls + [Update(token.value, id, None, activationRole)];
        if !updateOk {
          return;
        }
      }
      activatingUser := None;
      activationRole := "user";
      LoadUsers(token, reload);
    }

    /** `handleDeactivate(userId)`: with a token, one deactivation call and,
        when it went through, a reload. */
    method HandleDeactivate(userId: int, token: Option<string>, ok: bool, reload: Option<seq<ManagedUser>>)
      modifies this
      ensures !HasToken(token) ==> calls == old(calls)
      ensures HasToken(token) && !ok ==> calls == old(calls) + [Deactivate(token.value, userId)]
      ensures HasToken(token) && ok ==>
        calls == old(calls) + [Deactivate(token.value, userId), GetUsers(token.value, "all")]
      ensures activatingUser == old(activatingUser) && editingUser == old(editingUser)
      ensures HasToken(token) && ok ==> users == Reloaded(old(users), token, reload) && !loading
      ensures !(HasToken(token) && ok) ==> users == old(users) && loading == old(loading)
      ensures currentUserRole == old(currentUserRole) && currentUserId == old(currentUserId)
      ensures editFullName == old(editFullName) && editRole == old(editRole) && activationRole == old(activationRole)
    {
      if token.None? || token.value == "" {
        return;
      }
      calls := calls + [Deactivate(token.value, userId)];
      if ok {
        LoadUsers(token, reload);
      }
    }

    /** `handleDelete(userId)`: nothing unless the user confirms and a token
        is present; then one delete call and, when it went through, a
        reload. */
    method HandleDelete(userId: int, confirmed: bool, token: Option<string>, ok: bool, reload: Option<seq<ManagedUser>>)
      modifies this
      ensures !confirmed || !HasToken(token) ==> calls == old(calls)
      ensures confirmed && HasToken(token) && !ok ==> calls == old(calls) + [Delete(token.value, userId)]
      ensures confirmed && HasToken(token) && ok ==>
        calls == old(calls) + [Delete(token.value, userId), GetUsers(token.value, "all")]
      ensures activatingUser == old(activatingUser) && editingUser == old(editingUser)
      ensures confirmed && HasToken(token) && ok ==> users == Reloaded(old(users), token, reload) && !loading
      ensures !(confirmed && HasToken(token) && ok) ==> users == old(users) && loading == old(loading)
      ensures currentUserRole == old(currentUserRole) && currentUserId == old(currentUserId)
      ensures editFullName == old(editFullName) && editRole == old(editRole) && activationRole == old(activationRole)
    {
      if !confirmed || token.None? || token.value == "" {
        return;
      }
      calls := calls + [Delete(token.value, userId)];
      if ok {
        LoadUsers(token, reload);
      }
    }

    /** `handleEdit(user)`: open the edit dialog filled with the user's
        name and role. */
    method HandleEdit(user: ManagedUser)
      modifies this
      ensures editingUser == Some(user) && editFullName == user.fullName && editRole == user.role
      ensures users == old(users) && calls == old(calls) && activatingUser == old(activatingUser)
      ensures loading == old(loading) && currentUserRole == old(currentUserRole) && currentUserId == old(currentUserId)
      ensures activationRole == old(activationRole)
    {
      editingUser := Some(user);
      editFullName := user.fullName;
      editRole := user.role;
    }

    /** `handleSaveEdit()`: with a user being edited and a token, send the
        form; when that went through, close the dialog and reload. */
    method HandleSaveEdit(token: Option<string>, ok: bool, reload: Option<seq<ManagedUser>>)
      modifies this
      ensures old(editingUser).None? || !HasToken(token) ==> calls == old(calls) && editingUser == old(editingUser)
      ensures old(editingUser).Some? && HasToken(token) ==>
        var sent := old(calls) + [Update(token.value, old(editingUser).value.id, Some(old(editFullName)), old(editRole))];
        if ok then calls == sent + [GetUsers(token.value, "all")] && editingUser.None?
        else calls == sent && editingUser == old(editingUser)
      ensures activatingUser == old(activatingUser) && activationRole == old(activationRole)
      ensures old(editingUser).Some? && HasToken(token) && ok ==> users == Reloaded(old(users), token, reload) && !loading
      ensures !(old(editingUser).Some? && HasToken(token) && ok) ==> users == old(users) && loading == old(loading)
      ensures currentUserRole == old(currentUserRole) && currentUserId == old(currentUserId)
      ensures editFullName == old(editFullName) && editRole == old(editRole)
    {
      if editingUser.None? || token.None? || token.value == "" {
        return;
      }
      calls := calls + [Update(token.value, editingUser.value.id, Some(editFullName), editRole)];
      if !ok {
        return;
      }
      editingUser := None;
      LoadUsers(token, reload);
    }
  }
}
