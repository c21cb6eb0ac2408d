/**
 * The permission editor: pick a user in a drop-down, tick permission
 * check-boxes, submit.  Its state is the selected user (or none) and the
 * list of ticked permission ids.
 */
module PermissionManagement {
  import opened Wrappers
  import opened Lists
  import opened JsValues

  datatype User = User(id: int, nom: string, prenom: string, role: string)
  datatype Permission = Permission(id: int, nom: string)

  const Users: seq<User> := [
    User(1, "Dubois", "Jean", "Commercial"),
    User(2, "Martin", "Sophie", "Responsable"),
    User(3, "Bernard", "Pierre", "Commercial")
  ]

  const Permissions: seq<Permission> := [
    Permission(1, "Gérer les commerciaux"),
    Permission(2, "Gérer les quotas"),
    Permission(3, "Voir les prospections"),
    Permission(4, "Modifier les prospections")
  ]

  /** The ids of the check-boxes on offer, one per declared permission. */
  const PermissionIds: seq<int> := seq(|Permissions|, i requires 0 <= i < |Permissions| => Permissions[i].id)

  datatype EditorState = EditorState(selectedUser: Option<User>, selectedPermissions: seq<int>)

  const Initial: EditorState := EditorState(None, [])

  /** `users.find(u => u.id === userId) || null`; `None` for `userId` stands for NaN. */
  function FindUser(users: seq<User>, userId: Option<int>): (r: Option<User>)
    ensures r.None? <==> userId.None? || forall u :: u in users ==> u.id != userId.value
    ensures r.Some? ==> exists i :: 0 <= i < |users| && users[i] == r.value && users[i].id == userId.value
                                    && forall j :: 0 <= j < i ==> users[j].id != userId.value
  {
    if userId.None? || users == [] then None
    else if users[0].id == userId.value then Some(users[0])
    else
      var r := FindUser(users[1..], userId);
      assert r.Some? ==> exists i :: 0 <= i < |users| && users[i] == r.value && users[i].id == userId.value
                                     && forall j :: 0 <= j < i ==> users[j].id != userId.value by {
        if r.Some? {
          var i :| 0 <= i < |users[1..]| && users[1..][i] == r.value && users[1..][i].id == userId.value
                   && forall j :: 0 <= j < i ==> users[1..][j].id != userId.value;
          assert forall j :: 0 <= j < i + 1 ==> users[j].id != userId.value by {
            forall j | 0 <= j < i + 1 ensures users[j].id != userId.value {
              if j > 0 { assert users[j] == users[1..][j - 1]; }
            }
          }
        }
      }
      assert r.None? ==> forall u :: u in users ==> u.id != userId.value by {
        if r.None? {
          forall u | u in users ensures u.id != userId.value {
            if u != users[0] { assert u in users[1..]; }
          }
        }
      }
      r
  }

  /** `handleUserChange`: select the user whose id the option's value parses to, clear the ticks. */
  function HandleUserChange(st: EditorState, value: string): (r: EditorState)
    ensures r.selectedPermissions == []
    ensures r.selectedUser == FindUser(Users, ParseInt(value))
  {
    EditorState(FindUser(Users, ParseInt(value)), [])
  }

  function IsNot(id: int): int -> bool
  {
    (x: int) => x != id
  }

  /** The toggle behind each check-box: remove the id if ticked, else append it. */
  function Toggle(sel: seq<int>, id: int): (r: seq<int>)
    ensures id in r <==> id !in sel
    ensures forall x :: x != id ==> (x in r <==> x in sel)
  {
    if id in sel then Filter(sel, IsNot(id)) else sel + [id]
  }

  /** `handlePermissionChange`: the user stays, the permission's tick flips. */
  function HandlePermissionChange(st: EditorState, permissionId: int): (r: EditorState)
    ensures r.selectedUser == st.selectedUser
    ensures permissionId in r.selectedPermissions <==> permissionId !in st.selectedPermissions
    ensures forall x :: x != permissionId ==> (x in r.selectedPermissions <==> x in st.selectedPermissions)
  {
    st.(selectedPermissions := Toggle(st.selectedPermissions, permissionId))
  }

  /** What a submit would save: the selected user with the ticked ids. */
  datatype Submission = Submission(user: User, permissionIds: seq<int>)

  /** `handleSubmit`: nothing happens without a selected user; the state never changes. */
  function HandleSubmit(st: EditorState): (r: Option<Submission>)
    ensures r.None? <==> st.selectedUser.None?
    ensures r.Some? ==> r.value.user == st.selectedUser.value && r.value.permissionIds == st.selectedPermissions
  {
    if st.selectedUser.Some? then Some(Submission(st.selectedUser.value, st.selectedPermissions)) else None
  }

  /** The ids in the hard-coded user list are distinct. */
  lemma UserIdsDistinct()
    ensures forall i, j :: 0 <= i < j < |Users| ==> Users[i].id != Users[j].id
  {
  }

  /** Choosing the option of a listed user (its value is the id as text) selects that user. */
  lemma SelectingUserOption(st: EditorState, k: nat)
    requires k < |Users|
    ensures HandleUserChange(st, DecimalString(Users[k].id)) == EditorState(Some(Users[k]), [])
  {
    ParseDecimalString(Users[k].id);
    var r := FindUser(Users, Some(Users[k].id));
    UserIdsDistinct();
    assert r.Some?;
  }

  /** The placeholder option (value "") parses to NaN and deselects the user. */
  lemma SelectingPlaceholder(st: EditorState)
    ensures HandleUserChange(st, "") == EditorState(None, [])
  {
    ParseEmptyIsNaN();
  }

  /** Ticking an unticked id appends it at the end. */
  lemma ToggleAbsentAppends(sel: seq<int>, id: int)
    requires id !in sel
    ensures Toggle(sel, id) == sel + [id]
  {
  }

  /** Unticking a ticked id removes it and keeps the other ids in their order. */
  lemma TogglePresentRemoves(sel: seq<int>, id: int)
    requires id in sel
    ensures id !in Toggle(sel, id)
    ensures IsSubsequence(Toggle(sel, id), sel)
    ensures |Toggle(sel, id)| < |sel|
  {
    FilterIsSubsequence(sel, IsNot(id));
    FilterShorter(sel, id);
  }

  lemma {:induction false} FilterShorter(sel: seq<int>, id: int)
    requires id in sel
    ensures |Filter(sel, IsNot(id))| < |sel|
  {
    if sel[0] != id {
      FilterShorter(sel[1..], id);
    }
  }

  /** Toggling keeps the list free of duplicates. */
  lemma ToggleKeepsNoDuplicates(sel: seq<int>, id: int)
    requires NoDuplicates(sel)
    ensures NoDuplicates(Toggle(sel, id))
  {
    if id in sel {
      FilterIsSubsequence(sel, IsNot(id));
      SubsequenceNoDuplicates(Filter(sel, IsNot(id)), sel);
    }
  }

  /** Toggling twice always gives back the same set of ticked ids. */
  lemma ToggleTwiceSameMembers(sel: seq<int>, id: int)
    ensures forall x :: x in Toggle(Toggle(sel, id), id) <==> x in sel
  {
  }

  /**
   * Toggling twice gives back the very same list exactly when the id was
   * not ticked or was the last one ticked: a ticked id in the middle
   * comes back at the end.
   */
  lemma ToggleTwiceRestores(sel: seq<int>, id: int)
    requires NoDuplicates(sel)
    ensures Toggle(Toggle(sel, id), id) == sel <==> id !in sel || sel[|sel| - 1] == id
  {
    if id !in sel {
      ToggleTwiceAbsent(sel, id);
    } else if sel[|sel| - 1] == id {
      ToggleTwiceLast(sel, id);
    } else {
      ToggleTwiceMiddle(sel, id);
    }
  }

  lemma ToggleTwiceAbsent(sel: seq<int>, id: int)
    requires id !in sel
    ensures Toggle(Toggle(sel, id), id) == sel
  {
    assert Toggle(sel, id) == sel + [id];
    FilterAppend(sel, [id], IsNot(id));
    FilterAllKept(sel, IsNot(id));
    assert Filter([id], IsNot(id)) == Filter([], IsNot(id));
  }

  lemma ToggleTwiceLast(sel: seq<int>, id: int)
    requires NoDuplicates(sel) && id in sel && sel[|sel| - 1] == id
    ensures Toggle(Toggle(sel, id), id) == sel
  {
    var init := sel[..|sel| - 1];
    assert sel == init + [id];
    assert id !in init by {
      forall i | 0 <= i < |init| ensures init[i] != id {
        assert sel[i] != sel[|sel| - 1];
      }
    }
    FilterAppend(init, [id], IsNot(id));
    FilterAllKept(init, IsNot(id));
    assert Filter([id], IsNot(id)) == Filter([], IsNot(id));
    assert Toggle(sel, id) == init;
  }

  lemma ToggleTwiceMiddle(sel: seq<int>, id: int)
    requires id in sel && sel[|sel| - 1] != id
    ensures Toggle(Toggle(sel, id), id) != sel
  {
    var removed := Toggle(sel, id);
    assert id !in removed;
    var twice := removed + [id];
    assert Toggle(removed, id) == twice;
    assert twice[|twice| - 1] == id;
  }

  /** The order can change: ticking [1, 2] as 1 off and on again gives [2, 1]. */
  lemma ToggleTwiceCanReorder()
    ensures Toggle([1, 2], 1) == [2]
    ensures Toggle(Toggle([1, 2], 1), 1) == [2, 1]
  {
    assert Filter([1, 2], IsNot(1)) == Filter([2], IsNot(1));
    assert Filter([2], IsNot(1)) == [2] + Filter([], IsNot(1));
  }

  /** Changing the user always drops the ticks, whatever they were. */
  lemma UserChangeClearsSelection(st: EditorState, value: string)
    ensures HandleUserChange(st, value).selectedPermissions == []
    ensures HandleUserChange(st, value) == HandleUserChange(Initial, value)
  {
  }

  /**
   * Only the declared permissions have a check-box, so ticking and
   * unticking them keeps the ticked ids among the declared ones.
   */
  lemma TickingOfferedBoxStaysDeclared(st: EditorState, k: nat)
    requires k < |Permissions|
    requires forall x :: x in st.selectedPermissions ==> x in PermissionIds
    ensures forall x :: x in HandlePermissionChange(st, Permissions[k].id).selectedPermissions ==> x in PermissionIds
  {
    assert PermissionIds[k] == Permissions[k].id;
  }
}
