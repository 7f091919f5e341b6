/** The account store: every method under its mutex, proved against the table functions. */
module AccountStore {
  import opened Text
  import opened AccountTable

  class Store {
    var users: seq<User>
    var primaryID: string
    const fold: CaseMap

    function Abs(): Table
      reads this
    {
      Table(users, primaryID, fold)
    }

    constructor (users: seq<User>, primaryID: string, fold: CaseMap)
      ensures Abs() == Table(users, primaryID, fold)
    {
      this.users, this.primaryID, this.fold := users, primaryID, fold;
    }

    method IndexLocked(id: string) returns (at: int)
      ensures at == IndexOf(users, id)
    {
      var want := TrimSpace(id);
      for i := 0 to |users|
        invariant IndexOf(users, id) == UserFrom(users, want, i)
      {
        if users[i].id == want {
          return i;
        }
      }
      return -1;
    }

    method CountAdminsLocked() returns (n: nat)
      ensures n == CountAdmins(users)
    {
      n := 0;
      for i := 0 to |users|
        invariant n == CountAdmins(users[..i])
      {
        assert users[..i + 1] == users[..i] + [users[i]];
        CountOfAppend(users[..i], users[i]);
        if users[i].role == Admin && !users[i].disabled {
          n := n + 1;
        }
      }
      assert users[..|users|] == users;
    }

    method NameTaken(name: string, except: int) returns (taken: bool)
      ensures taken == Taken(users, name, except, fold)
    {
      for i := 0 to |users|
        invariant forall k | 0 <= k < i :: k == except || !EqualFold(users[k].username, name, fold)
      {
        if i != except && EqualFold(users[i].username, name, fold) {
          return true;
        }
      }
      return false;
    }

    // written says whether the file could be written; the fields change only after that.
    method CreateUser(username: string, password: string, role: Role, digest: string, hash: Option<string>,
                      now: string, written: bool) returns (r: Result<PublicUser>)
      modifies this
      ensures (Abs(), r) == Create(old(Abs()), username, password, role, digest, hash, now, written)
    {
      var name := TrimSpace(username);
      if name == "" {
        return Err(EmptyName);
      }
      if ByteLength(password) < MIN_PASSWORD {
        return Err(ShortPassword);
      }
      if hash.None? {
        return Err(HashFailed);
      }
      var taken := NameTaken(name, -1);
      if taken {
        return Err(UsernameTaken);
      }
      var user := User(AccountID(digest), name, hash.value, role, now, false);
      var next := users + [user];
      if !written {
        return Err(WriteFailed);
      }
      users := next;
      r := Ok(Public(Abs(), user));
    }

    // The four changes to a copy of the account, in order; the first error wins.
    method ChangedUser(idx: nat, change: Change, hash: Option<string>) returns (r: Result<User>)
      requires idx < |users|
      ensures r == Changed(users, fold, idx, change, hash)
    {
      hide TrimSpace, ByteLength, CountAdmins, EqualFold;
      var cur := users[idx];
      if change.username.Some? {
        var name := TrimSpace(change.username.value);
        if name == "" {
          return Err(EmptyName);
        }
        var taken := NameTaken(name, idx);
        if taken {
          return Err(UsernameTaken);
        }
        cur := cur.(username := name);
      }
      if change.password.Some? {
        if ByteLength(change.password.value) < MIN_PASSWORD {
          return Err(ShortPassword);
        }
        if hash.None? {
          return Err(HashFailed);
        }
        cur := cur.(passwordHash := hash.value);
      }
      var admins := CountAdminsLocked();
      if change.role.Some? {
        if cur.role == Admin && change.role.value != Admin && admins <= 1 {
          return Err(LastAdmin);
        }
        cur := cur.(role := change.role.value);
      }
      if change.disabled.Some? {
        if change.disabled.value && cur.role == Admin && admins <= 1 {
          return Err(LastAdmin);
        }
        cur := cur.(disabled := change.disabled.value);
      }
      r := Ok(cur);
    }

    method UpdateUser(id: string, change: Change, hash: Option<string>, written: bool) returns (r: Result<PublicUser>)
      modifies this
      ensures (Abs(), r) == Update(old(Abs()), id, change, hash, written)
    {
      hide Public, Changed;
      var idx := IndexLocked(id);
      if idx < 0 {
        return Err(UserNotFound);
      }
      var cur := ChangedUser(idx, change, hash);
      if cur.Err? {
        return Err(cur.error);
      }
      if !written {
        return Err(WriteFailed);
      }
      users := users[idx := cur.value];
      r := Ok(Public(Abs(), cur.value));
    }

    method DeleteUser(id: string, written: bool) returns (r: Result<()>)
      modifies this
      ensures (Abs(), r) == Delete(old(Abs()), id, written)
    {
      var idx := IndexLocked(id);
      if idx < 0 {
        return Err(UserNotFound);
      }
      var admins := CountAdminsLocked();
      if users[idx].role == Admin && admins <= 1 {
        return Err(LastAdmin);
      }
      if primaryID != "" && users[idx].id == primaryID {
        return Err(PrimaryProtected);
      }
      if !written {
        return Err(WriteFailed);
      }
      users := users[..idx] + users[idx + 1..];
      r := Ok(());
    }

    method TransferPrimary(id: string, written: bool) returns (r: Result<()>)
      modifies this
      ensures (Abs(), r) == SetPrimary(old(Abs()), id, written)
    {
      var idx := IndexLocked(id);
      if idx < 0 {
        return Err(UserNotFound);
      }
      if users[idx].role != Admin || users[idx].disabled {
        return Err(NotAnEnabledAdmin);
      }
      if !written {
        return Err(WriteFailed);
      }
      primaryID := users[idx].id;
      r := Ok(());
    }
  }
}
