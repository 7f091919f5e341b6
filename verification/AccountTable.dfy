/** The account table as a value: what create, update, delete and set-primary make of it. */
module AccountTable {
  import opened Text

  datatype Role = Admin | Plain

  datatype User = User(id: string, username: string, passwordHash: string, role: Role, createdAt: string, disabled: bool)

  datatype Error =
    | EmptyName | ShortPassword | HashFailed | WriteFailed
    | UsernameTaken | UserNotFound | NotAnEnabledAdmin | LastAdmin | PrimaryProtected

  datatype Result<+T> = Ok(value: T) | Err(error: Error)

  // A user as the outside sees it: without the hash, and marked when it is the primary account.
  datatype PublicUser =
    PublicUser(id: string, username: string, role: Role, createdAt: string, disabled: bool, primary: bool)

  // fold is the case mapping user names are compared under; no operation changes it.
  datatype Table = Table(users: seq<User>, primary: string, fold: CaseMap)

  // An absent field is left alone.
  datatype Change =
    Change(username: Option<string>, password: Option<string>, role: Option<Role>, disabled: Option<bool>)

  const MIN_PASSWORD: nat := 6

  // ---- lookups ----

  function UserFrom(users: seq<User>, id: string, from: nat): (i: int)
    requires from <= |users|
    ensures i == -1 || (from <= i < |users| && users[i].id == id)
    ensures forall k | from <= k < (if i == -1 then |users| else i) :: users[k].id != id
    decreases |users| - from
  {
    if from == |users| then -1 else if users[from].id == id then from else UserFrom(users, id, from + 1)
  }

  // The first account with the trimmed id, or -1.
  function IndexOf(users: seq<User>, id: string): (i: int)
    ensures -1 <= i < |users|
  {
    UserFrom(users, TrimSpace(id), 0)
  }

  predicate EnabledAdmin(u: User) {
    u.role.Admin? && !u.disabled
  }

  function CountAdmins(users: seq<User>): nat {
    if users == [] then 0
    else CountAdmins(users[..|users| - 1]) + if EnabledAdmin(users[|users| - 1]) then 1 else 0
  }

  // Another account than the one at `except` has this name.
  predicate Taken(users: seq<User>, name: string, except: int, fold: CaseMap) {
    exists i | 0 <= i < |users| :: i != except && EqualFold(users[i].username, name, fold)
  }

  function Public(t: Table, u: User): PublicUser {
    PublicUser(u.id, u.username, u.role, u.createdAt, u.disabled, t.primary != "" && u.id == t.primary)
  }

  // DeriveAccountID; the digest of the name is a parameter.
  function AccountID(digest: string): string {
    "u_" + digest
  }

  // ---- operations; hash is None when bcrypt fails, written says whether the file was written ----

  function Create(t: Table, username: string, password: string, role: Role, digest: string, hash: Option<string>,
                  now: string, written: bool): (Table, Result<PublicUser>)
  {
    var name := TrimSpace(username);
    if name == "" then (t, Err(EmptyName))
    else if ByteLength(password) < MIN_PASSWORD then (t, Err(ShortPassword))
    else if hash.None? then (t, Err(HashFailed))
    else if Taken(t.users, name, -1, t.fold) then (t, Err(UsernameTaken))
    else if !written then (t, Err(WriteFailed))
    else
      var user := User(AccountID(digest), name, hash.value, role, now, false);
      var t' := t.(users := t.users + [user]);
      (t', Ok(Public(t', user)))
  }

  function Renamed(users: seq<User>, fold: CaseMap, at: nat, u: User, username: Option<string>): Result<User> {
    if username.None? then Ok(u)
    else
      var name := TrimSpace(username.value);
      if name == "" then Err(EmptyName)
      else if Taken(users, name, at, fold) then Err(UsernameTaken)
      else Ok(u.(username := name))
  }

  function Repassworded(u: User, password: Option<string>, hash: Option<string>): Result<User> {
    if password.None? then Ok(u)
    else if ByteLength(password.value) < MIN_PASSWORD then Err(ShortPassword)
    else if hash.None? then Err(HashFailed)
    else Ok(u.(passwordHash := hash.value))
  }

  function Reroled(users: seq<User>, u: User, role: Option<Role>): Result<User> {
    if role.None? then Ok(u)
    else if u.role.Admin? && !role.value.Admin? && CountAdmins(users) <= 1 then Err(LastAdmin)
    else Ok(u.(role := role.value))
  }

  function Switched(users: seq<User>, u: User, disabled: Option<bool>): Result<User> {
    if disabled.None? then Ok(u)
    else if disabled.value && u.role.Admin? && CountAdmins(users) <= 1 then Err(LastAdmin)
    else Ok(u.(disabled := disabled.value))
  }

  // The four fields in the order the source looks at them.
  function Changed(users: seq<User>, fold: CaseMap, at: nat, change: Change, hash: Option<string>): Result<User>
    requires at < |users|
  {
    var named := Renamed(users, fold, at, users[at], change.username);
    if named.Err? then named
    else
      var hashed := Repassworded(named.value, change.password, hash);
      if hashed.Err? then hashed
      else
        var roled := Reroled(users, hashed.value, change.role);
        if roled.Err? then roled else Switched(users, roled.value, change.disabled)
  }

  function Update(t: Table, id: string, change: Change, hash: Option<string>, written: bool): (Table, Result<PublicUser>)
  {
    var at := IndexOf(t.users, id);
    if at < 0 then (t, Err(UserNotFound))
    else
      var changed := Changed(t.users, t.fold, at, change, hash);
      if changed.Err? then (t, Err(changed.error))
      else if !written then (t, Err(WriteFailed))
      else
        var t' := t.(users := t.users[at := changed.value]);
        (t', Ok(Public(t', changed.value)))
  }

  function WithoutUser(users: seq<User>, at: nat): seq<User>
    requires at < |users|
  {
    users[..at] + users[at + 1..]
  }

  function Delete(t: Table, id: string, written: bool): (Table, Result<()>) {
    var at := IndexOf(t.users, id);
    if at < 0 then (t, Err(UserNotFound))
    else if t.users[at].role.Admin? && CountAdmins(t.users) <= 1 then (t, Err(LastAdmin))
    else if t.primary != "" && t.users[at].id == t.primary then (t, Err(PrimaryProtected))
    else if !written then (t, Err(WriteFailed))
    else (t.(users := WithoutUser(t.users, at)), Ok(()))
  }

  function SetPrimary(t: Table, id: string, written: bool): (Table, Result<()>) {
    var at := IndexOf(t.users, id);
    if at < 0 then (t, Err(UserNotFound))
    else if !EnabledAdmin(t.users[at]) then (t, Err(NotAnEnabledAdmin))
    else if !written then (t, Err(WriteFailed))
    else (t.(primary := t.users[at].id), Ok(()))
  }

  // ---- what every run keeps ----

  ghost predicate NamesDiffer(users: seq<User>, fold: CaseMap) {
    forall i, j | 0 <= i < j < |users| :: !EqualFold(users[i].username, users[j].username, fold)
  }

  // The primary id names an account; ids are never empty.
  predicate PrimaryNamed(t: Table) {
    && (forall i | 0 <= i < |t.users| :: t.users[i].id != "")
    && exists i | 0 <= i < |t.users| :: t.users[i].id == t.primary
  }

  ghost predicate Sound(t: Table) {
    CountAdmins(t.users) >= 1 && NamesDiffer(t.users, t.fold) && PrimaryNamed(t)
  }

  lemma CountOfAppend(users: seq<User>, u: User)
    ensures CountAdmins(users + [u]) == CountAdmins(users) + if EnabledAdmin(u) then 1 else 0
  {
    assert (users + [u])[..|users|] == users;
  }

  lemma {:induction false} CountOfJoin(a: seq<User>, b: seq<User>)
    ensures CountAdmins(a + b) == CountAdmins(a) + CountAdmins(b)
  {
    if b == [] {
      assert a + b == a;
    } else {
      assert (a + b)[..|a + b| - 1] == a + b[..|b| - 1];
      CountOfJoin(a, b[..|b| - 1]);
    }
  }

  lemma CountAround(users: seq<User>, at: nat, u: User)
    requires at < |users|
    ensures CountAdmins(users) == CountAdmins(WithoutUser(users, at)) + if EnabledAdmin(users[at]) then 1 else 0
    ensures CountAdmins(users[at := u]) == CountAdmins(WithoutUser(users, at)) + if EnabledAdmin(u) then 1 else 0
  {
    var front, back := users[..at], users[at + 1..];
    CountOfJoin(front, back);
    assert users == (front + [users[at]]) + back && users[at := u] == (front + [u]) + back;
    CountOfJoin(front + [users[at]], back);
    CountOfJoin(front + [u], back);
    CountOfAppend(front, users[at]);
    CountOfAppend(front, u);
  }

  lemma CreateKeepsSound(t: Table, username: string, password: string, role: Role, digest: string, hash: Option<string>,
                         now: string, written: bool)
    requires Sound(t)
    ensures Sound(Create(t, username, password, role, digest, hash, now, written).0)
  {
    var t' := Create(t, username, password, role, digest, hash, now, written).0;
    if t' != t {
      var name := TrimSpace(username);
      CountOfAppend(t.users, t'.users[|t.users|]);
      assert forall i | 0 <= i < |t.users| :: !EqualFold(t.users[i].username, name, t.fold);
      var i :| 0 <= i < |t.users| && t.users[i].id == t.primary;
      assert t'.users[i].id == t'.primary;
    }
  }

  // A change never turns the last enabled admin into something else.
  lemma ChangeKeepsAnAdmin(users: seq<User>, fold: CaseMap, at: nat, change: Change, hash: Option<string>)
    requires at < |users| && CountAdmins(users) >= 1
    requires Changed(users, fold, at, change, hash).Ok?
    ensures CountAdmins(users[at := Changed(users, fold, at, change, hash).value]) >= 1
    ensures Changed(users, fold, at, change, hash).value.id == users[at].id
  {
    CountAround(users, at, Changed(users, fold, at, change, hash).value);
  }

  lemma ChangeKeepsNamesDifferent(users: seq<User>, fold: CaseMap, at: nat, change: Change, hash: Option<string>)
    requires at < |users| && NamesDiffer(users, fold) && Changed(users, fold, at, change, hash).Ok?
    ensures NamesDiffer(users[at := Changed(users, fold, at, change, hash).value], fold)
  {
    var u := Changed(users, fold, at, change, hash).value;
    var users' := users[at := u];
    assert u.username == users[at].username || !Taken(users, u.username, at, fold);
    forall i, j | 0 <= i < j < |users'| ensures !EqualFold(users'[i].username, users'[j].username, fold) {
      if i == at && u.username != users[at].username {
        assert !EqualFold(users[j].username, u.username, fold);
      } else if j == at && u.username != users[at].username {
        assert !EqualFold(users[i].username, u.username, fold);
      } else {
        assert !EqualFold(users[i].username, users[j].username, fold);
      }
    }
  }

  lemma UpdateKeepsSound(t: Table, id: string, change: Change, hash: Option<string>, written: bool)
    requires Sound(t)
    ensures Sound(Update(t, id, change, hash, written).0)
  {
    var t' := Update(t, id, change, hash, written).0;
    if t' != t {
      var at := IndexOf(t.users, id);
      ChangeKeepsAnAdmin(t.users, t.fold, at, change, hash);
      ChangeKeepsNamesDifferent(t.users, t.fold, at, change, hash);
      var i :| 0 <= i < |t.users| && t.users[i].id == t.primary;
      assert t'.users[i].id == t'.primary;
    }
  }

  lemma DeleteKeepsNames(users: seq<User>, fold: CaseMap, at: nat)
    requires at < |users| && NamesDiffer(users, fold)
    ensures NamesDiffer(WithoutUser(users, at), fold)
  {
    hide EqualFold;
    var users' := WithoutUser(users, at);
    forall j, k | 0 <= j < k < |users'| ensures !EqualFold(users'[j].username, users'[k].username, fold) {
      var j', k' := if j < at then j else j + 1, if k < at then k else k + 1;
      assert !EqualFold(users[j'].username, users[k'].username, fold);
    }
  }

  lemma DeleteKeepsPrimary(t: Table, at: nat)
    requires at < |t.users| && PrimaryNamed(t) && t.users[at].id != t.primary
    ensures PrimaryNamed(t.(users := WithoutUser(t.users, at)))
  {
    var users' := WithoutUser(t.users, at);
    var i :| 0 <= i < |t.users| && t.users[i].id == t.primary;
    assert users'[if i < at then i else i - 1] == t.users[i];
    forall j | 0 <= j < |users'| ensures users'[j].id != "" {
      assert users'[j] == t.users[if j < at then j else j + 1];
    }
  }

  lemma DeleteKeepsSound(t: Table, id: string, written: bool)
    requires Sound(t)
    ensures Sound(Delete(t, id, written).0)
  {
    hide NamesDiffer, CountAdmins, IndexOf, PrimaryNamed, WithoutUser;
    var at := IndexOf(t.users, id);
    if at >= 0 {
      CountAround(t.users, at, t.users[at]);
      DeleteKeepsNames(t.users, t.fold, at);
      PrimaryNotEmpty(t);
      if t.users[at].id != t.primary {
        DeleteKeepsPrimary(t, at);
      }
    }
  }

  lemma PrimaryNotEmpty(t: Table)
    requires PrimaryNamed(t)
    ensures t.primary != ""
  {
  }

  lemma SetPrimaryKeepsSound(t: Table, id: string, written: bool)
    requires Sound(t)
    ensures Sound(SetPrimary(t, id, written).0)
  {
  }

  // ---- runs ----

  datatype Op =
    | CreateOp(username: string, password: string, role: Role, digest: string, hash: Option<string>, now: string)
    | UpdateOp(id: string, change: Change, hash: Option<string>)
    | DeleteOp(id: string)
    | SetPrimaryOp(id: string)

  // One call, and whether its write to disk succeeded.
  datatype Call = Call(op: Op, written: bool)

  function Step(t: Table, call: Call): (Table, bool) {
    match call.op
    case CreateOp(username, password, role, digest, hash, now) =>
      var (t', r) := Create(t, username, password, role, digest, hash, now, call.written);
      (t', r.Ok?)
    case UpdateOp(id, change, hash) =>
      var (t', r) := Update(t, id, change, hash, call.written);
      (t', r.Ok?)
    case DeleteOp(id) =>
      var (t', r) := Delete(t, id, call.written);
      (t', r.Ok?)
    case SetPrimaryOp(id) =>
      var (t', r) := SetPrimary(t, id, call.written);
      (t', r.Ok?)
  }

  function Run(t: Table, calls: seq<Call>): Table {
    if calls == [] then t else Step(Run(t, calls[..|calls| - 1]), calls[|calls| - 1]).0
  }

  /** A call that returns an error leaves the table as it was; a call that succeeds was written to disk. */
  lemma ErrorsChangeNothing(t: Table, call: Call)
    ensures !Step(t, call).1 ==> Step(t, call).0 == t
    ensures Step(t, call).1 ==> call.written
  {
    hide Changed, Taken;
  }

  /** From a sound table every run of creations, updates, deletions and transfers keeps an enabled admin, keeps
      user names distinct ignoring case, and keeps the primary id naming an account. */
  lemma {:induction false} RunsStaySound(t: Table, calls: seq<Call>)
    requires Sound(t)
    ensures Sound(Run(t, calls))
  {
    if calls != [] {
      var before, call := Run(t, calls[..|calls| - 1]), calls[|calls| - 1];
      RunsStaySound(t, calls[..|calls| - 1]);
      hide Sound, Create, Update, Delete, SetPrimary;
      match call.op
      case CreateOp(username, password, role, digest, hash, now) =>
        CreateKeepsSound(before, username, password, role, digest, hash, now, call.written);
      case UpdateOp(id, change, hash) => UpdateKeepsSound(before, id, change, hash, call.written);
      case DeleteOp(id) => DeleteKeepsSound(before, id, call.written);
      case SetPrimaryOp(id) => SetPrimaryKeepsSound(before, id, call.written);
    }
  }

  // What the account at `at` would be after the change, guards aside.
  function Wanted(u: User, change: Change): User {
    u.(role := if change.role.Some? then change.role.value else u.role,
       disabled := if change.disabled.Some? then change.disabled.value else u.disabled)
  }

  /** The last-admin guard of a deletion, for every account: it refuses whenever no enabled admin would be left,
      and it refuses although one would be left exactly for a disabled admin beside a single enabled one. */
  lemma LastAdminGuard(t: Table, id: string, written: bool)
    requires Sound(t) && IndexOf(t.users, id) >= 0
    ensures var at := IndexOf(t.users, id);
      var u, left := t.users[at], CountAdmins(WithoutUser(t.users, at));
      var refused := Delete(t, id, written).1 == Err(LastAdmin);
      && (left == 0 ==> refused)
      && (refused && left > 0 <==> u.role.Admin? && u.disabled && CountAdmins(t.users) == 1)
  {
    var at := IndexOf(t.users, id);
    CountAround(t.users, at, t.users[at]);
  }

  // The change demotes an admin, or disables an account that is an admin after it.
  predicate HitsGuard(u: User, change: Change) {
    (u.role.Admin? && change.role == Some(Plain)) || (Wanted(u, change).role.Admin? && change.disabled == Some(true))
  }

  /** The last-admin guard of an update, for every account and every combination of fields whose name and password
      parts pass: it refuses whenever no enabled admin would be left, and it refuses although one would be left
      exactly when a single admin is enabled, the account is not that one, and the change demotes a disabled admin
      or makes or keeps the account a disabled admin. */
  lemma LastAdminUpdateGuard(t: Table, id: string, change: Change, hash: Option<string>, written: bool)
    requires Sound(t) && IndexOf(t.users, id) >= 0
    requires var at := IndexOf(t.users, id);
      && Renamed(t.users, t.fold, at, t.users[at], change.username).Ok?
      && Repassworded(t.users[at], change.password, hash).Ok?
    ensures var at := IndexOf(t.users, id);
      var u, u' := t.users[at], Wanted(t.users[at], change);
      var left := CountAdmins(t.users[at := u']);
      var refused := Update(t, id, change, hash, written).1 == Err(LastAdmin);
      && (left == 0 ==> refused)
      && (refused && left > 0 <==>
            CountAdmins(t.users) == 1 && !EnabledAdmin(u) && HitsGuard(u, change))
  {
    hide *;
    var at := IndexOf(t.users, id);
    UpdateRefused(t, id, change, hash, written);
    OneAdminLeft(t, at, change);
  }

  lemma UpdateRefused(t: Table, id: string, change: Change, hash: Option<string>, written: bool)
    requires IndexOf(t.users, id) >= 0
    requires var at := IndexOf(t.users, id);
      && Renamed(t.users, t.fold, at, t.users[at], change.username).Ok?
      && Repassworded(t.users[at], change.password, hash).Ok?
    ensures Update(t, id, change, hash, written).1 == Err(LastAdmin) <==>
      CountAdmins(t.users) <= 1 && HitsGuard(t.users[IndexOf(t.users, id)], change)
  {
    hide Taken, CountAdmins, IndexOf, TrimSpace, ByteLength;
  }

  lemma OneAdminLeft(t: Table, at: nat, change: Change)
    requires Sound(t) && at < |t.users|
    ensures var u, left := t.users[at], CountAdmins(t.users[at := Wanted(t.users[at], change)]);
      && (left == 0 ==> CountAdmins(t.users) == 1 && HitsGuard(u, change))
      && (HitsGuard(u, change) && CountAdmins(t.users) == 1 ==> (left > 0 <==> !EnabledAdmin(u)))
      && CountAdmins(t.users) >= 1
  {
    CountAround(t.users, at, Wanted(t.users[at], change));
    hide CountAdmins, NamesDiffer, PrimaryNamed;
  }

  // ---- what a successful call does ----

  /** A successful update touches the first account with the id and nothing else: each given field has its new
      value, each absent one its old, and the id and the creation time stay. */
  lemma UpdateMeans(t: Table, id: string, change: Change, hash: Option<string>, written: bool)
    requires Update(t, id, change, hash, written).1.Ok?
    ensures var at, t' := IndexOf(t.users, id), Update(t, id, change, hash, written).0;
      && at >= 0 && t'.primary == t.primary && |t'.users| == |t.users|
      && (forall i | 0 <= i < |t.users| && i != at :: t'.users[i] == t.users[i])
      && var u, u' := t.users[at], t'.users[at];
      && u'.id == u.id && u'.createdAt == u.createdAt
      && u'.username == (if change.username.Some? then TrimSpace(change.username.value) else u.username)
      && u'.passwordHash == (if change.password.Some? then hash.value else u.passwordHash)
      && u'.role == (if change.role.Some? then change.role.value else u.role)
      && u'.disabled == (if change.disabled.Some? then change.disabled.value else u.disabled)
      && (change.username.Some? ==> u'.username != "" && !Taken(t.users, u'.username, at, t.fold))
      && (change.password.Some? ==> ByteLength(change.password.value) >= MIN_PASSWORD)
  {
    hide Taken, CountAdmins;
  }

  /** A successful creation adds one enabled account at the end, under a name nobody had. */
  lemma CreateMeans(t: Table, username: string, password: string, role: Role, digest: string, hash: Option<string>,
                    now: string, written: bool)
    requires Create(t, username, password, role, digest, hash, now, written).1.Ok?
    ensures var t' := Create(t, username, password, role, digest, hash, now, written).0;
      && t'.primary == t.primary && |t'.users| == |t.users| + 1 && t'.users[..|t.users|] == t.users
      && var u := t'.users[|t.users|];
      && u == User(AccountID(digest), TrimSpace(username), hash.value, role, now, false)
      && u.username != "" && ByteLength(password) >= MIN_PASSWORD
      && forall i | 0 <= i < |t.users| :: !EqualFold(t.users[i].username, u.username, t.fold)
  {
  }
}
