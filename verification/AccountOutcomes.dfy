/** When the account operations succeed, which error they give otherwise, and what deleting and choosing the primary
    account leave behind. */
module AccountOutcomes {
  import opened Text
  import opened AccountTable

  // The first account with the trimmed id.
  predicate FirstWithID(users: seq<User>, id: string, at: nat) {
    at < |users| && users[at].id == TrimSpace(id) && forall k | 0 <= k < at :: users[k].id != TrimSpace(id)
  }

  lemma IndexFindsFirst(users: seq<User>, id: string, at: nat)
    requires FirstWithID(users, id, at)
    ensures IndexOf(users, id) == at
  {
    hide TrimSpace;
  }

  /** An operation on an id no account has is refused and changes nothing. */
  lemma UnknownIsRefused(t: Table, id: string, change: Change, hash: Option<string>, written: bool)
    requires forall u | u in t.users :: u.id != TrimSpace(id)
    ensures Update(t, id, change, hash, written) == (t, Err(UserNotFound))
    ensures Delete(t, id, written) == (t, Err(UserNotFound))
    ensures SetPrimary(t, id, written) == (t, Err(UserNotFound))
  {
    hide TrimSpace;
  }

  // Some other account has the name, whatever its case.
  predicate NameInUse(t: Table, name: string, except: int) {
    exists i | 0 <= i < |t.users| :: i != except && SameUnder(t.users[i].username, name, t.fold)
  }

  predicate SameUnder(a: string, b: string, fold: CaseMap) {
    |a| == |b| && forall k | 0 <= k < |a| :: fold(a[k]) == fold(b[k])
  }

  lemma FoldIsLetterwise(a: string, b: string, fold: CaseMap)
    ensures EqualFold(a, b, fold) <==> SameUnder(a, b, fold)
  {
    MappedAt(a, fold);
    MappedAt(b, fold);
    if SameUnder(a, b, fold) {
      assert forall k | 0 <= k < |a| :: Mapped(a, fold)[k] == Mapped(b, fold)[k];
    }
    hide Mapped;
  }

  lemma TakenIsInUse(t: Table, name: string, except: int)
    ensures Taken(t.users, name, except, t.fold) <==> NameInUse(t, name, except)
  {
    hide EqualFold, SameUnder;
    forall i | 0 <= i < |t.users|
      ensures EqualFold(t.users[i].username, name, t.fold) <==> SameUnder(t.users[i].username, name, t.fold)
    {
      FoldIsLetterwise(t.users[i].username, name, t.fold);
    }
  }

  /** Creating an account fails for exactly these reasons, the earlier one first. */
  lemma CreateOutcome(t: Table, username: string, password: string, role: Role, digest: string, hash: Option<string>,
                      now: string, written: bool)
    ensures var r, name := Create(t, username, password, role, digest, hash, now, written).1, TrimSpace(username);
      && (r == Err(EmptyName) <==> name == "")
      && (r == Err(ShortPassword) <==> name != "" && ByteLength(password) < 6)
      && (r == Err(HashFailed) <==> name != "" && ByteLength(password) >= 6 && hash == None)
      && (r == Err(UsernameTaken) <==>
            name != "" && ByteLength(password) >= 6 && hash.Some? && NameInUse(t, name, -1))
      && (r == Err(WriteFailed) <==>
            name != "" && ByteLength(password) >= 6 && hash.Some? && !NameInUse(t, name, -1) && !written)
      && (r.Err? ==> r.error in {EmptyName, ShortPassword, HashFailed, UsernameTaken, WriteFailed})
      && (r.Ok? ==>
            r.value == PublicUser("u_" + digest, name, role, now, false, t.primary != "" && t.primary == "u_" + digest))
  {
    TakenIsInUse(t, TrimSpace(username), -1);
    hide TrimSpace, ByteLength, Taken, NameInUse;
  }

  // The name and the password of a change are acceptable.
  predicate NameFine(t: Table, at: nat, username: Option<string>) {
    username.Some? ==> !Blank(username.value) && !NameInUse(t, TrimSpace(username.value), at)
  }

  predicate PasswordFine(password: Option<string>, hash: Option<string>) {
    password.Some? ==> ByteLength(password.value) >= 6 && hash.Some?
  }

  function Shown(u: User, primary: string): PublicUser {
    PublicUser(u.id, u.username, u.role, u.createdAt, u.disabled, primary != "" && u.id == primary)
  }

  /** An update succeeds exactly if its name and password are acceptable, it spares the last enabled admin and the file
      could be written; the result shows the account as it is now. */
  lemma UpdateSucceedsIff(t: Table, id: string, at: nat, change: Change, hash: Option<string>, written: bool)
    requires FirstWithID(t.users, id, at)
    ensures var (t', r) := Update(t, id, change, hash, written);
      && (r.Ok? <==> NameFine(t, at, change.username) && PasswordFine(change.password, hash)
                     && (CountAdmins(t.users) <= 1 ==> !HitsGuard(t.users[at], change)) && written)
      && (r.Ok? ==> |t'.users| == |t.users| && r.value == Shown(t'.users[at], t.primary))
  {
    IndexFindsFirst(t.users, id, at);
    if change.username.Some? {
      TakenIsInUse(t, TrimSpace(change.username.value), at);
    }
    hide TrimSpace, ByteLength, CountAdmins, Taken, NameInUse, IndexOf, FirstWithID;
  }

  /** A deletion succeeds exactly if the account is not an admin while at most one is enabled, is not the primary one, and
      the file could be written. It takes out that account and no other, and keeps the order and the primary id. */
  lemma DeleteMeans(t: Table, id: string, at: nat, written: bool)
    requires FirstWithID(t.users, id, at)
    ensures var (t', r) := Delete(t, id, written);
      && (r.Ok? <==> !(t.users[at].role == Admin && CountAdmins(t.users) <= 1)
                     && !(t.primary != "" && t.users[at].id == t.primary) && written)
      && (r.Ok? ==>
            && |t'.users| == |t.users| - 1 && t'.primary == t.primary && t'.fold == t.fold
            && (forall i | 0 <= i < at :: t'.users[i] == t.users[i])
            && (forall i | at < i < |t.users| :: t'.users[i - 1] == t.users[i]))
      && (r.Err? ==> r.error in {LastAdmin, PrimaryProtected, WriteFailed})
      && (r == Err(LastAdmin) <==> t.users[at].role == Admin && CountAdmins(t.users) <= 1)
  {
    IndexFindsFirst(t.users, id, at);
    hide TrimSpace, CountAdmins, IndexOf, FirstWithID;
  }

  /** Choosing the primary account succeeds exactly for an enabled admin, if the file could be written; afterwards the
      primary id is that account's and the accounts are the same. */
  lemma SetPrimaryMeans(t: Table, id: string, at: nat, written: bool)
    requires FirstWithID(t.users, id, at)
    ensures var (t', r) := SetPrimary(t, id, written);
      && (r.Ok? <==> t.users[at].role == Admin && !t.users[at].disabled && written)
      && (r.Ok? ==> t'.users == t.users && t'.primary == t.users[at].id && t'.fold == t.fold)
      && (r == Err(NotAnEnabledAdmin) <==> !(t.users[at].role == Admin && !t.users[at].disabled))
  {
    IndexFindsFirst(t.users, id, at);
    hide TrimSpace, IndexOf, FirstWithID;
  }

  /** The number of enabled admins, by position: one more or less than without the account, or the same. */
  lemma CountAdminsIs(users: seq<User>, at: nat)
    requires at < |users|
    ensures CountAdmins([]) == 0
    ensures CountAdmins(users) ==
      CountAdmins(users[..at] + users[at + 1..]) + if users[at].role == Admin && !users[at].disabled then 1 else 0
  {
    CountAround(users, at, users[at]);
  }
}
