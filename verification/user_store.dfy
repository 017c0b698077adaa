/** The backend's in-memory user store: a slice of users and a counter from
    which each inserted user's identifier is rendered. */
module NativeUserStore {
  import opened Users
  import opened Domain
  import opened Slices
  import opened Strconv

  function UserId(u: User): string { u.id }
  function Email(u: User): string { u.email }
  /** The counter value an identifier was rendered from. */
  function IdNumber(u: User): int { DecimalValue(u.id) }

  function UserNotFound(op: string): Error
  {
    Error(op, Some(ENOTFOUND), "user does not exist", None)
  }

  /** Emails are pairwise distinct; the store itself does not enforce it. */
  ghost predicate EmailsUnique(users: seq<User>)
  {
    DistinctKeys(users, Email)
  }

  class UserStore {
    var users: seq<User>
    var id: nat

    /** Every identifier was rendered from a counter value in 1..id, and
        identifiers grow along the slice. */
    ghost predicate Valid()
      reads this
    {
      && (forall i :: 0 <= i < |users| ==> 1 <= IdNumber(users[i]) <= id)
      && IncreasingBy(users, IdNumber)
    }

    constructor ()
      ensures Valid() && users == [] && id == 0
    {
      users := [];
      id := 0;
    }

    /** Bumps the counter, stamps the user with it and appends; no check on
        the email, and no failure. */
    method Insert(user: User) returns (stored: User)
      requires Valid()
      modifies this
      ensures Valid()
      ensures id == old(id) + 1
      ensures stored == user.(id := Itoa(id))
      ensures users == old(users) + [stored]
      ensures FirstIndex(old(users), UserId, stored.id) == -1
    {
      id := id + 1;
      stored := user.(id := Itoa(id));
      DecimalValueOfItoa(id);
      assert forall i :: 0 <= i < |users| ==> UserId(users[i]) != stored.id by {
        forall i | 0 <= i < |users| ensures UserId(users[i]) != stored.id {
          assert IdNumber(users[i]) < IdNumber(stored);
        }
      }
      users := users + [stored];
    }

    /** Removes the first user whose identifier matches, keeping the rest in
        order; with no match the slice is untouched. */
    method Remove(user: User) returns (err: Option<Error>)
      requires Valid()
      modifies this
      ensures Valid() && id == old(id)
      ensures var i := FirstIndex(old(users), UserId, user.id);
        if i == -1 then err == Some(UserNotFound("UserStore.Remove")) && users == old(users)
        else err == None && users == RemoveAt(old(users), i)
      ensures EmailsUnique(old(users)) ==> EmailsUnique(users)
    {
      var i := 0;
      while i < |users|
        invariant 0 <= i <= |users|
        invariant forall j :: 0 <= j < i ==> UserId(users[j]) != user.id
      {
        if users[i].id == user.id {
          RemoveAtKeepsIncreasing(users, IdNumber, i);
          if EmailsUnique(users) { RemoveAtKeepsDistinct(users, Email, i); }
          users := RemoveAt(users, i);
          return None;
        }
        i := i + 1;
      }
      return Some(UserNotFound("UserStore.Remove"));
    }

    /** The first user with identifier `userId`, or ENOTFOUND. */
    method FindById(userId: string) returns (r: Result<User>)
      ensures var i := FirstIndex(users, UserId, userId);
        if i == -1 then r == Err(UserNotFound("UserStore.FindById")) else r == Ok(users[i])
    {
      var i := 0;
      while i < |users|
        invariant 0 <= i <= |users|
        invariant forall j :: 0 <= j < i ==> UserId(users[j]) != userId
      {
        if userId == users[i].id {
          return Ok(users[i]);
        }
        i := i + 1;
      }
      return Err(UserNotFound("UserStore.FindById"));
    }

    /** The first user with this email, or ENOTFOUND. */
    method FindByEmail(email: string) returns (r: Result<User>)
      ensures var i := FirstIndex(users, Email, email);
        if i == -1 then r == Err(UserNotFound("UserStore.FindByEmail")) else r == Ok(users[i])
    {
      var i := 0;
      while i < |users|
        invariant 0 <= i <= |users|
        invariant forall j :: 0 <= j < i ==> Email(users[j]) != email
      {
        if email == users[i].email {
          return Ok(users[i]);
        }
        i := i + 1;
      }
      return Err(UserNotFound("UserStore.FindByEmail"));
    }

    /** Whether some stored user has this email; never fails. */
    method CheckByEmail(email: string) returns (found: bool)
      ensures found <==> exists i :: 0 <= i < |users| && users[i].email == email
    {
      var i := 0;
      while i < |users|
        invariant 0 <= i <= |users|
        invariant forall j :: 0 <= j < i ==> users[j].email != email
      {
        if email == users[i].email {
          return true;
        }
        i := i + 1;
      }
      return false;
    }
  }

  /** The existence check and the lookup by email agree: the check answers
      true exactly when the lookup finds a user. */
  lemma CheckAgreesWithFind(users: seq<User>, email: string)
    ensures (exists i :: 0 <= i < |users| && users[i].email == email)
        <==> FirstIndex(users, Email, email) != -1
  {
    if FirstIndex(users, Email, email) == -1 {
      forall i | 0 <= i < |users| ensures users[i].email != email {
        assert Email(users[i]) != email;
      }
    } else {
      var k := FirstIndex(users, Email, email);
      assert users[k].email == email;
    }
  }

  /** Identifiers of a valid store are pairwise distinct. */
  lemma IdsDistinct(users: seq<User>)
    requires IncreasingBy(users, IdNumber)
    ensures DistinctKeys(users, UserId)
  {
    forall i, j | 0 <= i < j < |users| ensures UserId(users[i]) != UserId(users[j]) {
      assert IdNumber(users[i]) < IdNumber(users[j]);
    }
  }
}
