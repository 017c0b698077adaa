/** The backend's in-memory profile store: a slice of metadata records
    updated by upsert. */
module NativeUserMetadataStore {
  import opened Users
  import opened Domain
  import opened Slices

  function MetaUserId(m: UserMetadata): string { m.userId }

  const MetadataNotFound: Error := Error("native.UserMetadataStore.Get", Some(ENOTFOUND), "", None)

  /** The slice after an upsert of `u`: the first record for `u.userId` gets
      `u`'s name and image URL in place, or `u` is appended when there is none. */
  function Upsert(s: seq<UserMetadata>, u: UserMetadata): seq<UserMetadata>
  {
    var i := FirstIndex(s, MetaUserId, u.userId);
    if i == -1 then s + [u] else s[i := s[i].(name := u.name, imageUrl := u.imageUrl)]
  }

  class UserMetadataStore {
    var users: seq<UserMetadata>

    /** At most one record per user. */
    ghost predicate Valid()
      reads this
    {
      DistinctKeys(users, MetaUserId)
    }

    constructor ()
      ensures Valid() && users == []
    {
      users := [];
    }

    /** Upserts `user`; it never fails. */
    method Update(user: UserMetadata) returns (err: Option<Error>)
      modifies this
      ensures err == None
      ensures users == Upsert(old(users), user)
      ensures old(Valid()) ==> Valid()
    {
      var i := 0;
      while i < |users|
        invariant 0 <= i <= |users|
        invariant users == old(users)
        invariant forall j :: 0 <= j < i ==> MetaUserId(users[j]) != user.userId
      {
        if users[i].userId == user.userId {
          if Valid() { UpsertKeepsDistinct(users, user); }
          users := users[i := users[i].(name := user.name, imageUrl := user.imageUrl)];
          return None;
        }
        i := i + 1;
      }
      if Valid() { UpsertKeepsDistinct(users, user); }
      users := users + [user];
      return None;
    }

    /** The first record for `userID`, or ENOTFOUND. */
    method Get(userID: string) returns (r: Result<UserMetadata>)
      ensures var i := FirstIndex(users, MetaUserId, userID);
        if i == -1 then r == Err(MetadataNotFound) else r == Ok(users[i])
    {
      var i := 0;
      while i < |users|
        invariant 0 <= i <= |users|
        invariant forall j :: 0 <= j < i ==> MetaUserId(users[j]) != userID
      {
        if users[i].userId == userID {
          return Ok(users[i]);
        }
        i := i + 1;
      }
      return Err(MetadataNotFound);
    }
  }

  /** An upsert overwrites at most one record's name and image URL and
      otherwise only grows the slice by `u` at the end. */
  lemma UpsertFrame(s: seq<UserMetadata>, u: UserMetadata)
    ensures var r := Upsert(s, u);
      || (|r| == |s| + 1 && r[..|s|] == s && r[|s|] == u
          && forall j :: 0 <= j < |s| ==> s[j].userId != u.userId)
      || (|r| == |s| && exists i :: (0 <= i < |s| && s[i].userId == u.userId
            && r[i] == s[i].(name := u.name, imageUrl := u.imageUrl)
            && forall j :: 0 <= j < |s| && j != i ==> r[j] == s[j]))
  {
    var i := FirstIndex(s, MetaUserId, u.userId);
    if i == -1 {
      assert (s + [u])[..|s|] == s;
      forall j | 0 <= j < |s| ensures s[j].userId != u.userId {
        assert MetaUserId(s[j]) != u.userId;
      }
    } else {
      assert MetaUserId(s[i]) == u.userId;
    }
  }

  /** Round trip: after upserting `u`, looking up `u.userId` finds a record
      carrying `u`'s name and image URL. */
  lemma UpsertThenGet(s: seq<UserMetadata>, u: UserMetadata)
    ensures var r := Upsert(s, u);
      var k := FirstIndex(r, MetaUserId, u.userId);
      k >= 0 && r[k].name == u.name && r[k].imageUrl == u.imageUrl
  {
    var r := Upsert(s, u);
    var i := FirstIndex(s, MetaUserId, u.userId);
    if i == -1 {
      assert MetaUserId(r[|s|]) == u.userId;
      forall j | 0 <= j < |s| ensures MetaUserId(r[j]) != u.userId {
        assert r[j] == s[j];
      }
      assert FirstIndex(r, MetaUserId, u.userId) == |s|;
    } else {
      assert MetaUserId(r[i]) == u.userId;
      forall j | 0 <= j < i ensures MetaUserId(r[j]) != u.userId {
        assert r[j] == s[j];
      }
      assert FirstIndex(r, MetaUserId, u.userId) == i;
    }
  }

  /** An upsert keeps at most one record per user. */
  lemma UpsertKeepsDistinct(s: seq<UserMetadata>, u: UserMetadata)
    requires DistinctKeys(s, MetaUserId)
    ensures DistinctKeys(Upsert(s, u), MetaUserId)
  {
    var i := FirstIndex(s, MetaUserId, u.userId);
    if i == -1 {
      AppendFreshKeepsDistinct(s, MetaUserId, u);
    } else {
      var r := Upsert(s, u);
      forall a, b | 0 <= a < b < |r| ensures MetaUserId(r[a]) != MetaUserId(r[b]) {
        assert MetaUserId(r[a]) == MetaUserId(s[a]) && MetaUserId(r[b]) == MetaUserId(s[b]);
      }
    }
  }
}
