/** The profiles repository: a user's public profile, with `following` computed relative to the
    user who asks. */
module ProfilesRepository {
  import opened Wrappers
  import opened Store
  import AuthenticationRepository

  /** The Profile domain model; `following` is false unless set. */
  datatype Profile = Profile(username: string, bio: string, image: Option<string>, following: bool := false)

  /** is_user_following_for_another_user: whether the requesting user follows the target, asked of
      the relation with the requester as follower and the target as followed. */
  predicate IsUserFollowingForAnotherUser(t: Tables, targetUsername: string, requestedUsername: string)
  {
    (requestedUsername, targetUsername) in t.followers
  }

  /** get_profile_by_username. `requestedUser` is the username of the user asking, if any; without
      one the follower relation is not consulted. */
  function GetProfileByUsername(t: Tables, username: string, requestedUser: Option<string>): (r: Result<Profile, DbError>)
    ensures r.Failure? <==> !UsernameTaken(t, username)
    ensures r.Failure? ==> r.error == EntityDoesNotExist("user with username " + username + " does not exist")
    ensures r.Success? ==> r.value.username == username
    ensures r.Success? ==> var user := AuthenticationRepository.GetUserByUsername(t, username).value;
      r.value.bio == user.bio && r.value.image == user.image
    ensures r.Success? && requestedUser.None? ==> !r.value.following
    ensures r.Success? && requestedUser.Some? ==>
      (r.value.following <==> (requestedUser.value, username) in t.followers)
  {
    match AuthenticationRepository.GetUserByUsername(t, username)
    case Failure(e) => Failure(e)
    case Success(user) =>
      var profile := Profile(user.username, user.bio, user.image);
      if requestedUser.Some? then
        Success(profile.(following := IsUserFollowingForAnotherUser(t, user.username, requestedUser.value)))
      else
        Success(profile)
  }

  /** Without a requesting user the follower relation plays no part in the profile. */
  lemma NoViewerIgnoresFollowers(t: Tables, followers: set<(string, string)>, username: string)
    ensures GetProfileByUsername(t.(followers := followers), username, None) == GetProfileByUsername(t, username, None)
  {
    var t' := t.(followers := followers);
    assert AuthenticationRepository.GetUserByUsername(t', username) == AuthenticationRepository.GetUserByUsername(t, username);
  }

  /** Asking about oneself is not special: the answer is whatever the relation holds. */
  lemma SelfFollowIsTheRelation(t: Tables, username: string)
    requires UsernameTaken(t, username)
    ensures GetProfileByUsername(t, username, Some(username)).Success?
    ensures GetProfileByUsername(t, username, Some(username)).value.following <==> (username, username) in t.followers
  {
  }

  /** The relation is directed: (A, B) says A follows B, and says nothing of B following A. */
  lemma FollowingIsDirected(t: Tables, a: string, b: string)
    requires UsernameTaken(t, a) && UsernameTaken(t, b)
    requires (a, b) in t.followers && (b, a) !in t.followers
    ensures GetProfileByUsername(t, b, Some(a)).value.following
    ensures !GetProfileByUsername(t, a, Some(b)).value.following
  {
  }
}
