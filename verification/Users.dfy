/** The user entity, as the use cases, the repository and the cache share it. */
module Users {
  import opened Wrappers

  type UserId = nat  // a UUID

  datatype Profile = Profile(email: string, displayName: string)

  datatype User = User(id: UserId, profile: Profile, createdAt: Time, updatedAt: Time)

  type Repository = map<UserId, User>

  ghost predicate Keyed(users: Repository) {
    forall id | id in users :: users[id].id == id
  }
}
