/** The persistent records of the backend and the repositories that hold them,
    as immutable maps from id to record. Nullable Java fields are `Option`s.
    The user record's fields are the ones the services read and write; the
    project record follows `Project.java`. */
module Entities {
  import opened Wrappers

  type UserId = nat
  type ProjectId = nat

  datatype User = User(
    id: UserId,
    name: Option<string>,
    email: string,
    password: string,
    jobTitle: Option<string>,
    bio: Option<string>,
    profileImage: Option<string>,
    verificationToken: Option<string>,
    verificationTokenExpiry: Option<int>,
    resetPasswordToken: Option<string>,
    resetPasswordTokenExpiry: Option<int>)

  datatype Project = Project(
    id: ProjectId,
    name: Option<string>,
    demoUrl: Option<string>,
    repositoryUrl: Option<string>,
    description: Option<string>,
    owner: UserId)

  type Users = map<UserId, User>
  type Projects = map<ProjectId, Project>

  /** The password encoder the services are configured with. */
  datatype PasswordEncoder = PasswordEncoder(encode: string -> string, matches: (string, string) -> bool)

  datatype UserProfileRequest = UserProfileRequest(name: Option<string>, jobTitle: Option<string>, bio: Option<string>)

  datatype ProjectRequest = ProjectRequest(
    name: Option<string>,
    demoUrl: Option<string>,
    repositoryUrl: Option<string>,
    description: Option<string>)

  /** `save` on an entity read from the repository: the row under its id is
      replaced and every other row is kept. */
  function Save(users: Users, u: User): (r: Users)
    ensures r.Keys == users.Keys + {u.id}
    ensures r[u.id] == u
    ensures forall k :: k in users && k != u.id ==> r[k] == users[k]
  {
    users[u.id := u]
  }

  function UsersWithEmail(users: Users, email: string): set<UserId> {
    set id | id in users && users[id].email == email
  }

  function UsersWithResetToken(users: Users, token: string): set<UserId> {
    set id | id in users && users[id].resetPasswordToken == Some(token)
  }

  lemma EmailMatches(users: Users, email: string)
    ensures UsersWithEmail(users, email) == {} <==> forall id :: id in users ==> users[id].email != email
    ensures forall id :: id in users && users[id].email == email ==> id in UsersWithEmail(users, email)
  {
    assert forall id :: id in users && users[id].email == email ==> id in UsersWithEmail(users, email);
    if UsersWithEmail(users, email) != {} {
      var x :| x in UsersWithEmail(users, email);
      assert x in users && users[x].email == email;
    }
  }

  lemma ResetTokenMatches(users: Users, token: string)
    ensures UsersWithResetToken(users, token) == {} <==> forall id :: id in users ==> users[id].resetPasswordToken != Some(token)
    ensures forall id :: id in users && users[id].resetPasswordToken == Some(token) ==> id in UsersWithResetToken(users, token)
  {
    assert forall id :: id in users && users[id].resetPasswordToken == Some(token) ==> id in UsersWithResetToken(users, token);
    if UsersWithResetToken(users, token) != {} {
      var x :| x in UsersWithResetToken(users, token);
      assert x in users && users[x].resetPasswordToken == Some(token);
    }
  }

  /** `findByEmail` */
  function FindByEmail(users: Users, email: string): (r: Lookup<UserId>)
    ensures r.NoRow? <==> forall id :: id in users ==> users[id].email != email
    ensures r.OneRow? ==> r.key in users && users[r.key].email == email
    ensures r.OneRow? ==> forall id :: id in users && users[id].email == email ==> id == r.key
  {
    EmailMatches(users, email);
    Unique(UsersWithEmail(users, email))
  }

  /** `existsByEmail` */
  predicate ExistsByEmail(users: Users, email: string) {
    exists id :: id in users && users[id].email == email
  }

  /** `findByResetPasswordToken` */
  function FindByResetToken(users: Users, token: string): (r: Lookup<UserId>)
    ensures r.NoRow? <==> forall id :: id in users ==> users[id].resetPasswordToken != Some(token)
    ensures r.OneRow? ==> r.key in users && users[r.key].resetPasswordToken == Some(token)
    ensures r.OneRow? ==> forall id :: id in users && users[id].resetPasswordToken == Some(token) ==> id == r.key
  {
    ResetTokenMatches(users, token);
    Unique(UsersWithResetToken(users, token))
  }

  /** Every row is stored under its own id. */
  predicate KeyedById(users: Users) {
    forall id :: id in users ==> users[id].id == id
  }

  /** No two users share an email (the registration check keeps it so). */
  predicate EmailsUnique(users: Users) {
    forall a, b :: a in users && b in users && users[a].email == users[b].email ==> a == b
  }

  /** With unique emails, an email that is present finds exactly its user. */
  lemma UniqueEmailFindsOne(users: Users, id: UserId)
    requires EmailsUnique(users) && id in users
    ensures FindByEmail(users, users[id].email) == OneRow(id)
  {
    var s := UsersWithEmail(users, users[id].email);
    assert s == {id};
  }

  /** The one user holding a reset token is the one the token finds. */
  lemma SoleHolderFound(users: Users, id: UserId, token: string)
    requires id in users && users[id].resetPasswordToken == Some(token)
    requires forall k :: k in users && k != id ==> users[k].resetPasswordToken != Some(token)
    ensures FindByResetToken(users, token) == OneRow(id)
  {
    assert UsersWithResetToken(users, token) == {id};
  }

  predicate ProjectsKeyedById(projects: Projects) {
    forall id :: id in projects ==> projects[id].id == id
  }
}
