/** The user schema (backend/models/User.js): role and KYC enums with their
    defaults, the fields required only of libraries, the trimmed name and the
    lower-cased unique email, the pre-save password hook and `updateRating`. The
    password hash is a parameter. */
module UserModel {
  import opened Common
  import opened Ratings
  import Text

  datatype Role = Student | Library | Admin

  function ParseRole(s: string): (r: Option<Role>)
    ensures r == Some(Student) <==> s == "student"
    ensures r == Some(Library) <==> s == "library"
    ensures r == Some(Admin) <==> s == "admin"
  {
    if s == "student" then Some(Student)
    else if s == "library" then Some(Library)
    else if s == "admin" then Some(Admin)
    else None
  }

  datatype KycStatus = KycPending | KycVerified | KycRejected

  function ParseKycStatus(s: string): (r: Option<KycStatus>)
    ensures r == Some(KycPending) <==> s == "pending"
    ensures r == Some(KycVerified) <==> s == "verified"
    ensures r == Some(KycRejected) <==> s == "rejected"
  {
    if s == "pending" then Some(KycPending)
    else if s == "verified" then Some(KycVerified)
    else if s == "rejected" then Some(KycRejected)
    else None
  }

  datatype Location = Location(address: Option<string>, city: Option<string>, state: Option<string>,
                               pincode: Option<string>)

  datatype User = User(
    id: UserId,
    name: string,
    email: string,
    phone: Option<string>,
    password: string,
    role: Role,
    avatarUrl: Option<string>,
    academicInterests: seq<string>,
    libraryName: Option<string>,
    location: Option<Location>,
    gstNumber: Option<string>,
    kycStatus: KycStatus,
    kycDocuments: seq<string>,
    rating: Rating,
    isActive: bool,
    googleId: Option<string>,
    facebookId: Option<string>,
    linkedinId: Option<string>,
    createdAt: int,
    updatedAt: int)

  /** A required string is present and not empty. */
  predicate Present(v: Option<string>) {
    v.Some? && v.value != []
  }

  /** What create-time validation guarantees of a stored user. */
  predicate ValidUser(u: User) {
    && u.name != [] && Text.Trim(u.name) == u.name
    && u.email != [] && Text.Lower(u.email) == u.email
    && u.password != []
    && (u.role == Library ==> Present(u.libraryName) && Present(u.gstNumber))
  }

  /** A sign-up body; every key is optional. */
  datatype UserBody = UserBody(
    name: Option<string>,
    email: Option<string>,
    phone: Option<string>,
    password: Option<string>,
    role: Option<string>,
    avatarUrl: Option<string>,
    academicInterests: Option<seq<string>>,
    libraryName: Option<string>,
    location: Option<Location>,
    gstNumber: Option<string>,
    kycStatus: Option<string>,
    kycDocuments: Option<seq<string>>,
    rating: Option<Rating>,
    isActive: Option<bool>,
    googleId: Option<string>,
    facebookId: Option<string>,
    linkedinId: Option<string>)

  /** The role a body asks for, `student` when it names none. */
  function RoleOf(body: UserBody): (r: Role)
    requires body.role.None? || ParseRole(body.role.value).Some?
    ensures body.role.None? ==> r == Student
    ensures body.role.Some? ==> ParseRole(body.role.value) == Some(r)
  {
    if body.role.None? then Student else ParseRole(body.role.value).value
  }

  /** The KYC status a body asks for, `pending` when it names none. */
  function KycOf(body: UserBody): (r: KycStatus)
    requires body.kycStatus.None? || ParseKycStatus(body.kycStatus.value).Some?
    ensures body.kycStatus.None? ==> r == KycPending
    ensures body.kycStatus.Some? ==> ParseKycStatus(body.kycStatus.value) == Some(r)
  {
    if body.kycStatus.None? then KycPending else ParseKycStatus(body.kycStatus.value).value
  }

  /** The checks that do not depend on the role. */
  predicate BaseValid(body: UserBody) {
    && body.name.Some? && Text.Trim(body.name.value) != []
    && Present(body.email)
    && Present(body.password)
    && (body.role.None? || ParseRole(body.role.value).Some?)
    && (body.kycStatus.None? || ParseKycStatus(body.kycStatus.value).Some?)
  }

  /** Schema validation of a sign-up body; `libraryName` and `gstNumber` are
      required only when the role is `library`. */
  predicate BodyValid(body: UserBody) {
    && BaseValid(body)
    && (RoleOf(body) == Library ==> Present(body.libraryName) && Present(body.gstNumber))
  }

  /** A new user document: the name is trimmed and the email lower-cased before
      validation; absent fields take the schema defaults. The password is still
      the plain text here; the pre-save hook hashes it. */
  function NewUser(body: UserBody, id: UserId, now: int): (r: Option<User>)
    ensures r.Some? <==> BodyValid(body)
    ensures r.Some? ==> ValidUser(r.value) && r.value.id == id
    ensures r.Some? ==> r.value.email == Text.Lower(body.email.value)
    ensures r.Some? ==> r.value.name == Text.Trim(body.name.value)
    ensures r.Some? ==> r.value.password == body.password.value
    ensures r.Some? ==> r.value.role == RoleOf(body) && r.value.kycStatus == KycOf(body)
    ensures r.Some? ==> r.value.phone == body.phone && r.value.avatarUrl == body.avatarUrl
    ensures r.Some? ==> r.value.libraryName == body.libraryName && r.value.gstNumber == body.gstNumber
    ensures r.Some? ==> r.value.location == body.location
    ensures r.Some? ==> r.value.googleId == body.googleId && r.value.facebookId == body.facebookId
    ensures r.Some? ==> r.value.linkedinId == body.linkedinId
    ensures r.Some? && body.academicInterests.Some? ==> r.value.academicInterests == body.academicInterests.value
    ensures r.Some? && body.academicInterests.None? ==> r.value.academicInterests == []
    ensures r.Some? && body.kycDocuments.Some? ==> r.value.kycDocuments == body.kycDocuments.value
    ensures r.Some? && body.kycDocuments.None? ==> r.value.kycDocuments == []
    ensures r.Some? && body.rating.Some? ==> r.value.rating == body.rating.value
    ensures r.Some? && body.rating.None? ==> r.value.rating == Unrated
    ensures r.Some? && body.isActive.Some? ==> r.value.isActive == body.isActive.value
    ensures r.Some? && body.isActive.None? ==> r.value.isActive
    ensures r.Some? ==> r.value.createdAt == now && r.value.updatedAt == now
  {
    if !BodyValid(body) then None
    else
      var name := Text.Trim(body.name.value);
      Text.TrimTrimmed(name);
      Text.LowerIdempotent(body.email.value);
      Some(User(
        id := id,
        name := name,
        email := Text.Lower(body.email.value),
        phone := body.phone,
        password := body.password.value,
        role := RoleOf(body),
        avatarUrl := body.avatarUrl,
        academicInterests := body.academicInterests.GetOr([]),
        libraryName := body.libraryName,
        location := body.location,
        gstNumber := body.gstNumber,
        kycStatus := KycOf(body),
        kycDocuments := body.kycDocuments.GetOr([]),
        rating := body.rating.GetOr(Unrated),
        isActive := body.isActive.GetOr(true),
        googleId := body.googleId,
        facebookId := body.facebookId,
        linkedinId := body.linkedinId,
        createdAt := now,
        updatedAt := now))
  }

  /** Given the role-independent checks, a body is accepted exactly when it is not
      a library or names both a library name and a GST number. */
  lemma LibraryFieldsRequiredIffLibrary(body: UserBody, id: UserId, now: int)
    requires BaseValid(body)
    ensures NewUser(body, id, now).Some? <==>
            (RoleOf(body) == Library ==> Present(body.libraryName) && Present(body.gstNumber))
  {
  }

  /** Students and admins need neither field. */
  lemma NonLibraryNeedsNoLibraryFields(body: UserBody, id: UserId, now: int)
    requires BaseValid(body) && RoleOf(body) != Library
    ensures NewUser(body.(libraryName := None, gstNumber := None), id, now).Some?
  {
    var b := body.(libraryName := None, gstNumber := None);
    assert BaseValid(b) && RoleOf(b) == RoleOf(body);
  }

  /** A body that differs only in the letter case of its email gives the same user. */
  lemma EmailCaseIgnored(body: UserBody, id: UserId, now: int)
    requires body.email.Some?
    ensures NewUser(body.(email := Some(Text.Lower(body.email.value))), id, now) == NewUser(body, id, now)
  {
    Text.LowerIdempotent(body.email.value);
    var b := body.(email := Some(Text.Lower(body.email.value)));
    assert Present(b.email) <==> Present(body.email);
    assert BodyValid(b) <==> BodyValid(body);
  }

  /** The outcome of inserting a user into the collection. */
  datatype Inserted = Created(user: User) | Invalid | DuplicateEmail

  /** Ids match their keys and are below `nextId`, and no two users share an email. */
  ghost predicate ValidStore(users: map<UserId, User>, nextId: UserId) {
    && (forall id :: id in users ==> users[id].id == id && id < nextId)
    && (forall a, b :: a in users && b in users && a != b ==> users[a].email != users[b].email)
  }

  /** Storing a user under the next id, with an email nobody has, keeps the store valid. */
  lemma InsertKeepsValid(users: map<UserId, User>, nextId: UserId, u: User)
    requires ValidStore(users, nextId) && u.id == nextId
    requires forall id | id in users :: users[id].email != u.email
    ensures nextId !in users
    ensures ValidStore(users[nextId := u], nextId + 1)
  {
  }

  /** The users collection with its unique index on `email`. */
  class UserCollection {
    var users: map<UserId, User>
    var nextId: UserId

    /** Ids match their keys, and no two users share an email. */
    ghost predicate Valid()
      reads this
    {
      ValidStore(users, nextId)
    }

    constructor ()
      ensures Valid() && users == map[]
    {
      users := map[];
      nextId := 0;
    }

    /** Some stored user already has this email. */
    predicate EmailTaken(email: string)
      reads this
    {
      exists id | id in users :: users[id].email == email
    }

    /** `User.create(body)`: schema validation first, then the pre-save hook, which
        hashes the password of the new document with `hash`, then the unique
        index, which compares the lower-cased email. */
    method Create(body: UserBody, now: int, hash: string -> string) returns (r: Inserted)
      requires Valid()
      modifies this
      ensures Valid()
      ensures !BodyValid(body) ==> r == Invalid && users == old(users)
      ensures BodyValid(body) && old(EmailTaken(Text.Lower(body.email.value))) ==>
        r == DuplicateEmail && users == old(users)
      ensures BodyValid(body) && !old(EmailTaken(Text.Lower(body.email.value))) ==>
        && r == Created(NewUser(body, old(nextId), now).value.(password := hash(body.password.value)))
        && r.user.password == hash(body.password.value)
        && old(nextId) !in old(users)
        && users == old(users)[old(nextId) := r.user]
    {
      var created := NewUser(body, nextId, now);
      if created.None? {
        return Invalid;
      }
      var doc := new UserDocument(created.value);
      doc.Save(hash);
      assert users == old(users) && nextId == old(nextId);
      var u := doc.fields;
      assert u == created.value.(password := hash(body.password.value));
      if EmailTaken(u.email) {
        return DuplicateEmail;
      }
      assert forall id | id in users :: users[id].email != u.email;
      InsertKeepsValid(users, nextId, u);
      users := users[nextId := u];
      nextId := nextId + 1;
      r := Created(u);
    }
  }

  /** A loaded user document. `passwordModified` is Mongoose's record of whether
      the password path changed since the last save. */
  class UserDocument {
    var fields: User
    var passwordModified: bool

    /** A new document: every path, the password included, counts as modified. */
    constructor (u: User)
      ensures fields == u && passwordModified
    {
      fields := u;
      passwordModified := true;
    }

    /** Assigning the password marks it modified. */
    method SetPassword(password: string)
      modifies this
      ensures fields == old(fields).(password := password) && passwordModified
    {
      fields := fields.(password := password);
      passwordModified := true;
    }

    /** The pre-save hook: the password is hashed only when it changed, so a saved
        hash is never hashed again; after saving nothing counts as modified. */
    method Save(hash: string -> string)
      modifies this
      ensures old(passwordModified) ==> fields == old(fields).(password := hash(old(fields).password))
      ensures !old(passwordModified) ==> fields == old(fields)
      ensures !passwordModified
    {
      if passwordModified {
        fields := fields.(password := hash(fields.password));
      }
      passwordModified := false;
    }

    /** `user.updateRating(newRating)`: one more rating; nothing else changes. */
    method UpdateRating(newRating: real)
      modifies this
      ensures fields == old(fields).(rating := Updated(old(fields).rating, newRating))
      ensures passwordModified == old(passwordModified)
      ensures fields.rating.count == old(fields.rating.count) + 1
      ensures Total(fields.rating) == Total(old(fields.rating)) + newRating
    {
      var total := fields.rating.average * fields.rating.count as real + newRating;
      var count := fields.rating.count + 1;
      fields := fields.(rating := Rating(total / count as real, count));
    }
  }
}
