/** The mock login session (src/context/AuthContext.jsx): two built-in test
    accounts, the session user, and its copy under the `smartbook_user` key of the
    browser's storage, which mirrors the session user after every step. */
module AuthContext {
  import opened Common

  /** A JSON value, as the accounts and the stored copy hold them. */
  datatype Json =
    | JString(str: string)
    | JNumber(num: real)
    | JBool(flag: bool)
    | JArray(items: seq<Json>)
    | JObject(fields: map<string, Json>)

  /** A user record: its keys and values. */
  type Account = map<string, Json>

  const PasswordKey: string := "password"

  const StudentAccount: Account := map[
    "id" := JString("1"),
    "email" := JString("student@test.com"),
    "password" := JString("student123"),
    "name" := JString("Test Student"),
    "role" := JString("student"),
    "college" := JString("Delhi University"),
    "academicInterests" := JArray([JString("Computer Science"), JString("Mathematics")]),
    "kycStatus" := JString("verified"),
    "rating" := JObject(map["average" := JNumber(4.5), "count" := JNumber(12.0)]),
    "isActive" := JBool(true)]

  const LibraryAccount: Account := map[
    "id" := JString("2"),
    "email" := JString("library@test.com"),
    "password" := JString("library123"),
    "name" := JString("Test Library"),
    "role" := JString("library"),
    "libraryName" := JString("Central Academic Library"),
    "location" := JObject(map[
      "address" := JString("123 Library Street"),
      "city" := JString("Mumbai"),
      "state" := JString("Maharashtra"),
      "pincode" := JString("400001")]),
    "gstNumber" := JString("GST123456789"),
    "kycStatus" := JString("verified"),
    "rating" := JObject(map["average" := JNumber(4.8), "count" := JNumber(45.0)]),
    "isActive" := JBool(true)]

  /** The test accounts by email. */
  const TestAccounts: map<string, Account> :=
    map["student@test.com" := StudentAccount, "library@test.com" := LibraryAccount]

  /** `account.password === password`: the account has a password equal to the
      one typed. */
  predicate PasswordMatches(account: Account, password: string) {
    PasswordKey in account && account[PasswordKey] == JString(password)
  }

  /** `const { password: _, ...rest } = account`. */
  function WithoutPassword(account: Account): (r: Account)
    ensures PasswordKey !in r
    ensures forall k :: k in r <==> k in account && k != PasswordKey
    ensures forall k | k in r :: r[k] == account[k]
  {
    account - {PasswordKey}
  }

  /** `{ ...user, ...updates }`: the keys of both, the update winning where both
      have one; a missing user spreads as nothing. */
  function Merge(user: Option<Account>, updates: Account): (r: Account)
    ensures forall k :: k in r <==> k in updates || (user.Some? && k in user.value)
    ensures forall k | k in updates :: r[k] == updates[k]
    ensures forall k | k in r && k !in updates :: user.Some? && r[k] == user.value[k]
  {
    (if user.Some? then user.value else map[]) + updates
  }

  /** What `login` returns. */
  datatype LoginResult = LoginOk(user: Account) | LoginFailed(error: string)

  class Session {
    var user: Option<Account>
    /** The `smartbook_user` entry of the browser's storage. */
    var saved: Option<Account>
    var loading: bool

    /** The stored copy always equals the session user. */
    ghost predicate Valid()
      reads this
    {
      saved == user
    }

    /** Mounting the provider: a saved user, if any, becomes the session user, and
        loading ends. */
    constructor (savedUser: Option<Account>)
      ensures Valid()
      ensures user == savedUser && saved == savedUser && !loading
    {
      saved := savedUser;
      user := savedUser;
      loading := false;
    }

    /** `login`: an unknown email or a wrong password fails and changes nothing;
        otherwise the account without its password becomes the session user and
        its stored copy, and is returned. */
    method Login(email: string, password: string) returns (r: LoginResult)
      requires Valid()
      modifies this
      ensures Valid() && loading == old(loading)
      ensures !(email in TestAccounts && PasswordMatches(TestAccounts[email], password)) ==>
        r == LoginFailed("Invalid email or password") && user == old(user)
      ensures email in TestAccounts && PasswordMatches(TestAccounts[email], password) ==>
        && r == LoginOk(WithoutPassword(TestAccounts[email]))
        && user == Some(r.user)
        && PasswordKey !in r.user
    {
      if email !in TestAccounts || !PasswordMatches(TestAccounts[email], password) {
        return LoginFailed("Invalid email or password");
      }
      var account := WithoutPassword(TestAccounts[email]);
      user := Some(account);
      saved := Some(account);
      r := LoginOk(account);
    }

    /** `updateuser`: the merged record becomes the session user and its stored
        copy. */
    method UpdateUser(updates: Account)
      requires Valid()
      modifies this
      ensures Valid() && loading == old(loading)
      ensures user == Some(Merge(old(user), updates))
    {
      var merged := Merge(user, updates);
      user := Some(merged);
      saved := Some(merged);
    }

    /** `logout`: no session user and no stored copy. The redirect to `/` is not
        modelled. */
    method Logout()
      requires Valid()
      modifies this
      ensures Valid() && loading == old(loading)
      ensures user.None? && saved.None?
    {
      user := None;
      saved := None;
    }
  }

  /** Only the two test emails can log in, each with its own password. */
  lemma LoginCredentials(email: string, password: string)
    ensures email in TestAccounts && PasswordMatches(TestAccounts[email], password) <==>
      (email == "student@test.com" && password == "student123") ||
      (email == "library@test.com" && password == "library123")
  {
    assert "student@test.com" != "library@test.com";
  }
}
