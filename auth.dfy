/** The account store: a list of username/password records kept in one document. */
module Auth {
  import opened Models

  /** One stored account; the password is kept and compared as plain text. */
  datatype User = User(username: string, password: string)

  /** Whether some stored record already uses `username`. */
  function UsernameTaken(users: seq<User>, username: string): (r: bool)
    ensures r <==> exists u :: u in users && u.username == username
  {
    if users == [] then false
    else users[0].username == username || UsernameTaken(users[1..], username)
  }

  /** Whether some stored record matches both the username and the password. */
  function CredentialsMatch(users: seq<User>, username: string, password: string): (r: bool)
    ensures r <==> User(username, password) in users
  {
    if users == [] then false
    else
      (users[0].username == username && users[0].password == password)
      || CredentialsMatch(users[1..], username, password)
  }

  /** No two records share a username. */
  ghost predicate UniqueUsernames(users: seq<User>)
  {
    forall i, j :: 0 <= i < j < |users| ==> users[i].username != users[j].username
  }

  /** Appending a record under a fresh username keeps usernames unique. */
  lemma AppendFreshKeepsUnique(users: seq<User>, username: string, password: string)
    requires UniqueUsernames(users)
    requires !UsernameTaken(users, username)
    ensures UniqueUsernames(users + [User(username, password)])
  {
  }

  /** With unique usernames, login for a stored username succeeds exactly with that record's password. */
  lemma LoginChecksTheOneRecord(users: seq<User>, i: nat, password: string)
    requires UniqueUsernames(users)
    requires i < |users|
    ensures CredentialsMatch(users, users[i].username, password) <==> users[i].password == password
  {
  }

  /** A username match alone is not enough to log in: when every record under this
      username has another password (or no record has it), the credentials do not match. */
  lemma UsernameAloneIsNotEnough(users: seq<User>, username: string, password: string)
    requires forall u :: u in users && u.username == username ==> u.password != password
    ensures !CredentialsMatch(users, username, password)
  {
  }

  class AuthManager {
    /** The stored accounts (the contents of the users document). */
    var users: seq<User>

    /** Opens the store. `stored` is the document's contents, or None when the
        document does not exist yet, in which case it starts as the empty list. */
    constructor (stored: Option<seq<User>>)
      ensures stored.None? ==> users == []
      ensures stored.Some? ==> users == stored.value
    {
      users := if stored.Some? then stored.value else [];
    }

    /** Registers a new account: refused when the username is taken, otherwise appended. */
    method Register(username: string, password: string) returns (ok: bool)
      modifies this
      ensures ok <==> !exists u :: u in old(users) && u.username == username
      ensures ok ==> users == old(users) + [User(username, password)]
      ensures !ok ==> users == old(users)
      ensures ok ==> Login(username, password)
      ensures UniqueUsernames(old(users)) ==> UniqueUsernames(users)
    {
      var loaded := users;
      if UsernameTaken(loaded, username) {
        return false;
      }
      if UniqueUsernames(loaded) {
        AppendFreshKeepsUnique(loaded, username, password);
      }
      loaded := loaded + [User(username, password)];
      users := loaded;
      ok := true;
    }

    /** True exactly when some stored record has both this username and this password. */
    function Login(username: string, password: string): (r: bool)
      reads this
      ensures r <==> exists i :: 0 <= i < |users| && users[i].username == username && users[i].password == password
    {
      CredentialsMatch(users, username, password)
    }
  }
}
