/**
 * The browser-side login state: whether someone is signed in and as whom, changed by logging in
 * against the fixed demo credentials and by logging out.  Local storage is outside the model; the
 * stored session read on the first render is a parameter.
 */
module AuthContext {
  import opened Wrappers

  datatype User = User(username: string, role: string)

  datatype Credential = Credential(username: string, password: string, role: string)

  /** The demo credentials `login` accepts, in the order it searches them. */
  const ValidCredentials: seq<Credential> := [
    Credential("admin", "admin123", "Administrator"),
    Credential("lecturer", "lecturer123", "Lecturer")
  ]

  /** `creds.find(c => c.username === username && c.password === password)`. */
  function Find(creds: seq<Credential>, username: string, password: string): (r: Option<Credential>)
    ensures r.None? <==> forall i :: 0 <= i < |creds| ==> !(creds[i].username == username && creds[i].password == password)
    ensures r.Some? ==>
      (exists i :: 0 <= i < |creds| && creds[i] == r.value &&
         r.value.username == username && r.value.password == password &&
         forall j :: 0 <= j < i ==> !(creds[j].username == username && creds[j].password == password))
  {
    if creds == [] then None
    else if creds[0].username == username && creds[0].password == password then Some(creds[0])
    else
      var r := Find(creds[1..], username, password);
      assert forall i :: 1 <= i < |creds| ==> creds[i] == creds[1..][i - 1];
      r
  }

  /**
   * Exactly the two demo pairs are accepted, admin as Administrator and lecturer as Lecturer.
   */
  lemma FindValid(username: string, password: string)
    ensures var r := Find(ValidCredentials, username, password);
      && (r.Some? <==> (username == "admin" && password == "admin123") ||
                       (username == "lecturer" && password == "lecturer123"))
      && (r.Some? && username == "admin" ==> r.value.role == "Administrator")
      && (r.Some? && username == "lecturer" ==> r.value.role == "Lecturer")
  {
    var r := Find(ValidCredentials, username, password);
    assert ValidCredentials[0].username == "admin" && ValidCredentials[1].username == "lecturer";
    assert "admin" != "lecturer";
    if r.Some? {
      var i :| 0 <= i < 2 && ValidCredentials[i] == r.value && r.value.username == username &&
               r.value.password == password;
      assert i == 0 || i == 1;
    }
  }

  class AuthState {
    var isAuthenticated: bool
    var user: Option<User>

    /** Signed in exactly when there is a user. */
    predicate Valid()
      reads this
    {
      isAuthenticated <==> user.Some?
    }

    /** `useState(false)` and `useState(null)`. */
    constructor ()
      ensures !isAuthenticated && user.None?
      ensures Valid()
    {
      isAuthenticated := false;
      user := None;
    }

    /**
     * The first render's effect: a stored session signs in with the user it records (None: the
     * session object has no user).  Without a stored session nothing changes.
     */
    method Restore(saved: Option<Option<User>>)
      modifies this
      ensures saved.None? ==> isAuthenticated == old(isAuthenticated) && user == old(user)
      ensures saved.Some? ==> isAuthenticated && user == saved.value
      ensures old(Valid()) && (saved.Some? ==> saved.value.Some?) ==> Valid()
    {
      if saved.Some? {
        isAuthenticated := true;
        user := saved.value;
      }
    }

    /**
     * `login`: true exactly for a demo pair, which signs in as its username and role; any other
     * pair returns false and leaves the state as it was.
     */
    method Login(username: string, password: string) returns (ok: bool)
      modifies this
      ensures ok <==> (username == "admin" && password == "admin123") ||
                      (username == "lecturer" && password == "lecturer123")
      ensures ok ==> isAuthenticated && user.Some? && user.value.username == username
      ensures ok && username == "admin" ==> user == Some(User("admin", "Administrator"))
      ensures ok && username == "lecturer" ==> user == Some(User("lecturer", "Lecturer"))
      ensures !ok ==> isAuthenticated == old(isAuthenticated) && user == old(user)
      ensures old(Valid()) ==> Valid()
    {
      var validUser := Find(ValidCredentials, username, password);
      FindValid(username, password);
      if validUser.Some? {
        isAuthenticated := true;
        user := Some(User(validUser.value.username, validUser.value.role));
        return true;
      }
      return false;
    }

    /** `logout`: signed out with no user, from any state. */
    method Logout()
      modifies this
      ensures !isAuthenticated && user.None?
      ensures Valid()
    {
      isAuthenticated := false;
      user := None;
    }
  }
}
