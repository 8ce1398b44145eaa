/**
  `services.AuthenticationService`: the in-memory account list, the session (`currentUser`)
  and the operations over them. Persistence (`UserFileHandler.loadUsers`/`saveUsers`) is
  not modelled: the loaded accounts are the constructor's argument and saving is a no-op.
*/
module Authentication {
  import opened Strings
  import opened Ids
  import opened UserModel

  const UsernameEmptyMessage := "Username cannot be empty"
  const PasswordEmptyMessage := "Password cannot be empty"
  const UsernameNotFoundMessage := "Username not found"
  const AccountLockedMessage := "Account is locked due to multiple failed login attempts"
  const AccountInactiveMessage := "Account is inactive"
  const InvalidPasswordMessage := "Invalid password"
  const LockedNowSuffix := ". Account has been locked due to multiple failed attempts."
  const LoginSuccessMessage := "Login successful"

  /** The record returned by `login`; `user` is null on every failure. */
  datatype AuthenticationResult = AuthenticationResult(success: bool, message: string, user: User?)

  /**
    The index of the first account whose username equals `username` ignoring case
    (`stream().filter(...).findFirst()`), or `|users|` when there is none.
  */
  function FindUserIndex(users: seq<User>, username: string): (k: nat)
    ensures k <= |users|
    ensures k < |users| ==> EqualsIgnoreCase(users[k].username, username)
    ensures forall j :: 0 <= j < k ==> !EqualsIgnoreCase(users[j].username, username)
  {
    if users == [] then 0
    else if EqualsIgnoreCase(users[0].username, username) then 0
    else 1 + FindUserIndex(users[1..], username)
  }

  function UserIds(users: seq<User>): (ids: seq<string>)
    ensures |ids| == |users| && forall i :: 0 <= i < |users| ==> ids[i] == users[i].userId
  {
    seq(|users|, i requires 0 <= i < |users| => users[i].userId)
  }

  /** No two accounts share a username up to case. */
  predicate DistinctUsernames(users: seq<User>)
  {
    forall i, j :: 0 <= i < j < |users| ==> !EqualsIgnoreCase(users[i].username, users[j].username)
  }

  /** Appending an account whose username matches none of the others keeps them distinct. */
  lemma AppendKeepsDistinctUsernames(users: seq<User>, u: User)
    requires DistinctUsernames(users)
    requires forall j :: 0 <= j < |users| ==> !EqualsIgnoreCase(users[j].username, u.username)
    ensures DistinctUsernames(users + [u])
  {
    var all := users + [u];
    forall i, j | 0 <= i < j < |all|
      ensures !EqualsIgnoreCase(all[i].username, all[j].username)
    {
      assert all[i] == users[i];
      assert j < |users| ==> all[j] == users[j];
    }
  }

  const AdminPassword := "admin123"
  const CustomerPassword := "customer123"

  /**
    The accounts `createDefaultAccounts` seeds: administrator A001 "admin" with password
    "admin123", customers C001 "john.doe" and C002 "jane.doe" with password "customer123",
    all active with no failed attempts.
  */
  ghost predicate IsDefaultAccounts(accounts: seq<User>)
    reads accounts
  {
    && |accounts| == 3
    && (forall i :: 0 <= i < |accounts| ==> accounts[i].status == Active && accounts[i].failedLoginAttempts == 0)
    && accounts[0].userId == "A001" && accounts[1].userId == "C001" && accounts[2].userId == "C002"
    && accounts[0].username == "admin" && accounts[0].userType == Admin && accounts[0].VerifyPassword(AdminPassword)
    && accounts[1].username == "john.doe" && accounts[1].userType == Customer && accounts[1].VerifyPassword(CustomerPassword)
    && accounts[2].username == "jane.doe" && accounts[2].userType == Customer && accounts[2].VerifyPassword(CustomerPassword)
  }

  /** `createDefaultAccounts`: one administrator and two customers. */
  method DefaultAccounts() returns (accounts: seq<User>)
    ensures IsDefaultAccounts(accounts)
    ensures forall i :: 0 <= i < |accounts| ==> fresh(accounts[i])
  {
    var admin := new User("A001", "admin", AdminPassword, "System Administrator", "admin@rental.com", Admin);
    var customer1 := new User("C001", "john.doe", CustomerPassword, "John Doe", "john@email.com", Customer);
    var customer2 := new User("C002", "jane.doe", CustomerPassword, "Jane Smith", "jane@email.com", Customer);
    accounts := [admin, customer1, customer2];
  }

  /** The three default usernames differ even ignoring case. */
  lemma DefaultUsernamesDistinct()
    ensures !EqualsIgnoreCase("admin", "john.doe") && !EqualsIgnoreCase("admin", "jane.doe")
    ensures !EqualsIgnoreCase("john.doe", "jane.doe")
  {
    assert ToLowerChar("john.doe"[1]) != ToLowerChar("jane.doe"[1]);
  }

  /** The default accounts satisfy the service's invariants. */
  lemma DefaultAccountsInvariants(accounts: seq<User>)
    requires IsDefaultAccounts(accounts)
    ensures forall i, j :: 0 <= i < j < |accounts| ==> !EqualsIgnoreCase(accounts[i].username, accounts[j].username)
    ensures forall u :: u in accounts ==> u.LockoutRule()
  {
    DefaultUsernamesDistinct();
  }

  class AuthenticationService {
    var users: seq<User>
    var currentUser: User?

    /**
      `loadUsers` on construction: the stored accounts, or the three default accounts when
      storage is empty. Nobody is logged in.
    */
    constructor (loaded: seq<User>)
      ensures currentUser == null
      ensures |loaded| > 0 ==> users == loaded
      ensures |loaded| == 0 ==> IsDefaultAccounts(users) && forall i :: 0 <= i < |users| ==> fresh(users[i])
      ensures |loaded| == 0 ==> UsernamesUnique() && LockoutHolds()
    {
      if |loaded| == 0 {
        var accounts := DefaultAccounts();
        users := accounts;
      } else {
        users := loaded;
      }
      currentUser := null;
      new;
      if |loaded| == 0 {
        DefaultAccountsInvariants(users);
      }
    }

    ghost predicate UsernamesUnique()
      reads this`users
    {
      DistinctUsernames(users)
    }

    /** Every account obeys the lock-out rule. */
    ghost predicate LockoutHolds()
      reads this`users, users
    {
      forall u :: u in users ==> u.LockoutRule()
    }

    /** `findUserByUsername`: the first case-insensitive match, or null. */
    function FindUserByUsername(username: string): (u: User?)
      reads this`users
      ensures u == null <==> forall j :: 0 <= j < |users| ==> !EqualsIgnoreCase(users[j].username, username)
      ensures u != null ==> u in users && EqualsIgnoreCase(u.username, username)
    {
      var k := FindUserIndex(users, username);
      if k < |users| then users[k] else null
    }

    /**
      `login`, with its checks in the source's order. Every failure leaves the session as it
      was; only a wrong password on an active account changes an account (its counter, and
      its status on reaching the threshold); success resets the counter and opens the session.
    */
    method Login(username: string, password: string) returns (r: AuthenticationResult)
      modifies this`currentUser, users
      ensures users == old(users)
      ensures !r.success ==> r.user == null && currentUser == old(currentUser)
      ensures IsBlank(username) ==> r.message == UsernameEmptyMessage && !r.success
      ensures !IsBlank(username) && IsBlank(password) ==> r.message == PasswordEmptyMessage && !r.success
      ensures !IsBlank(username) && !IsBlank(password) && FindUserByUsername(username) == null ==>
                r.message == UsernameNotFoundMessage && !r.success
      ensures var u := FindUserByUsername(username);
              !IsBlank(username) && !IsBlank(password) && u != null && !old(u.CanLogin()) ==>
                !r.success && r.message == (if old(u.status) == Locked then AccountLockedMessage else AccountInactiveMessage)
      ensures var u := FindUserByUsername(username);
              !IsBlank(username) && !IsBlank(password) && u != null && old(u.CanLogin()) && !old(u.VerifyPassword(password)) ==>
                !r.success && u.failedLoginAttempts == old(u.failedLoginAttempts) + 1 &&
                u.status == (if u.failedLoginAttempts >= LockThreshold then Locked else Active) &&
                u.passwordHash == old(u.passwordHash) &&
                r.message == InvalidPasswordMessage + (if u.status == Locked then LockedNowSuffix else "")
      ensures var u := FindUserByUsername(username);
              !IsBlank(username) && !IsBlank(password) && u != null && old(u.CanLogin()) && old(u.VerifyPassword(password)) ==>
                r == AuthenticationResult(true, LoginSuccessMessage, u) && currentUser == u &&
                u.failedLoginAttempts == 0 && u.status == Active && u.passwordHash == old(u.passwordHash)
      ensures r.success ==> r.user == FindUserByUsername(username)
      ensures forall v :: v in users && v != FindUserByUsername(username) ==> unchanged(v)
      ensures forall v :: v in users && !(old(v.CanLogin()) && !IsBlank(username) && !IsBlank(password)) ==> unchanged(v)
      ensures old(LockoutHolds()) ==> LockoutHolds()
    {
      if IsBlank(username) {
        return AuthenticationResult(false, UsernameEmptyMessage, null);
      }
      if IsBlank(password) {
        return AuthenticationResult(false, PasswordEmptyMessage, null);
      }
      var user := FindUserByUsername(username);
      if user == null {
        return AuthenticationResult(false, UsernameNotFoundMessage, null);
      }
      if !user.CanLogin() {
        var reason := if user.status == Locked then AccountLockedMessage else AccountInactiveMessage;
        return AuthenticationResult(false, reason, null);
      }
      if !user.VerifyPassword(password) {
        user.RecordFailedLogin();
        var message := InvalidPasswordMessage;
        if user.status == Locked {
          message := message + LockedNowSuffix;
        }
        return AuthenticationResult(false, message, null);
      }
      user.RecordSuccessfulLogin();
      currentUser := user;
      return AuthenticationResult(true, LoginSuccessMessage, user);
    }

    /** Ends the session; with nobody logged in there is nothing to do. */
    method Logout()
      modifies this`currentUser
      ensures currentUser == null
    {
      if currentUser != null {
        currentUser := null;
      }
    }

    predicate IsLoggedIn()
      reads this`currentUser
    {
      currentUser != null
    }

    predicate IsCurrentUserAdmin()
      reads this`currentUser
    {
      currentUser != null && currentUser.IsAdmin()
    }

    predicate IsCurrentUserCustomer()
      reads this`currentUser
    {
      currentUser != null && currentUser.IsCustomer()
    }

    /**
      `unlockUserAccount`: succeeds only on an existing locked account, which becomes active
      with a zero counter; otherwise nothing changes.
    */
    method UnlockUserAccount(username: string) returns (ok: bool)
      modifies users
      ensures var u := FindUserByUsername(username);
              ok <==> u != null && old(u.status) == Locked
      ensures var u := FindUserByUsername(username);
              ok ==> u.status == Active && u.failedLoginAttempts == 0 && u.passwordHash == old(u.passwordHash)
      ensures forall v :: v in users && (!ok || v != FindUserByUsername(username)) ==> unchanged(v)
      ensures old(LockoutHolds()) ==> LockoutHolds()
    {
      var user := FindUserByUsername(username);
      if user != null && user.status == Locked {
        user.status := Active;
        user.failedLoginAttempts := 0;
        return true;
      }
      return false;
    }

    /**
      `changePassword`: succeeds iff the account exists and the old password verifies; then
      the new password verifies, the counter is zero and the status is kept.
    */
    method ChangePassword(username: string, oldPassword: string, newPassword: string) returns (ok: bool)
      modifies users
      ensures var u := FindUserByUsername(username);
              ok <==> u != null && old(u.VerifyPassword(oldPassword))
      ensures var u := FindUserByUsername(username);
              ok ==> u.VerifyPassword(newPassword) && u.failedLoginAttempts == 0 && u.status == old(u.status)
      ensures forall v :: v in users && (!ok || v != FindUserByUsername(username)) ==> unchanged(v)
      ensures old(LockoutHolds()) ==> LockoutHolds()
    {
      var user := FindUserByUsername(username);
      if user != null && user.VerifyPassword(oldPassword) {
        user.UpdatePassword(newPassword);
        return true;
      }
      return false;
    }

    /**
      `generateCustomerId`: one past the largest customer number in use (C001 when there is
      none), hence different from every account's ID.
    */
    method GenerateCustomerId() returns (id: string)
      ensures id == FormatId('C', MaxSuffix(UserIds(users), 'C', 0) + 1)
      ensures id !in UserIds(users)
    {
      var ids := UserIds(users);
      var maxId := ScanMaxSuffix(ids, 'C', 0);
      id := FormatId('C', maxId + 1);
      NextIdFresh(ids, 'C', 0);
    }

    /** The append of `registerCustomer`, for an account whose username is not yet taken. */
    method AppendUser(u: User)
      requires FindUserByUsername(u.username) == null && u.LockoutRule()
      modifies this`users
      ensures users == old(users) + [u]
      ensures old(UsernamesUnique()) ==> UsernamesUnique()
      ensures old(LockoutHolds()) ==> LockoutHolds()
    {
      forall j | 0 <= j < |users|
        ensures !EqualsIgnoreCase(users[j].username, u.username)
      {
        EqualsIgnoreCaseSymmetric(users[j].username, u.username);
      }
      if UsernamesUnique() {
        AppendKeepsDistinctUsernames(users, u);
      }
      users := users + [u];
    }

    /**
      `registerCustomer`: refuses a username already present up to case; otherwise appends
      one fresh, active customer with the next customer ID.
    */
    method RegisterCustomer(username: string, password: string, fullName: string, email: string) returns (ok: bool)
      modifies this`users
      ensures ok <==> old(FindUserByUsername(username)) == null
      ensures !ok ==> users == old(users)
      ensures ok ==> |users| == |old(users)| + 1 && users[..|old(users)|] == old(users)
      ensures ok ==> var u := users[|users| - 1];
                fresh(u) && u.username == username && u.fullName == fullName && u.email == email &&
                u.userType == Customer && u.status == Active && u.failedLoginAttempts == 0 &&
                u.VerifyPassword(password) &&
                u.userId == FormatId('C', MaxSuffix(UserIds(old(users)), 'C', 0) + 1) &&
                u.userId !in UserIds(old(users))
      ensures old(UsernamesUnique()) ==> UsernamesUnique()
      ensures old(LockoutHolds()) ==> LockoutHolds()
    {
      if FindUserByUsername(username) != null {
        return false;
      }
      ghost var ids := UserIds(users);
      var userId := GenerateCustomerId();
      ghost var next := MaxSuffix(ids, 'C', 0) + 1;
      assert userId == FormatId('C', next) && userId !in ids;
      var newUser := new User(userId, username, password, fullName, email, Customer);
      AppendUser(newUser);
      assert users[|users| - 1] == newUser && ids == UserIds(old(users));
      return true;
    }
  }

  /** The role gates are closed without a session, and with one exactly one of them is open. */
  lemma RoleGates(auth: AuthenticationService)
    ensures !auth.IsLoggedIn() ==> !auth.IsCurrentUserAdmin() && !auth.IsCurrentUserCustomer()
    ensures auth.IsLoggedIn() ==> (auth.IsCurrentUserAdmin() <==> !auth.IsCurrentUserCustomer())
  {
  }

  /**
    The lock-out sequence on a fresh active account: three wrong passwords, the third
    reporting the lock, after which even the correct password is refused as locked.
  */
  method LockoutScenario(username: string, password: string, wrong: string) returns (messages: seq<string>)
    requires !IsBlank(username) && !IsBlank(password) && !IsBlank(wrong)
    requires PasswordHash(wrong, username) != PasswordHash(password, username)
    ensures messages == [InvalidPasswordMessage, InvalidPasswordMessage, InvalidPasswordMessage + LockedNowSuffix,
                         AccountLockedMessage]
  {
    var account := new User("C001", username, password, "Some Customer", "someone@example.com", Customer);
    var auth := new AuthenticationService([account]);
    assert auth.FindUserByUsername(username) == account && auth.users == [account];
    assert InvalidPasswordMessage + "" == InvalidPasswordMessage;
    var r1 := auth.Login(username, wrong);
    assert account.failedLoginAttempts == 1 && account.status == Active;
    assert r1.message == InvalidPasswordMessage;
    var r2 := auth.Login(username, wrong);
    assert account.failedLoginAttempts == 2 && account.status == Active;
    assert r2.message == InvalidPasswordMessage;
    var r3 := auth.Login(username, wrong);
    assert account.failedLoginAttempts == 3 && account.status == Locked;
    assert r3.message == InvalidPasswordMessage + LockedNowSuffix;
    assert auth.users == [account];
    var r4 := auth.Login(username, password);
    messages := [r1.message, r2.message, r3.message, r4.message];
  }

  /**
    A stored locked account refuses its correct password until an administrator unlocks it;
    then the same password logs in and opens the session.
  */
  method UnlockScenario(username: string, password: string) returns (messages: seq<string>, loggedIn: bool)
    requires !IsBlank(username) && !IsBlank(password)
    ensures messages == [AccountLockedMessage, LoginSuccessMessage] && loggedIn
  {
    var account := new User.Load("C001", username, PasswordHash(password, username), "Some Customer",
                                 "someone@example.com", Customer, Locked, LockThreshold);
    var auth := new AuthenticationService([account]);
    assert auth.FindUserByUsername(username) == account && auth.users == [account];
    var r1 := auth.Login(username, password);
    assert auth.users == [account] && account.VerifyPassword(password);
    var unlocked := auth.UnlockUserAccount(username);
    assert auth.users == [account] && account.VerifyPassword(password) && account.status == Active;
    var r2 := auth.Login(username, password);
    messages := [r1.message, r2.message];
    loggedIn := auth.IsLoggedIn();
  }
}
