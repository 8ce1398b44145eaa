/**
  `models.User`: an account with its credential hash, role, status and the failed-login
  counter that drives the lock-out rule. Only the password hash, the status and the counter
  change after construction, so the other fields are constants. The login timestamps
  (`lastLogin`, `createdDate`) are not modelled.
*/
module UserModel {
  import opened Strings

  datatype UserType = Admin | Customer

  datatype AccountStatus = Active | Inactive | Locked

  /** The consecutive failed logins after which an account locks. */
  const LockThreshold: int := 3

  /**
    A stored password hash, kept as the two `hashCode` values it is built from; `Text` is the
    string the source stores, and `TextInjective` shows that comparing texts (as
    `verifyPassword` does) is comparing these values.
  */
  datatype PasswordDigest = Digest(passwordCode: int, usernameCode: int)
  {
    /** "HASH_" + password.hashCode() + "_" + username.hashCode(). */
    function Text(): string
    {
      "HASH_" + IntToString(passwordCode) + "_" + IntToString(usernameCode)
    }
  }

  /** `hashPassword`: a deterministic placeholder built from Java's `String.hashCode`. */
  function PasswordHash(password: string, username: string): (d: PasswordDigest)
    ensures -TwoTo31 <= d.passwordCode < TwoTo31 && -TwoTo31 <= d.usernameCode < TwoTo31
  {
    Digest(HashCode(password), HashCode(username))
  }

  /** Splitting at the first separator: a prefix free of `sep` is determined by the whole. */
  lemma SplitAtSeparator(a: string, b: string, a2: string, b2: string, sep: char)
    requires sep !in a && sep !in a2
    requires a + [sep] + b == a2 + [sep] + b2
    ensures a == a2 && b == b2
  {
    var s := a + [sep] + b;
    assert s[|a|] == sep && s[|a2|] == sep;
    assert forall k :: 0 <= k < |a| ==> s[k] == a[k];
    assert forall k :: 0 <= k < |a2| ==> s[k] == a2[k];
    assert |a| == |a2|;
    assert a == s[..|a|] && a2 == (a2 + [sep] + b2)[..|a2|];
    assert b == s[|a| + 1..] && b2 == (a2 + [sep] + b2)[|a2| + 1..];
  }

  /** A rendered `int` has no underscore, so it cannot swallow the separator. */
  lemma IntTextHasNoUnderscore(i: int)
    ensures '_' !in IntToString(i)
  {
    var t := IntToString(i);
    IntToStringShape(i);
    var digits := if i < 0 then t[1..] else t;
    forall k | 0 <= k < |t|
      ensures t[k] != '_'
    {
      assert (i < 0 && k == 0) || t[k] == digits[if i < 0 then k - 1 else k];
    }
  }

  /** The stored text determines the digest, so text equality is digest equality. */
  lemma TextInjective(d1: PasswordDigest, d2: PasswordDigest)
    ensures d1.Text() == d2.Text() <==> d1 == d2
  {
    if d1.Text() == d2.Text() {
      var a, b := IntToString(d1.passwordCode), IntToString(d1.usernameCode);
      var a2, b2 := IntToString(d2.passwordCode), IntToString(d2.usernameCode);
      IntTextHasNoUnderscore(d1.passwordCode);
      IntTextHasNoUnderscore(d2.passwordCode);
      assert d1.Text()[5..] == a + "_" + b && d2.Text()[5..] == a2 + "_" + b2;
      SplitAtSeparator(a, b, a2, b2, '_');
      IntToStringInjective(d1.passwordCode, d2.passwordCode);
      IntToStringInjective(d1.usernameCode, d2.usernameCode);
    }
  }

  /**
    The placeholder hash collides: "Aa" and "BB" have the same `hashCode`, so an account
    whose password is "Aa" also accepts "BB".
  */
  lemma PasswordHashCollides(username: string)
    ensures PasswordHash("Aa", username) == PasswordHash("BB", username)
  {
    assert "Aa"[..1] == "A" && "BB"[..1] == "B";
    assert "A"[..0] == [] && "B"[..0] == [];
    assert UnsignedHashCode("Aa") == 2112 == UnsignedHashCode("BB");
    assert HashCode("Aa") == HashCode("BB");
  }

  class User {
    const userId: string
    const username: string
    var passwordHash: PasswordDigest
    const fullName: string
    const email: string
    const userType: UserType
    var status: AccountStatus
    var failedLoginAttempts: int

    /** A new account: active, no failed attempts, and its own password verifies. */
    constructor (userId: string, username: string, password: string, fullName: string,
                 email: string, userType: UserType)
      ensures this.userId == userId && this.username == username && this.fullName == fullName
      ensures this.email == email && this.userType == userType
      ensures status == Active && failedLoginAttempts == 0
      ensures passwordHash == PasswordHash(password, username)
      ensures VerifyPassword(password)
    {
      this.userId := userId;
      this.username := username;
      this.passwordHash := PasswordHash(password, username);
      this.fullName := fullName;
      this.email := email;
      this.userType := userType;
      this.status := Active;
      this.failedLoginAttempts := 0;
    }

    /** An account read back from storage, with its stored hash, status and counter. */
    constructor Load(userId: string, username: string, passwordHash: PasswordDigest, fullName: string,
                     email: string, userType: UserType, status: AccountStatus, failedAttempts: int)
      ensures this.userId == userId && this.username == username && this.passwordHash == passwordHash
      ensures this.fullName == fullName && this.email == email && this.userType == userType
      ensures this.status == status && this.failedLoginAttempts == failedAttempts
    {
      this.userId := userId;
      this.username := username;
      this.passwordHash := passwordHash;
      this.fullName := fullName;
      this.email := email;
      this.userType := userType;
      this.status := status;
      this.failedLoginAttempts := failedAttempts;
    }

    function HashPassword(password: string): PasswordDigest
    {
      PasswordHash(password, username)
    }

    predicate VerifyPassword(password: string)
      reads this`passwordHash
    {
      HashPassword(password) == passwordHash
    }

    /** The new password verifies and the failed-attempt counter restarts; the status is kept. */
    method UpdatePassword(newPassword: string)
      modifies this`passwordHash, this`failedLoginAttempts
      ensures passwordHash == HashPassword(newPassword) && VerifyPassword(newPassword)
      ensures failedLoginAttempts == 0
    {
      passwordHash := HashPassword(newPassword);
      failedLoginAttempts := 0;
    }

    /** Resets the counter; never touches the status. */
    method RecordSuccessfulLogin()
      modifies this`failedLoginAttempts
      ensures failedLoginAttempts == 0
    {
      failedLoginAttempts := 0;
    }

    /** One more failed attempt; the account locks once the counter reaches the threshold. */
    method RecordFailedLogin()
      modifies this`failedLoginAttempts, this`status
      ensures failedLoginAttempts == old(failedLoginAttempts) + 1
      ensures status == if failedLoginAttempts >= LockThreshold then Locked else old(status)
      ensures old(LockoutRule()) ==> LockoutRule()
    {
      failedLoginAttempts := failedLoginAttempts + 1;
      if failedLoginAttempts >= LockThreshold {
        status := Locked;
      }
    }

    predicate CanLogin()
      reads this`status
    {
      status == Active
    }

    predicate IsAdmin() { userType == Admin }

    predicate IsCustomer() { userType == Customer }

    /** The account invariant: three or more failed attempts mean the account is locked. */
    predicate LockoutRule()
      reads this`failedLoginAttempts, this`status
    {
      failedLoginAttempts >= LockThreshold ==> status == Locked
    }
  }

  /** Every account is exactly one of administrator and customer. */
  lemma AdminIffNotCustomer(u: User)
    ensures u.IsAdmin() <==> !u.IsCustomer()
  {
  }
}
