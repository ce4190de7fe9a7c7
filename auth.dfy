/** The session store (`src/context/AuthContext.tsx`): the current user,
    demo login by role, registration with a role-dependent opening balance,
    and a signed account balance that credit and debit adjust. */
module Auth {
  import opened Domain
  import Text

  const DefaultUser: User := User("1", "John Doe", "john@example.com", UserRole,
    Some("https://ui-avatars.com/api/?name=John+Doe&background=random"), Some(100.0))

  const DriverUser: User := User("2", "Jane Driver", "jane@example.com", DriverRole,
    Some("https://ui-avatars.com/api/?name=Jane+Driver&background=random"), Some(500.0))

  const AdminUser: User := User("3", "Admin User", "admin@example.com", AdminRole,
    Some("https://ui-avatars.com/api/?name=Admin+User&background=random"), Some(1000.0))

  /** The demo account `login` signs in as; email and password play no part.
      It has the requested role when that role is admin or driver, and the
      plain user role for any other string. */
  function DemoUserFor(role: string): (u: User)
    ensures u == AdminUser || u == DriverUser || u == DefaultUser
    ensures u.role == if role == AdminRole || role == DriverRole then role else UserRole
    ensures u.accountBalance.Some?
  {
    if role == AdminRole then AdminUser
    else if role == DriverRole then DriverUser
    else DefaultUser
  }

  /** Opening balance of a registered account: 500 for drivers, 100 otherwise. */
  function InitialBalance(role: string): (balance: real)
    ensures balance == 500.0 <==> role == DriverRole
    ensures balance == 100.0 <==> role != DriverRole
  {
    if role == DriverRole then 500.0 else 100.0
  }

  /** Registration opens an account with the balance of the demo account of
      the same role, except for admins (100 against the demo admin's 1000). */
  lemma InitialBalanceMatchesDemo(role: string)
    ensures InitialBalance(role) == Balance(DemoUserFor(role)) <==> role != AdminRole
  {
  }

  function AvatarUrl(name: string): string
  {
    "https://ui-avatars.com/api/?name=" + Text.ReplaceFirstSpace(name) + "&background=random"
  }

  /** The account `register` creates; `id` stands for the random id. */
  function NewUser(id: string, name: string, email: string, role: string): (u: User)
    ensures u.id == id && u.name == name && u.email == email && u.role == role
    ensures u.avatar == Some(AvatarUrl(name))
    ensures u.accountBalance == Some(InitialBalance(role))
  {
    User(id, name, email, role, Some(AvatarUrl(name)), Some(InitialBalance(role)))
  }

  /** `user.accountBalance || 0`: a missing balance reads as zero. */
  function Balance(u: User): real
  {
    if u.accountBalance.Some? then u.accountBalance.value else 0.0
  }

  /** The user record after `addCredit(amount)`. */
  function Credited(u: User, amount: real): (r: User)
    ensures Balance(r) == Balance(u) + amount
    ensures r == u.(accountBalance := r.accountBalance)
  {
    u.(accountBalance := Some(Balance(u) + amount))
  }

  /** The user record after `deductCredit(amount)`; nothing stops the
      balance from going below zero. */
  function Debited(u: User, amount: real): (r: User)
    ensures Balance(r) == Balance(u) - amount
    ensures r == u.(accountBalance := r.accountBalance)
  {
    u.(accountBalance := Some(Balance(u) - amount))
  }

  /** Crediting and then debiting the same amount restores the balance and
      the rest of the record; only a missing balance becomes an explicit 0. */
  lemma CreditThenDebitRestores(u: User, amount: real)
    ensures Balance(Debited(Credited(u, amount), amount)) == Balance(u)
    ensures Debited(Credited(u, amount), amount) == u.(accountBalance := Some(Balance(u)))
    ensures u.accountBalance.Some? ==> Debited(Credited(u, amount), amount) == u
  {
  }

  /** `hasDebt()`: someone is logged in and their balance is below zero. */
  function HasDebt(user: Option<User>): (debt: bool)
    ensures user.None? ==> !debt
    ensures user.Some? && user.value.accountBalance.None? ==> !debt
    ensures user.Some? && user.value.accountBalance.Some? ==> (debt <==> user.value.accountBalance.value < 0.0)
  {
    user.Some? && Balance(user.value) < 0.0
  }

  /** Debiting more than the balance puts the account in debt, and only that. */
  lemma DebitIntoDebt(u: User, amount: real)
    ensures HasDebt(Some(Debited(u, amount))) <==> amount > Balance(u)
  {
  }

  /** A fresh registration or demo login is never in debt. */
  lemma FreshAccountsHaveNoDebt(id: string, name: string, email: string, role: string)
    ensures !HasDebt(Some(NewUser(id, name, email, role)))
    ensures !HasDebt(Some(DemoUserFor(role)))
  {
  }

  /** The provider's state: the signed-in user (absent when logged out) and
      the loading flag. Persistence to local storage is the `stored` value
      read at start-up. */
  class Session {
    var user: Option<User>
    var loading: bool

    /** Start-up: restore the stored user, if any, then stop loading. */
    constructor (stored: Option<User>)
      ensures user == stored && !loading
    {
      user := stored;
      loading := false;
    }

    method Login(email: string, password: string, role: string)
      modifies this
      ensures user == Some(DemoUserFor(role))
      ensures !loading
    {
      loading := true;
      user := Some(DemoUserFor(role));
      loading := false;
    }

    method Logout()
      modifies this`user
      ensures user == None
    {
      user := None;
    }

    /** `newId` stands for the random id the source draws. */
    method Register(newId: string, name: string, email: string, password: string, role: string)
      modifies this
      ensures user == Some(NewUser(newId, name, email, role))
      ensures Balance(user.value) == InitialBalance(role) && user.value.role == role
      ensures !loading
    {
      loading := true;
      user := Some(NewUser(newId, name, email, role));
      loading := false;
    }

    method AddCredit(amount: real)
      modifies this`user
      ensures old(user).None? ==> user == None
      ensures old(user).Some? ==> user == Some(Credited(old(user).value, amount))
    {
      if user.None? {
        return;
      }
      user := Some(Credited(user.value, amount));
    }

    method DeductCredit(amount: real)
      modifies this`user
      ensures old(user).None? ==> user == None
      ensures old(user).Some? ==> user == Some(Debited(old(user).value, amount))
    {
      if user.None? {
        return;
      }
      user := Some(Debited(user.value, amount));
    }
  }
}
