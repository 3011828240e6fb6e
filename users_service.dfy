/**
 * Account workflows: registration inserts a user under a unique email with the
 * hashed password and issues a token; login looks the email up, compares the
 * password and issues a token.  Password hashing (`encrypt`), password comparison
 * (`compare`) and token signing (`generate`) are opaque collaborators, passed in
 * as functions.
 */
module UsersService {
  import opened Results

  type Token = string

  datatype User = User(id: nat, name: string, email: string, password: string)

  const RegisterFailedMessage := "Error al registrar el usuario"
  const InvalidCredentials := "Credenciales inválidas"

  /** The store's error code for a unique-constraint violation. */
  const UniqueViolation := "P2002"
  const ConflictFault := Fault(Some(UniqueViolation), "Unique constraint failed on the fields: (`email`)")

  /**
   * How one registration goes: normally (the store enforces the unique email
   * itself), with no record and no error from the insert, with a fault before the
   * insert (from hashing or from the store), or with a fault from token signing
   * after the row is already stored.
   */
  datatype StoreMode = Healthy | ReturnsNothing | Faults(fault: Fault) | SigningFaults(fault: Fault)

  /**
   * `login({email, password})`.  `fault` is a fault thrown by the lookup, which
   * `login` does not catch.
   */
  function Login(users: map<string, User>, email: string, password: string,
                 compare: (string, string) -> bool, generate: User -> Token, fault: Option<Fault>)
    : (r: Outcome<Reply<Token>>)
    ensures fault.Some? ==> r == Thrown(fault.value)
    ensures r.Returned? <==> fault.None?
    ensures r.Returned? ==>
      (r.result.Success? <==> email in users && compare(password, users[email].password))
    ensures r.Returned? && r.result.Success? ==> r.result.value == generate(users[email])
    ensures r.Returned? && r.result.Failure? ==> r.result.message == InvalidCredentials
  {
    if fault.Some? then Thrown(fault.value)
    else if email !in users then Returned(Failure(InvalidCredentials))
    else
      var user := users[email];
      if !compare(password, user.password) then Returned(Failure(InvalidCredentials))
      else Returned(Success(generate(user)))
  }

  /** For an unknown email the password comparison is never consulted. */
  lemma UnknownEmailSkipsCompare(users: map<string, User>, email: string, password: string,
                                 compare1: (string, string) -> bool, compare2: (string, string) -> bool,
                                 generate: User -> Token, fault: Option<Fault>)
    requires email !in users
    ensures Login(users, email, password, compare1, generate, fault)
         == Login(users, email, password, compare2, generate, fault)
    ensures fault.None? ==> Login(users, email, password, compare1, generate, fault).result.Failure?
  {
  }

  /**
   * A wrong password gives exactly what the same request gives against a table in
   * which the account does not exist.
   */
  lemma WrongPasswordLooksLikeUnknownEmail(users: map<string, User>, email: string, password: string,
                                           compare: (string, string) -> bool, generate: User -> Token)
    requires email in users && !compare(password, users[email].password)
    ensures Login(users, email, password, compare, generate, None)
         == Login(users - {email}, email, password, compare, generate, None)
  {
  }

  /**
   * Once a user is stored with the hash of their password, logging in with that
   * password yields the token generated from that very user, provided the hasher
   * accepts a password against its own hash.
   */
  lemma RegisteredUserCanLogIn(users: map<string, User>, id: nat, name: string, email: string, password: string,
                               encrypt: string -> string, compare: (string, string) -> bool, generate: User -> Token)
    requires compare(password, encrypt(password))
    ensures var user := User(id, name, email, encrypt(password));
      Login(users[email := user], email, password, compare, generate, None) == Returned(Success(generate(user)))
  {
  }

  /** The user table: a map keyed by the unique email. */
  class UserStore {
    var users: map<string, User>
    var nextId: nat

    ghost predicate Valid()
      reads this
    {
      && (forall e :: e in users ==> users[e].email == e && users[e].id < nextId)
      && (forall e1, e2 :: e1 in users && e2 in users && e1 != e2 ==> users[e1].id != users[e2].id)
    }

    /**
     * In a valid table a successful login issues the token of the one account
     * stored under the email given: the account carries that email, an id the store
     * has handed out, and an id no other account shares.
     */
    lemma LoginIssuesTokenForThatAccount(email: string, password: string,
                                         compare: (string, string) -> bool, generate: User -> Token)
      requires Valid()
      requires Login(users, email, password, compare, generate, None).Returned?
      requires Login(users, email, password, compare, generate, None).result.Success?
      ensures email in users
      ensures Login(users, email, password, compare, generate, None).result.value == generate(users[email])
      ensures users[email].email == email && users[email].id < nextId
      ensures forall e :: e in users && e != email ==> users[e].id != users[email].id
    {
    }

    /** An empty table; the store's autoincrement starts at 1. */
    constructor ()
      ensures Valid() && users == map[] && nextId == 1
    {
      users := map[];
      nextId := 1;
    }

    /**
     * `register({name, email, password})`.  No fault is caught: a duplicate email
     * surfaces as the store's conflict fault, unchanged, and a signing fault comes
     * after the insert, so the new user stays stored.
     */
    method Register(name: string, email: string, password: string,
                    encrypt: string -> string, generate: User -> Token, mode: StoreMode)
      returns (r: Outcome<Reply<Token>>)
      requires Valid()
      modifies this
      ensures Valid()
      ensures var created := User(old(nextId), name, email, encrypt(password));
        if (mode.Healthy? || mode.SigningFaults?) && email !in old(users) then
          && users == old(users)[email := created]
          && nextId == old(nextId) + 1
          && r == (if mode.Healthy? then Returned(Success(generate(created))) else Thrown(mode.fault))
        else
          && users == old(users)
          && nextId == old(nextId)
          && r == match mode
                  case Faults(f) => Thrown(f)
                  case ReturnsNothing => Returned(Failure(RegisterFailedMessage))
                  case Healthy => Thrown(ConflictFault)
                  case SigningFaults(_) => Thrown(ConflictFault)
    {
      var hashed := encrypt(password);
      match mode {
        case Faults(f) =>
          return Thrown(f);
        case ReturnsNothing =>
          return Returned(Failure(RegisterFailedMessage));
        case _ =>
          if email in users {
            return Thrown(ConflictFault);
          }
      }
      var user := User(nextId, name, email, hashed);
      users := users[email := user];
      nextId := nextId + 1;
      if mode.SigningFaults? {
        return Thrown(mode.fault);
      }
      r := Returned(Success(generate(user)));
    }
  }
}
