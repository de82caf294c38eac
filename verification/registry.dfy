/**
 * The registration handler's checks on the users table: a username and a
 * password must be given, the password must match its confirmation, and the
 * username must not be taken. Password hashing is not modelled: a user is
 * kept by name only.
 */
module Registry {
  import opened Wrappers
  import opened Errors
  import opened Ledger

  /** The number of rows `SELECT * FROM users WHERE username = name` returns. */
  function Occurrences(names: seq<string>, name: string): (r: nat)
    ensures r == 0 <==> name !in names
    ensures r <= |names|
    decreases |names|
  {
    if names == [] then 0
    else
      assert names == names[..|names| - 1] + [names[|names| - 1]];
      Occurrences(names[..|names| - 1], name) + (if names[|names| - 1] == name then 1 else 0)
  }

  /** The answer to a registration: Success(()) when the user is inserted. */
  function RegisterDecision(names: seq<string>, name: string, password: string, confirmation: string): (r: Result<(), Error>)
    ensures r.Success? ==> name != "" && password != "" && password == confirmation
    ensures r == Failure(UserExists) ==> name in names
  {
    if name == "" then Failure(MissingUsername)
    else if password == "" then Failure(MissingPassword)
    else if password != confirmation then Failure(PasswordMismatch)
    else if Occurrences(names, name) == 1 then Failure(UserExists)
    else Success(())
  }

  /** A name occurs in a list without duplicates at most once, and exactly once when present. */
  lemma {:induction false} OccurrencesOfDistinct(names: seq<string>, name: string)
    requires NoDuplicates(names)
    ensures Occurrences(names, name) == (if name in names then 1 else 0)
    decreases |names|
  {
    if names != [] {
      var rest := names[..|names| - 1];
      OccurrencesOfDistinct(rest, name);
      assert name in names <==> name in rest || names[|names| - 1] == name;
      if names[|names| - 1] == name {
        assert name !in rest;
      }
    }
  }

  /**
   * With usernames unique, the `len(rows) == 1` test refuses exactly the
   * names already taken, so the same name cannot be registered twice.
   */
  lemma RegisterRefusesTaken(names: seq<string>, name: string, password: string, confirmation: string)
    requires NoDuplicates(names)
    requires name != "" && password != "" && password == confirmation
    ensures RegisterDecision(names, name, password, confirmation) == Failure(UserExists) <==> name in names
    ensures RegisterDecision(names, name, password, confirmation) == Success(()) <==> name !in names
  {
    OccurrencesOfDistinct(names, name);
  }

  /** A registration that succeeds keeps usernames unique. */
  lemma RegisterKeepsUnique(names: seq<string>, name: string, password: string, confirmation: string)
    requires NoDuplicates(names)
    requires RegisterDecision(names, name, password, confirmation).Success?
    ensures NoDuplicates(names + [name])
  {
    OccurrencesOfDistinct(names, name);
  }

  /** The users table, by username, in insertion order. */
  class Users {
    var names: seq<string>

    ghost predicate Valid()
      reads this
    {
      NoDuplicates(names)
    }

    constructor ()
      ensures Valid() && names == []
    {
      names := [];
    }

    /** The registration handler: check the form, then insert the user unless the name is taken. */
    method Register(name: string, password: string, confirmation: string) returns (r: Result<(), Error>)
      modifies this
      ensures r == RegisterDecision(old(names), name, password, confirmation)
      ensures names == if r.Success? then old(names) + [name] else old(names)
      ensures old(Valid()) ==> Valid()
    {
      if name == "" {
        return Failure(MissingUsername);
      }
      if password == "" {
        return Failure(MissingPassword);
      }
      if password != confirmation {
        return Failure(PasswordMismatch);
      }
      var matches := Occurrences(names, name);
      if matches == 1 {
        return Failure(UserExists);
      }
      if Valid() {
        RegisterKeepsUnique(names, name, password, confirmation);
      }
      names := names + [name];
      r := Success(());
    }
  }

  /** Registering the same username twice: the second attempt is refused. */
  method RegisterTwice()
  {
    var users := new Users();
    var r := users.Register("alice", "pw", "pw");
    assert r.Success?;
    r := users.Register("bob", "pw", "other");
    assert r == Failure(PasswordMismatch);
    r := users.Register("alice", "pw2", "pw2");
    assert r == Failure(UserExists) && users.names == ["alice"];
  }
}
