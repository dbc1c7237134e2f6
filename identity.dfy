/** Accounts (models.py: User) and the three places app.py decides who someone
    is: register, login, and the name check in front of admin_users. */
module Identity {
  import opened Wrappers
  import opened Text

  /** A row of the users table. The password hash is whatever the hashing
      function produced; it is never inspected here. */
  datatype User = User(id: nat, username: string, fullName: string, passwordHash: string)

  datatype RegisterOutcome =
    | Registered(user: User)
    | BlankName       // "Por favor, digite seu Nome Completo."
    | DuplicateName   // "Este Nome já possui cadastro. Tente fazer login."

  /** The users table, keyed by its unique username column. */
  class Registry {
    var users: map<string, User>
    var nextId: nat

    ghost predicate Valid()
      reads this
    {
      ValidTable(users, nextId)
    }

    constructor ()
      ensures Valid() && users == map[] && nextId == 1
    {
      users := map[];
      nextId := 1;
    }

    /** register: the submitted name is stripped; a blank name and a name
        already taken (compared exactly, case included) are refused and change
        nothing; otherwise a user whose username and full name are both the
        stripped name is added with the given password hash. */
    method Register(rawName: string, passwordHash: string) returns (outcome: RegisterOutcome)
      requires Valid()
      modifies this
      ensures Valid()
      ensures outcome.BlankName? <==> Strip(rawName) == []
      ensures outcome.DuplicateName? <==> Strip(rawName) != [] && Strip(rawName) in old(users)
      ensures outcome.Registered? ==>
        && outcome.user == User(old(nextId), Strip(rawName), Strip(rawName), passwordHash)
        && users == old(users)[Strip(rawName) := outcome.user]
        && nextId == old(nextId) + 1
      ensures !outcome.Registered? ==> users == old(users) && nextId == old(nextId)
    {
      var name := Strip(rawName);
      if name == [] {
        return BlankName;
      }
      if name in users {
        return DuplicateName;
      }
      StripEnds(rawName);
      var user := User(nextId, name, name, passwordHash);
      InsertKeepsValid(users, nextId, user);
      users := users[name := user];
      nextId := nextId + 1;
      outcome := Registered(user);
    }

    /** admin_users: refused unless the current user's full name passes the
        admin check; otherwise every user, ordered by full name. */
    method AdminUsers(actor: User) returns (r: Option<seq<User>>)
      requires Valid()
      ensures r.None? <==> !IsAdmin(actor.fullName)
      ensures r.Some? ==> ListsAllByName(users, r.value)
    {
      if !IsAdmin(actor.fullName) {
        return None;
      }
      var list := ByName(users);
      r := Some(list);
    }
  }

  /** Every account is stored under its own username, which is also its full
      name, already stripped and not empty; ids are distinct and below the
      next id to hand out. */
  ghost predicate ValidTable(users: map<string, User>, nextId: nat)
  {
    && (forall k :: k in users ==>
          && users[k].username == k && users[k].fullName == k
          && Stripped(k)
          && users[k].id < nextId)
    && (forall a, b :: a in users && b in users && a != b ==> users[a].id != users[b].id)
  }

  /** What str.strip() leaves of a name that is not blank: it neither starts
      nor ends with whitespace. */
  predicate Stripped(k: string)
  {
    k != [] && !IsSpace(k[0]) && !IsSpace(k[|k| - 1])
  }

  /** Stripped names are exactly the names strip() leaves unchanged. */
  lemma StrippedIffFixed(k: string)
    ensures Stripped(k) <==> k != [] && Strip(k) == k
  {
    if Stripped(k) {
      StripOfPadded("", k, "");
      assert "" + k + "" == k;
    }
  }

  /** A new account under a fresh, stripped, non-empty name with the next id
      keeps the table valid. */
  lemma InsertKeepsValid(users: map<string, User>, nextId: nat, u: User)
    requires ValidTable(users, nextId)
    requires u.id == nextId && u.fullName == u.username
    requires Stripped(u.username) && u.username !in users
    ensures ValidTable(users[u.username := u], nextId + 1)
  {
    var users' := users[u.username := u];
    forall k | k in users'
      ensures users'[k].username == k && users'[k].fullName == k
      ensures Stripped(k) && users'[k].id < nextId + 1
    {
      if k != u.username {
        assert users'[k] == users[k];
      }
    }
    forall a, b | a in users' && b in users' && a != b
      ensures users'[a].id != users'[b].id
    {
      if a != u.username && b != u.username {
        assert users'[a] == users[a] && users'[b] == users[b];
      }
    }
  }

  /** list holds every account of users once, in ascending full-name order. */
  ghost predicate ListsAllByName(users: map<string, User>, list: seq<User>)
  {
    && |list| == |users|
    && (forall i :: 0 <= i < |list| ==> list[i].fullName in users && users[list[i].fullName] == list[i])
    && (forall k :: k in users ==> users[k] in list)
    && (forall a, b :: 0 <= a < b < |list| ==> Below(list[a].fullName, list[b].fullName))
  }

  /** User.query.order_by(User.full_name).all(): every account, ascending by
      full name. */
  method ByName(users: map<string, User>) returns (list: seq<User>)
    requires forall k :: k in users ==> users[k].fullName == k
    ensures ListsAllByName(users, list)
  {
    var ks := SortDescending(users.Keys);
    list := Reversed(users, ks);
    assert |users.Keys| == |users|;
    ReversedListsAllByName(users, ks, list);
  }

  /** The accounts named by keys, last key first. */
  method Reversed(users: map<string, User>, keys: seq<string>) returns (list: seq<User>)
    requires forall i :: 0 <= i < |keys| ==> keys[i] in users
    ensures |list| == |keys|
    ensures forall j :: 0 <= j < |list| ==> list[j] == users[keys[|keys| - 1 - j]]
  {
    list := [];
    var i := |keys|;
    while i > 0
      invariant 0 <= i <= |keys|
      invariant |list| == |keys| - i
      invariant forall j :: 0 <= j < |list| ==> list[j] == users[keys[|keys| - 1 - j]]
    {
      i := i - 1;
      list := list + [users[keys[i]]];
    }
  }

  /** Reversing the usernames sorted greatest first lists every account once,
      in ascending full-name order. */
  lemma ReversedListsAllByName(users: map<string, User>, keys: seq<string>, list: seq<User>)
    requires forall k :: k in users ==> users[k].fullName == k
    requires |keys| == |users|
    requires forall k :: k in keys <==> k in users
    requires StrictlyDescending(keys)
    requires |list| == |keys|
    requires forall j :: 0 <= j < |list| ==> list[j] == users[keys[|keys| - 1 - j]]
    ensures ListsAllByName(users, list)
  {
    forall a, b | 0 <= a < b < |list|
      ensures Below(list[a].fullName, list[b].fullName)
    {
      assert list[a].fullName == keys[|keys| - 1 - a];
      assert list[b].fullName == keys[|keys| - 1 - b];
    }
    forall k | k in users
      ensures users[k] in list
    {
      var j :| 0 <= j < |keys| && keys[j] == k;
      assert list[|keys| - 1 - j] == users[k];
    }
  }

  // ---------------------------------------------------------------------------
  // Login
  // ---------------------------------------------------------------------------

  /** login: the user whose username is exactly the stripped name, provided the
      password checks against its hash; check stands for
      check_password_hash(hash, password). */
  function Login(users: map<string, User>, rawName: string, password: string, check: (string, string) -> bool): Option<User>
  {
    var name := Strip(rawName);
    if name in users && check(users[name].passwordHash, password) then Some(users[name]) else None
  }

  /** Login is User.query.filter_by(username=name).first() followed by the
      password check: it succeeds exactly when some row of the table has the
      stripped name as its username and a hash the password checks against,
      and then it returns that row, the only one with that username. */
  lemma LoginFindsRow(users: map<string, User>, nextId: nat, rawName: string, password: string, check: (string, string) -> bool)
    requires ValidTable(users, nextId)
    ensures Login(users, rawName, password, check).Some? <==>
      exists u :: u in users.Values && u.username == Strip(rawName) && check(u.passwordHash, password)
    ensures Login(users, rawName, password, check).Some? ==>
      var u := Login(users, rawName, password, check).value;
      && u in users.Values && u.username == Strip(rawName) && check(u.passwordHash, password)
      && forall v :: v in users.Values && v.username == Strip(rawName) ==> v == u
  {
    var name := Strip(rawName);
    if u :| u in users.Values && u.username == name && check(u.passwordHash, password) {
      var k :| k in users && users[k] == u;
      assert k == name;
    }
    if name in users {
      forall v | v in users.Values && v.username == name
        ensures v == users[name]
      {
        var k :| k in users && users[k] == v;
      }
    }
  }

  /** Whatever surrounds the name typed at login does not matter. */
  lemma LoginIgnoresOuterSpace(users: map<string, User>, rawName: string, password: string, check: (string, string) -> bool)
    ensures Login(users, rawName, password, check) == Login(users, Strip(rawName), password, check)
  {
    StripIdempotent(rawName);
  }

  /** Right after a registration, a login finds the new account exactly when
      the typed name strips to its username and the password checks against
      its hash; a login under any other name never returns it. */
  lemma LoginAfterRegister(users: map<string, User>, nextId: nat, u: User, rawName: string, password: string, check: (string, string) -> bool)
    requires ValidTable(users, nextId)
    requires u.id == nextId && u.username !in users
    ensures Login(users[u.username := u], rawName, password, check) == Some(u) <==>
      Strip(rawName) == u.username && check(u.passwordHash, password)
    ensures Strip(rawName) != u.username ==>
      Login(users[u.username := u], rawName, password, check) == Login(users, rawName, password, check)
  {
    var name := Strip(rawName);
    if name != u.username && name in users {
      assert users[name].id < nextId;
    }
  }

  /** Login compares names exactly: an account registered as "Ana Souza" is
      not found under "ana souza". */
  lemma LoginIsCaseSensitive(u: User, password: string, check: (string, string) -> bool)
    requires u.username == "Ana Souza"
    ensures Login(map["Ana Souza" := u], "ana souza", password, check) == None
  {
    StripOfPadded("", "ana souza", "");
    assert "" + "ana souza" + "" == "ana souza";
    assert "ana souza"[0] != "Ana Souza"[0];
  }

  // ---------------------------------------------------------------------------
  // The admin check
  // ---------------------------------------------------------------------------

  const AdminName: string := "lusiane gomes simão"

  /** full_name.strip().lower() == "lusiane gomes simão". */
  predicate IsAdmin(fullName: string)
  {
    Lower(Strip(fullName)) == AdminName
  }

  /** A name passes the admin check exactly when it is the admin name, in any
      letter case, with only whitespace around it. */
  lemma IsAdminIffPadded(s: string)
    ensures IsAdmin(s) <==>
      exists a, c, b :: s == a + c + b && AllSpace(a) && AllSpace(b) && Lower(c) == AdminName
  {
    if IsAdmin(s) {
      AdminIsPadded(s);
    }
    if exists a, c, b :: s == a + c + b && AllSpace(a) && AllSpace(b) && Lower(c) == AdminName {
      var a, c, b :| s == a + c + b && AllSpace(a) && AllSpace(b) && Lower(c) == AdminName;
      PaddedIsAdmin(a, c, b);
    }
  }

  lemma AdminIsPadded(s: string)
    requires IsAdmin(s)
    ensures exists a, c, b :: s == a + c + b && AllSpace(a) && AllSpace(b) && Lower(c) == AdminName
  {
    StripSplits(s);
    var n := LeadingSpaces(s);
    var c := Strip(s);
    var a, b := s[..n], s[n + |c|..];
    assert s == a + c + b;
  }

  lemma PaddedIsAdmin(a: string, c: string, b: string)
    requires AllSpace(a) && AllSpace(b) && Lower(c) == AdminName
    ensures IsAdmin(a + c + b)
  {
    assert |c| == |AdminName|;
    assert Lower(c)[0] == AdminName[0] == 'l';
    assert Lower(c)[|c| - 1] == AdminName[|c| - 1] == 'o';
    LowerKeepsSpace(c[0]);
    LowerKeepsSpace(c[|c| - 1]);
    StripOfPadded(a, c, b);
  }

  /** Lower-casing never turns whitespace into something else, nor anything
      else into whitespace. */
  lemma LowerKeepsSpace(ch: char)
    ensures IsSpace(LowerChar(ch)) <==> IsSpace(ch)
  {
  }

  /** Stripping whitespace-padded text that neither starts nor ends with
      whitespace gives the text back. */
  lemma StripOfPadded(a: string, c: string, b: string)
    requires AllSpace(a) && AllSpace(b)
    requires c != [] && !IsSpace(c[0]) && !IsSpace(c[|c| - 1])
    ensures Strip(a + c + b) == c
  {
    var s := a + c + b;
    assert s == a + (c + b);
    assert (c + b)[0] == c[0];
    LeadingOfPadded(a, c + b);
    assert (a + c)[|a + c| - 1] == c[|c| - 1];
    TrailingOfPadded(a + c, b);
    assert s[|a|..|s| - |b|] == c;
  }

  lemma {:induction false} LeadingOfPadded(a: string, t: string)
    requires AllSpace(a)
    requires t != [] && !IsSpace(t[0])
    ensures LeadingSpaces(a + t) == |a|
  {
    if a != [] {
      assert (a + t)[1..] == a[1..] + t;
      LeadingOfPadded(a[1..], t);
    }
  }

  lemma {:induction false} TrailingOfPadded(t: string, b: string)
    requires AllSpace(b)
    requires t != [] && !IsSpace(t[|t| - 1])
    ensures TrailingSpaces(t + b) == |b|
  {
    if b != [] {
      assert (t + b)[..|t + b| - 1] == t + b[..|b| - 1];
      TrailingOfPadded(t, b[..|b| - 1]);
    } else {
      assert t + b == t;
    }
  }

  // ---------------------------------------------------------------------------
  // Worked names: capitals and padding pass; a missing accent or a doubled
  // inner space does not.
  // ---------------------------------------------------------------------------

  lemma AdminNameAsRegistered()
    ensures IsAdmin("Lusiane Gomes Simão")
  {
    PaddedIsAdmin("", "Lusiane Gomes Simão", "");
    assert "" + "Lusiane Gomes Simão" + "" == "Lusiane Gomes Simão";
  }

  lemma ShoutedNameLowers()
    ensures Lower("LUSIANE GOMES SIMÃO") == AdminName
  {
    var c := "LUSIANE GOMES SIMÃO";
    forall i | 0 <= i < |c|
      ensures Lower(c)[i] == AdminName[i]
    {
    }
  }

  lemma AdminNameShoutedAndPadded()
    ensures IsAdmin("  LUSIANE GOMES SIMÃO\n")
  {
    var c := "LUSIANE GOMES SIMÃO";
    var s := "  LUSIANE GOMES SIMÃO\n";
    assert s == "  " + c + "\n" by {
      forall i | 0 <= i < |s|
        ensures s[i] == ("  " + c + "\n")[i]
      {
      }
    }
    ShoutedNameLowers();
    PaddedIsAdmin("  ", c, "\n");
  }

  lemma AdminNameWithoutAccent()
    ensures !IsAdmin("Lusiane Gomes Simao")
  {
    StripOfPadded("", "Lusiane Gomes Simao", "");
    assert "" + "Lusiane Gomes Simao" + "" == "Lusiane Gomes Simao";
    assert Lower("Lusiane Gomes Simao")[17] == 'a' != AdminName[17];
  }

  lemma AdminNameWithDoubleSpace()
    ensures !IsAdmin("Lusiane  Gomes Simão")
  {
    StripOfPadded("", "Lusiane  Gomes Simão", "");
    assert "" + "Lusiane  Gomes Simão" + "" == "Lusiane  Gomes Simão";
    assert |Lower("Lusiane  Gomes Simão")| != |AdminName|;
  }
}
