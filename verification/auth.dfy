/**
 * The auth handler: trim and validate the nick and password, then
 * `register` a new account or `login` to an existing one.
 *
 * The password hash (SHA-256 in hex) is the parameter `hash`, an arbitrary
 * function; nothing here depends on what it computes.
 */
module Auth {
  import opened Common
  import opened Tables

  /** Python's `str.isspace`: the characters `str.strip()` removes. */
  predicate IsSpace(c: char) {
    var n := c as int;
    || n == 0x20 || 0x09 <= n <= 0x0D || 0x1C <= n <= 0x1F
    || n == 0x85 || n == 0xA0 || n == 0x1680 || 0x2000 <= n <= 0x200A
    || n == 0x2028 || n == 0x2029 || n == 0x202F || n == 0x205F || n == 0x3000
  }

  /** How many whitespace characters `s` starts with. */
  function LeadingSpaces(s: string): (k: nat)
    ensures k <= |s|
    ensures forall i :: 0 <= i < k ==> IsSpace(s[i])
    ensures k < |s| ==> !IsSpace(s[k])
  {
    if |s| == 0 || !IsSpace(s[0]) then 0 else 1 + LeadingSpaces(s[1..])
  }

  /** How many whitespace characters `s` ends with. */
  function TrailingSpaces(s: string): (k: nat)
    ensures k <= |s|
    ensures forall i :: |s| - k <= i < |s| ==> IsSpace(s[i])
    ensures k < |s| ==> !IsSpace(s[|s| - 1 - k])
  {
    if |s| == 0 || !IsSpace(s[|s| - 1]) then 0 else 1 + TrailingSpaces(s[..|s| - 1])
  }

  /** `r` is `s` from position `i` on, once whitespace-only ends are cut off. */
  ghost predicate StripsTo(s: string, i: int, r: string) {
    && 0 <= i <= |s| - |r|
    && r == s[i..i + |r|]
    && (forall j :: 0 <= j < i ==> IsSpace(s[j]))
    && (forall j :: i + |r| <= j < |s| ==> IsSpace(s[j]))
  }

  /**
   * `str.strip()`: the slice of `s` left after removing whitespace at both
   * ends; it is empty or starts and ends with a non-whitespace character.
   */
  function Strip(s: string): (r: string)
    ensures |r| <= |s|
    ensures |r| > 0 ==> !IsSpace(r[0]) && !IsSpace(r[|r| - 1])
    ensures exists i :: StripsTo(s, i, r)
  {
    var a := LeadingSpaces(s);
    if a == |s| then
      assert StripsTo(s, |s|, "");
      ""
    else
      var z := TrailingSpaces(s);
      assert StripsTo(s, a, s[a..|s| - z]);
      s[a..|s| - z]
  }

  /** Stripping twice is stripping once. */
  lemma StripIsIdempotent(s: string)
    ensures Strip(Strip(s)) == Strip(s)
  {
    var t := Strip(s);
    if |t| > 0 {
      assert LeadingSpaces(t) == 0;
      assert TrailingSpaces(t) == 0;
      assert t[0..|t|] == t;
    }
  }

  /** A character of the class `[a-zA-Z0-9_]`. */
  predicate WordChar(c: char) {
    'a' <= c <= 'z' || 'A' <= c <= 'Z' || '0' <= c <= '9' || c == '_'
  }

  /** The intended nick rule: non-empty, only ASCII letters, digits and underscores. */
  predicate ValidNick(s: string) {
    |s| > 0 && forall i :: 0 <= i < |s| ==> WordChar(s[i])
  }

  /**
   * `re.match(r'^[a-zA-Z0-9_]+$', s)`: Python's `$` also matches just
   * before a newline that ends the string.
   */
  predicate NickPatternMatches(s: string) {
    ValidNick(s) || (2 <= |s| && s[|s| - 1] == '\n' && ValidNick(s[..|s| - 1]))
  }

  /** On a stripped nick the pattern means exactly the nick rule: a final newline was already removed. */
  lemma PatternOnStrippedNick(s: string)
    ensures NickPatternMatches(Strip(s)) <==> ValidNick(Strip(s))
  {
  }

  /** Account data the handler returns. */
  datatype Account = Account(id: int, user: User)

  /** What a request answers, with the users table it leaves behind. */
  datatype AuthStep = AuthStep(reply: Reply<Account>, users: seq<User>)

  /** Some user already has this nick. */
  predicate NickInUse(users: seq<User>, nick: string) {
    exists i :: 0 <= i < |users| && users[i].nick == nick
  }

  /** The lowest id whose row has this nick and password hash. */
  function FindLogin(users: seq<User>, nick: string, hashed: string): (k: Option<nat>)
    ensures k.None? <==> forall i :: 0 <= i < |users| ==> !(users[i].nick == nick && users[i].passwordHash == hashed)
    ensures k.Some? ==> k.value < |users| && users[k.value].nick == nick && users[k.value].passwordHash == hashed
    ensures k.Some? ==> forall i :: 0 <= i < k.value ==> !(users[i].nick == nick && users[i].passwordHash == hashed)
  {
    if |users| == 0 then None
    else
      var k := FindLogin(users[..|users| - 1], nick, hashed);
      var last := users[|users| - 1];
      if k.Some? then k
      else if last.nick == nick && last.passwordHash == hashed then Some(|users| - 1)
      else None
  }

  /** The row `register` inserts: no money, no spins, no games yet. */
  function NewUser(nick: string, hashed: string): User {
    User(nick, hashed, 0, 0, 0, 0)
  }

  /**
   * The auth handler. The nick is stripped; an empty nick or password, then
   * a nick outside the pattern, is refused before any table is read. Then
   * `register` inserts a new user unless the nick is taken, and `login`
   * returns the row matching nick and password hash.
   */
  function Handle(users: seq<User>, action: string, rawNick: string, password: string, hash: string -> string): (r: AuthStep)
    ensures Strip(rawNick) == "" || password == "" ==> r == AuthStep(Err(MissingCredentials), users)
    ensures Strip(rawNick) != "" && password != "" && !ValidNick(Strip(rawNick)) ==>
              r == AuthStep(Err(BadNick), users)
    ensures ValidNick(Strip(rawNick)) && password != "" && action == "register" ==>
              var nick := Strip(rawNick);
              && (NickInUse(users, nick) ==> r == AuthStep(Err(NickTaken), users))
              && (!NickInUse(users, nick) ==>
                    && r.users == users + [NewUser(nick, hash(password))]
                    && r.reply == Ok(Account(|users|, NewUser(nick, hash(password)))))
    ensures ValidNick(Strip(rawNick)) && password != "" && action == "login" ==>
              var nick := Strip(rawNick);
              && r.users == users
              && (r.reply.Ok? <==> exists i :: 0 <= i < |users| && users[i].nick == nick && users[i].passwordHash == hash(password))
              && (r.reply.Ok? ==>
                    && Known(users, r.reply.value.id)
                    && r.reply.value.user == users[r.reply.value.id]
                    && r.reply.value.user.nick == nick
                    && r.reply.value.user.passwordHash == hash(password))
              && (r.reply.Err? ==> r.reply.error == InvalidCredentials)
    ensures action != "register" && action != "login" ==>
              && r.users == users && r.reply.Err?
              && (ValidNick(Strip(rawNick)) && password != "" ==> r.reply.error == InvalidAction)
  {
    var nick := Strip(rawNick);
    if nick == "" || password == "" then AuthStep(Err(MissingCredentials), users)
    else
      PatternOnStrippedNick(rawNick);
      if !NickPatternMatches(nick) then AuthStep(Err(BadNick), users)
      else
        var hashed := hash(password);
        if action == "register" then
          if NickInUse(users, nick) then AuthStep(Err(NickTaken), users)
          else
            var u := NewUser(nick, hashed);
            AuthStep(Ok(Account(|users|, u)), users + [u])
        else if action == "login" then
          match FindLogin(users, nick, hashed)
          case Some(k) => AuthStep(Ok(Account(k, users[k])), users)
          case None => AuthStep(Err(InvalidCredentials), users)
        else AuthStep(Err(InvalidAction), users)
  }

  /** No two users share a nick. */
  ghost predicate UniqueNicks(users: seq<User>) {
    forall i, j :: 0 <= i < |users| && 0 <= j < |users| && users[i].nick == users[j].nick ==> i == j
  }

  /** Every request keeps nicks unique. */
  lemma HandleKeepsNicksUnique(users: seq<User>, action: string, rawNick: string, password: string, hash: string -> string)
    requires UniqueNicks(users)
    ensures UniqueNicks(Handle(users, action, rawNick, password, hash).users)
  {
    var r := Handle(users, action, rawNick, password, hash);
    if r.users != users {
      var nick := Strip(rawNick);
      assert !NickInUse(users, nick);
      assert r.users == users + [NewUser(nick, hash(password))];
    }
  }

  /** Registering and then logging in with the same nick and password returns the new account. */
  lemma RegisterThenLogin(users: seq<User>, rawNick: string, password: string, hash: string -> string)
    requires Handle(users, "register", rawNick, password, hash).reply.Ok?
    ensures var reg := Handle(users, "register", rawNick, password, hash);
            Handle(reg.users, "login", rawNick, password, hash).reply == reg.reply
  {
    var reg := Handle(users, "register", rawNick, password, hash);
    var nick := Strip(rawNick);
    var n := |users|;
    assert !NickInUse(users, nick);
    assert reg.users[n].nick == nick;
    var k := FindLogin(reg.users, nick, hash(password));
    assert k.Some?;
    assert forall i :: 0 <= i < n ==> reg.users[i] == users[i];
    assert k.value == n;
  }
}
