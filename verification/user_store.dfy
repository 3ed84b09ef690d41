/** The client's local name store (an IndexedDB object store keyed by
    `username`) and the username validation chain run before joining. The
    store is a map from username to record; every transaction is one atomic
    step, and each `new Date()` reading is a parameter of its own. */
module UserStore {
  import opened Wrappers
  import JsText

  datatype UserInfo = UserInfo(username: string, lastSeen: int, joinDate: int)

  type Store = map<string, UserInfo>

  /** The key path is `username`: every record sits under its own name. */
  predicate WellKeyed(db: Store) {
    forall k :: k in db ==> db[k].username == k
  }

  /** `userExists`: a record is stored under that name. */
  function UserExists(db: Store, name: string): (b: bool)
    ensures b <==> name in db
  {
    name in db
  }

  /** `addUser`: inserts a fresh record unless the name is already stored;
      the flag tells whether it inserted. `seen` and `joined` are the two
      `new Date()` readings, which may differ. */
  function AddUser(db: Store, name: string, seen: int, joined: int): (r: (Store, bool))
    ensures name in db ==> r.0 == db && !r.1
    ensures name !in db ==> r.1 && r.0.Keys == db.Keys + {name}
    ensures name !in db ==> r.0[name] == UserInfo(name, seen, joined)
    ensures forall k :: k in db ==> k in r.0 && r.0[k] == db[k]
    ensures WellKeyed(db) ==> WellKeyed(r.0)
  {
    if name in db then (db, false)
    else (db[name := UserInfo(name, seen, joined)], true)
  }

  /** `updateLastSeen`: refreshes the last-seen date of a stored record,
      keeping its name and join date, or creates the record when missing.
      `seen` and `joined` are the `new Date()` readings; an existing record
      only takes `seen`. */
  function UpdateLastSeen(db: Store, name: string, seen: int, joined: int): (r: Store)
    ensures r.Keys == db.Keys + {name}
    ensures name in db ==> r[name] == db[name].(lastSeen := seen)
    ensures name !in db ==> r[name] == UserInfo(name, seen, joined)
    ensures forall k :: k in db && k != name ==> r[k] == db[k]
    ensures WellKeyed(db) ==> WellKeyed(r)
  {
    if name in db then db[name := db[name].(lastSeen := seen)]
    else db[name := UserInfo(name, seen, joined)]
  }

  /** `deleteUser`: removes exactly that key. */
  function DeleteUser(db: Store, name: string): (r: Store)
    ensures r.Keys == db.Keys - {name}
    ensures forall k :: k in r ==> r[k] == db[k]
    ensures WellKeyed(db) ==> WellKeyed(r)
  {
    db - {name}
  }

  /** After `addUser` the name is known to the store, whether it was added or
      already present; deleting it again makes it unknown. */
  lemma AddThenExists(db: Store, name: string, seen: int, joined: int)
    ensures UserExists(AddUser(db, name, seen, joined).0, name)
    ensures !UserExists(DeleteUser(AddUser(db, name, seen, joined).0, name), name)
  {
  }

  /** Adding a name not yet stored and deleting it again restores the store. */
  lemma AddDeleteRoundTrip(db: Store, name: string, seen: int, joined: int)
    requires name !in db
    ensures DeleteUser(AddUser(db, name, seen, joined).0, name) == db
  {
  }

  /** `addUser` is idempotent: a second add of the same name reports false
      and changes nothing. */
  lemma AddUserIdempotent(db: Store, name: string, s1: int, j1: int, s2: int, j2: int)
    ensures var db1 := AddUser(db, name, s1, j1).0;
            AddUser(db1, name, s2, j2) == (db1, false)
  {
  }

  /** The validation errors, in the order the rules are tried. */
  const EmptyError: string := "Username cannot be empty"
  const TooShortError: string := "Username must be at least 2 characters long"
  const TooLongError: string := "Username must be less than 20 characters"
  const InvalidCharsError: string := "Username contains invalid characters"

  const MinLength: nat := 2
  const MaxLength: nat := 20

  /** The characters the pattern `/[<>/"\\&]/` matches. */
  predicate IsForbidden(c: char) {
    c == '<' || c == '>' || c == '/' || c == '"' || c == '\\' || c == '&'
  }

  /** `invalidChars.test(s)`: the pattern is tried at each position in turn
      and succeeds on the first forbidden character. */
  function HasForbidden(s: string): (b: bool)
    ensures b <==> exists k :: 0 <= k < |s| && IsForbidden(s[k])
    decreases |s|
  {
    if |s| == 0 then false
    else if IsForbidden(s[0]) then true
    else
      assert forall k :: 1 <= k < |s| ==> s[k] == s[1..][k - 1];
      HasForbidden(s[1..])
  }

  /** The answer of `checkUsername`: `taken` is its `exists` field. */
  datatype Check = Check(taken: bool, error: Option<string>)

  /** `checkUsername`: the rules are tried in order and the first that fails
      decides the error; only a name passing all of them is looked up. The
      length rules measure the untrimmed name in UTF-16 code units. */
  function CheckUsername(db: Store, name: string): (r: Check)
    ensures JsText.AllWhitespace(name) ==> r == Check(false, Some(EmptyError))
    ensures r.error.None? <==>
      !JsText.AllWhitespace(name) && MinLength <= JsText.Utf16Length(name) <= MaxLength && !HasForbidden(name)
    ensures r.error.None? ==> (r.taken <==> name in db)
    ensures r.error.Some? ==> !r.taken
  {
    JsText.BlankIffAllWhitespace(name);
    if JsText.IsBlank(name) then Check(false, Some(EmptyError))
    else if JsText.Utf16Length(name) < MinLength then Check(false, Some(TooShortError))
    else if JsText.Utf16Length(name) > MaxLength then Check(false, Some(TooLongError))
    else if HasForbidden(name) then Check(false, Some(InvalidCharsError))
    else Check(UserExists(db, name), None)
  }

  /** The error reported is the one of the first rule the name breaks. */
  lemma CheckUsernameFirstFailure(db: Store, name: string)
    ensures !JsText.AllWhitespace(name) && JsText.Utf16Length(name) < MinLength ==>
      CheckUsername(db, name).error == Some(TooShortError)
    ensures !JsText.AllWhitespace(name) && JsText.Utf16Length(name) > MaxLength ==>
      CheckUsername(db, name).error == Some(TooLongError)
    ensures !JsText.AllWhitespace(name) && MinLength <= JsText.Utf16Length(name) <= MaxLength && HasForbidden(name) ==>
      CheckUsername(db, name).error == Some(InvalidCharsError)
  {
  }

  /** The store is consulted only for names passing every rule: for any
      other name the answer does not depend on the store. */
  lemma CheckUsernameIgnoresStoreOnError(a: Store, b: Store, name: string)
    requires CheckUsername(a, name).error.Some?
    ensures CheckUsername(b, name) == CheckUsername(a, name)
  {
  }

  /** The upper bound is inclusive despite the message's wording: a
      non-blank name of at least two characters, none forbidden and none
      above U+FFFF, is accepted exactly when it has at most 20 characters,
      and is otherwise rejected as too long. */
  lemma UpperBoundInclusive(db: Store, name: string)
    requires |name| >= MinLength
    requires !JsText.AllWhitespace(name) && !HasForbidden(name)
    requires forall k :: 0 <= k < |name| ==> name[k] as int <= 0xFFFF
    ensures CheckUsername(db, name).error ==
      if |name| <= MaxLength then None else Some(TooLongError)
  {
    JsText.Utf16LengthBmp(name);
  }

  /** Surrounding whitespace counts towards the length: " a" passes the
      length rules although its trimmed form has one character. */
  lemma LengthIsUntrimmed(db: Store)
    ensures CheckUsername(db, " a").error.None?
  {
  }

  /** Length is JavaScript's: a character above U+FFFF counts as two code
      units, so a non-empty name made of such characters passes the length
      rules exactly when it has at most 10 of them, and is otherwise
      rejected as too long. */
  lemma SurrogatePairsCountTwice(db: Store, name: string)
    requires |name| >= 1
    requires forall k :: 0 <= k < |name| ==> name[k] as int > 0xFFFF
    ensures CheckUsername(db, name).error ==
      if 2 * |name| <= MaxLength then None else Some(TooLongError)
  {
    JsText.Utf16LengthAstral(name);
    assert !JsText.IsWhitespace(name[0]);
    assert !HasForbidden(name);
  }
}
