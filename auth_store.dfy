/**
 * The account store behind the login and signup pages
 * (`auth-core.js`, and the same helpers in `logi.js`): the demo password
 * hash, the sanitised e-mail index key, the user lookup (index first,
 * then a scan of all users), account creation and the credential check.
 * The remote database is a value: the users in the order the database's
 * response lists their keys, and the e-mail index.
 */
module AuthStore {
  import opened Wrappers
  import opened Text

  /** A thrown `Error` is `Failed(message)`. */
  datatype Outcome<T> = Ok(value: T) | Failed(message: string)

  // ---------------------------------------------------------------------
  // generateSimpleHash: "h:" + hex(sum of the UTF-8 bytes)
  // ---------------------------------------------------------------------

  /** `new TextEncoder().encode(c)` for one code point. */
  function Utf8(c: char): (bytes: seq<nat>)
    ensures 1 <= |bytes| <= 4
    ensures forall k :: 0 <= k < |bytes| ==> bytes[k] < 256
    ensures |bytes| == 1 <==> (c as int) < 0x80
    ensures forall k :: 1 <= k < |bytes| ==> 0x80 <= bytes[k] < 0xC0
  {
    var n := c as int;
    if n < 0x80 then [n]
    else if n < 0x800 then [0xC0 + n / 64, 0x80 + n % 64]
    else if n < 0x10000 then [0xE0 + n / 4096, 0x80 + n / 64 % 64, 0x80 + n % 64]
    else [0xF0 + n / 262144, 0x80 + n / 4096 % 64, 0x80 + n / 64 % 64, 0x80 + n % 64]
  }

  /** The code point an encoded sequence stands for: the lead byte's payload, then six bits per continuation byte. */
  function Utf8Decode(bytes: seq<nat>): int
    requires 1 <= |bytes| <= 4
  {
    var b: seq<int> := bytes;
    if |b| == 1 then b[0]
    else if |b| == 2 then (b[0] - 0xC0) * 64 + (b[1] - 0x80)
    else if |b| == 3 then (b[0] - 0xE0) * 4096 + (b[1] - 0x80) * 64 + (b[2] - 0x80)
    else (b[0] - 0xF0) * 262144 + (b[1] - 0x80) * 4096 + (b[2] - 0x80) * 64 + (b[3] - 0x80)
  }

  /** Decoding an encoded code point gives it back, so no two code points share an encoding. */
  lemma Utf8RoundTrip(c: char)
    ensures Utf8Decode(Utf8(c)) == c as int
  {
    var n := c as int;
    SixBitGroups(n);
  }

  /** Base-64 digits of a code point: `n` is its groups of six bits put back together. */
  lemma SixBitGroups(n: nat)
    ensures n == n / 64 * 64 + n % 64
    ensures n == n / 4096 * 4096 + n / 64 % 64 * 64 + n % 64
    ensures n == n / 262144 * 262144 + n / 4096 % 64 * 4096 + n / 64 % 64 * 64 + n % 64
  {
    var q := n / 64;
    var p := q / 64;
    assert n / 4096 == p;
    assert n / 262144 == p / 64;
    assert n / 4096 % 64 == p % 64;
  }

  /** `new TextEncoder().encode(s)` */
  function Encode(s: string): (bytes: seq<nat>)
    ensures |bytes| >= |s|
  {
    if s == [] then [] else Utf8(s[0]) + Encode(s[1..])
  }

  function SumOf(bytes: seq<nat>): nat {
    if bytes == [] then 0 else bytes[0] + SumOf(bytes[1..])
  }

  lemma {:induction false} SumOfConcat(a: seq<nat>, b: seq<nat>)
    ensures SumOf(a + b) == SumOf(a) + SumOf(b)
    decreases |a|
  {
    if a == [] {
      assert a + b == b;
    } else {
      assert (a + b)[1..] == a[1..] + b;
      SumOfConcat(a[1..], b);
    }
  }

  /** `bytes.reduce((a, n) => a + n, 0)` */
  function ByteSum(s: string): nat {
    SumOf(Encode(s))
  }

  lemma {:induction false} EncodeConcat(a: string, b: string)
    ensures Encode(a + b) == Encode(a) + Encode(b)
    decreases |a|
  {
    if a == [] {
      assert a + b == b;
    } else {
      assert (a + b)[0] == a[0] && (a + b)[1..] == a[1..] + b;
      EncodeConcat(a[1..], b);
    }
  }

  lemma ByteSumConcat(a: string, b: string)
    ensures ByteSum(a + b) == ByteSum(a) + ByteSum(b)
  {
    EncodeConcat(a, b);
    SumOfConcat(Encode(a), Encode(b));
  }

  /** The byte sum does not depend on the order of the characters. */
  lemma {:induction false} ByteSumPermutation(a: string, b: string)
    requires multiset(a) == multiset(b)
    ensures ByteSum(a) == ByteSum(b)
    decreases |a|
  {
    if a != [] {
      var x := a[0];
      assert x in multiset(b);
      var i :| 0 <= i < |b| && b[i] == x;
      var rest := b[..i] + b[i + 1..];
      assert b == b[..i] + [x] + b[i + 1..];
      assert a == [x] + a[1..];
      assert multiset(a) == multiset([x]) + multiset(a[1..]);
      assert multiset(b) == multiset(b[..i]) + multiset([x]) + multiset(b[i + 1..]);
      assert multiset(rest) == multiset(b[..i]) + multiset(b[i + 1..]);
      assert multiset(a[1..]) == multiset(a) - multiset{x};
      assert multiset(rest) == multiset(b) - multiset{x};
      ByteSumPermutation(a[1..], rest);
      ByteSumConcat([x], a[1..]);
      ByteSumConcat(b[..i] + [x], b[i + 1..]);
      ByteSumConcat(b[..i], [x]);
      ByteSumConcat(b[..i], b[i + 1..]);
    }
  }

  /** One hexadecimal digit, lower case as `toString(16)` writes it. */
  function HexDigit(d: nat): (c: char)
    requires d < 16
    ensures '0' <= c <= '9' || 'a' <= c <= 'f'
  {
    if d < 10 then ('0' as int + d) as char else ('a' as int + d - 10) as char
  }

  function DigitValue(c: char): nat {
    if '0' <= c <= '9' then c as int - '0' as int
    else if 'a' <= c <= 'f' then c as int - 'a' as int + 10
    else 0
  }

  /** `n.toString(16)`: hexadecimal without leading zeros. */
  function Hex(n: nat): (h: string)
    ensures h != []
    ensures h[0] == '0' <==> n == 0
    decreases n
  {
    if n < 16 then [HexDigit(n)] else Hex(n / 16) + [HexDigit(n % 16)]
  }

  /** `parseInt(h, 16)` on lower-case hexadecimal digits. */
  function ParseHex(h: string): nat {
    if h == [] then 0 else ParseHex(h[..|h| - 1]) * 16 + DigitValue(h[|h| - 1])
  }

  lemma {:induction false} ParseHexOfHex(n: nat)
    ensures ParseHex(Hex(n)) == n
    decreases n
  {
    if n >= 16 {
      var h := Hex(n);
      assert h[..|h| - 1] == Hex(n / 16);
      ParseHexOfHex(n / 16);
    }
  }

  /** `generateSimpleHash(raw)` */
  function SimpleHash(raw: string): (h: string)
    ensures |h| > 2 && h[..2] == "h:"
  {
    "h:" + Hex(ByteSum(raw))
  }

  /** Two passwords hash alike exactly when their UTF-8 byte sums agree. */
  lemma SimpleHashEqual(a: string, b: string)
    ensures SimpleHash(a) == SimpleHash(b) <==> ByteSum(a) == ByteSum(b)
  {
    if SimpleHash(a) == SimpleHash(b) {
      assert SimpleHash(a)[2..] == Hex(ByteSum(a));
      assert SimpleHash(b)[2..] == Hex(ByteSum(b));
      ParseHexOfHex(ByteSum(a));
      ParseHexOfHex(ByteSum(b));
    }
  }

  /** Any rearrangement of a password's characters has the same hash. */
  lemma AnagramsHashAlike(a: string, b: string)
    requires multiset(a) == multiset(b)
    ensures SimpleHash(a) == SimpleHash(b)
  {
    ByteSumPermutation(a, b);
  }

  // ---------------------------------------------------------------------
  // The e-mail index key
  // ---------------------------------------------------------------------

  /** The characters `[.#$\[\]\/]` that a database key may not hold. */
  predicate KeyForbidden(c: char) {
    c == '.' || c == '#' || c == '$' || c == '[' || c == ']' || c == '/'
  }

  /** `String(lower).replace(/[.#$\[\]\/]/g, "_")` */
  function SafeKey(s: string): (k: string)
    ensures |k| == |s|
    ensures forall i :: 0 <= i < |k| ==> !KeyForbidden(k[i])
    ensures forall i :: 0 <= i < |s| && !KeyForbidden(s[i]) ==> k[i] == s[i]
    ensures forall i :: 0 <= i < |s| && KeyForbidden(s[i]) ==> k[i] == '_'
  {
    seq(|s|, i requires 0 <= i < |s| => if KeyForbidden(s[i]) then '_' else s[i])
  }

  /** A key is its own key: sanitising twice changes nothing more. */
  lemma SafeKeyIdempotent(s: string)
    ensures SafeKey(SafeKey(s)) == SafeKey(s)
  {
  }

  /** Two addresses share an index key exactly when they differ only where one has `_` or a forbidden character and the other a forbidden character. */
  lemma SafeKeyCollides(a: string, b: string)
    requires |a| == |b|
    ensures SafeKey(a) == SafeKey(b) <==>
      forall i :: 0 <= i < |a| ==> a[i] == b[i] || ((KeyForbidden(a[i]) || a[i] == '_') && (KeyForbidden(b[i]) || b[i] == '_'))
  {
    if SafeKey(a) == SafeKey(b) {
      forall i | 0 <= i < |a|
        ensures a[i] == b[i] || ((KeyForbidden(a[i]) || a[i] == '_') && (KeyForbidden(b[i]) || b[i] == '_'))
      {
        assert SafeKey(a)[i] == SafeKey(b)[i];
      }
    }
  }

  // ---------------------------------------------------------------------
  // Users and the lookup by e-mail
  // ---------------------------------------------------------------------

  /** A stored user; older records carry `firstName`/`lastName` instead of `name`. */
  datatype User = User(
    uid: Option<string>,
    name: Option<string>,
    firstName: Option<string>,
    lastName: Option<string>,
    email: Option<string>,
    passwordHash: Option<string>,
    createdAt: Option<int>)

  /** `/users` in the order `Object.values` lists the keys of the response, and `/emailIndex`. */
  datatype Store = Store(users: seq<(string, User)>, emailIndex: map<string, string>)

  function ValueOr(field: Option<string>): string {
    if field.Some? then field.value else ""
  }

  /** `(u?.email || "").toLowerCase().trim()` */
  function EmailKey(u: User): string {
    Trim(ToLower(ValueOr(u.email)))
  }

  /** The address as the lookup compares it: `String(email || "").toLowerCase().trim()`. */
  function Normalize(email: string): (lower: string)
    ensures |lower| <= |email|
  {
    Trim(ToLower(email))
  }

  /** A normalised address normalises to itself. */
  lemma NormalizeStable(email: string)
    ensures Trim(ToLower(Normalize(email))) == Normalize(email)
  {
    LowerTrimIdempotent(email);
  }

  /** The position of user `id`, or the length when there is none. */
  function IdIndex(users: seq<(string, User)>, id: string): (i: nat)
    ensures i <= |users|
    ensures i < |users| ==> users[i].0 == id
    ensures forall k :: 0 <= k < i ==> users[k].0 != id
  {
    if users == [] then 0
    else if users[0].0 == id then 0
    else 1 + IdIndex(users[1..], id)
  }

  /** `firebaseGet("/users/" + id)` */
  function UserAt(users: seq<(string, User)>, id: string): (r: Option<User>)
    ensures r.Some? <==> exists k :: 0 <= k < |users| && users[k].0 == id
    ensures r.Some? ==> r.value in Values(users)
  {
    var i := IdIndex(users, id);
    if i < |users| then Some(users[i].1) else None
  }

  /** The stored users, in order. */
  function Values(users: seq<(string, User)>): (r: seq<User>)
    ensures |r| == |users|
    ensures forall k :: 0 <= k < |users| ==> r[k] == users[k].1
  {
    seq(|users|, k requires 0 <= k < |users| => users[k].1)
  }

  /** `firebasePut("/users/" + id, rec)`: the record replaces user `id` in place, or is added at the end. */
  function Put(users: seq<(string, User)>, id: string, rec: User): (r: seq<(string, User)>)
    ensures UserAt(r, id) == Some(rec)
    ensures forall other :: other != id ==> UserAt(r, other) == UserAt(users, other)
  {
    var i := IdIndex(users, id);
    var r := if i < |users| then users[i := (id, rec)] else users + [(id, rec)];
    assert IdIndex(r, id) == i by {
      IdIndexAfterWrite(users, id, rec);
    }
    forall other | other != id ensures UserAt(r, other) == UserAt(users, other) {
      IdIndexOtherAfterWrite(users, id, rec, other);
    }
    r
  }

  lemma {:induction false} IdIndexAfterWrite(users: seq<(string, User)>, id: string, rec: User)
    ensures var i := IdIndex(users, id);
      IdIndex(if i < |users| then users[i := (id, rec)] else users + [(id, rec)], id) == i
  {
    var i := IdIndex(users, id);
    var r := if i < |users| then users[i := (id, rec)] else users + [(id, rec)];
    IdIndexIsFirst(r, id, i);
  }

  /** `IdIndex` is the first position holding `id`. */
  lemma {:induction false} IdIndexIsFirst(users: seq<(string, User)>, id: string, i: nat)
    requires i <= |users| && (i < |users| ==> users[i].0 == id)
    requires forall k :: 0 <= k < i ==> users[k].0 != id
    ensures IdIndex(users, id) == i
    decreases |users|
  {
    if users != [] && i > 0 {
      IdIndexIsFirst(users[1..], id, i - 1);
    }
  }

  lemma IdIndexOtherAfterWrite(users: seq<(string, User)>, id: string, rec: User, other: string)
    requires other != id
    ensures var i := IdIndex(users, id);
      var r := if i < |users| then users[i := (id, rec)] else users + [(id, rec)];
      var j := IdIndex(users, other);
      IdIndex(r, other) == (if j < |users| then j else |r|)
      && (j < |users| ==> r[j] == users[j])
  {
    var i := IdIndex(users, id);
    var r := if i < |users| then users[i := (id, rec)] else users + [(id, rec)];
    var j := IdIndex(users, other);
    if j < |users| {
      IdIndexIsFirst(r, other, j);
    } else {
      IdIndexIsFirst(r, other, |r|);
    }
  }

  /** A user whose address normalises to `lower` is stored. */
  predicate Registered(users: seq<(string, User)>, lower: string) {
    exists k :: 0 <= k < |users| && EmailKey(users[k].1) == lower
  }

  /** The position of the first `x` in `xs`, or the length when there is none. */
  function FirstIndex<T(==)>(xs: seq<T>, x: T): (i: nat)
    ensures i <= |xs|
    ensures i < |xs| ==> xs[i] == x
    ensures forall k :: 0 <= k < i ==> xs[k] != x
  {
    if xs == [] then 0
    else if xs[0] == x then 0
    else 1 + FirstIndex(xs[1..], x)
  }

  /** The normalised addresses of the users, in store order. */
  function EmailKeys(users: seq<(string, User)>): (keys: seq<string>)
    ensures |keys| == |users|
    ensures forall k :: 0 <= k < |users| ==> keys[k] == EmailKey(users[k].1)
  {
    seq(|users|, k requires 0 <= k < |users| => EmailKey(users[k].1))
  }

  /** The position of the first user whose address normalises to `lower`, or the length when there is none. */
  function ScanIndex(users: seq<(string, User)>, lower: string): (i: nat)
    ensures i <= |users|
    ensures i < |users| ==> EmailKey(users[i].1) == lower
    ensures forall k :: 0 <= k < i ==> EmailKey(users[k].1) != lower
  {
    var keys := EmailKeys(users);
    var i := FirstIndex(keys, lower);
    assert forall k :: 0 <= k < i ==> keys[k] != lower;
    i
  }

  /** `fetchByScan(lower)`: the first user, in store order, whose address normalises to `lower`. */
  function Scan(users: seq<(string, User)>, lower: string): (r: Option<User>)
    ensures r.Some? <==> Registered(users, lower)
    ensures r.Some? ==> EmailKey(r.value) == lower && r.value in Values(users)
  {
    var i := ScanIndex(users, lower);
    if i < |users| then
      assert Values(users)[i] == users[i].1;
      Some(users[i].1)
    else None
  }

  /** The user id the index holds for `lower`, if any (`if (id)`: an empty id is no hit). */
  function IndexedId(store: Store, lower: string): (r: Option<string>)
    ensures r.Some? ==> SafeKey(lower) in store.emailIndex && r.value == store.emailIndex[SafeKey(lower)] && r.value != ""
    ensures r.None? <==> SafeKey(lower) !in store.emailIndex || store.emailIndex[SafeKey(lower)] == ""
  {
    var key := SafeKey(lower);
    if key in store.emailIndex && store.emailIndex[key] != "" then Some(store.emailIndex[key]) else None
  }

  /**
   * `fetchUserByEmail(lower)` of `auth-core.js`
   * (`fetchByIndex(lower) || fetchByScan(lower)`): the user stored under
   * the index hit's id, whoever that is, else the scan.
   */
  function FetchUserByEmailAsWritten(store: Store, lower: string): (r: Option<User>)
    ensures IndexedId(store, lower).Some? && UserAt(store.users, IndexedId(store, lower).value).Some? ==>
      r == UserAt(store.users, IndexedId(store, lower).value)
    ensures IndexedId(store, lower).None? ==> r == Scan(store.users, lower)
    ensures r.Some? ==> r.value in Values(store.users)
    ensures Registered(store.users, lower) ==> r.Some?
  {
    var id := IndexedId(store, lower);
    if id.Some? && UserAt(store.users, id.value).Some? then UserAt(store.users, id.value)
    else Scan(store.users, lower)
  }

  /**
   * The lookup as intended: an index hit counts only when the user found
   * there has the address asked for; otherwise the scan decides.
   */
  function FetchUserByEmailChecked(store: Store, lower: string): (r: Option<User>)
    ensures r.Some? <==> Registered(store.users, lower)
    ensures r.Some? ==> EmailKey(r.value) == lower && r.value in Values(store.users)
  {
    var id := IndexedId(store, lower);
    var i := if id.Some? then IdIndex(store.users, id.value) else |store.users|;
    if i < |store.users| && EmailKey(store.users[i].1) == lower then
      assert Values(store.users)[i] == store.users[i].1;
      Some(store.users[i].1)
    else Scan(store.users, lower)
  }

  /** Without an index entry for the address, both lookups scan. */
  lemma FetchAgreesWithoutIndex(store: Store, lower: string)
    requires IndexedId(store, lower).None?
    ensures FetchUserByEmailAsWritten(store, lower) == FetchUserByEmailChecked(store, lower)
  {
  }

  /** `if (!user || user.passwordHash !== generateSimpleHash(pass)) throw ...` */
  function CheckCredentials(user: Option<User>, pass: string): (r: Outcome<User>)
    ensures r.Ok? <==> user.Some? && user.value.passwordHash == Some(SimpleHash(pass))
    ensures r.Ok? ==> r.value == user.value
    ensures r.Failed? ==> r.message == "auth/wrong-credentials"
  {
    if user.None? || user.value.passwordHash != Some(SimpleHash(pass)) then Failed("auth/wrong-credentials")
    else Ok(user.value)
  }

  /**
   * `verifyLoginCredentials(email, pass)`: a stored user with the
   * password's hash, found by the lookup as written, so not necessarily
   * one with the address typed.
   */
  function VerifyLoginCredentials(store: Store, email: string, pass: string): (r: Outcome<User>)
    ensures r.Ok? ==> r.value in Values(store.users) && r.value.passwordHash == Some(SimpleHash(pass))
    ensures IndexedId(store, Normalize(email)).None? ==> r == VerifyLoginCredentialsChecked(store, email, pass)
  {
    CheckCredentials(FetchUserByEmailAsWritten(store, Normalize(email)), pass)
  }

  /** The login as intended: only a user registered under the address typed, with the password's hash. */
  function VerifyLoginCredentialsChecked(store: Store, email: string, pass: string): (r: Outcome<User>)
    ensures r.Ok? ==> (r.value in Values(store.users) && EmailKey(r.value) == Normalize(email)
                       && r.value.passwordHash == Some(SimpleHash(pass)))
    ensures !Registered(store.users, Normalize(email)) ==> r == Failed("auth/wrong-credentials")
  {
    CheckCredentials(FetchUserByEmailChecked(store, Normalize(email)), pass)
  }

  /** The record `createUserRecord(id, fullName, lower, pass)` builds; `now` is `Date.now()`. */
  function UserRecord(id: string, fullName: string, lower: string, pass: string, now: int): User {
    User(Some(id), Some(fullName), None, None, Some(lower), Some(SimpleHash(pass)), Some(now))
  }

  const MissingEmail: string := "Bitte E-Mail angeben."
  const AlreadyRegistered: string := "E-Mail ist bereits registriert."

  /** What a successful signup leaves: the new record under `id`, every other id alone, the address's key pointing at `id`. */
  ghost predicate Saved(store: Store, s: Store, rec: User, fullName: string, lower: string, rawPassword: string, id: string, now: int) {
    rec == UserRecord(id, fullName, lower, rawPassword, now)
    && UserAt(s.users, id) == Some(rec)
    && (forall other :: other != id ==> UserAt(s.users, other) == UserAt(store.users, other))
    && s.emailIndex == store.emailIndex[SafeKey(lower) := id]
  }

  /**
   * `createNewUser({fullName, emailAddress, rawPassword})`: a blank
   * address is refused, and so is one the lookup as written finds, which
   * takes in every registered address and also any address sharing an
   * index key with one; otherwise the record is stored under `id`
   * (`createUserId()`) and indexed under its key.
   */
  function CreateNewUser(store: Store, fullName: string, emailAddress: string, rawPassword: string, id: string, now: int): (r: Outcome<(Store, User)>)
    ensures Normalize(emailAddress) == "" ==> r == Failed(MissingEmail)
    ensures Normalize(emailAddress) != "" && Registered(store.users, Normalize(emailAddress)) ==> r == Failed(AlreadyRegistered)
    ensures r.Failed? ==> r == Failed(MissingEmail) || r == Failed(AlreadyRegistered)
    ensures r.Ok? ==> (Normalize(emailAddress) != "" && !Registered(store.users, Normalize(emailAddress))
      && Saved(store, r.value.0, r.value.1, fullName, Normalize(emailAddress), rawPassword, id, now))
    ensures IndexedId(store, Normalize(emailAddress)).None? ==>
      r == CreateNewUserChecked(store, fullName, emailAddress, rawPassword, id, now)
  {
    var lower := Normalize(emailAddress);
    if lower == "" then Failed(MissingEmail)
    else if FetchUserByEmailAsWritten(store, lower).Some? then Failed(AlreadyRegistered)
    else Ok(SaveUser(store, fullName, lower, rawPassword, id, now))
  }

  /** The signup as intended: refused exactly for a blank or a registered address. */
  function CreateNewUserChecked(store: Store, fullName: string, emailAddress: string, rawPassword: string, id: string, now: int): (r: Outcome<(Store, User)>)
    ensures Normalize(emailAddress) == "" ==> r == Failed(MissingEmail)
    ensures Normalize(emailAddress) != "" && Registered(store.users, Normalize(emailAddress)) ==> r == Failed(AlreadyRegistered)
    ensures r.Ok? <==> Normalize(emailAddress) != "" && !Registered(store.users, Normalize(emailAddress))
    ensures r.Ok? ==> Saved(store, r.value.0, r.value.1, fullName, Normalize(emailAddress), rawPassword, id, now)
  {
    var lower := Normalize(emailAddress);
    if lower == "" then Failed(MissingEmail)
    else if FetchUserByEmailChecked(store, lower).Some? then Failed(AlreadyRegistered)
    else Ok(SaveUser(store, fullName, lower, rawPassword, id, now))
  }

  /**
   * `saveUserRecord(id, rec)` then `saveEmailIndex(lower, id)`: the new
   * record under `id`, every other id left alone, and the address's index
   * key pointing at `id`.
   */
  function SaveUser(store: Store, fullName: string, lower: string, rawPassword: string, id: string, now: int): (r: (Store, User))
    ensures r.1 == UserRecord(id, fullName, lower, rawPassword, now)
    ensures UserAt(r.0.users, id) == Some(r.1)
    ensures forall other :: other != id ==> UserAt(r.0.users, other) == UserAt(store.users, other)
    ensures r.0.emailIndex == store.emailIndex[SafeKey(lower) := id]
  {
    var rec := UserRecord(id, fullName, lower, rawPassword, now);
    (Store(Put(store.users, id, rec), store.emailIndex[SafeKey(lower) := id]), rec)
  }

  /** An index hit whose user has the address asked for is the user the intended lookup finds. */
  lemma FetchIndexHit(store: Store, lower: string, id: string, u: User)
    requires IndexedId(store, lower) == Some(id) && UserAt(store.users, id) == Some(u) && EmailKey(u) == lower
    ensures FetchUserByEmailChecked(store, lower) == Some(u)
  {
  }

  /** After a signup the address's index entry leads to the new record. */
  lemma CreatedIsIndexed(store: Store, fullName: string, email: string, pass: string, id: string, now: int, s: Store, rec: User)
    requires CreateNewUser(store, fullName, email, pass, id, now) == Ok((s, rec)) && id != ""
    ensures IndexedId(s, Normalize(email)) == Some(id) && UserAt(s.users, id) == Some(rec)
    ensures EmailKey(rec) == Normalize(email) && rec.passwordHash == Some(SimpleHash(pass))
  {
    NormalizeStable(email);
  }

  /**
   * Signing up and then logging in with the same address and password
   * returns the new record; `id` comes from `createUserId()`, which is
   * never empty.
   */
  lemma SignupThenLogin(store: Store, fullName: string, email: string, pass: string, id: string, now: int, s: Store, rec: User)
    requires CreateNewUser(store, fullName, email, pass, id, now) == Ok((s, rec)) && id != ""
    ensures VerifyLoginCredentials(s, email, pass) == Ok(rec)
    ensures VerifyLoginCredentialsChecked(s, email, pass) == Ok(rec)
  {
    CreatedIsIndexed(store, fullName, email, pass, id, now, s, rec);
    IndexHitAsWritten(s, Normalize(email), id, rec);
    FetchIndexHit(s, Normalize(email), id, rec);
  }

  /** A second signup with the same address is refused. */
  lemma SignupTwiceRefused(store: Store, name1: string, email: string, pass1: string, id1: string, now1: int, s: Store, rec: User,
                           name2: string, pass2: string, id2: string, now2: int)
    requires CreateNewUser(store, name1, email, pass1, id1, now1) == Ok((s, rec))
    ensures CreateNewUser(s, name2, email, pass2, id2, now2) == Failed(AlreadyRegistered)
    ensures CreateNewUserChecked(s, name2, email, pass2, id2, now2) == Failed(AlreadyRegistered)
  {
    NormalizeStable(email);
    assert UserAt(s.users, id1) == Some(rec) && EmailKey(rec) == Normalize(email);
    UserAtRegistered(s.users, id1, rec);
  }

  /** A stored user's address is registered. */
  lemma UserAtRegistered(users: seq<(string, User)>, id: string, u: User)
    requires UserAt(users, id) == Some(u)
    ensures Registered(users, EmailKey(u))
  {
    var k := IdIndex(users, id);
    assert users[k].1 == u;
  }

  /** A password with the same characters in another order logs in as well. */
  lemma AnagramPasswordAccepted(store: Store, email: string, pass: string, other: string)
    requires VerifyLoginCredentials(store, email, pass).Ok?
    requires multiset(other) == multiset(pass)
    ensures VerifyLoginCredentials(store, email, other) == VerifyLoginCredentials(store, email, pass)
  {
    AnagramsHashAlike(other, pass);
  }

  /**
   * An address that shares its index key with one that signed up logs in
   * as that account with its password, although its own address is
   * another (`LoginNeverReturnsOtherAddress` is the intended behaviour).
   */
  lemma CollidingLoginAsWritten(store: Store, fullName: string, email: string, pass: string, id: string, now: int, s: Store, rec: User, other: string)
    requires CreateNewUser(store, fullName, email, pass, id, now) == Ok((s, rec)) && id != ""
    requires Normalize(other) != Normalize(email) && SafeKey(Normalize(other)) == SafeKey(Normalize(email))
    ensures VerifyLoginCredentials(s, other, pass) == Ok(rec)
    ensures EmailKey(rec) != Normalize(other)
  {
    CreatedIsIndexed(store, fullName, email, pass, id, now, s, rec);
    CollidingKeyHits(s, Normalize(email), Normalize(other), id, rec, pass);
  }

  /** An address whose key collides with an indexed one is given that user by the lookup as written. */
  lemma CollidingKeyHits(s: Store, lower: string, other: string, id: string, rec: User, pass: string)
    requires IndexedId(s, lower) == Some(id) && UserAt(s.users, id) == Some(rec) && rec.passwordHash == Some(SimpleHash(pass))
    requires SafeKey(other) == SafeKey(lower)
    ensures CheckCredentials(FetchUserByEmailAsWritten(s, other), pass) == Ok(rec)
  {
    assert IndexedId(s, other) == Some(id);
    IndexHitAsWritten(s, other, id, rec);
  }

  /**
   * Once an address has signed up, an unregistered address sharing its
   * index key cannot sign up: the signup as written refuses it, the
   * intended one accepts it.
   */
  lemma CollidingSignupRefusedAsWritten(store: Store, fullName: string, email: string, pass: string, id: string, now: int, s: Store, rec: User,
                                        other: string, name2: string, pass2: string, id2: string, now2: int)
    requires CreateNewUser(store, fullName, email, pass, id, now) == Ok((s, rec)) && id != ""
    requires Normalize(other) != "" && SafeKey(Normalize(other)) == SafeKey(Normalize(email))
    requires !Registered(s.users, Normalize(other))
    ensures CreateNewUser(s, name2, other, pass2, id2, now2) == Failed(AlreadyRegistered)
    ensures CreateNewUserChecked(s, name2, other, pass2, id2, now2).Ok?
  {
    CreatedIsIndexed(store, fullName, email, pass, id, now, s, rec);
    assert IndexedId(s, Normalize(other)) == Some(id);
    IndexHitAsWritten(s, Normalize(other), id, rec);
  }

  /** The intended login never returns a user registered under another address, whatever its index key. */
  lemma LoginNeverReturnsOtherAddress(s: Store, email: string, pass: string, u: User)
    requires EmailKey(u) != Normalize(email)
    ensures VerifyLoginCredentialsChecked(s, email, pass) != Ok(u)
  {
  }

  /** An index hit returns the user stored under its id, whatever that user's address. */
  lemma IndexHitAsWritten(store: Store, lower: string, id: string, u: User)
    requires IndexedId(store, lower) == Some(id) && UserAt(store.users, id) == Some(u)
    ensures FetchUserByEmailAsWritten(store, lower) == Some(u)
  {
  }

  lemma DotAddressNormal()
    ensures Normalize("a.b@x.de") == "a.b@x.de"
  {
    NormalizeFixed("a.b@x.de");
  }

  lemma UnderscoreAddressNormal()
    ensures Normalize("a_b@x.de") == "a_b@x.de"
  {
    NormalizeFixed("a_b@x.de");
  }

  lemma DotAddressKey()
    ensures SafeKey("a.b@x.de") == "a_b@x_de"
  {
  }

  lemma UnderscoreAddressKey()
    ensures SafeKey("a_b@x.de") == "a_b@x_de"
  {
  }

  /** Two valid addresses, each its own normal form, that differ only in `.` against `_` share an index key. */
  lemma KeyCollisionExample()
    ensures "a.b@x.de" != "a_b@x.de"
    ensures SafeKey("a.b@x.de") == SafeKey("a_b@x.de")
  {
    DotAddressKey();
    UnderscoreAddressKey();
    var d := "a.b@x.de";
    assert d[1] == '.';
  }

  /** An address already lower-case and trimmed is its own normal form. */
  lemma NormalizeFixed(s: string)
    requires IsLowerCase(s) && (s == [] || (!IsSpace(s[0]) && !IsSpace(s[|s| - 1])))
    ensures Normalize(s) == s
  {
    ToLowerOfLower(s);
    TrimStartNoSpace(s);
    TrimEndNoSpace(s);
  }

  /** `String(user.name || "").trim() || [firstName, lastName].filter(Boolean).join(" ").trim()` */
  function DisplayName(u: User): (n: string)
    ensures !IsBlank(ValueOr(u.name)) ==> n == Trim(ValueOr(u.name))
    ensures IsBlank(ValueOr(u.name)) && ValueOr(u.firstName) == "" && ValueOr(u.lastName) == "" ==> n == ""
    ensures IsBlank(ValueOr(u.name)) && ValueOr(u.firstName) != "" && ValueOr(u.lastName) == "" ==> n == Trim(ValueOr(u.firstName))
    ensures n == [] || (!IsSpace(n[0]) && !IsSpace(n[|n| - 1]))
  {
    var primary := Trim(ValueOr(u.name));
    if primary != "" then primary else Trim(JoinNames(ValueOr(u.firstName), ValueOr(u.lastName)))
  }

  /** `[firstName, lastName].filter(Boolean).join(" ")` */
  function JoinNames(first: string, last: string): (joined: string)
    ensures last == "" ==> joined == first
    ensures first == "" ==> joined == last
    ensures first != "" && last != "" ==> joined == first + " " + last
  {
    if first != "" && last != "" then first + " " + last
    else if first == "" then last
    else first
  }

  /** The account a signup creates greets its owner by the (trimmed) name entered. */
  lemma SignupDisplayName(id: string, fullName: string, lower: string, pass: string, now: int)
    requires fullName != [] && Trim(fullName) == fullName
    ensures DisplayName(UserRecord(id, fullName, lower, pass, now)) == fullName
  {
    TrimIdempotent(fullName);
  }
}
