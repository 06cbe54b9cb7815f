/**
 * src/models/user.models.js: the normalising setters on username, email and
 * fullname, the pre-save password hook, the password check and the token
 * claims.
 */
module UserModel {
  import opened Common
  import opened Entities
  import opened External

  // ---------------------------------------------------------------------
  // Setters: `lowercase` and `trim`

  /** The white space and line terminators `String.prototype.trim` removes. */
  predicate IsSpace(c: char) {
    c == ' ' || c == '\t' || c == '\n' || c == '\r' || c == '\U{0B}' || c == '\U{0C}'
    || c == '\U{A0}' || c == '\U{1680}' || ('\U{2000}' <= c <= '\U{200A}')
    || c == '\U{2028}' || c == '\U{2029}' || c == '\U{202F}' || c == '\U{205F}'
    || c == '\U{3000}' || c == '\U{FEFF}'
  }

  /** The first index at or after `i` that does not hold white space, or `|s|`. */
  function SkipSpaces(s: string, i: nat): (k: nat)
    requires i <= |s|
    ensures i <= k <= |s|
    ensures forall j :: i <= j < k ==> IsSpace(s[j])
    ensures k < |s| ==> !IsSpace(s[k])
    decreases |s| - i
  {
    if i < |s| && IsSpace(s[i]) then SkipSpaces(s, i + 1) else i
  }

  /** The end of the last stretch before `j` that does not end in white space, or 0. */
  function BackSpaces(s: string, j: nat): (k: nat)
    requires j <= |s|
    ensures k <= j
    ensures forall m :: k <= m < j ==> IsSpace(s[m])
    ensures k > 0 ==> !IsSpace(s[k - 1])
  {
    if j > 0 && IsSpace(s[j - 1]) then BackSpaces(s, j - 1) else j
  }

  /** `trimStart`: `s` without its leading white space. */
  function TrimStart(s: string): (r: string)
    ensures |r| <= |s| && r == s[|s| - |r|..]
    ensures forall i :: 0 <= i < |s| - |r| ==> IsSpace(s[i])
    ensures |r| > 0 ==> !IsSpace(r[0])
  {
    s[SkipSpaces(s, 0)..]
  }

  /** `trimEnd`: `s` without its trailing white space. */
  function TrimEnd(s: string): (r: string)
    ensures |r| <= |s| && r == s[..|r|]
    ensures forall i :: |r| <= i < |s| ==> IsSpace(s[i])
    ensures |r| > 0 ==> !IsSpace(r[|r| - 1])
  {
    s[..BackSpaces(s, |s|)]
  }

  /** `trim`: the longest infix of `s` that neither starts nor ends with white space. */
  function Trim(s: string): string {
    TrimEnd(TrimStart(s))
  }

  /**
   * What `trim` removes is white space at both ends, and what it keeps,
   * `s[a..b]`, neither starts nor ends with white space.
   */
  lemma TrimSpec(s: string) returns (a: nat, b: nat)
    ensures a <= b <= |s| && Trim(s) == s[a..b]
    ensures forall i :: 0 <= i < a ==> IsSpace(s[i])
    ensures forall i :: b <= i < |s| ==> IsSpace(s[i])
    ensures a < b ==> !IsSpace(s[a]) && !IsSpace(s[b - 1])
  {
    var t := TrimStart(s);
    a := SkipSpaces(s, 0);
    assert t == s[a..];
    var e := BackSpaces(t, |t|);
    b := a + e;
    assert Trim(s) == t[..e] == s[a..b];
    forall i | b <= i < |s|
      ensures IsSpace(s[i])
    {
      assert s[i] == t[i - a];
    }
    if a < b {
      assert s[b - 1] == t[e - 1];
    }
  }

  /** Trimming twice is trimming once. */
  lemma TrimIdempotent(s: string)
    ensures Trim(Trim(s)) == Trim(s)
  {
    TrimmedSpec(s);
    TrimmedSpec(Trim(s));
  }

  /** The `lowercase` setter: `toLowerCase`, on ASCII letters only. */
  function LowerChar(c: char): char {
    if 'A' <= c <= 'Z' then (c as int + 32) as char else c
  }

  function Lower(s: string): (r: string)
    ensures |r| == |s|
    ensures forall i :: 0 <= i < |s| ==> r[i] == LowerChar(s[i])
  {
    if |s| == 0 then [] else Lower(s[..|s| - 1]) + [LowerChar(s[|s| - 1])]
  }

  predicate HasNoUpper(s: string) {
    forall i :: 0 <= i < |s| ==> !('A' <= s[i] <= 'Z')
  }

  /** Lower-casing leaves no upper-case letter and is idempotent; a lower-case string is its own image. */
  lemma LowerSpec(s: string)
    ensures HasNoUpper(Lower(s))
    ensures Lower(Lower(s)) == Lower(s)
    ensures HasNoUpper(s) ==> Lower(s) == s
  {
  }

  /** The two setters commute: white space is never a letter. */
  lemma {:induction false} LowerTrimCommute(s: string)
    ensures Trim(Lower(s)) == Lower(Trim(s))
  {
    var t := TrimStart(s);
    TrimStartLower(s);
    TrimEndLower(t);
  }

  lemma TrimStartLower(s: string)
    ensures TrimStart(Lower(s)) == Lower(TrimStart(s))
  {
    SkipSpacesLower(s, 0);
    var k := SkipSpaces(s, 0);
    assert Lower(s)[k..] == Lower(s[k..]);
  }

  lemma TrimEndLower(s: string)
    ensures TrimEnd(Lower(s)) == Lower(TrimEnd(s))
  {
    BackSpacesLower(s, |s|);
    var k := BackSpaces(s, |s|);
    assert Lower(s)[..k] == Lower(s[..k]);
  }

  lemma {:induction false} SkipSpacesLower(s: string, i: nat)
    requires i <= |s|
    ensures SkipSpaces(Lower(s), i) == SkipSpaces(s, i)
    decreases |s| - i
  {
    if i < |s| {
      LowerKeepsSpace(s[i]);
      SkipSpacesLower(s, i + 1);
    }
  }

  lemma {:induction false} BackSpacesLower(s: string, j: nat)
    requires j <= |s|
    ensures BackSpaces(Lower(s), j) == BackSpaces(s, j)
  {
    if j > 0 {
      LowerKeepsSpace(s[j - 1]);
      BackSpacesLower(s, j - 1);
    }
  }

  /** Lower-casing never turns white space into anything else, nor anything else into white space. */
  lemma LowerKeepsSpace(c: char)
    ensures IsSpace(LowerChar(c)) <==> IsSpace(c)
  {
  }

  /** The stored form of a username or an email: lower-cased, then trimmed. */
  function Normalize(s: string): string {
    Trim(Lower(s))
  }

  /** Neither starts nor ends with white space: the form `trim` leaves. */
  predicate Trimmed(s: string) {
    |s| == 0 || (!IsSpace(s[0]) && !IsSpace(s[|s| - 1]))
  }

  /** The trimmed strings are exactly the ones `trim` leaves alone, and `trim` always yields one. */
  lemma TrimmedSpec(s: string)
    ensures Trimmed(Trim(s))
    ensures Trimmed(s) <==> Trim(s) == s
  {
    TrimYieldsTrimmed(s);
    if Trimmed(s) {
      TrimKeepsTrimmed(s);
    }
  }

  lemma TrimYieldsTrimmed(s: string)
    ensures Trimmed(Trim(s))
  {
    var t := TrimStart(s);
    var r := TrimEnd(t);
    if |r| > 0 {
      assert r[0] == t[0];
    }
  }

  lemma TrimKeepsTrimmed(s: string)
    requires Trimmed(s)
    ensures Trim(s) == s
  {
    if |s| > 0 {
      assert SkipSpaces(s, 0) == 0;
      assert TrimStart(s) == s;
      assert BackSpaces(s, |s|) == |s|;
    }
  }

  /** What the username and email setters store: no upper-case letter, no white space at either end. */
  predicate NormalForm(s: string) {
    HasNoUpper(s) && Trimmed(s)
  }

  /** Normalising yields the normal form, and the strings in normal form are exactly its fixed points. */
  lemma NormalizeSpec(s: string)
    ensures NormalForm(Normalize(s))
    ensures NormalForm(s) <==> Normalize(s) == s
  {
    var l := Lower(s);
    LowerSpec(s);
    var a, b := TrimSpec(l);
    TrimmedSpec(l);
    assert HasNoUpper(Normalize(s));
    if NormalForm(s) {
      TrimmedSpec(s);
    }
  }

  /** Normalising twice is normalising once. */
  lemma NormalizeIdempotent(s: string)
    ensures Normalize(Normalize(s)) == Normalize(s)
  {
    NormalizeSpec(s);
    NormalizeSpec(Normalize(s));
  }

  // ---------------------------------------------------------------------
  // Password

  /** The cost factor the pre-save hook passes to bcrypt. */
  const SaltRounds: nat := 10

  /**
   * The `password` path of a document about to be saved: untouched since it
   * was loaded (holding the stored hash), or assigned a value that may not
   * be a string.
   */
  datatype PasswordField = Unmodified(hash: string) | Assigned(plain: Option<string>)

  /**
   * The pre-save hook: an unmodified password is saved as it is, an assigned
   * one is replaced by its bcrypt hash; bcrypt rejects a non-string, which
   * aborts the save (`None`).
   */
  function PreSave(field: PasswordField, bcrypt: Bcrypt): (r: Option<string>)
    ensures field.Unmodified? ==> r == Some(field.hash)
    ensures field.Assigned? ==> (r.Some? <==> field.plain.Some?)
    ensures field.Assigned? && field.plain.Some? ==> r.value == bcrypt.hash(field.plain.value, SaltRounds)
  {
    match field
    case Unmodified(h) => Some(h)
    case Assigned(None) => None
    case Assigned(Some(p)) => Some(bcrypt.hash(p, SaltRounds))
  }

  /** Saving a document whose password was not touched never re-hashes the stored hash. */
  lemma PreSaveKeepsHash(hash: string, bcrypt: Bcrypt)
    ensures PreSave(Unmodified(hash), bcrypt) == Some(hash)
  {
  }

  /** `isPasswordCorrect`: throws unless both the candidate and the stored password are strings. */
  function IsPasswordCorrect(candidate: Option<string>, stored: Option<string>, bcrypt: Bcrypt): (r: Outcome<bool>)
    ensures r.Err? <==> candidate.None? || stored.None?
    ensures r.Err? ==> r.status == ServerError
    ensures r.Ok? ==> r.value == bcrypt.compare(candidate.value, stored.value)
  {
    if candidate.None? || stored.None? then Err(ServerError)
    else Ok(bcrypt.compare(candidate.value, stored.value))
  }

  // ---------------------------------------------------------------------
  // Token claims

  function AccessClaimsOf(u: User): Claims {
    AccessClaims(u.id, u.fullname, u.email, u.username)
  }

  function RefreshClaimsOf(u: User): Claims {
    RefreshClaims(u.id)
  }

  /**
   * The access claims are exactly the id, full name, email and username:
   * two users get the same claims if and only if they agree on those four.
   * The refresh claims are exactly the id.
   */
  lemma ClaimsExactly(u: User, v: User)
    ensures AccessClaimsOf(u) == AccessClaimsOf(v)
      <==> u.id == v.id && u.fullname == v.fullname && u.email == v.email && u.username == v.username
    ensures RefreshClaimsOf(u) == RefreshClaimsOf(v) <==> u.id == v.id
    ensures AccessClaimsOf(u) != RefreshClaimsOf(v)
  {
  }

  function AccessToken(u: User, jwt: Jwt): string {
    jwt.sign(AccessClaimsOf(u), AccessTokenSecret)
  }

  function RefreshToken(u: User, jwt: Jwt): string {
    jwt.sign(RefreshClaimsOf(u), RefreshTokenSecret)
  }
}
