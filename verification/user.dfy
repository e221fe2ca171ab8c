/**
 The `User` record, the password hasher it relies on, and `UserResponse`.
 */
module UserModel {
  import opened Wrappers
  import opened Identifiers

  /** The random salt bcrypt mixes into each hash. */
  type Salt = nat

  /**
   Bcrypt, seen from outside: `hash` turns a password and a salt into a
   stored digest, `verify` checks a password against a digest. Both are
   parameters of the model; what they promise is stated by `Sound`,
   `CollisionFree` and `KeyedHash` and assumed only by the lemmas that
   need it.
   */
  datatype Hasher = Hasher(hash: (string, Salt) -> string, verify: (string, string) -> bool)

  /** A byte of a password's encoding. */
  type Byte = b: int | 0 <= b < 256

  /** The UTF-8 encoding of one Unicode scalar value; only U+0000 encodes to a zero byte. */
  function Utf8Char(c: char): (r: seq<Byte>)
    ensures 1 <= |r| <= 4
    ensures (0 in r) <==> c == 0 as char
  {
    var n := c as int;
    if n < 0x80 then [n]
    else if n < 0x800 then [0xC0 + n / 64, 0x80 + n % 64]
    else if n < 0x10000 then [0xE0 + n / 4096, 0x80 + (n / 64) % 64, 0x80 + n % 64]
    else [0xF0 + n / 262144, 0x80 + (n / 4096) % 64, 0x80 + (n / 64) % 64, 0x80 + n % 64]
  }

  /** The UTF-8 encoding of a string, as Swift hands it to C. */
  function Utf8(s: string): (r: seq<Byte>)
    ensures |r| >= |s|
    ensures (0 in r) <==> 0 as char in s
  {
    if |s| == 0 then [] else Utf8Char(s[0]) + Utf8(s[1..])
  }

  /** Encoding distributes over concatenation. */
  lemma {:induction false} Utf8Append(a: string, b: string)
    ensures Utf8(a + b) == Utf8(a) + Utf8(b)
  {
    if |a| == 0 {
      assert a + b == b;
    } else {
      assert (a + b)[0] == a[0];
      assert (a + b)[1..] == a[1..] + b;
      Utf8Append(a[1..], b);
    }
  }

  /** The string up to its first NUL: what a C function sees of it. */
  function UpToNul(s: string): (r: string)
    ensures r <= s
    ensures 0 as char !in r
    ensures |r| < |s| ==> s[|r|] == 0 as char
  {
    if |s| == 0 || s[0] == 0 as char then [] else [s[0]] + UpToNul(s[1..])
  }

  /** A prefix without NUL passes through to C whole. */
  lemma {:induction false} UpToNulAppend(a: string, b: string)
    requires 0 as char !in a
    ensures UpToNul(a + b) == a + UpToNul(b)
  {
    if |a| == 0 {
      assert a + b == b;
    } else {
      assert (a + b)[0] == a[0];
      assert (a + b)[1..] == a[1..] + b;
      UpToNulAppend(a[1..], b);
      assert [a[0]] + (a[1..] + UpToNul(b)) == a + UpToNul(b);
    }
  }

  /**
   The key bcrypt (`$2b$`) actually hashes: the password as a C string
   (UTF-8, ending at the first NUL), of which at most 72 bytes are read;
   a shorter key is read together with its terminating NUL.
   */
  function BcryptKey(password: string): (k: seq<Byte>)
    ensures 1 <= |k| <= 72
    ensures |Utf8(UpToNul(password))| < 72 ==> k == Utf8(UpToNul(password)) + [0]
    ensures |Utf8(UpToNul(password))| >= 72 ==> k == Utf8(UpToNul(password))[..72]
  {
    var c := Utf8(UpToNul(password));
    if |c| >= 72 then c[..72] else c + [0]
  }

  /**
   Bcrypt ignores everything after the 72nd byte: two passwords that share
   a NUL-free prefix of 72 or more encoded bytes have the same key.
   */
  lemma BcryptIgnoresTail(p: string, x: string, y: string)
    requires 0 as char !in p
    requires |Utf8(p)| >= 72
    ensures BcryptKey(p + x) == BcryptKey(p + y)
  {
    SharedPrefixKey(p, x);
    SharedPrefixKey(p, y);
  }

  /** The key of `p + x` for a long NUL-free `p` is the first 72 encoded bytes of `p`. */
  lemma SharedPrefixKey(p: string, x: string)
    requires 0 as char !in p
    requires |Utf8(p)| >= 72
    ensures BcryptKey(p + x) == Utf8(p)[..72]
  {
    UpToNulAppend(p, x);
    Utf8Append(p, UpToNul(x));
    var c := Utf8(UpToNul(p + x));
    assert c == Utf8(p) + Utf8(UpToNul(x));
    assert c[..72] == Utf8(p)[..72];
  }

  /** A password always verifies against its own hash. */
  ghost predicate Sound(h: Hasher)
  {
    forall p, s :: h.verify(p, h.hash(p, s))
  }

  /** A password verifies against another's hash only when bcrypt reads the same key from both. */
  ghost predicate CollisionFree(h: Hasher)
  {
    forall p, q, s :: h.verify(q, h.hash(p, s)) ==> BcryptKey(q) == BcryptKey(p)
  }

  /** The hash depends on the password only through the key bcrypt reads. */
  ghost predicate KeyedHash(h: Hasher)
  {
    forall p, q, s :: BcryptKey(p) == BcryptKey(q) ==> h.hash(p, s) == h.hash(q, s)
  }

  /** One account. The plaintext password is never a field. */
  datatype User = User(
    id: Uuid,
    name: string,
    email: string,
    passwordHash: Option<string>,
    emailConfirmed: bool,
    confirmationToken: Option<string>,
    resetToken: Option<string>)

  /** `User.init`: a new account starts with its email unconfirmed and no tokens. */
  function NewUser(id: Uuid, name: string, email: string, passwordHash: string): (u: User)
    ensures u.id == id && u.name == name && u.email == email
    ensures u.passwordHash == Some(passwordHash)
    ensures !u.emailConfirmed && u.confirmationToken.None? && u.resetToken.None?
  {
    User(id, name, email, Some(passwordHash), false, None, None)
  }

  /** The public view of a user: only its identifier. */
  datatype UserResponse = UserResponse(id: Option<Uuid>)

  /** `UserResponse(from:)`: carries the user's id and nothing else. */
  function ResponseFrom(u: User): (r: UserResponse)
    ensures r.id == Some(u.id)
  {
    UserResponse(Some(u.id))
  }

  /** Two users with the same id give the same response: nothing but the id leaks. */
  lemma ResponseRevealsOnlyId(u: User, v: User)
    requires u.id == v.id
    ensures ResponseFrom(u) == ResponseFrom(v)
  {
  }
}
