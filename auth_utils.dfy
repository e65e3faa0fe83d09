/** The account helpers: the bcrypt truncation rule of `hash_password`, the
    payload `create_access_token` signs, and the way `get_current_user`
    turns a bearer token into a stored user or a failure.  bcrypt and the
    JWT encoder and decoder are oracles given as parameters. */
module AuthUtils {
  import opened Wrappers

  // ---------------------------------------------------------------
  // Password truncation
  // ---------------------------------------------------------------

  /** bcrypt reads at most this many bytes of a password. */
  const BcryptLimit := 72

  /** The number of bytes UTF-8 uses for one character. */
  function Utf8Length(c: char): (n: nat)
    ensures 1 <= n <= 4
    ensures n == 1 <==> c as int < 0x80
  {
    if c as int < 0x80 then 1
    else if c as int < 0x800 then 2
    else if c as int < 0x1_0000 then 3
    else 4
  }

  /** `len(s.encode("utf-8"))`. */
  function Utf8Size(s: string): (n: nat)
    ensures |s| <= n <= 4 * |s|
  {
    if |s| == 0 then 0 else Utf8Size(s[..|s| - 1]) + Utf8Length(s[|s| - 1])
  }

  /** The password `hash_password` hands to bcrypt: its first 72 characters
      when it is longer than 72 bytes, and the password itself otherwise. */
  function TruncateForBcrypt(password: string): (p: string)
    ensures Utf8Size(password) <= BcryptLimit ==> p == password
    ensures Utf8Size(password) > BcryptLimit ==>
      p == password[..if |password| < BcryptLimit then |password| else BcryptLimit]
    ensures p <= password && |p| <= BcryptLimit
  {
    if Utf8Size(password) > BcryptLimit then
      password[..if |password| < BcryptLimit then |password| else BcryptLimit]
    else password
  }

  /** `hash_password`: bcrypt of the password, cut to 72 characters when it
      is longer than 72 bytes. */
  function HashPassword(password: string, bcrypt: string -> string): (h: string)
    ensures Utf8Size(password) <= BcryptLimit ==> h == bcrypt(password)
    ensures Utf8Size(password) > BcryptLimit ==>
      h == bcrypt(password[..if |password| < BcryptLimit then |password| else BcryptLimit])
  {
    bcrypt(TruncateForBcrypt(password))
  }

  /** Two passwords of more than 72 characters that agree on their first 72
      hand bcrypt the same input: whatever follows is ignored.  For one fixed
      salt, they therefore get the same hash. */
  lemma HashIgnoresTail(a: string, b: string, bcrypt: string -> string)
    requires |a| > BcryptLimit && |b| > BcryptLimit && a[..BcryptLimit] == b[..BcryptLimit]
    ensures TruncateForBcrypt(a) == TruncateForBcrypt(b) == a[..BcryptLimit]
    ensures HashPassword(a, bcrypt) == HashPassword(b, bcrypt)
  {
    assert Utf8Size(a) >= |a| && Utf8Size(b) >= |b|;
  }

  /** A string of one repeated character takes that character's size per copy. */
  lemma {:induction false} Utf8SizeRepeated(s: string, c: char)
    requires forall i :: 0 <= i < |s| ==> s[i] == c
    ensures Utf8Size(s) == |s| * Utf8Length(c)
  {
    if |s| > 0 {
      Utf8SizeRepeated(s[..|s| - 1], c);
    }
  }

  /** For ASCII text bytes and characters coincide. */
  lemma {:induction false} Utf8SizeAscii(s: string)
    requires forall i :: 0 <= i < |s| ==> s[i] as int < 0x80
    ensures Utf8Size(s) == |s|
  {
    if |s| > 0 {
      Utf8SizeAscii(s[..|s| - 1]);
    }
  }

  /** For an ASCII password the truncated password fits bcrypt's 72 bytes. */
  lemma TruncatedAsciiFits(password: string)
    requires forall i :: 0 <= i < |password| ==> password[i] as int < 0x80
    ensures Utf8Size(TruncateForBcrypt(password)) <= BcryptLimit
  {
    var p := TruncateForBcrypt(password);
    assert forall i :: 0 <= i < |p| ==> p[i] == password[i];
    Utf8SizeAscii(p);
  }

  /** The cut counts characters, not bytes: 37 copies of 'é' take 74 bytes,
      so they trigger the rule, yet being shorter than 72 characters they
      pass through unchanged, still longer than bcrypt's limit. */
  lemma TruncationCanExceedLimit()
    ensures var p := seq(37, _ => 'é'); TruncateForBcrypt(p) == p && Utf8Size(TruncateForBcrypt(p)) > BcryptLimit
  {
    var p := seq(37, _ => 'é');
    Utf8SizeRepeated(p, 'é');
  }

  // ---------------------------------------------------------------
  // Decimal text of integers: str(n) and int(s)
  // ---------------------------------------------------------------

  predicate IsDigit(c: char) {
    '0' as int <= c as int <= '9' as int
  }

  function DigitChar(d: int): (c: char)
    requires 0 <= d < 10
    ensures IsDigit(c)
  {
    ('0' as int + d) as char
  }

  /** The decimal digits of a natural number, most significant first. */
  function NatToString(n: nat): (s: string)
    ensures |s| >= 1 && forall i :: 0 <= i < |s| ==> IsDigit(s[i])
  {
    if n < 10 then [DigitChar(n)] else NatToString(n / 10) + [DigitChar(n % 10)]
  }

  /** `str(n)` of a Python int. */
  function IntToString(n: int): (s: string)
    ensures |s| >= 1 && ' ' !in s
  {
    if n < 0 then "-" + NatToString(-n) else NatToString(n)
  }

  /** The value of a string of digits. */
  function DigitsValue(s: string): nat
    requires forall i :: 0 <= i < |s| ==> IsDigit(s[i])
  {
    if |s| == 0 then 0 else DigitsValue(s[..|s| - 1]) * 10 + DigitValue(s[|s| - 1])
  }

  function DigitValue(c: char): (d: nat)
    requires IsDigit(c)
    ensures d < 10
  {
    c as int - '0' as int
  }

  predicate AllDigits(s: string) {
    |s| > 0 && forall i :: 0 <= i < |s| ==> IsDigit(s[i])
  }

  /** `int(s)` on an optional minus sign followed by digits; anything else fails. */
  function ParseDecimal(s: string): (r: Option<int>)
    ensures r.Some? <==> AllDigits(s) || (|s| > 1 && s[0] == '-' && AllDigits(s[1..]))
  {
    if |s| > 1 && s[0] == '-' && AllDigits(s[1..]) then Some(0 - DigitsValue(s[1..]) as int)
    else if AllDigits(s) then Some(DigitsValue(s))
    else None
  }

  lemma {:induction false} DigitsOfNat(n: nat)
    ensures DigitsValue(NatToString(n)) == n
  {
    if n >= 10 {
      var s := NatToString(n);
      var init := NatToString(n / 10);
      assert s[..|s| - 1] == init;
      DigitsOfNat(n / 10);
    }
  }

  /** Reading back the decimal text of an integer gives the integer. */
  lemma ParseOfIntToString(n: int)
    ensures ParseDecimal(IntToString(n)) == Some(n)
  {
    if n < 0 {
      var d := NatToString(-n);
      assert IntToString(n)[1..] == d && AllDigits(d);
      DigitsOfNat(-n);
    } else {
      var d := NatToString(n);
      assert d[0] != '-' && AllDigits(d);
      DigitsOfNat(n);
    }
  }

  /** `str` is one-to-one on integers, so distinct ids give distinct subjects. */
  lemma IntToStringInjective(a: int, b: int)
    requires IntToString(a) == IntToString(b)
    ensures a == b
  {
    ParseOfIntToString(a);
    ParseOfIntToString(b);
  }

  // ---------------------------------------------------------------
  // Token payload
  // ---------------------------------------------------------------

  /** A value of a token payload: text, an integer, an instant in seconds, or null. */
  datatype Claim = ClaimText(s: string) | ClaimInt(i: int) | ClaimTime(seconds: int) | ClaimNull

  const Sub := "sub"
  const Id := "id"
  const Exp := "exp"

  /** The expiry used when no truthy delta is given: 15 minutes. */
  const DefaultExpiry := 15 * 60

  /** `str(v)`; how a datetime prints is left to `showTime`. */
  function Show(v: Claim, showTime: int -> string): string {
    match v
    case ClaimText(s) => s
    case ClaimInt(i) => IntToString(i)
    case ClaimTime(t) => showTime(t)
    case ClaimNull => "None"
  }

  /** A timedelta is truthy unless it is absent or zero. */
  predicate Truthy(delta: Option<int>) {
    delta.Some? && delta.value != 0
  }

  /** What `create_access_token` signs for `data`: every key of `data`, with
      `exp` set to now plus the delta, or plus 15 minutes when the delta is
      not truthy, and `sub` added as `str(id)` only when `sub` is absent and
      `id` present. */
  ghost predicate TokenPayloadOf(data: map<string, Claim>, delta: Option<int>, now: int,
                                 showTime: int -> string, p: map<string, Claim>) {
    && p.Keys == data.Keys + {Exp} + (if Sub !in data && Id in data then {Sub} else {})
    && p[Exp] == ClaimTime(if Truthy(delta) then now + delta.value else now + DefaultExpiry)
    && (Sub in data ==> p[Sub] == data[Sub])
    && (Sub !in data && Id in data ==> p[Sub] == ClaimText(Show(data[Id], showTime)))
    && forall k :: k in data && k != Exp && k != Sub ==> p[k] == data[k]
  }

  /** The payload is fully determined by the description above. */
  lemma TokenPayloadUnique(data: map<string, Claim>, delta: Option<int>, now: int,
                           showTime: int -> string, p: map<string, Claim>, q: map<string, Claim>)
    requires TokenPayloadOf(data, delta, now, showTime, p)
    requires TokenPayloadOf(data, delta, now, showTime, q)
    ensures p == q
  {
    forall k | k in p ensures p[k] == q[k] {
      if k != Exp && k != Sub {
        assert k in data;
      }
    }
  }

  /** The body of `create_access_token` up to signing: copy `data`, set the
      expiry, then fill in `sub` from `id`.  `data` itself is a value and is
      never changed. */
  method BuildPayload(data: map<string, Claim>, delta: Option<int>, now: int, showTime: int -> string)
    returns (toEncode: map<string, Claim>)
    ensures TokenPayloadOf(data, delta, now, showTime, toEncode)
  {
    toEncode := data;
    var expire;
    if Truthy(delta) {
      expire := now + delta.value;
    } else {
      expire := now + DefaultExpiry;
    }
    toEncode := toEncode[Exp := ClaimTime(expire)];
    if Sub !in toEncode && Id in toEncode {
      toEncode := toEncode[Sub := ClaimText(Show(toEncode[Id], showTime))];
    }
  }

  /** `create_access_token`: the signed payload, `encode` standing for `jwt.encode`. */
  method CreateAccessToken(data: map<string, Claim>, delta: Option<int>, now: int,
                           showTime: int -> string, encode: map<string, Claim> -> string)
    returns (token: string)
    ensures exists p :: TokenPayloadOf(data, delta, now, showTime, p) && token == encode(p)
  {
    var toEncode := BuildPayload(data, delta, now, showTime);
    token := encode(toEncode);
  }

  // ---------------------------------------------------------------
  // Current user
  // ---------------------------------------------------------------

  /** A stored account. */
  datatype User = User(id: int, fullName: string, username: string, studentId: string,
                       email: string, password: string, phone: Option<string>,
                       emergencyContact: Option<string>, avatarUrl: Option<string>)

  datatype HttpError = HttpError(status: int, detail: string)

  const CredentialsError := HttpError(401, "Could not validate credentials or token expired")

  /** What an exception escaping the handler becomes. */
  const InternalError := HttpError(500, "Internal Server Error")

  const BearerPrefix := "Bearer "

  /** The text before the first space. */
  function FirstField(s: string): (f: string)
    ensures f <= s && ' ' !in f
    ensures |f| == |s| || s[|f|] == ' '
  {
    if |s| == 0 || s[0] == ' ' then [] else [s[0]] + FirstField(s[1..])
  }

  /** `token.split(" ")[1]` when the token starts with "Bearer ", else the token. */
  function StripBearer(token: string): (t: string)
    ensures !(BearerPrefix <= token) ==> t == token
    ensures BearerPrefix <= token ==>
      var rest := token[|BearerPrefix|..];
      t <= rest && ' ' !in t && (|t| == |rest| || rest[|t|] == ' ')
  {
    if BearerPrefix <= token then FirstField(token[|BearerPrefix|..]) else token
  }

  /** Prefixing a space-free token with "Bearer " and stripping it gives the token back. */
  lemma StripBearerPrefixed(token: string)
    requires ' ' !in token
    ensures StripBearer(BearerPrefix + token) == token
  {
    var t := BearerPrefix + token;
    assert BearerPrefix <= t;
    assert t[|BearerPrefix|..] == token;
    assert StripBearer(t) <= token;
  }

  /** `int(user_id)` on a decoded `sub`: an integer is taken as it is, text
      must read as an integer, and anything else makes `int` raise. */
  function SubjectId(v: Claim): (r: Option<int>)
    ensures r.Some? <==> v.ClaimInt? || (v.ClaimText? && ParseDecimal(v.s).Some?)
    ensures v.ClaimInt? ==> r == Some(v.i)
    ensures v.ClaimText? ==> r == ParseDecimal(v.s)
  {
    match v
    case ClaimText(s) => ParseDecimal(s)
    case ClaimInt(i) => Some(i)
    case _ => None
  }

  /** `query(User).filter(condition).first()`: the first stored user that
      satisfies `matches`, or None when no user does. */
  function FindFirst(users: seq<User>, matches: User -> bool): (u: Option<User>)
    ensures u.Some? ==> u.value in users && matches(u.value)
    ensures u.None? <==> forall i :: 0 <= i < |users| ==> !matches(users[i])
  {
    if |users| == 0 then None
    else if matches(users[0]) then Some(users[0])
    else
      var rest := FindFirst(users[1..], matches);
      assert forall i :: 1 <= i < |users| ==> users[i] == users[1..][i - 1];
      rest
  }

  /** The condition `User.id == id`. */
  function HasId(id: int): User -> bool {
    (u: User) => u.id == id
  }

  /** The first stored user with the given id: `filter(User.id == id).first()`. */
  function FindUser(users: seq<User>, id: int): Option<User> {
    FindFirst(users, HasId(id))
  }

  /** `get_current_user`: strip "Bearer ", decode, read `sub`, look the id up.
      A decode failure (an expired token included), a missing or null `sub`
      and an unknown id all give the same 401; a `sub` that `int` cannot read
      raises outside the `try` and becomes a 500. */
  function GetCurrentUser(token: string, decode: string -> Result<map<string, Claim>, string>,
                          users: seq<User>): (r: Result<User, HttpError>)
    ensures decode(StripBearer(token)).Err? ==> r == Err(CredentialsError)
    ensures decode(StripBearer(token)).Ok? ==>
      var payload := decode(StripBearer(token)).value;
      && (Sub !in payload || payload[Sub] == ClaimNull ==> r == Err(CredentialsError))
      && (Sub in payload && payload[Sub] != ClaimNull ==>
           match SubjectId(payload[Sub])
           case None => r == Err(InternalError)
           case Some(id) =>
             && (r.Ok? <==> exists i :: 0 <= i < |users| && users[i].id == id)
             && (r.Ok? ==> r.value in users && r.value.id == id)
             && (r.Err? ==> r == Err(CredentialsError)))
    ensures r.Err? ==> r.error == CredentialsError || r.error == InternalError
  {
    match decode(StripBearer(token))
    case Err(_) => Err(CredentialsError)
    case Ok(payload) =>
      if Sub !in payload || payload[Sub] == ClaimNull then Err(CredentialsError)
      else
        match SubjectId(payload[Sub])
        case None => Err(InternalError)
        case Some(id) =>
          match FindUser(users, id)
          case None => Err(CredentialsError)
          case Some(u) => Ok(u)
  }

  /** A token issued for a stored user's id, sent as "Bearer <token>" and
      decoded back to its payload, authenticates that user. */
  lemma IssuedTokenAuthenticates(user: User, users: seq<User>, delta: Option<int>, now: int,
                                 showTime: int -> string, token: string,
                                 decode: string -> Result<map<string, Claim>, string>,
                                 p: map<string, Claim>)
    requires user in users && forall u :: u in users && u.id == user.id ==> u == user
    requires TokenPayloadOf(map[Sub := ClaimText(IntToString(user.id))], delta, now, showTime, p)
    requires ' ' !in token && decode(token) == Ok(p)
    ensures GetCurrentUser(BearerPrefix + token, decode, users) == Ok(user)
  {
    StripBearerPrefixed(token);
    ParseOfIntToString(user.id);
    var i :| 0 <= i < |users| && users[i] == user;
  }

  /** The same token sent bare, as OAuth2PasswordBearer passes it without its
      scheme, authenticates that user too. */
  lemma RawTokenAuthenticates(user: User, users: seq<User>, delta: Option<int>, now: int,
                              showTime: int -> string, token: string,
                              decode: string -> Result<map<string, Claim>, string>,
                              p: map<string, Claim>)
    requires user in users && forall u :: u in users && u.id == user.id ==> u == user
    requires TokenPayloadOf(map[Sub := ClaimText(IntToString(user.id))], delta, now, showTime, p)
    requires ' ' !in token && decode(token) == Ok(p)
    ensures GetCurrentUser(token, decode, users) == Ok(user)
  {
    assert BearerPrefix[6] == ' ';
    assert StripBearer(token) == token;
    ParseOfIntToString(user.id);
    var i :| 0 <= i < |users| && users[i] == user;
  }
}
