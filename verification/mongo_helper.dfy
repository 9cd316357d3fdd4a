/** utils/mongoHelper.js: the input validators and the password hash/compare pair. */
module MongoHelper {
  import opened Outcomes
  import opened JsValues
  import opened ObjectIds

  /** One character of the class `[A-z0-9-_]` of `boardMatch`. The range `A-z` runs
      over code points 65 to 122, so it holds the six characters between `Z` and `a`
      as well as the letters. */
  predicate BoardClassChar(c: char) {
    ('A' <= c <= 'z') || ('0' <= c <= '9') || c == '-' || c == '_'
  }

  /** `boardMatch.test(s)` for `/^([A-z0-9-_]+)$/`: one class character followed by
      the match of the rest, or a single class character. */
  predicate BoardMatch(s: string) {
    |s| > 0 && BoardClassChar(s[0]) && (|s| == 1 || BoardMatch(s[1..]))
  }

  /** A character a board name may hold, listed explicitly: an ASCII letter or digit,
      or one of `-`, `_`, `[`, `\`, `]`, `^` and the backtick. */
  predicate BoardNameChar(c: char) {
    || ('A' <= c <= 'Z') || ('a' <= c <= 'z') || ('0' <= c <= '9')
    || c == '-' || c == '_' || c == '[' || c == '\\' || c == ']' || c == '^' || c == '`'
  }

  /** The regular expression accepts exactly the non-empty strings of listed characters. */
  lemma {:induction false} BoardMatchChars(s: string)
    ensures BoardMatch(s) <==> |s| > 0 && forall k :: 0 <= k < |s| ==> BoardNameChar(s[k])
  {
    if |s| > 1 {
      BoardMatchChars(s[1..]);
      assert forall k :: 1 <= k < |s| ==> s[k] == s[1..][k - 1];
    }
  }

  /** `MongoHelper.isValidBoard`. */
  function IsValidBoard(board: JsValue): (r: bool)
    ensures r <==> board.JsString? && |board.s| > 0
                   && forall k :: 0 <= k < |board.s| ==> BoardNameChar(board.s[k])
  {
    if board.JsString? then BoardMatchChars(board.s); IsStrNotEmpty(board) && BoardMatch(board.s)
    else false
  }

  /** `MongoHelper.isValidText`. */
  function IsValidText(text: JsValue): (r: bool)
    ensures r <==> text.JsString? && text.s != []
  {
    IsStrNotEmpty(text)
  }

  /** `MongoHelper.isValidPassword`. */
  function IsValidPassword(password: JsValue): (r: bool)
    ensures r <==> password.JsString? && password.s != []
  {
    IsStrNotEmpty(password)
  }

  /** `MongoHelper.isValidObjectId`: the string must survive `new ObjectId(id)` and
      `String(...)` unchanged; a non-string is never `===` to the string that
      `String(...)` returns, and an exception yields false. */
  function IsValidObjectId(id: JsValue): (r: bool)
    ensures r <==> id.JsString? && |id.s| == 24
                   && forall k :: 0 <= k < |id.s| ==> IsLowerHexChar(id.s[k])
  {
    if !id.JsString? then false
    else
      var s := id.s;
      if !BsonIsValid(s) then false
      else
        match FromString(s)
        case None => false
        case Some(bytes) =>
          if |s| == 24 then
            ToHexOfFromHex(s);
            assert ToHex(bytes) == s <==> forall k :: 0 <= k < |s| ==> IsLowerHexChar(s[k]) by {
              if forall k :: 0 <= k < |s| ==> IsLowerHexChar(s[k]) {
                assert forall k :: 0 <= k < |s| ==> ToHex(bytes)[k] == s[k];
              }
            }
            ToHex(bytes) == s
          else
            ToHex(bytes) == s
  }

  /** An accepted id is the rendering of the bytes it spells, so converting it to an
      ObjectId and back is the identity. */
  lemma ValidObjectIdRoundTrip(s: string)
    requires IsValidObjectId(JsString(s))
    ensures FromString(s).Some? && ToHex(FromString(s).value) == s
    ensures FromHex(ToHex(FromString(s).value)) == FromString(s).value
  {
    FromHexOfToHex(FromString(s).value);
  }

  /** Opaque stand-in for a bcrypt hash string: the salt bcrypt draws and the secret
      it was computed from. The cost factor has no bearing on the outcome. */
  datatype Digest = Bcrypt(salt: nat, secret: string)

  /** `MongoHelper.hashPassword`; `salt` stands for bcrypt's random salt. */
  function HashPassword(password: string, salt: nat): (d: Digest)
    ensures ComparePassword(password, d)
    ensures forall candidate :: ComparePassword(candidate, d) ==> candidate == password
  {
    Bcrypt(salt, password)
  }

  /** `MongoHelper.comparePassword`. */
  function ComparePassword(candidate: string, hash: Digest): (r: bool)
    ensures r <==> exists salt :: hash == Bcrypt(salt, candidate)
  {
    assert candidate == hash.secret ==> hash == Bcrypt(hash.salt, candidate);
    candidate == hash.secret
  }

  /** Hashing the same password twice gives digests that accept the same candidates,
      whatever salts were drawn. */
  lemma HashAcceptsSameCandidates(password: string, salt1: nat, salt2: nat, candidate: string)
    ensures ComparePassword(candidate, HashPassword(password, salt1))
            <==> ComparePassword(candidate, HashPassword(password, salt2))
  {
  }
}
