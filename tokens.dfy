/**
 * Activation and authentication tokens: their plaintext form (16 random
 * bytes in unpadded base 32), the plaintext validation rules, and the
 * tokens table, which stores the hash of a token but never its plaintext.
 */
module Tokens {
  import opened Wrappers
  import opened Strconv
  import Strings
  import opened Validation
  import opened Base32

  const ScopeActivation := "activation"
  const ScopeAuthentication := "authentication"

  /** Number of random bytes behind a token. */
  const RandomLength := 16
  /** Bytes in a token's plaintext. */
  const PlaintextLength := 26

  /** A token as the server hands it out; `expiry` is in nanoseconds. */
  datatype Token = Token(plaintext: string, hash: seq<Byte>, userID: Int64, expiry: int, scope: string)

  /** Why token generation failed: the random source reported an error. */
  datatype GenerateError = RandomSourceFailed

  /** The checks `ValidateTokenPlaintext` makes, in order; the length is in bytes. */
  function TokenRules(plaintext: string): seq<Rule>
  {
    [ Rule(plaintext != "", "token", "must be provided"),
      Rule(Strings.Utf8Len(plaintext) == PlaintextLength, "token", "must be 26 bytes long") ]
  }

  method ValidateTokenPlaintext(v: Validator, plaintext: string)
    modifies v
    ensures v.errors == Apply(old(v.errors), TokenRules(plaintext))
  {
    ghost var e0 := v.errors;
    ghost var rules := TokenRules(plaintext);
    v.Check(plaintext != "", "token", "must be provided");
    assert v.errors == Apply(e0, rules[..1]);
    v.Check(Strings.Utf8Len(plaintext) == PlaintextLength, "token", "must be 26 bytes long");
    assert rules[..2] == rules && rules[..1] == rules[..|rules| - 1];
  }

  /**
   * What `ValidateTokenPlaintext` records: a "token" error exactly when the
   * plaintext is empty or not 26 bytes long (unless "token" already had a
   * message); "must be provided" for the empty string, since the first
   * message wins; no other key changes.
   */
  lemma TokenErrors(errors: map<string, string>, plaintext: string)
    ensures var r := Apply(errors, TokenRules(plaintext));
      && ("token" in r <==> "token" in errors || plaintext == "" || Strings.Utf8Len(plaintext) != PlaintextLength)
      && ("token" !in errors && plaintext == "" ==> r["token"] == "must be provided")
      && ("token" !in errors && plaintext != "" && Strings.Utf8Len(plaintext) != PlaintextLength ==>
            r["token"] == "must be 26 bytes long")
      && (forall k :: k != "token" ==> (k in r <==> k in errors))
      && (forall k :: k in errors ==> r[k] == errors[k])
  {
    var rules := TokenRules(plaintext);
    ApplyRules(errors, rules, "token");
    ApplyKeeps(errors, rules);
    if plaintext == "" {
      FirstFailureAt(rules, "token", 0);
    } else if Strings.Utf8Len(plaintext) != PlaintextLength {
      FirstFailureAt(rules, "token", 1);
    }
    forall k | k != "token" ensures k in Apply(errors, rules) <==> k in errors {
      ApplyRules(errors, rules, k);
    }
  }

  /** Base 32 text is ASCII, so its byte length is its character count. */
  lemma Base32Bytes(s: string)
    requires IsBase32(s)
    ensures Strings.Utf8Len(s) == |s|
  {
    assert Strings.IsAscii(s) by {
      forall i | 0 <= i < |s| ensures s[i] as int < 0x80 {
        assert IsBase32Char(s[i]);
      }
    }
    Strings.AsciiUtf8Len(s);
  }

  /**
   * `generateToken`: the plaintext is the unpadded base 32 encoding of the
   * 16 bytes the random source supplies, the hash is SHA-256 of the
   * plaintext, and user id and scope are copied. The random source and the
   * hash function are parameters (`None` stands for a failed read); `now` is
   * the current time.
   */
  method GenerateToken(userID: Int64, ttl: int, scope: string, now: int,
                       random: Option<seq<Byte>>, sha256: string -> seq<Byte>)
    returns (r: Result<Token, GenerateError>)
    requires random.Some? ==> |random.value| == RandomLength
    ensures r.Err? <==> random.None?
    ensures r.Ok? ==>
      && r.value.plaintext == EncodeToString(random.value)
      && r.value.hash == sha256(r.value.plaintext)
      && r.value.userID == userID && r.value.scope == scope
      && r.value.expiry == now + ttl
      && |r.value.plaintext| == PlaintextLength && IsBase32(r.value.plaintext)
  {
    var token := Token("", [], userID, now + ttl, scope);
    if random.None? {
      return Err(RandomSourceFailed);
    }
    var randomBytes := random.value;
    token := token.(plaintext := EncodeToString(randomBytes));
    token := token.(hash := sha256(token.plaintext));
    return Ok(token);
  }

  /**
   * Every plaintext built from 16 bytes passes `ValidateTokenPlaintext`, and
   * different random inputs give different plaintexts.
   */
  lemma GeneratedPlaintextValid(errors: map<string, string>, randomBytes: seq<Byte>)
    requires |randomBytes| == RandomLength
    ensures Apply(errors, TokenRules(EncodeToString(randomBytes))) == errors
    ensures DecodeString(EncodeToString(randomBytes)) == Some(randomBytes)
  {
    var p := EncodeToString(randomBytes);
    Base32Bytes(p);
    DecodeEncode(randomBytes);
    var rules := TokenRules(p);
    assert rules[..1][..0] == [];
    assert Apply(errors, rules[..1]) == errors;
  }

  /** A row of the tokens table: the plaintext is not a column. */
  datatype TokenRow = TokenRow(hash: seq<Byte>, userID: Int64, expiry: int, scope: string)

  /** The row `Insert` writes for a token. */
  function RowOf(t: Token): (row: TokenRow)
    ensures row.hash == t.hash && row.userID == t.userID && row.expiry == t.expiry && row.scope == t.scope
  {
    TokenRow(t.hash, t.userID, t.expiry, t.scope)
  }

  /** Tokens that differ only in plaintext are stored identically. */
  lemma RowIgnoresPlaintext(t: Token, plaintext: string)
    ensures RowOf(t.(plaintext := plaintext)) == RowOf(t)
  {
  }

  predicate Matches(row: TokenRow, scope: string, userID: Int64)
  {
    row.scope == scope && row.userID == userID
  }

  /** The rows a `DELETE ... WHERE scope = $1 AND user_id = $2` leaves, in order. */
  function Remaining(rows: seq<TokenRow>, scope: string, userID: Int64): (r: seq<TokenRow>)
    ensures forall x :: Matches(x, scope, userID) ==> multiset(r)[x] == 0
    ensures forall x :: !Matches(x, scope, userID) ==> multiset(r)[x] == multiset(rows)[x]
    ensures |r| <= |rows|
  {
    if rows == [] then []
    else
      var rest := Remaining(rows[1..], scope, userID);
      assert rows == [rows[0]] + rows[1..];
      if Matches(rows[0], scope, userID) then rest else [rows[0]] + rest
  }

  /** Deleting a user's activation tokens leaves all authentication tokens. */
  lemma RevokeActivationKeepsAuthentication(rows: seq<TokenRow>, userID: Int64, row: TokenRow)
    requires row in rows && row.scope == ScopeAuthentication
    ensures row in Remaining(rows, ScopeActivation, userID)
  {
    assert multiset(rows)[row] > 0;
  }

  /** The tokens table. */
  class TokenModel {
    var rows: seq<TokenRow>

    constructor ()
      ensures rows == []
    {
      rows := [];
    }

    /** `Insert`: appends the token's hash, user id, expiry and scope. */
    method Insert(t: Token)
      modifies this
      ensures rows == old(rows) + [RowOf(t)]
    {
      rows := rows + [TokenRow(t.hash, t.userID, t.expiry, t.scope)];
    }

    /** `New`: generates a token and inserts it; nothing is stored when generation fails. */
    method New(userID: Int64, ttl: int, scope: string, now: int,
               random: Option<seq<Byte>>, sha256: string -> seq<Byte>)
      returns (r: Result<Token, GenerateError>)
      requires random.Some? ==> |random.value| == RandomLength
      modifies this
      ensures r.Err? <==> random.None?
      ensures r.Err? ==> rows == old(rows)
      ensures r.Ok? ==>
        && rows == old(rows) + [RowOf(r.value)]
        && r.value.plaintext == EncodeToString(random.value)
        && r.value.hash == sha256(r.value.plaintext)
        && r.value.userID == userID && r.value.scope == scope && r.value.expiry == now + ttl
    {
      r := GenerateToken(userID, ttl, scope, now, random, sha256);
      if r.Ok? {
        Insert(r.value);
      }
    }

    /** `DeleteAllForUser`: removes exactly the rows with that scope and user id. */
    method DeleteAllForUser(scope: string, userID: Int64)
      modifies this
      ensures rows == Remaining(old(rows), scope, userID)
    {
      rows := Remaining(rows, scope, userID);
    }
  }
}
