/** HTTPAuthHeaderMapper: the Basic authentication header of section 2 of RFC 7617,
    built with an injected text encoder. */
module HttpAuth {
  /** TextEncoder.encode, left uninterpreted. */
  type Encoder = string -> string

  const AUTHORIZATION := "Authorization"
  const BASIC_PREFIX := "Basic "

  /** f"{username}:{password}", with no escaping. */
  function Credentials(username: string, password: string): string {
    username + ":" + password
  }

  /** map_from_credentials */
  function MapFromCredentials(encode: Encoder, username: string, password: string): (h: map<string, string>)
    ensures h.Keys == {AUTHORIZATION}
    ensures h[AUTHORIZATION] == BASIC_PREFIX + encode(Credentials(username, password))
  {
    map[AUTHORIZATION := BASIC_PREFIX + encode(Credentials(username, password))]
  }

  /** The header depends on the credentials only through their encoding,
      and different encodings give different headers. */
  lemma HeaderDeterminedByEncoding(encode: Encoder, u1: string, p1: string, u2: string, p2: string)
    ensures MapFromCredentials(encode, u1, p1) == MapFromCredentials(encode, u2, p2)
      <==> encode(Credentials(u1, p1)) == encode(Credentials(u2, p2))
  {
    var h1, h2 := MapFromCredentials(encode, u1, p1), MapFromCredentials(encode, u2, p2);
    if h1 == h2 {
      var e1, e2 := encode(Credentials(u1, p1)), encode(Credentials(u2, p2));
      assert BASIC_PREFIX + e1 == BASIC_PREFIX + e2;
      assert e1 == (BASIC_PREFIX + e1)[|BASIC_PREFIX|..];
      assert e2 == (BASIC_PREFIX + e2)[|BASIC_PREFIX|..];
    }
  }

  /** The value can be split back into the prefix and the encoded credentials. */
  lemma HeaderValueSplits(encode: Encoder, username: string, password: string)
    ensures var v := MapFromCredentials(encode, username, password)[AUTHORIZATION];
      v[..|BASIC_PREFIX|] == BASIC_PREFIX && v[|BASIC_PREFIX|..] == encode(Credentials(username, password))
  {
  }

  /** A username holding ':' is not escaped, so two different logins give the same header. */
  lemma ColonCollision(encode: Encoder)
    ensures MapFromCredentials(encode, "a:b", "c") == MapFromCredentials(encode, "a", "b:c")
  {
    assert Credentials("a:b", "c") == Credentials("a", "b:c");
  }

  /** When the username has no ':', the first ':' of the credentials separates it from the password. */
  lemma CredentialsSplit(username: string, password: string)
    requires ':' !in username
    ensures var c := Credentials(username, password);
      && c[|username|] == ':'
      && (forall i :: 0 <= i < |username| ==> c[i] != ':')
      && c[..|username|] == username && c[|username| + 1..] == password
  {
  }
}
