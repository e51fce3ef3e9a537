/**
 * Header field names. A key is built only through `FromRawValue`, which
 * lowercases its text, so keys compare and hash case-insensitively.
 */
module HttpHeaderKeys {
  import opened Text

  type LowercaseText = s: string | IsLowercase(s) witness ""

  /**
   * `HttpHeaderKey`. Equality (and so hashing, which Swift synthesises from
   * the stored `rawValue`) is Dafny's structural equality on the lowercased text.
   */
  datatype HttpHeaderKey = HttpHeaderKey(rawValue: LowercaseText)

  /** `init(rawValue:)`: stores the lowercased text. */
  function FromRawValue(raw: string): (k: HttpHeaderKey)
    ensures |k.rawValue| == |raw|
    ensures EqualIgnoringCase(k.rawValue, raw)
  {
    HttpHeaderKey(Lowercased(raw))
  }

  /** `init(stringLiteral:)`: delegates to `init(rawValue:)`. */
  function FromStringLiteral(value: string): (k: HttpHeaderKey)
    ensures k == FromRawValue(value)
  {
    FromRawValue(value)
  }

  const ContentType: HttpHeaderKey := FromStringLiteral("content-type")
  const Connection: HttpHeaderKey := FromStringLiteral("connection")
  const Server: HttpHeaderKey := FromStringLiteral("server")
  const ContentLength: HttpHeaderKey := FromStringLiteral("content-length")

  /** Two raw names give the same key exactly when they differ only in letter case. */
  lemma KeysEqualIgnoringCase(a: string, b: string)
    ensures FromRawValue(a) == FromRawValue(b) <==> EqualIgnoringCase(a, b)
  {
    LowercasedEqual(a, b);
  }

  /** Re-normalising a key's stored text gives the same key back. */
  lemma FromRawValueIdempotent(k: HttpHeaderKey)
    ensures FromRawValue(k.rawValue) == k
  {
  }

  /** The named keys are already lowercase: their stored text is the literal itself. */
  lemma ConstantsAreLowercase()
    ensures ContentType.rawValue == "content-type"
    ensures Connection.rawValue == "connection"
    ensures Server.rawValue == "server"
    ensures ContentLength.rawValue == "content-length"
  {
    assert IsLowercase("content-type");
    assert IsLowercase("connection");
    assert IsLowercase("server");
    assert IsLowercase("content-length");
  }

  /** A header written with capitals, such as `Content-Type`, names the constant key. */
  lemma MixedCaseNamesConstant()
    ensures FromRawValue("Content-Type") == ContentType
    ensures FromRawValue("CONNECTION") == Connection
  {
    ConstantsAreLowercase();
    assert "Content-Type"[0] == 'C' && "Content-Type"[8] == 'T';
    assert EqualIgnoringCase("Content-Type", "content-type");
    KeysEqualIgnoringCase("Content-Type", "content-type");
    assert EqualIgnoringCase("CONNECTION", "connection");
    KeysEqualIgnoringCase("CONNECTION", "connection");
  }
}
