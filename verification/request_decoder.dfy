/**
 `TodosAuthRequestDecoder`: picks the body decoder from the request's
 Content-Type header, or refuses the request with 400 Bad Request.
 */
module RequestDecoder {
  import opened Wrappers
  import opened Http

  /** The two body formats the application accepts. */
  datatype Decoder = JsonDecoder | UrlEncodedFormDecoder

  /** A media type's essence, `type/subtype`, lower-cased. */
  datatype MediaType = MediaType(kind: string, subtype: string)

  const ApplicationJson := MediaType("application", "json")
  const ApplicationUrlEncoded := MediaType("application", "x-www-form-urlencoded")

  /** ASCII lower-casing of one character; media types compare case-insensitively. */
  function LowerChar(c: char): (d: char)
    ensures d == '/' <==> c == '/'
    ensures 'A' <= c <= 'Z' ==> d as int == c as int + 32
    ensures !('A' <= c <= 'Z') ==> d == c
  {
    if 'A' <= c <= 'Z' then (c as int + 32) as char else c
  }

  /** ASCII lower-casing of a string, character by character. */
  function Lower(s: string): (r: string)
    ensures |r| == |s|
    ensures forall i :: 0 <= i < |s| ==> r[i] == LowerChar(s[i])
  {
    if |s| == 0 then [] else [LowerChar(s[0])] + Lower(s[1..])
  }

  /** The part of a header value before its first `;`: the parameters are dropped. */
  function Essence(h: string): (r: string)
    ensures r <= h
    ensures ';' !in r
    ensures |r| < |h| ==> h[|r|] == ';'
  {
    if |h| == 0 || h[0] == ';' then [] else [h[0]] + Essence(h[1..])
  }

  /** Optional white space around a header token. */
  predicate IsOws(c: char)
  {
    c == ' ' || c == '\t'
  }

  /** The string without leading and trailing spaces and tabs. */
  function TrimOws(s: string): (r: string)
    ensures |r| <= |s|
    ensures forall c :: c in r ==> c in s
    ensures r != [] ==> !IsOws(r[0]) && !IsOws(r[|r| - 1])
    decreases |s|
  {
    if |s| > 0 && IsOws(s[0]) then TrimOws(s[1..])
    else if |s| > 0 && IsOws(s[|s| - 1]) then TrimOws(s[..|s| - 1])
    else s
  }

  /** The index of the first `/`, if any. */
  function SlashIndex(s: string): (r: Option<nat>)
    ensures r.None? <==> '/' !in s
    ensures r.Some? ==> r.value < |s| && s[r.value] == '/' && '/' !in s[..r.value]
  {
    if |s| == 0 then None
    else if s[0] == '/' then Some(0)
    else
      match SlashIndex(s[1..])
      case None => None
      case Some(i) =>
        assert s[..i + 1] == [s[0]] + s[1..][..i];
        Some(i + 1)
  }

  /**
   `MediaType(from:)`: a header value parses when its essence is two
   non-empty tokens around exactly one `/`; anything else does not.
   */
  function ParseMediaType(header: string): (r: Option<MediaType>)
    ensures '/' !in header ==> r.None?
    ensures r.Some? ==> && r.value.kind != [] && r.value.subtype != []
                        && '/' !in r.value.kind && '/' !in r.value.subtype
  {
    var e := TrimOws(Essence(header));
    match SlashIndex(e)
    case None => None
    case Some(i) =>
      var kind := e[..i];
      var subtype := e[i + 1..];
      if kind == [] || subtype == [] || '/' in subtype then None
      else Some(MediaType(Lower(kind), Lower(subtype)))
  }

  /**
   `TodosAuthRequestDecoder.decode`: a missing header, an unparseable media
   type and any type other than JSON or URL-encoded form are all 400 Bad
   Request; JSON and form select their decoders.
   */
  function Decode(contentType: Option<string>): (r: Result<Decoder>)
    ensures contentType.None? ==> r == Failure(BadRequest, None)
    ensures r.Failure? ==> r == Failure(BadRequest, None)
    ensures r == Success(JsonDecoder) <==>
              contentType.Some? && ParseMediaType(contentType.value) == Some(ApplicationJson)
    ensures r == Success(UrlEncodedFormDecoder) <==>
              contentType.Some? && ParseMediaType(contentType.value) == Some(ApplicationUrlEncoded)
  {
    match contentType
    case None => Failure(BadRequest, None)
    case Some(header) =>
      match ParseMediaType(header)
      case None => Failure(BadRequest, None)
      case Some(m) =>
        if m == ApplicationJson then Success(JsonDecoder)
        else if m == ApplicationUrlEncoded then Success(UrlEncodedFormDecoder)
        else Failure(BadRequest, None)
  }

  /** A header value without a `/` is no media type, so the request is refused. */
  lemma UnparseableIsBadRequest(header: string)
    requires '/' !in header
    ensures Decode(Some(header)) == Failure(BadRequest, None)
  {
  }

  /** No upper-case ASCII letter: lower-casing leaves the string alone. */
  predicate IsLowerCase(s: string)
  {
    forall i :: 0 <= i < |s| ==> !('A' <= s[i] <= 'Z')
  }

  /** The essence of a header value is everything up to its first `;`. */
  lemma EssenceUpTo(h: string, n: nat)
    requires n <= |h|
    requires ';' !in h[..n]
    requires n == |h| || h[n] == ';'
    ensures Essence(h) == h[..n]
  {
  }

  /** The first `/` is found where it is. */
  lemma SlashIndexAt(s: string, n: nat)
    requires n < |s| && s[n] == '/'
    requires '/' !in s[..n]
    ensures SlashIndex(s) == Some(n)
  {
  }

  /** Lower-case strings are their own lower-casing. */
  lemma LowerOfLowerCase(s: string)
    requires IsLowerCase(s)
    ensures Lower(s) == s
  {
  }

  /** A string that neither starts nor ends with white space is its own trim. */
  lemma TrimOwsNoop(s: string)
    requires s != [] && !IsOws(s[0]) && !IsOws(s[|s| - 1])
    ensures TrimOws(s) == s
  {
  }

  /**
   The shape every well-formed header takes: a lower-case `type/subtype`
   with no surrounding white space, optionally followed by parameters,
   parses to exactly that type and subtype.
   */
  lemma ParseWellFormed(kind: string, subtype: string, params: string)
    requires kind != [] && subtype != []
    requires '/' !in kind && ';' !in kind && '/' !in subtype && ';' !in subtype
    requires !IsOws(kind[0]) && !IsOws(subtype[|subtype| - 1])
    requires IsLowerCase(kind) && IsLowerCase(subtype)
    requires params == [] || params[0] == ';'
    ensures ParseMediaType(kind + "/" + subtype + params) == Some(MediaType(kind, subtype))
  {
    var e := kind + "/" + subtype;
    var h := e + params;
    assert h[..|e|] == e;
    assert ';' !in e by {
      assert e == kind + ("/" + subtype);
    }
    EssenceUpTo(h, |e|);
    assert e[0] == kind[0] && e[|e| - 1] == subtype[|subtype| - 1];
    TrimOwsNoop(e);
    assert e[..|kind|] == kind;
    SlashIndexAt(e, |kind|);
    assert e[|kind| + 1..] == subtype;
    LowerOfLowerCase(kind);
    LowerOfLowerCase(subtype);
  }

  /** A well-formed header selects a decoder by its type and subtype alone. */
  lemma DecodeWellFormed(kind: string, subtype: string, params: string)
    requires kind != [] && subtype != []
    requires '/' !in kind && ';' !in kind && '/' !in subtype && ';' !in subtype
    requires !IsOws(kind[0]) && !IsOws(subtype[|subtype| - 1])
    requires IsLowerCase(kind) && IsLowerCase(subtype)
    requires params == [] || params[0] == ';'
    ensures Decode(Some(kind + "/" + subtype + params))
         == if MediaType(kind, subtype) == ApplicationJson then Success(JsonDecoder)
            else if MediaType(kind, subtype) == ApplicationUrlEncoded then Success(UrlEncodedFormDecoder)
            else Failure(BadRequest, None)
  {
    ParseWellFormed(kind, subtype, params);
  }

  /** The tokens of the JSON media type are lower-case and well-formed. */
  lemma JsonTokens()
    ensures IsLowerCase("application") && IsLowerCase("json")
    ensures '/' !in "application" && ';' !in "application"
    ensures '/' !in "json" && ';' !in "json"
    ensures "application" + "/" + "json" == "application/json"
  {
  }

  /** The tokens of the form media type are lower-case and well-formed. */
  lemma FormTokens()
    ensures IsLowerCase("application") && IsLowerCase("x-www-form-urlencoded")
    ensures '/' !in "application" && ';' !in "application"
    ensures '/' !in "x-www-form-urlencoded" && ';' !in "x-www-form-urlencoded"
    ensures "application" + "/" + "x-www-form-urlencoded" == "application/x-www-form-urlencoded"
  {
    FormSubtypeLower();
    FormSubtypeSeparators();
  }

  /** The form subtype holds no `/` and no `;`. */
  lemma FormSubtypeSeparators()
    ensures '/' !in "x-www-form-urlencoded" && ';' !in "x-www-form-urlencoded"
  {
  }

  /** The form subtype has no upper-case letter. */
  lemma FormSubtypeLower()
    ensures IsLowerCase("x-www-form-urlencoded")
  {
    var s := "x-www-form-urlencoded";
    forall i | 0 <= i < |s|
      ensures !('A' <= s[i] <= 'Z')
    {
      assert 'a' <= s[i] <= 'z' || s[i] == '-';
    }
  }

  /** The tokens of `text/plain` are lower-case and well-formed. */
  lemma TextTokens()
    ensures IsLowerCase("text") && IsLowerCase("plain")
    ensures '/' !in "text" && ';' !in "text"
    ensures '/' !in "plain" && ';' !in "plain"
    ensures "text" + "/" + "plain" == "text/plain"
  {
  }

  /** `application/json`, with or without parameters, selects the JSON decoder. */
  lemma JsonSelectsJsonDecoder(params: string)
    requires params == [] || params[0] == ';'
    ensures Decode(Some("application/json" + params)) == Success(JsonDecoder)
  {
    JsonTokens();
    ParseWellFormed("application", "json", params);
  }

  /** `application/x-www-form-urlencoded`, with or without parameters, selects the form decoder. */
  lemma FormSelectsFormDecoder(params: string)
    requires params == [] || params[0] == ';'
    ensures Decode(Some("application/x-www-form-urlencoded" + params)) == Success(UrlEncodedFormDecoder)
  {
    FormTokens();
    ParseWellFormed("application", "x-www-form-urlencoded", params);
    assert ApplicationUrlEncoded != ApplicationJson;
  }

  /**
   `text/plain`, with or without parameters, is refused; `DecodeWellFormed`
   states the same for every other well-formed type.
   */
  lemma OtherMediaTypeIsBadRequest(params: string)
    requires params == [] || params[0] == ';'
    ensures Decode(Some("text/plain" + params)) == Failure(BadRequest, None)
  {
    TextTokens();
    DecodeWellFormed("text", "plain", params);
  }
}
