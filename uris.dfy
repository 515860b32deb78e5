/**
 * The part of android.net.Uri the activity uses: a builder that appends query
 * parameters to a base address, the rendering of the result as a string, and
 * (as the rendering's inverse) the reading of a query string back into pairs.
 * Percent-encoding is not spelled out: the rendering takes the encoder as a
 * parameter, and the round trip holds for any encoder with an inverse whose
 * output never contains `&` or `=`.
 */
module Uris {
  import opened JavaStrings

  /** One `key=value` pair of a query. */
  datatype QueryParameter = QueryParameter(key: string, value: string)

  /** An address: the base it was built upon and its query parameters in order. */
  datatype Uri = Uri(base: string, query: seq<QueryParameter>)

  /** `Uri.Builder`: the query parameters grow one call at a time. */
  class UriBuilder {
    var base: string
    var query: seq<QueryParameter>

    /** `Uri.parse(base).buildUpon()`. */
    constructor BuildUpon(base: string)
      ensures this.base == base && query == []
    {
      this.base := base;
      query := [];
    }

    /** `appendQueryParameter`: adds one pair after the ones already there. */
    method AppendQueryParameter(key: string, value: string)
      modifies this
      ensures base == old(base)
      ensures query == old(query) + [QueryParameter(key, value)]
    {
      query := query + [QueryParameter(key, value)];
    }

    /** The address built so far. */
    function Build(): Uri
      reads this
    {
      Uri(base, query)
    }
  }

  /** Each pair as its encoded key, `=`, and its encoded value. */
  function EncodePairs(query: seq<QueryParameter>, encode: string -> string): seq<string>
  {
    seq(|query|, k requires 0 <= k < |query| => encode(query[k].key) + "=" + encode(query[k].value))
  }

  /** `toString()`: the base, then `?` and the encoded pairs joined by `&` when there are any. */
  function Render(u: Uri, encode: string -> string): string
  {
    if u.query == [] then u.base
    else u.base + "?" + Join(EncodePairs(u.query, encode), "&")
  }

  /** One `key=value` pair read back: split at the first `=` and decoded. */
  function ParseParameter(part: string, decode: string -> string): QueryParameter
  {
    var j := IndexOf(part, "=");
    if j < 0 then QueryParameter(decode(part), "")
    else QueryParameter(decode(part[..j]), decode(part[j + 1..]))
  }

  /** An address read back: the base up to the first `?`, then the pairs separated by `&`. */
  function ParseUri(s: string, decode: string -> string): Uri
  {
    var i := IndexOf(s, "?");
    if i < 0 then Uri(s, [])
    else
      var parts := Pieces(s[i + 1..], "&");
      Uri(s[..i], seq(|parts|, k requires 0 <= k < |parts| => ParseParameter(parts[k], decode)))
  }

  /**
   * Rendering loses nothing: for a base without `?` and an encoder that the
   * decoder undoes and whose output holds no `&` or `=`, reading the rendered
   * string back gives the base and every pair, in order.
   */
  lemma ParseRender(u: Uri, encode: string -> string, decode: string -> string)
    requires '?' !in u.base
    requires forall s :: decode(encode(s)) == s
    requires forall s :: '&' !in encode(s) && '=' !in encode(s)
    ensures ParseUri(Render(u, encode), decode) == u
  {
    if u.query == [] {
      NotFoundIn(u.base, "?");
    } else {
      var parts := EncodePairs(u.query, encode);
      var joined := Join(parts, "&");
      var s := u.base + "?" + joined;
      FoundAfter(u.base, "?", joined);
      assert s[..|u.base|] == u.base;
      assert s[|u.base| + 1..] == joined;
      forall k | 0 <= k < |parts|
        ensures '&' !in parts[k]
        ensures ParseParameter(parts[k], decode) == u.query[k]
      {
        var key, value := encode(u.query[k].key), encode(u.query[k].value);
        assert parts[k] == key + "=" + value;
        FoundAfter(key, "=", value);
        assert parts[k][..|key|] == key;
        assert parts[k][|key| + 1..] == value;
      }
      assert "&" == ['&'];
      PiecesJoin(parts, '&');
    }
  }
}
