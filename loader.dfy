/**
  `getContent`: the source text of one `<script>` element and the tag that identifies it.
  Inline text is taken as it is and fingerprinted; otherwise the `src` URL is fetched, the
  response's Content-Type is checked and the ETag header, if any, identifies the body.
  `fetch` is a parameter: what the network answers for a URL.
 */
module Loader {
  import opened Wrappers
  import opened Hashing

  /** `allowedMimeTypes`. */
  const AllowedMimeTypes: seq<string> :=
    ["text/typescript", "application/typescript", "text/x-typescript", "application/x-typescript"]

  /** The attributes of a `<script>` element the pipeline reads: `src`, `type` and `textContent`. */
  datatype ScriptTag = ScriptTag(src: string, mimeType: string, text: string)

  /** An HTTP response: the `Content-Type` and `ETag` headers, when present, and the body text. */
  datatype Response = Response(contentType: Option<string>, eTag: Option<string>, body: string)

  /** What `fetch(url)` resolves to, or `NetworkError` when it rejects. */
  datatype Fetched = Received(response: Response) | NetworkError

  /** The `{ data, eTag }` object `getContent` resolves to. */
  datatype Source = Source(data: string, eTag: string)

  /** The exceptions `getContent` raises. */
  datatype LoadError =
    | ScriptTypeRejected(script: ScriptTag)
    | ResponseTypeRejected(response: Response)
    | FetchFailed(url: string)

  /** `allowedMimeTypes.includes(t)`: an exact, case-sensitive match with one of the four types. */
  predicate Allowed(t: string)
  {
    t in AllowedMimeTypes
  }

  /** `getContent(script)`. */
  function GetContent(script: ScriptTag, fetch: string -> Fetched): Result<Source, LoadError>
  {
    if script.mimeType != "" && !Allowed(script.mimeType) then Err(ScriptTypeRejected(script))
    else if script.text != "" then Ok(Source(script.text, Fingerprint(script.text)))
    else
      match fetch(script.src)
      case NetworkError => Err(FetchFailed(script.src))
      case Received(resp) =>
        if !Allowed(resp.contentType.GetOr("")) then Err(ResponseTypeRejected(resp))
        else Ok(Source(resp.body, resp.eTag.GetOr(Fingerprint(resp.body))))
  }

  // ----- properties -------------------------------------------------------------------

  /**
    The `type` attribute is checked first: a script gets past it exactly when its type is
    empty or one of the allowed ones, and otherwise nothing is fetched and it is rejected.
   */
  lemma ScriptTypeChecked(script: ScriptTag, fetch: string -> Fetched)
    ensures GetContent(script, fetch) == Err(ScriptTypeRejected(script))
        <==> script.mimeType != "" && !Allowed(script.mimeType)
  {
  }

  /**
    An inline script of an acceptable type yields its own text, tagged with its
    fingerprint, whatever the network would answer.
   */
  lemma InlineSource(script: ScriptTag, fetch: string -> Fetched, other: string -> Fetched)
    requires script.mimeType == "" || Allowed(script.mimeType)
    requires script.text != ""
    ensures GetContent(script, fetch) == Ok(Source(script.text, Fingerprint(script.text)))
    ensures GetContent(script, fetch) == GetContent(script, other)
    ensures 7 <= |GetContent(script, fetch).value.eTag| <= 8
  {
    FingerprintLength(script.text);
  }

  /**
    A script without inline text is fetched: it is accepted exactly when the response
    arrives with an allowed Content-Type, and then its body is the data and the ETag header,
    or else the body's fingerprint, is the tag.
   */
  lemma RemoteSource(script: ScriptTag, fetch: string -> Fetched)
    requires script.mimeType == "" || Allowed(script.mimeType)
    requires script.text == ""
    ensures GetContent(script, fetch).Ok?
        <==> fetch(script.src).Received? && Allowed(fetch(script.src).response.contentType.GetOr(""))
    ensures GetContent(script, fetch).Ok? ==>
        var resp := fetch(script.src).response;
        GetContent(script, fetch).value.data == resp.body
        && GetContent(script, fetch).value.eTag == (if resp.eTag.Some? then resp.eTag.value else Fingerprint(resp.body))
  {
  }

  /** Whatever `getContent` returns came from an allowed script type and, if fetched, an allowed response type. */
  lemma AcceptedSourcesAreTypeScript(script: ScriptTag, fetch: string -> Fetched)
    requires GetContent(script, fetch).Ok?
    ensures script.mimeType == "" || Allowed(script.mimeType)
    ensures script.text == "" ==>
              && fetch(script.src).Received?
              && fetch(script.src).response.contentType.Some?
              && Allowed(fetch(script.src).response.contentType.value)
    ensures script.text != "" ==> GetContent(script, fetch).value.data == script.text
  {
  }

  /**
    The allow-list is compared with the whole header: a Content-Type that carries a charset
    parameter is rejected, as is a response without a Content-Type.
   */
  lemma ContentTypeMatchedExactly(script: ScriptTag, body: string)
    requires script.mimeType == "" && script.text == ""
    ensures GetContent(script, _ => Received(Response(Some("text/typescript; charset=utf-8"), None, body))).Err?
    ensures GetContent(script, _ => Received(Response(None, None, body))).Err?
    ensures GetContent(script, _ => Received(Response(Some("text/typescript"), None, body)))
         == Ok(Source(body, Fingerprint(body)))
  {
    assert "text/typescript; charset=utf-8" !in AllowedMimeTypes;
    assert "" !in AllowedMimeTypes;
  }
}
