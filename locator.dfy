/**
 * The segment URL rule of the status handler: a reference whose first four
 * characters are "http" is fetched as it is; any other reference is joined
 * to the job's full manifest URL with one "/". The rule slices the reference
 * before it tests it, so short references make it panic.
 */
module Locator {
  import opened Common

  const Scheme := "http"
  const SecureScheme := "https"

  /**
   * Resolves one non-empty slot of the slot list. The second test, for
   * "https", can never succeed once the first has failed; the contract states
   * the rule without it.
   */
  function Resolve(manifestUrl: string, ref: string): (r: Result<string>)
    ensures r.Ok? <==> |Scheme| <= |ref| && (HasPrefix(ref, Scheme) || |SecureScheme| <= |ref|)
    ensures r.Err? ==> r.failure == Panicked(UrlSlice(ref))
    ensures r.Ok? ==> r.value == if HasPrefix(ref, Scheme) then ref else manifestUrl + "/" + ref
  {
    // `fileString[:4] == "http" || fileString[:5] == "https"`, each slice checked
    if |ref| < |Scheme| || (ref[..|Scheme|] != Scheme && |ref| < |SecureScheme|) then
      Err(Panicked(UrlSlice(ref)))
    else if ref[..|Scheme|] == Scheme || ref[..|SecureScheme|] == SecureScheme then
      Ok(ref)
    else
      Ok(manifestUrl + "/" + ref)
  }

  /**
   * Job URLs are fetched addresses, so they start with "http": then every
   * resolved address starts with "http" and resolving it again changes nothing.
   */
  lemma ResolveIdempotent(manifestUrl: string, ref: string)
    requires HasPrefix(manifestUrl, Scheme)
    requires Resolve(manifestUrl, ref).Ok?
    ensures HasPrefix(Resolve(manifestUrl, ref).value, Scheme)
    ensures Resolve(manifestUrl, Resolve(manifestUrl, ref).value) == Resolve(manifestUrl, ref)
  {
    var url := Resolve(manifestUrl, ref).value;
    if !HasPrefix(ref, Scheme) {
      assert url[..|Scheme|] == manifestUrl[..|Scheme|];
    }
  }

  /** The resolved address always ends with the reference itself. */
  lemma ResolveEndsWithReference(manifestUrl: string, ref: string)
    requires Resolve(manifestUrl, ref).Ok?
    ensures var url := Resolve(manifestUrl, ref).value;
            |ref| <= |url| && url[|url| - |ref|..] == ref
  {
    var url := Resolve(manifestUrl, ref).value;
    if !HasPrefix(ref, Scheme) {
      assert url == (manifestUrl + "/") + ref;
    }
  }

  /**
   * A relative reference is joined to the manifest URL itself, not to its
   * directory, and a four-character relative reference such as "a.ts"
   * panics on the five-character slice.
   */
  lemma JoinExamples()
    ensures Resolve("https://cdn.example.com/show/index.m3u8", "seg0.ts")
         == Ok("https://cdn.example.com/show/index.m3u8/seg0.ts")
    ensures Resolve("https://cdn.example.com/show/index.m3u8", "https://other.example.com/x.ts")
         == Ok("https://other.example.com/x.ts")
    ensures Resolve("https://cdn.example.com/show/index.m3u8", "a.ts") == Err(Panicked(UrlSlice("a.ts")))
  {
    assert "seg0.ts"[..4][0] != Scheme[0];
    assert "https://cdn.example.com/show/index.m3u8" + "/" + "seg0.ts"
        == "https://cdn.example.com/show/index.m3u8/seg0.ts";
    assert "a.ts"[0] != Scheme[0];
    assert "https://other.example.com/x.ts"[..4] == Scheme;
  }
}
