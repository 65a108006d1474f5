/**
 * The CORS origin callback of the server, with the configuration defaults it
 * reads: `NODE_ENV` (default `development`) and `WHITELIST_ORIGIN` (default
 * `*`). The rest of the server file (listening, connecting, shutting down) is
 * not modelled.
 */
module Server {
  import opened Wrappers
  import opened Text

  /** `process.env.X || default`: an unset or empty variable takes the default. */
  function EnvOr(v: Option<string>, default: string): (r: string)
    ensures v.Some? && v.value != "" ==> r == v.value
    ensures v.None? || v.value == "" ==> r == default
  {
    if v.Some? && v.value != "" then v.value else default
  }

  const DefaultNodeEnv: string := "development"
  const DefaultWhitelistOrigin: string := "*"

  /** What the origin callback hands to the CORS middleware: allow, or an error naming the origin. */
  datatype CorsDecision = Allow | Reject(error: string)

  function CorsRejectMessage(origin: string): string {
    "CORS error: " + origin + " is not allowed by CORS."
  }

  /**
   * The origin callback: any origin in development, no (or an empty) origin
   * always, otherwise only an origin that is a SUBSTRING of the whitelist
   * string; everything else is rejected with an error naming it.
   */
  function CorsOrigin(nodeEnv: string, whitelist: string, origin: Option<string>): (d: CorsDecision)
    ensures nodeEnv == "development" ==> d == Allow
    ensures origin.None? || origin.value == "" ==> d == Allow
    ensures origin.Some? && Includes(whitelist, origin.value) ==> d == Allow
    ensures d.Reject? <==>
      nodeEnv != "development" && origin.Some? && origin.value != "" && !Includes(whitelist, origin.value)
    ensures d.Reject? ==> d.error == CorsRejectMessage(origin.value)
  {
    if nodeEnv == "development" || origin.None? || origin.value == "" || Includes(whitelist, origin.value) then Allow
    else Reject(CorsRejectMessage(origin.value))
  }

  /** With `NODE_ENV` unset or empty, the server runs as development and allows every origin. */
  lemma UnsetNodeEnvAllowsAll(nodeEnv: Option<string>, whitelist: string, origin: Option<string>)
    requires nodeEnv.None? || nodeEnv.value == ""
    ensures CorsOrigin(EnvOr(nodeEnv, DefaultNodeEnv), whitelist, origin) == Allow
  {
  }

  /** The only non-empty origin the default whitelist `*` lets through outside development is `*` itself. */
  lemma DefaultWhitelistRejects(nodeEnv: string, origin: string)
    requires nodeEnv != "development" && origin != "" && origin != "*"
    ensures CorsOrigin(nodeEnv, EnvOr(None, DefaultWhitelistOrigin), Some(origin)) == Reject(CorsRejectMessage(origin))
  {
    IncludedInOneChar('*', origin);
  }

  /** The only strings a one-character string includes are the empty string and itself. */
  lemma IncludedInOneChar(c: char, x: string)
    ensures Includes([c], x) ==> x == "" || x == [c]
  {
    if Includes([c], x) {
      var i := IndexOf([c], x).value;
      assert OccursAt([c], x, i);
    }
  }

  /** Outside development, every piece of the whitelist string is an allowed origin, not only the listed origins. */
  lemma WhitelistPiecesAllowed(nodeEnv: string, pre: string, origin: string, post: string)
    ensures CorsOrigin(nodeEnv, pre + origin + post, Some(origin)) == Allow
  {
    IncludesPiece(pre, origin, post);
  }
}
