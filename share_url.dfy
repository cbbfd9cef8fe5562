/**
 * Share URLs, shared by both versions of the engine: the text before the
 * first `?` names the export, and the query after it is a list of
 * `key=value` pairs joined with `&`.
 */
module ShareUrl {
  import opened GoStrings
  import opened ConfigTokens

  /** The pairs of a share URL's query: after the first `?`, split on `&`. */
  function QueryPairs(url: string): seq<string>
  {
    var part := SplitN2(url, '?');
    Split(if |part| == 2 then part[1] else "", '&')
  }

  /** The text of a share URL before its first `?`. */
  function ShareBase(url: string): string
  {
    SplitN2(url, '?')[0]
  }

  /** The pairs of a share URL's query, each split at its first `=`. */
  function SharePairs(url: string): seq<Entry>
  {
    SplitEntries(QueryPairs(url), '=')
  }

  /** A share URL with its query replaced by the joined parameters; no `?` when they join to "". */
  function WithQuery(base: string, params: seq<string>): string
  {
    var query := Join(params, '&');
    if |query| < 1 then base else base + "?" + query
  }

  lemma {:induction false} IndexOfAfterPrefix(base: string, c: char, rest: string)
    requires c !in base
    ensures c in base + [c] + rest && IndexOf(base + [c] + rest, c) == |base|
  {
    if base != [] {
      assert (base + [c] + rest)[1..] == base[1..] + [c] + rest;
      IndexOfAfterPrefix(base[1..], c, rest);
    }
  }

  /**
   * A rebuilt share URL keeps the text before the first `?`, and when the
   * parameters contain no `&` its query splits back into them.
   */
  lemma ShareRoundTrip(base: string, params: seq<string>)
    requires '?' !in base
    ensures ShareBase(WithQuery(base, params)) == base
    ensures Join(params, '&') != "" && (forall i :: 0 <= i < |params| ==> '&' !in params[i]) ==>
      QueryPairs(WithQuery(base, params)) == params
  {
    var query := Join(params, '&');
    if query != "" {
      IndexOfAfterPrefix(base, '?', query);
      var url := WithQuery(base, params);
      assert url == base + ['?'] + query;
      assert SplitN2(url, '?') == [base, query] by {
        assert url[..|base|] == base;
        assert url[|base| + 1..] == query;
      }
      if forall i :: 0 <= i < |params| ==> '&' !in params[i] {
        assert params != [];
        SplitJoin(params, '&');
      }
    }
  }

  /** The text before the first `?` never contains a `?`, so rebuilding a share URL keeps it exactly. */
  lemma ShareBaseStable(share: string, params: seq<string>)
    ensures ShareBase(WithQuery(ShareBase(share), params)) == ShareBase(share)
  {
    ShareRoundTrip(ShareBase(share), params);
  }
}
