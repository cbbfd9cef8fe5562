/**
 * The current option-negotiation engine of the NFSv3 volume driver.
 *
 * A `ConfigDetails` holds, for one target (the share URL or the mount
 * command line), the operator's allow-list, the operator defaults for keys
 * that are NOT allowed (`forced`, which a request can never change), the
 * resolved values of allowed keys (`options`) and the keys that must be
 * resolved (`mandatory`). A `Config` pairs the two and decides per request
 * which caller-supplied options are accepted.
 */
module NfsV3Config {
  import opened Wrappers
  import opened GoStrings
  import opened GoStrconv
  import opened ConfigTokens
  import opened MapRender
  import opened ShareUrl

  /** The failure of a negotiation: its kind and the offending keys. */
  datatype NegotiationError =
    | NotAllowed(rejected: multiset<string>)
    | MissingMandatory(missing: seq<string>)

  /** `inArray`: linear membership test on a Go slice. */
  function InArray(list: seq<string>, key: string): (r: bool)
    ensures r <==> key in list
  {
    if list == [] then false
    else list[0] == key || InArray(list[1..], key)
  }

  // ---------------------------------------------------------------------
  // Type uniformisation
  // ---------------------------------------------------------------------

  /** The keys whose booleans are spelled "1"/"0" instead of "true"/"false". */
  const BoolAsIntKeys: seq<string> := ["auto-traverse-mounts", "dircache"]

  /**
   * `uniformData`: the canonical string of a request value. Integers become
   * their decimal text, strings stay as they are, booleans become "1"/"0"
   * when `boolAsInt` is set and "true"/"false" otherwise, and a value of any
   * other type becomes "", which callers treat as absent.
   */
  function UniformData(data: Value, boolAsInt: bool): (r: string)
    ensures data.StrV? ==> r == data.s
    ensures r == "" <==> data.OtherV? || data == StrV("")
  {
    match data
    case IntV(n) => FormatInt(n)
    case StrV(s) => s
    case BoolV(b) => if boolAsInt then (if b then "1" else "0") else FormatBool(b)
    case OtherV => ""
  }

  /**
   * What the uniformised text means to the renderer: a boolean reads back
   * as itself under `ParseBool` in both spellings, a 16-bit integer reads
   * back as itself under `ParseInt`, and an integer's text is a boolean to
   * `ParseBool` only for 0 and 1.
   */
  lemma UniformDataReadsBack(data: Value, boolAsInt: bool)
    ensures data.BoolV? ==> ParseBool(UniformData(data, boolAsInt)) == Some(data.b)
    ensures data.BoolV? ==> (|UniformData(data, boolAsInt)| == 1 <==> boolAsInt)
    ensures data.IntV? ==> (ParseBool(UniformData(data, boolAsInt)).Some? <==> data.i == 0 || data.i == 1)
    ensures data.IntV? && MinInt16 <= data.i <= MaxInt16 ==> ParseInt16(UniformData(data, boolAsInt)) == Some(data.i)
  {
    if data.IntV? {
      FormatIntAsBool(data.i);
      if MinInt16 <= data.i <= MaxInt16 {
        ParseFormatInt16(data.i);
      }
    }
  }

  /**
   * `uniformKeyData`: uniformisation whose boolean spelling depends on the
   * key; only booleans are affected by the key.
   */
  function UniformKeyData(key: string, data: Value): (r: string)
    ensures !data.BoolV? ==> r == UniformData(data, false)
    ensures data.BoolV? && key !in BoolAsIntKeys ==> r == FormatBool(data.b)
    ensures data.BoolV? && key in BoolAsIntKeys ==> r == (if data.b then "1" else "0")
  {
    match key
    case "auto-traverse-mounts" => UniformData(data, true)
    case "dircache" => UniformData(data, true)
    case _ => UniformData(data, false)
  }

  // ---------------------------------------------------------------------
  // Specification of the operations on one ConfigDetails
  // ---------------------------------------------------------------------

  /** The operator defaults whose keys are allowed: overridable by requests. */
  function DefaultOptions(parsed: map<string, string>, allowed: seq<string>): map<string, string>
  {
    map k | k in parsed && k in allowed :: parsed[k]
  }

  /** The operator defaults whose keys are not allowed: fixed. */
  function DefaultForced(parsed: map<string, string>, allowed: seq<string>): map<string, string>
  {
    map k | k in parsed && k !in allowed :: parsed[k]
  }

  /** Every parsed default lands in exactly one of the two maps. */
  lemma DefaultsPartition(parsed: map<string, string>, allowed: seq<string>)
    ensures DefaultOptions(parsed, allowed).Keys !! DefaultForced(parsed, allowed).Keys
    ensures DefaultOptions(parsed, allowed) + DefaultForced(parsed, allowed) == parsed
    ensures forall k :: k in DefaultOptions(parsed, allowed) ==> k in allowed
    ensures forall k :: k in DefaultForced(parsed, allowed) ==> k !in allowed
  {
  }

  /** The mandatory keys resolved in neither map, in the order of `mandatory`. */
  function MissingKeys(mandatory: seq<string>, options: map<string, string>, forced: map<string, string>): (r: seq<string>)
    ensures forall k :: k in r <==> k in mandatory && k !in options && k !in forced
    ensures |r| <= |mandatory|
  {
    if mandatory == [] then []
    else
      var k := mandatory[|mandatory| - 1];
      assert forall j :: j in mandatory <==> j in mandatory[..|mandatory| - 1] || j == k;
      MissingKeys(mandatory[..|mandatory| - 1], options, forced) + (if k !in options && k !in forced then [k] else [])
  }

  /**
   * The lenient flag a pair of maps carries: the forced `sloppy_mount` value
   * wins over the resolved one; an absent, empty or unparsable value means
   * not lenient.
   */
  function SloppyValue(options: map<string, string>, forced: map<string, string>): (r: bool)
    ensures SloppyMountKey in forced ==> (r <==> ParseBool(forced[SloppyMountKey]) == Some(true))
    ensures SloppyMountKey !in forced && SloppyMountKey in options ==> (r <==> ParseBool(options[SloppyMountKey]) == Some(true))
    ensures SloppyMountKey !in forced && SloppyMountKey !in options ==> !r
  {
    var spm :=
      if SloppyMountKey in forced then forced[SloppyMountKey]
      else if SloppyMountKey in options then options[SloppyMountKey]
      else "";
    |spm| > 0 && ParseBool(spm) == Some(true)
  }

  /** A request value `parseMap` considers: non-empty once uniformised, key not ignored. */
  predicate MapConsidered(k: string, v: Value, ignoreList: seq<string>)
  {
    UniformData(v, false) != "" && k !in ignoreList
  }

  /** The resolved options after `parseMap` merged `entries`. */
  function MapMerged(options: map<string, string>, allowed: seq<string>, entries: map<string, Value>, ignoreList: seq<string>): (r: map<string, string>)
    ensures options.Keys <= r.Keys
  {
    options + MapAccepted(allowed, entries, ignoreList)
  }

  /**
   * `parseMap` stores exactly the considered entries with allowed keys,
   * uniformised, keeps every other resolved value, and adds no other key.
   */
  lemma MapMergedContents(options: map<string, string>, allowed: seq<string>, entries: map<string, Value>, ignoreList: seq<string>, k: string)
    ensures k in MapMerged(options, allowed, entries, ignoreList) ==> k in options || k in allowed
    ensures k in entries && MapConsidered(k, entries[k], ignoreList) && k in allowed ==>
      k in MapMerged(options, allowed, entries, ignoreList) && MapMerged(options, allowed, entries, ignoreList)[k] == UniformData(entries[k], false)
    ensures k in options && !(k in entries && MapConsidered(k, entries[k], ignoreList) && k in allowed) ==>
      k in MapMerged(options, allowed, entries, ignoreList) && MapMerged(options, allowed, entries, ignoreList)[k] == options[k]
  {
  }

  /** The keys `parseMap` rejects. */
  function MapRejected(allowed: seq<string>, entries: map<string, Value>, ignoreList: seq<string>): (r: set<string>)
    ensures forall k :: k in r <==> k in entries && MapConsidered(k, entries[k], ignoreList) && k !in allowed
  {
    set k | k in entries && MapConsidered(k, entries[k], ignoreList) && k !in allowed
  }

  /** A pair `parseUrlParams` looks at: a non-empty value and a key not ignored. */
  predicate PairConsidered(p: Entry, ignoreList: seq<string>)
  {
    p.value != "" && p.key !in ignoreList
  }

  /** A pair `parseUrlParams` stores: looked at, and its key is allowed. */
  predicate PairStores(allowed: seq<string>, p: Entry, ignoreList: seq<string>)
  {
    PairConsidered(p, ignoreList) && p.key in allowed
  }

  /**
   * The resolved options after `parseUrlParams` handled one pair. The source
   * stores the value through `uniformKeyData`, which leaves a string as it is.
   */
  function PairStored(options: map<string, string>, allowed: seq<string>, p: Entry, ignoreList: seq<string>): map<string, string>
  {
    if PairStores(allowed, p, ignoreList) then options[p.key := p.value] else options
  }

  /** The key `parseUrlParams` returns as rejected, or "" for none. */
  function PairRejected(allowed: seq<string>, p: Entry, ignoreList: seq<string>): string
  {
    if PairConsidered(p, ignoreList) && p.key !in allowed then p.key else ""
  }

  /** The resolved options after the pairs were handled from left to right. */
  function UrlMerged(options: map<string, string>, allowed: seq<string>, pairs: seq<Entry>, ignoreList: seq<string>): (r: map<string, string>)
    ensures forall k :: k in r ==> k in options || k in allowed
  {
    if pairs == [] then options
    else PairStored(UrlMerged(options, allowed, pairs[..|pairs| - 1], ignoreList), allowed, pairs[|pairs| - 1], ignoreList)
  }

  /** The non-empty rejected keys of the pairs, in order (a key may repeat). */
  function UrlRejected(allowed: seq<string>, pairs: seq<Entry>, ignoreList: seq<string>): (r: seq<string>)
    ensures forall i :: 0 <= i < |r| ==> r[i] != "" && r[i] !in allowed && r[i] !in ignoreList
  {
    if pairs == [] then []
    else
      var key := PairRejected(allowed, pairs[|pairs| - 1], ignoreList);
      UrlRejected(allowed, pairs[..|pairs| - 1], ignoreList) + (if |key| > 0 then [key] else [])
  }

  /** The request keys `setEntries` rejects: those in no allow-list and not ignored. */
  function RequestRejected(opts: map<string, Value>, ignoreList: seq<string>, sourceAllowed: seq<string>, mountAllowed: seq<string>): (r: set<string>)
    ensures forall k :: k in r <==> k in opts && k !in ignoreList && k !in sourceAllowed && k !in mountAllowed
  {
    set k | k in opts && k !in ignoreList + sourceAllowed + mountAllowed
  }

  /**
   * How one entry of the merged view renders under `makeParams(prefix)`:
   * nothing for `sloppy_mount` and for a false boolean, otherwise a
   * parameter starting with the prefixed key.
   */
  function FlagParam(prefix: string, k: string, v: string): (r: Option<string>)
    ensures r == None <==> k == SloppyMountKey || ParseBool(v) == Some(false)
    ensures r.Some? ==> |prefix + k| <= |r.value| && r.value[..|prefix + k|] == prefix + k
  {
    if k == SloppyMountKey then None
    else
      match ParseBool(v)
      case Some(b) => if b then Some(prefix + k) else None
      case None =>
        match ParseInt16(v)
        case Some(n) => Some(prefix + k + "=" + FormatInt(n))
        case None => Some(prefix + k + "=" + v)
  }

  function FlagParams(config: map<string, string>, prefix: string): map<string, Option<string>>
  {
    map k | k in config :: FlagParam(prefix, k, config[k])
  }

  // ---------------------------------------------------------------------
  // ConfigDetails
  // ---------------------------------------------------------------------

  class ConfigDetails {
    var allowed: seq<string>
    var forced: map<string, string>
    var options: map<string, string>
    var mandatory: seq<string>

    /** Resolved keys are allowed, forced keys are not; hence the two maps are disjoint. */
    ghost predicate Valid()
      reads this
    {
      && (forall k :: k in options ==> k in allowed)
      && (forall k :: k in forced ==> k !in allowed)
    }

    /** The zero value of the Go struct. */
    constructor ()
      ensures allowed == [] && forced == map[] && options == map[] && mandatory == []
      ensures Valid()
    {
      allowed, forced, options, mandatory := [], map[], map[], [];
    }

    /** `readConfAllowed`: the allow-list is the comma-separated list (empty entries kept). */
    method ReadConfAllowed(flagString: string)
      modifies this
      ensures allowed == Split(flagString, ',')
      ensures forced == old(forced) && options == old(options) && mandatory == old(mandatory)
    {
      allowed := Split(flagString, ',');
    }

    /**
     * `readConfDefault`: parses the defaults and moves every non-allowed key
     * from `options` to `forced`.
     */
    method ReadConfDefault(flagString: string)
      requires ParseableTokens(Split(flagString, ','))
      modifies this
      ensures allowed == old(allowed) && mandatory == old(mandatory)
      ensures options == DefaultOptions(ParsedConfig(Split(flagString, ',')), allowed)
      ensures forced == DefaultForced(ParsedConfig(Split(flagString, ',')), allowed)
      ensures Valid()
    {
      options := ParseConfig(Split(flagString, ','));
      forced := map[];
      MoveForced();
    }

    /** The loop of `readConfDefault`: every resolved key that is not allowed moves to `forced`. */
    method MoveForced()
      requires forced == map[]
      modifies this
      ensures allowed == old(allowed) && mandatory == old(mandatory)
      ensures options == DefaultOptions(old(options), allowed)
      ensures forced == DefaultForced(old(options), allowed)
      ensures Valid()
    {
      ghost var parsed := options;
      assert options == PendingOptions(parsed, allowed, parsed.Keys);
      assert forced == PendingForced(parsed, allowed, parsed.Keys);
      var pending := options.Keys;
      while pending != {}
        invariant pending <= parsed.Keys
        invariant options == PendingOptions(parsed, allowed, pending)
        invariant forced == PendingForced(parsed, allowed, pending)
        invariant allowed == old(allowed) && mandatory == old(mandatory)
        decreases pending
      {
        var k :| k in pending;
        DefaultStep(parsed, allowed, pending, k);
        var v := options[k];
        if !InArray(allowed, k) {
          forced := forced[k := v];
          options := options - {k};
        }
        pending := pending - {k};
      }
      assert options == PendingOptions(parsed, allowed, {});
    }

    /** `getMissMandatory`: the mandatory keys resolved nowhere. */
    method GetMissMandatory() returns (result: seq<string>)
      ensures result == MissingKeys(mandatory, options, forced)
    {
      result := [];
      for i := 0 to |mandatory|
        invariant result == MissingKeys(mandatory[..i], options, forced)
      {
        assert mandatory[..i + 1][..i] == mandatory[..i];
        var k := mandatory[i];
        var oko := k in options;
        var okf := k in forced;
        if !okf && !oko {
          result := result + [k];
        }
      }
      assert mandatory[..|mandatory|] == mandatory;
    }

    /** `isSloppyMount`: a destructive read of the lenient flag from both maps. */
    method IsSloppyMount() returns (sloppy: bool)
      modifies this
      ensures sloppy == SloppyValue(old(options), old(forced))
      ensures options == old(options) - {SloppyMountKey} && forced == old(forced) - {SloppyMountKey}
      ensures allowed == old(allowed) && mandatory == old(mandatory)
      ensures old(Valid()) ==> Valid()
    {
      var spm := "";
      if SloppyMountKey in options {
        spm := options[SloppyMountKey];
        options := options - {SloppyMountKey};
      }
      if SloppyMountKey in forced {
        spm := forced[SloppyMountKey];
        forced := forced - {SloppyMountKey};
      }
      if |spm| > 0 {
        var val := ParseBool(spm);
        if val.Some? {
          return val.value;
        }
      }
      return false;
    }

    /** `parseUrlParams`: one `key=value` pair of the share URL. */
    method ParseUrlParams(urlParams: string, ignoreList: seq<string>) returns (key: string)
      modifies this
      ensures options == PairStored(old(options), allowed, SplitEntry(urlParams, '='), ignoreList)
      ensures key == PairRejected(allowed, SplitEntry(urlParams, '='), ignoreList)
      ensures allowed == old(allowed) && forced == old(forced) && mandatory == old(mandatory)
    {
      var op := SplitN2(urlParams, '=');
      if |op| < 2 || |op[1]| < 1 || op[1] == "" || InArray(ignoreList, op[0]) {
        return "";
      }
      if InArray(allowed, op[0]) {
        options := options[op[0] := UniformKeyData(op[0], StrV(op[1]))];
        return "";
      }
      return op[0];
    }

    /** `parseUrl`: merges the query of a share URL, returning the rejected keys. */
    method ParseUrl(url: string, ignoreList: seq<string>) returns (errorList: seq<string>)
      modifies this
      ensures options == UrlMerged(old(options), allowed, SharePairs(url), ignoreList)
      ensures errorList == UrlRejected(allowed, SharePairs(url), ignoreList)
      ensures allowed == old(allowed) && forced == old(forced) && mandatory == old(mandatory)
      ensures old(Valid()) ==> Valid()
    {
      var part := SplitN2(url, '?');
      if |part| < 2 {
        part := part + [""];
      }
      var pairs := Split(part[1], '&');
      assert pairs == QueryPairs(url);
      errorList := ParsePairs(pairs, ignoreList);
    }

    /** The loop of `parseUrl`: `parseUrlParams` on each pair, from left to right. */
    method ParsePairs(pairs: seq<string>, ignoreList: seq<string>) returns (errorList: seq<string>)
      modifies this
      ensures options == UrlMerged(old(options), allowed, SplitEntries(pairs, '='), ignoreList)
      ensures errorList == UrlRejected(allowed, SplitEntries(pairs, '='), ignoreList)
      ensures allowed == old(allowed) && forced == old(forced) && mandatory == old(mandatory)
      ensures old(Valid()) ==> Valid()
    {
      errorList := [];
      for i := 0 to |pairs|
        invariant options == UrlMerged(old(options), allowed, SplitEntries(pairs[..i], '='), ignoreList)
        invariant errorList == UrlRejected(allowed, SplitEntries(pairs[..i], '='), ignoreList)
        invariant allowed == old(allowed) && forced == old(forced) && mandatory == old(mandatory)
      {
        SplitEntriesSnoc(pairs, '=', i);
        UrlStep(old(options), allowed, SplitEntries(pairs[..i], '='), SplitEntry(pairs[i], '='), ignoreList);
        var key := ParseUrlParams(pairs[i], ignoreList);
        if |key| > 0 {
          errorList := errorList + [key];
        }
      }
      assert pairs[..|pairs|] == pairs;
    }

    /** `parseMap`: merges a request's option map, returning the rejected keys. */
    method ParseMap(entryList: map<string, Value>, ignoreList: seq<string>) returns (errorList: seq<string>)
      modifies this
      ensures options == MapMerged(old(options), allowed, entryList, ignoreList)
      ensures multiset(errorList) == multiset(MapRejected(allowed, entryList, ignoreList))
      ensures allowed == old(allowed) && forced == old(forced) && mandatory == old(mandatory)
      ensures old(Valid()) ==> Valid()
    {
      errorList := [];
      var pending := entryList.Keys;
      while pending != {}
        invariant pending <= entryList.Keys
        invariant options == MapMerged(old(options), allowed, entryList - pending, ignoreList)
        invariant multiset(errorList) == multiset(MapRejected(allowed, entryList - pending, ignoreList))
        invariant allowed == old(allowed) && forced == old(forced) && mandatory == old(mandatory)
        decreases pending
      {
        var k :| k in pending;
        var v := entryList[k];
        assert entryList - (pending - {k}) == (entryList - pending)[k := v];
        MapMergedStep(old(options), allowed, entryList - pending, k, v, ignoreList);
        MapRejectedStep(allowed, entryList - pending, k, v, ignoreList);
        var value := UniformData(v, false);
        if value == "" || InArray(ignoreList, k) {
          assert !MapConsidered(k, v, ignoreList);
        } else if InArray(allowed, k) {
          options := options[k := value];
        } else {
          errorList := errorList + [k];
        }
        pending := pending - {k};
      }
      assert entryList - {} == entryList;
    }

    /** `makeConfig`: the merged view of resolved and forced values; forced wins. */
    function MakeConfig(): (r: map<string, string>)
      reads this
      ensures r.Keys == options.Keys + forced.Keys
      ensures forall k :: k in forced ==> r[k] == forced[k]
      ensures forall k :: k in options && k !in forced ==> r[k] == options[k]
    {
      options + forced
    }

    /** `makeParams`: the rendered parameters, in the map's unspecified order. */
    method MakeParams(prefix: string) returns (params: seq<string>)
      ensures multiset(params) == Rendered(FlagParams(MakeConfig(), prefix))
    {
      params := CollectRendered(FlagParams(MakeConfig(), prefix));
    }
  }

  // ---------------------------------------------------------------------
  // Config: the share-URL details and the mount details together
  // ---------------------------------------------------------------------

  /** Every key `setEntries` rejects: those the URL query rejects, then the request's unknown keys. */
  function Rejections(share: string, opts: map<string, Value>, ignoreList: seq<string>,
                      sourceAllowed: seq<string>, mountAllowed: seq<string>): multiset<string>
  {
    multiset(UrlRejected(sourceAllowed, SharePairs(share), ignoreList)) +
    multiset(RequestRejected(opts, ignoreList, sourceAllowed, mountAllowed))
  }

  /** The loop of `setEntries` over the request: every key not in `allowed`, in map order. */
  method UnknownKeys(opts: map<string, Value>, allowed: seq<string>) returns (errorList: seq<string>)
    ensures multiset(errorList) == multiset(set k | k in opts && k !in allowed)
  {
    errorList := [];
    var pending := opts.Keys;
    while pending != {}
      invariant pending <= opts.Keys
      invariant multiset(errorList) == multiset(set k | k in opts && k !in pending && k !in allowed)
      decreases pending
    {
      var k :| k in pending;
      if !InArray(allowed, k) {
        assert (set j | j in opts && j !in pending - {k} && j !in allowed) ==
               (set j | j in opts && j !in pending && j !in allowed) + {k};
        errorList := errorList + [k];
      } else {
        assert (set j | j in opts && j !in pending - {k} && j !in allowed) ==
               (set j | j in opts && j !in pending && j !in allowed);
      }
      pending := pending - {k};
    }
  }

  class Config {
    const source: ConfigDetails
    const mount: ConfigDetails
    var sloppyMount: bool

    ghost predicate Valid()
      reads this, source, mount
    {
      source != mount && source.Valid() && mount.Valid()
    }

    /**
     * `NewNfsV3Config`: element 0 of each flag list is the allow-list and
     * element 1 the defaults; the mount details lose their `sloppy_mount`
     * default to the lenient flag, and no key is mandatory.
     */
    constructor NewNfsV3Config(sourceFlag: seq<string>, mountFlag: seq<string>)
      requires |sourceFlag| >= 2 && |mountFlag| >= 2
      requires ParseableTokens(Split(sourceFlag[1], ',')) && ParseableTokens(Split(mountFlag[1], ','))
      ensures Valid() && fresh(source) && fresh(mount)
      ensures source.allowed == Split(sourceFlag[0], ',') && mount.allowed == Split(mountFlag[0], ',')
      ensures source.options == DefaultOptions(ParsedConfig(Split(sourceFlag[1], ',')), source.allowed)
      ensures source.forced == DefaultForced(ParsedConfig(Split(sourceFlag[1], ',')), source.allowed)
      ensures mount.options == DefaultOptions(ParsedConfig(Split(mountFlag[1], ',')), mount.allowed) - {SloppyMountKey}
      ensures mount.forced == DefaultForced(ParsedConfig(Split(mountFlag[1], ',')), mount.allowed) - {SloppyMountKey}
      ensures sloppyMount == SloppyValue(DefaultOptions(ParsedConfig(Split(mountFlag[1], ',')), mount.allowed),
                                         DefaultForced(ParsedConfig(Split(mountFlag[1], ',')), mount.allowed))
      ensures source.mandatory == [] && mount.mandatory == []
    {
      source := new ConfigDetails();
      mount := new ConfigDetails();
      new;
      ReadConfAllowed(sourceFlag[0], mountFlag[0]);
      ReadConfDefault(sourceFlag[1], mountFlag[1]);
      source.mandatory := [];
    }

    /** `readConfAllowed` of both details. */
    method ReadConfAllowed(sourceFlag: string, mountFlag: string)
      requires source != mount
      modifies source, mount
      ensures source.allowed == Split(sourceFlag, ',') && mount.allowed == Split(mountFlag, ',')
      ensures source.options == old(source.options) && source.forced == old(source.forced)
      ensures mount.options == old(mount.options) && mount.forced == old(mount.forced)
      ensures source.mandatory == old(source.mandatory) && mount.mandatory == old(mount.mandatory)
    {
      source.ReadConfAllowed(sourceFlag);
      mount.ReadConfAllowed(mountFlag);
    }

    /** `readConfDefault` of both details, then the lenient flag is read out of the mount details. */
    method ReadConfDefault(sourceFlag: string, mountFlag: string)
      requires source != mount
      requires ParseableTokens(Split(sourceFlag, ',')) && ParseableTokens(Split(mountFlag, ','))
      modifies this, source, mount
      ensures Valid()
      ensures source.allowed == old(source.allowed) && mount.allowed == old(mount.allowed)
      ensures source.mandatory == old(source.mandatory) && mount.mandatory == old(mount.mandatory)
      ensures source.options == DefaultOptions(ParsedConfig(Split(sourceFlag, ',')), source.allowed)
      ensures source.forced == DefaultForced(ParsedConfig(Split(sourceFlag, ',')), source.allowed)
      ensures mount.options == DefaultOptions(ParsedConfig(Split(mountFlag, ',')), mount.allowed) - {SloppyMountKey}
      ensures mount.forced == DefaultForced(ParsedConfig(Split(mountFlag, ',')), mount.allowed) - {SloppyMountKey}
      ensures sloppyMount == SloppyValue(DefaultOptions(ParsedConfig(Split(mountFlag, ',')), mount.allowed),
                                         DefaultForced(ParsedConfig(Split(mountFlag, ',')), mount.allowed))
    {
      source.ReadConfDefault(sourceFlag);
      mount.ReadConfDefault(mountFlag);
      sloppyMount := mount.IsSloppyMount();
    }

    /**
     * `setEntries`: merges a request into both details and decides it. The
     * request fails as not allowed exactly when some key was rejected and the
     * (recomputed) lenient flag is off; otherwise it fails as missing
     * mandatory keys exactly when some mandatory key is resolved nowhere,
     * whatever the lenient flag says.
     */
    method SetEntries(share: string, opts: map<string, Value>, ignoreList: seq<string>) returns (res: Outcome<NegotiationError>)
      requires Valid()
      modifies this, source, mount
      ensures Valid()
      ensures source.allowed == old(source.allowed) && mount.allowed == old(mount.allowed)
      ensures source.mandatory == old(source.mandatory) && mount.mandatory == old(mount.mandatory)
      ensures source.options ==
        UrlMerged(MapMerged(old(source.options), source.allowed, opts, ignoreList), source.allowed, SharePairs(share), ignoreList)
      ensures source.forced == old(source.forced)
      ensures mount.options == MapMerged(old(mount.options), mount.allowed, opts, ignoreList) - {SloppyMountKey}
      ensures mount.forced == old(mount.forced) - {SloppyMountKey}
      ensures sloppyMount == SloppyValue(MapMerged(old(mount.options), mount.allowed, opts, ignoreList), old(mount.forced))
      ensures var rejected := Rejections(share, opts, ignoreList, source.allowed, mount.allowed);
              var missing := MissingKeys(source.mandatory, source.options, source.forced) +
                             MissingKeys(mount.mandatory, mount.options, mount.forced);
        && (res.Fail? && res.error.NotAllowed? <==> rejected != multiset{} && !sloppyMount)
        && (res.Fail? && res.error.NotAllowed? ==> res.error.rejected == rejected)
        && (res.Fail? && res.error.MissingMandatory? <==> (rejected == multiset{} || sloppyMount) && missing != [])
        && (res.Fail? && res.error.MissingMandatory? ==> res.error.missing == missing)
    {
      var _ := source.ParseMap(opts, ignoreList);
      var _ := mount.ParseMap(opts, ignoreList);

      var allowed := ignoreList + source.allowed + mount.allowed;
      var errorList := source.ParseUrl(share, ignoreList);
      sloppyMount := mount.IsSloppyMount();

      var unknown := UnknownKeys(opts, allowed);
      errorList := errorList + unknown;
      assert multiset(errorList) == Rejections(share, opts, ignoreList, source.allowed, mount.allowed);

      if |errorList| > 0 && sloppyMount != true {
        return Fail(NotAllowed(multiset(errorList)));
      }
      var missSource := source.GetMissMandatory();
      var missMount := mount.GetMissMandatory();
      var mdtErr := missSource + missMount;
      if |mdtErr| > 0 {
        return Fail(MissingMandatory(mdtErr));
      }
      return Pass;
    }

    /**
     * `getShare`: the text before the first `?` of the share URL, followed by
     * `?` and the rendered source parameters joined with `&`, or by nothing
     * when those join to "".
     */
    method GetShare(share: string) returns (r: string)
      ensures exists params: seq<string> ::
        multiset(params) == Rendered(FlagParams(source.MakeConfig(), "")) && r == WithQuery(ShareBase(share), params)
    {
      var srcPart := SplitN2(share, '?');
      if |srcPart| < 2 {
        srcPart := srcPart + [""];
      }
      var params := source.MakeParams("");
      ghost var base := srcPart[0];
      assert base == ShareBase(share);
      srcPart := srcPart[1 := Join(params, '&')];
      assert srcPart == [base, Join(params, '&')];
      if |srcPart[1]| < 1 {
        srcPart := srcPart[..|srcPart| - 1];
        assert srcPart == [base];
      } else {
        JoinPair(base, Join(params, '&'), '?');
      }
      r := Join(srcPart, '?');
      assert r == WithQuery(ShareBase(share), params);
    }

    /** `getMount`: the mount parameters rendered as `--key` / `--key=value` flags. */
    method GetMount() returns (params: seq<string>)
      ensures multiset(params) == Rendered(FlagParams(mount.MakeConfig(), "--"))
    {
      params := mount.MakeParams("--");
    }

    /** `getMountConfig`: the merged view of the mount details. */
    function GetMountConfig(): (r: map<string, string>)
      reads mount
      ensures r.Keys == mount.options.Keys + mount.forced.Keys
      ensures forall k :: k in mount.forced ==> r[k] == mount.forced[k]
    {
      mount.MakeConfig()
    }
  }

  /** `readConfDefault` part way: keys still pending are in `options` whether allowed or not. */
  function PendingOptions(parsed: map<string, string>, allowed: seq<string>, pending: set<string>): map<string, string>
  {
    map k | k in parsed && (k in pending || k in allowed) :: parsed[k]
  }

  /** `readConfDefault` part way: the handled non-allowed keys. */
  function PendingForced(parsed: map<string, string>, allowed: seq<string>, pending: set<string>): map<string, string>
  {
    map k | k in parsed && k !in pending && k !in allowed :: parsed[k]
  }

  /** One step of `readConfDefault`'s loop: key `k` stays if allowed and moves to `forced` otherwise. */
  lemma DefaultStep(parsed: map<string, string>, allowed: seq<string>, pending: set<string>, k: string)
    requires pending <= parsed.Keys && k in pending
    ensures k in PendingOptions(parsed, allowed, pending) && PendingOptions(parsed, allowed, pending)[k] == parsed[k]
    ensures k in allowed ==> PendingOptions(parsed, allowed, pending - {k}) == PendingOptions(parsed, allowed, pending)
    ensures k in allowed ==> PendingForced(parsed, allowed, pending - {k}) == PendingForced(parsed, allowed, pending)
    ensures k !in allowed ==> PendingOptions(parsed, allowed, pending - {k}) == PendingOptions(parsed, allowed, pending) - {k}
    ensures k !in allowed ==> PendingForced(parsed, allowed, pending - {k}) == PendingForced(parsed, allowed, pending)[k := parsed[k]]
  {
  }

  /** The entries `parseMap` stores. */
  function MapAccepted(allowed: seq<string>, entries: map<string, Value>, ignoreList: seq<string>): map<string, string>
  {
    map k | k in entries && MapConsidered(k, entries[k], ignoreList) && k in allowed :: UniformData(entries[k], false)
  }

  /** One step of `parseMap`'s loop: handling key `k` next changes the stored entries by at most `k`. */
  lemma MapAcceptedStep(allowed: seq<string>, before: map<string, Value>, k: string, v: Value, ignoreList: seq<string>)
    requires k !in before
    ensures MapAccepted(allowed, before[k := v], ignoreList) ==
      if MapConsidered(k, v, ignoreList) && k in allowed
      then MapAccepted(allowed, before, ignoreList)[k := UniformData(v, false)]
      else MapAccepted(allowed, before, ignoreList)
  {
  }

  lemma MapMergedStep(options: map<string, string>, allowed: seq<string>, before: map<string, Value>, k: string, v: Value, ignoreList: seq<string>)
    requires k !in before
    ensures MapMerged(options, allowed, before[k := v], ignoreList) ==
      if MapConsidered(k, v, ignoreList) && k in allowed
      then MapMerged(options, allowed, before, ignoreList)[k := UniformData(v, false)]
      else MapMerged(options, allowed, before, ignoreList)
  {
    MapAcceptedStep(allowed, before, k, v, ignoreList);
  }

  /** One step of `parseMap`'s loop: handling key `k` next adds at most `k` to the rejected keys. */
  lemma MapRejectedStep(allowed: seq<string>, before: map<string, Value>, k: string, v: Value, ignoreList: seq<string>)
    requires k !in before
    ensures multiset(MapRejected(allowed, before[k := v], ignoreList)) ==
      multiset(MapRejected(allowed, before, ignoreList)) +
      (if MapConsidered(k, v, ignoreList) && k !in allowed then multiset{k} else multiset{})
  {
    if MapConsidered(k, v, ignoreList) && k !in allowed {
      assert MapRejected(allowed, before[k := v], ignoreList) == MapRejected(allowed, before, ignoreList) + {k};
    } else {
      assert MapRejected(allowed, before[k := v], ignoreList) == MapRejected(allowed, before, ignoreList);
    }
  }

  // ---------------------------------------------------------------------
  // Properties of URL merging
  // ---------------------------------------------------------------------

  /** Handling one more pair: the folds advance by that pair. */
  lemma UrlStep(options: map<string, string>, allowed: seq<string>, done: seq<Entry>, p: Entry, ignoreList: seq<string>)
    ensures UrlMerged(options, allowed, done + [p], ignoreList) ==
      PairStored(UrlMerged(options, allowed, done, ignoreList), allowed, p, ignoreList)
    ensures UrlRejected(allowed, done + [p], ignoreList) ==
      UrlRejected(allowed, done, ignoreList) + (if PairRejected(allowed, p, ignoreList) != "" then [PairRejected(allowed, p, ignoreList)] else [])
  {
    assert (done + [p])[..|done|] == done;
  }

  /** The keys rejected by `parseUrl` are exactly the non-empty keys rejected by some pair. */
  lemma {:induction false} UrlRejectedKeys(allowed: seq<string>, pairs: seq<Entry>, ignoreList: seq<string>)
    ensures (set k | k in UrlRejected(allowed, pairs, ignoreList)) ==
      set i | 0 <= i < |pairs| && PairRejected(allowed, pairs[i], ignoreList) != "" :: PairRejected(allowed, pairs[i], ignoreList)
  {
    if pairs != [] {
      var n := |pairs|;
      var init := pairs[..n - 1];
      assert forall i :: 0 <= i < |init| ==> init[i] == pairs[i];
      UrlRejectedKeys(allowed, init, ignoreList);
      var last := PairRejected(allowed, pairs[n - 1], ignoreList);
      var whole := set i | 0 <= i < n && PairRejected(allowed, pairs[i], ignoreList) != "" :: PairRejected(allowed, pairs[i], ignoreList);
      var front := set i | 0 <= i < n - 1 && PairRejected(allowed, init[i], ignoreList) != "" :: PairRejected(allowed, init[i], ignoreList);
      assert whole == front + (if last == "" then {} else {last}) by {
        forall k | k in whole ensures k in front + (if last == "" then {} else {last}) {
          var i :| 0 <= i < n && PairRejected(allowed, pairs[i], ignoreList) != "" && PairRejected(allowed, pairs[i], ignoreList) == k;
          if i < n - 1 {
            assert PairRejected(allowed, init[i], ignoreList) == k;
          }
        }
      }
    }
  }

  /** The keys resolved after `parseUrl`: the earlier ones and those of the storing pairs. */
  lemma {:induction false} UrlMergedKeys(options: map<string, string>, allowed: seq<string>, pairs: seq<Entry>, ignoreList: seq<string>)
    ensures UrlMerged(options, allowed, pairs, ignoreList).Keys ==
      options.Keys + set i | 0 <= i < |pairs| && PairStores(allowed, pairs[i], ignoreList) :: pairs[i].key
  {
    if pairs != [] {
      var n := |pairs|;
      var init := pairs[..n - 1];
      assert forall i :: 0 <= i < |init| ==> init[i] == pairs[i];
      UrlMergedKeys(options, allowed, init, ignoreList);
      var whole := set i | 0 <= i < n && PairStores(allowed, pairs[i], ignoreList) :: pairs[i].key;
      var front := set i | 0 <= i < n - 1 && PairStores(allowed, init[i], ignoreList) :: init[i].key;
      var lastKeys := if PairStores(allowed, pairs[n - 1], ignoreList) then {pairs[n - 1].key} else {};
      assert whole == front + lastKeys by {
        forall k | k in whole ensures k in front + lastKeys {
          var i :| 0 <= i < n && PairStores(allowed, pairs[i], ignoreList) && pairs[i].key == k;
          if i < n - 1 {
            assert init[i].key == k;
          }
        }
      }
    }
  }

  /** A key stored by several pairs gets the value of the LAST of them. */
  lemma {:induction false} UrlMergedLastWins(options: map<string, string>, allowed: seq<string>, pairs: seq<Entry>, ignoreList: seq<string>, i: nat)
    requires i < |pairs| && PairStores(allowed, pairs[i], ignoreList)
    requires forall j :: i < j < |pairs| && PairStores(allowed, pairs[j], ignoreList) ==> pairs[j].key != pairs[i].key
    ensures pairs[i].key in UrlMerged(options, allowed, pairs, ignoreList)
    ensures UrlMerged(options, allowed, pairs, ignoreList)[pairs[i].key] == pairs[i].value
  {
    var n := |pairs|;
    if i < n - 1 {
      var init := pairs[..n - 1];
      assert forall j :: 0 <= j < |init| ==> init[j] == pairs[j];
      UrlMergedLastWins(options, allowed, init, ignoreList, i);
    }
  }

  /** A key no pair stores keeps its earlier value (or stays absent). */
  lemma {:induction false} UrlMergedKeeps(options: map<string, string>, allowed: seq<string>, pairs: seq<Entry>, ignoreList: seq<string>, k: string)
    requires forall j :: 0 <= j < |pairs| && PairStores(allowed, pairs[j], ignoreList) ==> pairs[j].key != k
    ensures k in UrlMerged(options, allowed, pairs, ignoreList) <==> k in options
    ensures k in options ==> UrlMerged(options, allowed, pairs, ignoreList)[k] == options[k]
  {
    if pairs != [] {
      var n := |pairs|;
      var init := pairs[..n - 1];
      assert forall j :: 0 <= j < |init| ==> init[j] == pairs[j];
      UrlMergedKeeps(options, allowed, init, ignoreList, k);
    }
  }

  /** `parseUrl` rejects nothing exactly when every pair looked at has an allowed (or empty) key. */
  lemma {:induction false} UrlNothingRejected(allowed: seq<string>, pairs: seq<Entry>, ignoreList: seq<string>)
    ensures UrlRejected(allowed, pairs, ignoreList) == [] <==>
      forall i :: 0 <= i < |pairs| && PairConsidered(pairs[i], ignoreList) ==> pairs[i].key in allowed || pairs[i].key == ""
  {
    if pairs != [] {
      var n := |pairs|;
      var init := pairs[..n - 1];
      assert forall i :: 0 <= i < |init| ==> init[i] == pairs[i];
      assert pairs == init + [pairs[n - 1]];
      UrlStep(map[], allowed, init, pairs[n - 1], ignoreList);
      UrlNothingRejected(allowed, init, ignoreList);
    }
  }

  /**
   * A request passes the unknown-key check exactly when every request key is
   * ignored or allowed somewhere and every pair of the share URL's query that
   * is looked at has an allowed share key (or an empty key).
   */
  lemma NothingRejectedIff(share: string, opts: map<string, Value>, ignoreList: seq<string>,
                           sourceAllowed: seq<string>, mountAllowed: seq<string>)
    ensures Rejections(share, opts, ignoreList, sourceAllowed, mountAllowed) == multiset{} <==>
      && (forall k :: k in opts ==> k in ignoreList || k in sourceAllowed || k in mountAllowed)
      && (forall i :: 0 <= i < |SharePairs(share)| && PairConsidered(SharePairs(share)[i], ignoreList) ==>
            SharePairs(share)[i].key in sourceAllowed || SharePairs(share)[i].key == "")
  {
    UrlNothingRejected(sourceAllowed, SharePairs(share), ignoreList);
    var req := RequestRejected(opts, ignoreList, sourceAllowed, mountAllowed);
    if req != {} {
      var k :| k in req;
      assert k in multiset(req);
    }
  }

  // ---------------------------------------------------------------------
  // Properties of rendering
  // ---------------------------------------------------------------------

  /** An entry that renders to nothing can be dropped without changing the output. */
  lemma RenderedWithoutSilent(config: map<string, string>, prefix: string, k: string)
    requires k in config && FlagParam(prefix, k, config[k]) == None
    ensures Rendered(FlagParams(config, prefix)) == Rendered(FlagParams(config - {k}, prefix))
  {
    RenderedRemove(FlagParams(config, prefix), k);
    assert FlagParams(config, prefix) - {k} == FlagParams(config - {k}, prefix);
  }

  /** `sloppy_mount` never reaches the output, whatever its value. */
  lemma SloppyMountNeverRendered(config: map<string, string>, prefix: string)
    ensures Rendered(FlagParams(config, prefix)) == Rendered(FlagParams(config - {SloppyMountKey}, prefix))
  {
    if SloppyMountKey in config {
      RenderedWithoutSilent(config, prefix, SloppyMountKey);
    } else {
      assert config - {SloppyMountKey} == config;
    }
  }

  /**
   * The rendering rules of `makeParams`, entry by entry: a false boolean
   * renders as nothing, a true one as the bare `prefix+key`, a 16-bit integer
   * as `prefix+key=` and its normalised decimal text, anything else literally.
   */
  lemma FlagRendering(config: map<string, string>, prefix: string, k: string)
    requires k in config && k != SloppyMountKey
    ensures ParseBool(config[k]) == Some(false) ==>
      Rendered(FlagParams(config, prefix)) == Rendered(FlagParams(config - {k}, prefix))
    ensures ParseBool(config[k]) == Some(true) ==> prefix + k in Rendered(FlagParams(config, prefix))
    ensures ParseBool(config[k]).None? && ParseInt16(config[k]).Some? ==>
      prefix + k + "=" + FormatInt(ParseInt16(config[k]).value) in Rendered(FlagParams(config, prefix)) &&
      ParseInt16(FormatInt(ParseInt16(config[k]).value)) == ParseInt16(config[k])
    ensures ParseBool(config[k]).None? && ParseInt16(config[k]).None? ==>
      prefix + k + "=" + config[k] in Rendered(FlagParams(config, prefix))
  {
    var params := FlagParams(config, prefix);
    if ParseBool(config[k]) == Some(false) {
      RenderedWithoutSilent(config, prefix, k);
    } else {
      assert params[k].Some?;
      RenderedMember(params, params[k].value);
      if ParseBool(config[k]).None? && ParseInt16(config[k]).Some? {
        ParseIntNormalises(config[k]);
      }
    }
  }

  /** Every rendered parameter comes from a non-`sloppy_mount` entry. */
  lemma RenderedOrigin(config: map<string, string>, prefix: string, p: string)
    requires p in Rendered(FlagParams(config, prefix))
    ensures exists k :: k in config && k != SloppyMountKey && FlagParam(prefix, k, config[k]) == Some(p)
  {
    RenderedMember(FlagParams(config, prefix), p);
  }
}
