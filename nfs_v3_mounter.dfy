/**
 * The older option engine of the NFSv3 volume driver, used by the mounter.
 *
 * Here a `Config` holds two maps loaded from the operator's configuration:
 * `sourceOptions` (the share-URL parameters) and `mountOptions` (the
 * `fuse-nfs` flags). Their KEY SETS are the allow-lists: a request may only
 * change the value of a key the operator listed, and the key sets never
 * change. `sloppyMount` turns rejections into warnings.
 */
module NfsV3Mounter {
  import opened Wrappers
  import opened GoStrings
  import opened GoStrconv
  import opened ConfigTokens
  import opened MapRender
  import opened ShareUrl

  /** The only failure of this engine: some option is incompatible (the same text for source and mount). */
  datatype MountError = IncompatibleOptions

  // ---------------------------------------------------------------------
  // Specification functions
  // ---------------------------------------------------------------------

  /**
   * `initSloppyMount`: lenient when the loaded mount options carry
   * `sloppy_mount` with a value `ParseBool` reads as true.
   */
  function InitSloppyMount(mountOptions: map<string, string>): (r: bool)
    ensures r <==> SloppyMountKey in mountOptions && mountOptions[SloppyMountKey] in {"1", "t", "T", "TRUE", "true", "True"}
  {
    if SloppyMountKey in mountOptions then
      match ParseBool(mountOptions[SloppyMountKey])
      case Some(val) => val
      case None => false
    else false
  }

  /** The text `uniformEntry` gives a request value: a string as it is, nothing for other types. */
  function EntryText(v: Value): (r: string)
    ensures v.StrV? ==> r == v.s
    ensures r == "" <==> v.OtherV? || v == StrV("")
  {
    match v
    case IntV(i) => FormatInt(i)
    case StrV(s) => s
    case BoolV(b) => FormatBool(b)
    case OtherV => ""
  }

  /** The request map with every value turned into text. */
  function CleanEntries(entries: map<string, Value>): map<string, string>
  {
    map k | k in entries :: EntryText(entries[k])
  }

  /** Text values read back: a bool as its `ParseBool` spelling, a 16-bit int as its `ParseInt` value. */
  lemma EntryTextReadsBack(v: Value)
    ensures v.BoolV? ==> ParseBool(EntryText(v)) == Some(v.b)
    ensures v.IntV? && MinInt16 <= v.i <= MaxInt16 ==> ParseInt16(EntryText(v)) == Some(v.i)
  {
    match v
    case IntV(i) =>
      if MinInt16 <= i <= MaxInt16 {
        ParseFormatInt16(i);
      }
    case StrV(s) =>
    case BoolV(b) =>
    case OtherV =>
  }

  /** The source options after `filterSource` handled one pair: only a known key with a value is written. */
  function SourceStored(options: map<string, string>, e: Entry): map<string, string>
  {
    if e.value != "" && e.key in options then options[e.key := e.value] else options
  }

  /** The source options after `filterSource` handled the pairs from left to right. */
  function SourceMerged(options: map<string, string>, entries: seq<Entry>): (r: map<string, string>)
    ensures r.Keys == options.Keys
  {
    if entries == [] then options
    else SourceStored(SourceMerged(options, entries[..|entries| - 1]), entries[|entries| - 1])
  }

  /** The keys `filterSource` rejects, in order: those with a value but not a known key. */
  function SourceRejected(keys: set<string>, entries: seq<Entry>): (r: seq<string>)
    ensures forall i :: 0 <= i < |r| ==> r[i] !in keys
  {
    if entries == [] then []
    else
      var e := entries[|entries| - 1];
      SourceRejected(keys, entries[..|entries| - 1]) + (if e.value != "" && e.key !in keys then [e.key] else [])
  }

  /** A `sloppy_mount` entry whose value reads as true: it switches lenient mode on and is not stored. */
  predicate SetsSloppy(k: string, v: string)
  {
    k == SloppyMountKey && ParseBool(v) == Some(true)
  }

  /** Whether `filterMount` stores request value `v` under `k`. */
  predicate MountStores(options: map<string, string>, k: string, v: string)
  {
    v != "" && k in options && !SetsSloppy(k, v)
  }

  /** The (uniformised) request entries `filterMount` stores. */
  function MountAccepted(options: map<string, string>, clean: map<string, string>): map<string, string>
  {
    map k | k in clean && MountStores(options, k, clean[k]) :: clean[k]
  }

  /** The mount options after `filterMount`. */
  function MountMerged(options: map<string, string>, clean: map<string, string>): (r: map<string, string>)
    ensures r.Keys == options.Keys
  {
    options + MountAccepted(options, clean)
  }

  /** The keys `filterMount` rejects: those with a non-empty value but not a known key. */
  function MountRejected(options: map<string, string>, clean: map<string, string>): (r: set<string>)
    ensures forall k :: k in r <==> k in clean && clean[k] != "" && k !in options
  {
    set k | k in clean && clean[k] != "" && k !in options
  }

  /** Whether the request switches lenient mode on through an allowed `sloppy_mount`. */
  predicate MountSetsSloppy(options: map<string, string>, clean: map<string, string>)
  {
    SloppyMountKey in clean && SloppyMountKey in options && SetsSloppy(SloppyMountKey, clean[SloppyMountKey])
  }

  /** How one source option renders in the rebuilt share URL: `k=` and a value, unless it is empty. */
  function ShareParam(k: string, v: string): (r: Option<string>)
    ensures r == None <==> v == ""
    ensures r.Some? ==> |k| + 1 < |r.value| && r.value[..|k| + 1] == k + "="
  {
    if v == "" then None
    else
      match ParseBool(v)
      case Some(b) => Some(k + "=" + (if b then "1" else "0"))
      case None =>
        match ParseInt16(v)
        case Some(n) => Some(k + "=" + FormatInt(n))
        case None => Some(k + "=" + v)
  }

  function ShareParams(options: map<string, string>): map<string, Option<string>>
  {
    map k | k in options :: ShareParam(k, options[k])
  }

  /** How one mount option renders as a `fuse-nfs` flag. */
  function MountParam(k: string, v: string): (r: Option<string>)
    ensures r == None <==> k == SloppyMountKey || v == "" || ParseBool(v) == Some(false)
    ensures r.Some? ==>
      var prefix := (if |k| == 1 then "-" else "--") + k;
      |prefix| <= |r.value| && r.value[..|prefix|] == prefix
  {
    if k == SloppyMountKey || v == "" then None
    else
      var pid := if |k| == 1 then "-" else "--";
      match ParseBool(v)
      case Some(b) => if b then Some(pid + k) else None
      case None =>
        match ParseInt16(v)
        case Some(n) => Some(pid + k + "=" + FormatInt(n))
        case None => Some(pid + k + "=" + v)
  }

  function MountParams(options: map<string, string>): map<string, Option<string>>
  {
    map k | k in options :: MountParam(k, options[k])
  }

  /** The argument list of `Mount`: `-n url -m target`, the flags, and `-a` when nothing else is given. */
  function MountArgs(url: string, target: string, flags: seq<string>, mountOptions: map<string, string>): (r: seq<string>)
    ensures |r| >= 4 && r[..4] == ["-n", url, "-m", target]
    ensures r[4..] == flags + (if flags == [] && "a" !in mountOptions then ["-a"] else [])
  {
    var params := ["-n", url, "-m", target] + flags;
    if "a" !in mountOptions && |params| <= 4 then params + ["-a"] else params
  }

  // ---------------------------------------------------------------------
  // Config
  // ---------------------------------------------------------------------

  class Config {
    var sourceOptions: map<string, string>
    var mountOptions: map<string, string>
    var sloppyMount: bool

    /** `new(Config)`: empty maps, strict mode. */
    constructor ()
      ensures sourceOptions == map[] && mountOptions == map[] && !sloppyMount
    {
      sourceOptions, mountOptions, sloppyMount := map[], map[], false;
    }

    /**
     * What `getConf` does once the configuration file is read: parse the two
     * comma-separated default lists and read the lenient flag.
     */
    method GetConf(srcString: string, mntString: string)
      requires ParseableTokens(Split(srcString, ',')) && ParseableTokens(Split(mntString, ','))
      modifies this
      ensures mountOptions == ParsedConfig(Split(mntString, ','))
      ensures sourceOptions == ParsedConfig(Split(srcString, ','))
      ensures sloppyMount == InitSloppyMount(mountOptions)
    {
      mountOptions := ParseConfig(Split(mntString, ','));
      sourceOptions := ParseConfig(Split(srcString, ','));
      sloppyMount := InitSloppyMount(mountOptions);
    }

    /**
     * `filterSource`: writes the value of every known key with a value, and
     * fails exactly when some key with a value is unknown and lenient mode
     * is off.
     */
    method FilterSource(entryList: seq<string>) returns (res: Outcome<MountError>)
      modifies this
      ensures sourceOptions == SourceMerged(old(sourceOptions), SplitEntries(entryList, '='))
      ensures mountOptions == old(mountOptions) && sloppyMount == old(sloppyMount)
      ensures res.Fail? <==> SourceRejected(old(sourceOptions).Keys, SplitEntries(entryList, '=')) != [] && !sloppyMount
    {
      var errorList: seq<string> := [];
      for i := 0 to |entryList|
        invariant sourceOptions == SourceMerged(old(sourceOptions), SplitEntries(entryList[..i], '='))
        invariant errorList == SourceRejected(old(sourceOptions).Keys, SplitEntries(entryList[..i], '='))
        invariant mountOptions == old(mountOptions) && sloppyMount == old(sloppyMount)
      {
        SplitEntriesSnoc(entryList, '=', i);
        SourceStep(old(sourceOptions), SplitEntries(entryList[..i], '='), SplitEntry(entryList[i], '='));
        var op := SplitN2(entryList[i], '=');
        if |op| < 2 || |op[1]| < 1 || op[1] == "" {
          continue;
        }
        if op[0] !in sourceOptions {
          errorList := errorList + [op[0]];
          continue;
        }
        sourceOptions := sourceOptions[op[0] := op[1]];
      }
      assert entryList[..|entryList|] == entryList;
      if |errorList| > 0 && !sloppyMount {
        return Fail(IncompatibleOptions);
      }
      return Pass;
    }

    /**
     * `filterMount`: uniformises the request, writes the value of every known
     * key with a non-empty value, except that an allowed `sloppy_mount` read
     * as true switches lenient mode on instead; fails exactly when some key
     * with a value is unknown and lenient mode is (then) off.
     */
    method FilterMount(entryList: map<string, Value>) returns (res: Outcome<MountError>)
      modifies this
      ensures mountOptions == MountMerged(old(mountOptions), CleanEntries(entryList))
      ensures sloppyMount == (old(sloppyMount) || MountSetsSloppy(old(mountOptions), CleanEntries(entryList)))
      ensures sourceOptions == old(sourceOptions)
      ensures res.Fail? <==> MountRejected(old(mountOptions), CleanEntries(entryList)) != {} && !sloppyMount
    {
      var cleanEntry := UniformEntry(entryList);
      var errorList := MergeMount(cleanEntry);
      if |errorList| > 0 && !sloppyMount {
        assert errorList[0] in multiset(errorList);
        return Fail(IncompatibleOptions);
      }
      if MountRejected(old(mountOptions), cleanEntry) != {} {
        var k :| k in MountRejected(old(mountOptions), cleanEntry);
        assert k in multiset(errorList);
      }
      return Pass;
    }

    /**
     * The loop of `filterMount` over the uniformised request, in map order;
     * returns the rejected keys.
     */
    method MergeMount(cleanEntry: map<string, string>) returns (errorList: seq<string>)
      modifies this
      ensures mountOptions == MountMerged(old(mountOptions), cleanEntry)
      ensures sloppyMount == (old(sloppyMount) || MountSetsSloppy(old(mountOptions), cleanEntry))
      ensures sourceOptions == old(sourceOptions)
      ensures multiset(errorList) == multiset(MountRejected(old(mountOptions), cleanEntry))
    {
      errorList := [];
      var pending := cleanEntry.Keys;
      while pending != {}
        invariant pending <= cleanEntry.Keys
        invariant mountOptions == MountMerged(old(mountOptions), cleanEntry - pending)
        invariant multiset(errorList) == multiset(MountRejected(old(mountOptions), cleanEntry - pending))
        invariant sloppyMount == (old(sloppyMount) || MountSetsSloppy(old(mountOptions), cleanEntry - pending))
        invariant sourceOptions == old(sourceOptions)
        decreases pending
      {
        var k :| k in pending;
        var v := cleanEntry[k];
        var before := cleanEntry - pending;
        assert cleanEntry - (pending - {k}) == before[k := v];
        MountMergedStep(old(mountOptions), before, k, v);
        MountRejectedStep(old(mountOptions), before, k, v);
        MountSloppyStep(old(mountOptions), before, k, v);
        var rejected := MergeEntry(k, v);
        if rejected {
          errorList := errorList + [k];
        }
        pending := pending - {k};
      }
      assert cleanEntry - {} == cleanEntry;
    }

    /** One step of the `filterMount` loop; reports whether the key is rejected. */
    method MergeEntry(k: string, v: string) returns (rejected: bool)
      modifies this
      ensures mountOptions == if v != "" && k in old(mountOptions) && !SetsSloppy(k, v) then old(mountOptions)[k := v] else old(mountOptions)
      ensures sloppyMount == (old(sloppyMount) || (v != "" && k in old(mountOptions) && SetsSloppy(k, v)))
      ensures rejected == (v != "" && k !in old(mountOptions))
      ensures sourceOptions == old(sourceOptions)
    {
      rejected := false;
      if v == "" {
        return;
      }
      if k !in mountOptions {
        rejected := true;
        return;
      }
      if ParseBool(v) == Some(true) && k == SloppyMountKey {
        sloppyMount := true;
        return;
      }
      mountOptions := mountOptions[k := v];
    }

    /**
     * `makeShare`: merges the query through `filterSource` (the URL is left
     * as it is on failure), then rebuilds it from the text before the first
     * `?` and the rendered source options, dropping the `?` when none render.
     */
    method MakeShare(url: string) returns (newUrl: string, res: Outcome<MountError>)
      modifies this
      ensures sourceOptions == SourceMerged(old(sourceOptions), SharePairs(url))
      ensures mountOptions == old(mountOptions) && sloppyMount == old(sloppyMount)
      ensures res.Fail? <==> SourceRejected(old(sourceOptions).Keys, SharePairs(url)) != [] && !sloppyMount
      ensures res.Fail? ==> newUrl == url
      ensures res.Pass? ==> exists params: seq<string> ::
        multiset(params) == Rendered(ShareParams(sourceOptions)) && newUrl == WithQuery(ShareBase(url), params)
    {
      var srcPart := SplitN2(url, '?');
      if |srcPart| == 1 {
        srcPart := srcPart + [""];
      }
      assert Split(srcPart[1], '&') == QueryPairs(url);
      res := FilterSource(Split(srcPart[1], '&'));
      if res.Fail? {
        return url, res;
      }
      var paramsList := CollectRendered(ShareParams(sourceOptions));
      ghost var base := srcPart[0];
      assert base == ShareBase(url);
      srcPart := srcPart[1 := Join(paramsList, '&')];
      assert srcPart == [base, Join(paramsList, '&')];
      if |srcPart[1]| < 1 {
        newUrl := srcPart[0];
      } else {
        newUrl := Join(srcPart, '?');
        JoinPair(base, Join(paramsList, '&'), '?');
      }
      assert newUrl == WithQuery(ShareBase(url), paramsList);
    }

    /** `getMountOptions`: the mount options rendered as flags, in map order. */
    method GetMountOptions() returns (result: seq<string>)
      ensures multiset(result) == Rendered(MountParams(mountOptions))
    {
      result := CollectRendered(MountParams(mountOptions));
    }
  }

  /** `uniformEntry`: every request value turned into text, in map order; the key set is kept. */
  method UniformEntry(entryList: map<string, Value>) returns (result: map<string, string>)
    ensures result == CleanEntries(entryList)
  {
    result := map[];
    var pending := entryList.Keys;
    while pending != {}
      invariant pending <= entryList.Keys
      invariant result == CleanEntries(entryList - pending)
      decreases pending
    {
      var k :| k in pending;
      var v := entryList[k];
      assert entryList - (pending - {k}) == (entryList - pending)[k := v];
      var value: string;
      match v {
        case IntV(i) => value := FormatInt(i);
        case StrV(s) => value := s;
        case BoolV(b) => value := FormatBool(b);
        case OtherV => value := "";
      }
      result := result[k := value];
      pending := pending - {k};
    }
    assert entryList - {} == entryList;
  }

  /**
   * The part of `Mount` that turns the configuration and a request into the
   * `fuse-nfs` argument list; the configuration file's two strings are
   * parameters and the process call is left to the caller.
   */
  method Mount(srcString: string, mntString: string, source: string, target: string, opts: map<string, Value>)
    returns (r: Result<seq<string>, MountError>)
    requires ParseableTokens(Split(srcString, ',')) && ParseableTokens(Split(mntString, ','))
    ensures MountOutcome(ParsedConfig(Split(srcString, ',')), ParsedConfig(Split(mntString, ',')), source, target, opts, r)
  {
    var myCnf := new Config();
    myCnf.GetConf(srcString, mntString);
    ghost var src, mnt := myCnf.sourceOptions, myCnf.mountOptions;
    var res := myCnf.FilterMount(opts);
    if res.Fail? {
      assert res.error == IncompatibleOptions;
      return Failure(res.error);
    }
    var url, res2 := myCnf.MakeShare(source);
    if res2.Fail? {
      assert res2.error == IncompatibleOptions;
      return Failure(res2.error);
    }
    ghost var sp :| multiset(sp) == Rendered(ShareParams(myCnf.sourceOptions)) && url == WithQuery(ShareBase(source), sp);
    var flags := myCnf.GetMountOptions();
    var mountParams := ["-n", url, "-m", target] + flags;
    if "a" !in myCnf.mountOptions {
      if |mountParams| <= 4 {
        mountParams := mountParams + ["-a"];
      }
    }
    assert mountParams == MountArgs(url, target, flags, myCnf.mountOptions);
    r := Success(mountParams);
    assert SourceMerged(src, SharePairs(source)) == myCnf.sourceOptions;
    assert MountMerged(mnt, CleanEntries(opts)) == myCnf.mountOptions;
    assert MountAssembled(myCnf.sourceOptions, myCnf.mountOptions, source, target, sp, flags, r.value);
    assert src == ParsedConfig(Split(srcString, ','));
    assert mnt == ParsedConfig(Split(mntString, ','));
    assert myCnf.sloppyMount == (InitSloppyMount(mnt) || MountSetsSloppy(mnt, CleanEntries(opts)));
    assert !(MountRejected(mnt, CleanEntries(opts)) != {} && !myCnf.sloppyMount);
    assert !(SourceRejected(src.Keys, SharePairs(source)) != [] && !myCnf.sloppyMount);
  }

  /**
   * The possible results of `Mount` from the loaded source and mount
   * options: the mount request is checked first, then the share URL, then the
   * arguments are assembled from any listing of the rendered options.
   */
  ghost predicate MountOutcome(src: map<string, string>, mnt: map<string, string>, source: string, target: string,
                               opts: map<string, Value>, r: Result<seq<string>, MountError>)
    ensures MountOutcome(src, mnt, source, target, opts, r) ==>
      (r.Failure? <==>
         && (MountRejected(mnt, CleanEntries(opts)) != {} || SourceRejected(src.Keys, SharePairs(source)) != [])
         && !InitSloppyMount(mnt) && !MountSetsSloppy(mnt, CleanEntries(opts)))
  {
    var clean := CleanEntries(opts);
    var sloppy := InitSloppyMount(mnt) || MountSetsSloppy(mnt, clean);
    if MountRejected(mnt, clean) != {} && !sloppy then r == Failure(IncompatibleOptions)
    else if SourceRejected(src.Keys, SharePairs(source)) != [] && !sloppy then r == Failure(IncompatibleOptions)
    else
      var srcFinal := SourceMerged(src, SharePairs(source));
      var mntFinal := MountMerged(mnt, clean);
      r.Success? &&
      exists sp: seq<string>, mp: seq<string> :: MountAssembled(srcFinal, mntFinal, source, target, sp, mp, r.value)
  }

  /** `args` is assembled from listings `sp` and `mp` of the rendered source and mount options. */
  ghost predicate MountAssembled(src: map<string, string>, mnt: map<string, string>, source: string, target: string,
                                 sp: seq<string>, mp: seq<string>, args: seq<string>)
  {
    && multiset(sp) == Rendered(ShareParams(src))
    && multiset(mp) == Rendered(MountParams(mnt))
    && args == MountArgs(WithQuery(ShareBase(source), sp), target, mp, mnt)
  }

  // ---------------------------------------------------------------------
  // Loop steps
  // ---------------------------------------------------------------------

  /** Handling one more pair in `filterSource`. */
  lemma SourceStep(options: map<string, string>, done: seq<Entry>, e: Entry)
    ensures SourceMerged(options, done + [e]) == SourceStored(SourceMerged(options, done), e)
    ensures SourceRejected(options.Keys, done + [e]) ==
      SourceRejected(options.Keys, done) + (if e.value != "" && e.key !in options.Keys then [e.key] else [])
  {
    assert (done + [e])[..|done|] == done;
  }

  /** Handling one more entry in `filterMount`: the stored entries change by at most that entry. */
  lemma MountMergedStep(options: map<string, string>, before: map<string, string>, k: string, v: string)
    requires k !in before
    ensures MountMerged(options, before[k := v]) ==
      if MountStores(options, k, v) then MountMerged(options, before)[k := v] else MountMerged(options, before)
  {
    var accepted := MountAccepted(options, before);
    MountAcceptedStep(options, before, k, v);
    if MountStores(options, k, v) {
      assert options + accepted[k := v] == (options + accepted)[k := v];
    }
  }

  lemma MountAcceptedStep(options: map<string, string>, before: map<string, string>, k: string, v: string)
    requires k !in before
    ensures MountAccepted(options, before[k := v]) ==
      if MountStores(options, k, v) then MountAccepted(options, before)[k := v] else MountAccepted(options, before)
  {
    var after := MountAccepted(options, before[k := v]);
    var accepted := MountAccepted(options, before);
    var expected := if MountStores(options, k, v) then accepted[k := v] else accepted;
    assert after.Keys == expected.Keys;
    assert forall j :: j in after ==> after[j] == expected[j];
  }

  /** Handling one more entry in `filterMount`: the rejected keys grow by at most that key. */
  lemma MountRejectedStep(options: map<string, string>, before: map<string, string>, k: string, v: string)
    requires k !in before
    ensures multiset(MountRejected(options, before[k := v])) ==
      multiset(MountRejected(options, before)) + (if v != "" && k !in options then multiset{k} else multiset{})
  {
    if v != "" && k !in options {
      assert MountRejected(options, before[k := v]) == MountRejected(options, before) + {k};
    } else {
      assert MountRejected(options, before[k := v]) == MountRejected(options, before);
    }
  }

  /** Handling one more entry in `filterMount`: lenient mode is switched on by it or before it. */
  lemma MountSloppyStep(options: map<string, string>, before: map<string, string>, k: string, v: string)
    requires k !in before
    ensures MountSetsSloppy(options, before[k := v]) == (MountSetsSloppy(options, before) || (k in options && SetsSloppy(k, v)))
  {
  }

  // ---------------------------------------------------------------------
  // Properties of the merge
  // ---------------------------------------------------------------------

  /** The last pair with a value for a known key decides that key's source option. */
  lemma {:induction false} SourceMergedLastWins(options: map<string, string>, entries: seq<Entry>, i: nat)
    requires i < |entries| && entries[i].value != "" && entries[i].key in options
    requires forall j :: i < j < |entries| && entries[j].value != "" ==> entries[j].key != entries[i].key
    ensures SourceMerged(options, entries)[entries[i].key] == entries[i].value
  {
    var n := |entries|;
    var init := entries[..n - 1];
    var last := entries[n - 1];
    assert SourceMerged(options, entries) == SourceStored(SourceMerged(options, init), last);
    if i < n - 1 {
      assert init[i] == entries[i];
      assert forall j :: i < j < |init| && init[j].value != "" ==> init[j].key != init[i].key by {
        forall j | i < j < |init| && init[j].value != "" ensures init[j].key != init[i].key {
          assert init[j] == entries[j];
        }
      }
      SourceMergedLastWins(options, init, i);
      assert last.value != "" ==> last.key != entries[i].key;
    }
  }

  /** A source option no pair with a value names keeps its loaded value. */
  lemma {:induction false} SourceMergedKeeps(options: map<string, string>, entries: seq<Entry>, k: string)
    requires k in options
    requires forall j :: 0 <= j < |entries| && entries[j].value != "" ==> entries[j].key != k
    ensures SourceMerged(options, entries)[k] == options[k]
  {
    if entries != [] {
      var init := entries[..|entries| - 1];
      assert forall j :: 0 <= j < |init| ==> init[j] == entries[j];
      SourceMergedKeeps(options, init, k);
    }
  }

  /** `filterSource` rejects nothing exactly when every pair with a value names a known key. */
  lemma {:induction false} SourceNothingRejected(keys: set<string>, entries: seq<Entry>)
    ensures SourceRejected(keys, entries) == [] <==>
      forall i :: 0 <= i < |entries| && entries[i].value != "" ==> entries[i].key in keys
  {
    if entries != [] {
      var init := entries[..|entries| - 1];
      assert forall i :: 0 <= i < |init| ==> init[i] == entries[i];
      SourceNothingRejected(keys, init);
    }
  }

  /** The rejected keys are exactly the keys of the pairs with a value that are not known. */
  lemma {:induction false} SourceRejectedOrigin(keys: set<string>, entries: seq<Entry>, k: string)
    ensures k in SourceRejected(keys, entries) <==>
      exists i :: 0 <= i < |entries| && entries[i].value != "" && entries[i].key !in keys && entries[i].key == k
  {
    if entries != [] {
      var n := |entries|;
      var init := entries[..n - 1];
      assert forall i :: 0 <= i < |init| ==> init[i] == entries[i];
      SourceRejectedOrigin(keys, init, k);
      if exists i :: 0 <= i < n && entries[i].value != "" && entries[i].key !in keys && entries[i].key == k {
        var i :| 0 <= i < n && entries[i].value != "" && entries[i].key !in keys && entries[i].key == k;
        if i < n - 1 {
          assert init[i] == entries[i];
        }
      }
    }
  }

  /**
   * The mount options after `filterMount`, key by key: a known key with a
   * non-empty request value takes it, unless it is the `sloppy_mount` switch;
   * every other key keeps its loaded value.
   */
  lemma MountMergedValues(options: map<string, string>, clean: map<string, string>, k: string)
    requires k in options
    ensures k in clean && clean[k] != "" && !SetsSloppy(k, clean[k]) ==> MountMerged(options, clean)[k] == clean[k]
    ensures k !in clean || clean[k] == "" || SetsSloppy(k, clean[k]) ==> MountMerged(options, clean)[k] == options[k]
  {
  }

  // ---------------------------------------------------------------------
  // Properties of the rendering
  // ---------------------------------------------------------------------

  /**
   * Every source option with a value appears in the share URL as `key=text`,
   * where the text reads back to the same boolean, the same 16-bit integer,
   * or is the value itself.
   */
  lemma ShareParamReadsBack(k: string, v: string)
    ensures v != "" ==> exists w :: (ShareParam(k, v) == Some(k + "=" + w) &&
      (ParseBool(v).Some? ==> ParseBool(w) == ParseBool(v)) &&
      (ParseBool(v).None? && ParseInt16(v).Some? ==> ParseInt16(w) == ParseInt16(v)) &&
      (ParseBool(v).None? && ParseInt16(v).None? ==> w == v))
  {
    if v != "" {
      match ParseBool(v)
      case Some(b) =>
        var w := if b then "1" else "0";
        assert ParseBool(w) == Some(b);
        assert ShareParam(k, v) == Some(k + "=" + w);
      case None =>
        match ParseInt16(v)
        case Some(n) =>
          ParseIntNormalises(v);
          assert ShareParam(k, v) == Some(k + "=" + FormatInt(n));
        case None =>
          assert ShareParam(k, v) == Some(k + "=" + v);
    }
  }

}
