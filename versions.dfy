/**
 * How the two option engines relate. The mounter's engine is the older one.
 * The two agree on how request values become text, on how a mount flag with
 * a value and a long name renders, and on how a share query is merged. They
 * differ on empty values, one-letter flags, booleans in the share URL, empty
 * option names, and on an operator default `sloppy_mount`, which only the
 * older engine still honours when a request is checked.
 */
module Versions {
  import opened Wrappers
  import opened GoStrings
  import opened GoStrconv
  import opened ConfigTokens
  import opened NfsV3Config
  import opened NfsV3Mounter

  /** Both engines turn a request value into the same text when booleans are kept as words. */
  lemma RequestTextAgrees(v: Value)
    ensures EntryText(v) == UniformData(v, false)
    ensures v.BoolV? ==> UniformData(v, true) != EntryText(v)
  {
  }

  /**
   * When the configuration is loaded, both engines read the operator's
   * `sloppy_mount` default the same way, whether or not the key is allowed
   * (the current engine keeps it in `options` or in `forced` accordingly).
   */
  lemma SloppyAgrees(parsed: map<string, string>, allowed: seq<string>)
    ensures InitSloppyMount(parsed) == SloppyValue(DefaultOptions(parsed, allowed), DefaultForced(parsed, allowed))
  {
    if SloppyMountKey in parsed && parsed[SloppyMountKey] == "" {
      assert ParseBool("") == None;
    }
  }

  /**
   * The older engine keeps the operator's `sloppy_mount` in its mount
   * options: when it reads as true, a mount never fails, whatever the
   * request and the share URL carry.
   */
  lemma OperatorSloppyLenient(src: map<string, string>, mnt: map<string, string>, source: string, target: string,
                              opts: map<string, Value>, r: Result<seq<string>, MountError>)
    requires InitSloppyMount(mnt) && MountOutcome(src, mnt, source, target, opts, r)
    ensures r.Success?
  {
  }

  /**
   * The current engine takes `sloppy_mount` out of both maps when it reads
   * it, so when `setEntries` reads it again only the request can supply it:
   * without a `sloppy_mount` in the request the mode is strict.
   */
  lemma SloppyForgotten(options: map<string, string>, forced: map<string, string>, allowed: seq<string>,
                        opts: map<string, Value>, ignoreList: seq<string>)
    requires SloppyMountKey !in opts
    ensures !SloppyValue(MapMerged(options - {SloppyMountKey}, allowed, opts, ignoreList), forced - {SloppyMountKey})
  {
    MapMergedContents(options - {SloppyMountKey}, allowed, opts, ignoreList, SloppyMountKey);
  }

  /**
   * The difference in action: whatever the operator's defaults, and so even
   * when the flag `loaded` at construction is true, the current engine
   * refuses a request carrying a key that no allow-list holds.
   */
  method OperatorSloppyForgotten(sourceFlag: seq<string>, mountFlag: seq<string>, share: string, key: string, value: Value)
    returns (loaded: bool, res: Outcome<NegotiationError>)
    requires |sourceFlag| >= 2 && |mountFlag| >= 2
    requires ParseableTokens(Split(sourceFlag[1], ',')) && ParseableTokens(Split(mountFlag[1], ','))
    requires key != SloppyMountKey && key !in Split(sourceFlag[0], ',') && key !in Split(mountFlag[0], ',')
    ensures loaded == InitSloppyMount(ParsedConfig(Split(mountFlag[1], ',')))
    ensures res.Fail? && res.error.NotAllowed? && key in res.error.rejected
  {
    var c := new NfsV3Config.Config.NewNfsV3Config(sourceFlag, mountFlag);
    loaded := c.sloppyMount;
    var parsed, allowed := ParsedConfig(Split(mountFlag[1], ',')), Split(mountFlag[0], ',');
    SloppyAgrees(parsed, allowed);
    SloppyForgotten(DefaultOptions(parsed, allowed), DefaultForced(parsed, allowed), allowed, map[key := value], []);
    res := c.SetEntries(share, map[key := value], []);
    assert !c.sloppyMount;
    assert key in RequestRejected(map[key := value], [], c.source.allowed, c.mount.allowed);
    assert key in Rejections(share, map[key := value], [], c.source.allowed, c.mount.allowed);
  }

  /** A mount flag renders the same in both engines unless its value is empty or its name is one letter. */
  lemma MountFlagAgrees(k: string, v: string)
    requires v != "" && |k| != 1
    ensures MountParam(k, v) == FlagParam("--", k, v)
  {
  }

  /** The older engine drops an empty value; the current one renders it as `--key=`. */
  lemma EmptyFlagDiffers(k: string)
    requires k != SloppyMountKey
    ensures MountParam(k, "") == None
    ensures FlagParam("--", k, "") == Some("--" + k + "=")
  {
    assert ParseBool("") == None;
    assert "--" + k + "=" + "" == "--" + k + "=";
  }

  /** The older engine gives a one-letter option a single dash; the current one uses the prefix it is given. */
  lemma ShortFlagDiffers(k: string, v: string)
    requires |k| == 1 && k != SloppyMountKey && ParseBool(v) == Some(true)
    ensures MountParam(k, v) == Some("-" + k)
    ensures FlagParam("--", k, v) == Some("--" + k)
  {
  }

  /**
   * In the share URL the older engine writes a boolean as `key=1` or `key=0`;
   * the current engine writes a true one as the bare key and drops a false
   * one. Other values render the same.
   */
  lemma ShareParamVersions(k: string, v: string)
    requires v != "" && k != SloppyMountKey
    ensures ParseBool(v).None? ==> ShareParam(k, v) == FlagParam("", k, v)
    ensures ParseBool(v) == Some(true) ==> ShareParam(k, v) == Some(k + "=1") && FlagParam("", k, v) == Some(k)
    ensures ParseBool(v) == Some(false) ==> ShareParam(k, v) == Some(k + "=0") && FlagParam("", k, v) == None
  {
    assert k + "=" + "1" == k + "=1" && k + "=" + "0" == k + "=0";
    assert "" + k == k;
  }

  /**
   * When the allow-list is the key set of the loaded options and nothing is
   * ignored, both engines merge a share URL's pairs into the same options.
   */
  lemma {:induction false} ShareMergeAgrees(options: map<string, string>, allowed: seq<string>, pairs: seq<Entry>)
    requires forall k :: k in allowed <==> k in options
    ensures SourceMerged(options, pairs) == UrlMerged(options, allowed, pairs, [])
  {
    if pairs != [] {
      var init := pairs[..|pairs| - 1];
      ShareMergeAgrees(options, allowed, init);
    }
  }

  /** With no empty option name among the pairs, both engines reject the same names in the same order. */
  lemma {:induction false} ShareRejectAgrees(options: map<string, string>, allowed: seq<string>, pairs: seq<Entry>)
    requires forall k :: k in allowed <==> k in options
    requires forall i :: 0 <= i < |pairs| ==> pairs[i].key != ""
    ensures SourceRejected(options.Keys, pairs) == UrlRejected(allowed, pairs, [])
  {
    if pairs != [] {
      var init := pairs[..|pairs| - 1];
      assert forall i :: 0 <= i < |init| ==> init[i] == pairs[i];
      ShareRejectAgrees(options, allowed, init);
    }
  }

  /** A pair with a value and an empty name (`=x`) is rejected by the older engine only. */
  lemma EmptyNameDiffers()
    ensures SourceRejected({}, [Entry("", "x")]) == [""]
    ensures UrlRejected([], [Entry("", "x")], []) == []
  {
    assert [Entry("", "x")][..0] == [];
  }
}
