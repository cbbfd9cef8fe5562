/**
 * The mount scenarios the mounter's own test suite describes, stated over
 * `MountOutcome`. The YAML file the tests load is not part of this model, so
 * each scenario states as a precondition the loaded configuration it needs.
 */
module MounterScenarios {
  import opened Wrappers
  import opened GoStrings
  import opened GoStrconv
  import opened ConfigTokens
  import opened MapRender
  import opened ShareUrl
  import opened NfsV3Mounter

  /** Loaded options that carry no value: nothing of them is rendered. */
  predicate AllEmpty(options: map<string, string>)
  {
    forall k :: k in options ==> options[k] == ""
  }

  /** A share without a query: no pair survives, the share keeps its text. */
  lemma PlainShare(source: string)
    requires '?' !in source
    ensures SharePairs(source) == [Entry("", "")]
    ensures ShareBase(source) == source
  {
    SplitNoSeparator("", '&');
    assert QueryPairs(source) == [""];
  }

  /** Nothing rendered, nothing listed. */
  lemma EmptyListing(m: map<string, Option<string>>, s: seq<string>)
    requires forall k :: k in m ==> m[k] == None
    requires multiset(s) == Rendered(m)
    ensures s == []
  {
    RenderedEmpty(m);
  }

  /** Neither check of `Mount` fails: the request is clean or lenient mode is on. */
  predicate Admitted(src: map<string, string>, mnt: map<string, string>, source: string, opts: map<string, Value>)
  {
    var sloppy := InitSloppyMount(mnt) || MountSetsSloppy(mnt, CleanEntries(opts));
    (MountRejected(mnt, CleanEntries(opts)) == {} || sloppy) &&
    (SourceRejected(src.Keys, SharePairs(source)) == [] || sloppy)
  }

  /** When neither check fails, `Mount` assembles its arguments from listings of the merged options. */
  lemma OutcomeListing(src: map<string, string>, mnt: map<string, string>, source: string, target: string,
                       opts: map<string, Value>, r: Result<seq<string>, MountError>)
    returns (sp: seq<string>, mp: seq<string>)
    requires MountOutcome(src, mnt, source, target, opts, r) && Admitted(src, mnt, source, opts)
    ensures r.Success?
    ensures MountAssembled(SourceMerged(src, SharePairs(source)), MountMerged(mnt, CleanEntries(opts)),
                           source, target, sp, mp, r.value)
  {
    sp, mp :| MountAssembled(SourceMerged(src, SharePairs(source)), MountMerged(mnt, CleanEntries(opts)),
                             source, target, sp, mp, r.value);
  }

  /** A share without a query leaves the source options as loaded and rejects nothing. */
  lemma PlainShareKeeps(src: map<string, string>, source: string)
    requires '?' !in source
    ensures SourceMerged(src, SharePairs(source)) == src
    ensures SourceRejected(src.Keys, SharePairs(source)) == []
  {
    PlainShare(source);
    var pairs := SharePairs(source);
    assert pairs[..|pairs| - 1] == [];
  }

  /** A request without options changes and rejects nothing. */
  lemma EmptyRequest(mnt: map<string, string>)
    ensures CleanEntries(map[]) == map[]
    ensures MountRejected(mnt, map[]) == {} && MountMerged(mnt, map[]) == mnt
  {
    assert MountAccepted(mnt, map[]) == map[];
  }

  /** Loaded options with empty values, no `a` key, and a share without a query. */
  predicate PlainConfig(src: map<string, string>, mnt: map<string, string>, source: string)
  {
    AllEmpty(src) && AllEmpty(mnt) && "a" !in mnt && '?' !in source
  }

  /** The arguments assembled from options that render nothing. */
  lemma AssembledPlain(src: map<string, string>, mnt: map<string, string>, source: string, target: string,
                       sp: seq<string>, mp: seq<string>, args: seq<string>)
    requires PlainConfig(src, mnt, source) && MountAssembled(src, mnt, source, target, sp, mp, args)
    ensures args == ["-n", source, "-m", target, "-a"]
  {
    PlainShare(source);
    assert forall k :: k in ShareParams(src) ==> ShareParams(src)[k] == None;
    EmptyListing(ShareParams(src), sp);
    assert forall k :: k in MountParams(mnt) ==> MountParams(mnt)[k] == None;
    EmptyListing(MountParams(mnt), mp);
    assert WithQuery(ShareBase(source), sp) == source;
    assert ["-n", source, "-m", target] + [] + ["-a"] == ["-n", source, "-m", target, "-a"];
  }

  /**
   * A request without options on a share without a query, under a
   * configuration whose options all have empty values and no `a` key, mounts
   * with `-n source -m target -a`.
   */
  lemma MountWithoutOptions(src: map<string, string>, mnt: map<string, string>, source: string, target: string,
                            r: Result<seq<string>, MountError>)
    requires PlainConfig(src, mnt, source)
    requires MountOutcome(src, mnt, source, target, map[], r)
    ensures r == Success(["-n", source, "-m", target, "-a"])
  {
    PlainShareKeeps(src, source);
    EmptyRequest(mnt);
    var sp, mp := OutcomeListing(src, mnt, source, target, map[], r);
    AssembledPlain(src, mnt, source, target, sp, mp, r.value);
  }

  /**
   * The option names of the lenient-mount scenarios: five distinct names, none
   * of them `sloppy_mount` and none one letter long, so each renders with `--`.
   */
  predicate ScenarioKeys(dp: string, mt: string, uid: string, gid: string, unknown: string)
  {
    && dp != mt && dp != uid && dp != gid && dp != unknown
    && mt != uid && mt != gid && mt != unknown
    && uid != gid && uid != unknown
    && gid != unknown
    && SloppyMountKey !in {dp, mt, uid, gid, unknown}
    && |dp| != 1 && |mt| != 1 && |uid| != 1 && |gid| != 1
  }

  /** The configuration the scenarios assume: the four known options and `sloppy_mount`, none with a default. */
  function ScenarioMount(dp: string, mt: string, uid: string, gid: string): map<string, string>
  {
    map[dp := "", mt := "", uid := "", gid := "", SloppyMountKey := ""]
  }

  /**
   * The request of the scenarios: a true boolean, the text `false`, a
   * 16-bit number once as text and once as an integer, an unknown option
   * with a value, and `sloppy_mount` as the text `true` when `sloppy` holds.
   */
  function ScenarioRequest(dp: string, mt: string, uid: string, gid: string, unknown: string, n: int, sloppy: bool)
    : map<string, Value>
  {
    var request := map[dp := BoolV(true), mt := StrV("false"), uid := StrV(FormatInt(n)), gid := IntV(n), unknown := StrV("example")];
    if sloppy then request[SloppyMountKey := StrV("true")] else request
  }

  /** The request as `uniformEntry` leaves it. */
  lemma ScenarioRequestClean(dp: string, mt: string, uid: string, gid: string, unknown: string, n: int, sloppy: bool)
    requires ScenarioKeys(dp, mt, uid, gid, unknown)
    ensures CleanEntries(ScenarioRequest(dp, mt, uid, gid, unknown, n, sloppy)) == ScenarioClean(dp, mt, uid, gid, unknown, n, sloppy)
  {
  }

  /** The uniformised request. */
  function ScenarioClean(dp: string, mt: string, uid: string, gid: string, unknown: string, n: int, sloppy: bool)
    : map<string, string>
  {
    var clean := map[dp := "true", mt := "false", uid := FormatInt(n), gid := FormatInt(n), unknown := "example"];
    if sloppy then clean[SloppyMountKey := "true"] else clean
  }

  /**
   * What `filterMount` makes of the request: `sloppy_mount` only switches
   * lenient mode on, the known options are stored.
   */
  lemma ScenarioMerge(dp: string, mt: string, uid: string, gid: string, unknown: string, n: int, sloppy: bool)
    requires ScenarioKeys(dp, mt, uid, gid, unknown)
    ensures MountMerged(ScenarioMount(dp, mt, uid, gid), ScenarioClean(dp, mt, uid, gid, unknown, n, sloppy)) ==
      map[dp := "true", mt := "false", uid := FormatInt(n), gid := FormatInt(n), SloppyMountKey := ""]
  {
    var o := ScenarioMount(dp, mt, uid, gid);
    var clean := ScenarioClean(dp, mt, uid, gid, unknown, n, sloppy);
    var expected := map[dp := "true", mt := "false", uid := FormatInt(n), gid := FormatInt(n), SloppyMountKey := ""];
    assert MountStores(o, dp, "true") && MountStores(o, mt, "false");
    assert MountStores(o, uid, FormatInt(n)) && MountStores(o, gid, FormatInt(n));
    assert sloppy ==> !MountStores(o, SloppyMountKey, "true");
    MergedIs(o, clean, expected);
  }

  /** The merged mount options, given key by key. */
  lemma MergedIs(o: map<string, string>, clean: map<string, string>, expected: map<string, string>)
    requires expected.Keys == o.Keys
    requires forall k :: k in o ==> expected[k] == if k in clean && MountStores(o, k, clean[k]) then clean[k] else o[k]
    ensures MountMerged(o, clean) == expected
  {
  }

  /** The unknown option is the one rejection, and lenient mode is on exactly when the request asks for it. */
  lemma ScenarioRejects(dp: string, mt: string, uid: string, gid: string, unknown: string, n: int, sloppy: bool)
    requires ScenarioKeys(dp, mt, uid, gid, unknown)
    ensures MountRejected(ScenarioMount(dp, mt, uid, gid), ScenarioClean(dp, mt, uid, gid, unknown, n, sloppy)) == {unknown}
    ensures MountSetsSloppy(ScenarioMount(dp, mt, uid, gid), ScenarioClean(dp, mt, uid, gid, unknown, n, sloppy)) <==> sloppy
    ensures !InitSloppyMount(ScenarioMount(dp, mt, uid, gid))
  {
    var o := ScenarioMount(dp, mt, uid, gid);
    var clean := ScenarioClean(dp, mt, uid, gid, unknown, n, sloppy);
    assert unknown in MountRejected(o, clean);
  }

  /** The mount options after the request. */
  function ScenarioMerged(dp: string, mt: string, uid: string, gid: string, n: int): map<string, string>
  {
    map[dp := "true", mt := "false", uid := FormatInt(n), gid := FormatInt(n), SloppyMountKey := ""]
  }

  /** How each of them renders. */
  function ScenarioRendering(dp: string, mt: string, uid: string, gid: string, n: int): map<string, Option<string>>
  {
    map[dp := Some("--" + dp), mt := None, uid := Some("--" + uid + "=" + FormatInt(n)),
        gid := Some("--" + gid + "=" + FormatInt(n)), SloppyMountKey := None]
  }

  /** The rendered flags, given key by key. */
  lemma ParamsIs(m: map<string, string>, expected: map<string, Option<string>>)
    requires expected.Keys == m.Keys
    requires forall k :: k in m ==> expected[k] == MountParam(k, m[k])
    ensures MountParams(m) == expected
  {
  }

  /** A number other than 0 and 1 renders as `--key=number`: it does not read as a boolean. */
  lemma ScenarioParams(dp: string, mt: string, uid: string, gid: string, unknown: string, n: int)
    requires ScenarioKeys(dp, mt, uid, gid, unknown)
    requires MinInt16 <= n <= MaxInt16 && n != 0 && n != 1
    ensures MountParams(ScenarioMerged(dp, mt, uid, gid, n)) == ScenarioRendering(dp, mt, uid, gid, n)
  {
    var f := FormatInt(n);
    FormatIntAsBool(n);
    ParseFormatInt16(n);
    assert MountParam(uid, f) == Some("--" + uid + "=" + f);
    assert MountParam(gid, f) == Some("--" + gid + "=" + f);
    ParamsIs(ScenarioMerged(dp, mt, uid, gid, n), ScenarioRendering(dp, mt, uid, gid, n));
  }

  /** The flags of the scenario: the true boolean and the two numbers; the false boolean and `sloppy_mount` none. */
  lemma ScenarioFlags(dp: string, mt: string, uid: string, gid: string, unknown: string, n: int)
    requires ScenarioKeys(dp, mt, uid, gid, unknown)
    ensures Rendered(ScenarioRendering(dp, mt, uid, gid, n)) ==
      multiset{"--" + dp, "--" + uid + "=" + FormatInt(n), "--" + gid + "=" + FormatInt(n)}
  {
    var a, b, c := "--" + dp, "--" + uid + "=" + FormatInt(n), "--" + gid + "=" + FormatInt(n);
    RenderedChain(dp, mt, uid, gid, unknown, a, b, c);
    RenderingBuilt(dp, mt, uid, gid, unknown, n);
    assert multiset{} + multiset{a} + multiset{} + multiset{b} + multiset{c} + multiset{} == multiset{a, b, c};
  }

  lemma RenderedChain(dp: string, mt: string, uid: string, gid: string, unknown: string, a: string, b: string, c: string)
    requires ScenarioKeys(dp, mt, uid, gid, unknown)
    ensures var p0: map<string, Option<string>> := map[];
      Rendered(p0[dp := Some(a)][mt := None][uid := Some(b)][gid := Some(c)][SloppyMountKey := None]) ==
        multiset{} + multiset{a} + multiset{} + multiset{b} + multiset{c} + multiset{}
  {
    var p0: map<string, Option<string>> := map[];
    var p1 := p0[dp := Some(a)];
    var p2 := p1[mt := None];
    var p3 := p2[uid := Some(b)];
    var p4 := p3[gid := Some(c)];
    RenderedEmpty(p0);
    RenderedInsert(p0, dp, Some(a));
    RenderedInsert(p1, mt, None);
    RenderedInsert(p2, uid, Some(b));
    RenderedInsert(p3, gid, Some(c));
    RenderedInsert(p4, SloppyMountKey, None);
  }

  lemma RenderingBuilt(dp: string, mt: string, uid: string, gid: string, unknown: string, n: int)
    requires ScenarioKeys(dp, mt, uid, gid, unknown)
    ensures var p0: map<string, Option<string>> := map[];
      p0[dp := Some("--" + dp)][mt := None][uid := Some("--" + uid + "=" + FormatInt(n))]
        [gid := Some("--" + gid + "=" + FormatInt(n))][SloppyMountKey := None] == ScenarioRendering(dp, mt, uid, gid, n)
  {
  }

  /** Rendering a map with one more entry. */
  lemma RenderedInsert(m: map<string, Option<string>>, k: string, o: Option<string>)
    requires k !in m
    ensures Rendered(m[k := o]) == Rendered(m) + Emitted(o)
  {
    RenderedRemove(m[k := o], k);
    assert m[k := o] - {k} == m;
  }

  /** The arguments assembled in the lenient scenario: `-n source -m target`, then the three flags, and no `-a`. */
  lemma AssembledLenient(src: map<string, string>, source: string, target: string, dp: string, mt: string,
                         uid: string, gid: string, unknown: string, n: int, sp: seq<string>, mp: seq<string>, args: seq<string>)
    requires AllEmpty(src) && '?' !in source && ScenarioKeys(dp, mt, uid, gid, unknown)
    requires MinInt16 <= n <= MaxInt16 && n != 0 && n != 1
    requires MountAssembled(src, ScenarioMerged(dp, mt, uid, gid, n), source, target, sp, mp, args)
    ensures args[..4] == ["-n", source, "-m", target]
    ensures multiset(args[4..]) == multiset{"--" + dp, "--" + uid + "=" + FormatInt(n), "--" + gid + "=" + FormatInt(n)}
  {
    PlainShare(source);
    assert forall k :: k in ShareParams(src) ==> ShareParams(src)[k] == None;
    EmptyListing(ShareParams(src), sp);
    assert WithQuery(ShareBase(source), sp) == source;
    ScenarioParams(dp, mt, uid, gid, unknown, n);
    ScenarioFlags(dp, mt, uid, gid, unknown, n);
    assert mp != [] by {
      assert "--" + dp in multiset(mp);
    }
  }

  /**
   * A request with an unknown option that switches on an allowed
   * `sloppy_mount` mounts anyway: the true boolean and both spellings of the
   * number become flags, the false boolean and the switch do not, and no
   * `-a` is added.
   */
  lemma MountWithLenientRequest(src: map<string, string>, source: string, target: string, dp: string, mt: string,
                                uid: string, gid: string, unknown: string, n: int, r: Result<seq<string>, MountError>)
    requires AllEmpty(src) && '?' !in source && ScenarioKeys(dp, mt, uid, gid, unknown)
    requires MinInt16 <= n <= MaxInt16 && n != 0 && n != 1
    requires MountOutcome(src, ScenarioMount(dp, mt, uid, gid), source, target,
                          ScenarioRequest(dp, mt, uid, gid, unknown, n, true), r)
    ensures r.Success? && r.value[..4] == ["-n", source, "-m", target]
    ensures multiset(r.value[4..]) == multiset{"--" + dp, "--" + uid + "=" + FormatInt(n), "--" + gid + "=" + FormatInt(n)}
  {
    var mnt := ScenarioMount(dp, mt, uid, gid);
    var opts := ScenarioRequest(dp, mt, uid, gid, unknown, n, true);
    ScenarioRequestClean(dp, mt, uid, gid, unknown, n, true);
    ScenarioRejects(dp, mt, uid, gid, unknown, n, true);
    ScenarioMerge(dp, mt, uid, gid, unknown, n, true);
    PlainShareKeeps(src, source);
    var sp, mp := OutcomeListing(src, mnt, source, target, opts, r);
    AssembledLenient(src, source, target, dp, mt, uid, gid, unknown, n, sp, mp, r.value);
  }

  /**
   * Without lenient mode, a request with an option the configuration does not
   * list, given a value, fails the mount, whatever else it asks for.
   */
  lemma MountRejectsUnknown(src: map<string, string>, mnt: map<string, string>, source: string, target: string,
                            opts: map<string, Value>, unknown: string, r: Result<seq<string>, MountError>)
    requires unknown in opts && unknown !in mnt && EntryText(opts[unknown]) != ""
    requires !InitSloppyMount(mnt) && !MountSetsSloppy(mnt, CleanEntries(opts))
    requires MountOutcome(src, mnt, source, target, opts, r)
    ensures r == Failure(IncompatibleOptions)
  {
    assert unknown in MountRejected(mnt, CleanEntries(opts));
  }

  /** The strict scenario: the same kind of request without `sloppy_mount` fails. */
  lemma MountWithStrictRequest(src: map<string, string>, source: string, target: string, dp: string, mt: string,
                               uid: string, gid: string, unknown: string, n: int, r: Result<seq<string>, MountError>)
    requires ScenarioKeys(dp, mt, uid, gid, unknown)
    requires MountOutcome(src, ScenarioMount(dp, mt, uid, gid), source, target,
                          ScenarioRequest(dp, mt, uid, gid, unknown, n, false), r)
    ensures r == Failure(IncompatibleOptions)
  {
    ScenarioRequestClean(dp, mt, uid, gid, unknown, n, false);
    ScenarioRejects(dp, mt, uid, gid, unknown, n, false);
    MountRejectsUnknown(src, ScenarioMount(dp, mt, uid, gid), source, target,
                        ScenarioRequest(dp, mt, uid, gid, unknown, n, false), unknown, r);
  }

  /** The option names and number of the mounter's test suite meet the scenarios' conditions. */
  lemma TestSuiteScenario()
    ensures ScenarioKeys("default_permissions", "multithread", "fusenfs_uid", "fusenfs_gid", "no_exists_opts")
    ensures FormatInt(1004) == "1004" && MinInt16 <= 1004 <= MaxInt16
  {
    assert Decimal(1) == "1";
    assert Decimal(10) == "10";
    assert Decimal(100) == "100";
  }
}
