# NFSv3 driver option negotiation, in Dafny

The NFSv3 volume driver mounts an NFS share through the `fuse-nfs` helper.
A mount request carries two things: a share URL, whose query string sets
source parameters, and an option map of dynamically typed values. The
driver reconciles both with the operator's configuration. It decides which
caller options are accepted, which are rejected, and whether rejections
are fatal (lenient "sloppy" mode makes them warnings). It then rebuilds
the share URL and the `fuse-nfs` command line from the resolved options.

The repository has two versions of this option engine, and each is
modelled in its own module.

- `NfsV3Config` is the current engine (`nfs_v3_config.go`).
  - A `ConfigDetails` class holds one target's allow-list, its `forced`
    operator defaults (keys that are not allowed, so callers can never
    change them), the resolved `options` and the `mandatory` keys.
  - The `Config` class pairs the source details with the mount details
    and carries the sloppy flag.
  - Every method updates these fields in place, as the Go methods do.
- `NfsV3Mounter` is the older engine used by the mounter
  (`nfs_v3_mounter.go`).
  - Here the key sets of the loaded `sourceOptions` and `mountOptions`
    maps are themselves the allow-lists.
  - Its `Mount` method loads the configuration, filters the mount
    options, then the share URL, and assembles the argument list.

The two engines share some modules:

- `ConfigTokens` holds the request value type `Value` and the
  `parseConfig` routine, which both files define identically.
- `MapRender` specifies how a Go map is rendered into a list, whatever
  order Go visits the map in.
- `ShareUrl` describes how a share URL splits at its first `?`.
- `GoStrings` and `GoStrconv` model the parts of Go's `strings` and
  `strconv` packages the engines use:
  - `Split`, `SplitN(…, 2)` and `Join`;
  - `ParseBool` with its twelve accepted spellings;
  - `ParseInt(…, 10, 16)`;
  - `FormatInt` and `FormatBool`.

Two more modules hold proofs only.

- `MounterScenarios` proves, for `Mount`, the three mount scenarios of
  the mounter's test suite:
  - a request without options;
  - the lenient request;
  - the strict request.
- `Versions` proves where the two engines agree and where they differ.
  The largest difference concerns an operator default `sloppy_mount:true`.
  The older engine keeps it in its mount options, so every mount is
  lenient. The current engine reads it once, when it is constructed, and
  removes it. When `setEntries` reads the mode again, only the request can
  supply it.

Go visits a map in an unspecified order. Every loop over a map is
therefore modelled with a nondeterministic choice of the next key. Its
outputs (the rejected-key lists, the rendered parameters) are specified by
their multiset: any listing of that multiset is a possible result.

## Model

| member | source | states |
|---|---|---|
| GoStrings.SplitN2 | nfs_v3_mounter.go:168 | `strings.SplitN(s, c, 2)`: one piece equal to `s` exactly when `c` does not occur; otherwise the text before the first `c` and the rest, which rejoin to `s` |
| GoStrings.Split | nfs_v3_config.go:129 | `strings.Split(s, c)` always yields at least one piece |
| GoStrings.Join | nfs_v3_config.go:109-115 | `strings.Join`: the text is empty exactly for no pieces or one empty piece, and contains `c` when there are two or more pieces |
| GoStrings.JoinSplit | nfs_v3_mounter.go:247 | joining the pieces of `Split(s, c)` with `c` gives `s` back |
| GoStrings.SplitJoin | nfs_v3_mounter.go:275 | splitting the `Join` of a non-empty list of pieces that avoid `c` gives the pieces back |
| GoStrings.SplitPiecesAvoidSeparator | nfs_v3_config.go:268 | no piece of `Split(s, c)` contains `c` |
| GoStrconv.ParseFormatInt16 | nfs_v3_mounter.go:331 | `ParseInt16(FormatInt(n)) == Some(n)` for every `n` in the 16-bit range |
| GoStrconv.ParseIntNormalises | nfs_v3_mounter.go:267-268 | re-formatting a parsed 16-bit integer and parsing it again gives the same value |
| GoStrconv.FormatIntAsBool | nfs_v3_mounter.go:331 | the decimal text of `n` reads as a boolean exactly when `n` is 0 or 1, as false and true respectively |
| GoStrconv.ParseBool | nfs_v3_mounter.go:154 | `strconv.ParseBool` accepts exactly its twelve spellings, and an accepted spelling is true exactly when it starts with `1`, `t` or `T` |
| GoStrconv.FormatBool | nfs_v3_mounter.go:335 | `strconv.FormatBool` yields a word of more than one character that `ParseBool` reads back as the same boolean |
| GoStrconv.FormatInt | nfs_v3_mounter.go:331 | `strconv.FormatInt(n, 10)` is non-empty and starts with `-` exactly when `n` is negative |
| GoStrconv.ParseInt16 | nfs_v3_mounter.go:267 | any value parsed lies in the signed 16-bit range |
| ConfigTokens.ParseConfig | nfs_v3_mounter.go:129-149 | the loop over the `key:value` tokens builds exactly `ParsedConfig` of the list; tokens with an empty key are skipped and a later token overrides an earlier one |
| ConfigTokens.ParsedConfigKeys | nfs_v3_config.go:175-195 | the parsed map's keys are exactly the non-empty keys of the tokens |
| ConfigTokens.ParsedConfigLastWins | nfs_v3_config.go:175-195 | the value of a key is the value of the last token naming it |
| ConfigTokens.SplitEntryParts | nfs_v3_config.go:181 | a token without the separator is all key with an empty value; otherwise key, separator and value rebuild the token, and the key never holds the separator |
| MapRender.CollectRendered | nfs_v3_mounter.go:253-273 | ranging over a map in any order, appending each entry's rendering, yields exactly the multiset `Rendered` of the map |
| MapRender.RenderedMember | nfs_v3_config.go:319-338 | a string is rendered exactly when some entry renders to it |
| MapRender.RenderedEmpty | nfs_v3_config.go:111-113 | nothing is rendered exactly when every entry renders to nothing |
| MapRender.RenderedRemove | nfs_v3_config.go:319-338 | the rendered multiset is one entry's rendering plus the rendering of the rest, whichever entry is taken first |
| ShareUrl.ShareRoundTrip | nfs_v3_config.go:101-116 | a rebuilt share URL keeps its base; when the parameters join to a non-empty text and avoid `&`, its query splits back into exactly those parameters |
| ShareUrl.ShareBaseStable | nfs_v3_mounter.go:277-281 | rebuilding a share URL from its own base gives a URL with the same base |
| NfsV3Config.InArray | nfs_v3_config.go:25-33 | the linear search returns true exactly when the key is in the list |
| NfsV3Config.UniformData | nfs_v3_config.go:234-256 | a string is kept as is; the result is empty exactly for values of another type and the empty string |
| NfsV3Config.UniformDataReadsBack | nfs_v3_config.go:234-256 | a converted bool reads back as the same bool and is one character long exactly when booleans are written as digits; a converted int reads back as that int when it is in the 16-bit range, and as a bool only for 0 and 1 |
| NfsV3Config.UniformKeyData | nfs_v3_config.go:221-232 | the keys of `BoolAsIntKeys` get booleans as `1`/`0`, all other keys get `true`/`false`; non-booleans convert as `uniformData` |
| NfsV3Config.DefaultsPartition | nfs_v3_config.go:133-145 | the loaded defaults split into `options` (allowed keys) and `forced` (all others) with disjoint keys whose union is the parsed map |
| NfsV3Config.MissingKeys | nfs_v3_config.go:159-173 | a key is missing exactly when it is mandatory and resolved in neither `options` nor `forced` |
| NfsV3Config.SloppyValue | nfs_v3_config.go:197-219 | a forced `sloppy_mount` wins over the option; the mode is on exactly when the winning value reads as true |
| NfsV3Config.MapMerged | nfs_v3_config.go:298-311 | merging the request never removes a resolved option |
| NfsV3Config.MapMergedContents | nfs_v3_config.go:294-314 | after the request is merged, the keys are old keys or allowed ones; a considered allowed request key takes the request's text; any other old key keeps its value |
| NfsV3Config.MapRejected | nfs_v3_config.go:294-314 | a request key is rejected exactly when its text is non-empty, it is not ignored and it is not allowed |
| NfsV3Config.UrlMerged | nfs_v3_config.go:258-292 | after the query pairs are merged, every key is an old key or an allowed one |
| NfsV3Config.UrlRejected | nfs_v3_config.go:278-292 | every rejected query name is non-empty, not allowed and not ignored |
| NfsV3Config.UrlRejectedKeys | nfs_v3_config.go:258-292 | the set of rejected names is exactly the non-empty, unignored, unallowed names of pairs with a value |
| NfsV3Config.UrlMergedKeys | nfs_v3_config.go:258-292 | the merged keys are the old keys plus the keys of the pairs that are stored |
| NfsV3Config.UrlMergedLastWins | nfs_v3_config.go:268-273 | the last stored pair naming a key decides its value |
| NfsV3Config.UrlMergedKeeps | nfs_v3_config.go:258-292 | a key no stored pair names keeps its old presence and value |
| NfsV3Config.UrlNothingRejected | nfs_v3_config.go:258-292 | the query rejects nothing exactly when every pair with a value has an empty, ignored or allowed name |
| NfsV3Config.RequestRejected | nfs_v3_config.go:82-86 | a request key is rejected exactly when it is in none of the ignore list and the two allow-lists |
| NfsV3Config.UnknownKeys | nfs_v3_config.go:82-86 | the loop over the request lists each key missing from `allowed` exactly once |
| NfsV3Config.NothingRejectedIff | nfs_v3_config.go:79-91 | `setEntries` rejects nothing exactly when the query rejects nothing and every request key is ignored or allowed somewhere |
| NfsV3Config.FlagParam | nfs_v3_config.go:321-337 | an entry of the combined map renders nothing exactly when it is `sloppy_mount` or a false boolean; otherwise its parameter starts with the prefixed key |
| NfsV3Config.RenderedWithoutSilent | nfs_v3_config.go:316-341 | an entry that renders to nothing can be dropped without changing the rendered parameters |
| NfsV3Config.SloppyMountNeverRendered | nfs_v3_config.go:321-323 | `sloppy_mount` never contributes a parameter |
| NfsV3Config.FlagRendering | nfs_v3_config.go:325-337 | a false boolean renders nothing; a true one renders the bare prefixed key; a 16-bit integer renders `key=n` in canonical decimal; any other value renders `key=value` |
| NfsV3Config.RenderedOrigin | nfs_v3_config.go:316-341 | every rendered parameter comes from some entry other than `sloppy_mount` |
| NfsV3Config.ConfigDetails.constructor | nfs_v3_config.go:35-44 | fresh details are empty |
| NfsV3Config.ConfigDetails.ReadConfAllowed | nfs_v3_config.go:128-131 | the allow-list is the comma split of the flag; nothing else changes |
| NfsV3Config.ConfigDetails.ReadConfDefault | nfs_v3_config.go:133-145 | `options` and `forced` are the partition of the parsed defaults by the allow-list |
| NfsV3Config.ConfigDetails.MoveForced | nfs_v3_config.go:137-142 | the loop moves every default whose key is not allowed from `options` to `forced` |
| NfsV3Config.ConfigDetails.GetMissMandatory | nfs_v3_config.go:159-173 | returns exactly `MissingKeys` of the mandatory list, in its order |
| NfsV3Config.ConfigDetails.IsSloppyMount | nfs_v3_config.go:197-219 | returns `SloppyValue` of the old maps and removes `sloppy_mount` from both |
| NfsV3Config.ConfigDetails.ParseUrlParams | nfs_v3_config.go:278-292 | one query pair is stored when it is allowed, otherwise its name is returned if not skipped |
| NfsV3Config.ConfigDetails.ParseUrl | nfs_v3_config.go:258-276 | the query pairs of the URL are merged in order, and the rejected names are returned in order |
| NfsV3Config.ConfigDetails.ParsePairs | nfs_v3_config.go:268-273 | the loop over the pairs merges them as `UrlMerged` and collects `UrlRejected` |
| NfsV3Config.ConfigDetails.ParseMap | nfs_v3_config.go:294-314 | the request is merged as `MapMerged` and the rejected keys are `MapRejected`, in any order |
| NfsV3Config.ConfigDetails.MakeConfig | nfs_v3_config.go:343-356 | the combined map has the keys of both; a forced value overrides an option |
| NfsV3Config.ConfigDetails.MakeParams | nfs_v3_config.go:316-341 | the parameters are a listing of the rendering of `makeConfig` under the prefix |
| NfsV3Config.Config.NewNfsV3Config | nfs_v3_config.go:35-44 | both details are loaded from the flags, `sloppy_mount` is taken out of the mount details and decides the mode |
| NfsV3Config.Config.ReadConfAllowed | nfs_v3_config.go:46-56 | both allow-lists are the comma splits of their flags |
| NfsV3Config.Config.ReadConfDefault | nfs_v3_config.go:58-70 | both defaults are partitioned, and the mount's `sloppy_mount` sets the mode and is removed |
| NfsV3Config.Config.SetEntries | nfs_v3_config.go:72-99 | the request is merged into both targets, then the share query into the source; it fails with the rejected keys exactly when some key is rejected and the mode is strict, else with the missing mandatory keys exactly when some are missing |
| NfsV3Config.Config.GetShare | nfs_v3_config.go:101-116 | the share base followed by `?` and the rendered source parameters joined with `&`, or the base alone when none render |
| NfsV3Config.Config.GetMount | nfs_v3_config.go:118-121 | a listing of the mount rendering under `--` |
| NfsV3Config.Config.GetMountConfig | nfs_v3_config.go:123-126 | the mount's combined map, forced values winning |
| NfsV3Mounter.InitSloppyMount | nfs_v3_mounter.go:151-160 | lenient exactly when the loaded mount options carry `sloppy_mount` with one of the six spellings of true |
| NfsV3Mounter.EntryText | nfs_v3_mounter.go:329-338 | a string value is kept as it is; the text is empty exactly for values of another type and the empty string |
| NfsV3Mounter.EntryTextReadsBack | nfs_v3_mounter.go:329-338 | a converted bool reads back as itself, and a converted 16-bit int reads back as itself |
| NfsV3Mounter.SourceMerged | nfs_v3_mounter.go:162-180 | the source options keep their key set |
| NfsV3Mounter.SourceRejected | nfs_v3_mounter.go:174-176 | no rejected name is a known source option |
| NfsV3Mounter.SourceMergedLastWins | nfs_v3_mounter.go:166-180 | the last pair with a value naming a known key decides its value |
| NfsV3Mounter.SourceMergedKeeps | nfs_v3_mounter.go:166-180 | a key no pair with a value names keeps its loaded value |
| NfsV3Mounter.SourceNothingRejected | nfs_v3_mounter.go:166-180 | nothing is rejected exactly when every pair with a value names a known key |
| NfsV3Mounter.SourceRejectedOrigin | nfs_v3_mounter.go:174-176 | a name is rejected exactly when some pair with a value carries it and it is not known |
| NfsV3Mounter.MountMerged | nfs_v3_mounter.go:203-222 | the mount options keep their key set |
| NfsV3Mounter.MountRejected | nfs_v3_mounter.go:205-212 | a request key is rejected exactly when its text is non-empty and it is not a known mount option |
| NfsV3Mounter.MountMergedValues | nfs_v3_mounter.go:205-221 | a known key takes the request's non-empty text unless that text sets `sloppy_mount` to true; otherwise it keeps its loaded value |
| NfsV3Mounter.MountParam | nfs_v3_mounter.go:291-316 | a mount option renders nothing exactly when it is `sloppy_mount`, empty or a false boolean; otherwise its flag starts with `-` for a one-letter name and `--` for a longer one |
| NfsV3Mounter.ShareParam | nfs_v3_mounter.go:253-272 | a source option renders nothing exactly when its value is empty; otherwise it renders `key=` followed by a non-empty text |
| NfsV3Mounter.ShareParamReadsBack | nfs_v3_mounter.go:253-272 | a source option with a value renders `key=w`, where `w` reads back as the same boolean or the same 16-bit integer, or is the text itself |
| NfsV3Mounter.MountArgs | nfs_v3_mounter.go:59-68 | the arguments start `-n url -m target`, followed by the flags, and by `-a` when there are no flags and no `a` option |
| NfsV3Mounter.UniformEntry | nfs_v3_mounter.go:321-344 | every request value is converted to its text, keys unchanged |
| NfsV3Mounter.Config.constructor | nfs_v3_mounter.go:43 | a new configuration is empty and strict |
| NfsV3Mounter.Config.GetConf | nfs_v3_mounter.go:120-122 | both option maps are parsed from their comma-separated strings and the mode is read from the mount options |
| NfsV3Mounter.Config.FilterSource | nfs_v3_mounter.go:162-195 | the pairs are merged into the source options; it fails exactly when some name is rejected and the mode is strict |
| NfsV3Mounter.Config.FilterMount | nfs_v3_mounter.go:197-237 | the converted request is merged into the mount options, a true `sloppy_mount` turns the mode on; it fails exactly when some key is rejected and the mode is still strict |
| NfsV3Mounter.Config.MergeMount | nfs_v3_mounter.go:203-222 | the loop over the request in any order leaves `MountMerged` and the sloppy flag, and collects exactly the rejected keys |
| NfsV3Mounter.Config.MergeEntry | nfs_v3_mounter.go:205-221 | one request entry: skipped when empty, rejected when unknown, turning the mode on when it sets `sloppy_mount` true, stored otherwise |
| NfsV3Mounter.Config.MakeShare | nfs_v3_mounter.go:239-284 | the query is filtered into the source options; on failure the URL is unchanged, on success it is the base followed by a listing of the rendered source options, without `?` when none render |
| NfsV3Mounter.Config.GetMountOptions | nfs_v3_mounter.go:286-319 | a listing of the rendering of the mount options |
| NfsV3Mounter.MountOutcome | nfs_v3_mounter.go:38-74 | the specification of `Mount`: it fails exactly when the mount request or the share query has a rejected option and neither the loaded `sloppy_mount` nor the request makes the mode lenient |
| NfsV3Mounter.Mount | nfs_v3_mounter.go:38-74 | the mount request is checked first, then the share URL; either rejection in strict mode fails, otherwise the arguments are assembled from the merged options |
| MounterScenarios.OutcomeListing | nfs_v3_mounter.go:49-68 | when neither check rejects, `Mount` succeeds with arguments assembled from the merged options |
| MounterScenarios.MountWithoutOptions | nfs_v3_mounter_test.go:45-65 | with no request options, a plain share and operator defaults that are all empty, the arguments are `-n source -m target -a` |
| MounterScenarios.MountWithLenientRequest | nfs_v3_mounter_test.go:151-181 | the lenient request with an unknown option succeeds with `-n source -m target` followed by the true flag and the two id flags, in any order |
| MounterScenarios.MountRejectsUnknown | nfs_v3_mounter.go:226-230 | an unknown option with a value fails the mount when no sloppy mode is set |
| MounterScenarios.MountWithStrictRequest | nfs_v3_mounter_test.go:183-199 | the same request without `sloppy_mount` fails |
| MounterScenarios.TestSuiteScenario | nfs_v3_mounter_test.go:154-160 | the option names and the id of the test suite meet the scenario's conditions |
| Versions.RequestTextAgrees | nfs_v3_config.go:300 | both engines convert a request value to the same text; the current one differs only when writing booleans as digits |
| Versions.SloppyAgrees | nfs_v3_config.go:58-67 | at load time both engines read the operator's `sloppy_mount` default the same way, whether the key is allowed (kept in `options`) or not (kept in `forced`) |
| Versions.OperatorSloppyLenient | nfs_v3_mounter.go:151-160 | in the older engine a loaded `sloppy_mount` that reads as true makes every mount succeed |
| Versions.SloppyForgotten | nfs_v3_config.go:80 | once `sloppy_mount` has been removed from both maps, `setEntries` is strict unless the request carries `sloppy_mount` |
| Versions.OperatorSloppyForgotten | nfs_v3_config.go:72-91 | for all operator defaults, and so even when the flag set at construction is true, the current engine refuses a request with a key that no allow-list holds, and names that key |
| Versions.MountFlagAgrees | nfs_v3_config.go:316-341 | a non-empty mount option with a name longer than one letter renders the same flag in both engines |
| Versions.EmptyFlagDiffers | nfs_v3_config.go:337 | an empty value renders nothing in the older engine and `--key=` in the current one |
| Versions.ShortFlagDiffers | nfs_v3_mounter.go:297-301 | a one-letter option gets `-` in the older engine and the given prefix in the current one |
| Versions.ShareParamVersions | nfs_v3_mounter.go:258-265 | in the share URL the older engine writes booleans as `key=1`/`key=0`; the current one writes a bare key or nothing; other values agree |
| Versions.ShareMergeAgrees | nfs_v3_config.go:278-292 | with the allow-list equal to the loaded keys and nothing ignored, both engines merge a query the same way |
| Versions.ShareRejectAgrees | nfs_v3_config.go:278-292 | under the same conditions, and with no empty names, both engines reject the same names in the same order |
| Versions.EmptyNameDiffers | nfs_v3_mounter.go:174-176 | a pair `=x` is rejected by the older engine only |

## Left out

- Logging, the `lager` sessions and every log message: they have no effect on the results.
- Running `fuse-nfs`, together with `Unmount`, `Check` and the invoker. `Mount` returns the argument list it would pass; the invoker's own error is not modelled.
- File reading and YAML decoding in `getConf`. `GetConf` takes the two strings of the configuration as parameters, and the `logger.Fatal` exits on a missing or malformed file are not modelled. `Mount` likewise takes them, in place of the fixed `config.yml` path.
- `NewNfsV3Config` indexes elements 0 and 1 of both flag lists (nfs_v3_config.go:37-38) and panics when a list is shorter. `Config.NewNfsV3Config` requires both lists to have at least two elements instead of modelling the panic.
- `parseConfig` panics on a token with a non-empty key and no `:`. The operations that parse a configuration require `ParseableTokens` instead of modelling the panic.
- Error texts: every error of the older engine is `IncompatibleOptions`. The current engine's errors carry their key lists, not the formatted message.
- The rejected keys of `setEntries` are a multiset, because the request map's order is unspecified in Go.
- `readConfAllowed` and `readConfDefault` of `Config` always return nil errors, so the model has no error result for them.
- `ConfigDetails.readConf` (nfs_v3_config.go:147-157) is not modelled. No function in the core calls it.
- Go `int` is 64 bits wide. `Value.IntV` is an unbounded integer and `FormatInt` renders it without wrap-around.
- Go's `len` counts bytes. The one-letter rule of `getMountOptions` is modelled over characters, which agrees for ASCII names.
- The Go map order in `parseMap`, `filterMount`, `makeShare`, `getMountOptions` and `makeParams` is not fixed. Outputs are proved as multisets, so one listing per order is not singled out.
- `cmd/nfsv3driver/main.go` (flag parsing, servers) is not part of this model.
- The test suite's configuration file is not part of this model. The scenarios therefore assume operator defaults listing the test's option names with empty values, plus `sloppy_mount`. `TestSuiteScenario` shows that the test's names meet the scenario's conditions.
- MounterScenarios.MountWithStrictRequest: the strict test gives `fusenfs_uid` as an int and `fusenfs_gid` as a string, which the lenient test gives the other way round. `EntryText` turns both into the same text, so the model states the failure for the lenient request without `sloppy_mount`.
