/**
 * What both versions of the option engine share: the dynamically typed
 * values of a request's option map, the name of the lenient-mode key, and
 * the parser for the operator's `key:value` default lists (`parseConfig`,
 * which the two source files define identically).
 */
module ConfigTokens {
  import opened GoStrings

  /** The key that switches lenient ("sloppy") validation on. */
  const SloppyMountKey: string := "sloppy_mount"

  /**
   * A value of the request's `map[string]interface{}`: a Go `int`, `string`
   * or `bool`, or a value of any other dynamic type.
   */
  datatype Value = IntV(i: int) | StrV(s: string) | BoolV(b: bool) | OtherV

  /**
   * A token `parseConfig` can handle without an index-out-of-range panic:
   * either its key is empty (so it is skipped) or it contains a `:`.
   */
  predicate ParseableToken(t: string)
  {
    t == "" || ':' in t
  }

  predicate ParseableTokens(list: seq<string>)
  {
    forall i :: 0 <= i < |list| ==> ParseableToken(list[i])
  }

  /** A `key` / `value` string split at a separator; the value is "" when there is no separator. */
  datatype Entry = Entry(key: string, value: string)

  /** `strings.SplitN(t, sep, 2)`, read as a key and a value. */
  function SplitEntry(t: string, sep: char): Entry
  {
    var parts := SplitN2(t, sep);
    Entry(parts[0], if |parts| == 2 then parts[1] else "")
  }

  /** Without the separator a string is all key; otherwise the key ends at its first separator. */
  lemma SplitEntryParts(t: string, sep: char)
    ensures sep !in t ==> SplitEntry(t, sep) == Entry(t, "")
    ensures sep in t ==> SplitEntry(t, sep).key + [sep] + SplitEntry(t, sep).value == t
    ensures sep !in SplitEntry(t, sep).key
  {
  }

  /** Every string of a list split at its first separator. */
  function SplitEntries(list: seq<string>, sep: char): (r: seq<Entry>)
    ensures |r| == |list|
  {
    if list == [] then [] else SplitEntries(list[..|list| - 1], sep) + [SplitEntry(list[|list| - 1], sep)]
  }

  lemma {:induction false} SplitEntriesAt(list: seq<string>, sep: char, i: nat)
    requires i < |list|
    ensures SplitEntries(list, sep)[i] == SplitEntry(list[i], sep)
  {
    var n := |list|;
    if i < n - 1 {
      SplitEntriesAt(list[..n - 1], sep, i);
    }
  }

  /** Splitting one more string of a list. */
  lemma SplitEntriesSnoc(list: seq<string>, sep: char, i: nat)
    requires i < |list|
    ensures SplitEntries(list[..i + 1], sep) == SplitEntries(list[..i], sep) + [SplitEntry(list[i], sep)]
  {
    assert list[..i + 1][..i] == list[..i];
  }

  /** The map built from entries from left to right, skipping empty keys. */
  function EntriesMap(entries: seq<Entry>): map<string, string>
  {
    if entries == [] then map[]
    else
      var acc := EntriesMap(entries[..|entries| - 1]);
      var e := entries[|entries| - 1];
      if e.key == "" then acc else acc[e.key := e.value]
  }

  /** Adding one more entry to the map. */
  lemma EntriesMapSnoc(done: seq<Entry>, e: Entry)
    ensures EntriesMap(done + [e]) == if e.key == "" then EntriesMap(done) else EntriesMap(done)[e.key := e.value]
  {
    assert (done + [e])[..|done|] == done;
  }

  /** The map `parseConfig` builds from a token list. */
  function ParsedConfig(list: seq<string>): map<string, string>
  {
    EntriesMap(SplitEntries(list, ':'))
  }

  /**
   * `parseConfig`: splits every token on its first `:`, skips tokens whose
   * key is empty, and maps each remaining key to its value; a later token
   * with the same key overwrites an earlier one.
   */
  method ParseConfig(listEntry: seq<string>) returns (result: map<string, string>)
    requires ParseableTokens(listEntry)
    ensures result == ParsedConfig(listEntry)
  {
    result := map[];
    for i := 0 to |listEntry|
      invariant result == EntriesMap(SplitEntries(listEntry[..i], ':'))
    {
      SplitEntriesSnoc(listEntry, ':', i);
      EntriesMapSnoc(SplitEntries(listEntry[..i], ':'), SplitEntry(listEntry[i], ':'));
      var key := SplitN2(listEntry[i], ':');
      if |key[0]| < 1 {
        continue;
      }
      // the source stores "" for an empty value and key[1] otherwise: the same string
      if |key[1]| < 1 {
        result := result[key[0] := ""];
      } else {
        result := result[key[0] := key[1]];
      }
    }
    assert listEntry[..|listEntry|] == listEntry;
  }

  /** The non-empty keys of some entries. */
  function EntryKeys(entries: seq<Entry>): set<string>
  {
    set i | 0 <= i < |entries| && entries[i].key != "" :: entries[i].key
  }

  /** The keys of the built map are exactly the non-empty keys of the entries. */
  lemma {:induction false} EntriesMapKeys(entries: seq<Entry>)
    ensures EntriesMap(entries).Keys == EntryKeys(entries)
  {
    if entries != [] {
      var n := |entries|;
      var init := entries[..n - 1];
      assert forall i :: 0 <= i < |init| ==> init[i] == entries[i];
      EntriesMapKeys(init);
      var last := entries[n - 1].key;
      assert EntryKeys(entries) == EntryKeys(init) + (if last == "" then {} else {last}) by {
        forall k | k in EntryKeys(entries) ensures k in EntryKeys(init) + (if last == "" then {} else {last}) {
          var i :| 0 <= i < n && entries[i].key != "" && entries[i].key == k;
          if i < n - 1 {
            assert init[i].key == k;
          }
        }
      }
    }
  }

  /** The value of a key is the value of the LAST entry that carries it. */
  lemma {:induction false} EntriesMapLastWins(entries: seq<Entry>, i: nat)
    requires i < |entries| && entries[i].key != ""
    requires forall j :: i < j < |entries| ==> entries[j].key != entries[i].key
    ensures entries[i].key in EntriesMap(entries)
    ensures EntriesMap(entries)[entries[i].key] == entries[i].value
  {
    var n := |entries|;
    if i < n - 1 {
      var init := entries[..n - 1];
      assert forall j :: 0 <= j < |init| ==> init[j] == entries[j];
      EntriesMapLastWins(init, i);
    }
  }

  /** The keys `parseConfig` yields are the non-empty token keys. */
  lemma ParsedConfigKeys(list: seq<string>)
    ensures ParsedConfig(list).Keys == EntryKeys(SplitEntries(list, ':'))
  {
    EntriesMapKeys(SplitEntries(list, ':'));
  }

  /** For `parseConfig`, the value of a key is the value of the last token with that key. */
  lemma ParsedConfigLastWins(list: seq<string>, i: nat)
    requires i < |list| && SplitEntry(list[i], ':').key != ""
    requires forall j :: i < j < |list| ==> SplitEntry(list[j], ':').key != SplitEntry(list[i], ':').key
    ensures SplitEntry(list[i], ':').key in ParsedConfig(list)
    ensures ParsedConfig(list)[SplitEntry(list[i], ':').key] == SplitEntry(list[i], ':').value
  {
    var entries := SplitEntries(list, ':');
    forall j | 0 <= j < |list| ensures entries[j] == SplitEntry(list[j], ':') {
      SplitEntriesAt(list, ':', j);
    }
    EntriesMapLastWins(entries, i);
  }
}
