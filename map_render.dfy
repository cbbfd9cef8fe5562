/**
 * Rendering a Go map into a list of strings. Go visits a map in no fixed
 * order, so a renderer is specified by the multiset of strings it emits:
 * each entry is first rendered to at most one string (an `Option`), and the
 * emitted list is any listing of the `Some` values.
 */
module MapRender {
  import opened Wrappers

  function Emitted(o: Option<string>): multiset<string>
  {
    if o.Some? then multiset{o.value} else multiset{}
  }

  /** The multiset of strings rendered from the entries of `m` whose keys are in `keys`. */
  ghost function RenderedKeys(m: map<string, Option<string>>, keys: set<string>): multiset<string>
    requires keys <= m.Keys
  {
    if keys == {} then multiset{}
    else
      var k :| k in keys;
      RenderedKeys(m, keys - {k}) + Emitted(m[k])
  }

  /** The multiset of strings rendered from all entries of `m`. */
  ghost function Rendered(m: map<string, Option<string>>): multiset<string>
  {
    RenderedKeys(m, m.Keys)
  }

  /** Whichever key is rendered first, the rendered multiset is the same. */
  lemma {:induction false} RenderedKeysRemove(m: map<string, Option<string>>, keys: set<string>, k: string)
    requires keys <= m.Keys && k in keys
    ensures RenderedKeys(m, keys) == RenderedKeys(m, keys - {k}) + Emitted(m[k])
    decreases keys, 1
  {
    var j :| j in keys && RenderedKeys(m, keys) == RenderedKeys(m, keys - {j}) + Emitted(m[j]);
    if j != k {
      RenderedKeysSwap(m, keys, j, k);
    }
  }

  lemma {:induction false} RenderedKeysSwap(m: map<string, Option<string>>, keys: set<string>, j: string, k: string)
    requires keys <= m.Keys && j in keys && k in keys && j != k
    ensures RenderedKeys(m, keys - {j}) + Emitted(m[j]) == RenderedKeys(m, keys - {k}) + Emitted(m[k])
    decreases keys, 0
  {
    RenderedKeysRemove(m, keys - {j}, k);
    RenderedKeysRemove(m, keys - {k}, j);
    assert keys - {j} - {k} == keys - {k} - {j};
  }

  /** Rendering one entry and then the rest. */
  lemma RenderedRemove(m: map<string, Option<string>>, k: string)
    requires k in m
    ensures Rendered(m) == Rendered(m - {k}) + Emitted(m[k])
  {
    RenderedKeysRemove(m, m.Keys, k);
    RenderedKeysFrame(m, m - {k}, m.Keys - {k});
    assert (m - {k}).Keys == m.Keys - {k};
  }

  /** Only the entries whose keys are rendered matter. */
  lemma {:induction false} RenderedKeysFrame(m: map<string, Option<string>>, m': map<string, Option<string>>, keys: set<string>)
    requires keys <= m.Keys && keys <= m'.Keys
    requires forall k :: k in keys ==> m[k] == m'[k]
    ensures RenderedKeys(m, keys) == RenderedKeys(m', keys)
    decreases keys
  {
    if keys != {} {
      var k :| k in keys && RenderedKeys(m, keys) == RenderedKeys(m, keys - {k}) + Emitted(m[k]);
      RenderedKeysRemove(m', keys, k);
      RenderedKeysFrame(m, m', keys - {k});
    }
  }

  /** A string is rendered exactly when some entry renders to it. */
  lemma {:induction false} RenderedKeysMember(m: map<string, Option<string>>, keys: set<string>, p: string)
    requires keys <= m.Keys
    ensures p in RenderedKeys(m, keys) <==> exists k :: k in keys && m[k] == Some(p)
    decreases keys
  {
    if keys != {} {
      var k :| k in keys && RenderedKeys(m, keys) == RenderedKeys(m, keys - {k}) + Emitted(m[k]);
      RenderedKeysMember(m, keys - {k}, p);
      if exists j :: j in keys && m[j] == Some(p) {
        var j :| j in keys && m[j] == Some(p);
        if j != k {
          assert j in keys - {k};
          assert p in RenderedKeys(m, keys - {k});
        } else {
          assert p in Emitted(m[k]);
        }
        var rest := RenderedKeys(m, keys - {k});
        assert RenderedKeys(m, keys) == rest + Emitted(m[k]);
        assert (rest + Emitted(m[k]))[p] == rest[p] + Emitted(m[k])[p];
      }
      if p in RenderedKeys(m, keys) {
        if p in Emitted(m[k]) {
          assert m[k] == Some(p);
        } else {
          assert p in RenderedKeys(m, keys - {k});
          var j :| j in keys - {k} && m[j] == Some(p);
          assert j in keys;
        }
      }
    }
  }

  lemma RenderedMember(m: map<string, Option<string>>, p: string)
    ensures p in Rendered(m) <==> exists k :: k in m && m[k] == Some(p)
  {
    RenderedKeysMember(m, m.Keys, p);
  }

  /** Nothing is rendered exactly when every entry renders to nothing. */
  lemma RenderedEmpty(m: map<string, Option<string>>)
    ensures Rendered(m) == multiset{} <==> forall k :: k in m ==> m[k] == None
  {
    if Rendered(m) != multiset{} {
      var p :| p in Rendered(m);
      RenderedMember(m, p);
    } else {
      forall k | k in m ensures m[k] == None {
        if m[k].Some? {
          RenderedMember(m, m[k].value);
        }
      }
    }
  }

  /**
   * Ranges over the map, appending the string each entry renders to, if any;
   * the entries are visited in an unspecified order.
   */
  method CollectRendered(m: map<string, Option<string>>) returns (out: seq<string>)
    ensures multiset(out) == Rendered(m)
  {
    out := [];
    var rest := m.Keys;
    while rest != {}
      invariant rest <= m.Keys
      invariant multiset(out) + RenderedKeys(m, rest) == Rendered(m)
      decreases rest
    {
      var k :| k in rest;
      RenderedKeysRemove(m, rest, k);
      if m[k].Some? {
        out := out + [m[k].value];
      }
      rest := rest - {k};
    }
  }
}
