/** Views of the whole configuration: all settings, and the settings that pass filters. */
module Views {
  import opened Options
  import opened KeyFormat
  import opened Events
  import opened Layers

  /** Everything GetConfigs returns: what the indexed keys answer, under all overlays. */
  function ConfigsView(s: State): Configs {
    (map k | k in s.index && Lookup(s, k).Some? :: Lookup(s, k).value) + s.overlays
  }

  /**
   The full view, key by key, for keys in any spelling: an overlay is shown as it is, a
   tombstone too; else the key is shown exactly if some source holds it in this very spelling
   and GetConfig has an answer for it, which is then its value and the layered one.
   */
  lemma FullViewExactly(s: State, k: string, v: string)
    requires IndexOk(s) && !Forbidden(s, k)
    ensures k in ConfigsView(s) && ConfigsView(s)[k] == v
       <==> if k in s.overlays then s.overlays[k] == v
            else (exists n :: n in s.sources && k in s.sources[n].configs) && Lookup(s, k) == Some(v)
    ensures Layered(s, k, Lookup(s, k))
  {
    LookupRefines(s, k);
    hide Normalize, Lookup, Layered;
    assert Agrees(s.sources, k, Get(s.index, k));
    if n :| n in s.sources && k in s.sources[n].configs {
      assert Holds(s.sources, n, k);
    }
  }

  /** On a normal key the full view and GetConfig agree, both ways, except that it shows tombstones. */
  lemma ViewAgreesExactly(s: State, k: string)
    requires IsNormal(k)
    ensures Get(ConfigsView(s), k) == Lookup(s, k) <==> Get(s.overlays, k) != Some("TOMB_VAULE")
  {
    NormalizeFixes(k);
  }

  /** A deleted key: GetConfig has no answer for it and the full view shows the tombstone. */
  lemma TombstoneIsShown()
    ensures exists s, k ::
              && Step(INIT, DeleteConfig(k), s, []) && Lookup(s, k) == None
              && Get(ConfigsView(s), k) == Some(TOMBSTONE)
  {
    assert IsNormal("k");
    NormalizeFixes("k");
    hide Normalize;
    var s := INIT.(overlays := map["k" := TOMBSTONE]);
    assert Step(INIT, DeleteConfig("k"), s, []);
    assert Lookup(s, "k") == None && Get(ConfigsView(s), "k") == Some(TOMBSTONE);
  }

  /**
   SetMapConfig keeps the separators of its key, so GetConfig gives the value back exactly if
   the key has none, or it gave that answer already.
   */
  lemma SetMapConfigExactly(s: State, key: string, value: string, s': State, log: seq<EventInfo>)
    requires Step(s, SetMapConfig(key, value), s', log)
    ensures var stored := if value == "TOMB_VAULE" then None else Some(value);
            Lookup(s', key) == stored <==> NoSeparator(key) || Lookup(s, key) == stored
  {
    LowerIsNormal(key);
    hide Normalize;
  }

  predicate NoSeparator(key: string) {
    forall i :: 0 <= i < |key| ==> key[i] != '/' && key[i] != '_' && key[i] != '.'
  }

  lemma LowerIsNormal(key: string)
    ensures Lower(key) == Normalize(key) <==> NoSeparator(key)
    ensures !NoSeparator(key) ==> forall k :: Normalize(k) != Lower(key)
  {
    var l := Lower(key);
    if NoSeparator(key) {
      forall i | 0 <= i < |l| ensures !Dropped(l[i]) {
        assert key[i] != '/' && key[i] != '_' && key[i] != '.';
      }
      StripKeeps(l);
    } else {
      var i :| 0 <= i < |key| && !(key[i] != '/' && key[i] != '_' && key[i] != '.');
      assert l[i] == key[i];
      forall k ensures Normalize(k) != l {
        NormalizeNormal(k);
      }
    }
  }

  /**
   Without separators it is SetConfig. With one it changes no answer at all; the full view
   shows the value under the key in lower case.
   */
  lemma MapConfigLaws(s: State, key: string, value: string, s': State, k: string)
    requires Step(s, SetMapConfig(key, value), s', [])
    ensures NoSeparator(key) ==> Step(s, SetConfig(key, value), s', [])
    ensures !NoSeparator(key) ==> Lookup(s', k) == Lookup(s, k)
    ensures Lower(key) in ConfigsView(s') && ConfigsView(s')[Lower(key)] == value
    ensures k != Lower(key) && !NoSeparator(key) ==> Get(ConfigsView(s'), k) == Get(ConfigsView(s), k)
  {
    LowerIsNormal(key);
    hide Normalize, Lower;
    assert Lower(key) in s'.overlays;
    if !NoSeparator(key) {
      forall x ensures Lookup(s', x) == Lookup(s, x) {}
    }
  }

  /** A key with a separator: what is stored for it is never read. */
  lemma SetMapConfigMisses(value: string)
    ensures Lookup(INIT.(overlays := INIT.overlays[Lower("a.b") := value]), "a.b") == None
  {
    assert Lower("a.b") == "a.b";
    NormalizeNormal("a.b");
    assert Dropped("a.b"[1]);
  }

  // ---------------------------------------------------------------- filters

  /** A filter may rename a key and says whether to go on with it. */
  type Filter = string -> (string, bool)

  /** `s` without the first occurrence of `sub`. */
  function RemoveFirst(s: string, sub: string): string {
    if sub <= s then s[|sub|..]
    else if s == "" then ""
    else [s[0]] + RemoveFirst(s[1..], sub)
  }

  function WithPrefix(prefix: string): Filter {
    var p := Lower(prefix);
    (key: string) => (key, p <= key)
  }

  function RemovePrefix(prefix: string): Filter {
    var p := Lower(prefix);
    (key: string) => (RemoveFirst(key, p), true)
  }

  /** All filters in turn, up to the first that refuses; without filters nothing passes. */
  function Filtered(key: string, filters: seq<Filter>): (string, bool)
    decreases |filters|
  {
    if filters == [] then (key, false)
    else
      var r := filters[0](key);
      if |filters| == 1 || !r.1 then r else Filtered(r.0, filters[1..])
  }

  /** The keys a key goes through: each filter accepts one and makes the next. */
  ghost predicate Passes(filters: seq<Filter>, keys: seq<string>) {
    |keys| == |filters| + 1 && forall i :: 0 <= i < |filters| ==> filters[i](keys[i]) == (keys[i + 1], true)
  }

  /** A key passes, as `n`, exactly if there is a filter and every one accepts what the one before made. */
  lemma {:induction false} FilteredExactly(key: string, filters: seq<Filter>, n: string)
    ensures Filtered(key, filters) == (n, true)
       <==> filters != [] && exists keys :: Passes(filters, keys) && keys[0] == key && keys[|filters|] == n
    decreases |filters|
  {
    if |filters| > 0 {
      var r, rest := filters[0](key), filters[1..];
      if |filters| == 1 {
        if r == (n, true) { assert Passes(filters, [key, n]); }
      } else {
        FilteredExactly(r.0, rest, n);
        if Filtered(key, filters) == (n, true) {
          var keys :| Passes(rest, keys) && keys[0] == r.0 && keys[|rest|] == n;
          var more := [key] + keys;
          forall i | 0 <= i < |filters| ensures filters[i](more[i]) == (more[i + 1], true) {
            assert i > 0 ==> rest[i - 1] == filters[i];
          }
          assert Passes(filters, more);
        }
        if keys :| Passes(filters, keys) && keys[0] == key && keys[|filters|] == n {
          assert filters[0](keys[0]) == (keys[1], true);
          assert forall i :: 0 <= i < |rest| ==> rest[i] == filters[i + 1];
          assert Passes(rest, keys[1..]);
        }
      }
    }
  }

  /** `sub` occurs in `s` at `i`. */
  predicate At(s: string, sub: string, i: nat) {
    i <= |s| && sub <= s[i..]
  }

  /** The first occurrence of `sub` is cut out, and nothing if there is none. */
  lemma RemoveFirstExactly(s: string, sub: string)
    ensures forall i: nat :: At(s, sub, i) && (forall j :: 0 <= j < i ==> !At(s, sub, j)) ==>
                               RemoveFirst(s, sub) == s[..i] + s[i + |sub|..]
    ensures (forall i: nat :: !At(s, sub, i)) ==> RemoveFirst(s, sub) == s
  {
    assert s[0..] == s;
    forall i: nat | At(s, sub, i) && (forall j :: 0 <= j < i ==> !At(s, sub, j))
      ensures RemoveFirst(s, sub) == s[..i] + s[i + |sub|..]
    {
      FirstFrom(s, sub, 0, i);
    }
    if forall i: nat :: !At(s, sub, i) {
      NoneFrom(s, sub, 0);
    }
  }

  lemma {:induction false} FirstFrom(s: string, sub: string, from: nat, i: nat)
    requires from <= i && At(s, sub, i) && forall j :: from <= j < i ==> !At(s, sub, j)
    ensures RemoveFirst(s[from..], sub) == s[from..i] + s[i + |sub|..]
    decreases i - from
  {
    if from < i {
      FirstFrom(s, sub, from + 1, i);
      assert !At(s, sub, from) && s[from..][1..] == s[from + 1..];
      assert s[from..i] == [s[from]] + s[from + 1..i];
    } else {
      assert s[from..][|sub|..] == s[i + |sub|..];
    }
  }

  lemma {:induction false} NoneFrom(s: string, sub: string, from: nat)
    requires from <= |s| && forall j: nat :: !At(s, sub, j)
    ensures RemoveFirst(s[from..], sub) == s[from..]
    decreases |s| - from
  {
    assert !At(s, sub, from);
    if from < |s| {
      NoneFrom(s, sub, from + 1);
      assert s[from..][1..] == s[from + 1..];
    }
  }

  method Filterate(key: string, filters: seq<Filter>) returns (newKey: string, ok: bool)
    ensures (newKey, ok) == Filtered(key, filters)
  {
    newKey, ok := key, false;
    assert filters[0..] == filters;
    for i := 0 to |filters|
      invariant i == 0 ==> newKey == key && !ok
      invariant i > 0 ==> ok
      invariant i < |filters| ==> Filtered(newKey, filters[i..]) == Filtered(key, filters)
      invariant i == |filters| ==> (newKey, ok) == Filtered(key, filters)
    {
      assert filters[i..][1..] == filters[i + 1..];
      var r := filters[i](newKey);
      newKey, ok := r.0, r.1;
      if !ok {
        return;
      }
    }
  }

  /** Every key that passes is in the view, and every entry of the view comes from one that passes. */
  ghost predicate IsView(configs: Configs, filters: seq<Filter>, view: Configs) {
    && (forall n :: n in view ==>
          exists k :: k in configs && Filtered(k, filters) == (n, true) && configs[k] == view[n])
    && (forall k :: k in configs && Filtered(k, filters).1 ==> Filtered(k, filters).0 in view)
  }

  /** The entries may be visited in any order. */
  method FilterConfigs(configs: Configs, filters: seq<Filter>) returns (matched: Configs)
    ensures IsView(configs, filters, matched)
  {
    hide Filtered;
    matched := map[];
    var rest := configs.Keys;
    ghost var done: Configs := map[];
    while rest != {}
      invariant rest <= configs.Keys
      invariant done == configs - rest
      invariant IsView(done, filters, matched)
    {
      var key :| key in rest;
      rest := rest - {key};
      var newKey, ok := Filterate(key, filters);
      ghost var before := matched;
      if ok {
        matched := matched[newKey := configs[key]];
      }
      VisitOne(done, filters, before, key, configs[key], matched);
      done := done[key := configs[key]];
    }
    assert done == configs;
  }

  lemma VisitOne(done: Configs, filters: seq<Filter>, before: Configs, key: string, value: string, after: Configs)
    requires IsView(done, filters, before) && key !in done
    requires after == if Filtered(key, filters).1 then before[Filtered(key, filters).0 := value] else before
    ensures IsView(done[key := value], filters, after)
  {
    hide Filtered;
    var more := done[key := value];
    forall n | n in after ensures exists k :: k in more && Filtered(k, filters) == (n, true) && more[k] == after[n] {
      if Filtered(key, filters) == (n, true) {
        assert key in more && more[key] == after[n];
      } else {
        var k :| k in done && Filtered(k, filters) == (n, true) && done[k] == before[n];
        assert k in more && more[k] == after[n];
      }
    }
  }

  /**
   The prefix view is a bijection: it has exactly the settings whose keys start with the
   prefix, with the prefix taken off, so the order of traversal cannot matter.
   */
  lemma PrefixView(configs: Configs, prefix: string, view: Configs, n: string)
    requires IsView(configs, [WithPrefix(prefix), RemovePrefix(prefix)], view)
    ensures Get(view, n) == Get(configs, Lower(prefix) + n)
  {
    hide Lower;
    var filters, p := [WithPrefix(prefix), RemovePrefix(prefix)], Lower(prefix);
    forall k ensures Filtered(k, filters).1 <==> p <= k
             ensures p <= k ==> Filtered(k, filters).0 == k[|p|..] && k == p + k[|p|..]
    {
      PrefixFiltered(k, prefix);
    }
    if p + n in configs {
      assert (p + n)[|p|..] == n;
      assert Filtered(p + n, filters).0 in view;
    }
  }

  lemma PrefixFiltered(k: string, prefix: string)
    ensures var filters := [WithPrefix(prefix), RemovePrefix(prefix)];
            Filtered(k, filters) == if Lower(prefix) <= k then (k[|Lower(prefix)|..], true) else (k, false)
  {
    var filters := [WithPrefix(prefix), RemovePrefix(prefix)];
    assert filters[1..] == [RemovePrefix(prefix)];
    assert filters[0](k) == (k, Lower(prefix) <= k);
  }
}
