/** Normalisation of configuration keys and its memo table. */
module KeyFormat {
  /** Lower case, for the ASCII letters. */
  function LowerChar(c: char): char {
    if 'A' <= c <= 'Z' then c + ('a' - 'A') else c
  }

  function Lower(s: string): (r: string)
    ensures |r| == |s|
  {
    seq(|s|, i requires 0 <= i < |s| => LowerChar(s[i]))
  }

  predicate Dropped(c: char) {
    c == '/' || c == '_' || c == '.'
  }

  /** `s` without path separators. */
  function Strip(s: string): string {
    if s == "" then "" else (if Dropped(s[0]) then "" else [s[0]]) + Strip(s[1..])
  }

  /** All spellings of a key have one normal form. */
  function Normalize(key: string): string {
    Strip(Lower(key))
  }

  /** No capitals and no separators. */
  predicate IsNormal(s: string) {
    forall i :: 0 <= i < |s| ==> !('A' <= s[i] <= 'Z') && s[i] != '/' && s[i] != '_' && s[i] != '.'
  }

  lemma {:induction false} StripNormal(s: string)
    requires forall i :: 0 <= i < |s| ==> !('A' <= s[i] <= 'Z')
    ensures IsNormal(Strip(s))
  {
    if s != "" {
      StripNormal(s[1..]);
    }
  }

  lemma {:induction false} StripKeeps(s: string)
    requires forall i :: 0 <= i < |s| ==> !Dropped(s[i])
    ensures Strip(s) == s
  {
    if s != "" {
      StripKeeps(s[1..]);
    }
  }

  /** The fixed points of normalisation are the keys without capitals and separators. */
  lemma NormalizeFixes(key: string)
    ensures Normalize(key) == key <==> IsNormal(key)
  {
    NormalizeNormal(key);
    if IsNormal(key) {
      assert Lower(key) == key;
      StripKeeps(key);
    }
  }

  lemma NormalizeNormal(key: string)
    ensures IsNormal(Normalize(key))
  {
    StripNormal(Lower(key));
  }

  lemma NormalizeIdempotent(key: string)
    ensures Normalize(Normalize(key)) == Normalize(key)
  {
    NormalizeNormal(key);
    NormalizeFixes(Normalize(key));
  }

  // ------------------------------------------------- what normalisation does

  /** `c` is what becomes of `d`: 32 more for a capital, else the same. */
  predicate Lowers(c: char, d: char) {
    c as int == d as int + if 'A' <= d <= 'Z' then 32 else 0
  }

  /** Lower case: character for character. */
  lemma LowerExactly(key: string)
    ensures |Lower(key)| == |key| && forall i :: 0 <= i < |key| ==> Lowers(Lower(key)[i], key[i])
  {
  }

  /**
   The normal form is spelled by the characters of the key at increasing positions, in lower
   case; what is left out is exactly the three separators.
   */
  lemma NormalizeExactly(key: string) returns (at: seq<nat>)
    ensures |at| == |Normalize(key)| && KeptAt(key, at)
    ensures forall j :: 0 <= j < |at| ==> Lowers(Normalize(key)[j], key[at[j]])
    ensures IsNormal(Normalize(key))
  {
    NormalizeNormal(key);
    at := StripFrom(Lower(key), 0);
    assert Lower(key)[0..] == Lower(key);
    LowerExactly(key);
  }

  /** `at` are the positions of `s` from `from` on that hold no separator, in order. */
  ghost predicate KeptAt(s: string, at: seq<nat>, from: nat := 0) {
    && (forall i, j :: 0 <= i < j < |at| ==> at[i] < at[j])
    && (forall j :: 0 <= j < |at| ==> from <= at[j] < |s|)
    && (forall i :: from <= i < |s| ==> (i in at <==> s[i] != '/' && s[i] != '_' && s[i] != '.'))
  }

  /** `r` are the characters of `s` at these positions. */
  ghost predicate ReadAt(s: string, at: seq<nat>, r: string) {
    |r| == |at| && forall j :: 0 <= j < |at| ==> at[j] < |s| && r[j] == s[at[j]]
  }

  lemma {:induction false} StripFrom(s: string, from: nat) returns (at: seq<nat>)
    requires from <= |s|
    ensures KeptAt(s, at, from) && ReadAt(s, at, Strip(s[from..]))
    decreases |s| - from
  {
    at := [];
    if from < |s| {
      at := StripFrom(s, from + 1);
      assert s[from..][1..] == s[from + 1..];
      KeptOne(s, at, from);
      ReadOne(s, at, from, Strip(s[from + 1..]));
      hide KeptAt, ReadAt;
      if !Dropped(s[from]) {
        at := [from] + at;
      }
    }
  }

  lemma KeptOne(s: string, rest: seq<nat>, from: nat)
    requires from < |s| && KeptAt(s, rest, from + 1)
    ensures KeptAt(s, if Dropped(s[from]) then rest else [from] + rest, from)
  {
  }

  lemma ReadOne(s: string, rest: seq<nat>, from: nat, r: string)
    requires from < |s| && ReadAt(s, rest, r)
    ensures ReadAt(s, [from] + rest, [s[from]] + r)
  {
  }

  /** Keys that differ only in case have one normal form. */
  lemma CaseDoesNotMatter(a: string, b: string)
    requires |a| == |b|
    requires forall i :: 0 <= i < |a| ==> a[i] == b[i] || Lowers(a[i], b[i]) || Lowers(b[i], a[i])
    ensures Normalize(a) == Normalize(b)
  {
    assert Lower(a) == Lower(b);
  }

  /** Nor does a separator anywhere. */
  lemma SeparatorsDoNotMatter(a: string, c: char, b: string)
    requires c == '/' || c == '_' || c == '.'
    ensures Normalize(a + [c] + b) == Normalize(a + b)
  {
    assert Lower(a + [c] + b) == Lower(a) + [c] + Lower(b) && Lower(a + b) == Lower(a) + Lower(b);
    StripSkips(Lower(a), c, Lower(b));
  }

  lemma {:induction false} StripSkips(a: string, c: char, b: string)
    requires Dropped(c)
    ensures Strip(a + [c] + b) == Strip(a + b)
  {
    if a == "" {
      assert (a + [c] + b)[1..] == b && a + b == b;
    } else {
      StripSkips(a[1..], c, b);
      assert (a + [c] + b)[1..] == a[1..] + [c] + b && (a + b)[1..] == a[1..] + b;
    }
  }

  /** The process-wide formatter: normalisation with a table of the keys seen so far. */
  class KeyFormatter {
    var formattedKeys: map<string, string>

    /** The table never disagrees with normalisation. */
    ghost predicate Valid()
      reads this
    {
      forall k :: k in formattedKeys ==> formattedKeys[k] == Normalize(k)
    }

    constructor ()
      ensures Valid() && formattedKeys == map[]
    {
      formattedKeys := map[];
    }

    /** Whatever was formatted before, the answer is the normal form. */
    method FormatKey(key: string) returns (result: string)
      requires Valid()
      modifies this
      ensures Valid()
      ensures result == Normalize(key)
      ensures formattedKeys == old(formattedKeys)[key := Normalize(key)]
    {
      if key in formattedKeys {
        result := formattedKeys[key];
        assert formattedKeys[key := result] == formattedKeys;
        return;
      }
      result := Replace(Lower(key));
      formattedKeys := formattedKeys[key := result];
    }

    /** The replacer's pass over the key, one character at a time. */
    static method Replace(s: string) returns (r: string)
      ensures r == Strip(s)
    {
      r := "";
      assert s[0..] == s;
      for i := 0 to |s|
        invariant r + Strip(s[i..]) == Strip(s)
      {
        assert s[i..][1..] == s[i + 1..];
        if !Dropped(s[i]) {
          r := r + [s[i]];
        }
      }
    }
  }
}
