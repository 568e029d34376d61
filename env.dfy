/**
 * Reading the client's `SMELLO_*` environment variables. The process
 * environment is passed in as a map from variable name to value.
 */
module Env {
  import opened Wrappers
  import opened PyStr

  type Environ = map<string, string>

  /** Lower-cased spellings read as true. */
  const Truthy: set<string> := {"true", "1", "yes"}
  /** Lower-cased spellings read as false. */
  const Falsy: set<string> := {"false", "0", "no"}

  /** Prefix of every variable the client reads. */
  const VarPrefix: string := "SMELLO_"

  /** The variable that holds setting `name`. */
  function VarName(name: string): string {
    VarPrefix + name
  }

  /** `_env_str(name)`: the stripped value of `SMELLO_<name>`, or `None`
      when the variable is unset or holds only whitespace. */
  function EnvStr(env: Environ, name: string): (r: Option<string>)
    ensures r.Some? ==> r.value != [] && IsUnpadded(r.value)
    ensures r.Some? ==> VarName(name) in env && r.value == Strip(env[VarName(name)])
  {
    var value := Strip(if VarName(name) in env then env[VarName(name)] else "");
    if value != [] then Some(value) else None
  }

  /** `_env_bool(name)`: `true`, `1`, `yes` in any letter case read as true,
      `false`, `0`, `no` as false, anything else (and no value) as `None`. */
  function EnvBool(env: Environ, name: string): (r: Option<bool>)
    ensures r.Some? ==> EnvStr(env, name).Some?
    ensures r.Some? ==> (r.value <==> Lower(EnvStr(env, name).value) in Truthy)
  {
    var raw := EnvStr(env, name);
    if raw.None? then None
    else
      var lowered := Lower(raw.value);
      if lowered in Truthy then Some(true)
      else if lowered in Falsy then Some(false)
      else None
  }

  /** The stripped, non-empty pieces of `parts`, in their order. */
  function NonEmptyStripped(parts: seq<string>): (items: seq<string>)
    ensures |items| <= |parts|
    ensures forall i :: 0 <= i < |items| ==> items[i] != [] && IsUnpadded(items[i])
  {
    if parts == [] then []
    else
      var item := Strip(parts[0]);
      (if item != [] then [item] else []) + NonEmptyStripped(parts[1..])
  }

  /** `_env_list(name)`: the comma-separated items of `SMELLO_<name>`,
      stripped, with empty items dropped; `None` when there are none. */
  function EnvList(env: Environ, name: string): (r: Option<seq<string>>)
    ensures r.Some? ==> |r.value| > 0
    ensures r.Some? ==> forall i :: 0 <= i < |r.value| ==>
      r.value[i] != [] && IsUnpadded(r.value[i]) && ',' !in r.value[i]
  {
    var raw := EnvStr(env, name);
    if raw.None? then None
    else
      var items := ListItems(raw.value);
      NonEmptyStrippedNoSep(Split(raw.value, ','), ',');
      if items != [] then Some(items) else None
  }

  /** A separator absent from every part is absent from every item. */
  lemma {:induction false} NonEmptyStrippedNoSep(parts: seq<string>, sep: char)
    requires forall i :: 0 <= i < |parts| ==> sep !in parts[i]
    ensures forall i :: 0 <= i < |NonEmptyStripped(parts)| ==> sep !in NonEmptyStripped(parts)[i]
  {
    if parts != [] {
      StripKeepsAbsent(parts[0], sep);
      NonEmptyStrippedNoSep(parts[1..], sep);
      var item := Strip(parts[0]);
      var head := if item != [] then [item] else [];
      var rest := NonEmptyStripped(parts[1..]);
      assert NonEmptyStripped(parts) == head + rest;
      forall i | 0 <= i < |head + rest|
        ensures sep !in (head + rest)[i]
      {
        if i >= |head| {
          assert (head + rest)[i] == rest[i - |head|];
        }
      }
    }
  }

  // ---------------------------------------------------------------------------
  // _env_str
  // ---------------------------------------------------------------------------

  /** `_env_str` gives `None` exactly when the variable is unset, empty or
      all whitespace, and otherwise the value without surrounding whitespace. */
  lemma EnvStrCases(env: Environ, name: string)
    ensures EnvStr(env, name).None?
      <==> VarName(name) !in env || AllSpace(env[VarName(name)])
    ensures VarName(name) in env && !AllSpace(env[VarName(name)])
      ==> EnvStr(env, name) == Some(Strip(env[VarName(name)]))
  {
  }

  // ---------------------------------------------------------------------------
  // _env_bool
  // ---------------------------------------------------------------------------

  /** The three outcomes of `_env_bool`, each in terms of the raw value. */
  lemma EnvBoolCases(env: Environ, name: string)
    ensures EnvBool(env, name) == Some(true)
      <==> VarName(name) in env && Lower(Strip(env[VarName(name)])) in Truthy
    ensures EnvBool(env, name) == Some(false)
      <==> VarName(name) in env && Lower(Strip(env[VarName(name)])) in Falsy
    ensures VarName(name) !in env ==> EnvBool(env, name) == None
  {
    TruthyFalsyDisjoint();
    if VarName(name) in env {
      var raw := EnvStr(env, name);
      assert raw.Some? ==> raw.value == Strip(env[VarName(name)]);
      assert raw.None? ==> Strip(env[VarName(name)]) == [];
    }
  }

  /** No spelling reads as both true and false. */
  lemma TruthyFalsyDisjoint()
    ensures Truthy !! Falsy
  {
    assert "1"[0] != "0"[0];
  }

  /** Two values that lower-case to the same text read as the same boolean. */
  lemma EnvBoolIgnoresCase(env1: Environ, env2: Environ, name: string)
    requires VarName(name) in env1 && VarName(name) in env2
    requires Lower(env1[VarName(name)]) == Lower(env2[VarName(name)])
    ensures EnvBool(env1, name) == EnvBool(env2, name)
  {
    var v1, v2 := env1[VarName(name)], env2[VarName(name)];
    StripLowerCommute(v1);
    StripLowerCommute(v2);
    var s1, s2 := Strip(v1), Strip(v2);
    assert Lower(s1) == Lower(s2);
    assert |s1| == |s2|;
    assert EnvStr(env1, name) == if s1 != [] then Some(s1) else None;
    assert EnvStr(env2, name) == if s2 != [] then Some(s2) else None;
    var l := Lower(s1);
    if s1 != [] {
      assert EnvBool(env1, name) == if l in Truthy then Some(true) else if l in Falsy then Some(false) else None;
      assert EnvBool(env2, name) == if l in Truthy then Some(true) else if l in Falsy then Some(false) else None;
    }
  }

  // ---------------------------------------------------------------------------
  // _env_list
  // ---------------------------------------------------------------------------

  /** The items `_env_list` builds from an already stripped raw value. */
  function ListItems(raw: string): seq<string> {
    NonEmptyStripped(Split(raw, ','))
  }

  /** Filtering the pieces of a concatenation keeps the pieces' order. */
  lemma {:induction false} NonEmptyStrippedAppend(a: seq<string>, b: seq<string>)
    ensures NonEmptyStripped(a + b) == NonEmptyStripped(a) + NonEmptyStripped(b)
  {
    if a != [] {
      assert (a + b)[1..] == a[1..] + b;
      NonEmptyStrippedAppend(a[1..], b);
    } else {
      assert a + b == b;
    }
  }

  /** Splitting at a separator splits the pieces there. */
  lemma {:induction false} SplitAtSeparator(a: string, b: string, sep: char)
    ensures Split(a + [sep] + b, sep) == Split(a, sep) + Split(b, sep)
  {
    var s := a + [sep] + b;
    if a == [] {
      assert s[1..] == b;
    } else {
      assert s[1..] == a[1..] + [sep] + b;
      SplitAtSeparator(a[1..], b, sep);
    }
  }

  /** A value without commas gives its stripped self, unless that is blank. */
  lemma ListItemsOfOnePiece(raw: string)
    requires ',' !in raw
    ensures ListItems(raw) == if Strip(raw) != [] then [Strip(raw)] else []
  {
    assert Count(raw, ',') == 0 by { CountAbsent(raw, ','); }
    var parts := Split(raw, ',');
    assert parts == [raw] by {
      assert |parts| == 1;
      assert Join(parts, ',') == parts[0];
    }
    assert parts[1..] == [];
  }

  /** Items keep the left-to-right order of the raw value: the items of
      `a,b` are those of `a` followed by those of `b`. */
  lemma ListItemsOrder(a: string, b: string)
    ensures ListItems(a + [','] + b) == ListItems(a) + ListItems(b)
  {
    SplitAtSeparator(a, b, ',');
    NonEmptyStrippedAppend(Split(a, ','), Split(b, ','));
  }

  lemma {:induction false} CountAbsent(s: string, c: char)
    requires c !in s
    ensures Count(s, c) == 0
  {
    if s != [] {
      CountAbsent(s[1..], c);
    }
  }

  /** Blank and whitespace-only values, and values of commas and blanks
      only, give `None`, never an empty list. */
  lemma EnvListNone(env: Environ, name: string)
    ensures EnvStr(env, name).None? ==> EnvList(env, name).None?
    ensures EnvList(env, name) != Some([])
  {
  }

  lemma {:induction false} CountAppend(a: string, b: string, c: char)
    ensures Count(a + b, c) == Count(a, c) + Count(b, c)
  {
    if a == [] {
      assert a + b == b;
    } else {
      assert (a + b)[0] == a[0];
      assert (a + b)[1..] == a[1..] + b;
      CountAppend(a[1..], b, c);
    }
  }

  lemma {:induction false} CountTrimLeft(s: string, c: char)
    requires !IsSpace(c)
    ensures Count(TrimLeft(s), c) == Count(s, c)
  {
    if |s| > 0 && IsSpace(s[0]) {
      CountTrimLeft(s[1..], c);
    }
  }

  lemma {:induction false} CountTrimRight(s: string, c: char)
    requires !IsSpace(c)
    ensures Count(TrimRight(s), c) == Count(s, c)
  {
    if |s| > 0 && IsSpace(s[|s| - 1]) {
      var init := s[..|s| - 1];
      assert s == init + [s[|s| - 1]];
      CountAppend(init, [s[|s| - 1]], c);
      assert Count([s[|s| - 1]], c) == 0 by {
        assert [s[|s| - 1]][1..] == [];
      }
      CountTrimRight(init, c);
    }
  }

  /** Stripping removes no comma. */
  lemma CountStrip(s: string, c: char)
    requires !IsSpace(c)
    ensures Count(Strip(s), c) == Count(s, c)
  {
    CountTrimLeft(s, c);
    CountTrimRight(TrimLeft(s), c);
  }

  /** There are never more items than commas plus one in the raw value. */
  lemma EnvListBound(env: Environ, name: string)
    requires EnvList(env, name).Some?
    ensures |EnvList(env, name).value| <= Count(env[VarName(name)], ',') + 1
  {
    CountStrip(env[VarName(name)], ',');
  }
}
