/** The `{key}` interpolation of `t`: a loop of `String.prototype.replaceAll`
    calls (section 22.1.3.20 of ECMA-262, 2024 edition), and the simultaneous
    substitution it is meant to be. */
module Interpolation {
  import opened Wrappers
  import opened Search

  // ------------------------------------------------------------ the loop

  /** GetSubstitution (section 22.1.3.19.1) for a string search: there are no captures, so only
      `$$`, `` $` ``, `$&` and `$'` are special and every other `$` stands for itself. */
  function Expand(s: string, matched: string, position: nat, replacement: string): string
    requires position + |matched| <= |s|
    decreases |replacement|
  {
    if replacement == [] then []
    else if "$$" <= replacement then "$" + Expand(s, matched, position, replacement[2..])
    else if "$`" <= replacement then s[..position] + Expand(s, matched, position, replacement[2..])
    else if "$&" <= replacement then matched + Expand(s, matched, position, replacement[2..])
    else if "$'" <= replacement then s[position + |matched|..] + Expand(s, matched, position, replacement[2..])
    else [replacement[0]] + Expand(s, matched, position, replacement[1..])
  }

  /** `replaceAll` on the part of `s` from `from` on: non-overlapping matches, left to right. */
  function ReplaceAllFrom(s: string, search: string, replacement: string, from: nat): string
    requires search != [] && from <= |s|
    decreases |s| - from
  {
    match Find(s, search, from)
    case None => s[from..]
    case Some(p) =>
      s[from..p] + Expand(s, search, p, replacement) + ReplaceAllFrom(s, search, replacement, p + |search|)
  }

  function ReplaceAll(s: string, search: string, replacement: string): string
    requires search != []
  {
    ReplaceAllFrom(s, search, replacement, 0)
  }

  function Hole(key: string): string { "{" + key + "}" }

  type Vars = seq<(string, string)>

  /** One replacement per variable, in the order of the variables. */
  function Sequential(text: string, vars: Vars): string
    decreases |vars|
  {
    if vars == [] then text
    else Sequential(ReplaceAll(text, Hole(vars[0].0), vars[0].1), vars[1..])
  }

  lemma {:induction false} SequentialAppend(text: string, vars: Vars, v: (string, string))
    ensures Sequential(text, vars + [v]) == ReplaceAll(Sequential(text, vars), Hole(v.0), v.1)
    decreases |vars|
  {
    if vars == [] {
      assert vars + [v] == [v];
      assert Sequential(ReplaceAll(text, Hole(v.0), v.1), []) == ReplaceAll(text, Hole(v.0), v.1);
    } else {
      assert (vars + [v])[1..] == vars[1..] + [v];
      SequentialAppend(ReplaceAll(text, Hole(vars[0].0), vars[0].1), vars[1..], v);
    }
  }

  /** The loop of `t`, on the entries of `vars` in property order. */
  method Interpolate(template: string, vars: Vars) returns (text: string)
    ensures text == Sequential(template, vars)
  {
    text := template;
    for i := 0 to |vars|
      invariant text == Sequential(template, vars[..i])
    {
      assert vars[..i + 1] == vars[..i] + [vars[i]];
      SequentialAppend(template, vars[..i], vars[i]);
      text := ReplaceAll(text, Hole(vars[i].0), vars[i].1);
    }
    assert vars[..|vars|] == vars;
  }

  // ------------------------------------------------------------ simultaneous substitution

  predicate BraceFree(s: string) { '{' !in s && '}' !in s }

  /** The name closed by the next brace of `s`, if that brace is a closing one. */
  function HoleName(s: string): Option<string> {
    if s == [] || s[0] == '{' then None
    else if s[0] == '}' then Some([])
    else match HoleName(s[1..])
      case None => None
      case Some(name) => Some([s[0]] + name)
  }

  /** All known placeholders replaced at once; everything else is copied. */
  function Simultaneous(s: string, m: map<string, string>): string {
    if s == [] then []
    else
      var name := if s[0] == '{' then HoleName(s[1..]) else None;
      if name.Some? && name.value in m
      then (HoleNameIs(s[1..], name.value); m[name.value] + Simultaneous(s[|name.value| + 2..], m))
      else [s[0]] + Simultaneous(s[1..], m)
  }

  function MapOf(vars: Vars): map<string, string> {
    if vars == [] then map[] else MapOf(vars[1..])[vars[0].0 := vars[0].1]
  }

  lemma {:induction false} HoleNameIs(s: string, name: string)
    ensures HoleName(s) == Some(name) <==> BraceFree(name) && name + "}" <= s
  {
    if s != [] && s[0] != '{' && s[0] != '}' {
      if name != [] && name[0] == s[0] {
        HoleNameIs(s[1..], name[1..]);
        assert name == [s[0]] + name[1..];
        assert name + "}" <= s <==> name[1..] + "}" <= s[1..];
      } else {
        if HoleName(s[1..]).Some? {
          assert HoleName(s).value[0] == s[0];
        }
      }
    } else if s != [] && name + "}" <= s {
      assert s[0] == (name + "}")[0];
    }
  }

  lemma HolePrefix(s: string, key: string)
    requires BraceFree(key)
    ensures Hole(key) <= s <==> s != [] && s[0] == '{' && HoleName(s[1..]) == Some(key)
    ensures Hole(key) <= s ==> |key| + 2 <= |s| && s[|key| + 2..] == s[1..][|key| + 1..]
  {
    if s != [] {
      HoleNameIs(s[1..], key);
      assert Hole(key) == "{" + (key + "}");
      assert Hole(key) <= s <==> s[0] == '{' && key + "}" <= s[1..];
    }
  }

  // ------------------------------------------------------------ one replacement, character by character

  function Scan(s: string, key: string, value: string): string
    decreases |s|
  {
    if s == [] then []
    else if Hole(key) <= s then value + Scan(s[|key| + 2..], key, value)
    else [s[0]] + Scan(s[1..], key, value)
  }

  /** Whether the replacement text holds one of the four special patterns. */
  predicate HasPattern(v: string) {
    v != [] && ("$$" <= v || "$`" <= v || "$&" <= v || "$'" <= v || HasPattern(v[1..]))
  }

  lemma {:induction false} ExpandPlain(s: string, matched: string, position: nat, v: string)
    requires position + |matched| <= |s| && !HasPattern(v)
    ensures Expand(s, matched, position, v) == v
  {
    if v != [] {
      ExpandPlain(s, matched, position, v[1..]);
    }
  }

  lemma OccursIsPrefix(s: string, pat: string, from: nat)
    requires from <= |s|
    ensures OccursAt(s, pat, from) <==> pat <= s[from..]
  {
    if pat <= s[from..] {
      assert forall k :: 0 <= k < |pat| ==> pat[k] == s[from..][k];
    }
  }

  lemma ReplaceMisses(s: string, search: string, replacement: string, from: nat)
    requires search != [] && from <= |s| && Find(s, search, from).None?
    ensures ReplaceAllFrom(s, search, replacement, from) == s[from..]
  {
  }

  lemma ReplaceFinds(s: string, search: string, replacement: string, from: nat, p: nat)
    requires search != [] && from <= |s| && Find(s, search, from) == Some(p)
    ensures ReplaceAllFrom(s, search, replacement, from) ==
            s[from..p] + Expand(s, search, p, replacement) + ReplaceAllFrom(s, search, replacement, p + |search|)
  {
  }

  /** `replaceAll` moves on by one character where the search text does not start. */
  lemma ReplaceSkips(s: string, search: string, replacement: string, from: nat)
    requires search != [] && from < |s| && !OccursAt(s, search, from)
    ensures ReplaceAllFrom(s, search, replacement, from) == [s[from]] + ReplaceAllFrom(s, search, replacement, from + 1)
  {
    FindSkips(s, search, from);
    hide Expand, Find, OccursAt, ReplaceAllFrom;
    match Find(s, search, from)
    case None =>
      ReplaceMisses(s, search, replacement, from);
      ReplaceMisses(s, search, replacement, from + 1);
      assert s[from..] == [s[from]] + s[from + 1..];
    case Some(p) =>
      ReplaceFinds(s, search, replacement, from, p);
      ReplaceFinds(s, search, replacement, from + 1, p);
      assert s[from..p] == [s[from]] + s[from + 1..p];
      ConsAssociates(s[from], s[from + 1..p], Expand(s, search, p, replacement), ReplaceAllFrom(s, search, replacement, p + |search|));
  }

  lemma ConsAssociates(c: char, x: string, y: string, z: string)
    ensures [c] + x + y + z == [c] + (x + y + z)
  {
  }

  lemma FindSkips(s: string, search: string, from: nat)
    requires search != [] && from < |s| && !OccursAt(s, search, from)
    ensures Find(s, search, from) == Find(s, search, from + 1)
    ensures Find(s, search, from).Some? ==> from < Find(s, search, from).value <= |s| - |search|
  {
  }

  lemma ReplaceHits(s: string, search: string, replacement: string, from: nat)
    requires search != [] && OccursAt(s, search, from)
    ensures ReplaceAllFrom(s, search, replacement, from) ==
            Expand(s, search, from, replacement) + ReplaceAllFrom(s, search, replacement, from + |search|)
  {
    assert Find(s, search, from) == Some(from);
    assert s[from..from] == [];
  }

  lemma {:induction false} ReplaceIsScan(s: string, key: string, value: string, from: nat)
    requires from <= |s| && !HasPattern(value)
    ensures ReplaceAllFrom(s, Hole(key), value, from) == Scan(s[from..], key, value)
    decreases |s| - from
  {
    hide Expand, HasPattern, ReplaceAllFrom, Find, OccursAt;
    var hole, rest := Hole(key), s[from..];
    OccursIsPrefix(s, hole, from);
    if from == |s| {
      NoMatchAtEnd(s, hole, value);
    } else if OccursAt(s, hole, from) {
      ReplaceHits(s, hole, value, from);
      ExpandPlain(s, hole, from, value);
      assert |hole| == |key| + 2 && rest[|key| + 2..] == s[from + |hole|..];
      ReplaceIsScan(s, key, value, from + |hole|);
    } else {
      ReplaceSkips(s, hole, value, from);
      ReplaceIsScan(s, key, value, from + 1);
      assert rest[1..] == s[from + 1..] && rest[0] == s[from];
    }
  }

  lemma NoMatchAtEnd(s: string, search: string, replacement: string)
    requires search != []
    ensures ReplaceAllFrom(s, search, replacement, |s|) == []
  {
  }

  // ------------------------------------------------------------ unfolding

  /** The placeholder `s` starts with. */
  function At(s: string): Option<string> {
    if s != [] && s[0] == '{' then HoleName(s[1..]) else None
  }

  lemma AtIs(s: string)
    ensures At(s).Some? ==> var n := At(s).value;
                            BraceFree(n) && |n| + 2 <= |s| && s[1..] == n + "}" + s[|n| + 2..]
  {
    if At(s).Some? {
      var n := At(s).value;
      HoleNameIs(s[1..], n);
      assert s[1..][..|n| + 1] == n + "}";
    }
  }

  lemma SimultaneousHits(s: string, m: map<string, string>)
    requires At(s).Some? && At(s).value in m
    ensures |At(s).value| + 2 <= |s|
    ensures Simultaneous(s, m) == m[At(s).value] + Simultaneous(s[|At(s).value| + 2..], m)
  {
    AtIs(s);
  }

  lemma SimultaneousCopies(s: string, m: map<string, string>)
    requires s != [] && (At(s).Some? ==> At(s).value !in m)
    ensures Simultaneous(s, m) == [s[0]] + Simultaneous(s[1..], m)
  {
  }

  lemma ScanHits(s: string, key: string, value: string)
    requires At(s) == Some(key)
    ensures |key| + 2 <= |s| && Scan(s, key, value) == value + Scan(s[|key| + 2..], key, value)
  {
    AtIs(s);
    HolePrefix(s, key);
  }

  lemma ScanCopies(s: string, key: string, value: string)
    requires s != [] && At(s) != Some(key) && BraceFree(key)
    ensures Scan(s, key, value) == [s[0]] + Scan(s[1..], key, value)
    ensures Scan(s, key, value)[1..] == Scan(s[1..], key, value)
  {
    HolePrefix(s, key);
  }

  lemma {:induction false} PlainPrefix(v: string, s: string, m: map<string, string>)
    requires BraceFree(v)
    ensures Simultaneous(v + s, m) == v + Simultaneous(s, m)
    ensures HoleName(v + s) == match HoleName(s) case None => None case Some(n) => Some(v + n)
  {
    if v == [] {
      assert v + s == s;
      assert HoleName(s).Some? ==> [] + HoleName(s).value == HoleName(s).value;
    } else {
      assert (v + s)[1..] == v[1..] + s && (v + s)[0] == v[0];
      PlainPrefix(v[1..], s, m);
      assert HoleName(s).Some? ==> [v[0]] + (v[1..] + HoleName(s).value) == v + HoleName(s).value;
    }
  }

  // ------------------------------------------------------------ captures

  /** `s`, the text after an opening brace, reaches a closing brace over text and whole placeholders. */
  predicate Closable(s: string)
    decreases |s|
  {
    s != [] && (s[0] == '}' ||
                (if s[0] == '{' then
                   At(s).Some? && (AtIs(s); Closable(s[|At(s).value| + 2..]))
                 else Closable(s[1..])))
  }

  /** No opening brace can be closed by replacing placeholders behind it that is not closed already. */
  predicate NoCapture(s: string) {
    s != [] ==> (s[0] == '{' && At(s).None? ==> !Closable(s[1..])) && NoCapture(s[1..])
  }

  lemma {:induction false} PlainPrefixShape(v: string, s: string)
    requires BraceFree(v)
    ensures Closable(v + s) <==> Closable(s)
    ensures NoCapture(v + s) <==> NoCapture(s)
  {
    if v == [] {
      assert v + s == s;
    } else {
      assert (v + s)[1..] == v[1..] + s && (v + s)[0] == v[0];
      PlainPrefixShape(v[1..], s);
    }
  }

  /** Behind a placeholder a template has the captures it has behind the placeholder's opening brace. */
  lemma SkipPlaceholder(s: string)
    requires At(s).Some?
    ensures |At(s).value| + 2 <= |s| && (NoCapture(s) <==> NoCapture(s[|At(s).value| + 2..]))
  {
    AtIs(s);
    var n := At(s).value;
    var rest := s[|n| + 2..];
    assert s[1..] == n + ("}" + rest) && ("}" + rest)[1..] == rest;
    PlainPrefixShape(n, "}" + rest);
  }

  // ------------------------------------------------------------ one replacement inside an open brace

  /** Inside a placeholder nothing is replaced. */
  lemma {:induction false} ScanInsideHole(s: string, key: string, value: string)
    requires HoleName(s).Some? && BraceFree(key)
    ensures HoleName(Scan(s, key, value)) == HoleName(s)
    ensures var n := |HoleName(s).value|;
            n < |s| && n < |Scan(s, key, value)| && Scan(s, key, value)[n + 1..] == Scan(s[n + 1..], key, value)
  {
    ScanCopies(s, key, value);
    var t := Scan(s, key, value);
    if s[0] != '}' {
      ScanInsideHole(s[1..], key, value);
      var n := |HoleName(s[1..]).value|;
      assert s[1..][n + 1..] == s[n + 2..] && t[1..][n + 1..] == t[n + 2..];
    }
  }

  /** `value` is a part of `name`. */
  ghost predicate Holds(name: string, value: string) {
    exists i :: OccursAt(name, value, i)
  }

  lemma HoldsAppended(front: string, name: string, value: string)
    ensures Holds(value + name, value)
    ensures Holds(name, value) ==> Holds(front + name, value)
  {
    assert OccursAt(value + name, value, 0);
    if i :| OccursAt(name, value, i) {
      OccursJoined(front, name, value, i);
    }
  }

  /** A placeholder that a replacement forms holds the inserted value, and its brace could be closed before. */
  lemma {:induction false} FormedHole(s: string, key: string, value: string)
    requires HoleName(s).None? && HoleName(Scan(s, key, value)).Some? && BraceFree(key) && BraceFree(value)
    ensures Closable(s) && Holds(HoleName(Scan(s, key, value)).value, value)
    decreases |s|
  {
    hide Holds;
    if At(s) == Some(key) {
      ScanHits(s, key, value);
      var rest := s[|key| + 2..];
      PlainPrefix(value, Scan(rest, key, value), map[]);
      HoldsAppended([], HoleName(Scan(rest, key, value)).value, value);
      if HoleName(rest).None? {
        FormedHole(rest, key, value);
      } else {
        HoleIsClosable(rest);
      }
    } else {
      ScanCopies(s, key, value);
      FormedHole(s[1..], key, value);
      HoldsAppended([s[0]], HoleName(Scan(s[1..], key, value)).value, value);
    }
  }

  lemma {:induction false} HoleIsClosable(s: string)
    requires HoleName(s).Some?
    ensures Closable(s)
  {
    if s[0] != '}' {
      HoleIsClosable(s[1..]);
    }
  }

  /** Replacing one variable first and the others simultaneously is replacing all of them simultaneously,
      if nothing is captured or the value is not part of another variable's name. */
  lemma {:induction false} ScanThenSimultaneous(s: string, key: string, value: string, m: map<string, string>)
    requires NoCapture(s) || forall k :: k in m ==> !Holds(k, value)
    requires BraceFree(key) && BraceFree(value) && key !in m
    ensures Simultaneous(Scan(s, key, value), m) == Simultaneous(s, m[key := value])
    decreases |s|
  {
    hide Simultaneous, Scan, Closable, HoleName, Holds;
    var m', t := m[key := value], Scan(s, key, value);
    if s == [] {
      NothingLeft(key, value, m, m');
    } else if At(s) == Some(key) {
      ScanHits(s, key, value);
      SimultaneousHits(s, m');
      var rest := s[|key| + 2..];
      if NoCapture(s) {
        SkipPlaceholder(s);
      }
      ScanThenSimultaneous(rest, key, value, m);
      PlainPrefix(value, Scan(rest, key, value), m);
    } else {
      ScanCopies(s, key, value);
      AtAfterScan(s, key, value);
      if At(s).Some? && At(s).value in m {
        SimultaneousHits(s, m');
        SimultaneousHits(t, m);
        if NoCapture(s) {
          SkipPlaceholder(s);
        }
        ScanThenSimultaneous(s[|At(s).value| + 2..], key, value, m);
      } else {
        SimultaneousCopies(s, m');
        SimultaneousCopies(t, m);
        ScanThenSimultaneous(s[1..], key, value, m);
      }
    }
  }

  lemma NothingLeft(key: string, value: string, m: map<string, string>, m': map<string, string>)
    ensures Simultaneous(Scan([], key, value), m) == Simultaneous([], m')
  {
  }

  /** How the placeholder at the front looks after a replacement that does not take it away. */
  lemma AtAfterScan(s: string, key: string, value: string)
    requires s != [] && At(s) != Some(key) && BraceFree(key) && BraceFree(value)
    ensures At(s).Some? ==>
              var t, n := Scan(s, key, value), |At(s).value|;
              At(t) == At(s) && n + 2 <= |s| && n + 2 <= |t| && t[n + 2..] == Scan(s[n + 2..], key, value)
    ensures At(s).None? && At(Scan(s, key, value)).Some? ==>
              !NoCapture(s) && Holds(At(Scan(s, key, value)).value, value)
  {
    hide Holds;
    ScanCopies(s, key, value);
    var t := Scan(s, key, value);
    if s[0] == '{' {
      if At(s).Some? {
        ScanInsideHole(s[1..], key, value);
        var n := |At(s).value|;
        assert s[1..][n + 1..] == s[n + 2..] && t[1..][n + 1..] == t[n + 2..];
      } else if HoleName(t[1..]).Some? {
        FormedHole(s[1..], key, value);
      }
    }
  }

  /** Replacing brings in no captures. */
  lemma {:induction false} ScanKeepsNoCapture(s: string, key: string, value: string)
    requires NoCapture(s) && BraceFree(key) && BraceFree(value)
    ensures NoCapture(Scan(s, key, value))
    ensures Closable(Scan(s, key, value)) ==> Closable(s)
    decreases |s|
  {
    hide Scan, HoleName;
    if s == [] {
      assert Scan([], key, value) == [] by { ScanEmpty(key, value); }
    } else if At(s) == Some(key) {
      ScanHits(s, key, value);
      SkipPlaceholder(s);
      ScanKeepsNoCapture(s[|key| + 2..], key, value);
      PlainPrefixShape(value, Scan(s[|key| + 2..], key, value));
      AtIs(s);
    } else {
      ScanCopies(s, key, value);
      AtAfterScan(s, key, value);
      ScanKeepsNoCapture(s[1..], key, value);
      if At(s).Some? {
        SkipPlaceholder(s);
        ScanKeepsNoCapture(s[|At(s).value| + 2..], key, value);
      }
    }
  }

  lemma ScanEmpty(key: string, value: string)
    ensures Scan([], key, value) == []
  {
  }

  // ------------------------------------------------------------ variables

  ghost predicate DistinctKeys(vars: Vars) {
    forall i, j :: 0 <= i < j < |vars| ==> vars[i].0 != vars[j].0
  }

  ghost predicate PlainVars(vars: Vars) {
    && DistinctKeys(vars)
    && forall v :: v in vars ==> BraceFree(v.0) && BraceFree(v.1) && !HasPattern(v.1)
  }

  lemma {:induction false} MapOfIs(vars: Vars, key: string, value: string)
    requires DistinctKeys(vars)
    ensures key in MapOf(vars) && MapOf(vars)[key] == value <==> (key, value) in vars
    ensures key in MapOf(vars) <==> exists v :: v in vars && v.0 == key
  {
    if vars != [] {
      MapOfIs(vars[1..], key, value);
      assert vars == [vars[0]] + vars[1..];
      if key == vars[0].0 {
        assert vars[0] in vars;
        assert forall j :: 0 <= j < |vars[1..]| ==> vars[1..][j] == vars[j + 1] && vars[j + 1].0 != vars[0].0;
      } else if exists v :: v in vars && v.0 == key {
        var v :| v in vars && v.0 == key;
        assert v in vars[1..];
      }
    }
  }

  lemma {:induction false} NothingToReplace(s: string)
    ensures Simultaneous(s, map[]) == s
  {
    if s != [] {
      NothingToReplace(s[1..]);
    }
  }

  /** No value is part of the name of a later variable. */
  ghost predicate NoNameHolds(vars: Vars) {
    forall i, j :: 0 <= i < j < |vars| ==> !Holds(vars[j].0, vars[i].1)
  }

  lemma LongValuesNotHeld(vars: Vars)
    requires forall v, w :: v in vars && w in vars ==> |v.0| < |w.1|
    ensures NoNameHolds(vars)
  {
    forall i, j | 0 <= i < j < |vars| ensures !Holds(vars[j].0, vars[i].1) {
      assert vars[i] in vars && vars[j] in vars;
    }
  }

  /** The loop computes the simultaneous substitution where nothing is captured, and also where no value is
      part of a later name. */
  lemma {:induction false} LoopIsSimultaneous(template: string, vars: Vars)
    requires PlainVars(vars)
    requires NoCapture(template) || NoNameHolds(vars)
    ensures Sequential(template, vars) == Simultaneous(template, MapOf(vars))
    decreases |vars|
  {
    hide Holds;
    if vars == [] {
      NothingToReplace(template);
    } else {
      var (key, value) := vars[0];
      assert vars[0] in vars && forall v :: v in vars[1..] ==> v in vars;
      assert forall i :: 0 <= i < |vars[1..]| ==> vars[1..][i] == vars[i + 1];
      ReplaceIsScan(template, key, value, 0);
      assert template[0..] == template;
      if NoCapture(template) {
        ScanKeepsNoCapture(template, key, value);
      }
      LoopIsSimultaneous(Scan(template, key, value), vars[1..]);
      MapOfIs(vars[1..], key, value);
      assert key !in MapOf(vars[1..]);
      forall k | k in MapOf(vars[1..]) ensures exists i :: 0 < i < |vars| && vars[i].0 == k {
        MapOfIs(vars[1..], k, "");
        var i :| 0 <= i < |vars[1..]| && vars[1..][i].0 == k;
        assert vars[i + 1].0 == k;
      }
      ScanThenSimultaneous(template, key, value, MapOf(vars[1..]));
    }
  }

  lemma SameMap(vars: Vars, vars': Vars)
    requires DistinctKeys(vars) && DistinctKeys(vars')
    requires forall v :: v in vars ==> v in vars'
    ensures forall key :: key in MapOf(vars) ==> key in MapOf(vars') && MapOf(vars)[key] == MapOf(vars')[key]
  {
    forall key | key in MapOf(vars) ensures key in MapOf(vars') && MapOf(vars)[key] == MapOf(vars')[key] {
      MapOfIs(vars, key, MapOf(vars)[key]);
      MapOfIs(vars', key, MapOf(vars)[key]);
    }
  }

  ghost predicate SameVars(vars: Vars, vars': Vars) {
    forall v :: v in vars <==> v in vars'
  }

  /** Without captures the order of the variables does not matter. */
  lemma OrderIrrelevant(template: string, vars: Vars, vars': Vars)
    requires NoCapture(template) && PlainVars(vars) && PlainVars(vars') && SameVars(vars, vars')
    ensures Sequential(template, vars) == Sequential(template, vars')
  {
    LoopIsSimultaneous(template, vars);
    LoopIsSimultaneous(template, vars');
    SameMap(vars, vars');
    SameMap(vars', vars);
    assert MapOf(vars) == MapOf(vars');
  }

  // ------------------------------------------------------------ a capture is always observable

  /** The names of the placeholders of `s`, each once. */
  function Names(s: string): seq<string> {
    if s == [] then []
    else
      var rest := Names(s[1..]);
      if At(s).Some? && At(s).value !in rest then [At(s).value] + rest else rest
  }

  lemma {:induction false} NamesIs(s: string)
    ensures forall i, j :: 0 <= i < j < |Names(s)| ==> Names(s)[i] != Names(s)[j]
    ensures forall n :: n in Names(s) ==> BraceFree(n) && |n| < |s|
    ensures At(s).Some? ==> At(s).value in Names(s)
  {
    if s != [] {
      NamesIs(s[1..]);
      AtIs(s);
    }
  }

  ghost predicate Covers(m: map<string, string>, s: string, value: string) {
    forall n :: n in Names(s) ==> n in m && m[n] == value
  }

  lemma {:induction false} CoversSuffix(m: map<string, string>, s: string, value: string, i: nat)
    requires Covers(m, s, value) && i <= |s|
    ensures Covers(m, s[i..], value)
  {
    if i > 0 {
      assert Covers(m, s[1..], value);
      CoversSuffix(m, s[1..], value, i - 1);
      assert s[1..][i - 1..] == s[i..];
    }
  }

  /** With every placeholder replaced, a closable text closes, at least one value further on. */
  lemma {:induction false} ClosableCloses(s: string, m: map<string, string>, value: string)
    requires Closable(s) && Covers(m, s, value) && BraceFree(value)
    ensures HoleName(Simultaneous(s, m)).Some?
    ensures HoleName(s).None? ==> |value| <= |HoleName(Simultaneous(s, m)).value|
    decreases |s|
  {
    NamesIs(s);
    if At(s).Some? {
      SimultaneousHits(s, m);
      var n := |At(s).value|;
      CoversSuffix(m, s, value, n + 2);
      ClosableCloses(s[n + 2..], m, value);
      PlainPrefix(value, Simultaneous(s[n + 2..], m), m);
    } else {
      SimultaneousCopies(s, m);
      if s[0] != '}' {
        CoversSuffix(m, s, value, 1);
        ClosableCloses(s[1..], m, value);
        assert Simultaneous(s, m)[1..] == Simultaneous(s[1..], m);
      }
    }
  }

  lemma HoleAtFront(t: string)
    requires At(t).Some?
    ensures BraceFree(At(t).value) && Hole(At(t).value) <= t
  {
    AtIs(t);
    HolePrefix(t, At(t).value);
  }

  /** A capture shows: replacing every placeholder by `value` forms a placeholder with a name that long. */
  lemma {:induction false} CaptureShows(s: string, m: map<string, string>, value: string) returns (name: string, i: nat)
    requires !NoCapture(s) && Covers(m, s, value) && BraceFree(value)
    ensures BraceFree(name) && |value| <= |name|
    ensures i <= |Simultaneous(s, m)| && Hole(name) <= Simultaneous(s, m)[i..]
    decreases |s|
  {
    hide Simultaneous, Hole, BraceFree, Names;
    NamesIs(s);
    var t := Simultaneous(s, m);
    if At(s).Some? {
      var n := |At(s).value|;
      SimultaneousHits(s, m);
      SkipPlaceholder(s);
      CoversSuffix(m, s, value, n + 2);
      var j: nat;
      name, j := CaptureShows(s[n + 2..], m, value);
      i := |value| + j;
      assert t[i..] == Simultaneous(s[n + 2..], m)[j..];
    } else {
      SimultaneousCopies(s, m);
      CoversSuffix(m, s, value, 1);
      assert t[1..] == Simultaneous(s[1..], m);
      if s[0] == '{' && Closable(s[1..]) {
        ClosableCloses(s[1..], m, value);
        name, i := HoleName(t[1..]).value, 0;
        HoleAtFront(t);
        assert t[0..] == t;
      } else {
        var j: nat;
        name, j := CaptureShows(s[1..], m, value);
        i := j + 1;
        assert t[i..] == t[1..][j..];
      }
    }
  }

  /** Replacing an occurring placeholder by nothing shortens the text. */
  lemma {:induction false} ScanShortens(s: string, key: string, i: nat)
    requires BraceFree(key)
    ensures |Scan(s, key, "")| <= |s|
    ensures i <= |s| && Hole(key) <= s[i..] ==> |Scan(s, key, "")| < |s|
    decreases |s|
  {
    if s != [] {
      if Hole(key) <= s {
        ScanShortens(s[|key| + 2..], key, 0);
      } else {
        assert s[0..] == s;
        if 0 < i <= |s| {
          assert s[1..][i - 1..] == s[i..];
          ScanShortens(s[1..], key, i - 1);
        } else {
          ScanShortens(s[1..], key, 0);
        }
      }
    }
  }

  /** A name longer than the template replaces nothing in it. */
  lemma {:induction false} LongNameIgnored(s: string, m: map<string, string>, name: string, value: string)
    requires |s| <= |name|
    ensures Simultaneous(s, m[name := value]) == Simultaneous(s, m)
    decreases |s|
  {
    if s != [] {
      AtIs(s);
      if At(s).Some? && At(s).value in m {
        LongNameIgnored(s[|At(s).value| + 2..], m, name, value);
      } else {
        LongNameIgnored(s[1..], m, name, value);
      }
    }
  }

  function AllTo(names: seq<string>, value: string): (vars: Vars)
    ensures |vars| == |names| && forall i :: 0 <= i < |names| ==> vars[i] == (names[i], value)
  {
    seq(|names|, i requires 0 <= i < |names| => (names[i], value))
  }

  lemma {:induction false} NoPatternWithoutDollar(v: string)
    requires '$' !in v
    ensures !HasPattern(v)
  {
    if v != [] {
      assert v[0] in v;
      assert forall p: string :: |p| == 2 && p <= v ==> p[0] == v[0];
      NoPatternWithoutDollar(v[1..]);
    }
  }

  lemma {:induction false} MapOfAppend(vars: Vars, v: (string, string))
    requires forall w :: w in vars ==> w.0 != v.0
    ensures MapOf(vars + [v]) == MapOf(vars)[v.0 := v.1]
  {
    if vars == [] {
      assert vars + [v] == [v];
      assert MapOf([v]) == MapOf([])[v.0 := v.1];
    } else {
      assert vars[0] in vars && (vars + [v])[1..] == vars[1..] + [v];
      MapOfAppend(vars[1..], v);
    }
  }

  /** Variables that give every placeholder of the template the same long value. */
  lemma CoverAll(template: string, value: string) returns (vars: Vars)
    requires BraceFree(value) && !HasPattern(value) && |value| > |template|
    ensures PlainVars(vars) && Covers(MapOf(vars), template, value)
    ensures forall v :: v in vars ==> |v.0| < |template|
    ensures Sequential(template, vars) == Simultaneous(template, MapOf(vars))
  {
    NamesIs(template);
    vars := AllTo(Names(template), value);
    forall v | v in vars ensures v.0 in Names(template) && v.1 == value {
    }
    LongValuesNotHeld(vars);
    LoopIsSimultaneous(template, vars);
    forall n | n in Names(template) ensures n in MapOf(vars) && MapOf(vars)[n] == value {
      var k :| 0 <= k < |Names(template)| && Names(template)[k] == n;
      assert vars[k] in vars;
      MapOfIs(vars, n, value);
    }
  }

  lemma OneMore(all: Vars, name: string)
    requires PlainVars(all) && BraceFree(name) && forall v :: v in all ==> v.0 != name
    ensures PlainVars(all + [(name, "")])
  {
  }

  /** A name longer than the template occurs nowhere in it. */
  lemma {:induction false} LongNameMisses(s: string, name: string, value: string)
    requires |s| <= |name|
    ensures Scan(s, name, value) == s
  {
    if s != [] {
      LongNameMisses(s[1..], name, value);
    }
  }

  /** For a template with a capture, one more variable that changes the text when it comes last. */
  lemma CaptureShortens(template: string) returns (all: Vars, name: string)
    requires !NoCapture(template)
    ensures |template| < |name| && (forall v :: v in all ==> v.0 != name)
    ensures PlainVars(all) && PlainVars(all + [(name, "")])
    ensures Sequential(template, all) == Simultaneous(template, MapOf(all))
    ensures |Sequential(template, all + [(name, "")])| < |Sequential(template, all)|
  {
    var value := seq(|template| + 1, _ => 'x');
    NoPatternWithoutDollar(value);
    assert BraceFree(value);
    hide NoCapture, Simultaneous, Sequential, HasPattern, Scan, Names;
    all := CoverAll(template, value);
    var i: nat;
    name, i := CaptureShows(template, MapOf(all), value);
    OneMore(all, name);
    SequentialAppend(template, all, (name, ""));
    var t := Sequential(template, all);
    ReplaceIsScan(t, name, "", 0);
    assert t[0..] == t;
    ScanShortens(t, name, i);
  }

  /** For a template with a capture, variables for which the loop goes wrong. */
  lemma CaptureBreaks(template: string) returns (vars: Vars)
    requires !NoCapture(template)
    ensures PlainVars(vars) && Sequential(template, vars) != Simultaneous(template, MapOf(vars))
  {
    hide NoCapture, Simultaneous, Sequential;
    var all, name := CaptureShortens(template);
    vars := all + [(name, "")];
    MapOfAppend(all, (name, ""));
    LongNameIgnored(template, MapOf(all), name, "");
  }

  /** For a template with a capture, two orders of the same variables that give different texts. */
  lemma OrderMatters(template: string) returns (vars: Vars, vars': Vars)
    requires !NoCapture(template)
    ensures PlainVars(vars) && PlainVars(vars') && SameVars(vars, vars')
    ensures Sequential(template, vars) != Sequential(template, vars')
  {
    var all, name := CaptureShortens(template);
    vars, vars' := all + [(name, "")], [(name, "")] + all;
    ReplaceIsScan(template, name, "", 0);
    assert template[0..] == template;
    LongNameMisses(template, name, "");
    assert vars'[0] == (name, "") && vars'[1..] == all;
  }

  /** The text is independent of the order of the variables, for all plain variables, exactly when the
      template captures nothing. */
  lemma OrderIrrelevantIff(template: string)
    ensures (forall vars, vars' :: PlainVars(vars) && PlainVars(vars') && SameVars(vars, vars') ==>
               Sequential(template, vars) == Sequential(template, vars'))
            <==> NoCapture(template)
  {
    if NoCapture(template) {
      forall vars, vars' | PlainVars(vars) && PlainVars(vars') && SameVars(vars, vars')
        ensures Sequential(template, vars) == Sequential(template, vars')
      {
        OrderIrrelevant(template, vars, vars');
      }
    } else {
      var vars, vars' := OrderMatters(template);
    }
  }

  /** The loop computes the simultaneous substitution for all plain variables exactly when the template
      captures nothing: no brace outside a placeholder can be closed by replacing what follows it. */
  lemma LoopIsSimultaneousIff(template: string)
    ensures (forall vars :: PlainVars(vars) ==> Sequential(template, vars) == Simultaneous(template, MapOf(vars)))
            <==> NoCapture(template)
  {
    if NoCapture(template) {
      forall vars | PlainVars(vars) ensures Sequential(template, vars) == Simultaneous(template, MapOf(vars)) {
        LoopIsSimultaneous(template, vars);
      }
    } else {
      var vars := CaptureBreaks(template);
    }
  }

  // ------------------------------------------------------------ variables that are always safe

  lemma {:induction false} SequentialConcat(text: string, a: Vars, b: Vars)
    ensures Sequential(text, a + b) == Sequential(Sequential(text, a), b)
    decreases |a|
  {
    if a == [] {
      assert a + b == b;
    } else {
      assert (a + b)[1..] == a[1..] + b;
      SequentialConcat(ReplaceAll(text, Hole(a[0].0), a[0].1), a[1..], b);
    }
  }

  /** A text without the placeholder is not changed. */
  lemma {:induction false} UnnamedMisses(s: string, key: string, value: string)
    requires BraceFree(key) && key !in Names(s)
    ensures Scan(s, key, value) == s
  {
    if s != [] {
      ScanCopies(s, key, value);
      UnnamedMisses(s[1..], key, value);
    }
  }

  lemma {:induction false} UnnamedKept(s: string, vars: Vars)
    requires PlainVars(vars) && forall v :: v in vars ==> v.0 !in Names(s)
    ensures Sequential(s, vars) == s
    decreases |vars|
  {
    hide Names, BraceFree, HasPattern;
    if vars != [] {
      assert vars[0] in vars && forall v :: v in vars[1..] ==> v in vars;
      ReplaceIsScan(s, vars[0].0, vars[0].1, 0);
      assert s[0..] == s;
      UnnamedMisses(s, vars[0].0, vars[0].1);
      UnnamedKept(s, vars[1..]);
    }
  }

  lemma {:induction false} NamesAfterText(v: string, s: string)
    requires BraceFree(v)
    ensures Names(v + s) == Names(s)
  {
    if v == [] {
      assert v + s == s;
    } else {
      assert (v + s)[1..] == v[1..] + s && (v + s)[0] == v[0];
      NamesAfterText(v[1..], s);
    }
  }

  lemma NamesOfHole(key: string, s: string)
    requires BraceFree(key)
    ensures forall n :: n in Names(Hole(key) + s) <==> n == key || n in Names(s)
  {
    PlaceholderAt(key, s);
    var closing := "}" + s;
    assert (Hole(key) + s)[1..] == key + closing && closing[1..] == s;
    NamesAfterText(key, closing);
    assert Names(closing) == Names(s);
  }

  lemma PlainAlone(v: string, m: map<string, string>)
    requires BraceFree(v)
    ensures Names(v) == [] && Simultaneous(v, m) == v
  {
    NamesAfterText(v, []);
    PlainPrefix(v, [], m);
    assert v + [] == v && Simultaneous([], m) == [];
  }

  /** A template whose only placeholder completes the name of another one when it is replaced. */
  function Trap(front: string, key: string, back: string): string { "{" + (front + (Hole(key) + (back + "}"))) }

  lemma TrapIs(front: string, key: string, value: string, back: string, m: map<string, string>)
    requires BraceFree(front) && BraceFree(key) && BraceFree(value) && BraceFree(back)
    requires key in m && m[key] == value
    ensures Names(Trap(front, key, back)) == [key]
    ensures Simultaneous(Trap(front, key, back), m) == Hole(front + value + back)
  {
    hide Simultaneous, Names, Hole, HoleName, BraceFree;
    var tail := back + "}";
    var middle := Hole(key) + tail;
    PlainPrefix(back, "}", m);
    NamesAfterText(back, "}");
    BraceAlone(m);
    PlaceholderFirst(key, tail, m);
    NamesOfHole(key, tail);
    NamesIs(middle);
    OnlyName(Names(middle), key);
    PlainPrefix(front, middle, m);
    NamesAfterText(front, middle);
    HoleStarts(key, tail);
    TrapOpens(front + middle, m);
    TrapText(front, value, back);
  }

  lemma BraceAlone(m: map<string, string>)
    ensures Names("}") == [] && Simultaneous("}", m) == "}"
  {
    ClosingFirst([], m);
    assert "}" + [] == "}" && Simultaneous([], m) == [] && "}"[1..] == [];
  }

  lemma HoleStarts(key: string, s: string)
    ensures HoleName(Hole(key) + s) == None
  {
  }

  lemma TrapText(front: string, value: string, back: string)
    ensures "{" + (front + (value + (back + "}"))) == Hole(front + value + back)
  {
  }

  lemma OnlyName(names: seq<string>, key: string)
    requires forall i, j :: 0 <= i < j < |names| ==> names[i] != names[j]
    requires forall n :: n in names <==> n == key
    ensures names == [key]
  {
    assert key in names && (|names| < 2 || names[0] != names[1]);
    forall k | 0 <= k < |names| ensures names[k] == key {
      assert names[k] in names;
    }
  }

  /** An opening brace that no placeholder closes is copied. */
  lemma TrapOpens(s: string, m: map<string, string>)
    requires HoleName(s).None?
    ensures Names("{" + s) == Names(s) && Simultaneous("{" + s, m) == "{" + Simultaneous(s, m)
  {
    assert ("{" + s)[1..] == s;
  }

  /** One placeholder alone: only its own variable changes it. */
  lemma HoleAlone(vars: Vars, j: nat)
    requires PlainVars(vars) && j < |vars|
    ensures Sequential(Hole(vars[j].0), vars) == vars[j].1
  {
    var (key, value) := vars[j];
    assert vars[j] in vars;
    NamesOfHole(key, []);
    assert Hole(key) + [] == Hole(key);
    OneEffective(Hole(key), vars, j);
    WholeTemplate(key, value);
    PlainAlone(value, map[]);
    SubVars(vars, j + 1);
    UnnamedKept(value, vars[j + 1..]);
  }

  lemma SubVars(vars: Vars, n: nat)
    requires PlainVars(vars) && n <= |vars|
    ensures PlainVars(vars[n..]) && PlainVars(vars[..n])
    ensures forall v :: v in vars[..n] || v in vars[n..] ==> v in vars
  {
    assert forall k :: 0 <= k < |vars[n..]| ==> vars[n..][k] == vars[n + k];
    forall v | v in vars[..n] || v in vars[n..] ensures v in vars {
    }
  }

  /** Up to the one variable whose placeholder the text holds, nothing happens. */
  lemma OneEffective(text: string, vars: Vars, i: nat)
    requires PlainVars(vars) && i < |vars| && forall n :: n in Names(text) ==> n == vars[i].0
    ensures Sequential(text, vars) == Sequential(ReplaceAll(text, Hole(vars[i].0), vars[i].1), vars[i + 1..])
  {
    hide Names, BraceFree, HasPattern;
    assert vars == vars[..i] + vars[i..] && vars[i..][0] == vars[i] && vars[i..][1..] == vars[i + 1..];
    SubVars(vars, i);
    UnnamedKept(text, vars[..i]);
    SequentialConcat(text, vars[..i], vars[i..]);
  }

  /** If a value is part of a later name, the trap shows it: the loop replaces the name it completes. */
  lemma HeldValueBreaks(vars: Vars, i: nat, j: nat, at: int)
    requires PlainVars(vars) && i < j < |vars| && OccursAt(vars[j].0, vars[i].1, at)
    ensures var name := vars[j].0;
            var template := Trap(name[..at], vars[i].0, name[at + |vars[i].1|..]);
            && Sequential(template, vars) == vars[j].1
            && Simultaneous(template, MapOf(vars)) == Hole(name)
            && Sequential(template, vars) != Simultaneous(template, MapOf(vars))
  {
    hide Names, Simultaneous, Sequential, BraceFree, HasPattern, Trap, MapOf, Hole;
    var name, key, value := vars[j].0, vars[i].0, vars[i].1;
    var front, back := name[..at], name[at + |value|..];
    assert vars[i] in vars && vars[j] in vars;
    OccursBetween(name, value, at);
    PartsBraceFree(front, value, back);
    MapOfIs(vars, key, value);
    TrapIs(front, key, value, back, MapOf(vars));
    TrapSprings(vars, i, j, front, back);
    HoleIsNot(name, vars[j].1);
  }

  /** On the trap the loop first completes the later name and then replaces it. */
  lemma TrapSprings(vars: Vars, i: nat, j: nat, front: string, back: string)
    requires PlainVars(vars) && i < j < |vars| && vars[j].0 == front + vars[i].1 + back
    requires BraceFree(front) && BraceFree(back)
    ensures Sequential(Trap(front, vars[i].0, back), vars) == vars[j].1
  {
    hide Names, Simultaneous, Sequential, BraceFree, HasPattern, Trap, ReplaceAll, Hole;
    var key, value, template, rest := vars[i].0, vars[i].1, Trap(front, vars[i].0, back), vars[i + 1..];
    assert vars[i] in vars && vars[j] in vars;
    TrapIs(front, key, value, back, map[key := value]);
    OneEffective(template, vars, i);
    ReplaceIsOne(template, key, value);
    SubVars(vars, i + 1);
    assert rest[j - i - 1] == vars[j];
    HoleAlone(rest, j - i - 1);
  }

  lemma OccursBetween(s: string, part: string, at: int)
    requires OccursAt(s, part, at)
    ensures s == s[..at] + part + s[at + |part|..]
  {
  }

  lemma PartsBraceFree(a: string, b: string, c: string)
    requires BraceFree(a + b + c)
    ensures BraceFree(a) && BraceFree(b) && BraceFree(c)
  {
    assert (forall d :: d in a ==> d in a + b + c) && (forall d :: d in b ==> d in a + b + c) && forall d :: d in c ==> d in a + b + c;
  }

  lemma HoleIsNot(name: string, value: string)
    requires BraceFree(value)
    ensures Hole(name) != value
  {
    assert Hole(name)[0] == '{';
  }

  lemma ReplaceIsOne(s: string, key: string, value: string)
    requires BraceFree(key) && BraceFree(value) && !HasPattern(value)
    ensures ReplaceAll(s, Hole(key), value) == Simultaneous(s, map[key := value])
  {
    var none: map<string, string> := map[];
    ReplaceIsScan(s, key, value, 0);
    assert s[0..] == s;
    ScanThenSimultaneous(s, key, value, none);
    NothingToReplace(Scan(s, key, value));
    assert none[key := value] == map[key := value];
  }

  /** The caller's side: with plain variables the loop is the simultaneous substitution for every template
      exactly when no value is part of the name of a later variable. */
  lemma AlwaysSimultaneousIff(vars: Vars)
    requires PlainVars(vars)
    ensures (forall template :: Sequential(template, vars) == Simultaneous(template, MapOf(vars))) <==> NoNameHolds(vars)
  {
    if NoNameHolds(vars) {
      forall template ensures Sequential(template, vars) == Simultaneous(template, MapOf(vars)) {
        LoopIsSimultaneous(template, vars);
      }
    } else {
      var i, j :| 0 <= i < j < |vars| && Holds(vars[j].0, vars[i].1);
      var at :| OccursAt(vars[j].0, vars[i].1, at);
      HeldValueBreaks(vars, i, j, at);
    }
  }

  // ------------------------------------------------------------ templates as written

  /** No `{` comes before the first `}`. */
  predicate ClosesFirst(s: string) {
    s != [] && s[0] != '}' ==> s[0] != '{' && ClosesFirst(s[1..])
  }

  /** Between two opening braces there is a closing one. */
  predicate NonNested(s: string) {
    s != [] ==> (s[0] == '{' ==> ClosesFirst(s[1..])) && NonNested(s[1..])
  }

  lemma {:induction false} ClosesFirstIs(s: string)
    requires ClosesFirst(s)
    ensures Closable(s) <==> HoleName(s).Some?
  {
    if s != [] && s[0] != '}' {
      ClosesFirstIs(s[1..]);
    }
  }

  /** Templates without nested braces are safe. */
  lemma {:induction false} NonNestedCapturesNothing(s: string)
    requires NonNested(s)
    ensures NoCapture(s)
  {
    if s != [] {
      NonNestedCapturesNothing(s[1..]);
      if s[0] == '{' {
        ClosesFirstIs(s[1..]);
      }
    }
  }

  /** A template as its author means it. */
  datatype Token = Text(text: string) | Placeholder(key: string)

  ghost predicate PlainTokens(ts: seq<Token>) {
    forall t :: t in ts ==> BraceFree(if t.Text? then t.text else t.key)
  }

  function Render(ts: seq<Token>): string {
    if ts == [] then []
    else (if ts[0].Text? then ts[0].text else Hole(ts[0].key)) + Render(ts[1..])
  }

  /** Known placeholders by their value, unknown ones and all text as written. */
  function RenderWith(ts: seq<Token>, m: map<string, string>): string {
    if ts == [] then []
    else
      (match ts[0]
       case Text(text) => text
       case Placeholder(key) => if key in m then m[key] else Hole(key)) + RenderWith(ts[1..], m)
  }

  lemma PlaceholderAt(key: string, rest: string)
    requires BraceFree(key)
    ensures At(Hole(key) + rest) == Some(key) && (Hole(key) + rest)[|key| + 2..] == rest
  {
    var s := Hole(key) + rest;
    assert Hole(key) <= s;
    HolePrefix(s, key);
  }

  lemma PlaceholderFirst(key: string, rest: string, m: map<string, string>)
    requires BraceFree(key)
    ensures Simultaneous(Hole(key) + rest, m) == (if key in m then m[key] else Hole(key)) + Simultaneous(rest, m)
  {
    PlaceholderAt(key, rest);
    hide Simultaneous, At, BraceFree;
    var s, closing := Hole(key) + rest, "}" + rest;
    if key in m {
      SimultaneousHits(s, m);
    } else {
      SimultaneousCopies(s, m);
      assert s[1..] == key + closing;
      PlainPrefix(key, closing, m);
      ClosingFirst(rest, m);
      assert "{" + (key + ("}" + Simultaneous(rest, m))) == Hole(key) + Simultaneous(rest, m);
    }
  }

  lemma ClosingFirst(rest: string, m: map<string, string>)
    ensures Simultaneous("}" + rest, m) == "}" + Simultaneous(rest, m)
  {
    assert ("}" + rest)[0] == '}' && ("}" + rest)[1..] == rest;
  }

  lemma EmptyTemplate(m: map<string, string>)
    ensures NoCapture([]) && Simultaneous([], m) == []
  {
  }

  lemma {:induction false} SimultaneousRender(ts: seq<Token>, m: map<string, string>)
    requires PlainTokens(ts)
    ensures NoCapture(Render(ts)) && Simultaneous(Render(ts), m) == RenderWith(ts, m)
  {
    hide Simultaneous, NoCapture, BraceFree, At, Hole;
    EmptyTemplate(m);
    if ts != [] {
      assert ts[0] in ts && forall t :: t in ts[1..] ==> t in ts;
      SimultaneousRender(ts[1..], m);
      var rest := Render(ts[1..]);
      match ts[0]
      case Text(text) =>
        PlainPrefix(text, rest, m);
        PlainPrefixShape(text, rest);
      case Placeholder(key) =>
        PlaceholderAt(key, rest);
        SkipPlaceholder(Hole(key) + rest);
        PlaceholderFirst(key, rest, m);
    }
  }

  /** What a translator writes is what the reader sees: text kept, known placeholders
      replaced by their values, unknown ones left alone. */
  lemma InterpolateRender(ts: seq<Token>, vars: Vars)
    requires PlainTokens(ts) && PlainVars(vars)
    ensures Sequential(Render(ts), vars) == RenderWith(ts, MapOf(vars))
  {
    SimultaneousRender(ts, MapOf(vars));
    LoopIsSimultaneous(Render(ts), vars);
  }

  // ------------------------------------------------------------ where the loop departs from it

  /** Whether `$&`, which inserts the placeholder itself, is among the patterns the expansion meets. */
  predicate InsertsMatch(v: string) {
    v != [] && (if "$$" <= v || "$`" <= v || "$'" <= v then InsertsMatch(v[2..])
                else "$&" <= v || InsertsMatch(v[1..]))
  }

  lemma {:induction false} ExpandLength(hole: string, v: string)
    ensures InsertsMatch(v) ==> |hole| <= |Expand(hole, hole, 0, v)|
    ensures !InsertsMatch(v) ==> |Expand(hole, hole, 0, v)| <= |v| - if HasPattern(v) then 1 else 0
    decreases |v|
  {
    if v == [] {
    } else if "$$" <= v || "$`" <= v || "$'" <= v || "$&" <= v {
      ExpandLength(hole, v[2..]);
    } else {
      ExpandLength(hole, v[1..]);
    }
  }

  /** In every text, `replaceAll` puts a value verbatim in the place of every occurrence of a placeholder
      exactly when the value holds none of the four patterns it gives a meaning to. */
  lemma VerbatimIff(v: string)
    ensures (forall s, key :: ReplaceAll(s, Hole(key), v) == Scan(s, key, v)) <==> !HasPattern(v)
  {
    if HasPattern(v) {
      var key := seq(|v|, _ => 'k');
      var hole := Hole(key);
      ReplaceHits(hole, hole, v, 0);
      NoMatchAtEnd(hole, hole, v);
      ExpandLength(hole, v);
      assert hole[|key| + 2..] == [];
      assert Scan(hole, key, v) == v + Scan([], key, v);
      assert ReplaceAll(hole, hole, v) != Scan(hole, key, v);
    } else {
      forall s, key ensures ReplaceAll(s, Hole(key), v) == Scan(s, key, v) {
        ReplaceIsScan(s, key, v, 0);
        assert s[0..] == s;
      }
    }
  }

  lemma ExpandCopies(s: string, matched: string, position: nat, c: char, r: string)
    requires position + |matched| <= |s| && c != '$'
    ensures Expand(s, matched, position, [c] + r) == [c] + Expand(s, matched, position, r)
  {
    assert ([c] + r)[0] == c && ([c] + r)[1..] == r;
    assert forall p: string :: |p| == 2 && p <= [c] + r ==> p[0] == c;
  }

  lemma {:induction false} ExpandAfterText(s: string, matched: string, position: nat, a: string, r: string)
    requires position + |matched| <= |s| && '$' !in a
    ensures Expand(s, matched, position, a + r) == a + Expand(s, matched, position, r)
  {
    hide *;
    if a == [] {
      assert a + r == r;
    } else {
      assert a[0] in a && a + r == [a[0]] + (a[1..] + r);
      ExpandCopies(s, matched, position, a[0], a[1..] + r);
      ExpandAfterText(s, matched, position, a[1..], r);
    }
  }

  lemma ReplacesOnce(x: string, key: string, y: string, v: string)
    requires BraceFree(x) && BraceFree(y)
    ensures ReplaceAll(x + Hole(key) + y, Hole(key), v) == x + Expand(x + Hole(key) + y, Hole(key), |x|, v) + y
  {
    var s, hole := x + Hole(key) + y, Hole(key);
    assert hole[0] == '{';
    forall j | 0 <= j < |x| ensures !OccursAt(s, hole, j) {
      assert s[j] == x[j] && x[j] in x;
      Mismatch(s, hole, j, 0);
    }
    FindIs(s, hole, |x|);
    var end := |x| + |hole|;
    forall j | end <= j ensures !OccursAt(s, hole, j) {
      if j < |s| {
        assert s[j] == y[j - end] && y[j - end] in y;
        Mismatch(s, hole, j, 0);
      }
    }
    assert Find(s, hole, end) == None;
    ReplaceFinds(s, hole, v, 0, |x|);
    ReplaceMisses(s, hole, v, end);
    assert s[0..|x|] == x && s[end..] == y;
  }

  /** What the four patterns insert between the rest of the value: a dollar sign, the placeholder, the text before
      it, the text behind it. */
  lemma PatternsMean(x: string, key: string, y: string, a: string, b: string)
    requires BraceFree(x) && BraceFree(y) && '$' !in a && '$' !in b
    ensures var text := x + Hole(key) + y;
            && ReplaceAll(text, Hole(key), a + "$$" + b) == x + (a + "$" + b) + y
            && ReplaceAll(text, Hole(key), a + "$&" + b) == x + (a + Hole(key) + b) + y
            && ReplaceAll(text, Hole(key), a + "$`" + b) == x + (a + x + b) + y
            && ReplaceAll(text, Hole(key), a + "$'" + b) == x + (a + y + b) + y
  {
    PatternMeans(x, key, y, a, "$$", "$", b);
    PatternMeans(x, key, y, a, "$&", Hole(key), b);
    PatternMeans(x, key, y, a, "$`", x, b);
    PatternMeans(x, key, y, a, "$'", y, b);
  }

  lemma PatternMeans(x: string, key: string, y: string, a: string, pattern: string, meaning: string, b: string)
    requires BraceFree(x) && BraceFree(y) && '$' !in a && '$' !in b
    requires (pattern == "$$" && meaning == "$") || (pattern == "$&" && meaning == Hole(key))
             || (pattern == "$`" && meaning == x) || (pattern == "$'" && meaning == y)
    ensures ReplaceAll(x + Hole(key) + y, Hole(key), a + pattern + b) == x + (a + meaning + b) + y
  {
    hide Expand, ReplaceAll, HasPattern, BraceFree, Hole;
    var text, hole := x + Hole(key) + y, Hole(key);
    ReplacesOnce(x, key, y, a + pattern + b);
    assert a + pattern + b == a + (pattern + b);
    ExpandAfterText(text, hole, |x|, a, pattern + b);
    assert text[..|x|] == x && text[|x| + |hole|..] == y;
    ExpandsPattern(text, hole, |x|, pattern, b);
    NoPatternWithoutDollar(b);
    ExpandPlain(text, hole, |x|, b);
    PatternsDiffer();
    assert a + (meaning + b) == a + meaning + b;
  }

  lemma PatternsDiffer()
    ensures "$$" != "$&" && "$$" != "$`" && "$$" != "$'" && "$&" != "$`" && "$&" != "$'" && "$`" != "$'"
  {
    assert "$$"[1] == '$' && "$&"[1] == '&' && "$`"[1] == '`' && "$'"[1] == '\'';
  }

  lemma ExpandsPattern(s: string, matched: string, position: nat, pattern: string, b: string)
    requires position + |matched| <= |s| && pattern in ["$$", "$&", "$`", "$'"]
    ensures Expand(s, matched, position, pattern + b) ==
            (if pattern == "$$" then "$" else if pattern == "$&" then matched
             else if pattern == "$`" then s[..position] else s[position + |matched|..]) + Expand(s, matched, position, b)
  {
    assert (pattern + b)[2..] == b && pattern <= pattern + b;
  }

  lemma WholeTemplate(key: string, v: string)
    requires !HasPattern(v)
    ensures ReplaceAll(Hole(key), Hole(key), v) == v
  {
    ReplaceHits(Hole(key), Hole(key), v, 0);
    NoMatchAtEnd(Hole(key), Hole(key), v);
    ExpandPlain(Hole(key), Hole(key), 0, v);
  }

  /** A value that is itself the placeholder of a later variable is replaced again, which no
      simultaneous substitution does. */
  lemma {:induction false} BracedValueIsReplaced(a: string, b: string, w: string)
    requires BraceFree(a) && BraceFree(b) && a != b
    requires !HasPattern(Hole(b)) && !HasPattern(w)
    ensures Sequential(Hole(a), [(a, Hole(b)), (b, w)]) == w
    ensures Simultaneous(Hole(a), MapOf([(a, Hole(b)), (b, w)])) == Hole(b)
  {
    var vars := [(a, Hole(b)), (b, w)];
    WholeTemplate(a, Hole(b));
    WholeTemplate(b, w);
    assert vars[1..] == [(b, w)] && vars[1..][1..] == [];
    assert Sequential(Hole(b), vars[1..]) == w by {
      assert Sequential(w, []) == w;
    }
    assert a in MapOf(vars) && MapOf(vars)[a] == Hole(b);
    PlaceholderFirst(a, [], MapOf(vars));
    assert Hole(a) + [] == Hole(a) && Hole(b) + Simultaneous([], MapOf(vars)) == Hole(b);
  }
}
