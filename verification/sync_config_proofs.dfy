/** Properties of the manifest queries: which scopes the modules-by-scope
    mapping keeps and in what order, what each entry holds, and what a
    per-scope query returns for valid, kept, skipped and unknown scopes. */
module SyncConfigProofs {
  import opened Wrappers
  import opened Assoc
  import opened SyncConfig

  /** Positions, from `i` on, of the scopes that contribute an entry. */
  ghost function KeptFrom(scopes: seq<(string, ScopeEntry)>, base: Option<seq<string>>, i: nat): seq<nat>
    requires i <= |scopes|
    decreases |scopes| - i
  {
    if i == |scopes| then []
    else
      var rest := KeptFrom(scopes, base, i + 1);
      if Skipped(scopes[i].1, base) then rest else [i] + rest
  }

  /** `m` lists, at strictly increasing positions `pos` from `lo` on, exactly
      the scopes that are not skipped, each paired with its entry. */
  ghost predicate Enumerates(scopes: seq<(string, ScopeEntry)>, base: Option<seq<string>>, lo: nat,
                             m: seq<(string, seq<string>)>, pos: seq<nat>)
  {
    && |pos| == |m|
    && (forall j :: 0 <= j < |pos| ==> lo <= pos[j] < |scopes|)
    && (forall j, k :: 0 <= j < k < |pos| ==> pos[j] < pos[k])
    && (forall j :: 0 <= j < |pos| ==> m[j] == (scopes[pos[j]].0, EntryFor(scopes[pos[j]].1, base)))
    && (forall k :: lo <= k < |scopes| ==> (k in pos <==> !Skipped(scopes[k].1, base)))
  }

  /** A skipped scope at `i` leaves the enumeration of `i + 1..` unchanged. */
  lemma EnumeratesSkip(scopes: seq<(string, ScopeEntry)>, base: Option<seq<string>>, i: nat,
                       m: seq<(string, seq<string>)>, pos: seq<nat>)
    requires i < |scopes|
    requires Skipped(scopes[i].1, base)
    requires Enumerates(scopes, base, i + 1, m, pos)
    ensures Enumerates(scopes, base, i, m, pos)
  {
  }

  /** A kept scope at `i` goes in front of the enumeration of `i + 1..`. */
  lemma EnumeratesKeep(scopes: seq<(string, ScopeEntry)>, base: Option<seq<string>>, i: nat,
                       m: seq<(string, seq<string>)>, pos: seq<nat>)
    requires i < |scopes|
    requires !Skipped(scopes[i].1, base)
    requires Enumerates(scopes, base, i + 1, m, pos)
    ensures Enumerates(scopes, base, i, [(scopes[i].0, EntryFor(scopes[i].1, base))] + m, [i] + pos)
  {
  }

  lemma {:induction false} ModulesFromEnumerates(scopes: seq<(string, ScopeEntry)>, base: Option<seq<string>>, i: nat)
    requires i <= |scopes|
    ensures Enumerates(scopes, base, i, ModulesFrom(scopes, base, i), KeptFrom(scopes, base, i))
    decreases |scopes| - i
  {
    if i < |scopes| {
      ModulesFromEnumerates(scopes, base, i + 1);
      var m := ModulesFrom(scopes, base, i + 1);
      var pos := KeptFrom(scopes, base, i + 1);
      if Skipped(scopes[i].1, base) {
        EnumeratesSkip(scopes, base, i, m, pos);
      } else {
        EnumeratesKeep(scopes, base, i, m, pos);
      }
    }
  }

  /** The modules-by-scope mapping is exactly the non-skipped scopes, in
      document order, each with its entry. */
  lemma GetModulesEnumeratesKept(d: Doc)
    ensures Enumerates(d.scopes, d.base, 0, GetModules(d), KeptFrom(d.scopes, d.base, 0))
  {
    ModulesFromEnumerates(d.scopes, d.base, 0);
  }

  /** No scope name is mapped twice. */
  lemma GetModulesKeysDistinct(d: Doc)
    requires WellFormed(d)
    ensures DistinctKeys(GetModules(d))
  {
    GetModulesEnumeratesKept(d);
  }

  /** A scope has a key in the mapping iff it is not skipped. */
  lemma GetModulesHasKeyIffKept(d: Doc, i: nat)
    requires WellFormed(d)
    requires i < |d.scopes|
    ensures d.scopes[i].0 in Keys(GetModules(d)) <==> !Skipped(d.scopes[i].1, d.base)
  {
    var m := GetModules(d);
    var pos := KeptFrom(d.scopes, d.base, 0);
    GetModulesEnumeratesKept(d);
    if d.scopes[i].0 in Keys(m) {
      var j :| 0 <= j < |m| && Keys(m)[j] == d.scopes[i].0;
      assert d.scopes[pos[j]].0 == d.scopes[i].0;
      assert pos[j] == i;
    }
    if !Skipped(d.scopes[i].1, d.base) {
      var j :| 0 <= j < |pos| && pos[j] == i;
      assert Keys(m)[j] == d.scopes[i].0;
    }
  }

  /** Indexing the mapping by a kept scope yields that scope's entry. */
  lemma LookupKept(d: Doc, i: nat)
    requires WellFormed(d)
    requires i < |d.scopes|
    requires !Skipped(d.scopes[i].1, d.base)
    ensures Lookup(GetModules(d), d.scopes[i].0) == Some(EntryFor(d.scopes[i].1, d.base))
  {
    var m := GetModules(d);
    var pos := KeptFrom(d.scopes, d.base, 0);
    GetModulesEnumeratesKept(d);
    GetModulesKeysDistinct(d);
    var j :| 0 <= j < |pos| && pos[j] == i;
    LookupDistinct(m, j);
  }

  /** When every scope from `i` on is skipped, they contribute no entry. */
  lemma {:induction false} AllSkippedNoModules(scopes: seq<(string, ScopeEntry)>, base: Option<seq<string>>, i: nat)
    requires i <= |scopes|
    requires forall k :: i <= k < |scopes| ==> Skipped(scopes[k].1, base)
    ensures ModulesFrom(scopes, base, i) == []
    decreases |scopes| - i
  {
    if i < |scopes| {
      AllSkippedNoModules(scopes, base, i + 1);
    }
  }

  /** The mapping is empty iff every scope is skipped. */
  lemma NoModulesIffAllSkipped(d: Doc)
    ensures GetModules(d) == [] <==> forall k :: 0 <= k < |d.scopes| ==> Skipped(d.scopes[k].1, d.base)
  {
    if forall k :: 0 <= k < |d.scopes| ==> Skipped(d.scopes[k].1, d.base) {
      AllSkippedNoModules(d.scopes, d.base, 0);
    }
  }

  /** A valid scope that contributes an entry gets exactly that entry. */
  lemma ModulesByScopeOfKept(d: Doc, i: nat)
    requires WellFormed(d)
    requires i < |d.scopes|
    requires !Skipped(d.scopes[i].1, d.base)
    ensures GetModulesByScope(d, d.scopes[i].0) == Success(Some(EntryFor(d.scopes[i].1, d.base)))
  {
    LookupKept(d, i);
  }

  /** A scope with its own `modules` gets the mapping's entry for it, which
      starts with those modules. */
  lemma ModulesByScopeAgreesWithMapping(d: Doc, i: nat)
    requires WellFormed(d)
    requires i < |d.scopes|
    requires d.scopes[i].1.modules.Some?
    ensures GetModulesByScope(d, d.scopes[i].0) == Success(Lookup(GetModules(d), d.scopes[i].0))
    ensures Lookup(GetModules(d), d.scopes[i].0).Some?
    ensures d.scopes[i].1.modules.value <= Lookup(GetModules(d), d.scopes[i].0).value
  {
    LookupKept(d, i);
  }

  /** A valid scope that contributes no entry yields `[]` when no scope
      contributes one, and the undefined index (`None`) otherwise. */
  lemma ModulesByScopeOfSkipped(d: Doc, i: nat)
    requires WellFormed(d)
    requires i < |d.scopes|
    requires Skipped(d.scopes[i].1, d.base)
    ensures (forall k :: 0 <= k < |d.scopes| ==> Skipped(d.scopes[k].1, d.base)) ==>
              GetModulesByScope(d, d.scopes[i].0) == Success(Some([]))
    ensures (exists k :: 0 <= k < |d.scopes| && !Skipped(d.scopes[k].1, d.base)) ==>
              GetModulesByScope(d, d.scopes[i].0) == Success(None)
  {
    NoModulesIffAllSkipped(d);
    GetModulesHasKeyIffKept(d, i);
  }

  /** The corrected query agrees with the source wherever the source returns a list. */
  lemma OrEmptyAgreesWhereDefined(d: Doc, s: string)
    ensures forall v :: GetModulesByScope(d, s) == Success(Some(v)) ==> GetModulesByScopeOrEmpty(d, s) == Success(v)
  {
  }

  /** The corrected query gives every valid scope its entry, or `[]` when it is skipped. */
  lemma OrEmptyOfScope(d: Doc, s: string)
    requires WellFormed(d)
    ensures forall i :: 0 <= i < |d.scopes| && d.scopes[i].0 == s ==>
              GetModulesByScopeOrEmpty(d, s) ==
                Success(if Skipped(d.scopes[i].1, d.base) then [] else EntryFor(d.scopes[i].1, d.base))
  {
    forall i | 0 <= i < |d.scopes| && d.scopes[i].0 == s
      ensures GetModulesByScopeOrEmpty(d, s) ==
                Success(if Skipped(d.scopes[i].1, d.base) then [] else EntryFor(d.scopes[i].1, d.base))
    {
      GetModulesHasKeyIffKept(d, i);
      if !Skipped(d.scopes[i].1, d.base) {
        LookupKept(d, i);
      }
    }
  }

  /** `exclude_types: [profile]`, `base: [x, y]`, `stage: {modules: [file_stage_proxy, b]}`,
      `local: {modules: [c], extend_base: true}`: a document satisfying each assertion of the tests. */
  lemma StageLocalExample()
    ensures var d := Doc(None, Some(["profile"]), Some(["x", "y"]),
                         [("stage", ScopeEntry(Some(["file_stage_proxy", "b"]), false)),
                          ("local", ScopeEntry(Some(["c"]), true))]);
            && GetVersion(d) == 1
            && GetScopes(d) == ["stage", "local"]
            && HasScope(d, "local") && !HasScope(d, "nonexistent")
            && GetExcludeTypes(d) == ["profile"]
            && GetModulesByScope(d, "stage") == Success(Some(["file_stage_proxy", "b"]))
            && "file_stage_proxy" in GetModulesByScope(d, "stage").value.value
            && GetModulesByScope(d, "local") == Success(Some(["c", "x", "y"]))
            && GetModulesByScope(d, "nonexistent") == Failure(InvalidScope)
  {
    var d := Doc(None, Some(["profile"]), Some(["x", "y"]),
                 [("stage", ScopeEntry(Some(["file_stage_proxy", "b"]), false)),
                  ("local", ScopeEntry(Some(["c"]), true))]);
    assert d.scopes[0].0 != d.scopes[1].0;
    assert WellFormed(d);
    ModulesByScopeOfKept(d, 0);
    ModulesByScopeOfKept(d, 1);
    assert EntryFor(d.scopes[1].1, d.base) == ["c"] + ["x", "y"] == ["c", "x", "y"];
    assert GetScopes(d) == ["stage", "local"];
  }

  /** `empty_scope: {}` with no `base`: a valid scope with the empty list. */
  lemma EmptyScopeExample()
    ensures var d := Doc(None, None, None, [("empty_scope", ScopeEntry(None, false))]);
            GetModulesByScope(d, "empty_scope") == Success(Some([]))
  {
  }

  /** `stage: {modules: [a]}`, `empty_scope: {}` with no `base`: the valid
      scope `empty_scope` reaches the undefined index. */
  lemma UndefinedIndexExample()
    ensures var d := Doc(None, None, None,
                         [("stage", ScopeEntry(Some(["a"]), false)),
                          ("empty_scope", ScopeEntry(None, false))]);
            && GetModulesByScope(d, "empty_scope") == Success(None)
            && GetModulesByScopeOrEmpty(d, "empty_scope") == Success([])
  {
  }
}
