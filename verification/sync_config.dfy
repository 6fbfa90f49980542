/** The query layer of a module-sync manifest: the decoded YAML document and
    the accessors that answer questions about its version, scopes, excluded
    module types and per-scope module lists. */
module SyncConfig {
  import opened Wrappers
  import opened Assoc

  /** Schema version reported when the manifest declares none. */
  const DEFAULT_VERSION: int := 1

  /** One entry of the `scope` mapping. An absent or null `modules` key is
      `None`; an absent `extend_base` is `false`. */
  datatype ScopeEntry = ScopeEntry(modules: Option<seq<string>>, extendBase: bool)

  /** The decoded manifest. `scopes` is the `scope` mapping in document order. */
  datatype Doc = Doc(
    version: Option<int>,
    excludeTypes: Option<seq<string>>,
    base: Option<seq<string>>,
    scopes: seq<(string, ScopeEntry)>)

  /** A decoded YAML mapping never repeats a scope name. */
  ghost predicate WellFormed(d: Doc)
  {
    DistinctKeys(d.scopes)
  }

  /** The one error a query raises: "Invalid scope has been passed." */
  datatype SyncError = InvalidScope

  function GetVersion(d: Doc): (v: int)
    ensures d.version.Some? ==> v == d.version.value
    ensures d.version.None? ==> v == DEFAULT_VERSION
  {
    d.version.GetOr(DEFAULT_VERSION)
  }

  function GetScopes(d: Doc): (names: seq<string>)
    ensures |names| == |d.scopes|
    ensures forall i :: 0 <= i < |d.scopes| ==> names[i] == d.scopes[i].0
  {
    Keys(d.scopes)
  }

  function HasScope(d: Doc, s: string): (b: bool)
    ensures b <==> exists i :: 0 <= i < |d.scopes| && d.scopes[i].0 == s
  {
    s in GetScopes(d)
  }

  function GetExcludeTypes(d: Doc): (types: seq<string>)
    ensures d.excludeTypes.Some? ==> types == d.excludeTypes.value
    ensures d.excludeTypes.None? ==> types == []
  {
    d.excludeTypes.GetOr([])
  }

  /** PHP `empty()` on the document's `base`: absent, null or the empty list. */
  predicate BaseEmpty(base: Option<seq<string>>)
  {
    base.None? || base.value == []
  }

  /** A scope without its own `modules` contributes no entry while `base` is empty. */
  predicate Skipped(e: ScopeEntry, base: Option<seq<string>>)
  {
    e.modules.None? && BaseEmpty(base)
  }

  /** The scope's own modules, or the empty list when it declares none. */
  function OwnModules(e: ScopeEntry): seq<string>
  {
    e.modules.GetOr([])
  }

  /** The list `extend_base` appends. The source merges with `base` even when
      the document has none, which is not a clean append in PHP; an absent
      `base` is taken as the empty list here. */
  function BaseList(base: Option<seq<string>>): seq<string>
  {
    base.GetOr([])
  }

  /** The module list a kept scope is mapped to: its own modules, followed by
      the base list when it extends the base. */
  function EntryFor(e: ScopeEntry, base: Option<seq<string>>): (mods: seq<string>)
    ensures |mods| == |OwnModules(e)| + (if e.extendBase then |BaseList(base)| else 0)
    ensures mods[..|OwnModules(e)|] == OwnModules(e)
    ensures e.extendBase ==> mods[|OwnModules(e)|..] == BaseList(base)
  {
    if e.extendBase then OwnModules(e) + BaseList(base) else OwnModules(e)
  }

  /** The modules-by-scope mapping built from the scopes at positions `i..`. */
  function ModulesFrom(scopes: seq<(string, ScopeEntry)>, base: Option<seq<string>>, i: nat)
    : (m: seq<(string, seq<string>)>)
    requires i <= |scopes|
    ensures |m| <= |scopes| - i
    ensures forall k :: i <= k < |scopes| && !Skipped(scopes[k].1, base) ==>
              (scopes[k].0, EntryFor(scopes[k].1, base)) in m
    decreases |scopes| - i
  {
    if i == |scopes| then []
    else
      var rest := ModulesFrom(scopes, base, i + 1);
      if Skipped(scopes[i].1, base) then rest
      else [(scopes[i].0, EntryFor(scopes[i].1, base))] + rest
  }

  /** The modules-by-scope mapping, in document order. */
  function GetModules(d: Doc): (m: seq<(string, seq<string>)>)
    ensures |m| <= |d.scopes|
    ensures forall k :: 0 <= k < |d.scopes| && !Skipped(d.scopes[k].1, d.base) ==>
              (d.scopes[k].0, EntryFor(d.scopes[k].1, d.base)) in m
  {
    ModulesFrom(d.scopes, d.base, 0)
  }

  /** The module list of scope `s`. `Success(None)` is the source's undefined
      index: a valid scope that contributed no entry while another scope did,
      for which PHP yields null. */
  function GetModulesByScope(d: Doc, s: string): (r: Result<Option<seq<string>>, SyncError>)
    ensures r.Failure? <==> !HasScope(d, s)
    ensures r == Failure(InvalidScope) <==> s !in GetScopes(d)
    ensures HasScope(d, s) && GetModules(d) == [] ==> r == Success(Some([]))
    ensures r == Success(None) ==> GetModules(d) != [] && s !in Keys(GetModules(d))
  {
    if !HasScope(d, s) then Failure(InvalidScope)
    else
      var m := GetModules(d);
      if m != [] then Success(Lookup(m, s)) else Success(Some([]))
  }

  /** The module list of scope `s`, with `[]` for every valid scope that has no
      entry: the behaviour the `!empty($modules)` guard is evidently meant to give. */
  function GetModulesByScopeOrEmpty(d: Doc, s: string): (r: Result<seq<string>, SyncError>)
    ensures r.Failure? <==> !HasScope(d, s)
    ensures r.Failure? ==> r.error == InvalidScope
    ensures r.Success? && s !in Keys(GetModules(d)) ==> r.value == []
  {
    if !HasScope(d, s) then Failure(InvalidScope)
    else Success(Lookup(GetModules(d), s).GetOr([]))
  }
}
