# Module-sync manifest queries

A Dafny model of the query layer of `SyncConfig`, the object that answers questions about a
module-sync manifest (`module-sync.yml`). The manifest says which Drupal modules belong to each
deployment scope (such as `stage` or `local`). The model starts from the already-decoded document:

- `SyncConfig.Doc` is the manifest. It has an optional `version`, optional `exclude_types`, an optional
  `base` module list, and the `scope` mapping. The mapping is an ordered association list from scope
  name to `ScopeEntry(modules?, extend_base)`.
- `Assoc` models a PHP ordered array keyed by strings: `Keys` is `array_keys`, and `Lookup` is
  indexing, where `None` stands for an undefined index.
- `SyncConfig` holds the accessors. `GetModules` is the modules-by-scope mapping, and
  `GetModulesByScope` returns a `Result` whose error is `InvalidScope`.
- `SyncConfigProofs` holds the lemmas that tie these accessors together.

The rule at the centre is in `GetModules`:

- A scope is dropped when it has no `modules` key and `base` is absent or empty.
- Every other scope is mapped to its own modules, or to `[]` when it has none.
- If the scope sets `extend_base`, `base` is appended to that list.

`SyncConfigProofs.GetModulesEnumeratesKept` characterises the result exactly. It lists every
scope that is not dropped, each with its entry, in document order, and it lists nothing else.

Two edge cases of the source are made explicit:

- A valid scope can have no entry in the mapping while some other scope does. The source then
  indexes a key that does not exist, and PHP yields null with a notice. `GetModulesByScope`
  returns `Success(None)` in that case. Only an entirely empty mapping gives the defined `[]`.
  The method's own docblock (src/SyncConfig.php:89-90) promises an array of modules for the given
  scope, so `null` contradicts it. The model follows the code, and the corrected variant is listed
  under Findings.
- A scope can set `extend_base` while the document has no `base`. The source then merges with a
  missing value, which is not a clean append in PHP. `BaseList` takes an absent `base` as the
  empty list.

All accessors are pure functions over an immutable value. So the document is never changed, and
repeated calls return identical results by construction.

## Model

| member | source | states |
|---|---|---|
| `SyncConfig.GetVersion` | src/SyncConfig.php:41-45 | the declared version when present, otherwise exactly `DEFAULT_VERSION` = 1 |
| `SyncConfig.GetScopes` | src/SyncConfig.php:53-55 | exactly the scope names, in document order, one per scope, with nothing added or dropped |
| `SyncConfig.HasScope` | src/SyncConfig.php:66-69 | true iff some scope of the document carries that name |
| `SyncConfig.GetExcludeTypes` | src/SyncConfig.php:77-81 | `exclude_types` unchanged when present, otherwise the empty list |
| `SyncConfig.EntryFor` | src/SyncConfig.php:116-122 | a kept scope's list starts with its own modules (or `[]`); with `extend_base` the rest is `base`, so its length is own + base; without it the list is exactly the own modules |
| `Assoc.Keys` | src/SyncConfig.php:54 | `array_keys`: as many keys as pairs, each the key of the pair at the same position |
| `SyncConfig.ModulesFrom` | src/SyncConfig.php:112-123 | the loop over the scopes from `i` on yields at most as many entries as there are scopes from `i` on, and every scope that is not skipped appears with its entry |
| `SyncConfig.GetModules` | src/SyncConfig.php:109-126 | the mapping has at most as many entries as there are scopes, and holds every kept scope with its entry |
| `SyncConfig.GetModulesByScope` | src/SyncConfig.php:92-101 | fails with `InvalidScope` iff the name is not among the scope names; a valid scope gets `[]` when the mapping is empty; an undefined-index result (`None`) only arises when the mapping is non-empty and has no key for the scope |
| `SyncConfig.GetModulesByScopeOrEmpty` | src/SyncConfig.php:100 | the corrected query: fails iff the scope is not declared, and gives `[]` for a valid scope without an entry |
| `Assoc.Lookup` | src/SyncConfig.php:100 | indexing an ordered array is undefined exactly when the key is absent, and otherwise yields a value paired with that key |
| `SyncConfigProofs.ModulesFromEnumerates` | src/SyncConfig.php:112-123 | the entries built from position `i` on are exactly the non-skipped scopes from `i` on, at strictly increasing positions, each with its entry |
| `SyncConfigProofs.GetModulesEnumeratesKept` | src/SyncConfig.php:109-126 | the mapping's keys are a subsequence of the scope names in the same order: exactly the scopes not skipped, each with its entry |
| `SyncConfigProofs.GetModulesKeysDistinct` | src/SyncConfig.php:112-122 | with distinct scope names, no scope is mapped twice |
| `SyncConfigProofs.GetModulesHasKeyIffKept` | src/SyncConfig.php:113-115 | a scope is omitted from the mapping iff it has no `modules` and `base` is absent or empty |
| `SyncConfigProofs.LookupKept` | src/SyncConfig.php:116-122 | indexing the mapping by a kept scope yields own modules, followed by `base` when it extends the base |
| `SyncConfigProofs.AllSkippedNoModules` | src/SyncConfig.php:112-115 | when every scope from `i` on is skipped, the loop adds no entry |
| `SyncConfigProofs.NoModulesIffAllSkipped` | src/SyncConfig.php:109-126 | the mapping is empty iff every scope is skipped |
| `SyncConfigProofs.ModulesByScopeOfKept` | src/SyncConfig.php:98-100 | a valid, kept scope's query returns exactly its entry |
| `SyncConfigProofs.ModulesByScopeAgreesWithMapping` | src/SyncConfig.php:98-100 | for a scope with its own modules, the query returns the mapping's entry, which exists and starts with those modules |
| `SyncConfigProofs.ModulesByScopeOfSkipped` | src/SyncConfig.php:100 | a valid skipped scope yields `[]` when every scope is skipped, and the undefined index otherwise |
| `SyncConfigProofs.OrEmptyAgreesWhereDefined` | src/SyncConfig.php:100 | the corrected query agrees with the source wherever the source returns a list |
| `SyncConfigProofs.OrEmptyOfScope` | src/SyncConfig.php:100 | the corrected query gives each valid scope its entry, or `[]` when the scope is skipped |
| `SyncConfigProofs.StageLocalExample` | tests/SyncConfigTest.php:21-49 | on a two-scope manifest: default version, scopes in order, scope membership, exclude types, `stage` = own modules and contains `file_stage_proxy`, `local` = own ++ base, unknown scope is an error |
| `SyncConfigProofs.EmptyScopeExample` | src/SyncConfig.php:100 | a lone scope with no modules and no base yields `[]`, not an error |
| `SyncConfigProofs.UndefinedIndexExample` | src/SyncConfig.php:100 | a valid empty scope next to a kept one reaches the undefined index; the corrected query gives `[]` |

## Left out

- Construction is not modelled. This covers reading the file, `Yaml::parse`, and discovering the
  default path through `DrupalFileLookupTrait::lookupFilePath` (src/SyncConfig.php:27-33,
  128-161). These steps are filesystem I/O and a foreign library. The model starts from a decoded `Doc`.
- The "non-existent configuration path" and "invalid path" exceptions are not modelled. They come
  from filesystem checks (src/SyncConfig.php:135-139, 154-158).
- A manifest without a `scope` mapping, or with one that is not a mapping, is not modelled. `scopes`
  is a required field of `Doc`.
- PHP's loose `in_array` comparison and the coercion of numeric-string keys to integers are not
  modelled. Scope names are strings compared by equality.
- `isset` on a key holding null is not distinguished from an absent key: both are `None`.
- Truthiness of a non-boolean `extend_base`, and a `version` that is not an integer, are not
  modelled. The fields are typed `bool` and `int`.
- `SyncConfig.BaseList`: `extend_base` with no `base` takes `base` as empty. The source merges with
  a missing value there, which PHP reports as an error or turns into null.
- The fixture manifest the tests load is not part of this model. `StageLocalExample` uses an
  inline document that satisfies each assertion of the tests.

## Findings

| source | as written | input that shows it | evidently intended | confidence | as-written member | corrected member |
|---|---|---|---|---|---|---|
| src/SyncConfig.php:100 | `[]` is returned only when the whole mapping is empty; otherwise the scope's key is indexed even when absent | `scope: {stage: {modules: [a]}, empty_scope: {}}` with no `base`, query `empty_scope` | a valid scope without an entry yields `[]` | medium, not executed | `SyncConfigProofs.UndefinedIndexExample` | `SyncConfig.GetModulesByScopeOrEmpty` |
