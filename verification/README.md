# ARBAC scope algebra and user-store protocols: a verified model

This project models three parts of the repository and proves properties of them
with Dafny 4.11. `dafny verify dfyconfig.toml` checks all of it.

**The scope algebra and the engine that feeds it.** `Arbac.evaluate` turns
roles, rules and an optional credential claim into one or two lists of scopes;
`effectiveScope` unions a list facet by facet; `conjoinScopes` intersects two
lists into one composite scope. Every facet has a meaning here: a filter is the
set of rows it admits, a projection the set of dotted paths it grants, a control
policy the sets of values it permits. Decisions are read off the declared rules
(`DeclaredRules.EvaluationFromRules`). The main theorem,
`Attenuation.RequestNeverWidens`, says for every role registry, user and claim
and through any chain of relations that a credential reaches, controls and
writes no more than its owner and its own view each may, and is shown no more,
where no table's handlers can be widened, and that it is held to every reference
check of the two exactly where their names resolve back. The conditions can be
read off the lists and the table, and they fail in configurations the code
accepts; `Handlers.NoCredentialWidensIff`, `Claimants.NoOwnerReachesIff`,
`Claimants.NoOwnerWidensIff` and `CompositeRefs.CompositeChecksIff` prove them
exact.

**Enforcement.** The compiled field test and the normalized projection, the
mutable whitelist trie and the copy-on-write overlay of payloads, the in-memory
WITH CHECK evaluator with its predicted post-image, the guards that decide about
many rows by one count, and the inlining of recursive `$ref` schemas under a
budget.

**Two concurrent protocols of `UserService`.** Accepting and revoking an
invitation, and one-time TOTP codes, both as compare-and-set steps over a
versioned store with any number of interleaved callers; and the epoch-guarded
snapshot cache. Each is a transition system with an invariant every step keeps,
and with what a call answers and leaves when it runs alone or is overtaken.

Pure code is modelled by functions with lemmas about them. Code that updates
variables or objects is modelled by methods and classes whose contracts tie the
result to those functions, so that the lemmas speak about the loops as well. A
call that throws returns `Attempt.Threw`. Meanings used throughout: a key covers
a path when it is the path or a dotted ancestor; a projection grants a path when
it is listed by itself or an ancestor (inclusion), not listed so (exclusion), or
always (`{}`); the evaluator of `write-check.ts` gives filters their meaning.

## What the proofs showed

- A table served by several handlers conjoins each with the credential by itself
  and joins the results, so a credential denied one handler may see a path, a
  row or a write its owner's joint list withholds. It cannot exactly when each
  handler's list fits into the joint one.
- A conjunction without a common field keeps the owner's fields and no row; joined
  with another handler it shows those fields on that one's rows. Only values leak
  so: rows, checks, controls and writes stay within the claimant's.
- The union of projections is not associative: joining in groups never grants
  more, and may grant less. A union loses a granted path exactly under the
  condition of `Projections.UnionGrantsExactly`.
- The rewrite of several equality filters to `$in` loses rows whose field is
  missing when one compared value is `null`; this is the only inexactness of the
  filter union.
- The field test of an intersection may hide a parent both sides show.
- Names of conjoined reference checks resolve to another key when two foreign
  keys share a field, and the composite then checks less than a side does.
- A removal of another MFA method that writes back a record older than an
  accepted counter lets that counter be accepted again; no other race of the
  modelled steps does.
- A `$ref` entry keeps its own `ref` as written, so that one's ids may repeat, its
  references dangle and its nodes exceed the budget; nothing else does.
- A row submitted without a field is checked as if the field stayed absent, which
  is sound exactly where a value above the path that is no object keeps it absent.
- A literal placeholder character in a pattern is compiled to `.*`; `**` does not
  match line terminators, while `*` does.

## Model

| member | source | states |
|---|---|---|
| `DottedPaths.CoversPath` | packages/arbac/src/scope/projection.ts:132-141 | the walk over a path's dots answers whether some key is the path or one of its ancestors |
| `DottedPaths.CoversIffSplitPrefix` | packages/arbac/src/scope/projection.ts:132-141 | the dotted string order (`k` or `k.` starts `p`) is the prefix order on segments, for every pair of strings |
| `Projections.MergeProjections` | packages/arbac/src/scope/projection.ts:63-129 | the accumulating loops compute `UnionProjections`, and throw exactly when some input mixes 0 and 1 |
| `Projections.UnionNeverWidens` | packages/arbac/src/scope/projection.ts:63-129 | the union grants no path that no input grants |
| `Projections.UnionGrantsExactly` | packages/arbac/src/scope/projection.ts:63-129 | a path some input grants is lost if and only if no universe or exclusion grants it and the covering include keys all lie below a key the result still denies |
| `Projections.UnionIgnoresOrder` | packages/arbac/src/scope/projection.ts:63-129 | any two lists with the same members have the same union |
| `Projections.UnionOfOne` | packages/arbac/src/scope/projection.ts:63-129 | the union of one valid projection is that projection |
| `Groupings.GroupingNeverWidens` | packages/arbac/src/scope/projection.ts:63-129 | joining a union with more grants never grants a path that joining them all at once does not |
| `Groupings.GroupingExactIff` | packages/arbac/src/scope/projection.ts:63-129 | the two grant the same paths if and only if, read off the grants' keys, no key the grouped union denies is comparable to an included key that lies below nothing the whole union denies |
| `Groupings.UnionNotAssociative` | packages/arbac/src/scope/projection.ts:63-129 | a concrete triple whose two bracketings grant different paths |
| `SchemaWalk.Walk` | packages/arbac/src/scope/projection.ts:164-174 | the recursive walk adds exactly the emitted paths of the subtree, down to depth 32 |
| `SchemaWalk.WalkedBelow` | packages/arbac/src/scope/projection.ts:164-174 | what a walk emits lies at or below its root |
| `SchemaWalk.SubtractionReaches` | packages/arbac/src/scope/projection.ts:177-198 | over a prefix-closed tree, subtracting exclusions keeps every allowed leaf below the root |
| `SchemaWalk.LeavesReach` | packages/arbac/src/scope/projection.ts:207-220 | naming a key by its leaves covers every schema leaf below the key |
| `SchemaWalk.LeavesNonEmpty` | packages/arbac/src/scope/projection.ts:207-220 | every key expands to at least one leaf, for any lookup |
| `Intersections.WalkKeys` | packages/arbac/src/scope/projection.ts:177-198 | the loop over the include keys collects exactly the walks of all of them |
| `Intersections.IntersectProjections` | packages/arbac/src/scope/projection.ts:237-264 | the branches and loops compute `Intersection`, an empty result being reported rather than read as the universe, and throw exactly on a mixed input |
| `Intersections.IntersectionGrantsBoth` | packages/arbac/src/scope/projection.ts:237-264 | a path the intersection grants is granted by both sides, without a lookup or with any whose children lie below their parent, however deep |
| `Intersections.IntersectionExact` | packages/arbac/src/scope/projection.ts:237-264 | for two inclusions, two exclusions or an empty side the intersection grants exactly what both grant; no result means no common path |
| `Intersections.IntersectionExactOnLeaves` | packages/arbac/src/scope/projection.ts:237-264 | an inclusion met with an exclusion is exact on the leaves of a prefix-closed schema within the depth bound |
| `Intersections.IntersectionAllowedByBoth` | packages/arbac/src/scope/projection.ts:32-40 | the field test, parents of included keys counted, stays within both sides |
| `Intersections.IntersectionAllowedExactly` | packages/arbac/src/scope/projection.ts:32-40 | a path passes the field test of the intersection if and only if both sides grant a common path at or below it, where the intersection is exact |
| `Intersections.OpposedAllowedExactly` | packages/arbac/src/scope/projection.ts:32-40 | where an inclusion meets an exclusion over a schema tree, a field passes the field test of the intersection if and only if both sides grant a common leaf at or below it |
| `Intersections.ParentShownByBothOnly` | packages/arbac/src/scope/projection.ts:32-40 | two concrete inclusions that both show a parent which their intersection hides |
| `Intersections.OnlyUniversesGiveUniverse` | packages/arbac/src/scope/projection.ts:237-264 | the intersection is `{}` if and only if both inputs are |
| `Intersections.ExpandExcludeToLeaves` | packages/arbac/src/scope/projection.ts:207-220 | the loop rewrites an exclusion to the leaves below its keys and leaves every other projection alone |
| `Intersections.RestrictWithinCeiling` | packages/arbac/src/scope/projection.ts:284-290 | a requested projection restricted to a ceiling grants nothing the ceiling hides and is never `{}` under a restricting ceiling |
| `Intersections.RestrictExactly` | packages/arbac/src/scope/projection.ts:284-290 | where the modes do not oppose, the restricted projection grants exactly what is asked for and allowed, or is the ceiling when that is nothing |
| `Intersections.ExpansionHidesSameLeaves` | packages/arbac/src/scope/projection.ts:207-220 | the leaf expansion hides exactly the same schema leaves and never turns into `{}` |
| `Intersections.ExpansionNonEmpty` | packages/arbac/src/scope/projection.ts:207-220 | no non-empty exclusion expands to the universe, whatever the schema lookup answers |
| `Intersections.EnforcedSelectHidesHidden` | packages/arbac-moost/src/db/shared-read-helpers.ts:49-54 | whatever `$select` a client sends, the enforced one hides every schema leaf the scope hides |
| `Intersections.EnforcedSelectExactly` | packages/arbac-moost/src/db/shared-read-helpers.ts:49-54 | over a schema tree the enforced `$select` grants exactly the leaves the client asks for and the scope allows; where there is none, exactly those the scope allows |
| `FieldChildren.FieldChildrenOf` | packages/arbac-moost/src/db/field-children.ts:16-36 | the loop over the flattened schema fills the index with each path's direct children, navigation and JSON subtrees cut off |
| `FieldChildren.DirectChildrenMembers` | packages/arbac-moost/src/db/field-children.ts:16-36 | a path is indexed under a parent exactly when it is an own field one segment below it |
| `FieldChildren.FieldChildrenFormTree` | packages/arbac-moost/src/db/field-children.ts:16-36 | over a prefix-closed flattened schema the index is the tree the walks rely on |
| `Filters.MergeNeverWidens` | packages/arbac/src/scope/filter.ts:25-42 | a row the union filter admits is admitted by some input |
| `Filters.OperatorsMean` | packages/arbac-moost/src/db/write-check.ts:66-116 | the operators of the evaluator: equality with `null` matches a missing value, membership is strict, negations complement, `$exists` asks for a value by the truth of its operand, and no ordering matches a missing value |
| `Filters.ConnectivesMean` | packages/arbac-moost/src/db/write-check.ts:80-84 | the connectives are all, some and not, and an entry for a field is its comparisons conjoined |
| `Filters.MergeExactIffNoNullRewrite` | packages/arbac/src/scope/filter.ts:25-42 | the union filter admits exactly the rows some input admits, on every row, unless a `null` comparison was rewritten into `$in` with no `undefined` operand among the values |
| `Filters.DropsMissingIff` | packages/arbac/src/scope/filter.ts:25-42 | the unions that make it are exactly several equalities on one field with scalar operands, a `null` among them and no `undefined` |
| `Filters.MergeUnrestricted` | packages/arbac/src/scope/filter.ts:25-42 | without grants, or with an unrestricted one, every row is admitted |
| `Filters.MergeMonotone` | packages/arbac/src/scope/filter.ts:25-42 | adding scopes never loses a row unless the enlarged union makes that rewrite |
| `Filters.JoinKeepsRowsIff` | packages/arbac/src/scope/filter.ts:25-42 | a list joined with others keeps all its rows if and only if it is not a lone `null` comparison in a joint union that makes that rewrite |
| `Filters.InMeans` | packages/arbac/src/scope/filter.ts:25-42 | the single-field rewrite admits a row exactly when its value is strictly one of the compared ones |
| `Filters.ConjunctionExact` | packages/arbac/src/scope/filter.ts:66-76 | the conjunction of two optional filters admits exactly the rows both admit |
| `Filters.DenyAdmitsNothing` | packages/arbac/src/scope/filter.ts:4-9 | an empty `$or` matches no row |
| `Filters.RowPolicyConjunctionExact` | packages/arbac/src/scope/db-scope.ts:345-353 | conjoined row policies: filter is both filters, effective check is both effective checks |
| `Controls.UnionKey` | packages/arbac/src/scope/controls.ts:46-102 | the inner loop decides one control: its gate, or an error for a whitelist on a control that has no values |
| `Controls.MergeControls` | packages/arbac/src/scope/controls.ts:46-102 | the nested loops compute the union of the policies and throw exactly on such a whitelist with no allowing scope |
| `Controls.UnionPermitsExactly` | packages/arbac/src/scope/controls.ts:46-102 | the union permits a control value if and only if some scope permits it |
| `Controls.UnionOfOnePolicy` | packages/arbac/src/scope/controls.ts:46-102 | the union of one policy decides every control as the policy does |
| `Controls.IntersectControls` | packages/arbac/src/scope/controls.ts:120-146 | the loop over both policies computes their intersection |
| `Controls.IntersectionPermitsExactly` | packages/arbac/src/scope/controls.ts:120-146 | a set of used values is permitted if and only if both policies permit it |
| `Enforcement.IntersectEnabled` | packages/arbac/src/scope/db-scope.ts:272-289 | the loop, early exit included, computes the entries every input enables |
| `Enforcement.EnablesExactly` | packages/arbac/src/scope/db-scope.ts:272-289 | an entry is enforced if and only if every input enables it |
| `Scopes.LastForcedWins` | packages/arbac/src/scope/db-scope.ts:202-208 | the value forced for a field is that of the last scope forcing it |
| `Unions.UnionRowsExactly` | packages/arbac/src/scope/db-scope.ts:162-164 | a list shows a row only if some scope does, and exactly then unless the `null` rewrite drops a row |
| `Unions.UnionChecksExactly` | packages/arbac/src/scope/db-scope.ts:166-176 | the same for written rows, each scope checking by its own check or else its filter |
| `Unions.UnionWritesExactly` | packages/arbac/src/scope/db-scope.ts:190-200 | a path is writable exactly when no scope carries a whitelist or some whitelist covers it |
| `Unions.UnionForcedExactly` | packages/arbac/src/scope/db-scope.ts:202-208 | a field is forced exactly when some scope forces it, to the value of the last such scope |
| `Unions.UnionNamesExactly` | packages/arbac/src/scope/db-scope.ts:210-232 | nested writes and declared relations are those of some scope |
| `Unions.UnionRefsExactly` | packages/arbac/src/scope/db-scope.ts:216-223 | a reference name is enforced exactly when the list is not empty and every scope enforces it |
| `Scopes.WithScopesShallower` | packages/arbac/src/scope/db-scope.ts:234-246 | a relation has sub-scopes exactly when some scope declares it, and they nest less deeply, so the mutual recursion of the conjunction ends |
| `RestrictOnly.CompositeRowsExact` | packages/arbac/src/scope/db-scope.ts:395-434 | the composite scope admits a row exactly when both sides do and some field is common (else none); the same for the write check |
| `RestrictOnly.CompositeExposesBoth` | packages/arbac/src/scope/db-scope.ts:395-434 | a value of a row the composite exposes is exposed by each side |
| `RestrictOnly.CompositeExposesExactly` | packages/arbac/src/scope/db-scope.ts:395-434 | where no exclusion meets an inclusion, or on the leaves of a known schema, the composite exposes exactly the values both sides expose |
| `RestrictOnly.CompositeControlsExact` | packages/arbac/src/scope/db-scope.ts:395-434 | a set of control values is permitted by the composite if and only if each side permits it |
| `RestrictOnly.CompositeWrites` | packages/arbac/src/scope/db-scope.ts:395-434 | a path writable under the composite is writable under each side, and nested writes need both opt-ins |
| `RestrictOnly.CompositeWhitelistExactly` | packages/arbac/src/scope/db-scope.ts:467-474 | when both sides carry a whitelist the composite one is covered by entries listed on both sides, entry by entry |
| `RestrictOnly.CompositeRefsExact` | packages/arbac/src/scope/db-scope.ts:477-486 | without a schema-aware rule a reference name is enforced by the composite if and only if either side enforces it |
| `CompositeRefs.CompositeChecksIff` | packages/arbac-moost/src/attenuation.ts:71-90 | with the rule of the evaluated table the composite enforces every reference check of either side, and then exactly those, if and only if the table has no foreign keys or their names resolve back |
| `CompositeRefs.CompositeKeepsRefs` | packages/arbac/src/scope/db-scope.ts:615-635 | in the declared relations, at every depth, no reference check either side enforces is lost |
| `RestrictOnly.CompositeForced` | packages/arbac/src/scope/db-scope.ts:395-434 | every forced field of either side stays forced, with the user's value on a conflict |
| `RestrictOnly.CompositeCustom` | packages/arbac/src/scope/db-scope.ts:395-434 | a custom field of either list carries what its rule makes of the two lists, every used field has a rule, and no other field is carried |
| `ConjunctionErrors.ConjoinThrowsIff` | packages/arbac/src/scope/db-scope.ts:395-434 | a conjunction throws exactly when its reference rule does or, at some depth of declared relations, a scope mixes 0 and 1 or carries a custom field without a rule, or a side whitelists a control that has no values before any scope allows it |
| `RestrictOnly.CompositeNarrower` | packages/arbac/src/scope/db-scope.ts:395-434 | the composite permits no more rows, written rows, values, control values, written paths or nested writes than either side (reference checks: the rows of `CompositeRefs`) |
| `RestrictOnly.CompositeAttenuates` | packages/arbac/src/scope/db-scope.ts:615-635 | the same facets at every `with` depth, with the inherited mark set whenever a side is silent |
| `CompositeDepths.CompositeAtDepth` | packages/arbac/src/scope/db-scope.ts:615-635 | along any chain of relations declared on a side, the composite carries one scope with exactly the rows, checks and controls of both sides there, marked exactly when a side is silent or itself marked; elsewhere it is silent |
| `RestrictOnly.AttenuatesTransitive` | packages/arbac/src/scope/db-scope.ts:615-635 | attenuation composes, at every `with` depth |
| `RestrictOnly.NarrowerFieldVisible` | packages/arbac/src/scope/projection.ts:32-40 | a field shown under a narrower list is shown under the wider one, parents of included fields counted |
| `EffectiveScopes.EffectiveDbScope.constructor` | packages/arbac/src/scope/db-scope.ts:149-153 | a fresh object remembers nothing and stands for its scope list |
| `EffectiveScopes.EffectiveDbScope.Filter` | packages/arbac/src/scope/db-scope.ts:162-164 | the memoized row filter is the union of the list |
| `EffectiveScopes.EffectiveDbScope.Check` | packages/arbac/src/scope/db-scope.ts:166-172 | the memoized check is the union of the effective checks, or the filter when no scope sets one |
| `EffectiveScopes.EffectiveDbScope.Projection` | packages/arbac/src/scope/db-scope.ts:178-182 | the memoized projection is the union; an invalid one throws again on every access |
| `EffectiveScopes.EffectiveDbScope.Controls` | packages/arbac/src/scope/db-scope.ts:184-188 | the memoized controls are the union of the policies |
| `EffectiveScopes.EffectiveDbScope.AllowedFields` | packages/arbac/src/scope/db-scope.ts:190-200 | the loop yields the union of the whitelists, and none when no scope carries one |
| `EffectiveScopes.EffectiveDbScope.Forced` | packages/arbac/src/scope/db-scope.ts:202-208 | the loop yields the forced values, later scopes winning |
| `EffectiveScopes.EffectiveDbScope.Names` | packages/arbac/src/scope/db-scope.ts:225-232 | the loop collects the declared relation names |
| `EffectiveScopes.EffectiveDbScope.Subscopes` | packages/arbac/src/scope/db-scope.ts:234-246 | the memoized list of a relation's sub-scopes is the declared ones in scope order |
| `EffectiveScopes.ConjoinRelations` | packages/arbac/src/scope/db-scope.ts:615-635 | the loop over both sides' relation names, on memoized facets, yields the pure conjunction or its error |
| `EffectiveScopes.NormalizedExactly` | packages/arbac/src/scope/db-scope.ts:299-310 | an allowed outcome denies only when it lists scopes and all are missing; otherwise exactly the present ones remain |
| `EffectiveScopes.UnionOutcomes` | packages/arbac/src/scope/db-scope.ts:319-332 | the union of outcomes is the allowing ones' scope lists one after the other, in order and with repetitions, and denies if and only if each outcome does |
| `EffectiveScopes.FoldFilterExact` | packages/arbac/src/scope/db-scope.ts:520-575 | the filter folded with the custom row rules admits exactly the rows the filter and every rule admit |
| `EffectiveScopes.FoldReachesEveryLevel` | packages/arbac/src/scope/db-scope.ts:520-575 | folding does so at every nesting level and changes nothing but filters |
| `EffectiveScopes.FoldedListGrants` | packages/arbac/src/scope/db-scope.ts:520-575 | a row of a folded list is granted by one scope together with all its rules |
| `Relations.ResolveOne` | packages/arbac-moost/src/db/relation-policy.ts:256-289 | one requested relation resolves as specified, with everything requested below it, and throws if and only if some reached relation throws |
| `Relations.ResolveTree` | packages/arbac-moost/src/db/relation-policy.ts:256-289 | the filled map answers every requested name at every level as specified, its names are the requested ones and, once one is hidden and siblings are asked for, all the table's relations; it throws if and only if some reached relation throws |
| `Relations.WithSiblings` | packages/arbac-moost/src/db/relation-policy.ts:256-289 | the sibling loop adds exactly the table's missing relations, resolved as specified, and keeps what was there |
| `Relations.DeclaredGovernsAlone` | packages/arbac-moost/src/db/relation-policy.ts:256-289 | a relation declared without a one-sided mark is governed by exactly its declared sub-scopes, whatever the caller's own grant is |
| `Relations.UndeclaredFollowsGrant` | packages/arbac-moost/src/db/relation-policy.ts:256-289 | an undeclared relation is governed by the caller's own grant on the related table, and hidden without one |
| `Relations.OneSidedOwesBoth` | packages/arbac-moost/src/db/relation-policy.ts:256-289 | where a declared sub-scope is marked one-sided the relation is hidden without the caller's own grant; with it, a row shows exactly when both show it and a common field is left |
| `Relations.GrantServesAllowing` | packages/arbac-moost/src/db/relation-policy.ts:130-172 | the caller's grant on a table serves every scope of every allowing handler, and is none exactly when none allows |
| `Relations.RelationStep` | packages/arbac-moost/src/db/relation-policy.ts:256-289 | a relation reached under a narrower list is reached under the wider one, which is governed by as much |
| `Relations.ChainAttenuates` | packages/arbac-moost/src/db/relation-policy.ts:256-289 | the same through any chain of relations |
| `Relations.RelationsNeverWiden` | packages/arbac-moost/src/db/relation-policy.ts:130-172 | through any chain of relations, each table served by any number of handlers conjoined one by one, the composite reaches only what the user and the credential's own view each reach, with no more rows, checks, controls or writes, where that side's handlers cannot be widened in these; the same for the values shown |
| `JoinedLists.ListBounded` | packages/arbac/src/scope/db-scope.ts:319-332 | scopes that each stay within a list stay within it when served together, facet by facet and at every `with` depth |
| `Fitting.BoundedIffFits` | packages/arbac/src/scope/db-scope.ts:319-332 | a list stays within the lists it is joined with if and only if it fits: no row lost to the `null` rewrite, a joint whitelist also its own, every joint relation declared and fitting and, for the values, no included key below a key still denied |
| `Handlers.FittingHandlersNeverWiden` | packages/arbac-moost/src/db/relation-policy.ts:130-172 | where every handler of a table fits the owner's joint list, no attenuated caller is served more than it |
| `Handlers.NoCredentialWidensIff` | packages/arbac-moost/src/db/relation-policy.ts:130-172 | no credential is served more than the owner's joint list of a table's handlers if and only if each handler's own list fits it, for what is reached and for the values |
| `Claimants.NoOwnerReachesIff` | packages/arbac-moost/src/db/relation-policy.ts:130-172 | whoever the owner is, the caller reaches no more rows, checks, controls or writes than the claimant's joint list if and only if each of its handlers fits in these |
| `Claimants.NoOwnerWidensIff` | packages/arbac-moost/src/db/relation-policy.ts:130-172 | where its handlers fit, the caller is shown no more values than the claimant's joint list, whoever the owner is and at every `with` depth, if and only if one handler allows, or the joint list shows every field or no handler admits a row, here and in each declared relation |
| `Claimants.ClaimantTable` | packages/arbac-moost/src/db/relation-policy.ts:130-172 | on one table the claimant's joint grant bounds what is served; its values too where each served handler leaves a common field or that condition holds |
| `Widenings.MisfitWidensRelation` | packages/arbac-moost/src/db/relation-policy.ts:130-172 | for every handler that does not fit, the credential allowed that one alone reaches, through a relation, more than its owner |
| `Widenings.HiddenPathReappears` | packages/arbac-moost/src/db/relation-policy.ts:130-172 | a concrete pair of handlers: a path the owner's joint projection hides is exposed through a relation |
| `Widenings.DroppedRowReappears` | packages/arbac-moost/src/db/relation-policy.ts:130-172 | the same for a row the owner's joint filter drops |
| `Widenings.WhitelistDisappears` | packages/arbac-moost/src/db/relation-policy.ts:130-172 | the same for a write whitelist only the other handler carries |
| `Widenings.FieldlessHandlerLeaks` | packages/arbac-moost/src/db/relation-policy.ts:130-172 | on the claimant's side: a handler whose passes share no field shows the owner's field on another handler's rows |
| `Registries.ClaimWidens` | packages/arbac-moost/src/arbac.evaluate.ts:159-200 | for every role registry and site: where the owner's list of a handler does not fit, the claim of a role allowing that handler alone reaches more than the owner through a relation |
| `Registries.RegistryShowsHiddenPath` | packages/arbac-moost/src/arbac.evaluate.ts:159-200 | a registry of three roles under which it happens |
| `Globs.CompiledIffNoPlaceholder` | packages/arbac-core/src/utils.ts:1-7 | the four passes always emit an expression of the fragment, and it reads as the pattern left to right if and only if the pattern does not contain the placeholder character |
| `Globs.CompiledLanguage` | packages/arbac-core/src/utils.ts:1-7 | without the placeholder, the compiled expression matches exactly the texts of the pattern: `**` any text, `*` text without dots, else the character |
| `Globs.StarFreeMatchesItself` | packages/arbac-core/src/utils.ts:1-7 | a pattern without stars matches only itself, special characters included |
| `Globs.WideningAStar` | packages/arbac-core/src/utils.ts:1-7 | turning one `*` into `**` only adds matches, on text without line terminators |
| `Globs.WideningKeepsIffSingleLine` | packages/arbac-core/src/utils.ts:1-7 | turning one `*` into `**` keeps a text in every pattern if and only if the text holds no line terminator |
| `Globs.WideningLosesLineBreaks` | packages/arbac-core/src/utils.ts:1-7 | a text with a line break that `*` matches and `**` does not |
| `Engine.Arbac.EvalRoleForResource` | packages/arbac-core/src/arbac.ts:76-108 | the compiled entry of one role and resource is a fresh compilation; every other entry is untouched |
| `Engine.Arbac.RegisterRole` | packages/arbac-core/src/arbac.ts:46-57 | registering replaces the role and recompiles it for every resource, so all entries stay fresh |
| `Engine.Arbac.RegisterResource` | packages/arbac-core/src/arbac.ts:59-74 | a new resource gets a fresh entry per role; a known one changes nothing |
| `Engine.Arbac.MatchAction` | packages/arbac-core/src/arbac.ts:253-271 | the memoized match equals a fresh one, and no memo exceeds 512 actions |
| `Engine.Arbac.EvaluateForRoles` | packages/arbac-core/src/arbac.ts:196-245 | one pass over the memoized matches computes the pure pass |
| `Engine.Arbac.Evaluate` | packages/arbac-core/src/arbac.ts:120-188 | an evaluation registers the resource and returns the pure outcome over the current role map |
| `Engine.Run` | packages/arbac-core/src/arbac.ts:26-271 | over any sequence of calls, every outcome depends only on the roles registered before it: memos and registration order are unobservable |
| `Engine.AttenuationIntersects` | packages/arbac-core/src/arbac.ts:159-188 | an attenuated evaluation carries the owner's own scopes and a non-empty narrowed list, and is denied whenever the owner is |
| `Engine.NarrowedRoles` | packages/arbac-core/src/arbac.ts:171-179 | the narrowed pass runs under the roles both held and claimed; an unheld one only when allowed, and only if registered |
| `DeclaredRules.PassFromRules` | packages/arbac-core/src/arbac.ts:196-245 | the outcome of one pass is the only one the declared rules leave: denied if a deny rule of a registered role matches resource and action as languages; otherwise the scopes of exactly the matching allow rules that return one, in order of roles and rules, and denied without any |
| `DeclaredRules.EvaluationFromRules` | packages/arbac-core/src/arbac.ts:120-188 | every evaluation decides by the declared rules: at full authority, and under a claim also under the roles held and claimed, in order and once each, with the claimed attributes overriding the owner's |
| `DeclaredRules.RunFromRules` | packages/arbac-core/src/arbac.ts:26-271 | over any run there is one outcome per evaluation, in order, and each is decided by the rules of the roles registered last before it |
| `DeclaredRules.DenyAlwaysWins` | packages/arbac-core/src/arbac.ts:212-219 | a declared deny rule of a held role denies whenever both its patterns match, whatever the credential claims |
| `Attenuation.CredentialNeverWidens` | packages/arbac-moost/src/arbac.evaluate.ts:159-200 | an attenuated principal is served the conjunction of what owner and claimant are served, which attenuates both at every `with` depth |
| `Attenuation.CompositeServes` | packages/arbac-moost/src/attenuation.ts:71-90 | the composite served has the rows and checks of owner and claimant where a field is common and none elsewhere, the owner's fields where none is, and the forced values of both, the owner's first |
| `Attenuation.DenialIsKept` | packages/arbac-core/src/arbac.ts:186-187 | an attenuated evaluation is denied if and only if the owner or the claimant is |
| `Attenuation.EvaluationThrowsIff` | packages/arbac-moost/src/attenuation.ts:71-90 | an attenuated evaluation throws exactly when owner and claimant are both allowed and their lists cannot be combined |
| `Attenuation.CompositeThrowsIff` | packages/arbac-moost/src/attenuation.ts:71-90 | the composite throws exactly on an empty list or on lists that cannot be combined |
| `Attenuation.ExposureNeverWidens` | packages/arbac-moost/src/attenuation.ts:71-90 | a value of a row exposed to the credential is exposed to the owner and to the claimant |
| `Attenuation.EmptyClaimChangesNothing` | packages/arbac-core/src/arbac.ts:148-151 | a claim without roles and attributes allows and exposes exactly what the owner's own evaluation does |
| `Attenuation.ServedPlain` | packages/arbac/src/scope/db-scope.ts:611-613 | scopes that come from role rules never carry the inherited mark, at any depth, and an allowed list is not empty |
| `Attenuation.OneHandlerStays` | packages/arbac-moost/src/db/relation-policy.ts:130-172 | where each table has at most one handler, no table can be widened, for owner and claimant, values included |
| `Attenuation.RequestNeverWidens` | packages/arbac-moost/src/arbac.evaluate.ts:159-200 | end to end, for every role registry, user and claim: whatever an attenuated request reaches through any chain of relations, owner and claimant each reach with no more rows, checks, controls or writes where their handlers cannot be widened in these, and are each shown as much where their values are kept; the request's own reference checks are all of either side's if and only if their names resolve back, those of its relations always |
| `Invitations.StepKeepsInv` | packages/user/src/user-service.ts:402-444 | every atomic step of accepts, revokes, re-invites and other writes keeps the invariant |
| `Invitations.PeriodBegins` | packages/user/src/user-service.ts:402-417 | a pending period of an account, the unit of `Invitations.OneAcceptPerPeriod`, begins exactly when its row turns pending |
| `Invitations.OneAcceptPerPeriod` | packages/user/src/user-service.ts:402-417 | over every interleaving at most one accept returns true per pending period, holding the current nonce |
| `Invitations.RevokeDeletesOnlyPending` | packages/user/src/user-service.ts:432-444 | a revoke deletes only a row pending at that instant, so an accepted account is never deleted by an older revoke |
| `Invitations.LogIsComplete` | packages/user/src/user-service.ts:402-444 | the recorded history holds exactly the accepts that return true and the revokes that delete |
| `Invitations.AcceptAlone` | packages/user/src/user-service.ts:402-417 | after any run, an accept running alone returns true if and only if the row is pending and its nonce is absent or the given one; the row is then not pending and otherwise unchanged |
| `Invitations.AcceptOvertaken` | packages/user/src/user-service.ts:402-417 | an accept whose row was written since its read decides once more by the row as it then is, and throws when overtaken again |
| `Invitations.AcceptOvertakenTwice` | packages/user/src/user-service.ts:402-417 | written again between its second read and write, an accept throws |
| `Invitations.RevokeAlone` | packages/user/src/user-service.ts:432-444 | after any run, a revoke running alone deletes the row and returns true if and only if the row is pending, and otherwise changes nothing |
| `Invitations.RevokeOvertaken` | packages/user/src/user-service.ts:432-444 | a revoke whose row was written since its read decides once more, and throws when overtaken again |
| `Invitations.RevokeAfterClaim` | packages/user/src/user-service.ts:432-444 | after its nonce write a revoke deletes if and only if the row still is pending under that nonce |
| `Invitations.OtherWriteAlone` | packages/user/src/user-service.ts:386-391 | any stored row can be rewritten between the steps of a call, a version later |
| `Totp.StepKeepsInv` | packages/user/src/user-service.ts:616-665 | every atomic step but a removal that writes back a record older than an accepted counter keeps the replay invariant |
| `Totp.CountersIncrease` | packages/user/src/user-service.ts:616-665 | over every interleaving without such a removal the accepted counters of an account strictly increase, so no code is accepted twice (section 5.2 of RFC 6238) |
| `Totp.NeverReplaysIffFresh` | packages/user/src/user-service.ts:573-665 | for every run that leaves the TOTP method alone: at no moment can an accepted counter be accepted again, however the run goes on, if and only if no removal writes back a record older than one |
| `Totp.LogIsComplete` | packages/user/src/user-service.ts:616-665 | a verification succeeds exactly when it is recorded |
| `Totp.VerifyAlone` | packages/user/src/user-service.ts:616-665 | after any run, a verification running alone accepts exactly a counter above the last one of the first confirmed TOTP method, records it and clears the failed attempts; a wrong or used one counts a failed attempt; otherwise nothing is written |
| `Totp.VerifyOvertaken` | packages/user/src/user-service.ts:616-665 | a verification whose row was written since its read decides once more by the row as it then is, and throws when overtaken again |
| `Totp.VerifyOvertakenTwice` | packages/user/src/user-service.ts:616-665 | written again between its second read and write, a verification throws |
| `Totp.RemoveAlone` | packages/user/src/user-service.ts:573-581 | after any run, a removal running alone drops exactly the methods of that name |
| `Totp.AddAlone` | packages/user/src/user-service.ts:552-557 | adding a method replaces the one of its name and keeps every other |
| `Totp.ConfirmAlone` | packages/user/src/user-service.ts:559-571 | confirming is possible exactly for a stored method, marks those of the name and keeps everything else |
| `Totp.StaleRemovalAllowsReplay` | packages/user/src/user-service.ts:573-581 | a concrete run: removing another method writes back stale methods and the same code is accepted again |
| `Snapshots.StepKeepsInv` | packages/user/src/user-service.ts:1105-1139 | every start, effect and end of a write, call, read and eviction keeps the cache invariant |
| `Snapshots.SnapshotNeverStale` | packages/user/src/user-service.ts:170-184 | over every run a snapshot reflects every write through the service that settled before the call |
| `Snapshots.CallRecordsSettled` | packages/user/src/user-service.ts:170-184 | a call records what had settled when it was made, keeps its read, and a hit starts no new one |
| `Snapshots.CallsShareRead` | packages/user/src/user-service.ts:170-184 | two calls of one scope for one id share a read exactly when no write through the service started or settled between them and the read was not dropped |
| `Snapshots.WriteAlone` | packages/user/src/user-service.ts:1105-1139 | another write can always run to its end: the store takes it, and no cached read is shared any more |
| `Snapshots.CallAlone` | packages/user/src/user-service.ts:170-184 | a call without a shared read starts one, caches it, and it resolves to what the store holds |
| `Snapshots.DropAlone` | packages/user/src/user-service.ts:170-184 | a cached read is dropped exactly when it has resolved to a missing row |
| `TypeInlining.CopyIdInjective` | packages/arbac-moost/src/db/meta-projection.ts:211-219 | copy ids differ whenever the original id or the number does |
| `TypeInlining.PushShrinks` | packages/arbac-moost/src/db/meta-projection.ts:185-251 | entering a body never grows the ids not on the stack, the measure inlining ends on |
| `TypeInlining.InlineCtx.constructor` | packages/arbac-moost/src/db/meta-projection.ts:135-147 | a run starts with the full budget of 20 000 and no copy numbered |
| `TypeInlining.InlineCtx.InlineNode` | packages/arbac-moost/src/db/meta-projection.ts:185-251 | the recursive walk with its shared counters computes the pure inlining and leaves the pure counters |
| `TypeInlining.InlineCtx.CopyBody` | packages/arbac-moost/src/db/meta-projection.ts:185-251 | a body is copied under its numbered id, its children and then its `ref` inlined in that order |
| `TypeInlining.InlineCtx.InlineChildren` | packages/arbac-moost/src/db/meta-projection.ts:185-251 | the loop over children drops or stubs those the budget refuses |
| `InlinedTypes.InliningExact` | packages/arbac-moost/src/db/meta-projection.ts:135-251 | for every type: ids are pairwise distinct if and only if those inside kept `ref`s are, every `$ref` to a known id points at a proper ancestor if and only if those inside kept `ref`s do, and at most 20 000 nodes are added to the type's own and the kept ones |
| `InlinedTypes.InliningSafe` | packages/arbac-moost/src/db/meta-projection.ts:135-251 | a type whose `$ref` entries carry no `ref`, or only ones without ids or references to known ids, has distinct ids and anchored references after inlining, and stays within the budget where those `ref`s hold no bodies |
| `InlinedTypes.KeptRefIsRepeated` | packages/arbac-moost/src/db/meta-projection.ts:185-210 | a `ref` kept in a body that is used twice is copied twice: its ids repeat and its nodes are not paid from the budget |
| `InlinedTypes.OwnEntryMayDangle` | packages/arbac-moost/src/db/meta-projection.ts:198-208 | a concrete entry whose kept `ref` points at no ancestor |
| `InliningShape.InliningPreservesShape` | packages/arbac-moost/src/db/meta-projection.ts:135-251 | within the budget, when nodes sharing an id share a body and no `ref` laid over a body takes an id meant elsewhere, input and output unfold to the same shape at every depth |
| `Expansions.InliningExpands` | packages/arbac-moost/src/db/meta-projection.ts:135-251 | node by node the inlined type copies what it stands for: kind, children in order, metadata and `ref`, an own entry keeping its own; what remains a `$ref` changes its target only; within the budget nothing is dropped |
| `LaidRefs.LaidIdShadowsUnknown` | packages/arbac-moost/src/db/meta-projection.ts:198-208 | a type whose shape changes because a laid `ref` takes the id of an unknown reference |
| `LaidRefs.LaidIdCapturesCopy` | packages/arbac-moost/src/db/meta-projection.ts:198-208 | one whose shape changes because a laid `ref` takes the id of a copy |
| `WriteChecks.SupportedIff` | packages/arbac-moost/src/db/write-check.ts:31-36 | a check is modelled exactly when each condition at any depth compares a field by one of the evaluator's operators, and its fields are those compared |
| `WriteChecks.VerdictDependsOnFields` | packages/arbac-moost/src/db/write-check.ts:80-116 | the verdict of a supported check depends only on the row's values at its fields |
| `WriteChecks.CompiledIsFaithful` | packages/arbac-moost/src/db/write-check.ts:22-29 | a check that compiles decides every row as the filter does |
| `WriteChecks.InsertRowsVerdict` | packages/arbac-moost/src/db/write-check.ts:45-65 | the loop answers false if a decidable row fails, unknown if a row is undecidable, else true |
| `WriteChecks.InsertVerdictSound` | packages/arbac-moost/src/db/write-check.ts:45-65 | a definite verdict is that of every completion of the omitted fields |
| `WriteChecks.InsertVerdictExactly` | packages/arbac-moost/src/db/write-check.ts:45-65 | the verdict is false or true exactly when the check is supported and some row, or no row, that carries its fields fails it and, for true, all rows carry them |
| `WriteChecks.InsertVerdictIgnoresOrder` | packages/arbac-moost/src/db/write-check.ts:45-65 | the verdict does not depend on the order of the rows |
| `WriteChecks.PatchPostImage` | packages/arbac-moost/src/db/write-check.ts:125-147 | an image is predicted exactly when each patch key touching a checked field is that field with a plain value, and then reads as patched there and as before elsewhere |
| `WriteChecks.SetPathThenRead` | packages/arbac-moost/src/db/write-check.ts:161-172 | setting a path reads back there and leaves every incomparable path unchanged |
| `WriteChecks.PostImageFaithful` | packages/arbac-moost/src/db/write-check.ts:125-147 | the verdict on a predicted image is the verdict on any real post-image of the patch |
| `WriteChecks.AssertCheckBeforeWrite` | packages/arbac-moost/src/db/write-policy.ts:83-103 | the pre-write check accepts only patches whose real post-images all satisfy the check, judges inserted and replacing rows as submitted, and is exact for what the database writes when patches are modelled or no checked field of a row can be filled in |
| `WriteChecks.VerdictSettledIff` | packages/arbac-moost/src/db/write-policy.ts:83-103 | every check on given fields decides a submitted object row as it decides each of its completions if and only if none of them can be filled in: absent, with only objects or nothing above |
| `WriteChecks.OmittedFieldEscapes` | packages/arbac-moost/src/db/write-policy.ts:83-103 | a submitted row that omits a field the database can fill in passes a check its completion fails |
| `WriteChecks.GuardCheck` | packages/arbac-moost/src/db/write-policy.ts:151-165 | without a transaction the check decides: post-images of patches exactly, full rows as submitted; an insert inside one is refused exactly when a row carrying every checked field fails a supported check, and in ignore mode unless all rows carry them and pass |
| `Whitelists.Whitelist.constructor` | packages/arbac-moost/src/db/write-fields.ts:69-71 | an empty trie covers nothing |
| `Whitelists.Whitelist.AddPath` | packages/arbac-moost/src/db/write-fields.ts:73-85 | adding a path to the mutable trie makes it denote the old paths and the new one, early stop included |
| `Whitelists.Whitelist.CoversPath` | packages/arbac-moost/src/db/write-fields.ts:88-96 | the trie covers a path if and only if some added path is it or an ancestor |
| `Whitelists.Whitelist.CoversFrom` | packages/arbac-moost/src/db/write-fields.ts:88-96 | the same walk from any inner node, relative to it |
| `Whitelists.NothingCovers` | packages/arbac-moost/src/db/write-fields.ts:88-96 | where the walk stops without a whole subtree, no whitelisted path covers the rest |
| `Whitelists.ChildDenotes` | packages/arbac-moost/src/db/write-fields.ts:98-123 | a child exists exactly when some entry passes through it, and is whole exactly when one ends there |
| `Overlays.PruneKeepsOnlyCovered` | packages/arbac-moost/src/db/write-fields.ts:98-123 | every leaf that survives pruning lies under a whitelisted path, dotted keys read as segments, and is unchanged |
| `Overlays.PruneKeepsCovered` | packages/arbac-moost/src/db/write-fields.ts:98-123 | on every write, patches and dotted keys included, a value survives unchanged if the way to a whitelisted path passes only undotted keys and, on a patch, merging blocks; otherwise a leaf is dropped |
| `Overlays.PruneLeavesNoShell` | packages/arbac-moost/src/db/write-fields.ts:98-123 | what pruning keeps under a key is the value itself or an object with something left in it |
| `Overlays.SurvivesOnInsert` | packages/arbac-moost/src/db/write-fields.ts:98-123 | on an insert or replace, undotted keys survive exactly when they are whitelisted |
| `Overlays.ForcedReadsBack` | packages/arbac-moost/src/db/write-fields.ts:132-153 | a forced value reads back, unless a patch would have to create a replaced block: then nothing is there |
| `Overlays.ForcedLeavesOthers` | packages/arbac-moost/src/db/write-fields.ts:132-153 | a forced value leaves every path apart from it unchanged, dotted keys read as segments |
| `Overlays.ForcedAddsOnly` | packages/arbac-moost/src/db/write-fields.ts:132-153 | a leaf after forcing is part of the forced value or was there before |
| `Overlays.ForcedHasNoTwin` | packages/arbac-moost/src/db/write-fields.ts:132-153 | no literal dotted key spelling the rest of a forced path survives beside it |
| `Overlays.AllForcedReadBack` | packages/arbac-moost/src/db/write-fields.ts:155-168 | on an insert or replace all pairwise incomparable forced values read back, in any order |
| `Overlays.OverlayWritesOnly` | packages/arbac-moost/src/db/write-fields.ts:155-168 | every leaf of the written row is part of a forced value, or whitelisted and unchanged, patches included |
| `Overlays.OverlayKeepsCovered` | packages/arbac-moost/src/db/write-fields.ts:155-168 | on every write, a value that survives pruning and is apart from every forced path is written unchanged |
| `Overlays.OverlayForces` | packages/arbac-moost/src/db/write-fields.ts:155-168 | whatever the whitelist, every forced value of an insert or replace is written, in any order |
| `Overlays.OverlayKeepsAll` | packages/arbac-moost/src/db/write-fields.ts:155-168 | without a whitelist everything apart from the forced paths is written as submitted |
| `Payloads.BuildWhitelist` | packages/arbac-moost/src/db/write-fields.ts:51-67 | the trie denotes the allowed fields and the preserved ones |
| `Payloads.PruneByTree` | packages/arbac-moost/src/db/write-fields.ts:98-123 | pruning in memory builds a fresh object that reads as the pure pruning; the payload is not modified |
| `Payloads.SetPath` | packages/arbac-moost/src/db/write-fields.ts:132-153 | setting a path writes only the target object and fresh copies, and reads as the pure forcing |
| `Payloads.ForceEach` | packages/arbac-moost/src/db/write-fields.ts:155-168 | the loop over the forced values reads as forcing them in order |
| `Payloads.ApplyOverlay` | packages/arbac-moost/src/db/write-fields.ts:155-168 | one row: the result reads as the pure overlay, and no object of the caller is modified |
| `CountGuards.UnionCount` | packages/arbac-moost/src/db/write-policy.ts:58-75 | sets of at most one row hold as many rows as there are sets if and only if none is empty and none shared |
| `CountGuards.CountDecides` | packages/arbac-moost/src/db/write-policy.ts:58-75 | one count over exact filters equals their number if and only if each names a row in scope and no two name the same one |
| `CountGuards.AssertIdFiltersInScope` | packages/arbac-moost/src/db/write-policy.ts:58-75 | one count over the distinct targets accepts exactly when every target row is in scope and no row is named by two different filters |
| `CountGuards.AssertWrittenRowsInCheck` | packages/arbac-moost/src/db/write-policy.ts:106-114 | the post-write count accepts exactly when every written row satisfies the check and the filters name different rows |
| `WriteRefs.EnforcedExactly` | packages/arbac-moost/src/db/write-refs.ts:70-85 | a foreign key is enforced if and only if every scope asks for it, by `true` or by a name resolving to it |
| `WriteRefs.NameDesignates` | packages/arbac-moost/src/db/write-refs.ts:45-52 | a name means the first key with that local field or, where no key has it, the key behind the relation of that name; otherwise it throws |
| `WriteRefs.EnforcedThrowsIff` | packages/arbac-moost/src/db/write-refs.ts:70-85 | on a table with foreign keys the enforced keys throw exactly when some scope lists a name that means nothing |
| `WriteRefs.ConjunctionFaithfulIff` | packages/arbac-moost/src/db/write-refs.ts:94-110 | the names of a conjunction resolve back to exactly the keys either side enforces, if and only if none or all are enforced or each one's first field occurs in no earlier key |
| `WriteRefs.SharedFieldLosesCheck` | packages/arbac-moost/src/db/write-refs.ts:94-110 | a concrete table where the check of one key is traded for another's |
| `RefTargets.ReferencedTuples` | packages/arbac-moost/src/db/write-refs.ts:135-152 | a tuple is among the references exactly when some row, laid over its pre-image where it has one, carries it part by part with no part nullish, a patch only if it touches the key; each occurs once, and an operator or array value in one is refused |
| `RefTargets.ReferenceIsWritten` | packages/arbac-moost/src/db/write-refs.ts:135-152 | a partly patched composite key, completed from the pre-image, is the reference the written row carries when no patch key lies above or below its fields |
| `RefTargets.SatTargetFilter` | packages/arbac-moost/src/db/write-refs.ts:155-159 | the target filter selects exactly the rows some tuple names, in both of its forms |
| `RefTargets.RecountIsExact` | packages/arbac-moost/src/db/write-refs.ts:193-197 | the count of one foreign key equals the number of tuples if and only if every referenced row is readable |
| `RefTargets.CombinedCountSound` | packages/arbac-moost/src/db/write-refs.ts:185-192 | the combined count matches only if every per-key count would |
| `RefTargets.AssertTargetRefs` | packages/arbac-moost/src/db/write-refs.ts:180-198 | the check reports the first foreign key with an unreadable reference and none otherwise, so the combined count never changes the outcome |
| `Visibility.ProperParents` | packages/arbac-moost/src/db/visibility.ts:280-283 | the walk over a key's dots collects exactly its proper ancestors |
| `Visibility.CompileProjection` | packages/arbac-moost/src/db/visibility.ts:271-285 | the compiled test equals the plain field test on every path, and throws exactly on a mixed projection |
| `Visibility.FoldJson` | packages/arbac-moost/src/db/visibility.ts:312-321 | exactly the keys inside JSON columns are dropped, an exclusion hiding their columns instead; nothing is revealed |
| `Visibility.HideDerived` | packages/arbac-moost/src/db/visibility.ts:322-334 | exactly the derived columns whose source is hidden are dropped from a whitelist or, while visible, excluded |
| `Visibility.WholeColumns` | packages/arbac-moost/src/db/visibility.ts:288-300 | with no key inside a JSON column, every path in it is shown exactly when the column is |
| `Visibility.NormalizeAllowed` | packages/arbac-moost/src/db/visibility.ts:301-338 | key by key: what stays of a whitelist and what an exclusion lists, over columns that are not nested; the identifiers replace a whitelist exactly when nothing stays; a restricted projection never becomes `{}` and nothing hidden shows but near an identifier |
| `Visibility.BuildFieldTest` | packages/arbac-moost/src/db/visibility.ts:381-407 | the executable field test on every path, read off the projection and the columns: a shown field with no JSON or derived column at, above or below it stays shown unless a whitelist fell back, and a derived column shows only while its source does |

## Left out

- Claimants.NoOwnerWidensIff: lists that cannot be conjoined with an owner that only projects (a custom field without a rule, an unknown reference name) are excluded, as nothing is served then.
- Attenuation.RequestNeverWidens: reference checks are compared on the request's own scopes, since a relation reached for reading checks none.
- Handlers.NoCredentialWidensIff: lists whose conjunction with an unrestricted claim throws (a custom field without a rule, an unknown reference name) are excluded, as nothing is served then.
- InlinedTypes.InliningExact: `optional` and the annotation fields of a node are one opaque metadata value; a `ref` without a serialized type counts as metadata.
- Totp.NeverReplaysIffFresh: account writes change everything but the methods; the generic update of arbitrary user fields, which could replace them, is not a step.
- InliningShape.InliningPreservesShape: shape is kinds, labels and children; within an exhausted budget fields are dropped, which the bound of `InlinedTypes.InliningExact` covers.
- WriteChecks.OmittedFieldEscapes: what the database fills in is any completion of the submitted row; defaults and generated values are not modelled one by one.
- RestrictOnly.CompositeWhitelistExactly: the composite whitelist is compared entry by entry, as the code does, so a path covered by different entries on the two sides is not writable under it.
- DottedPaths.CoversPath: paths with a dot at index 0 are excluded, because the source's loop does not end on them; the same holds for the keys of `Visibility.CompileProjection`.
- RefTargets.AssertTargetRefs: target fields are taken to identify at most one row; foreign-key values that are class instances compare by identity in the model, so they name no row.
- RefTargets.ReferenceIsWritten: stored column names are taken to be undotted, and a patch that replaces an object above a foreign-key field is excluded, as the code merges rows at the top level only.
- Payloads.ApplyOverlay: one row at a time; the mapping over a batch and the pass-through of non-object payloads are omitted. Class instances are plain values, and prototype keys are not modelled.
- Visibility.NormalizeAllowed: the nearest-column lookup is a parameter with its contract, and which keys an exclusion lists is exact where JSON columns are not nested; where they are, it depends on the order of the keys.
- Engine.Arbac.Evaluate: attribute lookup is a value rather than an asynchronous call, warnings about unknown roles are omitted, and the compiled expressions cached on rule objects are recomputed.
- EffectiveScopes.FoldReachesEveryLevel: the memo of folded scopes per rule registry and the report of unknown fields are omitted.
- `isMetaFieldVisible`, the pruning of serialized types, write-only stamps, form overlays and action gates: case lists over visibility verdicts.
- The building of relation name trees from a query, and the `$with` overlay recursion over request controls: request parsing.
- Grouping foreign keys by target type before the reference check, and the prefetch of target evaluations: dispatch without a decision of its own.
- Nested-write keys (`assertNestedWritesAllowed`) and the order in which `guardArbacWrite` calls its parts: single branches.
- Numbers are integers; NaN, coercions and locale order do not occur, and how the database orders two values is a parameter of the filter meaning.
- `stableKey` is structural equality; registries are maps, so effects of prototype keys are not modelled; strings are sequences of characters without UTF-16 surrogates.
- A regular expression is the language of the emitted fragment; a `$` before a final line break and flags do not occur.
- Password hashing, tokens, trusted devices, account locking and federated login: cryptography and input/output. Which counter a code matches and whether an account may sign in are step arguments.
- HTTP controllers, guards, decorators, dependency injection, event contexts, logging, codegen and configuration.
