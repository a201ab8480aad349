# Verification of the mock directory and token server

This project models, in Dafny, the parts of the server that hold state or compute something a reader
cannot check by looking at one function, and proves what they promise. The directory emulation
(`internal/entra`) is the core: two query languages, a validated copy-on-write store, the Graph query
pipeline, and codes, keys and tokens as a protocol. Three smaller cores stand beside it: the per-issuer
key pool, `${name}` templating, and the JSON printer.

Run `dafny verify dfyconfig.toml`.

## How it is laid out

- **Query languages.** `Grammar` and `Lexing` hold what both share: concrete syntax trees, a parser, meaning and a
  printer, with exactness, uniqueness and round trips proved once. `RuleSyntax` and `FilterSyntax` /
  `FilterPrint` are its instances; `RuleParser` and `FilterParser` are the lexers and parsers as they run,
  over an index and a position, proved to compute the specification. `RuleMeaning` and `FilterMeaning` say of
  literal text what each word of the two languages selects, and what is refused. `Rendering` evaluates
  filters on rendered entities, `Expansion` adds managers to them.
- **Directory store.** `Directory` and `Normalize` give configurations, lookups and normalization on
  values; `Invariant` what normalization establishes and when it is a fixed point; `Edits`, `Deletion`,
  `TenantDeletion` and `Runs` the edits over whole runs; `Effects` which configurations are accepted and
  what each edit changes, `Dynamics` who is in a dynamic group. `Passes`, `Snapshots`, `Slices` and `Store`
  are the same code on arrays and blocks in the heap, written in place, each method proved against the
  values; `History` drives them over whole runs. `Consents` and `Admin` add the runtime consents.
- **Graph queries.** `Membership` reads groups from a user, a group and a claim. `Query` and `Paging` are
  query strings, projection, pages and the continuation link.
- **Protocol.** `Codes` is the code store and its runs, `Keys` the rotation window, `Tokens` minting and
  validation.
- **Smaller cores.** `KeyPool`, `Template` with `Mappings`, and `Jsonx` with `JsonText`.
- **Groundwork.** `Text`, `Lists`, `Order`, `Int64`, `JsonValue`; `Samples` has the small concrete
  configurations of the inputs below.

Strings are byte or ASCII strings. Hashes are ideal functions (collision-freedom is assumed only where a
theorem says so), signatures are ideal, random codes are fresh values, and the clock is a parameter.
Sorting is any sorted permutation.

## What does not hold as documented

Where a property fails, lemmas give the exact condition under which the code does meet it, and an input.

- Normalization trims managers but not usernames (`config.go:400`). With a blank-padded username it is not
  a fixed point, and the deletion of an unrelated user or tenant can be refused: `FixedPointExactly`,
  `DeleteUserExactly` and `DeleteTenantExactly` say when, `PaddedUsernameFails` gives an input.
- The store trims the tenant id of a deletion, the consent cascade does not (`consent.go:59-68`):
  `CascadeExactly`, `PaddedCascadeFails`.
- The continuation link leaves the decoded path and the parameter names unescaped (`odata.go:161`,
  `odata.go:165`), so it does not always ask for the same request: `LinkKeepsExactly`, with inputs
  `PathSwallowsTheRest`, `PercentBreaksTheLink` and `FragmentSwallowsTheRest`.
- A page size close to the 64-bit range makes the slice bound wrap (`odata.go:271`): `PanicsExactly`,
  `LargestPagePanics`.
- A group that declares its own object id appears under another id in the token claim (`claims.go:180`):
  `ClaimMatchesMemberObjects`, `OwnIdShows`. A group named like another group's id can answer for it
  (`directory.go:162`): `IdsReachTheirGroups`, `NameAnswersForId`.
- An ID token whose client is the Graph application passes for an access token (`verify.go:167`):
  `IdTokenExactly`, `GraphIdTokenPasses`.
- An account or tenant deleted before its code is redeemed is a server error, not an OAuth error
  (`token.go:50`): `RedemptionExactly`, `DeletedAccountFails`.
- A lifetime beyond 64-bit nanoseconds wraps (`claims.go:72`): `ExpiryIsExact`, `LongLifetimeWraps`.
- Templating can depend on the map order (`callback.go:264`): for plain names and values exactly when a
  placeholder is newly spelled, `AnyOrderExactly`, with inputs `EmptyValueJoins` and `NestedShows`; and
  otherwise for values or names that hold marks, `ValueWithMarks` and `MarkedNameShows`.
- A Go map inside an array is printed in an array of its own (`jsonx.go:147-148`): `ShapeIsNatural`,
  `MapInArrayFails`.

Normalization writes through the group list of a tenant, or the work ids of a user, that a caller passes
in; the store's methods therefore ask that those lists belong to no published snapshot.

## Model

| member | source | states |
|---|---|---|
| Grammar.ParseIsExact | internal/entra/filter.go:237-297 | the or/and/unary descent accepts exactly the token sequences the grammar derives: a derivation is returned if and only if it is valid and yields those tokens |
| Grammar.DerivationIsUnique | internal/entra/rule.go:253-310 | no token sequence has two derivations: not binds tighter than and, and tighter than or |
| Grammar.MeaningOr | internal/entra/filter.go:32-50 | the flattened or/and lists evaluate to the truth value of the derivation read by precedence |
| Grammar.WriteThenParse | internal/entra/filter.go:237-297 | any well-formed tree, written with parentheses only where needed, parses back to itself |
| Lexing.SpacedReads | internal/entra/filter.go:160-205 | any lexer that skips blanks and reads single tokens back reads a whole printed token list back |
| RuleSyntax.RuleLangLawful | internal/entra/rule.go:291-393 | the rule language instantiates the grammar: keywords do not overlap and each comparison is parsed exactly, whatever follows it |
| RuleSyntax.LexPrinted | internal/entra/rule.go:178-220 | lexing printed rule tokens, backslash escapes included, gives the tokens back |
| RuleSyntax.PrintThenParse | internal/entra/rule.go:138-163 | printing any rule tree and compiling the text gives the same tree, Direct Reports rules included |
| RuleSyntax.ParsedIsPrintable | internal/entra/rule.go:138-163 | every accepted rule text compiles to a tree that can be printed, so accepted texts have a normal form |
| RuleParser.LexString | internal/entra/rule.go:190-210 | the in-place scan of a quoted string returns exactly the unescaped text and the index after it, or nothing when unterminated |
| RuleParser.LexRule | internal/entra/rule.go:178-220 | the index-driven lexer produces the token list of the specification and terminates on every input |
| RuleParser.RuleParser.Or | internal/entra/rule.go:253-270 | the or level over the mutable position consumes what the specification parser consumes and returns its meaning |
| RuleParser.RuleParser.And | internal/entra/rule.go:272-289 | the same for the and level |
| RuleParser.RuleParser.UnaryRule | internal/entra/rule.go:291-310 | the same for negation and grouping |
| RuleParser.RuleParser.ComparisonRule | internal/entra/rule.go:315-372 | the same for one comparison, every operand restriction included |
| RuleParser.RuleParser.Array | internal/entra/rule.go:374-393 | the same for an -in list, whose values are lowercased |
| RuleParser.CompileRule | internal/entra/rule.go:138-163 | compiling in place returns exactly the specified rule, or nothing |
| RuleMeaning.OrSelectsEither | internal/entra/rule.go:253-270 | the text a, then -or, then b, of any two rules, selects whom either selects |
| RuleMeaning.AndSelectsBoth | internal/entra/rule.go:272-289 | (a) -and (b) selects whom both select |
| RuleMeaning.NotSelectsTheRest | internal/entra/rule.go:291-310 | -not (a) selects whom a does not |
| RuleMeaning.OperatorsSelect | internal/entra/rule.go:97-124 | user.department -eq "v", with each of the six operator words that take a value: whether the set department folds to, starts with or contains v, or not |
| RuleMeaning.AttributesRead | internal/entra/rule.go:97-124 | user.x -eq "v" reads, for each of the eleven attribute words, that field of the account |
| RuleMeaning.NullSelects | internal/entra/rule.go:97-124 | -eq null selects the accounts without the attribute, -ne null those with it |
| RuleMeaning.EnabledSelects | internal/entra/rule.go:131-133 | accountEnabled against true and false; enabled is whoever is not switched off |
| RuleMeaning.ListSelects | internal/entra/rule.go:374-393 | -in and -notin with any list of values: whether the set department folds to one of them |
| RuleMeaning.EscapesRead | internal/entra/rule.go:190-210 | within quotes a backslash makes the quote or backslash after it part of the value |
| RuleMeaning.OperatorsKnown | internal/entra/rule.go:315-372 | which operator words compile with a quoted value, with null and with a list: no others, in any case |
| RuleMeaning.AttributesKnown | internal/entra/rule.go:315-325 | the eleven attribute words compile with a quoted value, in any case, and no other word does |
| RuleMeaning.FlagCompiles | internal/entra/rule.go:333-346 | accountEnabled compiles with -eq and -ne against true and false, and never with quoted text |
| RuleMeaning.DirectReportsSelect | internal/entra/rule.go:84-87 | Direct Reports for "id" selects exactly the users who have a manager, an account of their tenant with that object id |
| Directory.NullSemantics | internal/entra/rule.go:90-124 | each string operator is the exact complement of its opposite, an unset attribute meets precisely the negative operators and -eq null, and case never matters |
| FilterSyntax.FilterLangLawful | internal/entra/filter.go:275-456 | the filter language instantiates the grammar: each test is parsed exactly, whatever follows it |
| FilterSyntax.LexPrinted | internal/entra/filter.go:160-205 | lexing printed filter tokens, doubled quotes included, gives the tokens back |
| FilterPrint.PrintThenParse | internal/entra/filter.go:135-149 | printing any well-formed filter over a schema and compiling it gives the same filter |
| FilterPrint.ParsedIsPrintable | internal/entra/filter.go:135-149 | every accepted filter is well formed over its schema and can be printed back |
| FilterParser.LexFilter | internal/entra/filter.go:160-205 | the index-driven lexer produces the specified tokens and refuses an empty filter |
| FilterParser.FilterParser.Or | internal/entra/filter.go:237-254 | the or level over the mutable position consumes what the specification parser consumes and returns its meaning |
| FilterParser.FilterParser.And | internal/entra/filter.go:256-273 | the same for the and level |
| FilterParser.FilterParser.UnaryFilter | internal/entra/filter.go:275-297 | the same for negation, grouping and the tests |
| FilterParser.FilterParser.PrefixFilter | internal/entra/filter.go:299-319 | the same for startsWith(path, literal) |
| FilterParser.FilterParser.ComparisonFilter | internal/entra/filter.go:321-362 | the same for eq, ne and in |
| FilterParser.FilterParser.AnyFilter | internal/entra/filter.go:365-400 | the same for any(), which needs a collection and its own lambda variable |
| FilterParser.CompileFilter | internal/entra/filter.go:135-149 | compiling in place returns exactly the specified filter, or nothing |
| FilterMeaning.OrKeepsEither | internal/entra/filter.go:237-254 | a or b, of any two filters, keeps what either keeps |
| FilterMeaning.AndKeepsBoth | internal/entra/filter.go:256-273 | (a) and (b) keeps what both keep |
| FilterMeaning.NotKeepsTheRest | internal/entra/filter.go:275-297 | not (a) keeps what a does not |
| FilterMeaning.EqualityKeeps | internal/entra/filter.go:59-105 | path eq literal keeps the entities whose property is null, that truth value, or a string folding to the literal; path ne literal the others |
| FilterMeaning.PrefixKeeps | internal/entra/filter.go:299-319 | startsWith(path,'v') keeps the entities whose property is a string that starts with v, in any case |
| FilterMeaning.AnyKeeps | internal/entra/filter.go:365-400 | path/any(x:x eq literal) keeps the entities with an element the literal equals |
| FilterMeaning.ListKeeps | internal/entra/filter.go:340-358 | path in (...) keeps the entities whose property equals one of the literals |
| FilterMeaning.ComparisonsKnown | internal/entra/filter.go:321-362 | a comparison compiles exactly when its path names a leaf or collection of the schema and its operator is eq or ne, in any case |
| FilterMeaning.QuoteDoubled | internal/entra/filter.go:166-185 | the literal for a'b is written 'a''b', so the tests above read a doubled quote as one |
| FilterMeaning.DepartmentKeeps | internal/entra/filter.go:59-105 | over rendered users, department eq 'v' keeps those whose set department folds to v |
| Rendering.UserShape | internal/entra/graph.go:27-56 | every rendered user has the shape of the user schema: same names, leaves where leaves, collections where collections |
| Rendering.UserNamesRead | internal/entra/graph.go:27-56 | each name property of a rendered user shows its own field, null where unset |
| Rendering.UserWorkRead | internal/entra/graph.go:27-56 | likewise its contact and work properties; enabled unless switched off |
| Rendering.GroupFieldsRead | internal/entra/graph.go:60-79 | likewise for groups; a rule makes the group type dynamic and its processing state On |
| Rendering.SchemasOk | internal/entra/filter.go:128-131 | both schemas meet what printing filters needs, so the round trips hold for users and for groups |
| Rendering.AcceptedPathReaches | internal/entra/filter.go:413-436 | a path a schema accepts reaches, on any entity of that shape, a value of the same kind, which is what evaluation looks up |
| Rendering.AcceptedPathsReach | internal/entra/filter.go:108-124 | that holds on every rendered user and every rendered group, each of its schema's shape |
| Rendering.ExpandKeepsVerdict | internal/entra/graph.go:109-142 | the manager property appended by $expand changes the verdict of no accepted filter |
| Rendering.LanguagesAgree | internal/entra/filter.go:59-105 | on the attributes both languages know, -eq/-ne/-in/-startsWith and eq/ne/in/startsWith select the same users, unset attributes included |
| Expansion.ExpandManager | internal/entra/graph.go:109-142 | each row becomes the rendered user, followed by the projected manager where there is one; refused exactly when the option or a projection is |
| Expansion.ManagersAreShown | internal/entra/graph.go:109-142 | with $expand=manager($select=...) a row is the user, followed by the manager record's selected properties exactly where the user has a manager |
| Expansion.ExpansionKeepsFilter | internal/entra/odata.go:252-265 | filtering an expanded listing keeps the rows filtering the plain one keeps |
| Directory.UuidV5 | internal/entra/uuid.go:17-27 | the derived id is always a lowercase GUID with version 5 and the RFC variant, whatever the hash |
| Directory.UuidSpells | internal/entra/uuid.go:17-27 | the derived id spells the first sixteen bytes of the hash in order, but for version and variant |
| Directory.KeyFinds | internal/entra/directory.go:243-262 | a key finds an account of the tenant by object id first, else by principal name or username, whenever there is one |
| Normalize.CanonGraphStable | internal/entra/graphconfig.go:108-156 | a valid Graph block stays valid and unchanged, with 1 <= defaultPageSize <= maxPageSize |
| Invariant.AcceptedIsSettled | internal/entra/config.go:178-309 | what normalize accepts satisfies the whole invariant: canonical ids, configured references, named managers, no static member of a dynamic group, memberships equal to the matching rules |
| Effects.AcceptedExactly | internal/entra/config.go:178-309 | a configuration is accepted exactly when it meets the rules spelled out on its text as given: ids, formats, distinct names, configured references, managers that name another account, no static member of a dynamic group |
| Effects.AcceptedPartByPart | internal/entra/config.go:178-285 | what accepting makes of every part: defaults filled in, ids canonical, nothing else changed |
| Effects.GraphSays | internal/entra/graphconfig.go:108-156 | what it makes of the Graph block: the defaults, and a page size within the cap |
| Invariant.FixedPointExactly | internal/entra/config.go:178-309 | normalizing an accepted configuration again changes nothing exactly when every stored manager survives being trimmed and resolved again |
| Invariant.FixedPoint | internal/entra/config.go:178-309 | with usernames free of surrounding blanks normalize is a fixed point on its own output |
| Invariant.NormalizedOfParts | internal/entra/config.go:286-309 | once its parts are settled, a configuration is accepted exactly when its managers resolve and no static member is in a dynamic group |
| Runs.PaddedUsernameFails | internal/entra/config.go:400 | a concrete configuration of one tenant and three accounts, accepted, whose result normalize rejects and in which deleting an unrelated user fails |
| Passes.NormalizeGroups | internal/entra/config.go:334-361 | the in-place pass over one tenant's groups leaves the canonical groups and reports success exactly when all are valid and distinct |
| Passes.NormalizeClaims | internal/entra/config.go:374-395 | the in-place pass over an app's claim mappings, likewise |
| Passes.NormalizeWids | internal/entra/config.go:401-407 | the in-place pass over a user's work ids, likewise |
| Passes.NormalizeTenants | internal/entra/config.go:197-225 | the in-place pass over the tenants leaves them canonical and the seen-map holding exactly their ids |
| Passes.NormalizeApps | internal/entra/config.go:226-239 | the in-place pass over the apps, pinned tenants checked against the seen-map |
| Passes.NormalizeConsents | internal/entra/config.go:240-247 | the in-place pass over the seed consents |
| Passes.NormalizeUsers | internal/entra/config.go:248-285 | the in-place pass over the users leaves them canonical with derived ids, and rejects exactly the invalid and the duplicate ones |
| Snapshots.Snapshot.NormalizeGraph | internal/entra/graphconfig.go:108-156 | the Graph block rewritten in place equals the canonical block |
| Snapshots.Snapshot.ResolveManagers | internal/entra/config.go:286-305 | the second pass, in place and seeing managers already resolved, gives what resolving all of them against the input gives |
| Snapshots.Snapshot.EvaluateDynamicGroups | internal/entra/config.go:313-331 | computed in place, every user's dynamic groups are the matching ones in declared order, which MembersAreSelected and ReportsAreMembers say of every run; refused exactly when a user is a static member of a dynamic group |
| Dynamics.MembersAreSelected | internal/entra/config.go:313-331 | after any run of edits a user is in a dynamic group exactly when the group's rule, as written, selects the user |
| Dynamics.ReportsAreMembers | internal/entra/rule.go:84-87 | after any run the members of a direct-reports group are exactly the users with a manager, an account of their tenant with that object id |
| Dynamics.ComparedAreMembers | internal/entra/rule.go:90-133 | after any run the members of a group with one comparison are decided by the account's own fields |
| Snapshots.Snapshot.Normalize | internal/entra/config.go:178-309 | normalizing the arrays in place computes exactly the specified configuration, writing only its own arrays |
| Snapshots.Snapshot.Clone | internal/entra/store.go:201-240 | the deep copy has the same value and shares no array or block with the original |
| Slices.FilterInPlace | internal/entra/store.go:110-118 | filtering over the same backing array leaves exactly the elements that pass, in order, and tells whether one was dropped |
| Slices.DropTenant | internal/entra/store.go:110-122 | dropping the tenant in place, and whether it was there |
| Slices.DropUsers | internal/entra/store.go:123-129 | dropping users in place, and whether one was dropped |
| Slices.DropConsents | internal/entra/store.go:130-136 | dropping the tenant's seed consents in place |
| Slices.ReplaceTenant | internal/entra/store.go:94-100 | replacing the first tenant of that id in place, and whether there was one |
| Slices.ReplaceUser | internal/entra/store.go:160-167 | replacing the first user of that name in place, and whether there was one |
| Slices.ClearManagers | internal/entra/store.go:190-194 | reports of the deleted user, and nobody else, lose their manager |
| Store.Store.constructor | internal/entra/store.go:29-33 | the store starts with a fresh copy of the seed |
| Store.Store.Reset | internal/entra/store.go:39-43 | publishes a fresh copy of the seed; the snapshot before keeps its value |
| Store.Store.Commit | internal/entra/store.go:47-59 | publishes the edited copy exactly when it normalizes; the snapshot before keeps its value either way |
| Store.Store.CreateTenant | internal/entra/store.go:77-82 | succeeds and publishes as the edit on values does, writing no published snapshot; the argument's array must not belong to one |
| Store.Store.UpdateTenant | internal/entra/store.go:87-102 | likewise, the tenant id being immutable |
| Store.Store.DeleteTenant | internal/entra/store.go:107-139 | likewise, dropping users and seed consents with the tenant |
| Store.Store.CreateUser | internal/entra/store.go:143-148 | likewise |
| Store.Store.UpdateUser | internal/entra/store.go:153-169 | likewise, tenant and username being immutable |
| Store.Store.DeleteUser | internal/entra/store.go:172-197 | likewise, clearing the managers of the reports |
| Store.Store.SetGraphEnabled | internal/entra/store.go:64-72 | likewise |
| Effects.CreateUserAdds | internal/entra/store.go:143-148 | an accepted creation appends that account, and changes nothing else but managers and memberships |
| Effects.UpdateUserReplaces | internal/entra/store.go:153-169 | an accepted update replaces the account where it is, under its own tenant and username, and changes nothing else but managers and memberships |
| Effects.CreateTenantAdds | internal/entra/store.go:77-82 | an accepted creation appends that tenant, and changes nothing else but managers and memberships |
| Effects.UpdateTenantReplaces | internal/entra/store.go:87-102 | an accepted update replaces the tenant where it is, under its own id, and changes nothing else but managers and memberships |
| Effects.GraphSwitchSwitches | internal/entra/store.go:64-72 | the switch is set as asked, and the rest of the Graph block, tenants, apps, consents and accounts stay |
| History.Play | internal/entra/store.go:35-59 | after any run of calls on the heap, accepted or refused, every snapshot published on the way still has the value the run on values had there |
| Edits.EveryRunIsSettled | internal/entra/store.go:35-72 | after any sequence of edits and resets, successful or refused, the published configuration has unique tenant ids and usernames, configured references, managers that are other users of the tenant, 1 <= defaultPageSize <= maxPageSize, and exact dynamic memberships with none also held statically |
| Deletion.DeleteUserExactly | internal/entra/store.go:172-197 | DeleteUser succeeds exactly when the user exists and every manager left still resolves after being trimmed |
| Deletion.DeleteUserSucceeds | internal/entra/store.go:172-197 | with usernames free of surrounding blanks, exactly when the user exists, and then nothing else changes but managers and memberships |
| Deletion.DeleteUserLeaves | internal/entra/store.go:188-194 | after any accepted deletion nobody is and nobody reports to the deleted user, everyone else is still there, and nobody new |
| TenantDeletion.DeleteTenantExactly | internal/entra/store.go:107-139 | DeleteTenant succeeds exactly when the tenant exists, is not the last, no app is pinned to it and every manager left still resolves after being trimmed; what is then published |
| TenantDeletion.DeleteTenantSucceeds | internal/entra/store.go:107-139 | with usernames free of surrounding blanks, exactly when the tenant exists, is not the last and no app is pinned to it, and then only the tenant, its users and its seed consents go |
| TenantDeletion.DeleteTenantLeaves | internal/entra/store.go:122-137 | after any accepted deletion no user or seed consent names the tenant, and every other tenant, user and consent is still there |
| Runs.DeletionsOnEveryRun | internal/entra/store.go:107-197 | on every reachable configuration, when no username was ever given surrounding blanks: DeleteUser succeeds exactly when the user exists, DeleteTenant exactly when the tenant exists, is not the last and has no app pinned |
| Runs.DeletionsExactlyOnEveryRun | internal/entra/store.go:107-197 | on every reachable configuration, whatever the usernames: the exact conditions of both deletions, and what is left does not name what was removed |
| Consents.ConsentStore.Reset | internal/entra/consent.go:42-49 | the loop over the seed leaves exactly the seeded consents |
| Consents.ConsentStore.Has | internal/entra/consent.go:37-42 | whether the consent is held, read off its key |
| Consents.ConsentStore.Grant | internal/entra/consent.go:27-31 | adds that one consent under its key |
| Consents.ConsentStore.Remove | internal/entra/consent.go:52-56 | drops that one consent |
| Consents.ConsentStore.RemoveTenant | internal/entra/consent.go:59-68 | deleting while ranging, in any order, drops exactly the keys with the tenant's suffix |
| Consents.CascadeExactly | internal/entra/consent.go:59-68 | the cascade drops exactly that tenant's consents if and only if the id was given without surrounding blanks or the tenant had none |
| Consents.CascadeOnEveryRun | internal/entra/consent.go:59-68 | the same condition after any run of grants, removals, cascades and resets |
| Consents.PaddedCascadeFails | internal/entra/consent.go:59-68 | a concrete consent that stays when its tenant is deleted by an id with a blank before it |
| Consents.HeldExactly | internal/entra/consent.go:30-68 | after any run a consent is held exactly when it was granted or seeded and nothing since took it away: no removal under its key, no cascade for a suffix of its key, no reset |
| Admin.Admin.DeleteTenant | internal/entra/admin.go:146-152 | a refused deletion touches neither store; an accepted one also drops the suffix-matching consents |
| Admin.Admin.ResetToSeed | internal/entra/admin.go:173-176 | directory and consents are the seeded ones again |
| Order.SortIsUnique | internal/entra/directory.go:122-125 | with distinct object ids there is only one sorted order, so paging is deterministic |
| Order.LessMeans | internal/entra/directory.go:122-125 | the order is that of strings: a proper prefix, or less at the first place that differs |
| Membership.MemberNames | internal/entra/directory.go:44-59 | the loops return the effective membership: static and dynamic names, without duplicates once there is a dynamic one |
| Membership.GroupsIn | internal/entra/directory.go:127-152 | the listing is the named groups declared or used in the tenant, each once, ordered by object id |
| Membership.UndeclaredShows | internal/entra/directory.go:92-119 | a group nobody declared has a derived id, is for security and not for mail |
| Membership.DeclaredShows | internal/entra/directory.go:92-119 | a declared group shows what it declares, and defaults where it does not |
| Membership.GroupsOf | internal/entra/directory.go:171-186 | the listing is the user's named groups, each once, ordered by object id |
| Membership.MembersOf | internal/entra/directory.go:200-215 | the listing is the tenant's users whose membership includes the group found, ordered by object id |
| Membership.SettledHouses | internal/entra/directory.go:92-105 | in a published configuration every user has its tenant and every group id is a lowercase GUID |
| Membership.GroupsOfIsSublist | internal/entra/directory.go:171-186 | a user's groups are exactly the tenant's groups named in its membership: a sorted, duplicate-free sublist |
| Membership.MembersMatchGroups | internal/entra/directory.go:155-215 | for any lookup key, a user is among the members exactly when the group found is among the user's groups |
| Membership.IdsReachTheirGroups | internal/entra/directory.go:155-168 | every group is reached by its own id exactly when no group listed before it has that id or is named like it |
| Membership.MembersByOidExactly | internal/entra/graph.go:260-268 | asked for by a group's own id, the members hold a user exactly when the user's groups hold the group, if and only if the group answering for the id has the same say about the user; it is the group itself unless one listed before it has the id or is named like it |
| Membership.NameAnswersForId | internal/entra/directory.go:162-166 | a concrete tenant whose second group, looked up by its own id, is answered for by the first |
| Membership.AddGroups | internal/entra/claims.go:165-186 | no claim exactly without memberships, the overage exactly above the limit; otherwise for the name format the membership names, and for object_id the derived id of each, in order |
| Membership.ClaimMatchesMemberObjects | internal/entra/claims.go:165-186 | below the limit and without id collisions, the object-id claim lists what getMemberObjects answers exactly when every membership has a name and no group of the user declares an id of its own |
| Membership.OwnIdShows | internal/entra/claims.go:178-183 | a concrete settled configuration whose group declares its own id: the claim lists the derived id, getMemberObjects the declared one |
| Query.UnescapeEscape | internal/entra/odata.go:161 | any value comes back from its percent-encoding |
| Query.NextLink | internal/entra/odata.go:149-166 | the loops build the link: other names sorted and as they are, values encoded, the offset last |
| Query.LinkKeepsExactly | internal/entra/odata.go:145-166 | read as a URL, the link asks for the same request, path and parameters, with the offset advanced, exactly when the decoded path has none of ? # %, no parameter name has any of & = % + ; #, and neither has a control character |
| Query.FragmentSwallowsTheRest | internal/entra/odata.go:159-162 | a concrete request whose link loses a plain parameter and the offset to another name |
| Query.PathSwallowsTheRest | internal/entra/odata.go:165 | a concrete path, of a group named with a fragment sign, whose link leads elsewhere and has no parameter, though every name is plain |
| Query.PercentBreaksTheLink | internal/entra/odata.go:165 | a concrete path, of a group named with a percent sign, whose link is no URL at all, whatever the parameters |
| Paging.AtoiOfItoa | internal/entra/odata.go:111-117 | the offset written in the link is the offset read |
| Paging.ApplySelect | internal/entra/odata.go:176-217 | the map-driven projection equals the specified one |
| Paging.UnselectedShows | internal/entra/odata.go:176-217 | without $select exactly the properties not hidden are shown |
| Paging.SelectsByName | internal/entra/odata.go:176-217 | without clashing names, exactly the listed and always-kept properties remain; refused exactly when an entry names nothing but an annotation |
| Paging.RenderCollection | internal/entra/odata.go:248-291 | the loops filter, page and project as specified, 64-bit wrap-around of the slice bound included |
| Paging.FilterIsApplied | internal/entra/odata.go:248-291 | from a path and names the link can carry, a filtered listing followed from the first page shows, of whole entities, exactly the entities the filter keeps, as often as they are there and in their order |
| Paging.NoFilterShowsAll | internal/entra/odata.go:248-291 | likewise, without $filter it shows all of them |
| Paging.RefusedFor | internal/entra/odata.go:248-262 | an option the surface refuses, or a filter that does not compile, refuses the request |
| Paging.PageHolds | internal/entra/odata.go:265-291 | a page holds the next rows from the offset up to the page size, and links to the row after them exactly when there is one |
| Paging.OffsetAndSize | internal/entra/odata.go:101-118 | the offset is $skiptoken, else 0; the page size is $top, capped, else the default |
| Paging.PanicsExactly | internal/entra/odata.go:265-276 | the slice bounds fail exactly when offset plus page size exceeds the 64-bit range |
| Paging.LargestPagePanics | internal/entra/odata.go:271-276 | a concrete configuration, account and request whose slice bounds fail |
| Paging.Progress | internal/entra/odata.go:271-289 | from a path and names the link can carry, the linked request has the same path, starts later and is otherwise the same |
| Paging.WalkIsUnpaged | internal/entra/odata.go:248-291 | from a path and names the link can carry, following the links ends and adds up to exactly the kept rows from the first offset on, each once, in order, projected; it fails only if some row is refused by $select |
| Codes.CodeStore.Put | internal/entra/authorize.go:55-64 | deleting while ranging drops exactly the codes expired before now, then the new code is stored |
| Codes.CodeStore.Take | internal/entra/authorize.go:67-73 | the code is returned if held and gone in any case |
| Codes.IssueCode | internal/entra/authorize.go:304-326 | issues against the store exactly as the protocol step says; a redirect URI the code cannot be added to leaves it stored but undisclosed |
| Codes.IssuedExactly | internal/entra/authorize.go:304-326 | a code is issued exactly when the segment names a scope, the account is in it with no error injected, and a consent the tenant asks for was given |
| Codes.RedeemCode | internal/entra/token.go:26-52 | redeems against the store exactly as the protocol step says: every check, in order, after the code is taken |
| Codes.VerifierDecides | internal/entra/token.go:77-90 | in every run with fresh codes, an otherwise matching redemption is invalid_grant exactly when there was a challenge that the verifier does not answer; without one any verifier passes |
| Codes.GrantedHasAnswered | internal/entra/token.go:77-90 | whoever is granted a token gave a verifier that answers the challenge of the request the code was issued for, by the transform it named |
| Codes.HeldWasIssued | internal/entra/authorize.go:66-73 | in any run, whatever the store holds was issued by some request and taken by none since |
| Codes.RedemptionExactly | internal/entra/token.go:30-52 | in every run with fresh codes a redemption gets past the code checks exactly when the code is outstanding from an issue it matches; the account then decides, a missing one being a server error |
| Codes.TokenIsTraced | internal/entra/token.go:30-69 | every token traces to one earlier issue: client, redirect, lifetime, segment or tenant, PKCE, consent at the issue, account enabled at the redemption |
| Codes.SingleUse | internal/entra/token.go:30-33 | no code is redeemed twice, and a failed attempt spends it |
| Codes.SweepIsInvisible | internal/entra/authorize.go:52-64 | with a monotone clock every request is answered as by a store that never forgets an unredeemed code, at the instant of expiry too |
| Keys.KeySet.Rotate | internal/entra/keys.go:27-40 | after n rotations in all, exactly the last two keys are kept, the newest last |
| Keys.KeySet.PublishedKids | internal/entra/keys.go:51-59 | the published names are those of the last two keys, oldest first |
| Keys.KeySet.Verify | internal/entra/verify.go:78-122 | the loop over the keys decides as the specification does |
| Keys.VerifiesForOneRotation | internal/entra/keys.go:13-40 | a token verifies exactly while its key is the newest or the one before |
| Tokens.MappedClaims | internal/entra/claims.go:202-220 | the nested loops compute the mapped claims of the app |
| Tokens.MappedExactly | internal/entra/claims.go:202-220 | a claim is mapped exactly when an app of the client id, pinned to no other tenant, maps a set attribute of the user to it, and its value is that attribute |
| Tokens.ClaimsHeld | internal/entra/claims.go:65-106 | each claim about the account holds that account's field, the email only when asked for |
| Tokens.GroupsHeld | internal/entra/claims.go:165-186 | the token has the groups claim or the overage markers exactly as the group lookup says |
| Tokens.MappingNeverOverrides | internal/entra/config.go:363-395 | in a published configuration no claim mapping changes a claim the server emits itself |
| Tokens.ValidateAccessToken | internal/entra/verify.go:159-209 | the check chain decides as the specification does |
| Tokens.AcceptedAsUser | internal/entra/verify.go:159-209 | any token, whoever minted it, is accepted as a user's exactly when signature, audience, version, issuer, times, tenant and enabled account are right |
| Tokens.AcceptedAsApp | internal/entra/verify.go:159-209 | and as an application's exactly when it names no user |
| Tokens.DelegatedTokenIsValid | internal/entra/verify.go:159-209 | a delegated token is accepted exactly when the origin is the same, at most one rotation happened, now - skew is before its expiry, and its still-configured tenant has an enabled user with its object id |
| Tokens.UserByOidExactly | internal/entra/directory.go:227-238 | with distinct object ids that user is any enabled user of the tenant with the id |
| Tokens.IdTokenExactly | internal/entra/verify.go:159-209 | an ID token is accepted as an access token exactly when its client is the Graph application and origin, rotation, time and directory allow it, mapped claims notwithstanding |
| Tokens.GraphIdTokenPasses | internal/entra/verify.go:167-169 | a concrete ID token that is accepted |
| Tokens.IdTokenIsRefused | internal/entra/verify.go:167-169 | an ID token for any other client is never accepted, whatever the keys, the configuration and the time |
| Tokens.MintThenValidate | internal/entra/admin.go:214-242 | a token minted for a configured, enabled account is accepted as that account |
| KeyPool.KeyProvider.SigningKey | internal/token/keyprovider.go:114-121 | a call alone returns the stored key or stores the next pool or fresh key |
| KeyPool.KeyProvider.KeyFromPoolOrNew | internal/token/keyprovider.go:123-136 | takes the first pool key while there is one, under the issuer's name |
| KeyPool.PoolInOrder | internal/token/keyprovider.go:114-136 | one after the other, new issuers get the pool in its order, then fresh keys |
| KeyPool.EveryInterleaving | internal/token/keyprovider.go:114-136 | under every interleaving no key serves two issuers, each key stored or returned carries its issuer's name, and every pool key is in exactly one place |
| KeyPool.ReturnedKeyNeverChanges | internal/token/keyprovider.go:114-121 | a key once returned for an issuer is returned to every call for it, ever after |
| Template.TemplateValue | internal/token/callback.go:263-267 | ranging over the map in any order performs one replacement pass per name |
| Template.AnyOrderExactly | internal/token/callback.go:259-273 | for plain names and values, every order of the map range gives the one simultaneous substitution exactly when substituting the other names spells no placeholder the text does not hold |
| Template.PassExactly | internal/token/callback.go:263-267 | a pass after others extends the substitution by its name exactly when nothing is newly spelled, and otherwise leaves fewer dollar signs |
| Template.ValueWithMarks | internal/token/callback.go:263-267 | a value holding a placeholder makes the order show: a concrete input |
| Template.EmptyValueJoins | internal/token/callback.go:263-267 | an empty value after a dollar sign makes the order show: a concrete input |
| Template.NestedShows | internal/token/callback.go:263-267 | a placeholder inside an unclosed one makes the order show: a concrete input |
| Template.MarkedNameShows | internal/token/callback.go:263-267 | a name holding a brace makes the order show: a concrete input |
| Mappings.Mapping.IsMatch | internal/token/callback.go:108-128 | the verdict is that of the specification, whatever the regex cache holds |
| Mappings.MatchedBy | internal/token/callback.go:108-128 | a mapping looks at the form's values, else at the client id, else at what is added; a star, the value itself or a matching expression fits |
| Mappings.BuildParams | internal/token/callback.go:173-182 | precedence: extra, then form, then client id |
| Mappings.Precedence | internal/token/callback.go:173-182 | which value each name gets: the client id over the form, the form over what is added |
| Mappings.TemplateValues | internal/token/callback.go:260-273 | string claims are templated in an order each, others kept; where the order does not show, simultaneously |
| Mappings.Resolve | internal/token/callback.go:159-190 | the first mapping the request matches, and no other, contributes its claims, templated, and its type header; none found means that none matches |
| Jsonx.RenderText | internal/jsonx/jsonx.go:27-31 | rendering into a new builder gives exactly the specified text |
| Jsonx.RenderValue | internal/jsonx/jsonx.go:55-94 | appending to the builder writes exactly the specified text at every level |
| Jsonx.RenderBraces | internal/jsonx/jsonx.go:102-114 | the loop over the fields, likewise |
| Jsonx.RenderArr | internal/jsonx/jsonx.go:117-154 | the loop over the elements, the wrapping of Go maps included |
| Jsonx.ObjectLayout | internal/jsonx/jsonx.go:96-114 | an object's members stand in order on lines of their own, indented by two blanks a level, with commas between |
| Jsonx.ArrayLayout | internal/jsonx/jsonx.go:117-154 | an array's elements stand on one line; an object as if in the array's place, a Go map bracketed once more |
| Jsonx.MapOrderDoesNotShow | internal/jsonx/jsonx.go:40-51 | two ranges over the same Go map render the same object |
| JsonText.QuotedReads | internal/jsonx/jsonx.go:157-163 | a quoted string of any characters reads back as itself |
| JsonText.ValueReads | internal/jsonx/jsonx.go:55-154 | at any nesting and indentation, rendered text is read by a parser for RFC 8259 as the value it stands for |
| JsonText.RenderReadsBack | internal/jsonx/jsonx.go:27-31 | Render produces JSON text that reads back as what it stands for |
| JsonText.ShapeIsNatural | internal/jsonx/jsonx.go:147-148 | the text stands for the value itself exactly when no array, at any depth, has a Go map among its elements |
| JsonText.MapInArrayFails | internal/jsonx/jsonx.go:147-148 | a concrete array of a Go map whose text reads back as an array of an array |

## Left out

- HTTP, TLS, routing, login and picker pages, the debugger, the admin UI, discovery documents and the navikt-compatible grants: dispatch and branch tables.
- Error wording, AADSTS texts, header details and which of several errors is reported first.
- Unicode: case folding, blanks and letters are those of ASCII, and surrogate escapes are not read back.
- Nil and empty lists are not told apart.
- Regular expressions beyond the directReports, GUID and path-segment patterns, which are predicates; mapping patterns are an ideal compile and match.
- Floating point: numbers printed are integers, and the float64 claim is any rounding exact up to 2^53.
- Concurrency of the store, consents and key set: each operation is one step under its lock; only the key pool is modelled with interleaving.
- Requests that take two snapshots: each request step sees one configuration and one set of consents.
- Client credentials, refresh tokens, userinfo and introspection.
- Claims that validation does not read (roles, amr, wids, names, scp), the overage endpoint's URL, and the pairwise subject, which is a parameter.
- The hint and picker selection of accounts: an authorization names the account it picked.
- Snapshots.Snapshot.Clone: lists nobody writes in place (domains, roles, business phones, static and dynamic groups) are values, so only the arrays normalization or an edit writes through are heap objects.
- Paging.WalkIsUnpaged: assumes a path and parameter names the link can carry and a page size within range; LinkKeepsExactly and PanicsExactly say when those fail.
- Membership.GroupsIn: groups with equal object ids come in any order.
