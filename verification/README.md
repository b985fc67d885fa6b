# nats-iam-broker: a verified model

The broker answers NATS auth-callout requests: it checks an IdP token, turns its claims into a
context, selects a role binding, and mints user claims with an expiry. It reads its configuration
from several merged YAML files, renders templates embedded in them, and reloads them while
requests are running. This project models those parts of `internal/broker` and proves what they
guarantee together.

| file | part |
|---|---|
| `Values.dfy`, `GoStrings.dfy` | Go values as decoded from YAML and JSON, string functions |
| `ConfigMerge.dfy`, `ConfigMergeLaws.dfy` | merging configuration files |
| `YamlUnescape.dfy`, `TemplateRender.dfy`, `TemplateLaws.dfy` | templates: unescaping, matching, splicing, compile cache |
| `MatchCriteria.dfy` | match criteria and the shared cache of compiled expressions |
| `RoleCollation.dfy`, `RoleCollationLaws.dfy` | permissions and limits of a list of roles, and what each means |
| `RoleBindings.dfy`, `RoleBindingLaws.dfy`, `SelectionLaws.dfy` | selecting a role binding, and which one decides |
| `Claims.dfy`, `ClaimsLaws.dfy` | claims between struct and map, custom mapping |
| `ClaimsPipeline.dfy`, `ClaimsPanics.dfy`, `LookedUpClaims.dfy` | the conversions of one request, from token to lookup, their panics, and the claims that come through |
| `TokenExpiry.dfy`, `ExpirationLaws.dfy` | time checks and the minted expiry, and which setting decides it |
| `LiveState.dfy`, `Snapshots.dfy` | building and publishing live state, requests beside reloads |
| `WatchLoop.dfy` | the debounced reload loop |
| `AuthRequest.dfy`, `RequestLaws.dfy` | accounts, building user claims, one request with its metrics, when it is granted |
| `Authentication.dfy` | a request from raw token to minted claims, all parts together |

What foreign libraries do is a parameter: the expression engine (`MatchCriteria.ExprEngine`), the
template engine (`TemplateRender.TemplateEngine`), JSON decoding of a token, `%v` formatting (`Claims.Format`), configuration
rendering (`LiveState.Render`), setup and signature checks. Nothing is assumed about them except
where a statement says so. Loops that change variables are methods with loops, objects that are
updated in place are classes; their contracts refer to functions and predicates about which the
laws are proved.

## Findings

Places where code and documentation part, or where a guarantee holds only under a condition. The
first lemma named gives the condition exactly, the second an input on which it fails:

- Best match is documented to select the binding with the most matches. Roles are collated at
  each new record, so a losing binding with an unknown role denies the request; the documented
  winner is granted exactly when no record is broken (`WinnerGrantedIff`, `LosingBindingDenies`).
- `validation.token_bounds.min` and `.max` are documented one by one. For the tokens that come to
  the bounds check it follows the documentation exactly when both or neither are set, apart from
  durations that no such token reaches (`BoundsAsDocumentedIff`). A minimum alone rejects every
  token (`MinimumAloneRejectsAll`). A maximum alone is as documented, but for a token that expires
  between the signature step, which refuses expired ones, and the bounds check (`MaximumAloneIff`).
- `idp[].token_bounds` is documented to override the bounds of the minted token. Nothing reads it:
  `calculateExpiration` is given the validation bounds instead. The result is the documented one
  exactly when the override changes neither the longest nor the shortest lifetime in reach of the
  tokens that are accepted, or none is (`TokenBoundsHonouredIff`, `OverrideIsIgnored`).
- Compiled expressions are cached by text although compilation takes the claims into account. For
  an expression this is invisible exactly when its verdicts do not depend on the claims it was
  compiled under (`CoherentAtIff`); a test for the absence of a claim is not when compiling needs
  the claim to be there (`CacheCanShow`).
- Watching directories is documented to handle symlink rotations. Files that change behind an event
  are current once the loop is at rest exactly when the event names a configuration file
  (`RotationIff`); the event of a rotated link names the link, and behind it a loop at rest stays
  on the old files (`UnannouncedChangeStays`).
- Merging is not associative; `AssociativeIff` says exactly for which documents it is
  (`MergeIsNotAssociative`).
- Sanitizing the service name is commented to remove illegal characters at its ends; it replaces
  them, and the trim that follows never removes anything. Code and comment agree exactly on names
  with no illegal character at either end (`SanitizedAsCommentedIff`, `LeadingSpaceStays`).
- Conversions give claims their final names exactly under a settled mapping, in which no target is
  another mapping's source (`SettledIff`); otherwise a claim can be renamed once more at every
  conversion (`UnsettledMappingKeepsRenaming`).
- UserInfo is documented to be merged into the context. A claim that the token brings too has
  UserInfo's value in every lookup exactly when the values are equal, or the name is a standard one,
  or UserInfo has the claim under its final name; with a mapped claim under the IdP's own name in
  both, the order in which Go walks the map decides (`UserInfoWinsIff`, `EitherDepartmentCanWin`).
- The documented starting value and ceiling of the minted expiry is the `exp` of the incoming token.
  An `exp` from UserInfo takes its place (`IdentifiedExpiry`), and the token's stays a ceiling for
  every configuration exactly when the other is no later (`CeilingIff`).
- Conversions depend on Go's map order exactly when two claims with different values share a name
  (`OrderIrrelevantIff`, `ConflictShows`).
- `fromMap` panics exactly on a null for `groups` or `roles` (`FromMap`). Nothing recovers, so the
  broker process ends: neither this request nor any other in flight is answered. `PanicsIff` says
  exactly which claims of token and UserInfo lead there when they are mapped.

## Model

| member | source | states |
|---|---|---|
| ConfigMerge.DeepMerge | internal/broker/config.go:616-653 | in whatever order keys are visited, overlapping maps merge recursively, arrays concatenate base first, anything else takes the later value |
| ConfigMerge.MergeConfigurationFiles | internal/broker/config.go:567-611 | the loop over decoded files is the left fold of the merge; it stays nil only while every file is empty |
| ConfigMergeLaws.KeyLaw | internal/broker/config.go:616-653 | a key of the merged document holds the join of just the last run of same-kind values among the files that define it |
| ConfigMergeLaws.PathLaw | internal/broker/config.go:567-653 | the same at every depth: what stands at any path is decided by the path's contributors, and nothing stands there when it has none |
| ConfigMergeLaws.EmptyFileIsIdentity | internal/broker/config.go:590-601 | an empty file anywhere in the list changes nothing |
| ConfigMergeLaws.AssociativeIff | internal/broker/config.go:616-653 | two groupings of three documents agree if and only if nowhere does a value of another kind separate two values that would leave a trace when merged |
| ConfigMergeLaws.MergeIsNotAssociative | internal/broker/config.go:643-645 | map, scalar, map: the grouping matters |
| ConfigMergeLaws.AgreeingFilesRegroup | internal/broker/config.go:583-602 | files that agree in kind wherever they overlap may be merged in any grouping of the list |
| YamlUnescape.UnescapeIsOnePass | internal/broker/template_fns.go:174-179 | for every input the two replacement passes read exactly what one left-to-right pass over the escapes reads |
| YamlUnescape.UnescapeUndoesEscape | internal/broker/template_fns.go:174-179 | unescaping gives back every string that was escaped for a double-quoted scalar |
| YamlUnescape.PassesDoNotCommute | internal/broker/template_fns.go:176-177 | in the other order the passes lose a backslash |
| TemplateRender.NextMatch | internal/broker/template_fns.go:103-104 | the delimiter pattern finds the leftmost match and the shortest one there, or there is none |
| TemplateRender.FindAllIsLeftmostShortest | internal/broker/template_fns.go:131 | the matches of a text are leftmost and shortest one after the other, with none between them |
| TemplateRender.SpansUnique | internal/broker/template_fns.go:131 | leftmost and shortest leaves one list of matches |
| TemplateRender.TemplateCache.constructor | internal/broker/template_fns.go:102-127 | the cache holds exactly the distinct matches that compile, each with its own compilation |
| TemplateRender.TemplateCache.TryRenderTemplate | internal/broker/template_fns.go:181-199 | a match is compiled and run, and stays as it is when either fails |
| TemplateRender.TemplateCache.RenderAll | internal/broker/template_fns.go:130-152 | with any valid cache the in-place splicing with a running offset gives the untouched gaps and each match compiled afresh and rendered |
| TemplateRender.RenderAllTemplates | internal/broker/template_fns.go:169-172 | building the cache from the text itself gives the same as no cache |
| TemplateRender.SpliceStep | internal/broker/template_fns.go:137-148 | positions of the original text moved by the length change so far are in bounds and find the original match |
| TemplateRender.RenderLineByLine | internal/broker/template_fns.go:103-152 | rendering two lines is rendering each: no match, wherever delimiters stand, reaches over a newline |
| TemplateLaws.MatchMeaning | internal/broker/template_fns.go:103-104 | a match is a left delimiter, a body without a line break and a right delimiter |
| TemplateLaws.NoMatchNoChange | internal/broker/template_fns.go:130-152 | a text in which nothing matches stays as it is |
| TemplateLaws.EscapedTemplateRenders | internal/broker/template_fns.go:174-199 | a template escaped for a double-quoted scalar is parsed as it was before, and what it renders to replaces just its escaped form |
| TemplateLaws.FailingTemplateStays | internal/broker/template_fns.go:181-199 | when it cannot be parsed or run, the text stays, escapes and all |
| TemplateLaws.LoneTemplate | internal/broker/template_fns.go:103-104 | delimiters around a body of one line in which no right delimiter begins are the only match |
| MatchCriteria.LoadOrCompileExpr | internal/broker/config_rbac.go:169-185 | a cached program is used as it is; a successful compilation is stored, a failed one is not |
| MatchCriteria.EvaluateMatchCriterion | internal/broker/config_rbac.go:200-290 | expression before permission before claim, each with its value shapes; compile and run failures do not match |
| SelectionLaws.ExpressionMeaning | internal/broker/config_rbac.go:202-222 | an expression decides alone: it has to compile and to come to true |
| SelectionLaws.PermissionMeaning | internal/broker/config_rbac.go:224-246 | a permission holds as one of the listed strings or as the only one |
| SelectionLaws.ClaimMeaning | internal/broker/config_rbac.go:248-289 | a claim holds as that string, in a list, or as a key of either kind of map, and in no other way |
| MatchCriteria.GrownKeepsAnswers | internal/broker/config_rbac.go:169-222 | programs compiled during a lookup change none of its later answers |
| MatchCriteria.CacheContents | internal/broker/config_rbac.go:169-185 | after any sequence of evaluations the cache has exactly the texts that compiled at least once, each with its first success |
| MatchCriteria.CoherentCacheIsInvisible | internal/broker/config_rbac.go:176-183 | a criterion whose own expression judges claims the same whatever claims it was compiled under agrees cached and fresh |
| MatchCriteria.CoherentAtIff | internal/broker/config_rbac.go:169-185 | for one expression, cached and fresh evaluation agree after every sequence of evaluations if and only if that expression is coherent |
| MatchCriteria.CacheCanShow | internal/broker/config_rbac.go:176-183 | an engine for a nil test that knows a name only when the claims have it: the same claims match or not depending on an earlier request |
| RoleCollation.Add | internal/broker/config_rbac.go:493-507 | adding lists one after another keeps the first occurrence of each element |
| RoleCollation.LookupRole | internal/broker/config_rbac.go:517-525 | the first configured role of the name, or none |
| RoleCollation.Collation.CollatePermissions | internal/broker/config_rbac.go:502-515 | takes the permissions of the roles so far to those with one role more |
| RoleCollation.Collation.CollateLimits | internal/broker/config_rbac.go:492-500 | takes the limits of the roles so far to those with one role more |
| RoleCollation.CollateRoles | internal/broker/config_rbac.go:447-490 | the summary of the named roles, or the first name that is not configured |
| RoleCollation.FirstOccurrencesOrdered | internal/broker/config_rbac.go:493-507 | collated lists have no repeats and keep the order of first occurrence |
| RoleCollation.RoleOrderKeepsSubjects | internal/broker/config_rbac.go:468-482 | reordering or repeating roles changes neither whether they resolve nor which subjects and sources are allowed or denied |
| RoleCollation.LastPositiveMeaning | internal/broker/config_rbac.go:509-514 | response limits are those of the last role that sets a positive one, zero when none does |
| RoleCollationLaws.FindIsFirst | internal/broker/config_rbac.go:517-525 | the role found is the first of its name, and none is found only when there is none |
| RoleCollationLaws.CollatedSubjects | internal/broker/config_rbac.go:492-507 | a subject is in each of the four lists, and a source in the fifth, exactly where some named role has it in that very list |
| RoleCollationLaws.CollatedOnce | internal/broker/config_rbac.go:492-507 | none of these lists has repeats |
| RoleCollationLaws.CollatedLimits | internal/broker/config_rbac.go:492-500 | times, locale and the three NATS limits are each those of the last role, empty and unlimited without roles |
| RoleCollationLaws.CollatedResponses | internal/broker/config_rbac.go:509-514 | each response limit is the last positive one of its own kind |
| RoleCollationLaws.CollateFailsIff | internal/broker/config_rbac.go:468-472 | collating fails exactly when a named role is not configured, with the first such name |
| RoleBindings.Config.CountMatches | internal/broker/config_rbac.go:325-342 | the number of criteria that hold and whether all do; strict mode stops at the first failure |
| RoleBindings.Config.Consider | internal/broker/config_rbac.go:370-403 | takes the best of the bindings so far to the best with one binding more, or stops with the error of the first broken record |
| RoleBindings.Config.LookupUserAccount | internal/broker/config_rbac.go:292-445 | the one pass yields the first full match, or the first broken record's error, or the first best candidate, or the first fallback, or the strategy's own error; the cache only gains compilations |
| RoleBindings.RecordIff | internal/broker/config_rbac.go:371-383 | improving on the current best is the same as beating every candidate so far |
| SelectionLaws.ScoreIsCount | internal/broker/config_rbac.go:325-342 | the score of a binding is the number of its criteria that hold |
| SelectionLaws.RecordMeaning | internal/broker/config_rbac.go:371-383 | a binding is collated when it has a higher score than every earlier one with any, or the same with more criteria |
| SelectionLaws.WinnerMeaning | internal/broker/config_rbac.go:371-383 | the winner has the highest score; on a tie the most criteria; on a further tie it comes first |
| SelectionLaws.LongerBindingWins | internal/broker/config_rbac.go:376-381 | with one criterion holding of each, a later binding of two criteria is preferred to one of one |
| SelectionLaws.SelectedMeaning | internal/broker/config_rbac.go:292-445 | selected is the first in the strategy's order of those that qualify or, if none does, the first without criteria |
| SelectionLaws.BrokenMeaning | internal/broker/config_rbac.go:385-389 | a record denies exactly when it names a role that is not configured |
| SelectionLaws.DecidedOutcome | internal/broker/config_rbac.go:292-445 | the lookup comes to the account, collated roles and own expiry of the deciding binding, to the role it lacks, or to the strategy's own denial |
| RoleBindings.AllHoldIffAllMatch | internal/broker/config_rbac.go:351 | as many matches as criteria means that every criterion holds |
| RoleBindingLaws.WinnerExists | internal/broker/config_rbac.go:371-403 | whenever a binding matches at all there is a winner |
| RoleBindingLaws.WinnerIsMaximal | internal/broker/config_rbac.go:371-383 | no candidate beats the winner, and there is only one |
| RoleBindingLaws.OutcomeDetermined | internal/broker/config_rbac.go:292-445 | configuration, cache and claims leave exactly one outcome |
| RoleBindingLaws.WinnerGrantedIff | internal/broker/config_rbac.go:385-389 | the documented winner is granted if and only if no record on the way names an unknown role |
| RoleBindingLaws.LosingBindingDenies | internal/broker/config_rbac.go:385-389 | two bindings and claims for which the losing one denies the request |
| RoleBindingLaws.OrderKeepsWinningScore | internal/broker/config_rbac.go:371-383 | whatever the order of the bindings, the winner has the same matches and criteria |
| RoleBindingLaws.InsertionKeepsWinner | internal/broker/config_rbac.go:316-323 | bindings that match nothing and further fallbacks leave the winner where it was among the others |
| RoleBindingLaws.InsertionKeepsOutcome | internal/broker/config_rbac.go:292-445 | while some binding qualifies, one that does not can be inserted anywhere without changing the outcome, in strict mode and in best match, broken records included |
| RoleBindingLaws.BestMatchesNoLessThanStrict | internal/broker/config_rbac.go:346-383 | on the same claims the best match has at least as many matches as the strict one has criteria |
| RoleBindingLaws.LookupIgnoresCache | internal/broker/config_rbac.go:292-445 | when the configured expressions are coherent a lookup has the same outcomes whatever sound cache it starts from |
| RoleBindingLaws.CacheStaysSound | internal/broker/config_rbac.go:169-185 | after any sequence of lookups every cached program is a compilation of its own text |
| RoleBindingLaws.HistoryIsInvisible | internal/broker/config_rbac.go:292-445 | after any sequence of lookups from an empty cache, each under its own configuration and claims, a lookup with coherent expressions has exactly its outcome on an empty cache |
| Claims.Overlay | internal/broker/idp_jwt_claim.go:108-111 | the later entries win, in any order |
| Claims.IdpJwtClaims.ToMap | internal/broker/idp_jwt_claim.go:92-114 | non-empty standard fields as JSON shows them, with the custom claims over them |
| Claims.IdpJwtClaims.ReadAudience | internal/broker/idp_jwt_claim.go:199-212 | a list item by item, a list of strings, a single string; any other audience leaves the field alone |
| Claims.IdpJwtClaims.SetField | internal/broker/idp_jwt_claim.go:214-240 | what each kind of field takes from a claim, whatever it held before |
| Claims.IdpJwtClaims.SetStandard | internal/broker/idp_jwt_claim.go:199-240 | each field present in the map is converted by its kind, the others are left alone; panics exactly at a null for `groups` or `roles` |
| Claims.IdpJwtClaims.SetCustom | internal/broker/idp_jwt_claim.go:242-259 | every other claim is kept under its mapped name, in some order of the map |
| Claims.IdpJwtClaims.FromMap | internal/broker/idp_jwt_claim.go:157-260 | both of these, with the custom claims started afresh; panics exactly when the map has a null for `groups` or `roles` |
| Claims.IdpJwtClaims.AddUserInfo | internal/broker/auth_callback.go:193-197 | the struct is read back from its own map with the UserInfo claims over it, or panics as `fromMap` does |
| Claims.IdpJwtClaims.AddClient | internal/broker/auth_callback.go:85-88 | the struct is read back from its own map with the client's identity over it, or panics as `fromMap` does |
| Claims.IdpJwtClaims.Exists | internal/broker/idp_jwt_claim.go:116-128 | the first expected claim that the map of the struct does not have, or none |
| Claims.IdpJwtClaims.ValidateAudience | internal/broker/idp_jwt_claim.go:130-140 | whether some audience of the token is an expected one |
| Claims.IdpJwtClaims.ValidateSpec | internal/broker/idp_jwt_verifier.go:191-205 | whether all required claims are there and the audience is allowed, unless it is not to be checked |
| ClaimsLaws.OrderIrrelevantIff | internal/broker/idp_jwt_claim.go:243-259 | every map order keeps the same custom claims if and only if claims that share a mapped name share their value |
| ClaimsLaws.FaithfulMeaning | internal/broker/idp_jwt_claim.go:162-240 | a field shows a claim unchanged exactly when the claim has the field's shape and is not empty |
| ClaimsLaws.MapMeaning | internal/broker/idp_jwt_claim.go:92-114 | name by name, what stands in the map of a struct: custom claims first, then fields that are not empty |
| ClaimsLaws.AudienceMeaning | internal/broker/idp_jwt_claim.go:199-212 | what the audience field takes from a string, a list and anything else |
| ClaimsLaws.FieldMeaning | internal/broker/idp_jwt_claim.go:161-197 | what text, flag, number and raw fields take from a claim of any shape |
| ClaimsLaws.SpecMeaning | internal/broker/idp_jwt_verifier.go:191-205 | the claims checks ask for every required name in the map and, unless skipped, one audience among the allowed |
| ClaimsLaws.ReadBackIff | internal/broker/idp_jwt_claim.go:92-260 | writing a struct out and reading it back leaves its map unchanged if and only if the custom claims under standard names are faithful |
| ClaimsLaws.SecondRoundIsIdle | internal/broker/auth_callback.go:85-88 | after one such round no further round changes the map |
| ClaimsLaws.ReadsAreRenamed | internal/broker/idp_jwt_claim.go:249-255 | under a settled mapping the kept claims have their final names |
| ClaimsLaws.SettledIff | internal/broker/idp_jwt_claim.go:249-255 | every conversion of every struct and claims gives final names if and only if the mapping is settled |
| ClaimsLaws.UnsettledMappingKeepsRenaming | internal/broker/idp_jwt_claim.go:249-255 | each round renames every custom claim; one whose target is again a source moves on twice in two rounds |
| ClaimsPipeline.ClientIdentityWins | internal/broker/auth_callback.go:85-88 | the lookup sees the client identity that the broker set, whatever the token or mapping put there |
| ClaimsPipeline.ExpiryIsKept | internal/broker/auth_callback.go:193-197 | enrichment that shows the same expiry leaves the expiry field as it was |
| ClaimsPipeline.RequestClaims | internal/broker/auth_callback.go:71-88 | the context is the map of what reading the token, then laying UserInfo over its map, then the client's identity can make of the struct; without a result, one of these conversions can panic |
| ClaimsPanics.PanicsIff | internal/broker/idp_jwt_claim.go:226-231 | under any mapping a request can panic if and only if UserInfo has a null that is read into `groups` or `roles`, or the token has one that UserInfo does not replace before one of the conversions reads it there |
| ClaimsPanics.PanicsOrConverts | internal/broker/auth_callback.go:71-88 | a request that cannot panic has a context, under any mapping |
| ClaimsPipeline.TokenClaimReachesLookup | internal/broker/auth_callback.go:71-88 | a claim of the token, mapped to a standard name or not, stands in the context under its mapped name with its value, unless UserInfo has another value or the name is one of the client's two |
| LookedUpClaims.MappedRolesReachLookup | internal/broker/idp_jwt_claim.go:249-255 | roles under the IdP's own name, mapped to `roles`, are looked up as the standard claim |
| LookedUpClaims.LoneClaimReachesLookup | internal/broker/idp_jwt_claim.go:242-259 | a custom claim that shares its final name with no other is looked up with its value, under the name it is mapped to or its own |
| ClaimsPipeline.UserInfoClaimReachesLookup | internal/broker/auth_callback.go:193-197 | a claim from UserInfo stands in the context if its name is a standard one, or UserInfo has it under its final name, or the token has no other value for it |
| LookedUpClaims.UserInfoWinsIff | internal/broker/auth_callback.go:193-197 | of a claim that both bring, UserInfo's value is looked up whatever the map order if and only if one of these holds |
| LookedUpClaims.TokenValueCanReach | internal/broker/idp_jwt_claim.go:243-259 | otherwise some map order keeps the token's value |
| LookedUpClaims.EitherDepartmentCanWin | internal/broker/idp_jwt_claim.go:243-259 | one mapped claim with two values: both contexts are possible |
| ClaimsPipeline.PipelineShowsClient | internal/broker/auth_callback.go:85-88 | under a settled mapping the context has the broker's client identity and no other |
| ClaimsPipeline.PipelineExpiry | internal/broker/auth_callback.go:71-88 | the expiry to mint from is UserInfo's if it has one, else the token's, as long as the mapping leads nothing to that name |
| ClaimsPipeline.SpecIgnoresOrder | internal/broker/idp_jwt_verifier.go:191-205 | the checks of claims and audience come out the same in whatever order the token's claims are read |
| TokenExpiry.AcceptanceWindow | internal/broker/idp_jwt_verifier.go:163-189 | a token passes the time checks in exactly one window of seconds, from the later of its two lower limits to its expiry plus the skew |
| TokenExpiry.CalculateExpiration | internal/broker/server.go:224-283 | the six steps are the request clamped to the NATS bounds under the ceiling of the IdP |
| ExpirationLaws.BindingDecides | internal/broker/server.go:257-259 | a positive binding expiry, kept within the NATS bounds and under the token's `exp`, whatever else is set |
| ExpirationLaws.RbacDefaultDecides | internal/broker/server.go:260-265 | without one, the RBAC default, kept the same way |
| ExpirationLaws.RbacDefaultCaps | internal/broker/server.go:260-273 | the RBAC default is a cap for every IdP, which only the NATS minimum can lift |
| ExpirationLaws.IdpMaximumDecides | internal/broker/server.go:250-254 | without either, the maximum of the IdP's validation bounds |
| ExpirationLaws.ShorterDecides | internal/broker/server.go:250-265 | of an RBAC default and an IdP maximum, the shorter |
| ExpirationLaws.NatsMaximumDecides | internal/broker/server.go:267-273 | with none of them set, the token's `exp` up to the NATS maximum |
| ExpirationLaws.CrossedBounds | internal/broker/server.go:267-273 | of NATS bounds that cross, the maximum wins |
| ExpirationLaws.DefaultOfAnHour | internal/broker/server.go:260-265 | an RBAC default of an hour under a day from NATS gives a token of eight hours one hour |
| TokenExpiry.ExpirationWithinBounds | internal/broker/server.go:267-280 | never above the IdP's expiry or the NATS maximum, never below the lowest of the three limits |
| TokenExpiry.ExpirationMonotone | internal/broker/server.go:224-283 | a later IdP expiry never shortens the token |
| TokenExpiry.ExpirationIdempotent | internal/broker/server.go:224-283 | the result as IdP expiry gives the same result |
| TokenExpiry.MinLeavesNoTrace | internal/broker/server.go:245-249 | the minimum of the IdP validation bounds never changes the result |
| TokenExpiry.BindingOverrides | internal/broker/server.go:257-265 | a positive binding expiry makes the result independent of the IdP validation bounds and the RBAC default |
| TokenExpiry.AcceptedLifetimeFits | internal/broker/idp_jwt_verifier.go:163-189 | after the time checks the 64-bit product of the bounds check does not wrap, even some time later, so that check is the mathematical one |
| TokenExpiry.ProductWraps | internal/broker/idp_jwt_claim.go:142-155 | without the time checks an `exp` 584 years ahead passes a maximum of an hour |
| TokenExpiry.SignedLifetimeFits | internal/broker/idp_jwt_verifier.go:136-189 | nor for a token that the signature step let through, whatever the skew |
| TokenExpiry.AcceptanceMakesClampIdle | internal/broker/server.go:243-255 | at any fraction of the second of an accepting check, the clamp to the same bounds changes nothing |
| TokenExpiry.AcceptedBoundsLeaveNoTrace | internal/broker/server.go:243-280 | at any later instant the minted expiry is the same as without those bounds |
| TokenExpiry.FromAcceptanceToMinting | internal/broker/auth_callback.go:253-258 | time checks, bounds check and minting at three successive instants: the bounds leave no trace and the expiry stays below the accepted one |
| TokenExpiry.BoundsAsDocumentedIff | internal/broker/idp_jwt_verifier.go:207-212 | the bounds check means what is documented for every token that passes signature step and time checks and comes to it within a given time, if and only if both bounds are set or neither, or the minimum is out of reach of such a token |
| TokenExpiry.MinimumAloneRejectsAll | internal/broker/idp_jwt_claim.go:142-155 | with a minimum but no maximum every token is rejected |
| TokenExpiry.MaximumAloneIff | internal/broker/idp_jwt_claim.go:142-155 | with a maximum but no minimum the check means what is documented exactly for tokens that have not expired since the signature step |
| TokenExpiry.OverrideHonouredIff | internal/broker/server.go:224-283 | the minted expiry is that of overridden NATS bounds, for every accepted token and every binding, if and only if no token can be accepted or the override leaves the longest and the shortest lifetime in reach as they are |
| TokenExpiry.CeilingIff | internal/broker/server.go:238-280 | minting from another `exp` stays under the token's for every configuration if and only if that one is no later |
| TokenExpiry.OverrideIsIgnored | internal/broker/server.go:267-273 | an hour from the NATS bounds where ten minutes were to override it |
| LiveState.SanitizeName | internal/broker/config.go:239-258 | illegal characters become underscores, position by position; the trim changes nothing; legal names are untouched |
| LiveState.SanitizedAsCommentedIff | internal/broker/config.go:239-254 | the result is the name trimmed and then masked, as commented, if and only if neither end of the name is illegal |
| LiveState.LeadingSpaceStays | internal/broker/config.go:239-254 | a leading space becomes an underscore instead of being removed |
| LiveState.NewIdpVerifiers | internal/broker/idp_jwt_verifier.go:23-40 | exactly the IdPs whose setup succeeds, in list order, or the first failure that may not be ignored |
| LiveState.RunVerification | internal/broker/idp_jwt_verifier.go:42-74 | the first verifier that accepts the token and its claims or panics on it, else one error for each |
| LiveState.ConfigWatcher.Reload | internal/broker/config_watcher.go:162-206 | succeeds exactly when every stage does and then publishes a state whose parts belong together, with exactly the verifiers that could be set up; otherwise the state is the old one |
| LiveState.AuditSubjectTokens | internal/broker/config_watcher.go:189 | whatever the service name, the audit subject has the token count of its pattern |
| Snapshots.NextKeepsInv | internal/broker/config_watcher.go:162-206 | no step of a reload or request breaks the invariant, and the history of published states only grows |
| Snapshots.ReloadIsFourSteps | internal/broker/config_watcher.go:162-206 | what a successful reload publishes is what its four steps publish |
| Snapshots.FailedReloadIsSteps | internal/broker/config_watcher.go:162-206 | a reload that fails is a run of its first steps back to where it began |
| Snapshots.RequestsSeeOneVersion | internal/broker/auth_callback.go:26-32 | over every interleaving, all that a request uses of the live state comes from one well-formed published state, and later requests never use older ones |
| Snapshots.BeginningIsCurrent | internal/broker/config_watcher.go:52-54 | that state is the one current when the request began, whatever is published meanwhile |
| Snapshots.OnlyStoresPublish | internal/broker/config_watcher.go:198 | a reload that fails at any stage publishes nothing |
| WatchLoop.WatchLoop | internal/broker/config_watcher.go:105-148 | under every schedule the loop takes exactly the modelled steps |
| WatchLoop.StepKeepsInv | internal/broker/config_watcher.go:109-147 | the armed channel is that of the newest timer, armed exactly while a relevant event is the last thing that happened |
| WatchLoop.EventArms | internal/broker/config_watcher.go:122-135 | a write or create of a configuration file, whatever comes with it, arms a new timer and stops the one before; any other event does nothing |
| WatchLoop.StopStopsTimer | internal/broker/config_watcher.go:111-115 | returning on the stop signal keeps the timer from firing |
| WatchLoop.OnlyPublishReplaces | internal/broker/config_watcher.go:150-160 | only a reload that got through replaces the published state |
| WatchLoop.ReloadsAreDebounced | internal/broker/config_watcher.go:130-145 | in every run a reload starts at least the debounce time after everything before it |
| WatchLoop.ReloadsServeNewestTimer | internal/broker/config_watcher.go:130-145 | a reload directly follows a relevant event and serves its timer; replaced timers never cause one |
| WatchLoop.ReloadsAreRateLimited | internal/broker/config_watcher.go:105-148 | the n-th reload starts no earlier than n debounce times after the loop |
| WatchLoop.AtRestLiveIsCurrent | internal/broker/config_watcher.go:105-148 | a loop at rest has reloaded since its last relevant event and, if that succeeded and every change came with an event for a configuration file, runs on the files as they are on disk, even when they changed while being read |
| WatchLoop.RotationIff | internal/broker/config_watcher.go:246-258 | files changed behind an event are current at every rest after a successful reload if and only if the event is a write or create of a configuration file |
| WatchLoop.UnannouncedChangeStays | internal/broker/config_watcher.go:246-258 | a loop at rest stays at rest on the old files when they change behind any other event |
| WatchLoop.CanComeToRest | internal/broker/config_watcher.go:105-148 | from its start the loop can come to rest on the current files |
| WatchLoop.ArmedLoopReloads | internal/broker/config_watcher.go:130-145 | left undisturbed, an armed loop starts its reload within the debounce time |
| WatchLoop.ReturnedLoopStaysQuiet | internal/broker/config_watcher.go:111-120 | after the loop has returned nothing reloads |
| AuthRequest.MergeAccounts | internal/broker/config.go:286-304 | the configured accounts, then those discovered ones whose name is not configured |
| AuthRequest.LookupAccountInfo | internal/broker/config_rbac.go:187-195 | the first account of the name, or none |
| RequestLaws.FindAccountIsFirst | internal/broker/config_rbac.go:187-195 | the account found is the first of its name, and none is found only when there is none |
| AuthRequest.ConfiguredAccountWins | internal/broker/config.go:292-303 | looking up in the merged list finds the configured account, else the discovered one |
| AuthRequest.BuildUserClaims | internal/broker/auth_callback.go:207-268 | the lookup's outcome with its account and expiry, or the failure of the first stage that fails |
| RequestLaws.RequestMeaning | internal/broker/auth_callback.go:215-267 | what a request comes to, claim by claim or refusal by refusal, given the binding that decides, and without one |
| RequestLaws.GrantedIff | internal/broker/auth_callback.go:207-268 | a request is granted if and only if a binding decides whose roles are configured and whose account has a name that is listed |
| RequestLaws.RefusedIff | internal/broker/auth_callback.go:215-244 | each refusal has exactly its own cause |
| RequestLaws.ConcludedIff | internal/broker/auth_callback.go:215-220 | the same with the rendered configuration, which fails on its own exactly when it cannot be rendered |
| RequestLaws.StatusMeaning | internal/broker/auth_callback.go:46-137 | only claims count as success, no verifier and no binding as denied, everything else as an error |
| RequestLaws.CountedMeaning | internal/broker/auth_callback.go:46-52 | a result raises its own count by one and no other |
| AuthRequest.HandleAuthRequest | internal/broker/auth_callback.go:35-137 | every answer counts exactly one result of the fitting status, restores the in-flight gauge, and counts a token only for a success; a panic, which ends the process, records nothing |
| SelectionLaws.GrantHasBinding | internal/broker/config_rbac.go:292-445 | an outcome is granted if and only if it is the grant of the selected binding: the first full match, or the winner with no broken record, or the first fallback when there is none |
| SelectionLaws.SelectionUnique | internal/broker/config_rbac.go:292-445 | the claims select at most one binding |
| AuthRequest.MintedClaimsAreJustified | internal/broker/auth_callback.go:215-267 | account with its key, collated roles and expiry of minted claims all come from the one binding that the claims select, under the token's and the NATS ceiling |
| Authentication.CheckToken | internal/broker/idp_jwt_verifier.go:126-215 | conversion, times, required claims, audience and bounds, each at its own instant, come to the verdict that the search goes by |
| Authentication.AcceptsIff | internal/broker/idp_jwt_verifier.go:126-215 | a token is accepted exactly when it is signed, has no null list, is in time, and every way of reading it meets the spec and the bounds; a null list panics first |
| Authentication.ForeignAudienceRefused | internal/broker/idp_jwt_verifier.go:199-205 | a token for another audience is not accepted where audiences are checked |
| Authentication.MissingClaimRefused | internal/broker/idp_jwt_verifier.go:192-197 | nor is one without a required claim under its own or a mapped name |
| Authentication.FirstAccepting | internal/broker/idp_jwt_verifier.go:42-68 | the first verifier whose checks all accept the token, unless one before it panics on a signed token |
| Authentication.VerifyAndEnrich | internal/broker/auth_callback.go:164-205 | nothing exactly when no verifier accepts or panics; else the claims that the conversions make of the first acceptor's token, its bounds and its expiry field, or a panic that one of them can have |
| Authentication.IdentifiedShowsClient | internal/broker/auth_callback.go:85-88 | under a settled mapping the accepted claims are looked up with the broker's client identity |
| Authentication.IdentifiedKeepsClaim | internal/broker/auth_callback.go:71-88 | they contain the token's own claims under their mapped names, standard ones included, unless UserInfo has other values |
| Authentication.IdentifiedExpiry | internal/broker/auth_callback.go:71-88 | what is minted from is UserInfo's `exp` if there is one, else the token's |
| Authentication.CrashIff | internal/broker/idp_jwt_claim.go:226-231 | an accepted token can lead to a panic if and only if there is such a null |
| Authentication.AcceptedExpiry | internal/broker/auth_callback.go:253-258 | for an accepted token the minted expiry is that of an IdP without bounds, and never past the token's |
| Authentication.MintedForToken | internal/broker/auth_callback.go:207-268 | claims minted for an accepted token have account, key, roles and expiry of the one binding that the token's claims select, under the `exp` that was supplied; when that is the token's, as if the IdP had no bounds |
| Authentication.TokenBoundsHonouredIff | internal/broker/auth_callback.go:253-258 | an IdP's `token_bounds` show as documented in the expiry of every accepted token if and only if none can be accepted or overriding the NATS bounds by them changes no lifetime in reach |
| Authentication.Authenticate | internal/broker/auth_callback.go:35-137 | no token and no acceptor are refused, and only they; after a panic there is no answer; claims are granted if and only if some binding mints for the claims that verification and enrichment made of the token; the metrics count each answer once |

## Left out

- Authentication.Authenticate: the struct that a token's JSON decodes into is a parameter, and so are the instants of the checks, which take less than 292 years together; the signature step is taken to refuse expired tokens, as the OIDC library does unless told otherwise.
- Authentication.MintedForToken: stated for mappings that lead no claim to `exp`; `MintedClaimsAreJustified` covers the others.
- Claims.IdpJwtClaims.ToMap: integers are taken as exact, which JSON numbers are within plus or minus 2^53; failures to marshal are not modelled.
- RoleBindings.Config.LookupUserAccount: one lookup is a single step as far as the cache goes; stores by concurrent lookups in the middle of it are covered criterion by criterion, by CoherentCacheIsInvisible.
- RoleBindingLaws.HistoryIsInvisible: takes lookups one after another, for the same reason.
- TokenExpiry.AcceptedLifetimeFits: `Duration.Seconds()` is cut to whole seconds exactly; its floating-point rounding is not modelled.
- TokenExpiry.OverrideHonouredIff: takes an override to replace the NATS bound on each side where it is positive.
- WatchLoop.RotationIff: which events a rotation produces is up to the operating system; coalescing inside the file notifier is not modelled.
- Snapshots.RequestsSeeOneVersion: the signing key and the xkey of the service, taken from the first configuration at startup, are not part of the live state and not modelled.
- RoleCollation.Add: lists add by appending what is absent; the trimming and case folding of CIDR lists in the jwt library are not modelled.
- TemplateRender.RenderAllTemplates: templates are functions of their text and mappings; a file or environment variable that changes between two renderings is not modelled.
- Aliasing of slices between merged documents, where `append` may reuse a backing array.
- YAML parsing and marshalling, the struct validator, decoding of durations and keys, defaults of bounds and delimiters.
- OIDC discovery, signatures, the UserInfo call, NATS connection, signing, encryption, audit events: only their outcomes enter.
- Directory watching, glob expansion, account discovery on disk: only their results enter.
- Logging, tracing, counters and timings of single verifications, health endpoints, command line, charts and scripts.
