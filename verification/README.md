# Policy, enrolment and renewal of the zero-trust connector system

A Go controller compiles relational access rules into signed policy snapshots and hands them to connectors
(one written in Go, one in Rust), which answer whether an identity may reach a destination. The controller also
enrols tunnelers against one-time tokens, feeds every connector the list of enrolled tunnelers, and renews the
short-lived certificates. This project models those parts and proves what they promise.

| file | what it models |
|---|---|
| `Text.dfy`, `Sorting.dfy` | trimming, splitting, decimal integers, the text order, sorting by a key |
| `Calendar.dfy`, `Timestamps.dfy` | the Rust connector's calendar arithmetic and RFC 3339 reader, with the printer of its tests |
| `Literals.dfy`, `Snapshots.dfy`, `Signature.dfy` | how each language writes a text in JSON, the snapshot and its JSON, HMAC signing and checking |
| `Policy.dfy`, `Index.dfy` | the meaning of a decision as a plain scan; the six tables and the decision taken from them |
| `Caching.dfy`, `RustCache.dfy`, `GoCache.dfy` | the two policy caches as classes, and runs of arrivals and key changes |
| `Database.dfy`, `Compiler.dfy`, `Versions.dfy`, `Pipeline.dfy` | the tables, the compiler with its loops, version numbers, and the whole chain |
| `Freshness.dfy` | runs of table edits, compilations and deliveries: how old an answer can be |
| `Revocation.dfy`, `Diagnostics.dfy`, `RuleListing.dfy` | edits and what they grant or take away, the access trace, the rule listing |
| `Tokens.dfy`, `TokenRuns.dfy`, `TokenReloads.dfy` | the token store, its runs with saves that may fail, and what restarts read back |
| `ControlPlane.dfy`, `Replication.dfy`, `Enrolment.dfy` | allowlists at both ends, the broadcast protocol, and what can ever be allowed |
| `Spiffe.dfy`, `Renewal.dfy` | SPIFFE identities and certificate renewal |

Library behaviour enters as parameters: the keyed hash, the JSON text renderer, trimming and lower-casing, case-blind
comparison, address and network parsing, network containment, the time format, the token hash. Clock readings, random
tokens, the success of a save and the success of issuing a certificate are parameters of the operations. Hypotheses on
these (an injective hash, for instance) are spelled out where a statement needs them.

## What does not hold, and exactly when

- The access table is keyed by `identity::resource_id`. Keys of two resources can coincide exactly when one id is the
  other preceded by a colon or by something ending in two colons (`Index.KeysClash`). Without such ids the tables decide
  as the plain scan (`Index.RefinesScan`); with any such pair there is a snapshot on which they let in an identity that
  no resource lists (`Index.ShadowedIdsMisdecide`).
- The Rust connector checks a signature over JSON it writes again, with a key from its own configuration. The controller
  signs with a key exported from the connection, leaves absent port bounds out where the connector writes null, and
  escapes `&`, `<`, `>`, U+2028 and U+2029 where the connector does not. A snapshot is accepted exactly when the keys are
  the same (to HMAC, up to zero bytes at the end), every resource has both bounds, and none of the texts holds one of the five characters
  (`Signature.RustAcceptsGo`, with `Signature.AmpersandRefused` for one address; in terms of the tables
  `Pipeline.RustVerifiesExactly`). Anything else makes the connector deny everything, but for a bound outside 16 bits,
  which makes it ignore the message (`Pipeline.RustEndToEnd`).
- The timestamp printer casts the year to 32 bits, so printing and reading back agree exactly before the year 2^31
  (`Timestamps.RoundTrip`).
- A save that fails leaves the use of a token in memory only, and a restart forgets it: two ids can then be served
  (`TokenRuns.FailedSaveServesTwo`). For fresh tokens and whatever saves, no restart of a run can be followed by a use
  that serves a second id exactly when, for each served token in the saved copy, a save has succeeded before the restart
  while memory held the token as used (`TokenRuns.FailedSavesMatterExactly`); such runs serve one id per token
  (`TokenRuns.OneIdWhileSafe`).
- Saving to the token table only inserts and updates, and cuts expiries to the second. Tokens of a deleted connector come
  back after a restart (`TokenReloads.RunDeletionSurvives`). While saves succeed, a restart lets nobody use a token at a
  time when it would have been refused exactly when the table holds no record that memory has dropped and no expiry lies
  strictly inside the first second of year 1, which the cut turns into none (`TokenReloads.NeverExtendsExactly`).
- Deleting a rule leaves its rows in `access_rule_groups`. They grant nothing by themselves (`Revocation.DeleteRuleExact`)
  but come back to life with a rule created under the same id (`Revocation.RecreatedRuleRevivesGroups`). Ids are
  `rule_` and a clock reading in milliseconds, on one path with a group and a resource id behind it, so this takes two
  creations at one reading.
- The diagnostics trace reads any flag other than 0 as enabled and looks only at groups that exist; the compiler wants
  the flag 1 and does not look at the groups table. They agree for all rules with 0/1 flags exactly when the groups the
  trace sees are those that hold the identity (`Diagnostics.TraceAgreesExactly`), and on a flag exactly when it is 0 or 1
  (`Diagnostics.OddFlagDisagrees`). No handler writes another flag; the column allows it.
- The Go cache converts a resource's single port to 16 bits before comparing, which is harmless exactly when it fits
  (`GoCache.PortMatchesExact`).
- The Rust connector accepts peer URIs the controller refuses: a role without an id, and any number of further path
  parts (`Spiffe.ControllerAcceptsExactly`, `Spiffe.ConnectorAcceptsExactly`).
- A change of the tables does not reach a connector at once. A connector may keep answering from the old tables until
  lifetime and grace of the last snapshot compiled from them are past (`Freshness.LagIsReached`), and no longer
  (`Freshness.AllowsWithinLag`).

## Model

| member | source | states |
|---|---|---|
| Calendar.CountsDays | backend/connector-rs/src/policy/cache.rs:274-282 | for every valid date of every year, before 1970 and before year 0 too, the number is the sum of year lengths, month lengths and days since the epoch |
| Calendar.StrictlyMonotone | backend/connector-rs/src/policy/cache.rs:274-282 | an earlier date has a smaller number |
| Calendar.CivilThenDays | backend/connector-rs/src/policy/cache.rs:318-331 | every day number gives a valid date, whose number it is |
| Calendar.DaysThenCivil | backend/connector-rs/src/policy/cache.rs:318-331 | every valid date is recovered from its number |
| Timestamps.ReadsPrinted | backend/connector-rs/src/policy/cache.rs:238-272 | reading six printed fields gives their second count, or nothing before the epoch |
| Timestamps.ReadsForms | backend/connector-rs/src/policy/cache.rs:242-265 | blanks around, fractions of a second and a written-out offset change nothing |
| Timestamps.NeedsT | backend/connector-rs/src/policy/cache.rs:248-248 | a text without a T is refused |
| Timestamps.NegativeYearUnreadable | backend/connector-rs/src/policy/cache.rs:251-257 | a year printed with a minus sign is refused |
| Timestamps.RoundTrip | backend/connector-rs/src/policy/cache.rs:300-316 | printing and reading back a second of the epoch is the identity exactly when its year fits an i32, and never gives a later second |
| Text.PaddedParses | backend/connector-rs/src/policy/cache.rs:313-313 | a padded decimal reads back as its number |
| Text.SignsParse | backend/connector-rs/src/policy/cache.rs:257-264 | signs and 64-bit range of the numbers read |
| Text.TrimStrips | backend/connector-rs/src/policy/cache.rs:242-242 | trimming takes the blanks around a text and nothing of the text |
| Text.FirstDifferenceDecides | backend/controller/api/policy_snapshot.go:109-117 | the sort order: the first difference decides, and a text comes before its continuations |
| Literals.TextOf | backend/connector-rs/src/policy/cache.rs:184-190 | what either encoder writes for a text reads back as that text |
| Literals.WrittenAsIs | backend/controller/api/policy_snapshot.go:100-100 | characters without a meaning of their own are written as they are |
| Literals.SameText | backend/controller/api/policy_snapshot.go:100-100 | the two encoders write a text alike exactly when it has none of five characters |
| Snapshots.ReadsBack | backend/connector-rs/src/policy/types.rs:3-29 | what either encoder writes reads back, by field names, as the snapshot |
| Snapshots.FieldOrder | backend/controller/api/policy_snapshot.go:17-39 | the field names in the order signed over |
| Snapshots.JsonInjective | backend/controller/api/policy_snapshot.go:17-39 | whichever encoders wrote it, equal JSON means equal snapshots |
| Snapshots.SameJson | backend/connector-rs/src/policy/cache.rs:184-190 | the two encoders write the same JSON exactly when every resource has both port bounds and no text holds one of the five characters |
| Signature.HexRoundTrip | backend/connector-rs/src/policy/cache.rs:193-205 | decoding undoes encoding, which uses hexadecimal characters only |
| Signature.SameBytes | backend/connector-rs/src/policy/cache.rs:206-214 | the xor/or accumulation is zero exactly for equal byte sequences |
| Signature.VerifySnapshot | backend/connector-rs/src/policy/cache.rs:180-215 | true exactly when a key is set and the trimmed, unlabelled signature decodes to the digest of the unsigned snapshot |
| Signature.SignedVerifies | backend/controller/api/policy_snapshot.go:95-107 | what the controller signs verifies under the same key, with or without the label |
| Signature.SpellingsVerify | backend/connector-rs/src/policy/cache.rs:196-205 | a signature verifies with blanks around it, with the label, and in capitals |
| Signature.TamperEvident | backend/connector/run/run.go:829-859 | two snapshots that verify with one signature agree in every field |
| Signature.RustAcceptsGo | backend/connector-rs/src/policy/cache.rs:180-215 | with a key of its own, the Rust connector accepts a controller-signed snapshot exactly when the keys are the same, every resource has both bounds, and no text holds one of the five characters |
| Signature.AmpersandRefused | backend/connector-rs/src/policy/cache.rs:184-215 | one address with an ampersand is refused, with both bounds present and one key |
| Signature.SameSignatureSameContent | backend/connector-rs/src/policy/cache.rs:180-215 | a controller signature that either connector accepts on another snapshot means the same content |
| Policy.ScanAllows | backend/connector/run/run.go:768-812 | the scan allows exactly when a resource of the winning tier permits the request |
| Policy.ScanExplained | backend/connector/run/run.go:785-812 | the first resource of the tier to permit is named; a denial says whether the tier was empty |
| Policy.NoProtocolMatchesAll | backend/connector/run/run.go:801-803 | without a protocol on either side only port and identity count |
| Policy.AddressSkipsNames | backend/connector/run/run.go:769-784 | a destination that is an address gains nothing from the name tier |
| Index.DnsTable | backend/connector-rs/src/policy/cache.rs:83-88 | the name table lists, in order, the ids of the resources with that name |
| Index.IpTable | backend/connector-rs/src/policy/cache.rs:89-91 | the address table lists, in order, the ids of the resources with that address |
| Index.NetTable | backend/connector-rs/src/policy/cache.rs:77-82 | the networks containing an address are those of the matching resources, in order |
| Index.AclTable | backend/connector-rs/src/policy/cache.rs:95-100 | a key is in the access table exactly when some resource lists the identity it is made of |
| Index.CandidatesAreTheTier | backend/connector-rs/src/policy/cache.rs:125-151 | the candidate ids are those of the winning tier |
| Index.KeysClash | backend/connector-rs/src/policy/cache.rs:97-98 | two resources share a possible key exactly when one id shadows the other |
| Index.ColonFreeIsUnshadowed | backend/connector-rs/src/policy/cache.rs:97-98 | ids without colons never shadow each other |
| Index.RefinesScan | backend/connector-rs/src/policy/cache.rs:107-178 | for distinct unshadowed ids, decision, reason and resource id from the tables are those of the scan |
| Index.ShadowedIdsMisdecide | backend/connector-rs/src/policy/cache.rs:171-173 | for any shadowing pair of ids there is a snapshot on which the tables allow an identity no resource lists |
| Caching.HoldsTheLastArrival | backend/connector/run/run.go:691-756 | after any run the cache is the index of the last snapshot to arrive if that was acceptable on arrival, and empty otherwise |
| Caching.DenialsExplained | backend/connector/run/run.go:758-767 | after any run a cache gives no_snapshot, snapshot_expired, or the decision from the last snapshot, and when |
| Caching.AllowsOnlyInDate | backend/connector/run/run.go:758-767 | an allow means the last snapshot was accepted, is within grace now, and its scan allows |
| RustCache.PortMatches | backend/connector-rs/src/policy/cache.rs:223-236 | opens the ports of the range the bounds describe, zeros and absent bounds included |
| RustCache.PolicyCache.constructor | backend/connector-rs/src/policy/cache.rs:34-40 | a new cache is empty |
| RustCache.HoldsTheLastDecodable | backend/connector-rs/src/main.rs:278-282 | after any messages the cache is the index of the last that decodes if that was acceptable on arrival, and empty otherwise |
| RustCache.RunsOnWhatDecodes | backend/connector-rs/src/main.rs:278-282 | messages that do not decode can be left out of any run |
| RustCache.PolicyCache.Clear | backend/connector-rs/src/policy/cache.rs:217-220 | everything is emptied |
| RustCache.PolicyCache.ReplaceSnapshot | backend/connector-rs/src/policy/cache.rs:42-104 | holds the index of an accepted snapshot, nothing after a refused one, and says which |
| RustCache.PolicyCache.HandleSnapshot | backend/connector-rs/src/main.rs:278-282 | a snapshot that does not decode changes nothing |
| RustCache.PolicyCache.AddRow | backend/connector-rs/src/policy/cache.rs:70-101 | one resource adds exactly its entries to the six tables |
| RustCache.PolicyCache.CandidateIds | backend/connector-rs/src/policy/cache.rs:125-147 | three-tier fallback over the tables |
| RustCache.PolicyCache.Allowed | backend/connector-rs/src/policy/cache.rs:107-178 | the answer for the present contents and time; skipping ids already seen changes nothing |
| GoCache.PortMatchesExact | backend/connector/run/run.go:861-883 | the 16-bit conversion is harmless exactly when a bound is set or the port fits |
| GoCache.PolicyCache.SetSigningKey | backend/connector/run/run.go:691-699 | only the key changes; what is held stays |
| GoCache.PolicyCache.Clear | backend/connector/run/run.go:814-827 | everything but the key is emptied |
| GoCache.PolicyCache.ReplaceSnapshot | backend/connector/run/run.go:701-756 | one arrival step of a run, meta data included |
| GoCache.PolicyCache.AddRow | backend/connector/run/run.go:727-751 | one resource adds exactly its entries to the six tables |
| GoCache.PolicyCache.CandidateIDs | backend/connector/run/run.go:768-787 | three-tier fallback over the tables |
| GoCache.PolicyCache.Allowed | backend/connector/run/run.go:758-812 | the answer for the present contents and time |
| GoCache.CachesAgree | backend/connector/run/run.go:758-812 | where the libraries agree, the Go and Rust caches answer every 16-bit port alike, whatever the ids |
| Database.RowsReach | backend/controller/api/policy_snapshot.go:143-149 | the join selects an identity exactly when an enabled rule, a group and a membership lead to it |
| Database.LatestOf | backend/controller/api/policy_snapshot.go:127-133 | the assignment taken is one of the latest |
| Database.NetworkFound | backend/controller/api/policy_snapshot.go:119-135 | a network found is never blank; the connector's own comes first, else a latest assignment's |
| Database.NetworkExactly | backend/controller/api/policy_snapshot.go:119-135 | a non-blank own network is found; without one that of a latest assignment unless blank; otherwise none |
| Compiler.TypeIsSettled | backend/controller/api/policy_snapshot.go:225-243 | one of three names, kept by recompiling and by the connector; a declared type wins; a network it recognised itself parses |
| Compiler.UndeclaredMatches | backend/controller/api/policy_snapshot.go:225-243 | a resource of no known type is the whole internet for "*" and "internet", a network for an address with a slash that parses as one, and a host otherwise; what each then matches, in terms of the row |
| Compiler.DeclaredMatches | backend/controller/api/policy_snapshot.go:225-229 | a declared type decides alone what the resource matches, whatever its address looks like |
| Compiler.PolicyResources | backend/controller/api/policy_snapshot.go:137-201 | the row loop yields the resources of the network in id order, or fails on a missing address |
| Compiler.RowResource | backend/controller/api/policy_snapshot.go:172-195 | the step-by-step filling of one resource, port field included |
| Compiler.Identities | backend/controller/api/policy_snapshot.go:159-171 | the sorted distinct identities without the empty one |
| Compiler.CompiledPort | backend/controller/api/policy_snapshot.go:183-194 | the compiled resource opens the ports its row describes |
| Compiler.CompiledSinglePort | backend/controller/api/policy_snapshot.go:183-193 | the single port is set exactly when the bounds name one port, and is then the only one the row opens |
| Compiler.CompiledIdentities | backend/controller/api/policy_snapshot.go:143-171 | the compiled list holds exactly the identities some enabled rule reaches |
| Compiler.CompiledMembers | backend/controller/api/policy_snapshot.go:137-201 | exactly the resources of the network are compiled |
| Compiler.CompiledExactly | backend/controller/api/policy_snapshot.go:137-201 | a network compiles exactly when all its rows have addresses, to one resource for each |
| Compiler.NormalizeSnapshot | backend/controller/api/policy_snapshot.go:109-117 | sorts resources and identity lists in place |
| Compiler.NormalizedPermutes | backend/controller/api/policy_snapshot.go:109-117 | nothing is lost or gained by it |
| Compiler.NormalizedIdempotent | backend/controller/api/policy_snapshot.go:109-117 | normalising twice is normalising once |
| Compiler.CompiledIsNormal | backend/controller/api/policy_snapshot.go:65-86 | compiler output is already in normal form, so the hash covers what is sent |
| Sorting.SortForced | backend/controller/api/policy_snapshot.go:110-115 | with distinct keys any sorted arrangement is the same |
| Versions.VersionTable.PolicyVersion | backend/controller/api/policy_snapshot.go:212-223 | the next version and the new row; other rows unchanged |
| Versions.VersionCountsStretches | backend/controller/api/policy_snapshot.go:212-223 | each version is the number of stretches of equal hashes its connector has seen |
| Versions.RowTellsWhen | backend/controller/api/policy_snapshot.go:219-221 | a connector's row tells the time of its last compilation |
| Versions.VersionsPositive | backend/controller/api/policy_snapshot.go:216-218 | whatever the table holds, versions are positive |
| Versions.VersionsTrackHashes | backend/controller/api/policy_snapshot.go:212-223 | versions never go down, and are equal exactly when all hashes in between are |
| Versions.ConnectorsIndependent | backend/controller/api/policy_snapshot.go:215-221 | other connectors' compilations do not matter |
| Pipeline.CompilePolicySnapshot | backend/controller/api/policy_snapshot.go:54-93 | the snapshot of the compiled resources, numbered and signed; exactly when it fails; the whole version table afterwards, with the new row even if signing fails |
| Pipeline.OwnNetworkCompiles | backend/controller/api/policy_snapshot.go:54-93 | a connector with a network of its own gets a snapshot exactly when there is a key and all rows of the network have addresses |
| Pipeline.AssignedNetworkCompiles | backend/controller/api/policy_snapshot.go:119-135 | one with assignments only likewise, by the network of a latest assignment |
| Pipeline.SentMeta | backend/controller/api/policy_snapshot.go:69-83 | connector id, compile time and expiry each in its place; the version row tells the same version and time, and the hash of what is sent |
| Pipeline.SnapshotVersion | backend/controller/api/policy_snapshot.go:68-73 | a snapshot compiled after any history is numbered by the stretches of equal hashes of its connector, and extends that history |
| Pipeline.ScanMeansReach | backend/controller/api/policy_snapshot.go:137-201 | scanning the compiled resources answers the relational question |
| Pipeline.GoEndToEnd | backend/connector/run/run.go:701-812 | a Go connector allows a request exactly when the snapshot arrives in date, is in date, and the tables it was compiled from allow it |
| Pipeline.RustVerifiesExactly | backend/connector-rs/src/policy/cache.rs:180-215 | the same condition in terms of keys and tables |
| Pipeline.RustEndToEnd | backend/connector-rs/src/policy/cache.rs:42-178 | under that condition the Rust connector answers in date as the tables do; a bound outside 16 bits makes it ignore the message, anything else drop what it held and deny |
| Pipeline.InstantRoundTrip | backend/connector-rs/src/policy/cache.rs:238-316 | the reader gets back the instant its tests' printer printed, cut to the second, exactly before the year 2^31, and never a later one |
| Pipeline.RustOnTheClock | backend/connector-rs/src/policy/cache.rs:42-178 | with that printer and reader the Rust connector allows exactly under those conditions on key, bounds and texts, until lifetime and grace are past to the second, what the tables allow |
| Freshness.HeldWasSent | backend/connector/run/run.go:701-756 | after any run, lost, late, repeated and made-up messages included, a connector holds nothing or what some compilation signed under one of its keys |
| Freshness.IndexMeansTables | backend/controller/api/policy_snapshot.go:137-201 | deciding from compiled resources is asking the tables, for both connectors |
| Freshness.AllowsWithinLag | backend/connector/run/run.go:758-812 | an allow at time t means the tables allowed the request at a compilation no longer before t than lifetime and grace |
| Freshness.AllowsOnlyOwn | backend/controller/api/control_plane.go:318-335 | where compilations under its keys are for this connector, the tables allowed the request for it |
| Freshness.RevocationTakesEffect | backend/controller/api/policy_snapshot.go:69-71 | once lifetime and grace are past the last compilation before a revocation, the request is denied |
| Freshness.LagIsReached | backend/connector/run/run.go:713-767 | until expiry and grace are past, a connector of either kind that takes the snapshot over answers from the old tables, whatever the new ones say |
| Freshness.NewsTakesEffect | backend/controller/api/control_plane.go:261-284 | after any run, a new key, new tables, a compilation and its delivery make the new tables decide |
| Revocation.Store.DeleteUser | backend/controller/state/users.go:113-133 | the user and its memberships go, all else stays |
| Revocation.Store.DeleteGroup | backend/controller/state/users.go:215-238 | the group, its memberships and its rule rows go |
| Revocation.Store.DeleteRule | backend/controller/admin/ui_handlers.go:778-789 | only the rule's own row goes |
| Revocation.Store.CreateRule | backend/controller/admin/ui_handlers.go:723-750 | the rule and its group rows, or nothing when the id is taken |
| Revocation.Store.AddUserToGroup | backend/controller/state/users.go:268-281 | the membership is added, existing or not |
| Revocation.Store.RemoveUserFromGroup | backend/controller/state/users.go:283-293 | that membership goes |
| Revocation.DeleteUserExact | backend/controller/state/users.go:113-133 | a pair survives exactly when a path avoids the user |
| Revocation.DeletedUserStaysOut | backend/controller/state/users.go:126-131 | joining a group or being created again brings a deleted user nothing back |
| Revocation.DeleteGroupExact | backend/controller/state/users.go:215-238 | a pair survives exactly when a path avoids the group |
| Revocation.DeletedGroupStaysOut | backend/controller/state/users.go:228-236 | neither a new member of a deleted group nor a rule that lists it gets anything |
| Revocation.DeleteRuleExact | backend/controller/admin/ui_handlers.go:783-783 | a pair survives exactly when a path avoids the rule, left-over rows notwithstanding |
| Revocation.DeletionsShrinkCompiledLists | backend/controller/api/policy_snapshot.go:143-171 | the three statements for the compiled identity lists |
| Revocation.DeletionsByRow | backend/controller/state/users.go:113-238 | which rows of which tables a deletion takes, and that it takes no other |
| Revocation.RemoveMemberExact | backend/controller/state/users.go:283-293 | a pair survives exactly when a path avoids the membership |
| Revocation.AddMemberExact | backend/controller/state/users.go:268-281 | the pairs gained are the identity of the user with the resources on which an enabled rule lists the group |
| Revocation.CreateRuleExact | backend/controller/admin/ui_handlers.go:723-750 | the pairs gained are those of the rule's groups and of groups left over under its id |
| Revocation.CreationByRow | backend/controller/admin/ui_handlers.go:723-750 | which rows a new rule adds, and that no other row changes |
| Revocation.RecreatedRuleRevivesGroups | backend/controller/admin/ui_handlers.go:783-783 | a rule created under a deleted id grants the old groups |
| Diagnostics.TraceAccess | backend/controller/admin/ui_handlers.go:1729-1833 | when it errs, what it allows, and which rules it reports, for any order of rules |
| Diagnostics.MatchingByRow | backend/controller/admin/ui_handlers.go:1790-1815 | the reported rules are the matching ones, each where its row stood |
| Diagnostics.TraceMatchesCompiler | backend/controller/admin/ui_handlers.go:1740-1833 | trace and compiled identity list agree for a unique identity, existing groups and 0/1 flags |
| Diagnostics.DeletedGroupUnseen | backend/controller/state/users.go:228-236 | a membership in a deleted group is not seen by the trace |
| Diagnostics.TraceAgreesExactly | backend/controller/admin/ui_handlers.go:1740-1833 | agreement under all rules with 0/1 flags is seeing exactly the groups that hold the identity |
| Diagnostics.OddFlagDisagrees | backend/controller/admin/ui_handlers.go:1796-1796 | agreement on a flag is being 0 or 1 |
| RuleListing.GroupRows | backend/controller/admin/ui_handlers.go:673-706 | one entry per rule with its first row's fields and all its groups, early copies overwritten |
| RuleListing.OrderMembers | backend/controller/admin/ui_handlers.go:683-696 | each rule of the rows is listed once |
| RuleListing.EntryRepeatsFirstRow | backend/controller/admin/ui_handlers.go:683-696 | an entry has the fields of the first row of its rule, enabled by the flag 1 |
| RuleListing.OrderIsFirstAppearance | backend/controller/admin/ui_handlers.go:683-696 | in the order of first rows |
| RuleListing.GroupingConserves | backend/controller/admin/ui_handlers.go:697-706 | for any row order the listed (rule, group) pairs are those of the rows, with multiplicity |
| Tokens.TokenStore.constructor | backend/controller/state/token_store.go:41-49 | starts from what was saved |
| Tokens.TokenStore.Load | backend/controller/state/token_store.go:126-173 | memory becomes what was saved |
| Tokens.TokenStore.SaveLocked | backend/controller/state/token_store.go:175-215 | upserts into the table, or rewrites the file |
| Tokens.TokenStore.CreateToken | backend/controller/state/token_store.go:51-76 | an unused record under the token's hash, good for any id at every time, or up to the end of the time to live |
| Tokens.TokenStore.ConsumeToken | backend/controller/state/token_store.go:78-105 | succeeds for a live token that is unused or already this id's; binds it once |
| Tokens.TokenStore.DeleteByConnectorID | backend/controller/state/token_store.go:107-119 | drops the records bound to the id from memory |
| Tokens.FreshTokenLives | backend/controller/state/token_store.go:59-104 | until when a token just drawn is accepted, for every time to live; its first use needs a save, its later uses none |
| Tokens.OthersUntouched | backend/controller/state/token_store.go:51-119 | creating and using a token leaves all others, a deletion those of other ids |
| Tokens.TokenLife | backend/controller/state/token_store.go:51-119 | usable by anyone when fresh, by the one id once used, by nobody once deleted |
| Tokens.DeletionSurvivesRestart | backend/controller/state/token_store.go:107-119 | a deletion outlives a restart exactly when the table is not the backing, or never held such a token |
| Tokens.CutNeverExtends | backend/controller/state/token_store.go:144-144 | no expiry stays no expiry, and reloading never lengthens a life, but for one second of year 1 |
| TokenRuns.RunLags | backend/controller/state/token_store.go:51-215 | in every run, whatever the saves, used means bound, and a use that is saved is in memory with the same id |
| TokenRuns.RunTellsUses | backend/controller/state/token_store.go:99-104 | in every run the saved copy has a token as used exactly when a save has succeeded while memory held it as used |
| TokenRuns.StepConsistent | backend/controller/state/token_store.go:51-119 | every step, whatever becomes of its save, keeps served tokens with the id served, but for a restart that forgets a use |
| TokenRuns.ExposedByHistory | backend/controller/state/token_store.go:99-104 | the saved copy has a served token as unused exactly when no save has succeeded while memory held it as used |
| TokenRuns.RestartRisk | backend/controller/state/token_store.go:126-173 | a restart and one more use can serve a second id exactly when the saved copy has a served token as unused |
| TokenRuns.OneIdWhileSafe | backend/controller/state/token_store.go:78-105 | in any run with fresh tokens and whatever saves, no token serves two ids if each restart finds the uses saved |
| TokenRuns.FailedSavesMatterExactly | backend/controller/state/token_store.go:102-104 | no restart of a run can be followed by a use that serves a second id exactly when each restart finds the uses saved |
| TokenRuns.OneIdPerToken | backend/controller/state/token_store.go:78-105 | in any run with fresh tokens and successful saves no token serves two ids |
| TokenRuns.FailedSaveServesTwo | backend/controller/state/token_store.go:102-104 | one failed save and a restart suffice for two ids |
| TokenReloads.RecordsWellBound | backend/controller/state/token_store.go:78-173 | in every run, in memory and saved, a token is used exactly when it is bound |
| TokenReloads.SaveAgrees | backend/controller/state/token_store.go:175-215 | after every run whose saves succeed the table has each record of memory, cut, and the file is memory |
| TokenReloads.ReloadExact | backend/controller/state/token_store.go:126-173 | after such a run a restart restores memory, cut for the table, exactly when nothing else was saved |
| TokenReloads.NoDeletesNothingStale | backend/controller/state/token_store.go:175-203 | in every run without deletions what is saved is of tokens in memory |
| TokenReloads.NeverExtendsExactly | backend/controller/state/token_store.go:126-173 | after every run whose saves succeed a restart makes nothing more acceptable exactly when the table has no dropped record and no odd expiry is in memory |
| TokenReloads.OrdinaryRunsNeverExtend | backend/controller/state/token_store.go:126-173 | so it is after runs without deletions and odd expiries |
| TokenReloads.RunDeletionSurvives | backend/controller/state/token_store.go:107-119 | after every run whose saves succeed a deletion outlives a restart exactly when the table is not the backing or holds nothing of the id |
| ControlPlane.Registry.Add | backend/controller/state/tunneler_registry.go:23-33 | registers, keeping the first place of a known id |
| ControlPlane.Registry.List | backend/controller/state/tunneler_registry.go:35-45 | the registered tunnelers in order |
| ControlPlane.ListingMembers | backend/controller/state/tunneler_registry.go:35-45 | the listing holds exactly the registered tunnelers of the order |
| ControlPlane.ListingInOrder | backend/controller/state/tunneler_registry.go:35-45 | the listing goes through the registered ids once, in their order |
| ControlPlane.AddedKeepsOrder | backend/controller/state/tunneler_registry.go:23-33 | the order lists each registered id once, in the order of first registrations |
| ControlPlane.AddedTells | backend/controller/state/tunneler_registry.go:23-33 | a registration tells of its own id alone, and only with an id and a name |
| ControlPlane.EmptyNeverAllowed | backend/connector-rs/src/allowlist.rs:28-42 | no message puts the empty name on an allowlist |
| ControlPlane.TunnelerAllowlist.Replace | backend/connector-rs/src/allowlist.rs:28-35 | the non-empty ids of the listing |
| ControlPlane.TunnelerAllowlist.Add | backend/connector-rs/src/allowlist.rs:37-42 | one id more, unless empty |
| ControlPlane.TunnelerAllowlist.Handle | backend/connector-rs/src/main.rs:262-277 | the effect of each message; unreadable ones are ignored |
| ControlPlane.Server.AddClient | backend/controller/api/control_plane.go:175-179 | one stream per connector |
| ControlPlane.Server.RemoveClient | backend/controller/api/control_plane.go:181-185 | that stream goes |
| ControlPlane.Server.Broadcast | backend/controller/api/control_plane.go:187-200 | every connected stream gets the message once |
| ControlPlane.Server.SendAllowlist | backend/controller/api/control_plane.go:202-217 | the listing of the moment |
| ControlPlane.Server.NotifyTunnelerAllowed | backend/controller/api/control_plane.go:153-166 | registered and sent to every stream |
| Replication.StepKeeps | backend/controller/api/control_plane.go:153-217 | every step keeps registry, streams and pending broadcasts in line |
| Replication.AllowlistsConverge | backend/controller/api/control_plane.go:71-74 | in every reachable state allowlist, in-flight messages and pending broadcasts make up exactly the registry |
| Replication.QuietMeansEqual | backend/connector/run/run.go:578-618 | with nothing in flight or pending the allowlist is the registry |
| Replication.OnlyDeliveriesChangeLists | backend/connector-rs/src/main.rs:262-277 | an allowlist changes by a delivery to its connector only; connecting again keeps it |
| Replication.StreamsConserve | backend/controller/api/control_plane.go:187-217 | in every run a live stream has delivered a beginning of what was sent on it and queues the rest, in order |
| Replication.EveryoneCanCatchUp | backend/controller/api/control_plane.go:68-71 | from every reachable state any connector can be connected, sent its listing and the pending broadcasts, and brought to the registry of that state |
| Enrolment.EnrollmentServer.EnrollTunneler | backend/controller/api/enroll.go:117-165 | when it succeeds, and that only success registers and broadcasts |
| Enrolment.MalformedIgnored | backend/controller/api/enroll.go:122-134 | a request without id, token or readable key changes nothing and uses no token up |
| Enrolment.EnrolmentArrives | backend/controller/api/enroll.go:155-165 | an enrolment registers its tunneler alone, and its message, once received, puts the name on the allowlist |
| Enrolment.ListingArrives | backend/controller/api/control_plane.go:202-217 | a listing, once received, replaces the allowlist; after the registry is lost it empties it |
| Enrolment.AllowedWereEnrolled | backend/controller/api/enroll.go:135-159 | under any reordering, repetition, misdelivery or loss, an allowed id is that of a tunneler that an earlier enrolment let in, with its token |
| Enrolment.AllowedHoldTheirToken | backend/controller/api/enroll.go:251-259 | and the token of that enrolment was accepted for this id and no other, if tokens are fresh and each restart finds the uses saved |
| Spiffe.ControllerRoundTrip | backend/controller/api/interceptor.go:155-182 | printed URIs are accepted and give back role and id; renewal reissues them |
| Spiffe.ParseRoundTrip | backend/controller/api/control_plane.go:302-314 | the id is read back for the right role and for no other |
| Spiffe.ParseIgnoresRest | backend/controller/api/control_plane.go:302-314 | further path parts do not keep an id from being read |
| Spiffe.ValidIDExactly | backend/controller/api/enroll.go:326-340 | ids have 1 to 128 characters, ASCII letters and digits, minus, dot and underscore |
| Spiffe.ConnectorRoundTrip | backend/connector-rs/src/tls/spiffe.rs:42-75 | the Rust checks accept printed URIs for their role only, and read a tunneler's id back |
| Spiffe.UriInjective | backend/controller/api/enroll.go:139-143 | different roles or ids have different URIs |
| Spiffe.RenewalKeepsIdentity | backend/controller/api/enroll.go:183-191 | a renewal that succeeds issues the authenticated peer's own URI |
| Spiffe.ControllerAcceptsExactly | backend/controller/api/interceptor.go:155-182 | for any set of allowed roles, accepted are the URIs of the domain with an allowed role and one slash-free part |
| Spiffe.ConnectorAcceptsExactly | backend/connector-rs/src/tls/spiffe.rs:42-63 | accepted are the role alone and the role with anything after it |
| Renewal.TwinsAgree | backend/connector/run/run.go:538-552 | the Go wake-up time is the Rust delay from now |
| Renewal.DelayBounds | backend/connector-rs/src/renewal.rs:45-67 | at least ten seconds, not past expiry when ten remain, exactly ten inside the last 30 % |
| Renewal.SleepsToThirtyPercent | backend/connector-rs/src/renewal.rs:53-61 | far from expiry a sleep ends with 30 % of the lifetime left, or of what remains where the lifetime is not known |
| Renewal.RenewalLoop | backend/connector-rs/src/renewal.rs:6-43 | the attempts follow the rounds, and the store ends with the expiry and lifetime of the last success, or its own |
| Renewal.HeldIsLastSuccess | backend/connector-rs/src/renewal.rs:26-39 | after every run the certificate held expires and lives as the last outcome that was no failure says |
| Renewal.UnexpiredExactly | backend/connector-rs/src/renewal.rs:45-67 | after failures only, however late the installation, the k-th attempt finds an unexpired certificate exactly when k attempts fit |
| Renewal.FittingCount | backend/connector-rs/src/renewal.rs:45-67 | of a known lifetime none fits under ten seconds, otherwise the first attempt and one for every ten seconds from there to expiry |
| Renewal.NeverLapses | backend/connector-rs/src/renewal.rs:6-43 | every attempt of any run comes before the expiry told by the last success exactly when failures in a row stay below the attempts that fit that certificate |
| Renewal.DatedNeverLapses | backend/connector-rs/src/renewal.rs:6-67 | with known lifetimes: exactly when ten seconds are left at each installation and the failures stay below one and a retry for every ten seconds between first attempt and expiry |
| Renewal.IssuedMargins | backend/controller/ca/issue.go:53-59 | eleven attempts fit a connector's certificate and fifty-six a tunneler's |

## Left out

- Timestamps.Parse: i64 overflow for years beyond about 10^14, which stops a debug build and wraps in a release build; the model computes in unbounded integers.
- Literals.TextOf: texts are sequences of Unicode characters; bytes that are not UTF-8, which Go replaces, cannot be written down.
- Signature.RustAcceptsGo: by hypothesis the keyed hash tells apart all keys but those that zero bytes at the end make the same; that excludes a configured key longer than a block whose hash is the exported key.
- Pipeline.GoEndToEnd: both ends of the Go chain export one key from one TLS session; the export itself is not part of this model.
- RustCache.PolicyCache: the one-element vector the source keeps per network is the id itself.
- Policy.Platform: trimming with lower-casing and address parsing are parameters, equal for both connectors only where a statement says so.
- Sorting.Sort: the library sort is an insertion sort; where keys are distinct any sort gives the same list.
- Compiler.PolicyResources: a statement that cannot be prepared, and the columns that no decision reads.
- Database.ConnectorNetwork: the choice between assignments of the same second, which SQLite leaves open, falls on the first.
- Diagnostics.TraceAccess: the reason text, the displayed path and a missing resource name.
- Tokens.TokenStore: a missing or damaged file and the error texts; hashing collisions need no hypothesis, since everything is stated per hash.
- Replication.Step: a stream that outlives its successor's registration, the listing read before the send lock, and lost registrations on a controller restart; the last is a step of Enrolment.
- Versions.VersionTable: two compilations of one connector that overlap between reading and writing the row.
- Freshness.Run: sending keeps no order and messages no age, so every interleaving is covered; the two clocks are one, and that nobody but the controller makes a valid signature is a hypothesis.
- Spiffe.ParseUrl: percent escapes, user information, queries and fragments in URIs.
- Renewal.RenewalLoop: the duration of the renewal call, Go's overflow for lifetimes above nine years, and the true expiry of a certificate whose validity cannot be read, for which the loop's own assumption of an hour is used.
- The frontend, TLS and certificate encoding, key generation, SQL execution and migrations, HTTP routing, configuration, logging, audit rows, the watchdog, reconnect backoff, heartbeats.
- The ACL store and its authorizations table, which no decision reads.
- The tunneler's own copies of enrolment, SPIFFE checks and renewal.
