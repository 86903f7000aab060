# Noctaxris GCP, verified models of the store layer

The emulator keeps its services as tables behind `internal/store`. Most of those tables are plain. This
project models the parts that are state machines or protocols and proves what they promise:

| part | files | main results |
|---|---|---|
| Pub/Sub queue | `pubsub_*.dfy` | no message is lost under statement-by-statement interleaving with crashes; when leases are exclusive; exactly when deliveries stay under the dead-letter limit; pulls drain the backlog; filters mean what is written; over runs a subscription receives, leases and dead-letters as it was asked to |
| Object store | `gcs_*.dfy` (without `gcs_signed*` and `gcs_binding`) | reads return the most recent live put, exactly for names with paths of their own; exactly which puts the file system refuses; retention and its lock hold over whole runs, from the request that sets them on; exactly what can be deleted; delimiter listings partition the names |
| Cron search | `cron*.dfy`, `calendar.dfy` | the search finds the least matching minute; iterating it enumerates all of them up to a gap; fields denote the sets they are written for, and schedules the dates of the calendar, with the day of the week by Zeller's congruence |
| Signed requests | `query_string.dfy`, `timestamps.dfy`, `timestamp_forms.dfy`, `gcs_signed*.dfy`, `gcs_binding.dfy` | the canonical query is injective up to value order and parses back; what is minted verifies exactly in its time window; an accepted signature passes for one request only |
| Log paging | `logging_*.dfy` | seek cursors visit every entry present throughout exactly once, whatever is written meanwhile; a walk over an unchanged table ends and reads its listing; what was written is listed to those who ask for it |
| Organization policy | `org_*.dfy` | the nearest policy decides on any parent graph and is inherited along stored parents; changes are local; exactly when a set policy takes effect; normalizing specs keeps their meaning |
| Secret versions | `secrets_*.dfy` | ids are 1 to n, destroyed is final, enabled versions return what was added, changes of state take effect |
| Service perimeters | `perimeter*.dfy` | reference matching is equality of a project number, which short ids do not share; the deny check is symmetric and ignores row order |

Shared text, ordering, number and calendar laws are in `basics.dfy`, `text.dfy`, `ordering.dfy`, `decimal.dfy`
and `calendar.dfy`.

Each part is built the same way. Operations are functions from a value of the tables to a new value. A class
holds the tables as mutable fields, and its methods follow the source's checks, assignments and loops in their
order; each is proved to take the fields from the old value to the one its function gives. Formatting and look-ups
that only compute a value are functions there too. The lemmas about runs are
about those functions. The Pub/Sub calls that are several SQL statements have a second model, one step per
statement, and are proved to be the one-step operations when nothing comes between.

Instants are integers in nanoseconds and durations wrap at 64 bits where the source multiplies them. Times, random
values, ciphers, hashes and SQL functions that cannot be seen are parameters; what is assumed of them is a
predicate (`VaultOk`, `EnvOk`), and the store's own formats are proved to meet theirs (`StoreFormatsOk`).

Run `dafny verify dfyconfig.toml`.

## What the proofs turned up

Each of these is a lemma. Where a property fails, the exact condition under which it holds is proved too.

- A retention period above 9,223,372,036 seconds overflows. Raising a locked period to 9,223,372,037 is accepted
  and lets every object of the bucket be deleted at once (`LockBypassed`, `PeriodExact`).
- The delivery bound fails when a pull that read the subscription under an older policy is still in flight while
  the dead-letter policy is in force (`OlderPolicyBreaksBound`: a pull reads a subscription without a policy, an
  update sets one, and the pull's lease brings a message to the limit). It holds for every message published from
  some state on, as long as the policy is kept, exactly when every pull in flight there holds a policy with a
  dead-letter topic and a limit no higher (`DeliveryBoundExactly`).
- Two pulls can return one message under overlapping leases, but only if the second selected its rows before the
  first wrote its lease (`OverlapNeedsEarlySelect`); once both have selected it, both lease it
  (`BothSelectBothLease`).
- Object names that are not canonical share the file of a canonical one, and a put can then change what another
  name reads, or a deletion take its bytes away (`PutOverwrites`, `RemoveUnreads`, `BackslashShares`). Reads follow
  the puts over every run on a set of names exactly when no two of them have one path (`ContentExactly`,
  `CanonicalExactly`).
- A put can be refused by the file system. Over runs on canonical names that is exactly when a live object of the
  bucket, with the same generation number, has a name that the new one continues after a slash, or one put under
  that number since the bucket was created, even if deleted since, has a name that continues the new one
  (`PutFailsExactly`, `CanonicalPutFails`).
- Generation numbers are reused after the latest generation is deleted (`GenerationReused`).
- A yearly 29 February schedule has no next run for most of two years, because the search stops after two
  years (`LeapDayMissed`).
- A minted URL whose extra query has a key that lower-cases to `x-goog-signature` is signed over a text the
  verifier does not rebuild (`SignedTextKept`). Access ids with a slash sign but never verify (`HeaderVerifies`).
- A policy that passes its checks takes effect exactly when stripping the constraint's prefix again changes nothing
  and no other row has the name it would get (`SetTakesEffectExactly`). A doubled `constraints/` prefix
  is stored where no check of the same text looks (`SetUnseen`, `DoubledPrefix`) and, since its row takes the name,
  blocks the plain constraint from being set at all (`UnseenBlocks`). The HTTP handler strips a prefix and checks
  what is left before it calls the store (`internal/services/orgpolicy/handler.go:207-231`), so only a direct caller
  can pass such a text.
- Rotation without a payload copies the latest version's value only if that version is enabled. The comment at
  `internal/store/secrets.go:184-186` speaks of the latest enabled version; with the latest one disabled the code
  stores the word "rotated" even if an earlier version is enabled (`RotationKeepsValue`).
- Different project ids can have one number, and then match. Up to five ASCII characters this takes a NUL
  (`NulCollides`, `ShortIdsDiffer`).
- A number in a cron field ends at its last digit and what follows it is ignored, so that `5x` reads as 5
  (`PartMeans`).
- The comment at `internal/store/accesscontextmanager.go:437-439` says that being the same project is no excuse
  for a caller outside the perimeter. The code compares the two sides, so a project is never denied access to
  itself by a row that can be read (`SameProjectAllowed`); only a caller without a project is.

## Model

| member | source | states |
|---|---|---|
| PubSubFilter.ParseAttributeEqualityFilter | internal/store/pubsub.go:724-753 | the parsing loop yields the map of the written equalities, a repeated key keeping its last value, or the error of the first bad term |
| PubSubFilter.MessageMatchesFilter | internal/store/pubsub.go:755-769 | the matching loop decides whether the attributes hold every entry of the parsed map; a filter that does not parse matches nothing |
| PubSubFilter.ToMapKeepsLast | internal/store/pubsub.go:747-751 | the map holds exactly the written keys, each with the value of its last occurrence |
| PubSubFilter.MatchingIsConjunction | internal/store/pubsub.go:724-769 | meeting all written equalities implies matching; matching implies meeting them all, for all messages, exactly when no key is written with two values |
| PubSubFilter.PrintThenParse | internal/store/pubsub.go:724-753 | printing equalities free of the separators and reading the text back gives the same list and map |
| PubSubGrammar.TermReads | internal/store/pubsub.go:729-751 | a term is read exactly when it spells the word attributes, a dot, a key, an equals sign and a quoted value, with white space between these parts only |
| PubSubGrammar.FilterReads | internal/store/pubsub.go:724-753 | a filter writes down exactly what the texts between its separators spell, a blank one nothing, and every other text is refused |
| PubSubStore.Store.PublishFanout | internal/store/pubsub.go:450-498 | the method leaves the tables in the state of the publish operation, or reports a missing topic and changes nothing |
| PubSubStore.Store.Pull | internal/store/pubsub.go:510-589 | the method's loop over the selected rows leases and dead-letters as the pull operation does |
| PubSubStore.Store.RecordPushDeliveryFailure | internal/store/pubsub.go:594-637 | a failed push counts one more attempt or dead-letters the row, as specified |
| PubSubStore.Store.Acknowledge | internal/store/pubsub.go:641-659 | exactly the subscription's rows with the given ack ids go |
| PubSubStore.Store.ModifyAckDeadline | internal/store/pubsub.go:662-692 | exactly the named rows get the clamped new deadline |
| PubSubStore.Store.SeekToTime | internal/store/pubsub.go:695-720 | earlier rows go, later ones become available again |
| PubSubStore.Store.CreateSubscription | internal/store/pubsub.go:164-238 | a checked request inserts its row unless the name exists; errors in the source's order |
| PubSubStore.Store.UpdateSubscription | internal/store/pubsub.go:280-357 | the read row with the patch applied is written back, or the first failing check is reported |
| PubSubStore.Store.DeleteSubscription | internal/store/pubsub.go:426-447 | the subscription and its rows go |
| PubSubPull.PublishAddsOneCopyEach | internal/store/pubsub.go:449-498 | publishing adds exactly one undelivered copy with a new ack id for each subscription of the topic whose filter holds and touches nothing else |
| PubSubPull.LoopMeaning | internal/store/pubsub.go:523-588 | the loop works through a prefix of its candidates, and the fate of each depends on its own row alone |
| PubSubPull.PullMeaning | internal/store/pubsub.go:510-589 | when a pull fails, that it leases at most n, works through at least min(n, available) rows, changes no other row, and that exactly the rows worked through stop being available |
| PubSubPull.PullsDrain | internal/store/pubsub.go:510-589 | k pulls of n at a fixed clock take at least k times n off the backlog, or all of it, when the dead-letter topic does not feed the subscription |
| PubSubRequests.LeaseLasts | internal/store/pubsub.go:555-588 | every message a pull at now returns is the row it selected with one more attempt and a deadline of now plus the subscription's seconds, and can be pulled again exactly after that |
| PubSubRequests.LeaseAsRequested | internal/store/pubsub.go:510-589 | over runs, until the subscription is updated or deleted, every pull leases for the seconds that its creation or last update asked for, or 10 if these were not positive |
| PubSubRequests.PullLooksFourfold | internal/store/pubsub.go:520-545 | a pull of n returns n messages or takes the smaller of 4n and the backlog off it |
| PubSubRequests.PullAtLeastOne | internal/store/pubsub.go:510-514 | asking for no message or fewer is asking for one |
| PubSubPull.DeadlineMeaning | internal/store/pubsub.go:662-692 | exactly the named rows become available at once, or not before the given seconds, at most 600, have passed |
| PubSubPull.DeleteSubscriptionMeaning | internal/store/pubsub.go:426-447 | deleting a subscription leaves nothing to pull from it and removes exactly its own messages |
| PubSubPull.SeekMeaning | internal/store/pubsub.go:695-720 | after a seek to t a pull at any time sees exactly the subscription's messages published at t or later |
| PubSubRequests.CreateMeaning | internal/store/pubsub.go:164-238 | a creation is accepted exactly when its texts are there, its filter parses, its dead-letter policy can be had and its topic exists; a new row has what was asked for |
| PubSubRequests.UpdateMeaning | internal/store/pubsub.go:280-357 | an update is accepted exactly when the row is there and what it asks for can be had; it changes that and nothing else |
| PubSubStore.RequestsAreTrimmed | internal/store/pubsub.go:165-176 | requests reach the tables without the white space around their texts and otherwise as they were made |
| PubSubRequests.ReceivesAsRequested | internal/store/pubsub.go:449-498 | until it is updated or deleted a subscription receives one copy of exactly the messages of the topic it was created for that pass the filter it was created with, each ready to be pulled |
| PubSubRequests.DeadLettersAsRequested | internal/store/pubsub.go:594-637 | and a failed push is counted until the limit it was created with is reached, and then brings the message to the dead-letter topic it was created with |
| PubSubRequests.TopicMeaning | internal/store/pubsub.go:58-156 | a topic is there exactly from its creation to its deletion |
| PubSubRequests.PublishNeedsTopic | internal/store/pubsub.go:450-460 | publishing is refused exactly without the topic |
| PubSubRuns.StepExtends | internal/store/pubsub.go:159-720 | every operation keeps the tables consistent, never brings an ack id back and never changes a message's content |
| PubSubRuns.PoliciesAlwaysOk | internal/store/pubsub.go:183-198 | every reachable subscription has no dead-letter topic and limit 0, or a topic and a limit of 5 to 100 |
| PubSubRuns.FiltersAlwaysParse | internal/store/pubsub.go:177-182 | every stored filter parses in every reachable state |
| PubSubRuns.LeaseExclusive | internal/store/pubsub.go:523-589 | after a pull returns a message with deadline d, no pull up to d returns that ack id unless a deadline change or a seek touched it |
| PubSubRuns.AcknowledgedForGood | internal/store/pubsub.go:641-659 | an acknowledged ack id is never stored or returned again |
| PubSubInterleaved.NextOk | internal/store/pubsub.go:510-720 | every statement of every call in flight, and every crash, keeps the invariant of tables and calls |
| PubSubSafety.NoLossStep | internal/store/pubsub.go:555-576 | one statement removes a message only by its acknowledgement, a seek past it, the deletion of its subscription, or as the DELETE of a call whose dead-letter publication carries its data and attributes with the source subscription |
| PubSubSafety.CommittedBefore | internal/store/pubsub.go:555-576 | a call that has come to its dead-letter DELETE committed that very publication at an earlier step and has waited to delete ever since |
| PubSubSafety.NoLoss | internal/store/pubsub.go:616-630 | over any interleaved history a message that is gone left at one step for one of those reasons; if by a dead-letter DELETE, the same call had committed it to the dead-letter topic before |
| PubSubBound.DeliveryBound | internal/store/pubsub.go:561-587 | a message published while its subscription keeps a policy with limit M has fewer than M stored attempts in every later state, unless a pull in flight at the start holds a policy without a topic or with a higher limit |
| PubSubOverrun.StalePullOverruns | internal/store/pubsub.go:510-589 | from any state with such a pull in flight there is a history that keeps the policy and stores M attempts |
| PubSubOverrun.DeliveryBoundExactly | internal/store/pubsub.go:561-587 | so the bound holds for every history that keeps the policy exactly when no such pull is in flight |
| PubSubOverrun.LanguageMeetable | internal/store/pubsub.go:724-769 | every filter that can be stored lets some message through, as the construction of that history needs |
| PubSubOverrun.OlderPolicyBreaksBound | internal/store/pubsub.go:510-589 | from the empty store a state with such a pull is reached, by a pull that reads its subscription before an update sets the policy |
| PubSubLeases.OverlapNeedsEarlySelect | internal/store/pubsub.go:510-589 | at the level of statements, a second pull selects a leased message before the lease ends only if it selected it before the first wrote the lease, unless a deadline change or a seek comes between |
| PubSubLeases.BothSelectBothLease | internal/store/pubsub.go:523-589 | when two pulls have both selected a message and come to it, both lease it |
| PubSubRefinement.PullAlone | internal/store/pubsub.go:510-589 | the statements of a pull, undisturbed, are the one-step pull |
| PubSubRefinement.PushAlone | internal/store/pubsub.go:594-637 | the statements of a recorded push failure, undisturbed, are the one-step operation |
| PubSubRefinement.PublishAlone | internal/store/pubsub.go:450-498 | the statements of a publish, undisturbed, are the one-step publish |
| PubSubRefinement.CreateAlone | internal/store/pubsub.go:164-238 | the statements of a creation, undisturbed, are the one-step creation |
| PubSubRefinement.UpdateAlone | internal/store/pubsub.go:280-357 | the statements of an update, undisturbed, are the one-step update |
| PubSubRefinement.SeekAlone | internal/store/pubsub.go:695-720 | the statements of a seek, undisturbed, are the one-step seek |
| GcsPaths.SanitizeObjectPath | internal/store/gcs.go:800-814 | the loop drops empty, `.` and `..` segments after turning backslashes into slashes |
| GcsPaths.SanitizeNormalForm | internal/store/gcs.go:800-814 | sanitizing leaves a name alone exactly when it is canonical, and its result always is |
| GcsPaths.SharedPath | internal/store/gcs.go:292-299 | names share a path exactly when they sanitize to the same text, and canonical names only when equal |
| GcsPaths.NamelessPath | internal/store/gcs.go:810-812 | a name of which nothing is kept is stored under a fixed one |
| GcsListing.ListObjectsDelimited | internal/store/gcs.go:433-458 | the loop over the ordered names yields the items and prefixes of the listing |
| GcsListing.ListingMeaning | internal/store/gcs.go:417-463 | items are exactly the matching names without a group, prefixes exactly the groups of matching names, both strictly increasing |
| GcsListing.ListingPartitions | internal/store/gcs.go:417-463 | every matching name is an item under no returned prefix, or no item and under exactly one |
| GcsListing.WalkVisitsOnce | internal/store/gcs.go:417-463 | walking the returned prefixes visits each matching name exactly once and nothing else |
| GcsModel.GetObjectFinds | internal/store/gcs.go:376-397 | generation 0 finds the highest live number of the name, a number finds that row, and nothing is found only if there is none |
| GcsModel.NextGenerationIsNew | internal/store/gcs.go:286-291 | the next number is positive and above every live one of the name |
| GcsPolicy.BucketCreated | internal/store/gcs.go:72-112 | a bucket is created exactly with a valid name and some project, empty, unlocked and with the location and class given or the defaults; an existing one stays |
| GcsPolicy.BucketPatched | internal/store/gcs.go:174-233 | a patch replaces what it gives in its bucket and leaves the rest, every other bucket and every object |
| GcsPolicy.BucketDeleted | internal/store/gcs.go:236-263 | a bucket is deleted exactly without objects; nothing of it is left and nothing else is touched |
| GcsPolicy.BucketNameIsSegment | internal/store/gcs.go:72-80 | a valid bucket name is one path segment that means itself, so buckets have their directories to themselves |
| GcsPolicy.PutStoresHeaders | internal/store/gcs.go:300-347 | a put stores the headers it is given, with the content type of the headers, else the one beside them, else the default |
| GcsPolicy.ObjectPatched | internal/store/gcs.go:577-623 | a metadata patch is accepted exactly for an object that is there and replaces what it gives in that generation alone |
| GcsStore.Store.PutObjectBytesMeta | internal/store/gcs.go:270-347 | checks, directories, file and row are those of the put operation, errors in the source's order |
| GcsStore.Store.CheckObjectRetention | internal/store/gcs.go:730-754 | refuses exactly when the live object is younger than the period as a 64-bit duration |
| GcsStore.Store.PatchPolicy | internal/store/gcs.go:194-215 | the assignments of the retention patch amount to the specified new policy, or the lock refuses |
| GcsStore.Store.PatchBucket | internal/store/gcs.go:174-233 | the bucket row changes as specified or not at all |
| GcsStore.Store.DeleteBucket | internal/store/gcs.go:236-263 | refuses a bucket with objects; otherwise its row and files go |
| GcsStore.Store.DeleteObject | internal/store/gcs.go:686-712 | removes one row and its file unless retained |
| GcsStore.Store.PatchObjectMetadata | internal/store/gcs.go:577-623 | rewrites the headers of the found row and nothing else |
| GcsStore.Store.GatherParts | internal/store/gcs.go:634-651 | the reading loop yields the sources' latest bytes in order and the first content type, or the first failure |
| GcsStore.Store.ComposeObject | internal/store/gcs.go:626-660 | 1 to 32 sources are gathered and put as one object |
| GcsStore.Store.CopyObject | internal/store/gcs.go:663-683 | the source's bytes and headers are put under the new name |
| GcsStore.Store.ListObjectsDelimited | internal/store/gcs.go:417-463 | lists the latest generation of every live name, in name order |
| GcsContent.ReadsThroughLog | internal/store/gcs.go:376-397 | reading generation 0 gives the bytes and time of the most recent put still live; a number gives the bytes it was put with |
| GcsRefinement.EveryOperation | internal/store/gcs.go:72-712 | put, compose and copy append exactly the given, concatenated or original bytes to the log of live puts, delete drops one entry, everything else leaves it, when written names have paths of their own |
| GcsRefinement.GatherReads | internal/store/gcs.go:634-656 | composing reads the concatenation of the most recent bytes of each source, or fails because one has none |
| GcsRefinement.ComposeHeaders | internal/store/gcs.go:648-660 | a composed object has the given content type, else the first a source has, else the default, and no other header |
| GcsPolicy.ComposeExactly | internal/store/gcs.go:626-660 | composing puts the concatenation of 1 to 32 sources that are all there, and else fails for the first of the reasons and changes nothing |
| GcsRefinement.CopyHeaders | internal/store/gcs.go:675-683 | a copy has all headers of its source, an empty content type becoming the default |
| GcsRuns.CanonicalIsFaithful | internal/store/gcs.go:800-814 | no two canonical names have the same path |
| GcsRuns.ContentOfRun | internal/store/gcs.go:286-347 | after any run on such names reads return what the log of puts holds, puts of a name are numbered and timed in order, and no two rows share a file |
| GcsRuns.ContentOfCanonicalRun | internal/store/gcs.go:286-347 | the same for the store's own paths and all runs that write canonical names |
| GcsRuns.CanonicalExactly | internal/store/gcs.go:800-814 | a name keeps its path to itself among canonical names exactly when it is canonical |
| GcsRuns.PutOverwrites | internal/store/gcs.go:292-308 | a put changes what another row reads exactly when bucket, number and path agree and the bytes differ |
| GcsRuns.BackslashShares | internal/store/gcs.go:800-801 | `a/b` and `a\b` have the same path |
| GcsRuns.GenerationReused | internal/store/gcs.go:286-291 | after deleting the latest generation the next number is no higher, and the same exactly when the one below is live or it was 1 |
| GcsRuns.RemoveUnreads | internal/store/gcs.go:694-707 | removing a row changes what another reads exactly when bucket, number and path agree |
| GcsRuns.SharedPathBreaks | internal/store/gcs.go:292-308 | two admitted names with one path give a run after which the first reads as the second |
| GcsRuns.ContentExactly | internal/store/gcs.go:286-347 | reads follow the puts over every run on a set of admitted names exactly when no two of them have one path |
| GcsPuts.StepFiled | internal/store/gcs.go:236-347 | every operation keeps that files are those of the live rows and directories those above anything put since its bucket was created |
| GcsPuts.PutFailsExactly | internal/store/gcs.go:303-308 | after any run on names with paths of their own a put that passes its checks fails to make its directory exactly when a live generation of its number has a path above its own, fails to write exactly when, besides, something put under that number had a path below it, and else succeeds |
| GcsPuts.CanonicalPutFails | internal/store/gcs.go:303-308 | with the store's own paths and canonical names: fails exactly when such a name is one the new name continues after a slash, or one that continues it |
| GcsRuns.OnlyDeletesRemove | internal/store/gcs.go:72-712 | every row survives every operation with bytes and time, except the one a delete names |
| GcsRuns.RetentionSafety | internal/store/gcs.go:728-754 | over any run a generation stays readable until its age reaches the period then in force |
| GcsLock.LockStep | internal/store/gcs.go:194-215 | a lock survives every operation that leaves the bucket in place, and the period does not shrink |
| GcsLock.LockedForGood | internal/store/gcs.go:194-215 | the same over whole runs |
| GcsLock.LockedRetention | internal/store/gcs.go:235-243 | a generation in a locked bucket, its bucket and the lock are there until the locked period has passed since the put |
| GcsPolicy.RetentionPatched | internal/store/gcs.go:194-215 | a retention patch is accepted exactly on an existing bucket that is not locked, or is but whose period neither shrinks nor goes; it leaves the period asked for, locks exactly when the period is not 0 and the request or the old policy had the lock, and starts the policy at the time given or when it comes into force |
| GcsPolicy.LockRequestKeeps | internal/store/gcs.go:194-204 | over runs, after an accepted request to lock a period within the 64-bit bound, whatever is put into the bucket at any later point while it exists stays readable until the period has passed since |
| GcsPolicy.DeleteExactly | internal/store/gcs.go:686-754 | within the bound, a live generation can be deleted exactly when its bucket has no period or its age has reached it; it is gone then, and else nothing has changed |
| GcsPolicy.DeleteLatest | internal/store/gcs.go:686-712 | deleting without a generation deletes the latest |
| GcsPolicy.OverwriteExactly | internal/store/gcs.go:270-291 | within the bound, retention refuses a put exactly when the latest generation of its name is younger than the period |
| GcsLock.PeriodExact | internal/store/gcs.go:749-752 | the age test is the period's own exactly up to 9,223,372,036 seconds |
| GcsLock.FirstOverflow | internal/store/gcs.go:749-752 | among positive periods up to it, 9,223,372,037 seconds is the first that is not positive as a 64-bit duration |
| GcsLock.LockBypassed | internal/store/gcs.go:194-203 | raising a locked period to one that overflows lets any generation be deleted at once |
| CronFields.CronFieldMatch | internal/store/serverless.go:1280-1330 | the loop over the parts decides as specified: the first part that matches or cannot be read decides |
| CronFields.MatchPart | internal/store/serverless.go:1285-1328 | one part matches, misses or cannot be read, as its item says |
| CronFields.AnyHoldsMeans | internal/store/serverless.go:1285-1329 | when all parts can be read the field matches exactly when some part does |
| CronFields.OrderOfParts | internal/store/serverless.go:1285-1329 | the order and repetition of readable parts do not matter |
| CronFields.UnreadableEnds | internal/store/serverless.go:1295-1318 | what stands after a part that cannot be read is never looked at |
| CronMeaning.ReadWritten | internal/store/serverless.go:1286-1320 | reading a written term gives its item back |
| CronMeaning.HoldsDenotes | internal/store/serverless.go:1299-1327 | the test on an item is membership in the arithmetic progression, range or value the term denotes, under 64-bit differences |
| CronMeaning.FieldMeaning | internal/store/serverless.go:1280-1330 | a field of well-formed terms matches exactly the values some term denotes |
| CronMeaning.FieldOrder | internal/store/serverless.go:1280-1330 | two lists with the same terms match the same values |
| CronGrammar.PartMeans | internal/store/serverless.go:1285-1328 | a part reads as an item exactly when it says it, whatever its text: what is a sign, a number that fits in 64 bits, a range and a step, and that text after a number does not count |
| CronGrammar.ScheduleReads | internal/store/serverless.go:1254-1258 | a text is a schedule exactly when it is five words with white space around them, and these are its fields in order |
| CronDates.ScheduleMeans | internal/store/serverless.go:1266-1275 | a written schedule matches exactly the minutes whose minute, hour, day, month and day of the week its fields denote |
| CronDates.QuestionIsStar | internal/store/serverless.go:1282-1284 | a question mark stands for every value, as a star does |
| CronDates.WeekdayIsZeller | internal/store/serverless.go:1270-1273 | the day of the week counted from 1970-01-01 is the one Zeller's congruence gives for the date |
| CronSearch.NextIsLeast | internal/store/serverless.go:1264-1277 | the search finds the least matching minute strictly after the given instant, and fails exactly when none of the next 1,054,080 matches |
| CronSearch.NextMonotone | internal/store/serverless.go:1264-1277 | searching from a later instant never finds an earlier minute |
| CronSearch.NextStable | internal/store/serverless.go:1264-1277 | a later search finds the same minute exactly while that minute has not come |
| CronSearch.RunsEnumerate | internal/store/serverless.go:1254-1278 | iterating the search lists every matching minute up to its last, in order, and stops early only before a gap as long as the horizon |
| CronSearch.ReachedExactly | internal/store/serverless.go:1254-1278 | iterating reaches a matching minute exactly when no gap as long as the horizon lies before it |
| CronDates.NextRunIsDue | internal/store/serverless.go:1254-1278 | the next run of a written schedule is the first instant after the given one whose clock and calendar date its terms denote; without one none comes for two years |
| CronDates.WeeklyRuns | internal/store/serverless.go:1254-1278 | a run of a weekly schedule falls on a date of its day of the week by the congruence, at its hour and minute |
| CronDates.WeeklyFound | internal/store/serverless.go:1254-1278 | a weekly schedule has a next run within seven days of any instant |
| CronDates.OneDayMatches | internal/store/serverless.go:1270-1273 | every date is matched by exactly one of the seven days |
| CronDates.FirstThursday | internal/store/serverless.go:1270-1273 | 1970-01-01 is matched by midnight of day 4, a Thursday, and of no other day |
| CronDates.ThursdayText | internal/store/serverless.go:1254-1258 | and that schedule is the text "0 0 * * 4" |
| Cron.FindNextCronRun | internal/store/serverless.go:1254-1278 | the method finds the next run of a five-field schedule in UTC |
| Cron.SearchMinutes | internal/store/serverless.go:1264-1277 | the loop over the minutes is the bounded search |
| Cron.EveryDayIsFound | internal/store/serverless.go:1267-1276 | with `*` in the day fields and some hour and minute that match, the search succeeds within 1440 minutes |
| Cron.LeapDayMissed | internal/store/serverless.go:1265-1277 | after a leap day and until the end of the next year the 29 February schedule is not found, although the next leap day matches |
| Cron.LeapDayScheduleMeans | internal/store/serverless.go:1268-1272 | `0 0 29 2 *` matches exactly midnight of 29 February |
| Cron.Scheduler.MarkSchedulerJobAttempt | internal/store/serverless.go:949-968 | an attempt sets the attempt time and the next run from now, for that job only |
| CronDates.AttemptMeans | internal/store/serverless.go:949-968 | an attempt records its time, and the next run becomes the first instant after it that the job's schedule stands for |
| Cron.PromptAttempts | internal/store/serverless.go:949-968 | attempts made between a due run and the one after it walk through the matching minutes with none skipped or repeated |
| Cron.LateAttemptSkips | internal/store/serverless.go:957-958 | an attempt skips the following run exactly when that run is due as well |
| Calendar.DayNumberOfDate | internal/store/serverless.go:1270-1272 | the closed day number inverts the calendar that counts days one by one from 1970-01-01 in both directions |
| Calendar.DayNumberInjective | internal/store/serverless.go:1270-1272 | different dates have different day numbers |
| QueryString.EscapeIsPercentEncode | internal/store/gcs_signed.go:368-372 | escaping and rewriting plus signs is the percent-encoding of sections 2.1 and 2.3 of RFC 3986 |
| QueryString.CanonicalQueryString | internal/store/gcs_signed.go:355-377 | the loops print keys in order with their sorted values, whatever order the map gives |
| QueryString.UnescapeEncoded | internal/store/gcs_signed.go:368-372 | unescaping undoes percent-encoding |
| QueryString.ParseCanonical | internal/store/gcs_signed.go:355-377 | parsing the canonical text gives every key that has a value, with its values sorted |
| QueryString.CanonicalDecides | internal/store/gcs_signed.go:355-377 | two queries print the same exactly when they have the same sorted values for the same keys that have any |
| QueryString.CanonicalInjective | internal/store/gcs_signed.go:355-377 | without empty value lists, exactly when they are equal up to value order |
| Timestamps.StampReadsBack | internal/store/gcs_signed.go:50-51 | reading a timestamp of years 0 to 9999 gives the instant cut to whole seconds |
| TimestampForms.StampMeans | internal/store/gcs_signed.go:113-116 | a text is read as an instant exactly when it is a calendar date and time of day in the fixed digits, with a fraction of a second or without, that name that instant |
| GcsSigned.GenerateV4SignedURL | internal/store/gcs_signed.go:33-90 | the method mints the URL of the specified signed query, or the specified error |
| GcsSigned.VerifyV4SignedRequest | internal/store/gcs_signed.go:93-175 | the method accepts or rejects as specified, errors in the source's order |
| GcsSignedHeaders.SignedHeaderReadsBack | internal/store/gcs_signed.go:211-243 | for every access id without a comma, signed headers read back as the credential of that id and day, the fixed header names and the signature of the request under the secret, and their date as the second they were signed in |
| GcsSigned.VerifyGOOG4HMACHeader | internal/store/gcs_signed.go:247-319 | the method accepts or rejects as specified |
| GcsSignedLaws.StoreFormatsOk | internal/store/gcs_signed.go:50-51 | the store's timestamps and canonical queries have the properties the laws below need |
| GcsSignedLaws.MintedVerifies | internal/store/gcs_signed.go:93-175 | a minted query is accepted exactly from 15 minutes before the second it was signed in until it expires |
| GcsSignedLaws.MintedUrlVerifies | internal/store/gcs_signed.go:33-90 | the same for the query parsed again from the text of the URL |
| GcsSignedLaws.SignedTextKept | internal/store/gcs_signed.go:142-151 | the verifier rebuilds the signed text exactly when the extra query has no key that lower-cases to the signature key |
| GcsBinding.AcceptedNeeds | internal/store/gcs_signed.go:93-141 | an accepted request has the algorithm, a credential of the known access id with a scope for storage, a host among its signed headers, and a time from 15 minutes before its date to its end |
| GcsBinding.OneSignature | internal/store/gcs_signed.go:142-175 | of two signature values accepted for one request, at any times, both lower-case to the same text |
| GcsBinding.UrlBinds | internal/store/gcs_signed.go:142-175 | two requests accepted with one credential, date and signature have the same method, host, path and canonical query, for parts without line breaks, if the hash and the MAC tell the texts that are signed on the way apart |
| GcsBinding.MintedBinds | internal/store/gcs_signed.go:33-175 | so a minted signature passes for no method, host, path or query but those it was minted for |
| GcsBinding.MintExactly | internal/store/gcs_signed.go:33-49 | minting is refused exactly for a path that is not absolute or more than seven days; without a positive lifetime it is 15 minutes |
| GcsSignedHeaders.AuthorizationReadsBack | internal/store/gcs_signed.go:248-265 | reading an Authorization header gives its credential, header names and signature back |
| GcsSignedHeaders.HeaderVerifies | internal/store/gcs_signed.go:247-319 | for every access id without a comma, signed headers are accepted exactly when the id has no slash and the time is within 15 minutes of the signing second |
| GcsBinding.HeaderNeeds | internal/store/gcs_signed.go:247-319 | accepted headers have a date within 15 minutes, a scope for storage and the signature of this request under the secret |
| GcsBinding.OneHeaderSignature | internal/store/gcs_signed.go:295-319 | two accepted headers with one credential and the same header names have the same signature |
| GcsBinding.HeaderBinds | internal/store/gcs_signed.go:295-319 | two requests accepted with one credential, date and signature have the same method, host, path, canonical query and signed header names, under the same assumption |
| GcsBinding.SecretBinds | internal/store/gcs_signed.go:337-348 | headers accepted under two secrets show that these are one, if the MAC tells the keys derived on the way apart |
| GcsSignedHeaders.AccessIdReadsBack | internal/store/gcs_signed.go:321-335 | the access id is recovered exactly when it is not empty and has no slash |
| LoggingPaging.LogTable.WriteLogEntries | internal/store/logging.go:22-58 | one transaction: all entries with defaults filled in and existing ids kept, or nothing |
| LoggingPaging.LogTable.DeleteLogEntries | internal/store/logging.go:141-157 | exactly the rows of the log go, and their number is returned |
| LoggingModel.WriteOnlyAdds | internal/store/logging.go:29-33 | writing never changes a row that is there |
| LoggingQueries.ListedWasAskedFor | internal/store/logging.go:82-138 | a listing needs a project, and everything it returns is a stored entry of the project, log and times that were asked for |
| LoggingQueries.ListingIsAskedFor | internal/store/logging.go:89-112 | the listing from the beginning is exactly the stored entries that were asked for |
| LoggingQueries.PageFills | internal/store/logging.go:185-205 | a page holds as many entries as are left, up to the size asked for, 50 if none was and 1000 at most |
| LoggingQueries.WrittenIsListed | internal/store/logging.go:22-58 | a write is accepted exactly when every entry has an id, a project and a log; an entry under a new id is stored with the defaults filled in, is listed for its project and log, and for no other |
| LoggingQueries.DeletedIsUnlisted | internal/store/logging.go:141-157 | after a log is deleted its listing is empty and every other listing of one log is as before |
| LoggingPaging.PageMeans | internal/store/logging.go:82-138 | a page is in order, of bounded size, and holds only matching rows past the cursor |
| LoggingPaging.PageCovers | internal/store/logging.go:185-205 | a matching row past the cursor is on the page, or the page is full and the row comes after it |
| LoggingPaging.WalkInOrder | internal/store/logging.go:183-205 | following cursors over changing tables reads strictly in order, so never the same entry twice |
| LoggingPaging.SeekVisitsOnce | internal/store/logging.go:183-205 | an entry that matches and is there throughout is read exactly once by a finished walk, whatever changes between pages |
| LoggingPaging.SeekIsOffset | internal/store/logging.go:183-205 | on an unchanged table the page after k entries is the page at offset k |
| LoggingPaging.WalkUnchanged | internal/store/logging.go:82-138 | a finished walk over an unchanged table reads the whole listing |
| LoggingPaging.WalkFinishes | internal/store/logging.go:82-138 | on an unchanged table a walk over one page more than the full ones of its listing ends |
| LoggingPaging.LogTable.ListLogEntries | internal/store/logging.go:82-138 | the method returns the page of the query at the cursor or offset, with the page size defaulted and capped, or reports a missing project |
| LoggingPaging.DescendingIsReverse | internal/store/logging.go:194-198 | newest first is oldest first backwards |
| OrgSpec.BooleanSpecEnforced | internal/store/orgpolicy.go:246-265 | the loop reads the first rule that is set, unless the spec resets or has a field of the wrong type |
| OrgSpec.NormalizeRuleLoop | internal/store/orgpolicy.go:298-318 | the loop rewrites every rule, or reports the first that cannot be |
| OrgSpec.NormalizeIdempotent | internal/store/orgpolicy.go:269-327 | normalizing a normalized spec changes nothing |
| OrgSpec.NormalizeMeans | internal/store/orgpolicy.go:269-327 | the stored spec enforces what the given one stands for, in either version |
| OrgSpec.NormalizeAccepts | internal/store/orgpolicy.go:269-327 | a spec is accepted exactly when its v1 policy says enforced, or else its rules are a list of objects with boolean settings; every other field is kept |
| OrgSpec.EnforcedMeans | internal/store/orgpolicy.go:246-265 | a spec is enforced exactly when all of it decodes, it does not reset, and the first rule that says anything says yes |
| OrgStore.Tables.IsOrgPolicyConstraintEnforced | internal/store/orgpolicy.go:211-244 | the walk, on any graph, decides by the nearest of the first 32 distinct nodes with a policy |
| OrgStore.Tables.SetOrgPolicy | internal/store/orgpolicy.go:86-128 | a checked policy is stored normalized under its trimmed parent and constraint, unless another row has the name it would get; otherwise nothing changes |
| OrgStore.Tables.DeleteOrgPolicy | internal/store/orgpolicy.go:188-206 | the one row goes |
| OrgStore.Tables.CreateFolder | internal/store/appengine_crm.go:273-318 | inserts a folder unless its id exists |
| OrgStore.Tables.MoveFolder | internal/store/appengine_crm.go:460-488 | sets the parent of an active folder, to anything |
| OrgResolution.DecideIsNearest | internal/store/orgpolicy.go:222-243 | the answer is the setting of the first node that has one, with none before it, else no |
| OrgResolution.BoundMatters | internal/store/orgpolicy.go:222-243 | against a larger bound the answer differs exactly when the nearest setting lies beyond the bound and says yes |
| OrgResolution.ChainDistinct | internal/store/orgpolicy.go:220-226 | the nodes of a chain are distinct |
| OrgResolution.ChangesAreLocal | internal/store/orgpolicy.go:211-244 | the answer depends only on the nodes up to the nearest setting |
| OrgInherit.PolicyInherited | internal/store/orgpolicy.go:211-244 | on a path of at most 32 nodes, each below the next, the policy of the last decides for the first when no node before it has one; the parents are those the folders and projects are stored with |
| OrgInherit.SetReachesBelow | internal/store/orgpolicy.go:86-128 | a policy set on the last node of such a path is in force on the first with the meaning of its spec |
| OrgInherit.OrganizationDecides | internal/store/appengine_crm.go:219-250 | a policy of the organization is in force on every project that has none |
| OrgInherit.ValidParentMeans | internal/store/orgpolicy.go:338-352 | the nodes that can have a policy are one segment after one of the three words |
| OrgInherit.SetAccepted | internal/store/orgpolicy.go:86-107 | a policy can be set exactly on such a node, for one of the two known constraints, with a spec that is accepted, when no other row has its name |
| OrgInherit.DeleteTakesEffect | internal/store/orgpolicy.go:188-206 | a deleted policy is gone and no other is touched |
| OrgInherit.MoveTakesEffect | internal/store/appengine_crm.go:460-488 | an active folder that is moved is below its new parent, and nothing else changes |
| OrgInherit.CreateTakesEffect | internal/store/appengine_crm.go:273-318 | a folder is created exactly with a parent and a display name, active unless another state is given, and is below that parent; an existing one stays |
| OrgStore.ChainBounded | internal/store/appengine_crm.go:219-250 | on any graph a parent chain has at most two nodes more than there are folders |
| OrgStore.BoundHarmless | internal/store/orgpolicy.go:222-226 | with at most 30 folders the bound never matters |
| OrgStore.SetIsLocal | internal/store/orgpolicy.go:86-128 | setting a policy changes the answer only for checks that look at its node, for its constraint |
| OrgStore.DeleteIsLocal | internal/store/orgpolicy.go:188-206 | the same for deleting one |
| OrgStore.MoveIsLocal | internal/store/appengine_crm.go:459-488 | moving a folder changes the answer only for checks that go on above it |
| OrgStore.SetTakesEffectExactly | internal/store/orgpolicy.go:86-128 | a policy that passes its checks is stored and seen by checks of the same text exactly when no other row has its name and stripping the constraint's prefix again changes nothing |
| OrgStore.SetTakesEffect | internal/store/orgpolicy.go:86-128 | a policy set under such a text is in force on its parent with the meaning of its spec, and does not enforce without one |
| OrgStore.SetUnseen | internal/store/orgpolicy.go:54-58 | set under any other text it changes no check of that text |
| OrgStore.UnseenBlocks | internal/store/orgpolicy.go:28-36 | and it takes the name of the plain constraint, which can then not be set on that parent |
| OrgStore.NamesStayUnique | internal/store/orgpolicy.go:28-36 | setting and deleting policies keep the names of all rows different |
| OrgStore.DoubledPrefix | internal/store/orgpolicy.go:54-58 | a doubled prefix is such a text |
| SecretsRuns.IdsAreOneToN | internal/store/secrets.go:300-333 | version i is found exactly under the plain numeral of i, for i from 1 to n |
| SecretsRuns.PayloadsOfRun | internal/store/secrets.go:370-392 | after any run an enabled version reads as the payload added under its id; a destroyed one is refused and holds nothing |
| SecretsRuns.DestroyedForGood | internal/store/secrets.go:395-427 | a destroyed version stays destroyed and empty while its secret exists |
| SecretsRuns.VersionsGrow | internal/store/secrets.go:300-333 | no operation loses a version of a secret or adds more than one |
| SecretsRuns.RotationKeepsValue | internal/store/secrets.go:187-221 | rotating without a payload keeps the value read through "latest" when that version is enabled, and else stores "rotated" |
| SecretsStates.NamesVersion | internal/store/secrets.go:336-367 | a text names a version exactly when it is, trimmed, the version's numeral, or "latest" or nothing for the last |
| SecretsStates.StateTakesEffect | internal/store/secrets.go:395-427 | a change of state is accepted exactly for one of the three states and a version not yet destroyed; then reading it gives what was added, or is refused as disabled or destroyed, as asked for, and no other version changes |
| SecretsStates.StateRefused | internal/store/secrets.go:395-408 | a change of state of a version that is not there is refused |
| SecretsStates.AddedIsLatest | internal/store/secrets.go:300-333 | adding is accepted exactly for a secret that exists; the new version reads as what was added under "latest" and the next numeral |
| SecretsStates.CreatedIsEmpty | internal/store/secrets.go:54-100 | creating is accepted exactly with a name and a project; a new secret has no version and an existing one stays |
| SecretsStates.DeletedIsGone | internal/store/secrets.go:276-297 | a deleted secret cannot be read or added to, and no other changes |
| SecretsStates.RotationMeaning | internal/store/secrets.go:187-221 | a rotation with a payload makes it the latest value; any accepted one moves the next rotation on if there is a period and a time to move |
| SecretsStore.HighestId | internal/store/secrets.go:306-313 | the highest id in the rows of a secret is their number |
| SecretsStore.Store.AddSecretVersion | internal/store/secrets.go:300-333 | the row with the next id is appended |
| SecretsStore.Store.GetSecretVersion | internal/store/secrets.go:336-367 | finds the row with the highest id, or the one with the given id text |
| SecretsStore.Store.AccessSecretVersion | internal/store/secrets.go:370-392 | unseals an enabled version, refuses others |
| SecretsStore.Store.SetSecretVersionState | internal/store/secrets.go:395-427 | one row changes state, losing its ciphertext when destroyed |
| SecretsStore.Store.RotateSecretTheatre | internal/store/secrets.go:187-221 | appends the rotation's payload and advances the rotation time |
| SecretsStore.Store.CreateSecret | internal/store/secrets.go:54-100 | inserts a secret without versions unless it exists |
| SecretsStore.Store.DeleteSecret | internal/store/secrets.go:276-297 | the secret and all its versions go |
| Perimeter.LabProjectNumber | internal/store/identity.go:25-39 | the wrapping loop computes the polynomial of the id's bytes modulo 2^64, then modulo 10^12 |
| Perimeter.NumberRange | internal/store/identity.go:25-39 | the number of an id that is not blank is a plain decimal from 1 to 10^12 - 1 |
| PerimeterIds.ShortIdsDiffer | internal/store/identity.go:25-39 | different ids of at most five ASCII characters without NUL have different numbers |
| PerimeterIds.NulCollides | internal/store/identity.go:30-33 | with NUL they may not |
| PerimeterIds.EncodeInjective | internal/store/identity.go:31-33 | different ids have different bytes in UTF-8 |
| Perimeter.ProjectRefsMatch | internal/store/accesscontextmanager.go:527-544 | the method decides whether two references match |
| Perimeter.MatchIsSameNumber | internal/store/accesscontextmanager.go:527-544 | references match exactly when both are non-empty and have the same canonical number; matching is reflexive on them and symmetric |
| Perimeter.MatchTransitive | internal/store/accesscontextmanager.go:527-544 | matching is transitive |
| PerimeterIds.ShortIdsMatch | internal/store/accesscontextmanager.go:527-544 | two such ids that are not themselves numbers match exactly when they are equal |
| PerimeterIds.NumbersMatch | internal/store/accesscontextmanager.go:527-544 | two numbers match exactly when they are written with the same digits |
| Perimeter.ProjectInPerimeterResources | internal/store/accesscontextmanager.go:505-525 | a project is inside exactly when some resource lists it |
| Perimeter.ListedIsSameNumber | internal/store/accesscontextmanager.go:515-521 | for references with at most one prefix, listing is equality of the canonical number |
| Perimeter.DenyCrossPerimeter | internal/store/accesscontextmanager.go:444-494 | denies exactly when some restricting row places the projects on different sides or some row in effect cannot be read |
| Perimeter.DenySymmetric | internal/store/accesscontextmanager.go:444-494 | the verdict does not depend on row order, nor on direction between two non-empty projects |
| PerimeterIds.RowDecides | internal/store/accesscontextmanager.go:468-490 | a readable row denies exactly when it restricts the service and holds one of the two projects but not the other |
| PerimeterIds.DryRunCounts | internal/store/accesscontextmanager.go:455-480 | a dry-run spec counts exactly when it is explicit and there is no status; a row with neither decides nothing, and what cannot be read denies |
| Perimeter.SameProjectAllowed | internal/store/accesscontextmanager.go:484-489 | a row that can be read never denies a project access to itself under another spelling |

## Left out

- Text order of stored times: instants are integers, while the tables compare RFC 3339 text, which drops trailing zeros (section 5.1 of RFC 3339). Log timestamps are the exception: they are modelled as the text the table compares.
- Pub/Sub labels, push endpoints, OIDC and exactly-once columns, snapshots and `UpdateTopicLabels`: stored and returned unchanged. UUIDs are counters that never repeat.
- Object uploads in sessions, notification configurations, MD5 and CRC columns, and event delivery: nothing the modelled reads depend on. File system errors other than a file where a directory is needed, or the reverse, are not modelled, and `PutObjectBytesMeta` is one step.
- `SetObjectCreatedAt`, a hook for tests that changes creation times: runs have no such step.
- SQL `LIKE` lookups, `UPPER` and `json_extract` in log filters: one predicate of the query.
- Cron in time zones other than UTC.
- Cron.FindNextCronRun: takes the time zone to be UTC, because zone data is outside the source.
- CronFields.CronFieldMatch: takes fields without white space, because splitting the schedule at white space yields no others.
- GcsSignedLaws.MintedVerifies: the clock value zero, which the source replaces by the current time, is left to the caller; years are 0 to 9999.
- GcsSignedLaws.SignedTextKept: says which texts are hashed, not that different texts have different MACs. The laws that need this (`UrlBinds`, `MintedBinds`, `HeaderBinds`, `SecretBinds`) assume it of the texts and keys they name, because no hash has it for all.
- GcsBinding.UrlBinds: takes methods, hosts, paths and canonical queries without line breaks, because the signed text is lines and parts with line breaks can be read in two ways; `HeaderBinds` does the same.
- QueryString.CanonicalQueryString: the source sorts the value lists of its argument in place; the caller's query is a value here.
- White space and case mapping of bytes above 127 in signed requests: a character stands for one byte there.
- Parsing and printing JSON text, numbers in it, and keys that differ in case only, which Go's decoder accepts for the same field: specs and perimeters start from decoded values.
- Deleting folders.
- OrgStore.Tables.CreateFolder: takes folders to be named after their id, because nothing in scope creates one under another name.
- Perimeter.SameProjectAllowed: covers references and rows with at most one `projects/` prefix and no inner white space, because beyond that two spellings of one project need not come down to one number.
- Perimeter.ListedIsSameNumber: covers references with at most one `projects/` prefix and no inner white space; others go through the spelled-out comparisons of `Listed`.
- PerimeterIds.ShortIdsDiffer: covers ids of at most five characters, because there are more ids of six than numbers.
- Rotation periods are advanced by a parameter, because the source parses them as floating point.
- Everything around these tables: HTTP and gRPC, configuration, IAM evaluation, compute, and the plain tables of the other services.
